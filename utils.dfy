/** `convert_time` (birdcall_distribution/utils.py): "hh:mm" to hours since
    midnight, with every failure turned into NaN (here None). */
module TimeParse {
  import opened Wrappers
  import opened Decimal

  // ---------------------------------------------------------------------
  // str.split(sep)

  function CountChar(s: string, c: char): nat {
    if s == [] then 0 else CountChar(s[..|s| - 1], c) + (if s[|s| - 1] == c then 1 else 0)
  }

  /** `sep.join(parts)`. */
  function Join(parts: seq<string>, sep: char): string {
    if parts == [] then []
    else if |parts| == 1 then parts[0]
    else Join(parts[..|parts| - 1], sep) + [sep] + parts[|parts| - 1]
  }

  /** `s.split(sep)`: the pieces between separators, one more piece than
      separators. */
  function Split(s: string, sep: char): (parts: seq<string>)
    ensures |parts| == CountChar(s, sep) + 1
  {
    if s == [] then [""]
    else
      var init, c := s[..|s| - 1], s[|s| - 1];
      var p := Split(init, sep);
      if c == sep then p + [""]
      else p[..|p| - 1] + [p[|p| - 1] + [c]]
  }

  /** One more character: a separator opens a new piece, anything else
      extends the last one. */
  lemma SplitSnoc(s: string, c: char, sep: char)
    ensures var p := Split(s, sep);
      Split(s + [c], sep) == if c == sep then p + [""] else p[..|p| - 1] + [p[|p| - 1] + [c]]
  {
    assert (s + [c])[..|s|] == s;
  }

  /** No piece holds the separator, and joining the pieces gives `s` back. */
  lemma SplitJoin(s: string, sep: char)
    ensures forall i :: 0 <= i < |Split(s, sep)| ==> sep !in Split(s, sep)[i]
    ensures Join(Split(s, sep), sep) == s
  {
    SplitPieces(s, sep);
    SplitJoinBack(s, sep);
  }

  lemma {:induction false} SplitPieces(s: string, sep: char)
    ensures forall i :: 0 <= i < |Split(s, sep)| ==> sep !in Split(s, sep)[i]
  {
    if s != [] {
      var init, c := s[..|s| - 1], s[|s| - 1];
      assert s == init + [c];
      SplitPieces(init, sep);
      SplitSnoc(init, c, sep);
      var p := Split(init, sep);
      var front, last := p[..|p| - 1], p[|p| - 1];
      assert p == front + [last];
      if c != sep {
        PiecesExtendLast(front, last, c, sep);
      }
    }
  }

  lemma {:induction false} SplitJoinBack(s: string, sep: char)
    ensures Join(Split(s, sep), sep) == s
  {
    if s != [] {
      var init, c := s[..|s| - 1], s[|s| - 1];
      assert s == init + [c];
      SplitJoinBack(init, sep);
      SplitSnoc(init, c, sep);
      JoinAfterSnoc(Split(init, sep), init, c, sep, Split(s, sep));
    }
  }

  /** Joining the pieces after one more character gives the text with that character. */
  lemma JoinAfterSnoc(p: seq<string>, init: string, c: char, sep: char, r: seq<string>)
    requires |p| >= 1 && Join(p, sep) == init
    requires r == if c == sep then p + [""] else p[..|p| - 1] + [p[|p| - 1] + [c]]
    ensures Join(r, sep) == init + [c]
  {
    var front, last := p[..|p| - 1], p[|p| - 1];
    assert p == front + [last];
    if c != sep {
      JoinExtendLast(front, last, c, sep);
    } else {
      JoinSnoc(p, "", sep);
      assert init + [sep] + "" == init + [c];
    }
  }

  lemma JoinSnoc(front: seq<string>, last: string, sep: char)
    requires front != []
    ensures Join(front + [last], sep) == Join(front, sep) + [sep] + last
  {
    assert (front + [last])[..|front|] == front;
  }

  /** Extending the last piece extends the joined text. */
  lemma JoinExtendLast(front: seq<string>, last: string, c: char, sep: char)
    ensures Join(front + [last + [c]], sep) == Join(front + [last], sep) + [c]
  {
    if front == [] {
      assert [last + [c]] == [] + [last + [c]];
    } else {
      JoinSnoc(front, last + [c], sep);
      JoinSnoc(front, last, sep);
    }
  }

  lemma PiecesExtendLast(front: seq<string>, last: string, c: char, sep: char)
    requires c != sep
    requires forall i :: 0 <= i < |front + [last]| ==> sep !in (front + [last])[i]
    ensures forall i :: 0 <= i < |front + [last + [c]]| ==> sep !in (front + [last + [c]])[i]
  {
    forall i | 0 <= i < |front + [last + [c]]| ensures sep !in (front + [last + [c]])[i] {
      if i < |front| {
        assert (front + [last])[i] == front[i];
      } else {
        assert (front + [last])[i] == last;
      }
    }
  }

  /** Splitting `a:b` when neither side holds a colon gives the two sides. */
  lemma SplitAtOneColon(a: string, b: string)
    requires ':' !in a && ':' !in b
    ensures Split(a + ":" + b, ':') == [a, b]
  {
    SplitNoSep(a, ':');
    SplitSnoc(a, ':', ':');
    assert a + ":" == a + [':'];
    SplitExtend(a + ":", b, ':');
    assert "" + b == b;
  }

  lemma {:induction false} SplitNoSep(a: string, sep: char)
    requires sep !in a
    ensures Split(a, sep) == [a]
  {
    if a != [] {
      SplitNoSep(a[..|a| - 1], sep);
      SplitSnoc(a[..|a| - 1], a[|a| - 1], sep);
      assert a[..|a| - 1] + [a[|a| - 1]] == a;
    }
  }

  /** Appending text without a separator extends the last piece. */
  lemma {:induction false} SplitExtend(s: string, b: string, sep: char)
    requires sep !in b
    ensures var p := Split(s, sep);
      Split(s + b, sep) == p[..|p| - 1] + [p[|p| - 1] + b]
  {
    var p := Split(s, sep);
    if b == [] {
      assert s + b == s;
      assert p[|p| - 1] + b == p[|p| - 1];
      assert p == p[..|p| - 1] + [p[|p| - 1]];
    } else {
      var init, c := b[..|b| - 1], b[|b| - 1];
      assert sep !in init && c != sep by {
        AppendLast(s, b);
      }
      SplitExtend(s, init, sep);
      AppendLast(s, b);
      AppendLast(p[|p| - 1], b);
      SplitExtendStep(s + init, c, sep, p[..|p| - 1], p[|p| - 1] + init);
    }
  }

  lemma AppendLast(s: string, b: string)
    requires b != []
    ensures s + b == (s + b[..|b| - 1]) + [b[|b| - 1]]
    ensures b == b[..|b| - 1] + [b[|b| - 1]]
  {
  }

  lemma SplitExtendStep(t: string, c: char, sep: char, front: seq<string>, last: string)
    requires c != sep
    requires Split(t, sep) == front + [last]
    ensures Split(t + [c], sep) == front + [last + [c]]
  {
    SplitSnoc(t, c, sep);
    var q := front + [last];
    assert q[..|q| - 1] == front;
  }

  // ---------------------------------------------------------------------
  // int(text)

  /** The ASCII characters Python's `int()` strips as whitespace. */
  predicate IsSpace(c: char) {
    // space, tab to carriage return, and the four separators 0x1C-0x1F
    c == ' ' || 9 <= c as int <= 13 || 28 <= c as int <= 31
  }

  function StripLeft(s: string): (r: string)
    ensures |r| <= |s|
    ensures r != [] ==> !IsSpace(r[0])
  {
    if s != [] && IsSpace(s[0]) then StripLeft(s[1..]) else s
  }

  function StripRight(s: string): (r: string)
    ensures |r| <= |s|
    ensures r != [] ==> !IsSpace(r[|r| - 1])
  {
    if s != [] && IsSpace(s[|s| - 1]) then StripRight(s[..|s| - 1]) else s
  }

  /** Digits, with single underscores allowed between two digits. */
  predicate DigitGroups(s: string) {
    && s != [] && IsDigit(s[0]) && IsDigit(s[|s| - 1])
    && (forall i :: 0 <= i < |s| ==> IsDigit(s[i]) || s[i] == '_')
    && (forall i :: 0 <= i < |s| - 1 ==> !(s[i] == '_' && s[i + 1] == '_'))
  }

  /** The value of the digits, underscores skipped. */
  function GroupsValue(s: string): nat
    requires forall i :: 0 <= i < |s| ==> IsDigit(s[i]) || s[i] == '_'
  {
    if s == [] then 0
    else if s[|s| - 1] == '_' then GroupsValue(s[..|s| - 1])
    else 10 * GroupsValue(s[..|s| - 1]) + DigitValue(s[|s| - 1])
  }

  /** Python's `int(text)` in base 10 (ASCII): surrounding whitespace, an
      optional sign, then digit groups; anything else is a ValueError (None). */
  function PyInt(text: string): (r: Option<int>)
    ensures r.Some? ==> exists i :: 0 <= i < |text| && IsDigit(text[i])
  {
    var t := StripRight(StripLeft(text));
    if t == [] then None
    else
      var negative := t[0] == '-';
      var body := if t[0] == '-' || t[0] == '+' then t[1..] else t;
      if !DigitGroups(body) then None
      else
        StripKeepsChar(text, body[0]);
        Some(if negative then 0 - GroupsValue(body) else GroupsValue(body))
  }

  /** A character of the stripped text comes from the text. */
  lemma StripKeepsChar(text: string, c: char)
    ensures c in StripRight(StripLeft(text)) ==> c in text
  {
    StripLeftSub(text, c);
    StripRightSub(StripLeft(text), c);
  }

  lemma {:induction false} StripLeftSub(s: string, c: char)
    ensures c in StripLeft(s) ==> c in s
  {
    if s != [] && IsSpace(s[0]) {
      StripLeftSub(s[1..], c);
    }
  }

  lemma {:induction false} StripRightSub(s: string, c: char)
    ensures c in StripRight(s) ==> c in s
  {
    if s != [] && IsSpace(s[|s| - 1]) {
      StripRightSub(s[..|s| - 1], c);
    }
  }

  lemma {:induction false} GroupsValueOfDigits(s: string)
    requires AllDigits(s)
    ensures GroupsValue(s) == DecimalValue(s)
  {
    if s != [] {
      GroupsValueOfDigits(s[..|s| - 1]);
    }
  }

  /** `int(str(n)) == n`. */
  lemma PyIntOfDecimal(n: nat)
    ensures PyInt(NatToDecimal(n)) == Some(n)
  {
    PyIntOfDigits(NatToDecimal(n));
    DecimalRoundTrip(n);
  }

  /** `int()` of plain digits, leading zeros included, is their decimal value. */
  lemma PyIntOfDigits(s: string)
    requires s != [] && AllDigits(s)
    ensures PyInt(s) == Some(DecimalValue(s))
  {
    assert StripLeft(s) == s;
    assert StripRight(s) == s;
    assert DigitGroups(s);
    GroupsValueOfDigits(s);
  }

  // ---------------------------------------------------------------------
  // convert_time

  /** A cell of the time column: a string, or something else (NaN, a number). */
  datatype TimeValue = Text(s: string) | NotText

  /** `convert_time(ts)`: None wherever Python returns NaN. */
  function ConvertTime(ts: TimeValue): (r: Option<real>)
    ensures ts.NotText? ==> r.None?
    ensures ts.Text? && CountChar(ts.s, ':') != 1 ==> r.None?
  {
    match ts
    case NotText => None
    case Text(s) =>
      var parts := Split(s, ':');
      if |parts| != 2 then None
      else
        match (PyInt(parts[0]), PyInt(parts[1]))
        case (Some(h), Some(m)) => Some(h as real + m as real / 60.0)
        case _ => None
  }

  /** A time with one colon converts exactly when both sides are integers. */
  lemma ConvertTimeNeedsIntegers(a: string, b: string)
    requires ':' !in a && ':' !in b
    ensures ConvertTime(Text(a + ":" + b)).Some? <==> PyInt(a).Some? && PyInt(b).Some?
    ensures ConvertTime(Text(a + ":" + b)).Some? ==>
      ConvertTime(Text(a + ":" + b)).value == PyInt(a).value as real + PyInt(b).value as real / 60.0
  {
    SplitAtOneColon(a, b);
    var parts := Split(a + ":" + b, ':');
    assert parts[0] == a && parts[1] == b;
  }

  /** `convert_time(f"{h}:{m}")` is `h + m / 60`, with no range check on
      either part. */
  lemma ConvertTimeRoundTrip(h: nat, m: nat)
    ensures ConvertTime(Text(NatToDecimal(h) + ":" + NatToDecimal(m))) == Some(h as real + m as real / 60.0)
  {
    var hs, ms := NatToDecimal(h), NatToDecimal(m);
    DigitsHaveNoColon(hs);
    DigitsHaveNoColon(ms);
    PyIntOfDecimal(h);
    PyIntOfDecimal(m);
    ConvertTimeOfIntegers(hs, ms, h, m);
  }

  lemma ConvertTimeOfIntegers(a: string, b: string, h: int, m: int)
    requires ':' !in a && ':' !in b
    requires PyInt(a) == Some(h) && PyInt(b) == Some(m)
    ensures ConvertTime(Text(a + ":" + b)) == Some(h as real + m as real / 60.0)
  {
    ConvertTimeNeedsIntegers(a, b);
  }

  lemma DigitsHaveNoColon(s: string)
    requires AllDigits(s)
    ensures ':' !in s
  {
  }

  /** With minutes below 60 the result lies in `[h, h + 1)`. */
  lemma ConvertTimeWithinHour(a: string, b: string, h: int, m: int)
    requires ':' !in a && ':' !in b
    requires PyInt(a) == Some(h) && PyInt(b) == Some(m) && 0 <= m < 60
    ensures var r := ConvertTime(Text(a + ":" + b));
      r.Some? && h as real <= r.value < h as real + 1.0
  {
    ConvertTimeOfIntegers(a, b, h, m);
  }

  /** Zero-padded `"hh:mm"` text reads as hours and minutes. */
  lemma ConvertTimePadded()
    ensures ConvertTime(Text("07:05")) == Some(7.0 + 5.0 / 60.0)
  {
    PaddedParts();
    assert "07" + ":" + "05" == "07:05";
    ConvertTimeNeedsIntegers("07", "05");
  }

  lemma PaddedParts()
    ensures PyInt("07") == Some(7) && PyInt("05") == Some(5)
  {
    PyIntOfDigits("07");
    PyIntOfDigits("05");
    assert "07"[..1] == "0" && "05"[..1] == "0";
  }

  /** `"25:90"` is accepted: minutes are not range-checked. */
  lemma ConvertTimeOverflowingMinutes()
    ensures ConvertTime(Text("25:90")) == Some(26.5)
  {
    assert NatToDecimal(25) == "25" && NatToDecimal(90) == "90" by {
      assert DigitChar(2) == '2' && DigitChar(5) == '5' && DigitChar(9) == '9' && DigitChar(0) == '0';
    }
    ConvertTimeRoundTrip(25, 90);
    assert "25" + ":" + "90" == "25:90";
  }

  /** Text without a colon gives NaN. */
  lemma ConvertTimeNoColon()
    ensures ConvertTime(Text("1230")) == None
  {
    assert CountChar("1", ':') == 0;
    assert CountChar("12", ':') == 0 by { assert "12"[..1] == "1"; }
    assert CountChar("123", ':') == 0 by { assert "123"[..2] == "12"; }
    assert CountChar("1230", ':') == 0 by { assert "1230"[..3] == "123"; }
  }

  /** Text with two colons gives NaN. */
  lemma ConvertTimeTwoColons()
    ensures ConvertTime(Text("1:2:3")) == None
  {
    assert CountChar("1", ':') == 0;
    assert CountChar("1:", ':') == 1 by { assert "1:"[..1] == "1"; }
    assert CountChar("1:2", ':') == 1 by { assert "1:2"[..2] == "1:"; }
    assert CountChar("1:2:", ':') == 2 by { assert "1:2:"[..3] == "1:2"; }
    assert CountChar("1:2:3", ':') == 2 by { assert "1:2:3"[..4] == "1:2:"; }
  }

  /** A side that is not an integer gives NaN. */
  lemma ConvertTimeNotInteger()
    ensures ConvertTime(Text("ab:00")) == None
  {
    assert StripLeft("ab") == "ab";
    assert StripRight("ab") == "ab";
    assert !DigitGroups("ab") by { assert !IsDigit('a'); }
    assert PyInt("ab") == None;
    assert "ab" + ":" + "00" == "ab:00";
    ConvertTimeNeedsIntegers("ab", "00");
  }
}
