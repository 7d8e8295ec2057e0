/** The lattice grid over a region and the neighbour lists of its cells
    (birdcall_distribution/geo.py). Coordinates are integers on the lattice
    `x = xmin + col * width`, `y = ymin + row * length`. */
module Geo {
  import opened Wrappers
  import opened Seqs
  import opened Decimal

  /** The polygon `[(x, y), (x + width, y), (x + width, y + length), (x, y + length)]`. */
  datatype Square = Square(x: int, y: int, width: int, length: int)

  /** Two closed axis-parallel squares intersect: they share at least one
      point, so a common edge or a common corner is enough. */
  predicate Intersects(a: Square, b: Square) {
    && a.x <= b.x + b.width && b.x <= a.x + a.width
    && a.y <= b.y + b.length && b.y <= a.y + a.length
  }

  /** A Python dict with string keys: its entries and their insertion order. */
  datatype Dict<V> = Dict(keys: seq<string>, entries: map<string, V>) {
    ghost predicate Valid() {
      NoDuplicates(keys) && forall k :: k in entries <==> k in keys
    }
  }

  /** Python's `d[k] = v`: a new key goes last, an existing key keeps its place. */
  function Put<V>(d: Dict<V>, k: string, v: V): (r: Dict<V>)
    ensures d.Valid() ==> r.Valid()
    ensures r.entries == d.entries[k := v]
    ensures r.keys == if k in d.entries then d.keys else d.keys + [k]
  {
    Dict(if k in d.entries then d.keys else d.keys + [k], d.entries[k := v])
  }

  // ---------------------------------------------------------------------
  // Candidate lattice

  /** numpy's `arange(start, stop, step)` for a positive integer step. */
  function Arange(start: int, stop: int, step: int): (r: seq<int>)
    requires step > 0
    ensures forall i :: 0 <= i < |r| ==> r[i] == start + i * step && r[i] < stop
    ensures start + |r| * step >= stop
    decreases stop - start
  {
    if start >= stop then []
    else
      var rest := Arange(start + step, stop, step);
      assert forall i :: 1 <= i <= |rest| ==> start + step + (i - 1) * step == start + i * step;
      assert start + step + |rest| * step == start + (|rest| + 1) * step;
      [start] + rest
  }

  lemma ArangeShort(start: int, stop: int, step: int)
    requires step > 0 && start + step >= stop
    ensures |Arange(start, stop, step)| <= 1
  {
  }

  lemma ArangeIncreasing(start: int, stop: int, step: int)
    requires step > 0
    ensures Increasing(Arange(start, stop, step))
  {
    var r := Arange(start, stop, step);
    forall i, j | 0 <= i < j < |r| ensures r[i] < r[j] {
      assert r[i] == start + i * step && r[j] == start + j * step;
      PositiveProduct(j - i, step);
      assert j * step == i * step + (j - i) * step;
    }
  }

  lemma PositiveProduct(a: int, b: int)
    requires a > 0 && b > 0
    ensures a * b > 0
  {
  }

  /** Python's `s[:-1]`. */
  function DropLast<T>(s: seq<T>): (r: seq<T>)
    ensures |r| == if s == [] then 0 else |s| - 1
    ensures forall i :: 0 <= i < |r| ==> r[i] == s[i]
  {
    if s == [] then [] else s[..|s| - 1]
  }

  /** The lower-left corners tried on each axis: `cols[:-1]` and `rows[:-1]`. */
  function CandidateXs(xmin: int, xmax: int, width: int): seq<int>
    requires width > 0
  {
    DropLast(Arange(xmin, xmax + width, width))
  }

  function CandidateYs(ymin: int, ymax: int, length: int): seq<int>
    requires length > 0
  {
    DropLast(Arange(ymin, ymax + length, length))
  }

  /** The candidate corners on one axis: none when the extent is empty;
      otherwise lattice points starting at `min`, all below `max`, the last
      one's cell reaching `max` (so the lattice may end past `max`). */
  lemma CandidatesCoverExtent(min: int, max: int, step: int)
    requires step > 0
    ensures var c := DropLast(Arange(min, max + step, step));
      && (min >= max ==> c == [])
      && (min < max ==>
        && |c| >= 1
        && (forall i :: 0 <= i < |c| ==> c[i] == min + i * step && min <= c[i] < max)
        && c[|c| - 1] + step >= max)
  {
    var r := Arange(min, max + step, step);
    var c := DropLast(r);
    if min >= max {
      ArangeShort(min, max + step, step);
    } else {
      assert |r| >= 2 by {
        assert r[0] == min;
        assert min + |r| * step >= max + step;
      }
      var n := |r|;
      assert r[n - 1] == min + (n - 1) * step;
      assert r[n - 2] == min + (n - 2) * step;
      assert (n - 1) * step == (n - 2) * step + step;
      forall i | 0 <= i < |c| ensures c[i] < max {
        assert c[i] == r[i];
        ArangeIncreasing(min, max + step, step);
        if i < n - 2 { assert r[i] < r[n - 2]; }
      }
    }
  }

  // ---------------------------------------------------------------------
  // Grid specification

  /** The cells kept in column `x`, bottom to top. */
  function KeptColumn(region: Square -> bool, x: int, ys: seq<int>, width: int, length: int): (r: seq<Square>)
    ensures |r| <= |ys|
  {
    if ys == [] then []
    else
      var sq := Square(x, ys[|ys| - 1], width, length);
      KeptColumn(region, x, ys[..|ys| - 1], width, length) + (if region(sq) then [sq] else [])
  }

  /** The cells kept over all columns, column by column (x-major, y-minor). */
  function KeptCells(region: Square -> bool, xs: seq<int>, ys: seq<int>, width: int, length: int): (r: seq<Square>)
  {
    if xs == [] then []
    else KeptCells(region, xs[..|xs| - 1], ys, width, length) + KeptColumn(region, xs[|xs| - 1], ys, width, length)
  }

  lemma {:induction false} KeptColumnMembers(region: Square -> bool, x: int, ys: seq<int>, width: int, length: int, s: Square)
    ensures s in KeptColumn(region, x, ys, width, length)
      <==> s.x == x && s.y in ys && s.width == width && s.length == length && region(s)
  {
    if ys != [] {
      var sq := Square(x, ys[|ys| - 1], width, length);
      KeptColumnMembers(region, x, ys[..|ys| - 1], width, length, s);
      assert KeptColumn(region, x, ys, width, length)
        == KeptColumn(region, x, ys[..|ys| - 1], width, length) + (if region(sq) then [sq] else []);
      assert ys == ys[..|ys| - 1] + [ys[|ys| - 1]];
      assert s.y in ys <==> s.y in ys[..|ys| - 1] || s.y == ys[|ys| - 1];
      assert s == Square(x, ys[|ys| - 1], width, length)
        <==> s.x == x && s.y == ys[|ys| - 1] && s.width == width && s.length == length;
    }
  }

  /** A square is kept exactly when it is a candidate square the region intersects. */
  lemma {:induction false} KeptCellsMembers(region: Square -> bool, xs: seq<int>, ys: seq<int>, width: int, length: int, s: Square)
    ensures s in KeptCells(region, xs, ys, width, length)
      <==> s.x in xs && s.y in ys && s.width == width && s.length == length && region(s)
  {
    if xs != [] {
      KeptCellsMembers(region, xs[..|xs| - 1], ys, width, length, s);
      KeptColumnMembers(region, xs[|xs| - 1], ys, width, length, s);
      assert xs == xs[..|xs| - 1] + [xs[|xs| - 1]];
      assert s.x in xs <==> s.x in xs[..|xs| - 1] || s.x == xs[|xs| - 1];
    }
  }

  /** Python's `f"{x}_{y}"` on integer coordinates. */
  function CellKey(x: int, y: int): string {
    IntToDecimal(x) + "_" + IntToDecimal(y)
  }

  function KeyOf(s: Square): string {
    CellKey(s.x, s.y)
  }

  /** Index of the first `_` in `s`, or `|s|` when there is none. */
  function FirstUnderscore(s: string): (i: nat)
    ensures i <= |s|
    ensures forall k :: 0 <= k < i ==> s[k] != '_'
    ensures i < |s| ==> s[i] == '_'
  {
    if s == [] then 0 else if s[0] == '_' then 0 else 1 + FirstUnderscore(s[1..])
  }

  /** Splits a cell key at its first `_` and reads both coordinates back. */
  function ParseCellKey(k: string): Option<(int, int)> {
    var i := FirstUnderscore(k);
    if i == |k| then None
    else match (ParseDecimalInt(k[..i]), ParseDecimalInt(k[i + 1..]))
      case (Some(x), Some(y)) => Some((x, y))
      case _ => None
  }

  /** A cell key names its corner: parsing it gives the corner back. */
  lemma CellKeyRoundTrip(x: int, y: int)
    ensures ParseCellKey(CellKey(x, y)) == Some((x, y))
  {
    var a, b := IntToDecimal(x), IntToDecimal(y);
    var k := CellKey(x, y);
    assert k[..|a|] == a && k[|a|] == '_' && k[|a| + 1..] == b;
    assert FirstUnderscore(k) == |a| by {
      FirstUnderscoreAt(k, |a|);
    }
    IntRoundTrip(x);
    IntRoundTrip(y);
  }

  lemma FirstUnderscoreAt(s: string, i: nat)
    requires i < |s| && s[i] == '_'
    requires forall k :: 0 <= k < i ==> s[k] != '_'
    ensures FirstUnderscore(s) == i
  {
    var j := FirstUnderscore(s);
    assert j <= i;
    assert j < |s| && s[j] == '_';
  }

  /** Distinct corners give distinct keys. */
  lemma CellKeyInjective(x1: int, y1: int, x2: int, y2: int)
    requires CellKey(x1, y1) == CellKey(x2, y2)
    ensures x1 == x2 && y1 == y2
  {
    CellKeyRoundTrip(x1, y1);
    CellKeyRoundTrip(x2, y2);
  }

  lemma DistinctCornersDistinctKeys(a: Square, b: Square)
    requires a.x != b.x || a.y != b.y
    ensures KeyOf(a) != KeyOf(b)
  {
    CellKeyRoundTrip(a.x, a.y);
    CellKeyRoundTrip(b.x, b.y);
  }

  /** The dict `generate_grid` builds when it assigns `cells` in order. */
  function GridOf(cells: seq<Square>): Dict<Square> {
    if cells == [] then Dict([], map[])
    else Put(GridOf(cells[..|cells| - 1]), KeyOf(cells[|cells| - 1]), cells[|cells| - 1])
  }

  predicate LexLess(a: Square, b: Square) {
    a.x < b.x || (a.x == b.x && a.y < b.y)
  }

  ghost predicate Ascending(cells: seq<Square>) {
    forall i, j :: 0 <= i < j < |cells| ==> LexLess(cells[i], cells[j])
  }

  lemma {:induction false} KeptColumnAscending(region: Square -> bool, x: int, ys: seq<int>, width: int, length: int)
    requires Increasing(ys)
    ensures Ascending(KeptColumn(region, x, ys, width, length))
  {
    if ys != [] {
      var init := ys[..|ys| - 1];
      KeptColumnAscending(region, x, init, width, length);
      var c := KeptColumn(region, x, init, width, length);
      var sq := Square(x, ys[|ys| - 1], width, length);
      forall s | s in c ensures s.x == x && s.y < ys[|ys| - 1] {
        KeptColumnMembers(region, x, init, width, length, s);
        var k :| 0 <= k < |init| && init[k] == s.y;
      }
      if region(sq) {
        var r := c + [sq];
        forall i, j | 0 <= i < j < |r| ensures LexLess(r[i], r[j]) {
          if j == |c| { assert r[i] in c; }
        }
      }
    }
  }

  /** The grid is listed x-major, y-minor: corners strictly increase lexicographically. */
  lemma {:induction false} KeptCellsAscending(region: Square -> bool, xs: seq<int>, ys: seq<int>, width: int, length: int)
    requires Increasing(xs) && Increasing(ys)
    ensures Ascending(KeptCells(region, xs, ys, width, length))
  {
    if xs != [] {
      var init := xs[..|xs| - 1];
      KeptCellsAscending(region, init, ys, width, length);
      KeptColumnAscending(region, xs[|xs| - 1], ys, width, length);
      var a := KeptCells(region, init, ys, width, length);
      var b := KeptColumn(region, xs[|xs| - 1], ys, width, length);
      forall s | s in a ensures s.x < xs[|xs| - 1] {
        KeptCellsMembers(region, init, ys, width, length, s);
        var k :| 0 <= k < |init| && init[k] == s.x;
      }
      forall s | s in b ensures s.x == xs[|xs| - 1] {
        KeptColumnMembers(region, xs[|xs| - 1], ys, width, length, s);
      }
      forall i, j | 0 <= i < j < |a + b| ensures LexLess((a + b)[i], (a + b)[j]) {
        if i < |a| && j >= |a| {
          assert (a + b)[i] in a && (a + b)[j] in b;
        }
      }
    }
  }

  /** Assigning ascending cells in order appends each under its own key. */
  lemma {:induction false} GridOfAscending(cells: seq<Square>)
    requires Ascending(cells)
    ensures GridOf(cells).Valid()
    ensures |GridOf(cells).keys| == |cells|
    ensures forall i :: 0 <= i < |cells| ==>
      GridOf(cells).keys[i] == KeyOf(cells[i]) && GridOf(cells).entries[KeyOf(cells[i])] == cells[i]
  {
    if cells != [] {
      var init, last := cells[..|cells| - 1], cells[|cells| - 1];
      AscendingPrefix(cells);
      GridOfAscending(init);
      forall i | 0 <= i < |init| ensures KeyOf(init[i]) != KeyOf(last) {
        assert LexLess(cells[i], cells[|cells| - 1]);
        DistinctCornersDistinctKeys(init[i], last);
      }
      PutFreshCell(GridOf(init), cells);
    }
  }

  /** Putting a cell whose key is new after the cells already in `g`, one
      key each, appends it. */
  lemma PutFreshCell(g: Dict<Square>, cells: seq<Square>)
    requires cells != []
    requires g.Valid() && |g.keys| == |cells| - 1
    requires forall i :: 0 <= i < |cells| - 1 ==> g.keys[i] == KeyOf(cells[i]) && g.entries[KeyOf(cells[i])] == cells[i]
    requires forall i :: 0 <= i < |cells| - 1 ==> KeyOf(cells[i]) != KeyOf(cells[|cells| - 1])
    ensures var r := Put(g, KeyOf(cells[|cells| - 1]), cells[|cells| - 1]);
      && r.Valid() && |r.keys| == |cells|
      && forall i :: 0 <= i < |cells| ==> r.keys[i] == KeyOf(cells[i]) && r.entries[KeyOf(cells[i])] == cells[i]
  {
    var last := cells[|cells| - 1];
    forall i | 0 <= i < |g.keys| ensures g.keys[i] != KeyOf(last) {
    }
    assert KeyOf(last) !in g.entries;
    var r := Put(g, KeyOf(last), last);
    assert r.keys == g.keys + [KeyOf(last)] && r.entries == g.entries[KeyOf(last) := last];
    forall i | 0 <= i < |cells| ensures r.keys[i] == KeyOf(cells[i]) && r.entries[KeyOf(cells[i])] == cells[i] {
      if i < |cells| - 1 {
        assert r.keys[i] == g.keys[i];
      }
    }
  }

  lemma AscendingPrefix(cells: seq<Square>)
    requires Ascending(cells) && cells != []
    ensures Ascending(cells[..|cells| - 1])
  {
  }

  // ---------------------------------------------------------------------
  // generate_grid

  /** `generate_grid(shape, (xmin, xmax, ymin, ymax), (length, width))`: tries
      every candidate corner column by column and keeps the square when the
      region intersects it, under the key `f"{x}_{y}"`. */
  method GenerateGrid(region: Square -> bool, xmin: int, xmax: int, ymin: int, ymax: int, length: int, width: int)
    returns (polygons: Dict<Square>)
    requires length > 0 && width > 0
    ensures polygons == GridOf(KeptCells(region, CandidateXs(xmin, xmax, width), CandidateYs(ymin, ymax, length), width, length))
  {
    var cols := Arange(xmin, xmax + width, width);
    var rows := Arange(ymin, ymax + length, length);
    var xs, ys := DropLast(cols), DropLast(rows);
    polygons := Dict([], map[]);
    var i := 0;
    while i < |xs|
      invariant 0 <= i <= |xs|
      invariant polygons == GridOf(KeptCells(region, xs[..i], ys, width, length))
    {
      polygons := AddColumn(region, xs[i], ys, width, length, polygons, KeptCells(region, xs[..i], ys, width, length));
      RowStep(region, xs, i, ys, width, length);
      i := i + 1;
    }
    assert xs[..|xs|] == xs;
  }

  /** The inner loop of `generate_grid`: one column `x`, bottom to top. */
  method AddColumn(region: Square -> bool, x: int, ys: seq<int>, width: int, length: int,
                   polygons0: Dict<Square>, ghost before: seq<Square>)
    returns (polygons: Dict<Square>)
    requires polygons0 == GridOf(before)
    ensures polygons == GridOf(before + KeptColumn(region, x, ys, width, length))
  {
    polygons := polygons0;
    assert before + KeptColumn(region, x, ys[..0], width, length) == before;
    var j := 0;
    while j < |ys|
      invariant 0 <= j <= |ys|
      invariant polygons == GridOf(before + KeptColumn(region, x, ys[..j], width, length))
    {
      var y := ys[j];
      var polygon := Square(x, y, width, length);
      GridColumnStep(region, x, ys, j, width, length, before);
      if region(polygon) {
        polygons := Put(polygons, CellKey(x, y), polygon);
      }
      j := j + 1;
    }
    assert ys[..|ys|] == ys;
  }

  /** One pass of the inner loop: the grid grows by the next square exactly
      when the region intersects it. */
  lemma GridColumnStep(region: Square -> bool, x: int, ys: seq<int>, j: nat, width: int, length: int,
                       before: seq<Square>)
    requires j < |ys|
    ensures var sq := Square(x, ys[j], width, length);
      var g := GridOf(before + KeptColumn(region, x, ys[..j], width, length));
      GridOf(before + KeptColumn(region, x, ys[..j + 1], width, length))
        == if region(sq) then Put(g, CellKey(x, ys[j]), sq) else g
  {
    var sq := Square(x, ys[j], width, length);
    var k0 := KeptColumn(region, x, ys[..j], width, length);
    var k1 := KeptColumn(region, x, ys[..j + 1], width, length);
    ColumnStep(region, x, ys, j, width, length);
    if region(sq) {
      assert k1 == k0 + [sq];
      SnocAssoc(before, k0, sq);
      GridOfSnoc(before + k0, sq);
    } else {
      assert k1 == k0;
    }
  }

  lemma SnocAssoc<T>(a: seq<T>, b: seq<T>, c: T)
    ensures a + (b + [c]) == (a + b) + [c]
  {
  }

  lemma ColumnStep(region: Square -> bool, x: int, ys: seq<int>, j: nat, width: int, length: int)
    requires j < |ys|
    ensures var sq := Square(x, ys[j], width, length);
      KeptColumn(region, x, ys[..j + 1], width, length)
        == KeptColumn(region, x, ys[..j], width, length) + (if region(sq) then [sq] else [])
  {
    assert ys[..j + 1][..j] == ys[..j];
  }

  lemma RowStep(region: Square -> bool, xs: seq<int>, i: nat, ys: seq<int>, width: int, length: int)
    requires i < |xs|
    ensures KeptCells(region, xs[..i + 1], ys, width, length)
      == KeptCells(region, xs[..i], ys, width, length) + KeptColumn(region, xs[i], ys, width, length)
  {
    assert xs[..i + 1][..i] == xs[..i];
  }

  lemma GridOfSnoc(cells: seq<Square>, c: Square)
    ensures GridOf(cells + [c]) == Put(GridOf(cells), KeyOf(c), c)
  {
    assert (cells + [c])[..|cells|] == cells;
  }

  /** What `generate_grid` returns: one entry per kept cell, in x-major order,
      under its own corner's key, and a cell is kept exactly when it is a
      candidate square the region intersects. */
  lemma GenerateGridContents(region: Square -> bool, xmin: int, xmax: int, ymin: int, ymax: int, length: int, width: int)
    requires length > 0 && width > 0
    ensures var xs, ys := CandidateXs(xmin, xmax, width), CandidateYs(ymin, ymax, length);
      var cells := KeptCells(region, xs, ys, width, length);
      var g := GridOf(cells);
      && g.Valid()
      && |g.keys| == |cells|
      && (forall i :: 0 <= i < |cells| ==> g.keys[i] == KeyOf(cells[i]) && g.entries[g.keys[i]] == cells[i])
      && (forall s :: s in cells <==> s.x in xs && s.y in ys && s.width == width && s.length == length && region(s))
      && Ascending(cells)
  {
    var xs, ys := CandidateXs(xmin, xmax, width), CandidateYs(ymin, ymax, length);
    ArangeIncreasing(xmin, xmax + width, width);
    ArangeIncreasing(ymin, ymax + length, length);
    KeptCellsAscending(region, xs, ys, width, length);
    forall s ensures s in KeptCells(region, xs, ys, width, length)
      <==> s.x in xs && s.y in ys && s.width == width && s.length == length && region(s)
    {
      KeptCellsMembers(region, xs, ys, width, length, s);
    }
    GridOfAscending(KeptCells(region, xs, ys, width, length));
  }

  // ---------------------------------------------------------------------
  // Lattice neighbours

  lemma ScaledWithinOne(d: int, w: int)
    requires w > 0
    ensures (-w <= d * w <= w) <==> (-1 <= d <= 1)
  {
    if d >= 2 {
      assert d * w == w + (d - 1) * w;
      assert (d - 1) * w >= w;
    } else if d <= -2 {
      assert d * w == -w + (d + 1) * w;
      assert (d + 1) * w <= -w;
    } else {
      assert d == -1 || d == 0 || d == 1;
    }
  }

  /** Two lattice cells intersect exactly when their columns and their rows
      each differ by at most one: edge and corner neighbours both count. */
  lemma LatticeIntersects(xmin: int, ymin: int, width: int, length: int, c1: int, r1: int, c2: int, r2: int)
    requires width > 0 && length > 0
    ensures Intersects(Square(xmin + c1 * width, ymin + r1 * length, width, length),
                       Square(xmin + c2 * width, ymin + r2 * length, width, length))
        <==> -1 <= c1 - c2 <= 1 && -1 <= r1 - r2 <= 1
  {
    assert (xmin + c1 * width) - (xmin + c2 * width) == (c1 - c2) * width;
    assert (ymin + r1 * length) - (ymin + r2 * length) == (r1 - r2) * length;
    ScaledWithinOne(c1 - c2, width);
    ScaledWithinOne(r1 - r2, length);
  }

  // ---------------------------------------------------------------------
  // generate_grid_adjaceny_list

  /** `other` goes into `key`'s list: a different key whose polygon intersects. */
  predicate IsNeighbour(polygons: Dict<Square>, key: string, other: string) {
    key in polygons.entries && other in polygons.entries && key != other
    && Intersects(polygons.entries[key], polygons.entries[other])
  }

  /** The neighbour list of `key` after scanning the keys `ks` in order. */
  function Neighbours(polygons: Dict<Square>, key: string, ks: seq<string>): (r: seq<string>)
    ensures |r| <= |ks|
  {
    if ks == [] then []
    else
      var o := ks[|ks| - 1];
      Neighbours(polygons, key, ks[..|ks| - 1]) + (if IsNeighbour(polygons, key, o) then [o] else [])
  }

  lemma {:induction false} NeighboursMembers(polygons: Dict<Square>, key: string, ks: seq<string>, o: string)
    ensures o in Neighbours(polygons, key, ks) <==> o in ks && IsNeighbour(polygons, key, o)
  {
    if ks != [] {
      NeighboursMembers(polygons, key, ks[..|ks| - 1], o);
      assert ks == ks[..|ks| - 1] + [ks[|ks| - 1]];
    }
  }

  /** `generate_grid_adjaceny_list(polygons)`: for each key in order, a fresh
      list to which every other intersecting key is appended in order. The
      list is built in a local before it is stored, which gives the same dict
      as appending to `adj[key]` in place, since nothing reads it meanwhile. */
  method GenerateAdjacencyList(polygons: Dict<Square>) returns (adj: Dict<seq<string>>)
    requires polygons.Valid()
    ensures adj.Valid()
    ensures adj.keys == polygons.keys
    ensures forall k :: k in adj.entries ==> adj.entries[k] == Neighbours(polygons, k, polygons.keys)
  {
    adj := Dict([], map[]);
    var ks := polygons.keys;
    var i := 0;
    while i < |ks|
      invariant 0 <= i <= |ks|
      invariant adj.Valid() && adj.keys == ks[..i]
      invariant forall k :: k in adj.entries ==> adj.entries[k] == Neighbours(polygons, k, ks)
    {
      var key := ks[i];
      var neighbours := NeighbourList(polygons, key);
      AdjacencyStep(adj, ks, i, neighbours);
      adj := Put(adj, key, neighbours);
      i := i + 1;
    }
    assert ks[..|ks|] == ks;
  }

  /** The inner loop: the keys whose squares intersect that of `key`, in dict order. */
  method NeighbourList(polygons: Dict<Square>, key: string) returns (neighbours: seq<string>)
    requires polygons.Valid() && key in polygons.entries
    ensures neighbours == Neighbours(polygons, key, polygons.keys)
  {
    var ks := polygons.keys;
    neighbours := [];
    var j := 0;
    while j < |ks|
      invariant 0 <= j <= |ks|
      invariant neighbours == Neighbours(polygons, key, ks[..j])
    {
      var other := ks[j];
      NeighboursStep(polygons, key, ks, j);
      if key != other && Intersects(polygons.entries[key], polygons.entries[other]) {
        neighbours := neighbours + [other];
      }
      j := j + 1;
    }
    assert ks[..|ks|] == ks;
  }

  /** `adj[key] = ...` for the next key adds it last and keeps the dict well formed. */
  lemma AdjacencyStep(adj: Dict<seq<string>>, ks: seq<string>, i: nat, v: seq<string>)
    requires NoDuplicates(ks) && i < |ks|
    requires adj.Valid() && adj.keys == ks[..i]
    ensures Put(adj, ks[i], v).Valid()
    ensures Put(adj, ks[i], v).keys == ks[..i + 1]
  {
    NotYetListed(ks, i);
    assert ks[..i + 1] == ks[..i] + [ks[i]];
  }

  lemma NeighboursStep(polygons: Dict<Square>, key: string, ks: seq<string>, j: nat)
    requires j < |ks|
    ensures Neighbours(polygons, key, ks[..j + 1])
      == Neighbours(polygons, key, ks[..j]) + (if IsNeighbour(polygons, key, ks[j]) then [ks[j]] else [])
  {
    assert ks[..j + 1][..j] == ks[..j];
  }

  lemma NotYetListed(ks: seq<string>, i: nat)
    requires NoDuplicates(ks) && i < |ks|
    ensures ks[i] !in ks[..i]
  {
  }

  /** No key is its own neighbour. */
  lemma NoSelfNeighbour(polygons: Dict<Square>, key: string)
    ensures key !in Neighbours(polygons, key, polygons.keys)
  {
    NeighboursMembers(polygons, key, polygons.keys, key);
  }

  /** Adjacency is symmetric, because intersection of squares is. */
  lemma NeighboursSymmetric(polygons: Dict<Square>, a: string, b: string)
    requires polygons.Valid()
    ensures b in Neighbours(polygons, a, polygons.keys) <==> a in Neighbours(polygons, b, polygons.keys)
  {
    NeighboursMembers(polygons, a, polygons.keys, b);
    NeighboursMembers(polygons, b, polygons.keys, a);
  }

  /** `r` is `ks` with some elements left out, the rest in their order. */
  predicate SubsequenceOf(r: seq<string>, ks: seq<string>) {
    if r == [] then true
    else if ks == [] then false
    else if r[|r| - 1] == ks[|ks| - 1] then SubsequenceOf(r[..|r| - 1], ks[..|ks| - 1])
    else SubsequenceOf(r, ks[..|ks| - 1])
  }

  /** Each neighbour list has no duplicates and lists neighbours in the dict's order. */
  lemma {:induction false} NeighboursOrdered(polygons: Dict<Square>, key: string, ks: seq<string>)
    requires NoDuplicates(ks)
    ensures NoDuplicates(Neighbours(polygons, key, ks))
    ensures SubsequenceOf(Neighbours(polygons, key, ks), ks)
  {
    if ks != [] {
      var init, o := ks[..|ks| - 1], ks[|ks| - 1];
      NeighboursOrdered(polygons, key, init);
      var p := Neighbours(polygons, key, init);
      NeighboursMembers(polygons, key, init, o);
      assert o !in init;
      assert o !in p;
      assert p != [] ==> p[|p| - 1] in p;
      if IsNeighbour(polygons, key, o) {
        var r := p + [o];
        assert r[..|p|] == p;
        assert SubsequenceOf(r, ks);
        assert forall i :: 0 <= i < |p| ==> r[i] == p[i];
        assert NoDuplicates(r);
      } else {
        assert Neighbours(polygons, key, ks) == p;
        assert SubsequenceOf(p, ks);
      }
    }
  }
}
