/** `prepare_scaled_data` (birdcall_distribution/data.py): select the data
    columns, optionally add a column of ones, replace each column named in
    `log_cols` by log(x + 1), standardise every column and label the result. */
module Scaling {
  import opened Wrappers
  import opened Seqs

  /** The input table: columns by name, each with `rows` values. */
  datatype Table = Table(columns: map<string, seq<real>>, rows: nat) {
    ghost predicate Valid() {
      forall c :: c in columns ==> |columns[c]| == rows
    }
  }

  /** A working table: column names and column values, position by position. */
  datatype Frame = Frame(names: seq<string>, cols: seq<seq<real>>) {
    ghost predicate Valid() {
      |names| == |cols| && NoDuplicates(names)
    }
  }

  datatype ScaleError =
    | MissingColumn(name: string)           // KeyError
    | ShapeMismatch(labels: nat, columns: nat) // ValueError from the DataFrame constructor

  /** `df[data_cols].copy()`; the first absent column is reported. */
  function Select(df: Table, dataCols: seq<string>): (r: Result<Frame, ScaleError>)
    requires NoDuplicates(dataCols)
    ensures r.Ok? <==> forall c :: c in dataCols ==> c in df.columns
    ensures r.Err? ==> r.error.MissingColumn? && r.error.name in dataCols && r.error.name !in df.columns
    ensures r.Ok? ==> r.value.Valid() && r.value.names == dataCols
    ensures r.Ok? ==> forall i :: 0 <= i < |dataCols| ==> r.value.cols[i] == df.columns[dataCols[i]]
  {
    if dataCols == [] then Ok(Frame([], []))
    else
      var init, c := dataCols[..|dataCols| - 1], dataCols[|dataCols| - 1];
      assert NoDuplicates(init) by {
        forall i, j | 0 <= i < j < |init| ensures init[i] != init[j] {
          assert init[i] == dataCols[i] && init[j] == dataCols[j];
        }
      }
      match Select(df, init)
      case Err(e) => Err(e)
      case Ok(f) =>
        if c !in df.columns then Err(MissingColumn(c))
        else
          assert forall i :: 0 <= i < |init| ==> init[i] == dataCols[i];
          assert dataCols == init + [c];
          Ok(Frame(f.names + [c], f.cols + [df.columns[c]]))
  }

  /** `n` ones (the intercept column). */
  function Ones(n: nat): seq<real>
  {
    seq(n, i => 1.0)
  }

  /** `temp_df[name] = values`: replaces an existing column in place, or
      appends a new one at the end. */
  function SetColumn(f: Frame, name: string, values: seq<real>): (r: Frame)
    requires f.Valid()
    ensures r.Valid()
    ensures name in f.names ==> r.names == f.names
  {
    if name in f.names then
      var i := IndexOf(f.names, name);
      Frame(f.names, f.cols[i := values])
    else
      Frame(f.names + [name], f.cols + [values])
  }

  /** `np.log(values + 1)`, with the natural logarithm given as `log`. */
  function LogPlusOne(values: seq<real>, log: real -> real): seq<real>
  {
    seq(|values|, i requires 0 <= i < |values| => log(values[i] + 1.0))
  }

  /** `temp_df[col] = np.log(temp_df[col] + 1)` (KeyError when absent). */
  function LogColumn(f: Frame, name: string, log: real -> real): (r: Result<Frame, ScaleError>)
    requires f.Valid()
    ensures r.Ok? ==> r.value.Valid() && r.value.names == f.names
  {
    if name !in f.names then Err(MissingColumn(name))
    else Ok(SetColumn(f, name, LogPlusOne(f.cols[IndexOf(f.names, name)], log)))
  }

  /** The loop over `log_cols`, one column after another. */
  function ApplyLogs(f: Frame, logCols: seq<string>, log: real -> real): (r: Result<Frame, ScaleError>)
    requires f.Valid()
    ensures r.Ok? ==> r.value.Valid() && r.value.names == f.names
  {
    if logCols == [] then Ok(f)
    else
      match ApplyLogs(f, logCols[..|logCols| - 1], log)
      case Err(e) => Err(e)
      case Ok(g) => LogColumn(g, logCols[|logCols| - 1], log)
  }

  /** The working table before the logarithms: the data columns, and the
      ones column when `intercept` is set. */
  function Prepared(df: Table, dataCols: seq<string>, intercept: bool): (r: Result<Frame, ScaleError>)
    requires NoDuplicates(dataCols)
    ensures r.Ok? ==> r.value.Valid()
  {
    match Select(df, dataCols)
    case Err(e) => Err(e)
    case Ok(f) => Ok(if intercept then SetColumn(f, "intercept", Ones(df.rows)) else f)
  }

  /** Each column standardised on its own (`StandardScaler` works column by column). */
  function StandardiseAll(cols: seq<seq<real>>, standardise: seq<real> -> seq<real>): seq<seq<real>>
  {
    seq(|cols|, i requires 0 <= i < |cols| => standardise(cols[i]))
  }

  /** `pd.DataFrame(scaled, columns=labels)`: one label per column, or ValueError. */
  function Labelled(r: Result<Frame, ScaleError>, labels: seq<string>, standardise: seq<real> -> seq<real>)
    : Result<Frame, ScaleError>
  {
    match r
    case Err(e) => Err(e)
    case Ok(f) =>
      if |labels| != |f.cols| then Err(ShapeMismatch(|labels|, |f.cols|))
      else Ok(Frame(labels, StandardiseAll(f.cols, standardise)))
  }

  /** The labels as the source writes them: "intercept" first. */
  function LabelsAsWritten(dataCols: seq<string>, intercept: bool): seq<string> {
    if intercept then ["intercept"] + dataCols else dataCols
  }

  /** The labels matching the columns: the ones column is the last. */
  function CorrectedLabels(dataCols: seq<string>, intercept: bool): seq<string> {
    if intercept then dataCols + ["intercept"] else dataCols
  }

  /** `prepare_scaled_data` as written. */
  function ScaledDataAsWritten(df: Table, dataCols: seq<string>, logCols: seq<string>, intercept: bool,
                               log: real -> real, standardise: seq<real> -> seq<real>): Result<Frame, ScaleError>
    requires NoDuplicates(dataCols)
  {
    var prepared := Prepared(df, dataCols, intercept);
    Labelled(if prepared.Ok? then ApplyLogs(prepared.value, logCols, log) else prepared,
             LabelsAsWritten(dataCols, intercept), standardise)
  }

  /** `prepare_scaled_data` with each label naming its own column. */
  function ScaledData(df: Table, dataCols: seq<string>, logCols: seq<string>, intercept: bool,
                      log: real -> real, standardise: seq<real> -> seq<real>): Result<Frame, ScaleError>
    requires NoDuplicates(dataCols)
  {
    var prepared := Prepared(df, dataCols, intercept);
    Labelled(if prepared.Ok? then ApplyLogs(prepared.value, logCols, log) else prepared,
             CorrectedLabels(dataCols, intercept), standardise)
  }

  /** Builds the working table, takes the logarithms column by column and
      labels the standardised columns. */
  method PrepareScaledData(df: Table, dataCols: seq<string>, logCols: seq<string>, intercept: bool,
                           log: real -> real, standardise: seq<real> -> seq<real>)
    returns (r: Result<Frame, ScaleError>)
    requires NoDuplicates(dataCols)
    ensures r == ScaledData(df, dataCols, logCols, intercept, log, standardise)
  {
    var prepared := Prepared(df, dataCols, intercept);
    if prepared.Err? {
      return Err(prepared.error);
    }
    var temp := prepared.value;
    var i := 0;
    while i < |logCols|
      invariant 0 <= i <= |logCols|
      invariant temp.Valid()
      invariant ApplyLogs(prepared.value, logCols[..i], log) == Ok(temp)
    {
      assert logCols[..i + 1][..i] == logCols[..i];
      var next := LogColumn(temp, logCols[i], log);
      if next.Err? {
        assert ApplyLogs(prepared.value, logCols[..i + 1], log).Err?;
        ApplyLogsErrStays(prepared.value, logCols, i + 1, log);
        assert logCols[..|logCols|] == logCols;
        return Err(next.error);
      }
      temp := next.value;
      i := i + 1;
    }
    assert logCols[..i] == logCols;
    var labels := CorrectedLabels(dataCols, intercept);
    if |labels| != |temp.cols| {
      return Err(ShapeMismatch(|labels|, |temp.cols|));
    }
    r := Ok(Frame(labels, StandardiseAll(temp.cols, standardise)));
  }

  /** Once a logarithm fails, the rest of the loop fails with the same error. */
  lemma {:induction false} ApplyLogsErrStays(f: Frame, logCols: seq<string>, k: nat, log: real -> real)
    requires f.Valid()
    requires k <= |logCols|
    requires ApplyLogs(f, logCols[..k], log).Err?
    ensures ApplyLogs(f, logCols, log) == ApplyLogs(f, logCols[..k], log)
    decreases |logCols| - k
  {
    if k < |logCols| {
      assert logCols[..k + 1][..k] == logCols[..k];
      ApplyLogsErrStays(f, logCols, k + 1, log);
    } else {
      assert logCols[..k] == logCols;
    }
  }

  // ---------------------------------------------------------------------
  // Properties

  /** `log(x + 1)` taken `n` times. */
  function LogTimes(values: seq<real>, n: nat, log: real -> real): seq<real> {
    if n == 0 then values else LogPlusOne(LogTimes(values, n - 1, log), log)
  }

  /** The loop keeps the column names, and succeeds exactly when every entry
      of `log_cols` names a column. */
  lemma {:induction false} ApplyLogsNames(f: Frame, logCols: seq<string>, log: real -> real)
    requires f.Valid()
    ensures ApplyLogs(f, logCols, log).Ok? <==> forall c :: c in logCols ==> c in f.names
  {
    if logCols != [] {
      var init := logCols[..|logCols| - 1];
      ApplyLogsNames(f, init, log);
      assert logCols == init + [logCols[|logCols| - 1]];
    }
  }

  /** After the loop, each column has had `log(x + 1)` applied once per
      occurrence of its name in `log_cols`, and the other columns are as they were. */
  lemma {:induction false} ApplyLogsColumns(f: Frame, logCols: seq<string>, log: real -> real)
    requires f.Valid()
    requires ApplyLogs(f, logCols, log).Ok?
    ensures forall i :: 0 <= i < |f.cols| ==>
      ApplyLogs(f, logCols, log).value.cols[i] == LogTimes(f.cols[i], multiset(logCols)[f.names[i]], log)
  {
    if logCols != [] {
      var init, c := logCols[..|logCols| - 1], logCols[|logCols| - 1];
      ApplyLogsColumns(f, init, log);
      var g := ApplyLogs(f, init, log).value;
      assert ApplyLogs(f, logCols, log) == LogColumn(g, c, log);
      forall i | 0 <= i < |f.cols|
        ensures ApplyLogs(f, logCols, log).value.cols[i] == LogTimes(f.cols[i], multiset(logCols)[f.names[i]], log)
      {
        assert logCols == init + [c];
        LogTimesStep(f, g, init, c, log, i);
      }
    }
  }

  /** One more pass of the loop over `log_cols`, seen from one column. */
  lemma LogTimesStep(f: Frame, g: Frame, init: seq<string>, c: string, log: real -> real, i: nat)
    requires g.Valid() && g.names == f.names && i < |f.cols| == |g.cols|
    requires LogColumn(g, c, log).Ok?
    requires g.cols[i] == LogTimes(f.cols[i], multiset(init)[f.names[i]], log)
    ensures LogColumn(g, c, log).value.cols[i] == LogTimes(f.cols[i], multiset(init + [c])[f.names[i]], log)
  {
    LogColumnAt(g, c, log, i);
    assert multiset(init + [c])[f.names[i]] == multiset(init)[f.names[i]] + (if f.names[i] == c then 1 else 0);
  }

  /** `log(x + 1)` of one column changes that column and no other. */
  lemma LogColumnAt(g: Frame, c: string, log: real -> real, i: nat)
    requires g.Valid() && LogColumn(g, c, log).Ok? && i < |g.cols|
    ensures LogColumn(g, c, log).value.cols[i] == if g.names[i] == c then LogPlusOne(g.cols[i], log) else g.cols[i]
  {
    var k := IndexOf(g.names, c);
    assert g.names[i] == c ==> i == k;
  }

  /** On success there is one column per data column, plus one when
      `intercept` is set, labelled in order. */
  lemma ScaledDataShape(df: Table, dataCols: seq<string>, logCols: seq<string>, intercept: bool,
                        log: real -> real, standardise: seq<real> -> seq<real>)
    requires NoDuplicates(dataCols)
    requires ScaledData(df, dataCols, logCols, intercept, log, standardise).Ok?
    ensures var f := ScaledData(df, dataCols, logCols, intercept, log, standardise).value;
      && |f.cols| == |f.names| == |dataCols| + (if intercept then 1 else 0)
      && f.names == CorrectedLabels(dataCols, intercept)
  {
  }

  /** The call fails exactly when a data column is absent, when an entry of
      `log_cols` names neither a data column nor the added intercept, or when
      `intercept` is set and a data column is already called "intercept" (the
      ones then overwrite it and the labels outnumber the columns). */
  lemma ScaledDataErrors(df: Table, dataCols: seq<string>, logCols: seq<string>, intercept: bool,
                         log: real -> real, standardise: seq<real> -> seq<real>)
    requires NoDuplicates(dataCols)
    ensures ScaledData(df, dataCols, logCols, intercept, log, standardise).Err? <==>
      || (exists c :: c in dataCols && c !in df.columns)
      || (exists c :: c in logCols && c !in dataCols && !(intercept && c == "intercept"))
      || (intercept && "intercept" in dataCols)
  {
    var prepared := Prepared(df, dataCols, intercept);
    if prepared.Ok? {
      var f := prepared.value;
      assert forall c :: c in f.names <==> c in dataCols || (intercept && c == "intercept");
      ApplyLogsNames(f, logCols, log);
      if intercept {
        assert |f.cols| == |dataCols| + (if "intercept" in dataCols then 0 else 1);
      }
    }
  }

  /** Before the logarithms, when "intercept" is not a data column: the data
      columns in order, then the ones when `intercept` is set. */
  lemma PreparedColumns(df: Table, dataCols: seq<string>, intercept: bool)
    requires NoDuplicates(dataCols)
    requires Prepared(df, dataCols, intercept).Ok?
    requires !(intercept && "intercept" in dataCols)
    ensures var f := Prepared(df, dataCols, intercept).value;
      && f.names == CorrectedLabels(dataCols, intercept)
      && (forall i :: 0 <= i < |dataCols| ==> dataCols[i] in df.columns && f.cols[i] == df.columns[dataCols[i]])
      && (intercept ==> f.cols[|dataCols|] == Ones(df.rows))
  {
  }

  /** Each label names its own column: data column `i` holds the standardised
      input column (after its logarithms), and the last column, when
      `intercept` is set, the standardised ones. */
  lemma ScaledColumnsNamed(df: Table, dataCols: seq<string>, logCols: seq<string>, intercept: bool,
                           log: real -> real, standardise: seq<real> -> seq<real>)
    requires NoDuplicates(dataCols)
    requires ScaledData(df, dataCols, logCols, intercept, log, standardise).Ok?
    ensures var f := ScaledData(df, dataCols, logCols, intercept, log, standardise).value;
      && (forall i :: 0 <= i < |dataCols| ==>
            dataCols[i] in df.columns && f.names[i] == dataCols[i]
            && f.cols[i] == standardise(LogTimes(df.columns[dataCols[i]], multiset(logCols)[dataCols[i]], log)))
      && (intercept ==>
            f.names[|dataCols|] == "intercept"
            && f.cols[|dataCols|] == standardise(LogTimes(Ones(df.rows), multiset(logCols)["intercept"], log)))
  {
    ScaledDataErrors(df, dataCols, logCols, intercept, log, standardise);
    var p := Prepared(df, dataCols, intercept).value;
    PreparedColumns(df, dataCols, intercept);
    ApplyLogsColumns(p, logCols, log);
    var g := ApplyLogs(p, logCols, log).value;
    var f := ScaledData(df, dataCols, logCols, intercept, log, standardise).value;
    assert f == Frame(CorrectedLabels(dataCols, intercept), StandardiseAll(g.cols, standardise));
  }

  /** As written, the labels are the corrected ones rotated: the same columns
      in the same order, with "intercept" moved to the front. Without an
      intercept the two agree. */
  lemma AsWrittenRelabels(df: Table, dataCols: seq<string>, logCols: seq<string>, intercept: bool,
                          log: real -> real, standardise: seq<real> -> seq<real>)
    requires NoDuplicates(dataCols)
    ensures var written := ScaledDataAsWritten(df, dataCols, logCols, intercept, log, standardise);
      var corrected := ScaledData(df, dataCols, logCols, intercept, log, standardise);
      && written.Ok? == corrected.Ok?
      && (written.Ok? ==> written.value.cols == corrected.value.cols)
      && (!intercept ==> written == corrected)
  {
  }

  /** The mislabelling on one input: with the data column "a" = [5.0] and an
      intercept, the column labelled "intercept" holds the data of "a" and the
      column labelled "a" holds the ones. */
  lemma InterceptLabelMismatch(log: real -> real, standardise: seq<real> -> seq<real>)
    ensures ScaledDataAsWritten(Table(map["a" := [5.0]], 1), ["a"], [], true, log, standardise)
      == Ok(Frame(["intercept", "a"], [standardise([5.0]), standardise([1.0])]))
    ensures ScaledData(Table(map["a" := [5.0]], 1), ["a"], [], true, log, standardise)
      == Ok(Frame(["a", "intercept"], [standardise([5.0]), standardise([1.0])]))
  {
    var df := Table(map["a" := [5.0]], 1);
    var p := Frame(["a", "intercept"], [[5.0], [1.0]]);
    PreparedExample();
    assert ApplyLogs(p, [], log) == Ok(p);
    assert LabelsAsWritten(["a"], true) == ["intercept", "a"];
    assert CorrectedLabels(["a"], true) == ["a", "intercept"];
    assert StandardiseAll(p.cols, standardise) == [standardise([5.0]), standardise([1.0])];
  }

  lemma SelectOne()
    ensures Select(Table(map["a" := [5.0]], 1), ["a"]) == Ok(Frame(["a"], [[5.0]]))
  {
    var selected := Select(Table(map["a" := [5.0]], 1), ["a"]);
    assert selected.Ok? && |selected.value.cols| == 1 && selected.value.cols[0] == [5.0];
    assert selected.value.cols == [[5.0]];
  }

  lemma PreparedExample()
    ensures Prepared(Table(map["a" := [5.0]], 1), ["a"], true) == Ok(Frame(["a", "intercept"], [[5.0], [1.0]]))
  {
    SelectOne();
    assert Ones(1) == [1.0];
    assert "intercept" !in ["a"];
    assert ["a"] + ["intercept"] == ["a", "intercept"];
    assert [[5.0]] + [[1.0]] == [[5.0], [1.0]];
    assert SetColumn(Frame(["a"], [[5.0]]), "intercept", Ones(1)) == Frame(["a", "intercept"], [[5.0], [1.0]]);
  }
}
