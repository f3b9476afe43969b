/** App.java's driver rule: build the evaluator from the pipeline text, feed
    it the lines of the input one at a time (each split on ','), stop feeding
    as soon as processDataRow returns false, then call finalizeProcess. Any
    exception ends the run before finalizeProcess. */
module Driver {
  import opened Wrappers
  import opened JavaLang
  import opened Rows
  import opened Operations
  import opened OperationsEnum
  import opened ChainParser
  import opened Evaluator

  /** How a run ends: an exception escaped, or finalizeProcess returned. */
  datatype RunOutcome = Crashed(fault: Fault) | Finished(emission: Emission)

  /** The reading loop: the state after the last row fed, or the exception
      that ended it. A false answer stops the loop without an error. */
  function FeedRows(st: ManagerState, lines: seq<string>, num: Numerics): (r: Result<ManagerState, Fault>)
    ensures r.Ok? ==> r.value.operations == st.operations
    ensures r.Ok? && |st.fieldList| == 0 && |lines| > 0 && |Split(lines[0], ",")| > 0 ==>
              r.value.fieldList == Split(lines[0], ",")
    ensures r.Ok? && |st.fieldList| > 0 ==> r.value.fieldList == st.fieldList
    ensures r.Ok? ==> |st.rows| <= |r.value.rows| && r.value.rows[..|st.rows|] == st.rows
    decreases |lines|
  {
    if |lines| == 0 then Ok(st)
    else
      var (next, answer) := ProcessRow(st, Split(lines[0], ","), num);
      match answer
      case Err(f) => Err(f)
      case Ok(goOn) =>
        if goOn then
          var r := FeedRows(next, lines[1..], num);
          assert r.Ok? ==> r.value.rows[..|next.rows|][..|st.rows|] == r.value.rows[..|st.rows|];
          r
        else Ok(next)
  }

  /** A first line that splits into no fields leaves the header empty and the
      check runs on width 0: a false answer stops reading with no header, a
      true one lets the next line that has fields become the header. */
  lemma FieldlessLineHeader(st: ManagerState, l: string, m: string, rest: seq<string>, num: Numerics)
    requires |st.fieldList| == 0 && |Split(l, ",")| == 0
    ensures CheckNumberOfFieldsInParams(st.operations, 0) == Ok(false) ==>
              FeedRows(st, [l, m] + rest, num) == Ok(st)
    ensures CheckNumberOfFieldsInParams(st.operations, 0) == Ok(true)
            && FeedRows(st, [l, m] + rest, num).Ok? && |Split(m, ",")| > 0 ==>
              FeedRows(st, [l, m] + rest, num).value.fieldList == Split(m, ",")
  {
    var lines := [l, m] + rest;
    assert lines[0] == l && lines[1..] == [m] + rest && ([m] + rest)[0] == m;
  }

  /** The reading loop followed by finalizeProcess, from a given evaluator state. */
  function RunLines(st: ManagerState, lines: seq<string>, num: Numerics): RunOutcome
  {
    match FeedRows(st, lines, num)
    case Err(f) => Crashed(f)
    case Ok(fed) =>
      match Finalize(fed, num)
      case Err(f) => Crashed(f)
      case Ok(e) => Finished(e)
  }

  /** main: the constructor runs first (a parse exception ends the program),
      then the reading loop and finalizeProcess. */
  function RunPipeline(expr: Option<string>, lines: seq<string>, num: Numerics): RunOutcome
  {
    match ParseChain(expr)
    case Err(f) => Crashed(f)
    case Ok(chain) => RunLines(ManagerState(chain, [], []), lines, num)
  }

  /** The loop of main over an already built evaluator. */
  method Run(manager: OperationsManager, lines: seq<string>) returns (r: RunOutcome)
    requires manager.Valid()
    modifies manager, manager.matrix
    ensures r == RunLines(old(manager.Snapshot()), lines, manager.num)
  {
    ghost var start := manager.Snapshot();
    var i := 0;
    var reading := true;
    while i < |lines| && reading
      invariant 0 <= i <= |lines| && manager.Valid()
      invariant reading ==> FeedRows(start, lines, manager.num) == FeedRows(manager.Snapshot(), lines[i..], manager.num)
      invariant !reading ==> FeedRows(start, lines, manager.num) == Ok(manager.Snapshot())
    {
      ghost var before := manager.Snapshot();
      var line := lines[i];
      var rowData := Split(line, ",");
      var goOn := manager.ProcessDataRow(rowData);
      assert lines[i..][0] == line && lines[i..][1..] == lines[i + 1..];
      if goOn.Err? {
        assert FeedRows(before, lines[i..], manager.num) == Err(goOn.error);
        return Crashed(goOn.error);
      }
      if !goOn.value {
        reading := false;
      }
      i := i + 1;
    }
    assert reading ==> lines[i..] == [];
    var emitted := manager.FinalizeProcess();
    if emitted.Err? {
      return Crashed(emitted.error);
    }
    return Finished(emitted.value);
  }

  /** main as a whole, with the pipeline text and the input lines as parameters. */
  method RunApp(expr: Option<string>, lines: seq<string>, num: Numerics) returns (r: RunOutcome)
    ensures r == RunPipeline(expr, lines, num)
  {
    var created := OperationsManager.Create(expr, num);
    if created.Err? {
      return Crashed(created.error);
    }
    r := Run(created.value, lines);
  }

  /** A pipeline in which nothing is recognised writes nothing: the header
      check answers false, so no data row is read, and the empty matrix gives
      no result. */
  lemma NothingRecognisedWritesNothing(lines: seq<string>, num: Numerics)
    ensures RunLines(ManagerState([], [], []), lines, num) == Finished(NoResults)
  {
  }

  /** A header the check rejects stops the loop at once, but finalizeProcess
      still runs the aggregations over the empty matrix. */
  lemma RejectedHeaderStillFinalizes(chain: Chain, header: string, rest: seq<string>, num: Numerics)
    requires KeysDistinct(chain)
    requires CheckNumberOfFieldsInParams(chain, |Split(header, ",")|) == Ok(false)
    ensures RunLines(ManagerState(chain, [], []), [header] + rest, num)
         == match Finalize(ManagerState(chain, Split(header, ","), []), num)
            case Err(f) => Crashed(f)
            case Ok(e) => Finished(e)
  {
    assert ([header] + rest)[0] == header;
  }

  /** So a pipeline of transformations ending in sum writes a file even
      when the header check fails: the sum of no values is one row holding 0,
      under the header's first name. */
  lemma RejectedHeaderStillSums(chain: Chain, header: string, rest: seq<string>, num: Numerics)
    requires KeysDistinct(chain) && |chain| > 0 && chain[|chain| - 1].op == Sum
    requires forall i :: 0 <= i < |chain| - 1 ==> IsTransformation(chain[i].op)
    requires |Split(header, ",")| > 0
    requires CheckNumberOfFieldsInParams(chain, |Split(header, ",")|) == Ok(false)
    ensures RunLines(ManagerState(chain, [], []), [header] + rest, num)
         == Finished(Written(CsvText(Split(header, ",")[0], [Row([Str(num.valueOf(0.0))])])))
  {
    RejectedHeaderStillFinalizes(chain, header, rest, num);
    var last := chain[|chain| - 1];
    var front := chain[..|chain| - 1];
    assert chain == front + [last];
    RunPhaseAppend(front, [last], false, Table([]), num);
    NoStepsOfKind(front, false, Table([]), num);
    NullFieldsHaveNoValues([], num);
    var agg := RunPhase(chain, false, Table([]), num);
    assert agg == Operations.Sum([], num) == NumberTable(0.0, num);
    var fields := Split(header, ",");
    assert MatrixFields(last.op, last.params, fields) == Ok(fields[0]);
    assert Finalize(ManagerState(chain, fields, []), num) == Ok(Written(CsvText(fields[0], agg.rows)));
  }
}
