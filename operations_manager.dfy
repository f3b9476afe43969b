/** OperationsManager.java: the two-phase evaluator. The first row fixes the
    header and is checked against the index parameters; every later row runs
    through the transformation steps and is appended to the running matrix;
    at the end the aggregation steps run once over that matrix and the result
    is written out with a header chosen by the last operator. */
module Evaluator {
  import opened Wrappers
  import opened JavaLang
  import opened Rows
  import opened Matrices
  import opened Operations
  import opened OperationsEnum
  import opened ChainParser

  // ------------------------------------------------------------------ the two phases

  /** doRunOperation, run only while the running result is a matrix: a null
      result skips every later step, and an exception ends the loop. */
  function RunStep(current: Outcome, st: Step, num: Numerics): (r: Outcome)
    ensures !current.Table? ==> r == current
  {
    if current.Table? then Apply(st.op, current.rows, st.params, num) else current
  }

  /** runTransformationOperations (transformation = true) and
      runAggregationOperations (false): the steps of that kind, in map order,
      each taking the previous one's result. */
  function RunPhase(chain: Chain, transformation: bool, input: Outcome, num: Numerics): Outcome
  {
    if |chain| == 0 then input
    else
      var prev := RunPhase(chain[..|chain| - 1], transformation, input, num);
      var st := chain[|chain| - 1];
      if IsTransformation(st.op) == transformation then RunStep(prev, st, num) else prev
  }

  /** Running a chain is running its first part and then the rest on that result. */
  lemma {:induction false} RunPhaseAppend(c1: Chain, c2: Chain, transformation: bool, input: Outcome, num: Numerics)
    ensures RunPhase(c1 + c2, transformation, input, num)
         == RunPhase(c2, transformation, RunPhase(c1, transformation, input, num), num)
  {
    if |c2| > 0 {
      var c2init := c2[..|c2| - 1];
      RunPhaseAppend(c1, c2init, transformation, input, num);
      assert (c1 + c2)[..|c1 + c2| - 1] == c1 + c2init;
    } else {
      assert c1 + c2 == c1;
    }
  }

  /** Once the result is null (or an exception was thrown) nothing later changes it. */
  lemma {:induction false} NonMatrixAbsorbs(chain: Chain, transformation: bool, input: Outcome, num: Numerics)
    requires !input.Table?
    ensures RunPhase(chain, transformation, input, num) == input
  {
    if |chain| > 0 {
      NonMatrixAbsorbs(chain[..|chain| - 1], transformation, input, num);
    }
  }

  /** A step that yields null makes the whole phase null, whatever follows. */
  lemma NullStopsThePhase(c1: Chain, c2: Chain, transformation: bool, input: Outcome, num: Numerics)
    requires RunPhase(c1, transformation, input, num).NoResult?
    ensures RunPhase(c1 + c2, transformation, input, num).NoResult?
  {
    RunPhaseAppend(c1, c2, transformation, input, num);
    NonMatrixAbsorbs(c2, transformation, RunPhase(c1, transformation, input, num), num);
  }

  /** A phase with no step of its kind returns its input unchanged. */
  lemma {:induction false} NoStepsOfKind(chain: Chain, transformation: bool, input: Outcome, num: Numerics)
    requires forall i :: 0 <= i < |chain| ==> IsTransformation(chain[i].op) != transformation
    ensures RunPhase(chain, transformation, input, num) == input
  {
    if |chain| > 0 {
      NoStepsOfKind(chain[..|chain| - 1], transformation, input, num);
    }
  }

  /** The transformation phase never yields null, and never makes a matrix longer. */
  lemma {:induction false} TransformationPhaseShrinks(chain: Chain, rows: seq<Row>, num: Numerics)
    ensures !RunPhase(chain, true, Table(rows), num).NoResult?
    ensures RunPhase(chain, true, Table(rows), num).Table? ==> |RunPhase(chain, true, Table(rows), num).rows| <= |rows|
  {
    if |chain| > 0 {
      TransformationPhaseShrinks(chain[..|chain| - 1], rows, num);
    }
  }

  /** The aggregation phase never throws: every aggregation catches its exceptions. */
  lemma {:induction false} AggregationPhaseNeverThrows(chain: Chain, rows: seq<Row>, num: Numerics)
    ensures !RunPhase(chain, false, Table(rows), num).Thrown?
  {
    if |chain| > 0 {
      AggregationPhaseNeverThrows(chain[..|chain| - 1], rows, num);
    }
  }

  // ------------------------------------------------------------------ validation

  predicate HasParameters(st: Step)
  {
    st.params.Some? && |st.params.value| > 0
  }

  /** The first entry whose parameter list is present and not empty, or -1. */
  function FirstParameterised(chain: Chain): (i: int)
    ensures -1 <= i < |chain|
    ensures i >= 0 ==> HasParameters(chain[i]) && forall k :: 0 <= k < i ==> !HasParameters(chain[k])
    ensures i < 0 ==> forall k :: 0 <= k < |chain| ==> !HasParameters(chain[k])
  {
    if |chain| == 0 then -1
    else if HasParameters(chain[0]) then 0
    else
      var i := FirstParameterised(chain[1..]);
      assert forall k :: 1 <= k < |chain| ==> chain[k] == chain[1..][k - 1];
      if i < 0 then -1 else i + 1
  }

  /** checkNumberOfFieldsInParams: false for an empty map; otherwise only the
      first parameterised entry is looked at, and the Integer.parseInt of its
      lexicographically largest parameter must be below the header width. */
  function CheckNumberOfFieldsInParams(chain: Chain, width: nat): (r: Result<bool, Fault>)
    ensures |chain| == 0 ==> r == Ok(false)
    ensures r.Err? ==> r.error == NumberFormat
    ensures |chain| > 0 && FirstParameterised(chain) < 0 ==> r == Ok(true)
    ensures |chain| > 0 && FirstParameterised(chain) >= 0 ==>
              var top := MaxString(chain[FirstParameterised(chain)].params.value);
              (r.Err? <==> ParseInt(top).Err?)
              && (r == Ok(false) <==> ParseInt(top).Ok? && ParseInt(top).value >= width)
              && (forall p :: p in chain[FirstParameterised(chain)].params.value ==> !LexLess(top, p))
  {
    if |chain| == 0 then Ok(false)
    else
      var i := FirstParameterised(chain);
      if i < 0 then Ok(true)
      else
        match ParseInt(MaxString(chain[i].params.value))
        case Err(f) => Err(f)
        case Ok(v) => Ok(v < width)
  }

  /** Only the first parameterised entry counts: entries after it, whatever
      their parameters, do not change the outcome. */
  lemma ValidationLooksAtFirstOnly(chain: Chain, later: Chain, width: nat)
    requires FirstParameterised(chain) >= 0
    ensures CheckNumberOfFieldsInParams(chain + later, width) == CheckNumberOfFieldsInParams(chain, width)
  {
    var i := FirstParameterised(chain);
    FirstParameterisedPrefix(chain, later);
    assert (chain + later)[i] == chain[i];
  }

  lemma {:induction false} FirstParameterisedPrefix(chain: Chain, later: Chain)
    requires FirstParameterised(chain) >= 0
    ensures FirstParameterised(chain + later) == FirstParameterised(chain)
  {
    if !HasParameters(chain[0]) {
      FirstParameterisedPrefix(chain[1..], later);
      assert (chain + later)[1..] == chain[1..] + later;
    }
  }

  /** The check compares strings, not numbers: for pluck(10,9) the largest
      parameter is "9", so a ten-field header passes, although pluck then
      reads field 10 of ten-field rows and throws. */
  lemma ValidationComparesText(row: Row)
    requires |row.data| == 10
    ensures CheckNumberOfFieldsInParams([Step(Pluck, Some(["10", "9"]))], 10) == Ok(true)
    ensures Operations.Pluck([row], Some(["10", "9"])) == Thrown(IndexOutOfBounds)
  {
    assert LexLess("10", "9");
    assert MaxString(["10", "9"]) == "9";
    assert NatText(9) == "9" && NatText(10) == "10";
    ParseIntOfNatText(9);
    ParseIntOfNatText(10);
  }

  /** A segment name(inner) with no other parentheses has as parameters
      the pieces of inner between commas. */
  lemma ParamListOfCall(name: string, inner: string)
    requires '(' !in name && ')' !in name && '(' !in inner && ')' !in inner
    ensures ParamList(name + "(" + inner + ")") == Ok(Split(inner, ","))
  {
    var seg := name + "(" + inner + ")";
    assert seg[|name|] == '(';
    assert forall k :: 0 <= k < |name| ==> seg[k] == name[k];
    assert IndexOfChar(seg, '(') == |name|;
    assert seg[|seg| - 1] == ')';
    assert seg[|name| + 1..|seg| - 1] == inner;
  }

  /** The segment pluck(10,9) declares the parameter list ["10", "9"]. */
  lemma PluckTenNineParameters()
    ensures ParamList("pluck(10,9)") == Ok(["10", "9"])
  {
    var seg := "pluck" + "(" + "10,9" + ")";
    assert seg == "pluck(10,9)" by {
      assert |seg| == 11 && forall k :: 0 <= k < 11 ==> seg[k] == "pluck(10,9)"[k];
    }
    ParamListOfCall("pluck", "10,9");
    TenNineSplit();
  }

  /** "10,9" splits on ',' into "10" and "9". */
  lemma TenNineSplit()
    ensures Split("10,9", ",") == ["10", "9"]
  {
    assert "10,9"[0..1][0] == '1' && "10,9"[1..2][0] == '0';
    assert OccursAt("10,9", ",", 2) && !OccursAt("10,9", ",", 0) && !OccursAt("10,9", ",", 1);
    assert IndexOf("10,9", ",") == 2;
    assert "10,9"[..2] == "10" && "10,9"[3..] == "9";
    assert !OccursAt("9", ",", 0);
    assert IndexOf("9", ",") == -1;
    assert SplitAll("10,9", ",") == ["10", "9"];
  }

  /** With a space after the comma the second parameter is " 9", which sorts
      before "10", so the check compares 10 with the width and answers false. */
  lemma SpacedParametersCompareAsText()
    ensures CheckNumberOfFieldsInParams([Step(Pluck, Some(["10", " 9"]))], 10) == Ok(false)
  {
    assert LexLess(" 9", "10");
    assert MaxString(["10", " 9"]) == "10";
    assert NatText(10) == "10";
    ParseIntOfNatText(10);
  }

  // ------------------------------------------------------------------ output

  /** getMatrixFields: the header line of the output file, chosen by the last
      operator: pluck's field name, filter's whole header, and field 0's name
      otherwise. List.get and Integer.parseInt throw as in Java. */
  function MatrixFields(last: Operation, params: Option<seq<string>>, fieldList: seq<string>): (r: Result<string, Fault>)
    ensures last == Filter ==> r == Ok(JoinWith(fieldList, ","))
    ensures last != Filter && last != Pluck ==> (r.Ok? <==> |fieldList| > 0) && (r.Ok? ==> r.value == fieldList[0])
    ensures last == Pluck ==>
              (r.Ok? <==> Parameter(params, IndexParameter).Ok?
                          && ParseInt(Parameter(params, IndexParameter).value).Ok?
                          && 0 <= ParseInt(Parameter(params, IndexParameter).value).value < |fieldList|)
    ensures last == Pluck && r.Ok? ==>
              (exists i :: 0 <= i < |fieldList| && r.value == fieldList[i]
                 && Parameter(params, IndexParameter).Ok? && ParseInt(Parameter(params, IndexParameter).value) == Ok(i))
    ensures r.Err? ==> r.error in {IndexOutOfBounds, NumberFormat, NullPointer}
  {
    match last
    case Pluck =>
      (match Parameter(params, IndexParameter)
       case Err(f) => Err(f)
       case Ok(p) =>
         match ParseInt(p)
         case Err(f) => Err(f)
         case Ok(i) => if 0 <= i < |fieldList| then Ok(fieldList[i]) else Err(IndexOutOfBounds))
    case Filter => Ok(JoinWith(fieldList, ","))
    case _ => if |fieldList| > 0 then Ok(fieldList[0]) else Err(IndexOutOfBounds)
  }

  /** The row lines of the output file: each row's getRowDataWithDelimiter(",")
      (String.join of one string is that string), then a line break. */
  function RowLines(rows: seq<Row>): string
  {
    if |rows| == 0 then "" else RowLines(rows[..|rows| - 1]) + DelimitedText(rows[|rows| - 1].data, ",") + "\n"
  }

  /** The whole output file: the header line, then one line per row. */
  function CsvText(header: string, rows: seq<Row>): string
  {
    header + "\n" + RowLines(rows)
  }

  /** The lines of a matrix are the lines of its first rows followed by those of the rest. */
  lemma {:induction false} RowLinesAppend(rows: seq<Row>, more: seq<Row>)
    ensures RowLines(rows + more) == RowLines(rows) + RowLines(more)
  {
    if |more| > 0 {
      var init := more[..|more| - 1];
      var line := DelimitedText(more[|more| - 1].data, ",") + "\n";
      RowLinesAppend(rows, init);
      assert (rows + more)[..|rows + more| - 1] == rows + init;
      assert (rows + more)[|rows + more| - 1] == more[|more| - 1];
      calc {
        RowLines(rows + more);
        RowLines(rows + init) + line;
        (RowLines(rows) + RowLines(init)) + line;
        RowLines(rows) + (RowLines(init) + line);
        RowLines(rows) + RowLines(more);
      }
    } else {
      assert rows + more == rows;
    }
  }

  /** Writing one more row adds its delimited line to the file. */
  lemma CsvTextStep(header: string, rows: seq<Row>, i: int)
    requires 0 <= i < |rows|
    ensures CsvText(header, rows[..i + 1]) == CsvText(header, rows[..i]) + DelimitedText(rows[i].data, ",") + "\n"
  {
    assert rows[..i + 1][..i] == rows[..i];
  }

  /** A one-field row holding t is written as the line "t,". */
  lemma SingleFieldLine(t: string)
    ensures RowLines([Row([Str(t)])]) == t + ",\n"
  {
    assert [Row([Str(t)])][..0] == [];
    assert [Str(t)][..0] == [];
    assert RowLines([]) == "" && DelimitedText([], ",") == "";
    assert DelimitedText([Str(t)], ",") == t + ",";
  }

  /** What finalizeProcess produces: nothing when the aggregation result is
      null or has no rows, otherwise the output file. */
  datatype Emission = NoResults | Written(text: string)

  /** The evaluator's state: the operations map, the header and the running matrix. */
  datatype ManagerState = ManagerState(operations: Chain, fieldList: seq<string>, rows: seq<Row>)

  /** finalizeProcess: aggregation phase over the running matrix, then the
      output decision. The last key of the map picks the header; getMatrixFields
      runs outside the IOException handler, so its exceptions escape. */
  function Finalize(st: ManagerState, num: Numerics): (r: Result<Emission, Fault>)
    ensures var agg := RunPhase(st.operations, false, Table(st.rows), num);
            (r == Ok(NoResults) <==> !(agg.Table? && |agg.rows| > 0))
  {
    var agg := RunPhase(st.operations, false, Table(st.rows), num);
    if agg.Table? && |agg.rows| > 0 then
      if |st.operations| == 0 then Err(IndexOutOfBounds)
      else
        var last := st.operations[|st.operations| - 1];
        match MatrixFields(last.op, last.params, st.fieldList)
        case Err(f) => Err(f)
        case Ok(header) => Ok(Written(CsvText(header, agg.rows)))
    else Ok(NoResults)
  }

  /** processDataRow on the state as a value: the new state and what the call
      returns or throws. While the header is empty the row becomes the header
      (addAll, before the check, so even a throwing check leaves it set); a
      later row is run through the transformation steps when there are any
      operations, and the rows that come out are appended. */
  function ProcessRow(st: ManagerState, rowData: seq<string>, num: Numerics): (r: (ManagerState, Result<bool, Fault>))
    ensures r.0.operations == st.operations
    ensures |st.fieldList| == 0 ==>
              r.0 == st.(fieldList := rowData) && r.1 == CheckNumberOfFieldsInParams(st.operations, |rowData|)
    ensures |st.fieldList| > 0 ==> r.0.fieldList == st.fieldList && (r.1.Ok? ==> r.1.value)
    ensures |st.rows| <= |r.0.rows| <= |st.rows| + 1 && r.0.rows[..|st.rows|] == st.rows
    ensures |st.fieldList| > 0 && |st.operations| > 0 ==>
              var out := RunPhase(st.operations, true, Table([CreateRow(rowData)]), num);
              (r.1.Ok? <==> out.Table?)
              && (out.Table? ==> r.0.rows == st.rows + out.rows)
              && (out.Thrown? ==> r.1 == Err(out.fault))
    ensures r.1.Err? ==> r.0.rows == st.rows
  {
    if |st.fieldList| == 0 then
      (st.(fieldList := st.fieldList + rowData), CheckNumberOfFieldsInParams(st.operations, |st.fieldList + rowData|))
    else if |st.operations| > 0 then
      var out := RunPhase(st.operations, true, Table([CreateRow(rowData)]), num);
      TransformationPhaseShrinks(st.operations, [CreateRow(rowData)], num);
      match out
      case Table(rows) =>
        assert (st.rows + rows)[..|st.rows|] == st.rows;
        (st.(rows := st.rows + rows), Ok(true))
      case Thrown(f) => (st, Err(f))
      case NoResult => (st, Err(NullPointer))
    else (st, Ok(true))
  }

  /** Without operations a data row changes nothing and the run goes on. */
  lemma NoOperationsNoRows(st: ManagerState, rowData: seq<string>, num: Numerics)
    requires |st.operations| == 0 && |st.fieldList| > 0
    ensures ProcessRow(st, rowData, num) == (st, Ok(true))
  {
  }

  /** The evaluator's invariant: distinct keys; no rows without operations or without a header. */
  predicate Consistent(st: ManagerState)
  {
    KeysDistinct(st.operations)
    && (|st.operations| == 0 ==> |st.rows| == 0)
    && (|st.fieldList| == 0 ==> |st.rows| == 0)
  }

  lemma ProcessRowKeepsConsistent(st: ManagerState, rowData: seq<string>, num: Numerics)
    requires Consistent(st)
    ensures Consistent(ProcessRow(st, rowData, num).0)
  {
  }

  /** With a consistent state, a written file always has a header from the
      last key: the map cannot be empty once the matrix has rows or an
      aggregation produced one. */
  lemma FinalizeHasLastOperation(st: ManagerState, num: Numerics)
    requires Consistent(st)
    requires Finalize(st, num).Ok? && Finalize(st, num).value.Written?
    ensures |st.operations| > 0
    ensures var last := st.operations[|st.operations| - 1];
            MatrixFields(last.op, last.params, st.fieldList).Ok?
            && Finalize(st, num).value.text
               == CsvText(MatrixFields(last.op, last.params, st.fieldList).value,
                          RunPhase(st.operations, false, Table(st.rows), num).rows)
  {
    if |st.operations| == 0 {
      NoStepsOfKind(st.operations, false, Table(st.rows), num);
    }
  }

  /** Each of the seven tests of the parsing loop holds exactly when the
      piece is recognised as that operator. */
  lemma RecogniseTests(seg: string)
    ensures (Name(Sum) == seg) == (Recognise(seg) == Some(Sum))
    ensures (Name(Avg) == seg) == (Recognise(seg) == Some(Avg))
    ensures (Name(Min) == seg) == (Recognise(seg) == Some(Min))
    ensures (Name(Max) == seg) == (Recognise(seg) == Some(Max))
    ensures (Name(Ceil) == seg) == (Recognise(seg) == Some(Ceil))
    ensures StartsWith(seg, Name(Pluck)) == (Recognise(seg) == Some(Pluck))
    ensures StartsWith(seg, Name(Filter)) == (Recognise(seg) == Some(Filter))
  {
    RecogniseExactly(seg, Sum);
    RecogniseExactly(seg, Avg);
    RecogniseExactly(seg, Min);
    RecogniseExactly(seg, Max);
    RecogniseExactly(seg, Ceil);
    RecogniseExactly(seg, Pluck);
    RecogniseExactly(seg, Filter);
  }

  // ------------------------------------------------------------------ the class

  class OperationsManager {
    /** Double.parseDouble and String.valueOf(double), fixed for the run. */
    const num: Numerics
    var operations: Chain
    var fieldList: seq<string>
    /** The running matrix; the field is never reassigned, its rows grow by join. */
    const matrix: Matrix

    function Snapshot(): ManagerState
      reads this, matrix
    {
      ManagerState(operations, fieldList, matrix.rows)
    }

    predicate Valid()
      reads this, matrix
    {
      Consistent(Snapshot())
    }

    /** The field initialisers: an empty map, an empty header and an empty matrix. */
    constructor Empty(num: Numerics)
      ensures this.num == num && operations == [] && fieldList == []
      ensures fresh(matrix) && matrix.rows == []
      ensures Valid()
    {
      this.num := num;
      operations := [];
      fieldList := [];
      matrix := new Matrix();
    }

    /** OperationsManager(String): a null or empty text leaves the map empty;
        otherwise the text is parsed, and a getParamList exception escapes the
        constructor (no manager is made). */
    static method Create(operationsStr: Option<string>, num: Numerics) returns (r: Result<OperationsManager, Fault>)
      ensures r.Ok? <==> ParseChain(operationsStr).Ok?
      ensures r.Err? ==> ParseChain(operationsStr) == Err(r.error)
      ensures r.Ok? ==> fresh(r.value) && fresh(r.value.matrix) && r.value.Valid() && r.value.num == num
                        && r.value.Snapshot() == ManagerState(ParseChain(operationsStr).value, [], [])
    {
      var m := new OperationsManager.Empty(num);
      if operationsStr.Some? && |operationsStr.value| > 0 {
        ghost var parsed := ParseChain(operationsStr);
        assert parsed == AddSegments([], Segments(operationsStr.value));
        var err := m.ConvertOperationsStrToList(operationsStr.value);
        if err.Some? {
          return Err(err.value);
        }
        assert parsed == Ok(m.operations);
      } else {
        assert ParseChain(operationsStr) == Ok([]);
      }
      return Ok(m);
    }

    /** convertOperationsStrToList: the seven tests on each trimmed piece, in
        order, putting what each declares into the map. */
    method ConvertOperationsStrToList(operationsStr: string) returns (err: Option<Fault>)
      requires Valid() && operations == []
      modifies this
      ensures err.None? ==> AddSegments([], Segments(operationsStr)) == Ok(operations) && Valid()
      ensures err.Some? ==> AddSegments([], Segments(operationsStr)) == Err(err.value)
      ensures fieldList == old(fieldList)
    {
      var operationsArr := Split(Lower(Trim(operationsStr)), "->");
      assert operationsArr == Segments(operationsStr);
      err := None;
      for i := 0 to |operationsArr|
        invariant KeysDistinct(operations) && fieldList == old(fieldList) && err.None?
        invariant AddSegments([], operationsArr[..i]) == Ok(operations)
      {
        AddSegmentsStep([], operationsArr, i);
        err := PutSegment(operationsArr[i]);
        if err.Some? {
          FirstFailureSticks([], operationsArr, i + 1);
          return;
        }
      }
      assert operationsArr[..|operationsArr|] == operationsArr;
    }

    /** The body of convertOperationsStrToList's loop for one piece. At most
        one of the seven tests holds, so at most one entry is put. */
    method PutSegment(piece: string) returns (err: Option<Fault>)
      requires KeysDistinct(operations)
      modifies this
      ensures err.None? ==> AddSegment(old(operations), piece) == Ok(operations)
      ensures err.Some? ==> AddSegment(old(operations), piece) == Err(err.value)
      ensures fieldList == old(fieldList)
    {
      var operationStr := Trim(piece);
      ghost var before, recognised := operations, Recognise(operationStr);
      RecogniseTests(operationStr);
      PutAggregation(operationStr);
      err := None;
      if StartsWith(operationStr, Name(Pluck)) {
        var params := ParamList(operationStr);
        if params.Err? {
          return Some(params.error);
        }
        operations := Put(operations, Pluck, Some(params.value));
      }
      assert operations == if recognised == Some(Filter) then before else AddSegment(before, piece).value;
      if StartsWith(operationStr, Name(Filter)) {
        var params := ParamList(operationStr);
        if params.Err? {
          return Some(params.error);
        }
        operations := Put(operations, Filter, Some(params.value));
      }
    }

    /** The five equality tests of the loop, for sum, avg, min, max and ceil. */
    method PutAggregation(operationStr: string)
      requires KeysDistinct(operations)
      modifies this
      ensures KeysDistinct(operations)
      ensures var r := Recognise(operationStr);
              operations == if r.Some? && !IsTransformation(r.value) then Put(old(operations), r.value, None)
                            else old(operations)
      ensures fieldList == old(fieldList)
    {
      RecogniseTests(operationStr);
      if Name(Sum) == operationStr {
        operations := Put(operations, Sum, None);
      }
      if Name(Avg) == operationStr {
        operations := Put(operations, Avg, None);
      }
      if Name(Min) == operationStr {
        operations := Put(operations, Min, None);
      }
      if Name(Max) == operationStr {
        operations := Put(operations, Max, None);
      }
      if Name(Ceil) == operationStr {
        operations := Put(operations, Ceil, None);
      }
    }

    /** runTransformationOperations on the one-row matrix of a data row. */
    method RunTransformationOperations(input: seq<Row>) returns (r: Outcome)
      ensures r == RunPhase(operations, true, Table(input), num)
    {
      r := Table(input);
      for i := 0 to |operations|
        invariant r == RunPhase(operations[..i], true, Table(input), num)
      {
        assert operations[..i + 1][..i] == operations[..i];
        var operation := operations[i];
        if IsTransformation(operation.op) {
          if r.Table? {
            r := Apply(operation.op, r.rows, operation.params, num);
          }
        }
      }
      assert operations[..|operations|] == operations;
    }

    /** runAggregationOperations on the running matrix. */
    method RunAggregationOperations(input: seq<Row>) returns (r: Outcome)
      ensures r == RunPhase(operations, false, Table(input), num)
    {
      r := Table(input);
      for i := 0 to |operations|
        invariant r == RunPhase(operations[..i], false, Table(input), num)
      {
        assert operations[..i + 1][..i] == operations[..i];
        var operation := operations[i];
        if !IsTransformation(operation.op) {
          if r.Table? {
            r := Apply(operation.op, r.rows, operation.params, num);
          }
        }
      }
      assert operations[..|operations|] == operations;
    }

    /** processDataRow: returns whether reading should go on, or throws. */
    method ProcessDataRow(rowData: seq<string>) returns (r: Result<bool, Fault>)
      requires Valid()
      modifies this, matrix
      ensures (Snapshot(), r) == ProcessRow(old(Snapshot()), rowData, num)
      ensures Valid()
    {
      ghost var st := Snapshot();
      ProcessRowKeepsConsistent(st, rowData, num);
      if |fieldList| == 0 {
        fieldList := fieldList + rowData;
        r := CheckNumberOfFieldsInParams(operations, |fieldList|);
      } else if |operations| > 0 {
        var single := new Matrix();
        single.AddRow(CreateRow(rowData));
        assert single.rows == [CreateRow(rowData)];
        var out := RunTransformationOperations(single.rows);
        if out.Table? {
          var result := new Matrix.FromRows(out.rows);
          matrix.Join(result);
          r := Ok(true);
          assert Snapshot() == st.(rows := st.rows + out.rows);
        } else if out.Thrown? {
          r := Err(out.fault);
        } else {
          r := Err(NullPointer);
        }
      } else {
        r := Ok(true);
      }
    }

    /** writeMatrixToCSV's text: the header line, then each row's line. */
    method WriteMatrix(header: string, rows: seq<Row>) returns (text: string)
      ensures text == CsvText(header, rows)
    {
      text := header + "\n";
      for i := 0 to |rows|
        invariant text == CsvText(header, rows[..i])
      {
        var line := GetRowDataWithDelimiter(rows[i], ",");
        CsvTextStep(header, rows, i);
        text := text + line + "\n";
      }
      assert rows[..|rows|] == rows;
    }

    /** finalizeProcess: the aggregation phase, then either the output file or
        no result. */
    method FinalizeProcess() returns (r: Result<Emission, Fault>)
      requires Valid()
      ensures r == Finalize(Snapshot(), num)
    {
      var result := RunAggregationOperations(matrix.rows);
      if result.Table? && |result.rows| > 0 {
        if |operations| == 0 {
          return Err(IndexOutOfBounds);
        }
        var lastOperation := operations[|operations| - 1];
        var header := MatrixFields(lastOperation.op, lastOperation.params, fieldList);
        if header.Err? {
          return Err(header.error);
        }
        var text := WriteMatrix(header.value, result.rows);
        return Ok(Written(text));
      }
      return Ok(NoResults);
    }
  }
}
