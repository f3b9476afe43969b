/** OperationsEnum.java: the closed catalogue of the seven operators, each
    with its name, its operator function and whether it is a transformation
    (run row by row) or an aggregation (run once over the whole matrix). */
module OperationsEnum {
  import opened Wrappers
  import opened JavaLang
  import opened Rows
  import opened Operations

  datatype Operation = Sum | Avg | Min | Max | Ceil | Pluck | Filter

  /** The constants in declaration order. */
  const AllOperations: seq<Operation> := [Sum, Avg, Min, Max, Ceil, Pluck, Filter]

  /** getName: the lower-case name the pipeline text uses. */
  function Name(op: Operation): (n: string)
    ensures |n| > 0
    ensures forall k :: 0 <= k < |n| ==> 'a' <= n[k] <= 'z'
  {
    match op
    case Sum => "sum"
    case Avg => "avg"
    case Min => "min"
    case Max => "max"
    case Ceil => "ceil"
    case Pluck => "pluck"
    case Filter => "filter"
  }

  /** The names are already lower case, so the lower-cased pipeline text can match them. */
  lemma NamesAreLowerCase(op: Operation)
    ensures Lower(Name(op)) == Name(op)
  {
    var n := Name(op);
    assert forall k :: 0 <= k < |n| ==> Lower(n)[k] == LowerChar(n[k]) == n[k];
  }

  /** isTransformation: the constructor's third argument. */
  predicate IsTransformation(op: Operation)
  {
    match op
    case Pluck => true
    case Filter => true
    case _ => false
  }

  /** getFunction().apply(new OperationContent(matrix, parameters)): each
      constant runs the operator function of the same name. Transformations
      may throw but always give a matrix no longer than their input;
      aggregations never throw. */
  function Apply(op: Operation, rows: seq<Row>, params: Option<seq<string>>, num: Numerics): (r: Outcome)
    ensures IsTransformation(op) ==> !r.NoResult?
    ensures IsTransformation(op) && r.Table? ==> |r.rows| <= |rows|
    ensures !IsTransformation(op) ==> !r.Thrown?
    ensures r.Thrown? ==> r.fault in {NumberFormat, IndexOutOfBounds, NullPointer}
    ensures op == Pluck ==> (r.Table? <==> Operations.PluckAccepts(rows, params))
    ensures op == Filter ==> (r.Table? <==> Operations.FilterAccepts(rows, params))
  {
    match op
    case Sum => Operations.Sum(rows, num)
    case Avg => Operations.Avg(rows, num)
    case Min => Operations.Min(rows, num)
    case Max => Operations.Max(rows, num)
    case Ceil => Operations.Ceil(rows, num)
    case Pluck => Operations.Pluck(rows, params)
    case Filter => Operations.Filter(rows, params)
  }

  /** Exactly seven constants, each listed once, with pairwise distinct names. */
  lemma Catalogue()
    ensures |AllOperations| == 7
    ensures forall op: Operation :: op in AllOperations
    ensures forall i, j :: 0 <= i < j < |AllOperations| ==> AllOperations[i] != AllOperations[j]
    ensures forall a: Operation, b: Operation :: Name(a) == Name(b) ==> a == b
  {
    forall op: Operation ensures op in AllOperations {
      var k := match op
        case Sum => 0 case Avg => 1 case Min => 2 case Max => 3
        case Ceil => 4 case Pluck => 5 case Filter => 6;
      assert AllOperations[k] == op;
    }
    forall a: Operation, b: Operation | Name(a) == Name(b) ensures a == b {
      var n := Name(a);
      assert |n| == |Name(b)| && n[0] == Name(b)[0] && n[1] == Name(b)[1];
    }
  }

  /** Only pluck and filter are transformations. */
  lemma TransformationsArePluckAndFilter(op: Operation)
    ensures IsTransformation(op) <==> op == Pluck || op == Filter
  {
  }
}
