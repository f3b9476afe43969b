/** Operations.java: the seven operator functions. Each takes a matrix and a
    parameter list and gives back a new matrix, null, or (pluck and filter
    only) a thrown exception; none changes its input. */
module Operations {
  import opened Wrappers
  import opened JavaLang
  import opened Rows

  /** Double.parseDouble (which may fail) and String.valueOf(double). They are
      not interpreted; the values in between are exact reals. */
  datatype Numerics = Numerics(parseDouble: string -> Option<real>, valueOf: real -> string)

  /** What an operator function gives back. */
  datatype Outcome = Table(rows: seq<Row>) | NoResult | Thrown(fault: Fault)

  /** The parameter holding the field index, and filter's parameter holding the value. */
  const IndexParameter: nat := 0
  const ValueParameter: nat := 1

  /** List.get on the parameter list, which is null for the aggregations. */
  function Parameter(params: Option<seq<string>>, k: nat): (r: Result<string, Fault>)
    ensures params.None? ==> r == Err(NullPointer)
    ensures params.Some? && k < |params.value| ==> r == Ok(params.value[k])
    ensures params.Some? && k >= |params.value| ==> r == Err(IndexOutOfBounds)
  {
    match params
    case None => Err(NullPointer)
    case Some(ps) => if k < |ps| then Ok(ps[k]) else Err(IndexOutOfBounds)
  }

  // ------------------------------------------------------------------ pluck

  predicate HasField(row: Row, index: int) { 0 <= index < |row.data| }

  /** The fields at one index, row by row. */
  function Column(rows: seq<Row>, index: int): (c: seq<Field>)
    requires forall i :: 0 <= i < |rows| ==> HasField(rows[i], index)
    ensures |c| == |rows|
    ensures forall i :: 0 <= i < |rows| ==> HasField(rows[i], index) && c[i] == rows[i].data[index]
  {
    if |rows| == 0 then []
    else
      assert HasField(rows[0], index);
      assert forall i :: 0 <= i < |rows| - 1 ==> HasField(rows[1..][i], index) by {
        forall i | 0 <= i < |rows| - 1 ensures HasField(rows[1..][i], index) { assert HasField(rows[i + 1], index); }
      }
      [rows[0].data[index]] + Column(rows[1..], index)
  }

  /** The non-null fields, in order. */
  function NonNull(fields: seq<Field>): (r: seq<Field>)
    ensures |r| <= |fields|
    ensures forall f :: f in r <==> f in fields && f != Null
  {
    if |fields| == 0 then []
    else (if fields[0] == Null then [] else [fields[0]]) + NonNull(fields[1..])
  }

  /** Field 0 of each row of one-field rows. */
  function Singles(rows: seq<Row>): (c: seq<Field>)
    requires forall i :: 0 <= i < |rows| ==> |rows[i].data| == 1
    ensures |c| == |rows| && forall i :: 0 <= i < |rows| ==> c[i] == rows[i].data[0]
  {
    if |rows| == 0 then [] else [rows[0].data[0]] + Singles(rows[1..])
  }

  /** pluck's stream: every row must have the field (List.get throws
      otherwise); a row whose field is null is dropped; the others become a
      one-field row holding that field. */
  function PluckRows(rows: seq<Row>, index: int): (r: Result<seq<Row>, Fault>)
    ensures r.Ok? <==> forall i :: 0 <= i < |rows| ==> HasField(rows[i], index)
    ensures r.Err? ==> r.error == IndexOutOfBounds
    ensures r.Ok? ==> |r.value| <= |rows|
    ensures r.Ok? ==> forall j :: 0 <= j < |r.value| ==> |r.value[j].data| == 1
  {
    if |rows| == 0 then Ok([])
    else
      match GetRowField(rows[0], index)
      case Err(f) => Err(f)
      case Ok(field) =>
        match PluckRows(rows[1..], index)
        case Err(f) => Err(f)
        case Ok(rest) =>
          assert forall i :: 1 <= i < |rows| ==> rows[i] == rows[1..][i - 1];
          Ok((if field == Null then [] else [CreateSingleRow(field)]) + rest)
  }

  /** The plucked rows hold the non-null fields of the column, in row order. */
  lemma {:induction false} PluckRowsColumn(rows: seq<Row>, index: int)
    requires PluckRows(rows, index).Ok?
    ensures Singles(PluckRows(rows, index).value) == NonNull(Column(rows, index))
  {
    if |rows| > 0 {
      var tail := rows[1..];
      PluckRowsColumn(tail, index);
      var field := rows[0].data[index];
      var rest := PluckRows(tail, index).value;
      var out := PluckRows(rows, index).value;
      assert out == (if field == Null then [] else [CreateSingleRow(field)]) + rest;
      assert Singles(out) == (if field == Null then [] else [field]) + Singles(rest);
      assert Column(rows, index) == [field] + Column(tail, index);
      assert NonNull([field] + Column(tail, index)) == (if field == Null then [] else [field]) + NonNull(Column(tail, index)) by {
        assert ([field] + Column(tail, index))[1..] == Column(tail, index);
      }
    }
  }

  /** pluck's parameters are usable on these rows: parameter 0 is there and
      parses, and every row has a field at that index. */
  predicate PluckAccepts(rows: seq<Row>, params: Option<seq<string>>)
  {
    Parameter(params, IndexParameter).Ok?
    && ParseInt(Parameter(params, IndexParameter).value).Ok?
    && forall i :: 0 <= i < |rows| ==> HasField(rows[i], ParseInt(Parameter(params, IndexParameter).value).value)
  }

  /** Operations.pluck: Integer.parseInt of parameter 0 (its failure and a
      missing parameter are thrown), then the stream above. */
  function Pluck(rows: seq<Row>, params: Option<seq<string>>): (r: Outcome)
    ensures !r.NoResult?
    ensures r.Table? <==> PluckAccepts(rows, params)
    ensures r.Thrown? ==> r.fault in {NumberFormat, IndexOutOfBounds, NullPointer}
    ensures r.Table? ==> |r.rows| <= |rows|
    ensures r.Table? ==> PluckRows(rows, ParseInt(Parameter(params, IndexParameter).value).value) == Ok(r.rows)
  {
    match Parameter(params, IndexParameter)
    case Err(f) => Thrown(f)
    case Ok(p) =>
      match ParseInt(p)
      case Err(f) => Thrown(f)
      case Ok(index) =>
        match PluckRows(rows, index)
        case Err(f) => Thrown(f)
        case Ok(out) => Table(out)
  }

  // ------------------------------------------------------------------ filter

  /** The row's field at index exists and is not null. */
  predicate HasText(row: Row, index: int) { HasField(row, index) && row.data[index].Str? }

  /** filter's comparison: the field, lower-cased and trimmed, equals the search value. */
  predicate Matches(row: Row, index: int, search: string)
  {
    HasText(row, index) && Trim(Lower(row.data[index].text)) == search
  }

  /** filter's search value: parameter 1 lower-cased, trimmed, and with every ' removed. */
  function SearchValue(p: string): (r: string)
    ensures '\'' !in r
  {
    RemoveChar(Trim(Lower(p)), '\'')
  }

  /** a is b with some elements left out, the rest kept in order. */
  predicate IsSubsequence<T(==)>(a: seq<T>, b: seq<T>)
  {
    if |b| == 0 then |a| == 0
    else (|a| > 0 && a[0] == b[0] && IsSubsequence(a[1..], b[1..])) || IsSubsequence(a, b[1..])
  }

  function CountMatches(rows: seq<Row>, index: int, search: string): (n: nat)
    ensures n <= |rows|
  {
    if |rows| == 0 then 0
    else (if Matches(rows[0], index, search) then 1 else 0) + CountMatches(rows[1..], index, search)
  }

  /** filter's stream: a missing field throws IndexOutOfBounds and a null one
      NullPointerException (toLowerCase on null); the matching rows are kept. */
  function FilterRows(rows: seq<Row>, index: int, search: string): (r: Result<seq<Row>, Fault>)
    ensures r.Ok? <==> forall i :: 0 <= i < |rows| ==> HasText(rows[i], index)
    ensures r.Err? ==> r.error == IndexOutOfBounds || r.error == NullPointer
  {
    if |rows| == 0 then Ok([])
    else
      match GetRowField(rows[0], index)
      case Err(f) => Err(f)
      case Ok(Null) => Err(NullPointer)
      case Ok(Str(t)) =>
        match FilterRows(rows[1..], index, search)
        case Err(f) => Err(f)
        case Ok(rest) =>
          assert forall i :: 1 <= i < |rows| ==> rows[i] == rows[1..][i - 1];
          Ok(if Trim(Lower(t)) == search then [rows[0]] + rest else rest)
  }

  /** The kept rows are the matching ones in their original order: a
      subsequence of the input, one row per match. */
  lemma {:induction false} FilterRowsInOrder(rows: seq<Row>, index: int, search: string)
    requires FilterRows(rows, index, search).Ok?
    ensures IsSubsequence(FilterRows(rows, index, search).value, rows)
    ensures |FilterRows(rows, index, search).value| == CountMatches(rows, index, search)
  {
    if |rows| > 0 {
      var rest := FilterRows(rows[1..], index, search).value;
      var kept := FilterRows(rows, index, search).value;
      FilterRowsInOrder(rows[1..], index, search);
      if Matches(rows[0], index, search) {
        assert kept == [rows[0]] + rest;
        assert kept[1..] == rest;
      } else {
        assert kept == rest;
      }
    }
  }

  /** A row is kept exactly when it matches the search value. */
  lemma {:induction false} FilterRowsSelects(rows: seq<Row>, index: int, search: string)
    requires FilterRows(rows, index, search).Ok?
    ensures forall row :: row in FilterRows(rows, index, search).value ==> Matches(row, index, search)
    ensures forall i :: 0 <= i < |rows| && Matches(rows[i], index, search) ==> rows[i] in FilterRows(rows, index, search).value
  {
    if |rows| > 0 {
      var rest := FilterRows(rows[1..], index, search).value;
      var kept := FilterRows(rows, index, search).value;
      FilterRowsSelects(rows[1..], index, search);
      assert kept == (if Matches(rows[0], index, search) then [rows[0]] + rest else rest);
      forall i | 0 <= i < |rows| && Matches(rows[i], index, search) ensures rows[i] in kept {
        if i > 0 {
          assert rows[i] == rows[1..][i - 1];
        }
      }
    }
  }

  /** filter's parameters are usable on these rows: parameter 0 is there and
      parses, parameter 1 is there, and every row has a non-null field at
      that index. */
  predicate FilterAccepts(rows: seq<Row>, params: Option<seq<string>>)
  {
    Parameter(params, IndexParameter).Ok?
    && ParseInt(Parameter(params, IndexParameter).value).Ok?
    && Parameter(params, ValueParameter).Ok?
    && forall i :: 0 <= i < |rows| ==> HasText(rows[i], ParseInt(Parameter(params, IndexParameter).value).value)
  }

  /** The stream of filter once the index and the search value are known: its
      exception is thrown, otherwise the kept rows are the result. */
  function FilterStream(rows: seq<Row>, index: int, search: string): (r: Outcome)
    ensures !r.NoResult?
    ensures r.Table? <==> forall i :: 0 <= i < |rows| ==> HasText(rows[i], index)
    ensures r.Thrown? ==> r.fault == IndexOutOfBounds || r.fault == NullPointer
    ensures r.Table? ==> IsSubsequence(r.rows, rows) && |r.rows| <= |rows|
    ensures r.Table? ==> FilterRows(rows, index, search) == Ok(r.rows)
  {
    match FilterRows(rows, index, search)
    case Err(f) => Thrown(f)
    case Ok(kept) =>
      FilterRowsInOrder(rows, index, search);
      Table(kept)
  }

  /** Operations.filter: parameter 0 through Integer.parseInt, parameter 1 as
      the search value (a missing one is thrown), then the stream above. */
  function Filter(rows: seq<Row>, params: Option<seq<string>>): (r: Outcome)
    ensures !r.NoResult?
    ensures r.Table? <==> FilterAccepts(rows, params)
    ensures r.Thrown? ==> r.fault in {NumberFormat, IndexOutOfBounds, NullPointer}
    ensures r.Table? ==> IsSubsequence(r.rows, rows) && |r.rows| <= |rows|
    ensures r.Table? ==> FilterRows(rows, ParseInt(Parameter(params, IndexParameter).value).value,
                                    SearchValue(Parameter(params, ValueParameter).value)) == Ok(r.rows)
  {
    match Parameter(params, IndexParameter)
    case Err(f) => Thrown(f)
    case Ok(p0) =>
      match ParseInt(p0)
      case Err(f) => Thrown(f)
      case Ok(index) =>
        match Parameter(params, ValueParameter)
        case Err(f) => Thrown(f)
        case Ok(p1) =>
          FilterStream(rows, index, SearchValue(p1))
  }

  // ------------------------------------------------------------------ aggregations

  /** A row on which the aggregations' stream throws: it has no field 0, or
      its field 0 is text that Double.parseDouble rejects. */
  predicate Field0Fails(row: Row, num: Numerics)
  {
    |row.data| == 0 || (row.data[0].Str? && num.parseDouble(row.data[0].text).None?)
  }

  /** The texts of the non-null fields 0, in order. */
  function Field0Texts(rows: seq<Row>): (r: seq<string>)
    requires forall i :: 0 <= i < |rows| ==> |rows[i].data| > 0
    ensures |r| <= |rows|
  {
    if |rows| == 0 then []
    else (if rows[0].data[0].Str? then [rows[0].data[0].text] else []) + Field0Texts(rows[1..])
  }

  /** The aggregations' shared stream: rows whose field 0 is null are skipped,
      the others are parsed; any exception gives None (the operator's catch). */
  function Field0Values(rows: seq<Row>, num: Numerics): (r: Option<seq<real>>)
    ensures r.None? <==> exists i :: 0 <= i < |rows| && Field0Fails(rows[i], num)
  {
    if |rows| == 0 then Some([])
    else
      assert forall i :: 1 <= i < |rows| ==> rows[i] == rows[1..][i - 1];
      match GetRowField(rows[0], 0)
      case Err(_) => None
      case Ok(Null) => Field0Values(rows[1..], num)
      case Ok(Str(t)) =>
        match num.parseDouble(t)
        case None => None
        case Some(v) =>
          match Field0Values(rows[1..], num)
          case None => None
          case Some(vs) => Some([v] + vs)
  }

  /** The values are the parses of the non-null fields 0, in row order. */
  lemma {:induction false} Field0ValuesParsed(rows: seq<Row>, num: Numerics)
    requires Field0Values(rows, num).Some?
    ensures forall i :: 0 <= i < |rows| ==> |rows[i].data| > 0
    ensures |Field0Values(rows, num).value| == |Field0Texts(rows)|
    ensures forall k :: 0 <= k < |Field0Texts(rows)| ==>
              num.parseDouble(Field0Texts(rows)[k]) == Some(Field0Values(rows, num).value[k])
  {
    if |rows| > 0 {
      var tail := rows[1..];
      Field0ValuesParsed(tail, num);
      assert forall i :: 1 <= i < |rows| ==> rows[i] == tail[i - 1];
      assert |rows[0].data| > 0;
      var texts, vs := Field0Texts(rows), Field0Values(rows, num).value;
      if rows[0].data[0].Str? {
        assert texts == [rows[0].data[0].text] + Field0Texts(tail);
        assert vs[1..] == Field0Values(tail, num).value;
        forall k | 0 <= k < |texts| ensures num.parseDouble(texts[k]) == Some(vs[k]) {
          if k > 0 {
            assert texts[k] == Field0Texts(tail)[k - 1];
          }
        }
      } else {
        assert texts == Field0Texts(tail);
      }
    }
  }

  function MaxOf(vs: seq<real>): (m: real)
    requires |vs| > 0
    ensures m in vs && forall v :: v in vs ==> v <= m
  {
    if |vs| == 1 then vs[0]
    else
      assert vs == [vs[0]] + vs[1..];
      var rest := MaxOf(vs[1..]); if vs[0] >= rest then vs[0] else rest
  }

  function MinOf(vs: seq<real>): (m: real)
    requires |vs| > 0
    ensures m in vs && forall v :: v in vs ==> m <= v
  {
    if |vs| == 1 then vs[0]
    else
      assert vs == [vs[0]] + vs[1..];
      var rest := MinOf(vs[1..]); if vs[0] <= rest then vs[0] else rest
  }

  function SumOf(vs: seq<real>): real
  {
    if |vs| == 0 then 0.0 else vs[0] + SumOf(vs[1..])
  }

  /** Math.ceil: the least integer not below v. */
  function CeilOf(v: real): (c: real)
    ensures c == c.Floor as real
    ensures v <= c < v + 1.0
  {
    var f := (-v).Floor;
    assert f as real <= -v < f as real + 1.0;
    (-f) as real
  }

  /** A one-row, one-field matrix holding the text of a number. */
  function NumberTable(v: real, num: Numerics): (r: Outcome)
    ensures r.Table? && |r.rows| == 1 && r.rows[0].data == [Str(num.valueOf(v))]
  {
    Table([CreateSingleRow(Str(num.valueOf(v)))])
  }

  /** Operations.max: null unless some field 0 is present and none fails;
      otherwise one row holding the largest value. */
  function Max(rows: seq<Row>, num: Numerics): (r: Outcome)
    ensures !r.Thrown?
    ensures r.Table? <==> Field0Values(rows, num).Some? && |Field0Values(rows, num).value| > 0
    ensures r.Table? ==> exists m :: (r == NumberTable(m, num)
              && m in Field0Values(rows, num).value
              && forall v :: v in Field0Values(rows, num).value ==> v <= m)
  {
    match Field0Values(rows, num)
    case None => NoResult
    case Some(vs) => if |vs| == 0 then NoResult else NumberTable(MaxOf(vs), num)
  }

  /** Operations.min: as max, with the smallest value. */
  function Min(rows: seq<Row>, num: Numerics): (r: Outcome)
    ensures !r.Thrown?
    ensures r.Table? <==> Field0Values(rows, num).Some? && |Field0Values(rows, num).value| > 0
    ensures r.Table? ==> exists m :: (r == NumberTable(m, num)
              && m in Field0Values(rows, num).value
              && forall v :: v in Field0Values(rows, num).value ==> m <= v)
  {
    match Field0Values(rows, num)
    case None => NoResult
    case Some(vs) => if |vs| == 0 then NoResult else NumberTable(MinOf(vs), num)
  }

  /** Operations.avg: as max, with the mean. */
  function Avg(rows: seq<Row>, num: Numerics): (r: Outcome)
    ensures !r.Thrown?
    ensures r.Table? <==> Field0Values(rows, num).Some? && |Field0Values(rows, num).value| > 0
    ensures r.Table? ==> exists m :: (r == NumberTable(m, num)
              && MinOf(Field0Values(rows, num).value) <= m <= MaxOf(Field0Values(rows, num).value))
  {
    match Field0Values(rows, num)
    case None => NoResult
    case Some(vs) =>
      if |vs| == 0 then NoResult
      else
        MeanBetweenMinAndMax(vs);
        NumberTable(SumOf(vs) / (|vs| as real), num)
  }

  /** Operations.sum: one row whenever no row fails, even with no values at all. */
  function Sum(rows: seq<Row>, num: Numerics): (r: Outcome)
    ensures !r.Thrown?
    ensures r.Table? <==> Field0Values(rows, num).Some?
    ensures r.Table? ==> r == NumberTable(SumOf(Field0Values(rows, num).value), num)
  {
    match Field0Values(rows, num)
    case None => NoResult
    case Some(vs) => NumberTable(SumOf(vs), num)
  }

  /** Operations.ceil: one row per present field 0, in order, each holding its ceiling. */
  function Ceil(rows: seq<Row>, num: Numerics): (r: Outcome)
    ensures !r.Thrown?
    ensures r.Table? <==> Field0Values(rows, num).Some?
    ensures r.Table? ==> |r.rows| == |Field0Values(rows, num).value|
    ensures r.Table? ==> forall k :: 0 <= k < |r.rows| ==>
                           r.rows[k].data == [Str(num.valueOf(CeilOf(Field0Values(rows, num).value[k])))]
  {
    match Field0Values(rows, num)
    case None => NoResult
    case Some(vs) => Table(seq(|vs|, k requires 0 <= k < |vs| => CreateSingleRow(Str(num.valueOf(CeilOf(vs[k]))))))
  }

  // ------------------------------------------------------------------ lemmas

  /** count copies of x added up. */
  function Times(count: nat, x: real): (r: real)
    ensures r == (count as real) * x
  {
    if count == 0 then 0.0 else x + Times(count - 1, x)
  }

  lemma {:induction false} TimesMonotone(count: nat, a: real, b: real)
    requires a <= b
    ensures Times(count, a) <= Times(count, b)
  {
    if count > 0 {
      TimesMonotone(count - 1, a, b);
    }
  }

  lemma {:induction false} SumAtMostCountTimesMax(vs: seq<real>)
    requires |vs| > 0
    ensures SumOf(vs) <= Times(|vs|, MaxOf(vs))
  {
    if |vs| > 1 {
      var tail := vs[1..];
      SumAtMostCountTimesMax(tail);
      assert MaxOf(tail) <= MaxOf(vs) by { assert MaxOf(tail) in vs; }
      TimesMonotone(|tail|, MaxOf(tail), MaxOf(vs));
    }
  }

  lemma {:induction false} SumAtLeastCountTimesMin(vs: seq<real>)
    requires |vs| > 0
    ensures Times(|vs|, MinOf(vs)) <= SumOf(vs)
  {
    if |vs| > 1 {
      var tail := vs[1..];
      SumAtLeastCountTimesMin(tail);
      assert MinOf(vs) <= MinOf(tail) by { assert MinOf(tail) in vs; }
      TimesMonotone(|tail|, MinOf(vs), MinOf(tail));
    }
  }

  lemma QuotientAtLeast(s: real, count: nat, lo: real)
    requires count > 0 && Times(count, lo) <= s
    ensures lo <= s / (count as real)
  {
    var n := count as real;
    assert s / n * n == s;
  }

  lemma QuotientAtMost(s: real, count: nat, hi: real)
    requires count > 0 && s <= Times(count, hi)
    ensures s / (count as real) <= hi
  {
    var n := count as real;
    assert s / n * n == s;
  }

  /** The mean lies between the smallest and the largest value. */
  lemma MeanBetweenMinAndMax(vs: seq<real>)
    requires |vs| > 0
    ensures MinOf(vs) <= SumOf(vs) / (|vs| as real) <= MaxOf(vs)
  {
    SumAtLeastCountTimesMin(vs);
    QuotientAtLeast(SumOf(vs), |vs|, MinOf(vs));
    SumAtMostCountTimesMax(vs);
    QuotientAtMost(SumOf(vs), |vs|, MaxOf(vs));
  }

  /** One unparseable field 0 voids every aggregation: the row is not merely skipped. */
  lemma OneBadFieldVoidsAggregations(rows: seq<Row>, num: Numerics, i: int)
    requires 0 <= i < |rows| && Field0Fails(rows[i], num)
    ensures Max(rows, num) == NoResult && Min(rows, num) == NoResult && Avg(rows, num) == NoResult
    ensures Sum(rows, num) == NoResult && Ceil(rows, num) == NoResult
  {
  }

  /** Over rows whose fields 0 are all null, max, min and avg give null while sum gives one row. */
  lemma NoValuesAggregations(rows: seq<Row>, num: Numerics)
    requires forall i :: 0 <= i < |rows| ==> |rows[i].data| > 0 && rows[i].data[0] == Null
    ensures Max(rows, num) == NoResult && Min(rows, num) == NoResult && Avg(rows, num) == NoResult
    ensures Sum(rows, num) == NumberTable(0.0, num)
    ensures Ceil(rows, num) == Table([])
  {
    NullFieldsHaveNoValues(rows, num);
  }

  lemma {:induction false} NullFieldsHaveNoValues(rows: seq<Row>, num: Numerics)
    requires forall i :: 0 <= i < |rows| ==> |rows[i].data| > 0 && rows[i].data[0] == Null
    ensures Field0Values(rows, num) == Some([])
  {
    if |rows| > 0 {
      NullFieldsHaveNoValues(rows[1..], num);
    }
  }
}
