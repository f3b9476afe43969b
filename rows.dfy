/** Row.java: a row is a fixed list of text fields. Nothing in the program
    changes a row once it is built, so a row is a value here. */
module Rows {
  import opened Wrappers
  import opened JavaLang

  /** A field of a row: a Java String, which may be null. */
  datatype Field = Null | Str(text: string)

  datatype Row = Row(data: seq<Field>)

  /** Row.getRowField: List.get, defined only for an index inside the row. */
  function GetRowField(row: Row, index: int): (r: Result<Field, Fault>)
    ensures r.Ok? <==> 0 <= index < |row.data|
    ensures r.Ok? ==> r.value == row.data[index]
    ensures r.Err? ==> r.error == IndexOutOfBounds
  {
    if 0 <= index < |row.data| then Ok(row.data[index]) else Err(IndexOutOfBounds)
  }

  /** Row(String[]): copies the values, one by one and in order, into a new list. */
  method FromValues(values: array<Field>) returns (row: Row)
    ensures row.data == values[..]
  {
    var tmpData: seq<Field> := [];
    for i := 0 to values.Length
      invariant tmpData == values[..i]
    {
      tmpData := tmpData + [values[i]];
    }
    row := Row(tmpData);
  }

  /** Row.createRow(String[]) on the fields of an input line, none of them null. */
  function CreateRow(values: seq<string>): (r: Row)
    ensures |r.data| == |values|
    ensures forall i :: 0 <= i < |values| ==> r.data[i] == Str(values[i])
  {
    if |values| == 0 then Row([])
    else Row([Str(values[0])] + CreateRow(values[1..]).data)
  }

  /** Row.createRow(String): a row holding the one given value. */
  function CreateSingleRow(value: Field): (r: Row)
    ensures |r.data| == 1 && GetRowField(r, 0) == Ok(value)
  {
    Row([value])
  }

  /** Row.setData: the row now holds exactly the given list, which getData returns. */
  function SetData(row: Row, data: seq<Field>): (r: Row)
    ensures r.data == data
  {
    row.(data := data)
  }

  /** StringBuilder.append(String) writes "null" for a null field. */
  function FieldText(f: Field): string
  {
    match f
    case Null => "null"
    case Str(t) => t
  }

  /** The text of a row: every field followed by the delimiter. */
  function DelimitedText(fields: seq<Field>, delimiter: string): string
  {
    if |fields| == 0 then ""
    else DelimitedText(fields[..|fields| - 1], delimiter) + FieldText(fields[|fields| - 1]) + delimiter
  }

  /** Row.getRowDataWithDelimiter: appends each field and then the delimiter. */
  method GetRowDataWithDelimiter(row: Row, delimiter: string) returns (s: string)
    ensures s == DelimitedText(row.data, delimiter)
  {
    var sb := "";
    for i := 0 to |row.data|
      invariant sb == DelimitedText(row.data[..i], delimiter)
    {
      assert row.data[..i + 1][..i] == row.data[..i];
      sb := sb + FieldText(row.data[i]);
      sb := sb + delimiter;
    }
    assert row.data[..|row.data|] == row.data;
    s := sb;
  }

  function TextLength(fields: seq<Field>): nat
  {
    if |fields| == 0 then 0 else TextLength(fields[..|fields| - 1]) + |FieldText(fields[|fields| - 1])|
  }

  /** The row text is as long as its fields plus one delimiter per field. */
  lemma {:induction false} DelimitedTextLength(fields: seq<Field>, delimiter: string)
    ensures |DelimitedText(fields, delimiter)| == TextLength(fields) + |fields| * |delimiter|
  {
    if |fields| > 0 {
      DelimitedTextLength(fields[..|fields| - 1], delimiter);
    }
  }

  /** The row text read from the front: the first field, the delimiter, then the rest. */
  lemma {:induction false} DelimitedTextFront(fields: seq<Field>, delimiter: string)
    requires |fields| > 0
    ensures DelimitedText(fields, delimiter)
         == FieldText(fields[0]) + delimiter + DelimitedText(fields[1..], delimiter)
  {
    var n := |fields|;
    if n == 1 {
      assert fields[..0] == [] && fields[1..] == [];
    } else {
      var init, last := fields[..n - 1], fields[n - 1];
      DelimitedTextFront(init, delimiter);
      assert init[0] == fields[0];
      assert fields[1..][..n - 2] == init[1..] && fields[1..][n - 2] == last;
      var rest := DelimitedText(init[1..], delimiter);
      assert DelimitedText(fields[1..], delimiter) == rest + FieldText(last) + delimiter;
      Regroup(FieldText(fields[0]), delimiter, rest, FieldText(last));
    }
  }

  lemma Regroup(a: string, d: string, r: string, l: string)
    ensures (a + d + r) + l + d == a + d + (r + l + d)
  {
  }

  function Texts(fields: seq<Field>): (r: seq<string>)
    ensures |r| == |fields| && forall i :: 0 <= i < |fields| ==> r[i] == FieldText(fields[i])
  {
    if |fields| == 0 then [] else [FieldText(fields[0])] + Texts(fields[1..])
  }

  lemma FirstOccurrenceOfChar(t: string, c: char, rest: string)
    requires c !in t
    ensures IndexOf(t + [c] + rest, [c]) == |t|
  {
    var s := t + [c] + rest;
    assert OccursAt(s, [c], |t|) by { assert s[|t|..|t| + 1] == [c]; }
    forall i | 0 <= i < |t| ensures !OccursAt(s, [c], i) {
      assert s[i..i + 1] == [t[i]];
    }
  }

  /** Splitting on a character: the text before its first occurrence is the first piece. */
  lemma SplitAllAtFirst(t: string, c: char, rest: string)
    requires c !in t
    ensures SplitAll(t + [c] + rest, [c]) == [t] + SplitAll(rest, [c])
  {
    var s := t + [c] + rest;
    FirstOccurrenceOfChar(t, c, rest);
    assert s[..|t|] == t;
    assert s[|t| + 1..] == rest;
  }

  lemma {:induction false} SplitAllDelimitedText(fields: seq<Field>, c: char)
    requires forall i :: 0 <= i < |fields| ==> c !in FieldText(fields[i])
    ensures SplitAll(DelimitedText(fields, [c]), [c]) == Texts(fields) + [""]
    decreases |fields|
  {
    if |fields| == 0 {
      assert IndexOf("", [c]) == -1;
    } else {
      var t, tail := FieldText(fields[0]), fields[1..];
      var rest := DelimitedText(tail, [c]);
      assert forall i :: 0 <= i < |tail| ==> c !in FieldText(tail[i]) by {
        forall i | 0 <= i < |tail| ensures c !in FieldText(tail[i]) { assert tail[i] == fields[i + 1]; }
      }
      calc {
        SplitAll(DelimitedText(fields, [c]), [c]);
        { DelimitedTextFront(fields, [c]); }
        SplitAll(t + [c] + rest, [c]);
        { SplitAllAtFirst(t, c, rest); }
        [t] + SplitAll(rest, [c]);
        { SplitAllDelimitedText(tail, c); }
        [t] + (Texts(tail) + [""]);
        Texts(fields) + [""];
      }
    }
  }

  /** Splitting a written row on its one-character delimiter, as the input
      reader does, gives back its fields, provided no field holds the
      delimiter and the last field is not empty (String.split drops trailing
      empty pieces). */
  lemma SplitDelimitedText(fields: seq<Field>, c: char)
    requires |fields| > 0
    requires forall i :: 0 <= i < |fields| ==> c !in FieldText(fields[i])
    requires FieldText(fields[|fields| - 1]) != ""
    ensures Split(DelimitedText(fields, [c]), [c]) == Texts(fields)
  {
    SplitAllDelimitedText(fields, c);
    DelimitedTextHasDelimiter(fields, c);
    DropOneTrailingEmpty(Texts(fields));
  }

  lemma DelimitedTextHasDelimiter(fields: seq<Field>, c: char)
    requires |fields| > 0
    ensures IndexOf(DelimitedText(fields, [c]), [c]) != -1
  {
    var front := DelimitedText(fields[..|fields| - 1], [c]) + FieldText(fields[|fields| - 1]);
    var text := front + [c];
    assert text[|front|..|front| + 1] == [c];
    assert OccursAt(text, [c], |front|);
  }

  lemma DropOneTrailingEmpty(parts: seq<string>)
    requires |parts| > 0 && parts[|parts| - 1] != ""
    ensures DropTrailingEmpty(parts + [""]) == parts
  {
    assert (parts + [""])[..|parts|] == parts;
  }
}
