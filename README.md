# upsolver pipeline evaluator, modelled in Dafny

The upsolver program reads a CSV file line by line and runs a pipeline of
operators over its rows. A pipeline is written as text, e.g.
`filter(3, 'Iowa') -> pluck(11) -> max`. There are two kinds of operator:

- The transformations `pluck` and `filter` run on each data row as it arrives.
- The aggregations `sum`, `avg`, `min`, `max` and `ceil` run once, over every row the transformations kept.

The first line of the input is offered as the header. A line that splits into
no fields, such as `,`, leaves the header empty, and the header check then runs
against width 0. Only if it answers true is the next line tried as the header
(`Driver.FieldlessLineHeader`). The header check takes the first
operation, in insertion order, whose parameter list is non-empty. It picks that
list's greatest string in text order, which for `filter` includes the value
parameter. It parses that string as an `int`, and the check fails when the
result is not below the header's field count. `finalizeProcess` writes the result
as CSV text: a header taken from the field names, then one line per result row.

The model covers:

- the pipeline parser: the insertion-ordered `operations` map and its parameter lists;
- the header check;
- the two phases of evaluation;
- the CSV output;
- the seven operator functions;
- the operator catalogue;
- the number recogniser of `Utils.checkNumber`;
- rows and the matrix.

Module by module:

- `JavaLang` states the Java library behaviour the code relies on: `String.split`, which drops trailing empty strings; `trim`; `toLowerCase`; `indexOf`/`lastIndexOf`; `Integer.parseInt` with its 32-bit range; `compareTo` on strings.
- `Rows` models a row as a value.
- `Matrices.Matrix` is a class whose `rows` field `addRow` and `join` update in place.
- `Operations` holds the operator functions, which are pure.
- `OperationsEnum` is the catalogue.
- `ChainParser` turns the pipeline text into the operations map. It is the specification that the parsing loop of the manager class is proved against.
- `Evaluator` holds the state-step specification functions and the class `OperationsManager`. The class has the fields `operations`, `fieldList` and `matrix`, and its methods are proved against those functions.
- `Driver` is the reading loop of `App.main`.

Exceptions are values: `Fault` names the Java exception class. An operator gives
back `Table(rows)`, `NoResult` (Java's `null`) or `Thrown(fault)`.

Behaviour of the code worth knowing:

- An exception thrown by `pluck` or `filter` is not caught. It escapes `processDataRow` and ends the run before `finalizeProcess`.
- When the header check answers false, reading stops, but `finalizeProcess` still runs. So transformations followed only by `sum`, under a header with at least one field, write one row holding `String.valueOf(0.0)` (`Driver.RejectedHeaderStillSums`).
- The header check compares the parameter strings with `String.compareTo`, not as numbers. So `pluck(10,9)` on a 10-field header passes the check, because "9" is the greatest string. It then throws `IndexOutOfBoundsException` (`Evaluator.ValidationComparesText`). With a space, `pluck(10, 9)` keeps " 9" as a parameter. That sorts before "10", so the check answers false (`Evaluator.SpacedParametersCompareAsText`).
- An empty pipeline makes the header check answer false.
- Every output row ends with a trailing `,`, because `getRowDataWithDelimiter` appends the delimiter after every field.

## Model

| member | source | states |
|---|---|---|
| JavaLang.Lower | upsolver/src/main/java/com/upsolver/operations/OperationsManager.java:101 | lower-casing keeps the length and maps each character on its own (ASCII upper-case letters move up by 32 code points to their lower-case form, others stay) |
| JavaLang.Trim | upsolver/src/main/java/com/upsolver/operations/OperationsManager.java:101-103 | the result is a contiguous part of the input with no trimmable character at either end, and everything cut off at either end is trimmable |
| JavaLang.IndexOf | upsolver/src/main/java/com/upsolver/operations/OperationsManager.java:101 | the result is -1 or a place where the separator occurs, and no earlier place holds it |
| JavaLang.IndexOfChar | upsolver/src/main/java/com/upsolver/operations/OperationsManager.java:135 | first occurrence of a character: it holds the character, no earlier index does, and -1 exactly when it is absent |
| JavaLang.LastIndexOfChar | upsolver/src/main/java/com/upsolver/operations/OperationsManager.java:135 | last occurrence of a character: it holds the character, no later index does, and -1 exactly when it is absent |
| JavaLang.SplitAll | upsolver/src/main/java/com/upsolver/operations/OperationsManager.java:101 | splitting gives at least one piece, and the whole string when the separator does not occur |
| JavaLang.JoinSplitAll | upsolver/src/main/java/com/upsolver/operations/OperationsManager.java:101 | joining the pieces with the separator gives back the split string (round trip) |
| JavaLang.SplitAllPiecesAvoidSeparator | upsolver/src/main/java/com/upsolver/operations/OperationsManager.java:101 | no piece of a split contains the separator |
| JavaLang.DropTrailingEmpty | upsolver/src/main/java/com/upsolver/App.java:19 | the result is a prefix of the pieces, everything dropped is empty, and the last piece kept is non-empty |
| JavaLang.Split | upsolver/src/main/java/com/upsolver/App.java:19 | String.split: the whole string when the separator is absent, otherwise all pieces with trailing empty ones removed |
| JavaLang.SplitPiecesAvoidSeparator | upsolver/src/main/java/com/upsolver/App.java:19 | no piece returned by String.split contains the separator |
| JavaLang.RemoveChar | upsolver/src/main/java/com/upsolver/operations/Operations.java:171 | the result is the input with every occurrence of the quote character removed: as multisets, exactly the removed character's count drops to zero |
| JavaLang.RemoveCharAppend | upsolver/src/main/java/com/upsolver/operations/Operations.java:171 | removing a character keeps the order of what remains: it distributes over concatenation |
| JavaLang.ParseInt | upsolver/src/main/java/com/upsolver/operations/OperationsManager.java:148 | Integer.parseInt succeeds exactly when the text is an optional sign followed by one or more digits whose signed value is in the 32-bit range, and then gives that value; otherwise NumberFormatException |
| JavaLang.ParseIntOfNatText | upsolver/src/main/java/com/upsolver/operations/OperationsManager.java:148 | parsing the decimal text of any non-negative int gives that number back (round trip) |
| JavaLang.ParseIntOfSignedNatText | upsolver/src/main/java/com/upsolver/operations/OperationsManager.java:148 | "-" followed by a number's decimal text parses to its negation, down to -2^31; "+" followed by it parses to the number, up to 2^31-1 |
| JavaLang.DigitsValueLeadingZero | upsolver/src/main/java/com/upsolver/operations/OperationsManager.java:148 | a leading zero does not change a digit string's value |
| JavaLang.ParseIntLeadingZero | upsolver/src/main/java/com/upsolver/operations/OperationsManager.java:148 | a leading zero after the optional sign does not change what parseInt gives |
| JavaLang.DigitsValueOfNatText | upsolver/src/main/java/com/upsolver/operations/OperationsManager.java:148 | the digit value of a number's decimal text is the number |
| JavaLang.LexLessTransitive | upsolver/src/main/java/com/upsolver/operations/OperationsManager.java:148 | String.compareTo order is transitive |
| JavaLang.LexLessTotal | upsolver/src/main/java/com/upsolver/operations/OperationsManager.java:148 | String.compareTo order is total and antisymmetric |
| JavaLang.MaxString | upsolver/src/main/java/com/upsolver/operations/OperationsManager.java:148 | Collections.max on strings: the result is in the list and no element is greater |
| Utils.CheckNumber | upsolver/src/main/java/com/upsolver/Utils.java:7-22 | null and "" give null; text the number pattern rejects gives null; text it accepts gives exactly what the parser gives |
| Utils.NumberSyntaxIsPattern | upsolver/src/main/java/com/upsolver/Utils.java:13 | the executable recogniser accepts exactly the strings matching optional sign, digits, optional '.' with at least one digit |
| Utils.RecogniserSound | upsolver/src/main/java/com/upsolver/Utils.java:13 | every string the recogniser accepts matches the number pattern |
| Utils.RecogniserComplete | upsolver/src/main/java/com/upsolver/Utils.java:13 | every decomposition into sign, digits and fraction is accepted by the recogniser |
| Utils.PatternAccepts | upsolver/src/main/java/com/upsolver/Utils.java:13 | ".5", "-12" and "+3.25" are numbers |
| Utils.PatternRejectsBoundaries | upsolver/src/main/java/com/upsolver/Utils.java:13 | "5.", "-" and "+." are not numbers |
| Utils.PatternRejectsRepeats | upsolver/src/main/java/com/upsolver/Utils.java:13 | "1.2.3" and "--1" are not numbers |
| Rows.GetRowField | upsolver/src/main/java/com/upsolver/components/Row.java:29-31 | the field exactly when the index is within the row, otherwise IndexOutOfBoundsException |
| Rows.FromValues | upsolver/src/main/java/com/upsolver/components/Row.java:13-19 | the row holds the array's values in order |
| Rows.CreateRow | upsolver/src/main/java/com/upsolver/components/Row.java:33-36 | the row has one text field per value, in order |
| Rows.CreateSingleRow | upsolver/src/main/java/com/upsolver/components/Row.java:38-43 | the row has exactly one field, the given value |
| Rows.SetData | upsolver/src/main/java/com/upsolver/components/Row.java:21-27 | after setData the row's data is the given list |
| Rows.GetRowDataWithDelimiter | upsolver/src/main/java/com/upsolver/components/Row.java:45-52 | the loop builds exactly the fields each followed by the delimiter |
| Rows.DelimitedTextLength | upsolver/src/main/java/com/upsolver/components/Row.java:45-52 | the text is as long as the fields plus one delimiter per field |
| Rows.DelimitedTextFront | upsolver/src/main/java/com/upsolver/components/Row.java:45-52 | the text starts with the first field and the delimiter, followed by the text of the rest |
| Rows.SplitAllDelimitedText | upsolver/src/main/java/com/upsolver/components/Row.java:45-52 | splitting a row's text on its delimiter gives the fields' texts and one final empty piece |
| Rows.SplitDelimitedText | upsolver/src/main/java/com/upsolver/components/Row.java:45-52 | String.split on the row's text gives back exactly its fields when none contains the delimiter and the last is non-empty (round trip) |
| Matrices.Matrix.constructor | upsolver/src/main/java/com/upsolver/components/Matrix.java:13-15 | a new matrix has no rows |
| Matrices.Matrix.FromRows | upsolver/src/main/java/com/upsolver/components/Matrix.java:9-11 | the matrix holds the given rows |
| Matrices.Matrix.AddRow | upsolver/src/main/java/com/upsolver/components/Matrix.java:25-27 | the row is appended and nothing else changes |
| Matrices.Matrix.Join | upsolver/src/main/java/com/upsolver/components/Matrix.java:29-35 | the other matrix's rows are appended in order; the other matrix is unchanged; joining an empty matrix changes nothing |
| Matrices.JoinTwice | upsolver/src/main/java/com/upsolver/components/Matrix.java:29-35 | two joins in a row append both matrices' rows in order and leave both sources unchanged |
| Operations.Parameter | upsolver/src/main/java/com/upsolver/operations/Operations.java:149 | List.get on the parameter list: NullPointerException for the null list, IndexOutOfBoundsException past its end |
| Operations.PluckRows | upsolver/src/main/java/com/upsolver/operations/Operations.java:148-157 | succeeds exactly when every row has the field, otherwise IndexOutOfBoundsException; the result has single-field rows and is no longer than the input |
| Operations.PluckRowsColumn | upsolver/src/main/java/com/upsolver/operations/Operations.java:148-157 | the plucked rows are the column's non-null fields, in row order |
| Operations.Pluck | upsolver/src/main/java/com/upsolver/operations/Operations.java:148-157 | pluck never gives null; it gives a matrix exactly when parameter 0 is there, parses, and indexes a field of every row, and otherwise throws NumberFormat, IndexOutOfBounds or NullPointer; a result is the plucked column at the parsed first parameter, no longer than the input |
| Operations.SearchValue | upsolver/src/main/java/com/upsolver/operations/Operations.java:168-171 | the search value has no quote character left |
| Operations.CountMatches | upsolver/src/main/java/com/upsolver/operations/Operations.java:166-180 | no more matches than rows |
| Operations.FilterRows | upsolver/src/main/java/com/upsolver/operations/Operations.java:166-180 | succeeds exactly when every row has a non-null field at the index; failures are IndexOutOfBounds or NullPointer |
| Operations.FilterRowsInOrder | upsolver/src/main/java/com/upsolver/operations/Operations.java:166-180 | the kept rows are a subsequence of the input (order preserved), as many as the rows that match |
| Operations.FilterRowsSelects | upsolver/src/main/java/com/upsolver/operations/Operations.java:166-180 | every kept row matches the search value, and every matching row is kept |
| Operations.Filter | upsolver/src/main/java/com/upsolver/operations/Operations.java:166-180 | filter never gives null; it gives a matrix exactly when parameter 0 is there and parses, parameter 1 is there, and every row has a non-null field at the index, and otherwise throws NumberFormat, IndexOutOfBounds or NullPointer; a result is an order-preserving selection of the input made with the parsed index and the unquoted lower-cased value |
| Operations.Field0Values | upsolver/src/main/java/com/upsolver/operations/Operations.java:25-41 | the values of field 0 are missing exactly when some row has no field 0 or a non-null field that does not parse |
| Operations.Field0ValuesParsed | upsolver/src/main/java/com/upsolver/operations/Operations.java:25-41 | each value is the parse of the corresponding non-null field-0 text, in row order |
| Operations.MaxOf | upsolver/src/main/java/com/upsolver/operations/Operations.java:30 | the maximum is one of the values and at least each of them |
| Operations.MinOf | upsolver/src/main/java/com/upsolver/operations/Operations.java:56 | the minimum is one of the values and at most each of them |
| Operations.CeilOf | upsolver/src/main/java/com/upsolver/operations/Operations.java:131-132 | Math.ceil: an integer value, at least the input and less than one above it |
| Operations.NumberTable | upsolver/src/main/java/com/upsolver/operations/Operations.java:32-33 | the result matrix is one row holding the number's text |
| Operations.Max | upsolver/src/main/java/com/upsolver/operations/Operations.java:25-41 | never throws; null unless every field 0 parses and there is at least one value; otherwise one row holding the largest value |
| Operations.Min | upsolver/src/main/java/com/upsolver/operations/Operations.java:51-67 | never throws; null unless every field 0 parses and there is at least one value; otherwise one row holding the smallest value |
| Operations.Avg | upsolver/src/main/java/com/upsolver/operations/Operations.java:77-93 | never throws; null unless every field 0 parses and there is at least one value; otherwise one row holding a value between the minimum and the maximum |
| Operations.Sum | upsolver/src/main/java/com/upsolver/operations/Operations.java:103-115 | never throws; null exactly when some field 0 fails; otherwise one row holding the sum of the values, 0 for none |
| Operations.Ceil | upsolver/src/main/java/com/upsolver/operations/Operations.java:125-139 | never throws; null exactly when some field 0 fails; otherwise one row per value holding its ceiling, in order |
| Operations.SumAtMostCountTimesMax | upsolver/src/main/java/com/upsolver/operations/Operations.java:77-93 | the sum is at most count times the maximum |
| Operations.SumAtLeastCountTimesMin | upsolver/src/main/java/com/upsolver/operations/Operations.java:77-93 | the sum is at least count times the minimum |
| Operations.MeanBetweenMinAndMax | upsolver/src/main/java/com/upsolver/operations/Operations.java:77-93 | the average lies between the minimum and the maximum |
| Operations.OneBadFieldVoidsAggregations | upsolver/src/main/java/com/upsolver/operations/Operations.java:25-139 | one row whose field 0 is missing or unparseable makes every aggregation null (the caught exception) |
| Operations.NoValuesAggregations | upsolver/src/main/java/com/upsolver/operations/Operations.java:25-139 | over rows with only null field 0: max, min and avg give null, sum gives one row holding 0, ceil gives an empty matrix |
| Operations.NullFieldsHaveNoValues | upsolver/src/main/java/com/upsolver/operations/Operations.java:29-30 | null field-0 entries are skipped, not parsed |
| OperationsEnum.Name | upsolver/src/main/java/com/upsolver/operations/OperationsEnum.java:9-15 | every name is non-empty lower-case letters |
| OperationsEnum.NamesAreLowerCase | upsolver/src/main/java/com/upsolver/operations/OperationsEnum.java:27-29 | lower-casing a name changes nothing, so the lower-cased pipeline text can match it |
| OperationsEnum.Apply | upsolver/src/main/java/com/upsolver/operations/OperationsEnum.java:35-37 | transformations never give null and never lengthen the matrix, and give a matrix exactly when their parameters suit every row; aggregations never throw; faults are NumberFormat, IndexOutOfBounds or NullPointer |
| OperationsEnum.Catalogue | upsolver/src/main/java/com/upsolver/operations/OperationsEnum.java:9-15 | exactly seven distinct constants with pairwise distinct names |
| OperationsEnum.TransformationsArePluckAndFilter | upsolver/src/main/java/com/upsolver/operations/OperationsEnum.java:31-33 | an operator is a transformation exactly when it is pluck or filter |
| ChainParser.KeyIndex | upsolver/src/main/java/com/upsolver/operations/OperationsManager.java:16 | the position of a key in the map, or -1 exactly when absent |
| ChainParser.Lookup | upsolver/src/main/java/com/upsolver/operations/OperationsManager.java:16 | LinkedHashMap.get: absent exactly when the key is absent, otherwise the value of an entry with that key |
| ChainParser.LookupAt | upsolver/src/main/java/com/upsolver/operations/OperationsManager.java:16 | with distinct keys, looking up an entry's key gives that entry's value |
| ChainParser.Put | upsolver/src/main/java/com/upsolver/operations/OperationsManager.java:106-129 | LinkedHashMap.put: keys stay distinct, the key maps to the new value, other keys are untouched, an existing key keeps its position, a new key goes at the end |
| ChainParser.ParamList | upsolver/src/main/java/com/upsolver/operations/OperationsManager.java:134-136 | StringIndexOutOfBoundsException exactly when the position after the first '(' passes the last ')', and only that fault |
| ChainParser.ParamListBetweenBrackets | upsolver/src/main/java/com/upsolver/operations/OperationsManager.java:134-136 | a successful parameter list is the text after the first '(' (or from the start when there is none) and before the last ')', split on ',' |
| ChainParser.ParamListPieces | upsolver/src/main/java/com/upsolver/operations/OperationsManager.java:134-136 | no parameter contains a comma |
| ChainParser.DeclaresAtMostOne | upsolver/src/main/java/com/upsolver/operations/OperationsManager.java:104-130 | a segment declares at most one operator |
| ChainParser.Recognise | upsolver/src/main/java/com/upsolver/operations/OperationsManager.java:104-130 | the recognised operator is one the segment declares; when none is recognised, the segment declares none |
| ChainParser.RecogniseExactly | upsolver/src/main/java/com/upsolver/operations/OperationsManager.java:104-130 | a segment is recognised as an operator exactly when it declares it |
| ChainParser.Declared | upsolver/src/main/java/com/upsolver/operations/OperationsManager.java:104-130 | transformations store their parameter list (failing exactly when it fails); aggregations store null |
| ChainParser.AddSegment | upsolver/src/main/java/com/upsolver/operations/OperationsManager.java:103-130 | one loop iteration keeps the map's keys distinct |
| ChainParser.AddSegments | upsolver/src/main/java/com/upsolver/operations/OperationsManager.java:100-132 | the whole loop keeps keys distinct; its only failure is StringIndexOutOfBounds |
| ChainParser.ParseChain | upsolver/src/main/java/com/upsolver/operations/OperationsManager.java:26-36 | a parsed map has distinct keys; null or empty text gives the empty map |
| ChainParser.LastDeclarationSpec | upsolver/src/main/java/com/upsolver/operations/OperationsManager.java:100-132 | the last segment declaring an operator does declare it, and no later one does |
| ChainParser.FirstDeclarationSpec | upsolver/src/main/java/com/upsolver/operations/OperationsManager.java:100-132 | the first segment declaring an operator does declare it, and no earlier one does |
| ChainParser.AddSegmentEntry | upsolver/src/main/java/com/upsolver/operations/OperationsManager.java:103-130 | one segment sets exactly the entry of the operator it declares |
| ChainParser.ParsedEntries | upsolver/src/main/java/com/upsolver/operations/OperationsManager.java:100-132 | after the loop each operator holds what its last declaring segment gives it, or its earlier value when no segment declares it (later declarations win) |
| ChainParser.ParsedKeys | upsolver/src/main/java/com/upsolver/operations/OperationsManager.java:100-132 | after the loop an operator is a key exactly when it was one before or some segment declares it |
| ChainParser.AddSegmentFails | upsolver/src/main/java/com/upsolver/operations/OperationsManager.java:103-130 | one segment fails exactly when it declares a transformation whose parentheses are out of order |
| ChainParser.AddSegmentPuts | upsolver/src/main/java/com/upsolver/operations/OperationsManager.java:103-130 | an unrecognised segment leaves the map alone; a recognised one is a put of its operator and stored value |
| ChainParser.ParseFails | upsolver/src/main/java/com/upsolver/operations/OperationsManager.java:100-132 | the loop fails exactly when some segment is bad |
| ChainParser.EarlierBadPiece | upsolver/src/main/java/com/upsolver/operations/OperationsManager.java:100-132 | a bad segment before the last makes the whole loop fail |
| ChainParser.LastPieceDecides | upsolver/src/main/java/com/upsolver/operations/OperationsManager.java:100-132 | when the earlier segments succeed, the loop fails exactly when some segment is bad |
| ChainParser.ParsedKeysDeclared | upsolver/src/main/java/com/upsolver/operations/OperationsManager.java:100-132 | starting from the empty map, the keys are exactly the operators some segment declares |
| ChainParser.ParsedOrder | upsolver/src/main/java/com/upsolver/operations/OperationsManager.java:100-132 | the map iterates in the order of each operator's first declaration (insertion order) |
| ChainParser.OrderStep | upsolver/src/main/java/com/upsolver/operations/OperationsManager.java:103-130 | one more segment keeps first-declaration order |
| ChainParser.OrderSameKeys | upsolver/src/main/java/com/upsolver/operations/OperationsManager.java:106-129 | overwriting existing keys keeps the order |
| ChainParser.OrderAppend | upsolver/src/main/java/com/upsolver/operations/OperationsManager.java:106-129 | appending a key declared after all present ones keeps the order |
| ChainParser.FirstFailureSticks | upsolver/src/main/java/com/upsolver/operations/OperationsManager.java:100-132 | once a prefix of the segments fails, the whole loop fails with the same exception |
| Evaluator.RunStep | upsolver/src/main/java/com/upsolver/operations/OperationsManager.java:96-98 | a step over null or a thrown exception leaves it as it is |
| Evaluator.RunPhaseAppend | upsolver/src/main/java/com/upsolver/operations/OperationsManager.java:71-94 | running a phase over two chains is running the second on the first's result |
| Evaluator.NonMatrixAbsorbs | upsolver/src/main/java/com/upsolver/operations/OperationsManager.java:71-94 | once the matrix is null or an exception, the rest of the phase does nothing |
| Evaluator.NullStopsThePhase | upsolver/src/main/java/com/upsolver/operations/OperationsManager.java:73-79 | a null result stops the phase: any longer chain also gives null |
| Evaluator.NoStepsOfKind | upsolver/src/main/java/com/upsolver/operations/OperationsManager.java:71-94 | a phase with no operators of its kind returns its input |
| Evaluator.TransformationPhaseShrinks | upsolver/src/main/java/com/upsolver/operations/OperationsManager.java:71-81 | the transformation phase never gives null and never adds rows |
| Evaluator.AggregationPhaseNeverThrows | upsolver/src/main/java/com/upsolver/operations/OperationsManager.java:84-94 | the aggregation phase never throws |
| Evaluator.FirstParameterised | upsolver/src/main/java/com/upsolver/operations/OperationsManager.java:143-146 | the first entry with a parameter list, with no earlier one; -1 when there is none |
| Evaluator.CheckNumberOfFieldsInParams | upsolver/src/main/java/com/upsolver/operations/OperationsManager.java:138-156 | false for the empty map; true when no entry has parameters; otherwise NumberFormat exactly when the greatest parameter string does not parse, and false exactly when it parses to at least the header width |
| Evaluator.ValidationLooksAtFirstOnly | upsolver/src/main/java/com/upsolver/operations/OperationsManager.java:143-153 | only the first entry with parameters is checked: later entries change nothing |
| Evaluator.FirstParameterisedPrefix | upsolver/src/main/java/com/upsolver/operations/OperationsManager.java:143-146 | appending entries does not move the first parameterised one |
| Evaluator.ParamListOfCall | upsolver/src/main/java/com/upsolver/operations/OperationsManager.java:134-136 | for a call `name(inner)` with no other brackets, the parameters are `inner` split on ',' |
| Evaluator.PluckTenNineParameters | upsolver/src/main/java/com/upsolver/operations/OperationsManager.java:134-136 | the segment `pluck(10,9)` has the parameters ["10", "9"] |
| Evaluator.SpacedParametersCompareAsText | upsolver/src/main/java/com/upsolver/operations/OperationsManager.java:143-151 | the parameters ["10", " 9"] of `pluck(10, 9)` fail the check on 10 fields, because " 9" sorts before "10" and "10" is not below 10 |
| Evaluator.ValidationComparesText | upsolver/src/main/java/com/upsolver/operations/OperationsManager.java:148-151 | the parameters ["10", "9"] of `pluck(10,9)` pass the check on 10 fields ("9" is the greatest string), and the same parameters make pluck throw IndexOutOfBounds on a 10-field row |
| Evaluator.MatrixFields | upsolver/src/main/java/com/upsolver/operations/OperationsManager.java:184-193 | filter: all field names joined by ','; pluck: succeeds exactly when the first parameter parses to an index inside the header, and gives the name there; otherwise the first name; failures are IndexOutOfBounds, NumberFormat or NullPointer |
| Evaluator.RowLinesAppend | upsolver/src/main/java/com/upsolver/operations/OperationsManager.java:170-173 | the lines of two row sequences are the lines of each, concatenated |
| Evaluator.CsvTextStep | upsolver/src/main/java/com/upsolver/operations/OperationsManager.java:170-173 | writing one more row appends exactly its delimited line to the file text |
| Evaluator.SingleFieldLine | upsolver/src/main/java/com/upsolver/operations/OperationsManager.java:170-173 | a one-field row is written as its text, a trailing ',' and a newline |
| Evaluator.Finalize | upsolver/src/main/java/com/upsolver/operations/OperationsManager.java:61-68 | nothing is written exactly when the aggregation phase gives null or no rows |
| Evaluator.ProcessRow | upsolver/src/main/java/com/upsolver/operations/OperationsManager.java:44-55 | while the header is empty, the row's fields become the header (so a row with no fields leaves it empty) and the answer is the header check; after that the header is frozen; with operators, the answer succeeds exactly when the transformations give a matrix, whose rows are appended; an exception leaves the rows alone |
| Evaluator.NoOperationsNoRows | upsolver/src/main/java/com/upsolver/operations/OperationsManager.java:49-54 | with no operators a data row changes nothing and the answer is true |
| Evaluator.ProcessRowKeepsConsistent | upsolver/src/main/java/com/upsolver/operations/OperationsManager.java:44-55 | processing a row keeps the map's keys distinct and no rows before a header |
| Evaluator.FinalizeHasLastOperation | upsolver/src/main/java/com/upsolver/operations/OperationsManager.java:61-68 | when output is written, the map is non-empty and the text is the CSV of the aggregated rows under the header the last operator chooses |
| Evaluator.RecogniseTests | upsolver/src/main/java/com/upsolver/operations/OperationsManager.java:104-130 | each of the seven tests in the loop (equality for aggregations, prefix for transformations) holds exactly when the segment is recognised as that operator |
| Evaluator.OperationsManager.Empty | upsolver/src/main/java/com/upsolver/operations/OperationsManager.java:16-18 | a new manager has an empty map, no header and an empty matrix |
| Evaluator.OperationsManager.Create | upsolver/src/main/java/com/upsolver/operations/OperationsManager.java:26-36 | the constructor succeeds exactly when the pipeline text parses, and then holds the parsed map, no header and no rows; otherwise it throws the parser's exception |
| Evaluator.OperationsManager.ConvertOperationsStrToList | upsolver/src/main/java/com/upsolver/operations/OperationsManager.java:100-132 | the loop leaves in the map exactly the parse of the text, or returns the parser's exception |
| Evaluator.OperationsManager.PutSegment | upsolver/src/main/java/com/upsolver/operations/OperationsManager.java:103-130 | one loop iteration changes the map exactly as AddSegment says |
| Evaluator.OperationsManager.PutAggregation | upsolver/src/main/java/com/upsolver/operations/OperationsManager.java:104-122 | the five equality tests put null under the aggregation the segment names, and leave the map alone otherwise |
| Evaluator.OperationsManager.RunTransformationOperations | upsolver/src/main/java/com/upsolver/operations/OperationsManager.java:71-81 | the loop gives the transformation phase of the map |
| Evaluator.OperationsManager.RunAggregationOperations | upsolver/src/main/java/com/upsolver/operations/OperationsManager.java:84-94 | the loop gives the aggregation phase of the map |
| Evaluator.OperationsManager.ProcessDataRow | upsolver/src/main/java/com/upsolver/operations/OperationsManager.java:44-55 | the new header, rows and answer are those of ProcessRow, and the invariant is kept |
| Evaluator.OperationsManager.WriteMatrix | upsolver/src/main/java/com/upsolver/operations/OperationsManager.java:158-181 | the text written is the header line followed by one delimited line per row |
| Evaluator.OperationsManager.FinalizeProcess | upsolver/src/main/java/com/upsolver/operations/OperationsManager.java:61-68 | the emission is that of Finalize on the current state |
| Driver.FeedRows | upsolver/src/main/java/com/upsolver/App.java:17-23 | the reading loop keeps the map, sets the header from the first line when that line splits into at least one field, then freezes it, and only appends rows |
| Driver.FieldlessLineHeader | upsolver/src/main/java/com/upsolver/App.java:17-23 | a first line with no fields leaves the header empty; if the check on width 0 answers false, reading stops with no header; if it answers true, the next line that has fields becomes the header |
| Driver.Run | upsolver/src/main/java/com/upsolver/App.java:15-27 | the loop and finalizeProcess give exactly the outcome of RunLines |
| Driver.RunApp | upsolver/src/main/java/com/upsolver/App.java:11-27 | main gives exactly the outcome of RunPipeline |
| Driver.NothingRecognisedWritesNothing | upsolver/src/main/java/com/upsolver/App.java:17-24 | a pipeline in which nothing is recognised writes nothing |
| Driver.RejectedHeaderStillFinalizes | upsolver/src/main/java/com/upsolver/App.java:20-24 | when the header check fails, reading stops but finalizeProcess runs over the empty matrix |
| Driver.RejectedHeaderStillSums | upsolver/src/main/java/com/upsolver/App.java:20-24 | so transformations followed only by sum, under a header with at least one field, write one row holding valueOf(0.0) under the header's first name even when the header check fails |

## Left out

- File output: the FileWriter, the file name built from the time zone and the clock, and `System.out` messages are left out. `finalizeProcess` is modelled as the text it would write (`Emission`).
- The output file is created before `getMatrixFields` runs, so a header that fails leaves an empty file behind. The model only reports the exception.
- Reading the input file (`LineIterator`) and closing it: the lines are a parameter, and I/O errors are not modelled.
- Floating point: `Double.parseDouble` and `String.valueOf(double)` are parameters (`Numerics`), and arithmetic is on exact reals. Rounding, NaN and infinity are not modelled.
- Operations.Max, Operations.Min, Operations.Avg: the value's text is `valueOf` of an uninterpreted real. For avg, only a bound between min and max is stated, not the exact quotient under IEEE rounding.
- JavaLang.Lower: `toLowerCase` is modelled on ASCII letters only. Locale rules and non-ASCII case mapping are left out.
- JavaLang.ParseInt: only ASCII digits are accepted. Java also accepts other Unicode digits.
- JavaLang.LexLess: compares Dafny characters, which are Unicode scalar values, while Java compares UTF-16 code units. A character above U+FFFF sorts after U+E000-U+FFFF here, but before them in Java, where its surrogate code units are smaller.
- Matrices.Matrix.Join: requires `matrix != this`. Joining a matrix with itself never happens in the program. In Java it would throw ConcurrentModificationException, because the for-each loop iterates the same ArrayList that `addRow` appends to. The model does not capture that exception.
- Aliasing: `Matrix(List)` and `Row(List)` adopt the caller's list. `singletonList` is immutable. The model copies values.
- Row `getData`/`setData` are modelled on values (`Rows.SetData`). No code in the repository mutates a row after building it.
- `OperationContent` is modelled as the argument pair (rows, parameters) of each operator.
- `Matrix.getRows`/`setRows` are plain reads and writes of the `rows` field.
- Exceptions are identified only by class (`Fault`). Stack traces and messages are left out.
