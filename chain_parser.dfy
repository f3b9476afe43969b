/** OperationsManager.convertOperationsStrToList and getParamList as functions:
    the pipeline text becomes the operations map, an insertion-ordered map
    from operator to parameter list (a LinkedHashMap in the program). */
module ChainParser {
  import opened Wrappers
  import opened JavaLang
  import opened OperationsEnum

  /** One entry of the operations map; the aggregations are stored with a null list. */
  datatype Step = Step(op: Operation, params: Option<seq<string>>)

  /** The map as its entries in iteration order. */
  type Chain = seq<Step>

  predicate KeysDistinct(c: Chain)
  {
    forall i, j :: 0 <= i < j < |c| ==> c[i].op != c[j].op
  }

  predicate HasKey(c: Chain, op: Operation)
  {
    exists i :: 0 <= i < |c| && c[i].op == op
  }

  /** The position of op's entry, or -1. */
  function KeyIndex(c: Chain, op: Operation): (i: int)
    ensures -1 <= i < |c|
    ensures i >= 0 ==> c[i].op == op
    ensures i < 0 <==> !HasKey(c, op)
  {
    if |c| == 0 then -1
    else if c[|c| - 1].op == op then |c| - 1
    else
      var i := KeyIndex(c[..|c| - 1], op);
      assert forall k :: 0 <= k < |c| - 1 ==> c[..|c| - 1][k] == c[k];
      i
  }

  /** Map.get, with None for a missing key. */
  function Lookup(c: Chain, op: Operation): (r: Option<Option<seq<string>>>)
    ensures r.None? <==> !HasKey(c, op)
    ensures r.Some? ==> exists i :: 0 <= i < |c| && c[i] == Step(op, r.value)
  {
    var i := KeyIndex(c, op);
    if i < 0 then None else Some(c[i].params)
  }

  /** With distinct keys, the entry found at any position of op is the one Map.get returns. */
  lemma LookupAt(c: Chain, i: int)
    requires KeysDistinct(c) && 0 <= i < |c|
    ensures Lookup(c, c[i].op) == Some(c[i].params)
  {
  }

  /** LinkedHashMap.put: a new key goes at the end; an existing key keeps its
      place and only its value is replaced. */
  function Put(c: Chain, op: Operation, params: Option<seq<string>>): (r: Chain)
    requires KeysDistinct(c)
    ensures KeysDistinct(r)
    ensures Lookup(r, op) == Some(params)
    ensures forall other :: other != op ==> Lookup(r, other) == Lookup(c, other)
    ensures HasKey(c, op) ==> |r| == |c| && forall i :: 0 <= i < |c| ==> r[i].op == c[i].op
    ensures !HasKey(c, op) ==> r == c + [Step(op, params)]
  {
    var i := KeyIndex(c, op);
    var r := if i < 0 then c + [Step(op, params)] else c[i := Step(op, params)];
    assert r[if i < 0 then |c| else i] == Step(op, params);
    LookupAt(r, if i < 0 then |c| else i);
    forall other | other != op ensures Lookup(r, other) == Lookup(c, other) {
      if HasKey(c, other) {
        var k :| 0 <= k < |c| && c[k].op == other;
        LookupAt(c, k);
        LookupAt(r, k);
      } else {
        assert !HasKey(r, other);
      }
    }
    r
  }

  /** b is just after the first '(' of seg, or 0 when seg has none. */
  predicate AfterFirstOpen(seg: string, b: int)
  {
    0 <= b <= |seg| && (b > 0 ==> seg[b - 1] == '(')
    && forall k :: 0 <= k < |seg| && (b == 0 || k < b - 1) ==> seg[k] != '('
  }

  /** e is the position of the last ')' of seg. */
  predicate AtLastClose(seg: string, e: int)
  {
    0 <= e < |seg| && seg[e] == ')' && forall k :: e < k < |seg| ==> seg[k] != ')'
  }

  /** getParamList: the text strictly between the first '(' and the last ')'
      (from the start when there is no '('), split on ','. String.substring
      throws when the first index passes the second, which includes every
      segment without a ')'. */
  function ParamList(seg: string): (r: Result<seq<string>, Fault>)
    ensures r.Err? <==> IndexOfChar(seg, '(') + 1 > LastIndexOfChar(seg, ')')
    ensures r.Err? ==> r.error == StringIndexOutOfBounds
  {
    var b, e := IndexOfChar(seg, '(') + 1, LastIndexOfChar(seg, ')');
    if b > e then Err(StringIndexOutOfBounds)
    else Ok(Split(seg[b..e], ","))
  }

  /** The parameters are the text between the first '(' and the last ')',
      split on ','. */
  lemma ParamListBetweenBrackets(seg: string)
    requires ParamList(seg).Ok?
    ensures exists b, e :: AfterFirstOpen(seg, b) && AtLastClose(seg, e) && b <= e
                           && ParamList(seg).value == Split(seg[b..e], ",")
  {
    var b, e := IndexOfChar(seg, '(') + 1, LastIndexOfChar(seg, ')');
    assert AfterFirstOpen(seg, b) && AtLastClose(seg, e);
  }

  /** No parameter contains a ','. */
  lemma ParamListPieces(seg: string)
    requires ParamList(seg).Ok?
    ensures forall k :: 0 <= k < |ParamList(seg).value| ==> IndexOf(ParamList(seg).value[k], ",") == -1
  {
    var b, e := IndexOfChar(seg, '(') + 1, LastIndexOfChar(seg, ')');
    SplitPiecesAvoidSeparator(seg[b..e], ",");
  }

  /** The segment names this operator: the aggregations by equality with
      their name, pluck and filter by starting with theirs. */
  predicate Declares(seg: string, op: Operation)
  {
    if IsTransformation(op) then StartsWith(seg, Name(op)) else seg == Name(op)
  }

  /** No segment declares two operators: the aggregation names are distinct,
      no aggregation name is as long as "pluck" or "filter", and those two
      differ in their first letter. */
  lemma DeclaresAtMostOne(seg: string, a: Operation, b: Operation)
    requires Declares(seg, a) && Declares(seg, b)
    ensures a == b
  {
    Catalogue();
    if IsTransformation(a) && IsTransformation(b) {
      assert seg[0] == Name(a)[0] && seg[0] == Name(b)[0];
    }
  }

  /** The seven tests of the parsing loop; a segment passes at most one of them. */
  function Recognise(seg: string): (r: Option<Operation>)
    ensures r.Some? ==> Declares(seg, r.value)
    ensures r.None? ==> forall op :: !Declares(seg, op)
  {
    if seg == Name(Sum) then Some(Sum)
    else if seg == Name(Avg) then Some(Avg)
    else if seg == Name(Min) then Some(Min)
    else if seg == Name(Max) then Some(Max)
    else if seg == Name(Ceil) then Some(Ceil)
    else if StartsWith(seg, Name(Pluck)) then Some(Pluck)
    else if StartsWith(seg, Name(Filter)) then Some(Filter)
    else None
  }

  /** The operator a segment declares, when it declares one, is the one Recognise names. */
  lemma RecogniseExactly(seg: string, op: Operation)
    ensures Recognise(seg) == Some(op) <==> Declares(seg, op)
  {
    if Declares(seg, op) {
      DeclaresAtMostOne(seg, op, Recognise(seg).value);
    }
  }

  /** What the map stores for a segment declaring op: its parameter list for
      pluck and filter, null for the aggregations. */
  function Declared(op: Operation, seg: string): (r: Result<Option<seq<string>>, Fault>)
    ensures IsTransformation(op) ==> (r.Ok? <==> ParamList(seg).Ok?)
    ensures IsTransformation(op) && r.Ok? ==> r.value == Some(ParamList(seg).value)
    ensures !IsTransformation(op) ==> r == Ok(None)
  {
    if IsTransformation(op) then
      match ParamList(seg)
      case Err(f) => Err(f)
      case Ok(ps) => Ok(Some(ps))
    else Ok(None)
  }

  /** One pass of the parsing loop: trim the piece, then put the operator it declares. */
  function AddSegment(c: Chain, piece: string): (r: Result<Chain, Fault>)
    requires KeysDistinct(c)
    ensures r.Ok? ==> KeysDistinct(r.value)
  {
    var seg := Trim(piece);
    match Recognise(seg)
    case None => Ok(c)
    case Some(op) =>
      match Declared(op, seg)
      case Err(f) => Err(f)
      case Ok(params) => Ok(Put(c, op, params))
  }

  /** The parsing loop over all pieces, in order; the first exception stops it. */
  function AddSegments(c: Chain, pieces: seq<string>): (r: Result<Chain, Fault>)
    requires KeysDistinct(c)
    ensures r.Ok? ==> KeysDistinct(r.value)
    ensures r.Err? ==> r.error == StringIndexOutOfBounds
  {
    if |pieces| == 0 then Ok(c)
    else
      match AddSegments(c, pieces[..|pieces| - 1])
      case Err(f) => Err(f)
      case Ok(prev) => AddSegment(prev, pieces[|pieces| - 1])
  }

  /** The pieces of the pipeline text: trimmed, lower-cased, split on "->". */
  function Segments(expr: string): seq<string>
  {
    Split(Lower(Trim(expr)), "->")
  }

  /** The constructor: a null or empty text gives no operations. */
  function ParseChain(expr: Option<string>): (r: Result<Chain, Fault>)
    ensures r.Ok? ==> KeysDistinct(r.value)
    ensures expr.None? || expr == Some("") ==> r == Ok([])
  {
    if expr.None? || |expr.value| == 0 then Ok([])
    else AddSegments([], Segments(expr.value))
  }

  /** The last piece declaring op, or -1. */
  function LastDeclaration(pieces: seq<string>, op: Operation): (j: int)
    ensures -1 <= j < |pieces|
  {
    if |pieces| == 0 then -1
    else if Declares(Trim(pieces[|pieces| - 1]), op) then |pieces| - 1
    else LastDeclaration(pieces[..|pieces| - 1], op)
  }

  /** The piece LastDeclaration names declares op, and no later piece does. */
  lemma {:induction false} LastDeclarationSpec(pieces: seq<string>, op: Operation)
    ensures var j := LastDeclaration(pieces, op);
            (j >= 0 ==> Declares(Trim(pieces[j]), op))
            && forall k :: j < k < |pieces| ==> !Declares(Trim(pieces[k]), op)
  {
    var j := LastDeclaration(pieces, op);
    if j >= 0 {
      LastDeclarationDeclares(pieces, op);
    }
    forall k | j < k < |pieces| ensures !Declares(Trim(pieces[k]), op) {
      NoDeclarationAfterLast(pieces, op, k);
    }
  }

  /** The piece LastDeclaration names declares op. */
  lemma {:induction false} LastDeclarationDeclares(pieces: seq<string>, op: Operation)
    requires LastDeclaration(pieces, op) >= 0
    ensures Declares(Trim(pieces[LastDeclaration(pieces, op)]), op)
  {
    var n := |pieces| - 1;
    if !Declares(Trim(pieces[n]), op) {
      var init := pieces[..n];
      LastDeclarationDeclares(init, op);
      assert init[LastDeclaration(init, op)] == pieces[LastDeclaration(pieces, op)];
    }
  }

  /** No piece after the one LastDeclaration names declares op. */
  lemma {:induction false} NoDeclarationAfterLast(pieces: seq<string>, op: Operation, k: int)
    requires LastDeclaration(pieces, op) < k < |pieces|
    ensures !Declares(Trim(pieces[k]), op)
  {
    var n := |pieces| - 1;
    if k < n {
      var init := pieces[..n];
      NoDeclarationAfterLast(init, op, k);
      assert init[k] == pieces[k];
    }
  }

  /** The first piece declaring op, or -1. */
  function FirstDeclaration(pieces: seq<string>, op: Operation): (j: int)
    ensures -1 <= j < |pieces|
  {
    if |pieces| == 0 then -1
    else
      var f := FirstDeclaration(pieces[..|pieces| - 1], op);
      if f >= 0 then f
      else if Declares(Trim(pieces[|pieces| - 1]), op) then |pieces| - 1
      else -1
  }

  /** The piece FirstDeclaration names declares op, and no earlier piece does;
      -1 means that no piece declares it. */
  lemma {:induction false} FirstDeclarationSpec(pieces: seq<string>, op: Operation)
    ensures var j := FirstDeclaration(pieces, op);
            (j >= 0 ==> Declares(Trim(pieces[j]), op))
            && forall k :: 0 <= k < |pieces| && (j < 0 || k < j) ==> !Declares(Trim(pieces[k]), op)
  {
    var j := FirstDeclaration(pieces, op);
    if j >= 0 {
      FirstDeclarationDeclares(pieces, op);
    }
    forall k | 0 <= k < |pieces| && (j < 0 || k < j) ensures !Declares(Trim(pieces[k]), op) {
      NoDeclarationBeforeFirst(pieces, op, k);
    }
  }

  /** The piece FirstDeclaration names declares op. */
  lemma {:induction false} FirstDeclarationDeclares(pieces: seq<string>, op: Operation)
    requires FirstDeclaration(pieces, op) >= 0
    ensures Declares(Trim(pieces[FirstDeclaration(pieces, op)]), op)
  {
    var init := pieces[..|pieces| - 1];
    if FirstDeclaration(init, op) >= 0 {
      FirstDeclarationDeclares(init, op);
      assert init[FirstDeclaration(init, op)] == pieces[FirstDeclaration(pieces, op)];
    }
  }

  /** No piece before the one FirstDeclaration names declares op. */
  lemma {:induction false} NoDeclarationBeforeFirst(pieces: seq<string>, op: Operation, k: int)
    requires 0 <= k < |pieces|
    requires FirstDeclaration(pieces, op) < 0 || k < FirstDeclaration(pieces, op)
    ensures !Declares(Trim(pieces[k]), op)
  {
    var init := pieces[..|pieces| - 1];
    if k < |init| {
      NoDeclarationBeforeFirst(init, op, k);
      assert init[k] == pieces[k];
    }
  }

  /** One pass of the loop: a piece declaring op sets op's entry; any other piece leaves it. */
  lemma AddSegmentEntry(c: Chain, piece: string, op: Operation)
    requires KeysDistinct(c) && AddSegment(c, piece).Ok?
    ensures Declares(Trim(piece), op) ==> (Declared(op, Trim(piece)).Ok?
              && Lookup(AddSegment(c, piece).value, op) == Some(Declared(op, Trim(piece)).value))
    ensures !Declares(Trim(piece), op) ==> Lookup(AddSegment(c, piece).value, op) == Lookup(c, op)
  {
    RecogniseExactly(Trim(piece), op);
  }

  /** After parsing, an operator maps to what its last declaring piece gives;
      an operator no piece declares keeps what it had (nothing, from the
      constructor's empty map). */
  lemma {:induction false} ParsedEntries(c: Chain, pieces: seq<string>, op: Operation)
    requires KeysDistinct(c) && AddSegments(c, pieces).Ok?
    ensures var j := LastDeclaration(pieces, op);
            if j < 0 then Lookup(AddSegments(c, pieces).value, op) == Lookup(c, op)
            else Declared(op, Trim(pieces[j])).Ok?
                 && Lookup(AddSegments(c, pieces).value, op) == Some(Declared(op, Trim(pieces[j])).value)
  {
    if |pieces| > 0 {
      var n := |pieces| - 1;
      var init := pieces[..n];
      ParsedEntries(c, init, op);
      var prev := AddSegments(c, init).value;
      assert AddSegments(c, pieces) == AddSegment(prev, pieces[n]);
      AddSegmentEntry(prev, pieces[n], op);
      if !Declares(Trim(pieces[n]), op) {
        var j := LastDeclaration(init, op);
        assert LastDeclaration(pieces, op) == j;
        assert j >= 0 ==> init[j] == pieces[j];
      }
    }
  }

  /** An operator is in the parsed map iff it was there before or some piece declares it. */
  lemma ParsedKeys(c: Chain, pieces: seq<string>, op: Operation)
    requires KeysDistinct(c) && AddSegments(c, pieces).Ok?
    ensures HasKey(AddSegments(c, pieces).value, op)
            <==> HasKey(c, op) || exists j :: 0 <= j < |pieces| && Declares(Trim(pieces[j]), op)
  {
    ParsedEntries(c, pieces, op);
    LastDeclarationSpec(pieces, op);
  }

  /** A pluck or filter piece whose parameter list substring cannot cut out. */
  predicate BadPiece(piece: string)
  {
    var seg := Trim(piece);
    Recognise(seg).Some? && IsTransformation(Recognise(seg).value) && ParamList(seg).Err?
  }

  lemma AddSegmentFails(c: Chain, piece: string)
    requires KeysDistinct(c)
    ensures AddSegment(c, piece).Err? <==> BadPiece(piece)
  {
  }

  /** One pass of the loop leaves the map alone or puts the operator the piece declares. */
  lemma AddSegmentPuts(c: Chain, piece: string)
    requires KeysDistinct(c) && AddSegment(c, piece).Ok?
    ensures Recognise(Trim(piece)).None? ==> AddSegment(c, piece).value == c
    ensures Recognise(Trim(piece)).Some? ==>
              var op := Recognise(Trim(piece)).value;
              Declared(op, Trim(piece)).Ok? && AddSegment(c, piece).value == Put(c, op, Declared(op, Trim(piece)).value)
  {
  }

  /** Parsing fails iff some piece is bad. */
  lemma {:induction false} ParseFails(c: Chain, pieces: seq<string>)
    requires KeysDistinct(c)
    ensures AddSegments(c, pieces).Err? <==> exists j :: 0 <= j < |pieces| && BadPiece(pieces[j])
  {
    if |pieces| > 0 {
      var init := pieces[..|pieces| - 1];
      ParseFails(c, init);
      if AddSegments(c, init).Err? {
        var j :| 0 <= j < |init| && BadPiece(init[j]);
        EarlierBadPiece(c, pieces, j);
      } else {
        LastPieceDecides(c, pieces);
      }
    }
  }

  lemma EarlierBadPiece(c: Chain, pieces: seq<string>, j: int)
    requires KeysDistinct(c) && |pieces| > 0 && AddSegments(c, pieces[..|pieces| - 1]).Err?
    requires 0 <= j < |pieces| - 1 && BadPiece(pieces[..|pieces| - 1][j])
    ensures AddSegments(c, pieces).Err?
    ensures exists k :: 0 <= k < |pieces| && BadPiece(pieces[k])
  {
    assert pieces[..|pieces| - 1][j] == pieces[j];
  }

  lemma LastPieceDecides(c: Chain, pieces: seq<string>)
    requires KeysDistinct(c) && |pieces| > 0
    requires var init := pieces[..|pieces| - 1];
             AddSegments(c, init).Ok? && forall j :: 0 <= j < |init| ==> !BadPiece(init[j])
    ensures AddSegments(c, pieces).Err? <==> exists j :: 0 <= j < |pieces| && BadPiece(pieces[j])
  {
    var n := |pieces| - 1;
    var init := pieces[..n];
    var prev := AddSegments(c, init).value;
    assert AddSegments(c, pieces) == AddSegment(prev, pieces[n]);
    AddSegmentFails(prev, pieces[n]);
    if !BadPiece(pieces[n]) {
      forall j | 0 <= j < |pieces| ensures !BadPiece(pieces[j]) {
        if j < n {
          assert !BadPiece(init[j]);
          assert pieces[j] == init[j];
        } else {
          assert j == n;
        }
      }
    }
  }

  /** Every key of the parsed map has a declaring piece, and every declared operator is a key. */
  lemma ParsedKeysDeclared(pieces: seq<string>)
    requires AddSegments([], pieces).Ok?
    ensures forall o :: HasKey(AddSegments([], pieces).value, o) <==> FirstDeclaration(pieces, o) >= 0
  {
    forall o ensures HasKey(AddSegments([], pieces).value, o) <==> FirstDeclaration(pieces, o) >= 0 {
      ParsedKeys([], pieces, o);
      FirstDeclarationSpec(pieces, o);
    }
  }

  /** The entries of r appear in the order in which pieces first declare their operators. */
  predicate InDeclarationOrder(r: Chain, pieces: seq<string>)
  {
    (forall i :: 0 <= i < |r| ==> FirstDeclaration(pieces, r[i].op) >= 0)
    && forall i, k :: 0 <= i < k < |r| ==> FirstDeclaration(pieces, r[i].op) < FirstDeclaration(pieces, r[k].op)
  }

  /** The map's order is the order in which the operators are first declared. */
  lemma {:induction false} ParsedOrder(pieces: seq<string>)
    requires AddSegments([], pieces).Ok?
    ensures InDeclarationOrder(AddSegments([], pieces).value, pieces)
  {
    if |pieces| > 0 {
      var n := |pieces| - 1;
      ParsedOrder(pieces[..n]);
      ParsedKeysDeclared(pieces[..n]);
      OrderStep(pieces);
    }
  }

  /** Adding the last piece keeps the declaration order: the earlier keys keep
      their first declarations, and a new key is first declared by that piece. */
  lemma OrderStep(pieces: seq<string>)
    requires |pieces| > 0 && AddSegments([], pieces).Ok?
    requires var init := pieces[..|pieces| - 1];
             AddSegments([], init).Ok? && InDeclarationOrder(AddSegments([], init).value, init)
             && forall o :: HasKey(AddSegments([], init).value, o) <==> FirstDeclaration(init, o) >= 0
    ensures InDeclarationOrder(AddSegments([], pieces).value, pieces)
  {
    var n := |pieces| - 1;
    var init := pieces[..n];
    var prev := AddSegments([], init).value;
    var r := AddSegments([], pieces).value;
    forall i | 0 <= i < |prev|
      ensures 0 <= FirstDeclaration(pieces, prev[i].op) == FirstDeclaration(init, prev[i].op) < n
    {
      assert HasKey(prev, prev[i].op);
    }
    assert InDeclarationOrder(prev, pieces);
    assert r == AddSegment(prev, pieces[n]).value;
    AddSegmentPuts(prev, pieces[n]);
    var seg := Trim(pieces[n]);
    if Recognise(seg).Some? {
      var op := Recognise(seg).value;
      if HasKey(prev, op) {
        OrderSameKeys(prev, r, pieces);
      } else {
        assert FirstDeclaration(pieces, op) == n;
        OrderAppend(prev, Step(op, Declared(op, seg).value), pieces);
      }
    }
  }

  lemma OrderSameKeys(prev: Chain, r: Chain, pieces: seq<string>)
    requires InDeclarationOrder(prev, pieces)
    requires |r| == |prev| && forall i :: 0 <= i < |r| ==> r[i].op == prev[i].op
    ensures InDeclarationOrder(r, pieces)
  {
    forall i | 0 <= i < |r| ensures FirstDeclaration(pieces, r[i].op) >= 0 {
      assert r[i].op == prev[i].op;
    }
    forall i, k | 0 <= i < k < |r|
      ensures FirstDeclaration(pieces, r[i].op) < FirstDeclaration(pieces, r[k].op)
    {
      assert r[i].op == prev[i].op && r[k].op == prev[k].op;
    }
  }

  lemma OrderAppend(prev: Chain, st: Step, pieces: seq<string>)
    requires InDeclarationOrder(prev, pieces)
    requires FirstDeclaration(pieces, st.op) >= 0
    requires forall i :: 0 <= i < |prev| ==> FirstDeclaration(pieces, prev[i].op) < FirstDeclaration(pieces, st.op)
    ensures InDeclarationOrder(prev + [st], pieces)
  {
    var r := prev + [st];
    forall i | 0 <= i < |r| ensures FirstDeclaration(pieces, r[i].op) >= 0 {
      if i < |prev| {
        assert r[i] == prev[i];
      } else {
        assert r[i] == st;
      }
    }
    forall i, k | 0 <= i < k < |r|
      ensures FirstDeclaration(pieces, r[i].op) < FirstDeclaration(pieces, r[k].op)
    {
      assert r[i] == prev[i];
      if k < |prev| {
        assert r[k] == prev[k];
      }
    }
  }

  /** One more piece: the parse of a longer prefix continues from the shorter one. */
  lemma AddSegmentsStep(c: Chain, pieces: seq<string>, i: nat)
    requires KeysDistinct(c) && i < |pieces| && AddSegments(c, pieces[..i]).Ok?
    ensures AddSegments(c, pieces[..i + 1]) == AddSegment(AddSegments(c, pieces[..i]).value, pieces[i])
  {
    assert pieces[..i + 1][..i] == pieces[..i];
  }

  /** The first exception ends the loop: the remaining pieces are never looked at. */
  lemma {:induction false} FirstFailureSticks(c: Chain, pieces: seq<string>, k: nat)
    requires KeysDistinct(c) && k <= |pieces| && AddSegments(c, pieces[..k]).Err?
    ensures AddSegments(c, pieces) == AddSegments(c, pieces[..k])
    decreases |pieces| - k
  {
    if k < |pieces| {
      assert pieces[..k + 1][..k] == pieces[..k];
      FirstFailureSticks(c, pieces, k + 1);
    } else {
      assert pieces[..k] == pieces;
    }
  }
}
