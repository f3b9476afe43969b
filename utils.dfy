/** Utils.checkNumber: a numeric-string test gated by the pattern
    [-+]?[0-9]*\.?[0-9]+, read as a whole-string match. */
module Utils {
  import opened Wrappers
  import opened JavaLang

  /** The text after the first '.' is a non-empty digit run and the text
      before it is a (possibly empty) digit run; with no '.', the whole text is
      a non-empty digit run. */
  predicate IsUnsignedDecimal(s: string)
  {
    var dot := IndexOfChar(s, '.');
    if dot < 0 then |s| > 0 && AllDigits(s)
    else AllDigits(s[..dot]) && dot + 1 < |s| && AllDigits(s[dot + 1..])
  }

  /** The recogniser: an optional single sign, then an unsigned decimal. */
  predicate IsNumberSyntax(s: string)
  {
    if |s| > 0 && (s[0] == '+' || s[0] == '-') then IsUnsignedDecimal(s[1..]) else IsUnsignedDecimal(s)
  }

  /** s[q..] is what [0-9]*\.?[0-9]+ leaves after the integer part: either a
      non-empty digit run, or '.' followed by a non-empty digit run. */
  predicate FractionTail(s: string, q: int)
    requires 0 <= q <= |s|
  {
    (q < |s| && AllDigits(s[q..])) || (q + 1 < |s| && s[q] == '.' && AllDigits(s[q + 1..]))
  }

  /** The language of the pattern, as the regular expression reads: a sign of
      length p (0 or 1), digits s[p..q], then the fraction tail. */
  ghost predicate MatchesNumberPattern(s: string)
  {
    exists p, q :: 0 <= p <= 1 && p <= q <= |s|
      && (p == 1 ==> s[0] == '+' || s[0] == '-')
      && AllDigits(s[p..q]) && FractionTail(s, q)
  }

  lemma UnsignedDecimalMatches(s: string, p: int)
    requires 0 <= p <= |s| && IsUnsignedDecimal(s[p..])
    ensures exists q :: p <= q <= |s| && AllDigits(s[p..q]) && FractionTail(s, q)
  {
    var u := s[p..];
    var dot := IndexOfChar(u, '.');
    if dot < 0 {
      var q := p + |u| - 1;
      assert s[p..q] == u[..|u| - 1];
      assert s[q..] == u[|u| - 1..];
      assert AllDigits(s[p..q]) && FractionTail(s, q);
    } else {
      var q := p + dot;
      assert s[p..q] == u[..dot];
      assert s[q + 1..] == u[dot + 1..];
      assert AllDigits(s[p..q]) && FractionTail(s, q);
    }
  }

  lemma MatchesUnsignedDecimal(s: string, p: int, q: int)
    requires 0 <= p <= q <= |s| && AllDigits(s[p..q]) && FractionTail(s, q)
    ensures IsUnsignedDecimal(s[p..])
  {
    var u := s[p..];
    var dot := IndexOfChar(u, '.');
    if q < |s| && AllDigits(s[q..]) {
      assert forall k :: 0 <= k < |u| ==> IsDigit(u[k]) by {
        forall k | 0 <= k < |u| ensures IsDigit(u[k]) {
          if k < q - p { assert u[k] == s[p..q][k]; } else { assert u[k] == s[q..][k - (q - p)]; }
        }
      }
      assert dot < 0;
    } else {
      assert u[q - p] == '.';
      assert forall k :: 0 <= k < q - p ==> u[k] != '.' by {
        forall k | 0 <= k < q - p ensures u[k] != '.' { assert u[k] == s[p..q][k]; }
      }
      assert dot == q - p;
      assert u[..dot] == s[p..q];
      assert u[dot + 1..] == s[q + 1..];
    }
  }

  /** A leading sign can only be matched by the optional sign of the pattern. */
  lemma SignIsOptionalPart(s: string, p: int, q: int)
    requires 0 <= p <= q <= |s| && AllDigits(s[p..q]) && FractionTail(s, q)
    requires p <= 1 && |s| > 0 && (s[0] == '+' || s[0] == '-')
    ensures p == 1
  {
    assert !IsDigit(s[0]) && s[0] != '.';
  }

  /** The recogniser accepts exactly the language of the pattern. */
  lemma NumberSyntaxIsPattern(s: string)
    ensures IsNumberSyntax(s) <==> MatchesNumberPattern(s)
  {
    if IsNumberSyntax(s) {
      RecogniserSound(s);
    }
    if MatchesNumberPattern(s) {
      var p, q :| 0 <= p <= 1 && p <= q <= |s|
        && (p == 1 ==> s[0] == '+' || s[0] == '-')
        && AllDigits(s[p..q]) && FractionTail(s, q);
      RecogniserComplete(s, p, q);
    }
  }

  lemma RecogniserSound(s: string)
    requires IsNumberSyntax(s)
    ensures MatchesNumberPattern(s)
  {
    var signed := |s| > 0 && (s[0] == '+' || s[0] == '-');
    var p := if signed then 1 else 0;
    assert s[p..] == if signed then s[1..] else s;
    UnsignedDecimalMatches(s, p);
    var q :| p <= q <= |s| && AllDigits(s[p..q]) && FractionTail(s, q);
    assert 0 <= p <= 1 && p <= q <= |s| && (p == 1 ==> s[0] == '+' || s[0] == '-');
  }

  lemma RecogniserComplete(s: string, p: int, q: int)
    requires 0 <= p <= 1 && p <= q <= |s|
    requires p == 1 ==> s[0] == '+' || s[0] == '-'
    requires AllDigits(s[p..q]) && FractionTail(s, q)
    ensures IsNumberSyntax(s)
  {
    var signed := |s| > 0 && (s[0] == '+' || s[0] == '-');
    if signed {
      SignIsOptionalPart(s, p, q);
    }
    MatchesUnsignedDecimal(s, p, q);
    assert s[p..] == if signed then s[1..] else s;
  }

  /** Utils.checkNumber: null for a null or empty value and for text outside
      the pattern; otherwise whatever the locale's number parser makes of it
      (its own failure is null as well). */
  function CheckNumber<N>(value: Option<string>, parse: string -> Option<N>): (r: Option<N>)
    ensures value.None? ==> r.None?
    ensures value.Some? && value.value == "" ==> r.None?
    ensures value.Some? && !MatchesNumberPattern(value.value) ==> r.None?
    ensures value.Some? && MatchesNumberPattern(value.value) ==> r == parse(value.value)
  {
    if value.None? || |value.value| == 0 then None
    else
      NumberSyntaxIsPattern(value.value);
      if IsNumberSyntax(value.value) then parse(value.value) else None
  }

  /** The pattern accepts a leading '.', a sign, and a sign with a fraction. */
  lemma PatternAccepts()
    ensures IsNumberSyntax(".5") && IsNumberSyntax("-12") && IsNumberSyntax("+3.25")
  {
    assert IndexOfChar(".5", '.') == 0;
    assert IndexOfChar("12", '.') == -1;
    assert IndexOfChar("3.25", '.') == 1;
  }

  /** The pattern rejects a trailing '.', a bare sign and a sign with a bare '.'. */
  lemma PatternRejectsBoundaries()
    ensures !IsNumberSyntax("5.") && !IsNumberSyntax("-") && !IsNumberSyntax("+.")
  {
    assert IndexOfChar("5.", '.') == 1;
    assert IndexOfChar("", '.') == -1;
    assert IndexOfChar(".", '.') == 0;
  }

  /** The pattern rejects a second '.' and a second sign. */
  lemma PatternRejectsRepeats()
    ensures !IsNumberSyntax("1.2.3") && !IsNumberSyntax("--1")
  {
    assert IndexOfChar("1.2.3", '.') == 1;
    assert IndexOfChar("-1", '.') == -1;
    assert !IsDigit('-') && !IsDigit('.');
    assert "1.2.3"[2..] == "2.3" && "2.3"[1] == '.';
    assert "--1"[1..] == "-1" && "-1"[0] == '-';
  }
}
