/** The few behaviours of java.lang and java.util that the evaluator relies on:
    the unchecked exceptions it can raise, String's lower-casing, trimming,
    searching, splitting, joining and ordering, Integer.parseInt and
    Collections.max over strings. */
module JavaLang {
  import opened Wrappers

  /** The unchecked exceptions the evaluator's code can raise. */
  datatype Fault =
    | NumberFormat            // Integer.parseInt on text that is not a 32-bit decimal
    | IndexOutOfBounds        // List.get outside the list
    | NullPointer             // a method called on null
    | StringIndexOutOfBounds  // String.substring with begin > end

  // ---------------------------------------------------------------- characters

  predicate IsDigit(c: char) { '0' <= c <= '9' }

  predicate AllDigits(s: string) { forall i :: 0 <= i < |s| ==> IsDigit(s[i]) }

  /** Characters String.trim removes: every code point up to and including the space. */
  predicate IsTrimmable(c: char) { c <= ' ' }

  /** Character.toLowerCase on the ASCII letters; other characters are kept. */
  function LowerChar(c: char): (r: char)
    ensures 'A' <= c <= 'Z' ==> 'a' <= r <= 'z' && r as int - c as int == 32
    ensures !('A' <= c <= 'Z') ==> r == c
  {
    if 'A' <= c <= 'Z' then (c as int + 32) as char else c
  }

  /** String.toLowerCase, character by character. */
  function Lower(s: string): (r: string)
    ensures |r| == |s|
    ensures forall i :: 0 <= i < |s| ==> r[i] == LowerChar(s[i])
  {
    if |s| == 0 then "" else [LowerChar(s[0])] + Lower(s[1..])
  }

  // ---------------------------------------------------------------- trim

  /** Index of the first character String.trim keeps (|s| if it keeps none). */
  function TrimStart(s: string): (i: nat)
    ensures i <= |s|
    ensures forall k :: 0 <= k < i ==> IsTrimmable(s[k])
    ensures i < |s| ==> !IsTrimmable(s[i])
  {
    if |s| == 0 || !IsTrimmable(s[0]) then 0 else 1 + TrimStart(s[1..])
  }

  /** One past the last character String.trim keeps (|s| if no trailing blank). */
  function TrimEnd(s: string): (j: nat)
    ensures j <= |s|
    ensures forall k :: j <= k < |s| ==> IsTrimmable(s[k])
    ensures 0 < j ==> !IsTrimmable(s[j - 1])
  {
    if |s| == 0 || !IsTrimmable(s[|s| - 1]) then |s| else TrimEnd(s[..|s| - 1])
  }

  /** String.trim: the text without leading and trailing characters up to ' '. */
  function Trim(s: string): (r: string)
    ensures TrimStart(s) + |r| <= |s|
    ensures |r| > 0 ==> !IsTrimmable(r[0]) && !IsTrimmable(r[|r| - 1])
    ensures forall k :: 0 <= k < |r| ==> r[k] == s[TrimStart(s) + k]
    ensures forall k :: TrimStart(s) + |r| <= k < |s| ==> IsTrimmable(s[k])
  {
    var i := TrimStart(s);
    var rest := s[i..];
    rest[..TrimEnd(rest)]
  }

  // ---------------------------------------------------------------- searching

  predicate StartsWith(s: string, prefix: string) {
    |prefix| <= |s| && s[..|prefix|] == prefix
  }

  predicate OccursAt(s: string, sub: string, i: int) {
    0 <= i && i + |sub| <= |s| && s[i..i + |sub|] == sub
  }

  /** String.indexOf(sub, from): the first occurrence at or after from, or -1. */
  function IndexOfFrom(s: string, sub: string, from: nat): (r: int)
    requires from <= |s|
    ensures r == -1 || (from <= r && OccursAt(s, sub, r))
    ensures forall i :: from <= i && (r == -1 || i < r) ==> !OccursAt(s, sub, i)
    decreases |s| - from
  {
    if from + |sub| > |s| then -1
    else if s[from..from + |sub|] == sub then from
    else if from == |s| then -1
    else IndexOfFrom(s, sub, from + 1)
  }

  /** String.indexOf(sub). */
  function IndexOf(s: string, sub: string): (r: int)
    ensures r == -1 || OccursAt(s, sub, r)
    ensures forall i :: 0 <= i && (r == -1 || i < r) ==> !OccursAt(s, sub, i)
  {
    IndexOfFrom(s, sub, 0)
  }

  /** String.indexOf(c): the first position holding c, or -1. */
  function IndexOfChar(s: string, c: char): (r: int)
    ensures -1 <= r < |s|
    ensures r >= 0 ==> s[r] == c && forall k :: 0 <= k < r ==> s[k] != c
    ensures r == -1 <==> c !in s
  {
    if |s| == 0 then -1
    else if s[0] == c then 0
    else var k := IndexOfChar(s[1..], c); if k < 0 then -1 else k + 1
  }

  /** String.lastIndexOf(c): the last position holding c, or -1. */
  function LastIndexOfChar(s: string, c: char): (r: int)
    ensures -1 <= r < |s|
    ensures r >= 0 ==> s[r] == c && forall k :: r < k < |s| ==> s[k] != c
    ensures r == -1 <==> c !in s
  {
    if |s| == 0 then -1
    else if s[|s| - 1] == c then |s| - 1
    else LastIndexOfChar(s[..|s| - 1], c)
  }

  // ---------------------------------------------------------------- split and join

  /** String.join(sep, parts). */
  function JoinWith(parts: seq<string>, sep: string): string
  {
    if |parts| == 0 then ""
    else if |parts| == 1 then parts[0]
    else parts[0] + sep + JoinWith(parts[1..], sep)
  }

  /** Every piece between the left-to-right, non-overlapping occurrences of sep. */
  function SplitAll(s: string, sep: string): (parts: seq<string>)
    requires |sep| > 0
    ensures |parts| >= 1
    ensures IndexOf(s, sep) == -1 ==> parts == [s]
    decreases |s|
  {
    var i := IndexOf(s, sep);
    if i < 0 then [s] else [s[..i]] + SplitAll(s[i + |sep|..], sep)
  }

  /** The pieces put back together give the text that was split. */
  lemma {:induction false} JoinSplitAll(s: string, sep: string)
    requires |sep| > 0
    ensures JoinWith(SplitAll(s, sep), sep) == s
    decreases |s|
  {
    var i := IndexOf(s, sep);
    if i >= 0 {
      var rest := s[i + |sep|..];
      var tail := SplitAll(rest, sep);
      JoinSplitAll(rest, sep);
      var parts := [s[..i]] + tail;
      assert SplitAll(s, sep) == parts;
      assert parts[0] == s[..i] && parts[1..] == tail && |parts| > 1;
      assert JoinWith(parts, sep) == s[..i] + sep + JoinWith(tail, sep);
      CutAround(s, i, sep);
    }
  }

  /** Text with sep at position i is what lies before, sep, and what lies after. */
  lemma CutAround(s: string, i: nat, sep: string)
    requires OccursAt(s, sep, i)
    ensures s == s[..i] + sep + s[i + |sep|..]
  {
    assert s == s[..i] + s[i..i + |sep|] + s[i + |sep|..];
  }

  /** An occurrence inside a prefix is an occurrence in the whole text. */
  lemma OccursInPrefix(s: string, n: nat, sub: string, j: int)
    requires n <= |s| && OccursAt(s[..n], sub, j)
    ensures OccursAt(s, sub, j)
  {
    assert s[j..j + |sub|] == s[..n][j..j + |sub|];
  }

  /** The text before the first separator does not contain it. */
  lemma HeadAvoidsSeparator(s: string, sep: string)
    requires |sep| > 0 && IndexOf(s, sep) >= 0
    ensures IndexOf(s[..IndexOf(s, sep)], sep) == -1
  {
    var i := IndexOf(s, sep);
    var j := IndexOf(s[..i], sep);
    if j != -1 {
      OccursInPrefix(s, i, sep, j);
      assert false;
    }
  }

  /** No piece contains the separator. */
  lemma {:induction false} SplitAllPiecesAvoidSeparator(s: string, sep: string)
    requires |sep| > 0
    ensures forall k :: 0 <= k < |SplitAll(s, sep)| ==> IndexOf(SplitAll(s, sep)[k], sep) == -1
    decreases |s|
  {
    var i := IndexOf(s, sep);
    if i >= 0 {
      var rest := s[i + |sep|..];
      SplitAllPiecesAvoidSeparator(rest, sep);
      var head := s[..i];
      HeadAvoidsSeparator(s, sep);
      var parts := [head] + SplitAll(rest, sep);
      assert SplitAll(s, sep) == parts;
      forall k | 0 <= k < |parts| ensures IndexOf(parts[k], sep) == -1 {
        if k > 0 {
          assert parts[k] == SplitAll(rest, sep)[k - 1];
        }
      }
    }
  }

  /** Removes the empty strings at the end of a list of pieces. */
  function DropTrailingEmpty(parts: seq<string>): (r: seq<string>)
    ensures |r| <= |parts| && r == parts[..|r|]
    ensures forall k :: |r| <= k < |parts| ==> parts[k] == ""
    ensures |r| > 0 ==> r[|r| - 1] != ""
  {
    if |parts| > 0 && parts[|parts| - 1] == "" then DropTrailingEmpty(parts[..|parts| - 1]) else parts
  }

  /** String.split on a literal separator: with no occurrence the whole text is
      the one piece (even when empty); otherwise the trailing empty pieces are dropped. */
  function Split(s: string, sep: string): (r: seq<string>)
    requires |sep| > 0
    ensures IndexOf(s, sep) == -1 ==> r == [s]
    ensures IndexOf(s, sep) != -1 ==> r == DropTrailingEmpty(SplitAll(s, sep))
  {
    var raw := SplitAll(s, sep);
    if |raw| == 1 then raw else DropTrailingEmpty(raw)
  }

  /** No piece of String.split contains the separator. */
  lemma SplitPiecesAvoidSeparator(s: string, sep: string)
    requires |sep| > 0
    ensures forall k :: 0 <= k < |Split(s, sep)| ==> IndexOf(Split(s, sep)[k], sep) == -1
  {
    SplitAllPiecesAvoidSeparator(s, sep);
  }

  /** String.replaceAll of one literal character by nothing. */
  function RemoveChar(s: string, c: char): (r: string)
    ensures c !in r
    ensures |r| <= |s|
    ensures forall x :: x != c ==> (x in r <==> x in s)
    ensures multiset(r) == multiset(s)[c := 0]
  {
    if |s| == 0 then ""
    else
      assert s == [s[0]] + s[1..];
      (if s[0] == c then "" else [s[0]]) + RemoveChar(s[1..], c)
  }

  /** Removing a character works piece by piece, so the characters kept stay in their order. */
  lemma {:induction false} RemoveCharAppend(a: string, b: string, c: char)
    ensures RemoveChar(a + b, c) == RemoveChar(a, c) + RemoveChar(b, c)
  {
    if |a| > 0 {
      assert (a + b)[0] == a[0] && (a + b)[1..] == a[1..] + b;
      RemoveCharAppend(a[1..], b, c);
    } else {
      assert a + b == b;
    }
  }

  // ---------------------------------------------------------------- Integer.parseInt

  const IntMin: int := -0x8000_0000
  const IntMax: int := 0x7fff_ffff

  /** The value of a string of ASCII digits. */
  function DigitsValue(s: string): nat
    requires AllDigits(s)
  {
    if |s| == 0 then 0 else 10 * DigitsValue(s[..|s| - 1]) + (s[|s| - 1] as int - '0' as int)
  }

  /** The text after an optional leading '+' or '-'. */
  function Magnitude(s: string): (m: string)
    ensures |m| <= |s|
  {
    if |s| > 0 && (s[0] == '+' || s[0] == '-') then s[1..] else s
  }

  /** An optional sign followed by one or more ASCII digits. */
  predicate IsIntSyntax(s: string)
  {
    |Magnitude(s)| > 0 && AllDigits(Magnitude(s))
  }

  /** The integer such a text denotes: its digits' value, negated after a '-'. */
  function SignedValue(s: string): int
    requires IsIntSyntax(s)
  {
    if s[0] == '-' then -(DigitsValue(Magnitude(s)) as int) else DigitsValue(Magnitude(s))
  }

  /** Integer.parseInt: an optional sign, one or more ASCII digits, and a value
      that fits in 32 bits; anything else raises NumberFormatException. */
  function ParseInt(s: string): (r: Result<int, Fault>)
    ensures r.Err? ==> r.error == NumberFormat
    ensures r.Ok? <==> IsIntSyntax(s) && IntMin <= SignedValue(s) <= IntMax
    ensures r.Ok? ==> r.value == SignedValue(s)
    ensures r.Ok? && r.value < 0 ==> s[0] == '-'
  {
    var digits := Magnitude(s);
    if |digits| == 0 || !AllDigits(digits) then Err(NumberFormat)
    else
      var v: int := if s[0] == '-' then -(DigitsValue(digits) as int) else DigitsValue(digits);
      if IntMin <= v <= IntMax then Ok(v) else Err(NumberFormat)
  }

  /** Decimal text of a natural number, as Integer.toString writes it. */
  function NatText(n: nat): (s: string)
    ensures |s| > 0 && AllDigits(s)
  {
    if n < 10 then ["0123456789"[n]] else NatText(n / 10) + ["0123456789"[n % 10]]
  }

  lemma {:induction false} DigitsValueOfNatText(n: nat)
    ensures DigitsValue(NatText(n)) == n
  {
    if n >= 10 {
      DigitsValueOfNatText(n / 10);
      var s := NatText(n);
      assert s[..|s| - 1] == NatText(n / 10);
    }
  }

  /** Integer.parseInt reads back every int it could have printed. */
  lemma ParseIntOfNatText(n: nat)
    requires n <= IntMax
    ensures ParseInt(NatText(n)) == Ok(n)
  {
    DigitsValueOfNatText(n);
  }

  /** A leading '-' negates, a leading '+' changes nothing, down to Integer.MIN_VALUE. */
  lemma ParseIntOfSignedNatText(n: nat)
    requires 0 < n <= -IntMin
    ensures ParseInt("-" + NatText(n)) == Ok(-(n as int))
    ensures n <= IntMax ==> ParseInt("+" + NatText(n)) == Ok(n)
  {
    DigitsValueOfNatText(n);
    assert Magnitude("-" + NatText(n)) == NatText(n);
    assert Magnitude("+" + NatText(n)) == NatText(n);
  }

  /** A leading zero does not change the digits' value. */
  lemma {:induction false} DigitsValueLeadingZero(d: string)
    requires AllDigits(d)
    ensures AllDigits("0" + d) && DigitsValue("0" + d) == DigitsValue(d)
  {
    if |d| > 0 {
      var init := d[..|d| - 1];
      DigitsValueLeadingZero(init);
      assert ("0" + d)[..|"0" + d| - 1] == "0" + init;
    }
  }

  /** So Integer.parseInt ignores leading zeros, after the sign or without one. */
  lemma ParseIntLeadingZero(sign: string, d: string)
    requires sign == "" || sign == "-" || sign == "+"
    requires |d| > 0 && AllDigits(d)
    ensures ParseInt(sign + "0" + d) == ParseInt(sign + d)
  {
    DigitsValueLeadingZero(d);
    assert Magnitude(sign + "0" + d) == "0" + d;
    assert Magnitude(sign + d) == d;
  }

  // ---------------------------------------------------------------- String.compareTo

  /** a.compareTo(b) < 0: the first differing character decides, else the shorter is smaller. */
  predicate LexLess(a: string, b: string)
  {
    if |a| == 0 then |b| > 0
    else if |b| == 0 then false
    else if a[0] != b[0] then a[0] < b[0]
    else LexLess(a[1..], b[1..])
  }

  lemma {:induction false} LexLessTransitive(a: string, b: string, c: string)
    requires LexLess(a, b) && LexLess(b, c)
    ensures LexLess(a, c)
    decreases |a|
  {
    if |a| > 0 && a[0] == b[0] && b[0] == c[0] {
      LexLessTransitive(a[1..], b[1..], c[1..]);
    }
  }

  lemma {:induction false} LexLessTotal(a: string, b: string)
    ensures a == b || LexLess(a, b) || LexLess(b, a)
    ensures !(LexLess(a, b) && LexLess(b, a))
    decreases |a|
  {
    if |a| > 0 && |b| > 0 && a[0] == b[0] {
      LexLessTotal(a[1..], b[1..]);
      if a[1..] == b[1..] {
        assert a == [a[0]] + a[1..] && b == [b[0]] + b[1..];
      }
    }
  }

  /** Collections.max over strings: the candidate is replaced only by a strictly greater one. */
  function MaxString(xs: seq<string>): (m: string)
    requires |xs| > 0
    ensures m in xs
    ensures forall x :: x in xs ==> !LexLess(m, x)
  {
    if |xs| == 1 then LexLessTotal(xs[0], xs[0]); xs[0]
    else
      var prior := MaxString(xs[..|xs| - 1]);
      var last := xs[|xs| - 1];
      assert xs == xs[..|xs| - 1] + [last];
      if LexLess(prior, last) then
        assert forall x :: x in xs[..|xs| - 1] && LexLess(last, x) ==> LexLess(prior, x) by {
          forall x | x in xs[..|xs| - 1] && LexLess(last, x) ensures LexLess(prior, x) {
            LexLessTransitive(prior, last, x);
          }
        }
        LexLessTotal(last, last);
        last
      else
        prior
  }
}
