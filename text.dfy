/** String primitives the benchmark driver relies on: substring tests,
    whitespace stripping, decimal digit runs, ASCII lower-casing, textual
    removal of a suffix marker, and Python's code-point string order. */
module Text {

  /** Whitespace as Python's `str.isspace` (and the `\s` class of a `str`
      regular expression) sees it. */
  predicate IsSpace(c: char) {
    c == ' ' || ('\t' <= c <= '\r') || ('\U{1C}' <= c <= '\U{1F}')
    || c == '\U{85}' || c == '\U{A0}' || c == '\U{1680}'
    || ('\U{2000}' <= c <= '\U{200A}') || c == '\U{2028}' || c == '\U{2029}'
    || c == '\U{202F}' || c == '\U{205F}' || c == '\U{3000}'
  }

  predicate IsDigit(c: char) {
    '0' <= c <= '9'
  }

  predicate AllDigits(s: string) {
    forall i :: 0 <= i < |s| ==> IsDigit(s[i])
  }

  predicate StartsWith(s: string, prefix: string) {
    |prefix| <= |s| && s[..|prefix|] == prefix
  }

  predicate EndsWith(s: string, suffix: string) {
    |suffix| <= |s| && s[|s| - |suffix|..] == suffix
  }

  /** `sub` occurs in `s` starting at index `i`. */
  predicate OccursAt(s: string, sub: string, i: int) {
    0 <= i && i + |sub| <= |s| && s[i..i + |sub|] == sub
  }

  /** `sub in s` */
  predicate Contains(s: string, sub: string) {
    exists i | 0 <= i <= |s| - |sub| :: OccursAt(s, sub, i)
  }

  /** Python's `s[:n]` for a non-negative `n`. */
  function Take(s: string, n: nat): (r: string)
    ensures |r| == if n < |s| then n else |s|
    ensures r == s[..|r|]
  {
    if n < |s| then s[..n] else s
  }

  // ---------------------------------------------------------------------
  // Stripping

  predicate AllSpace(s: string) {
    forall i :: 0 <= i < |s| ==> IsSpace(s[i])
  }

  function StripLeft(s: string): (r: string)
    ensures |r| <= |s| && r == s[|s| - |r|..]
    ensures r == [] || !IsSpace(r[0])
    ensures forall i :: 0 <= i < |s| - |r| ==> IsSpace(s[i])
  {
    if s != [] && IsSpace(s[0]) then StripLeft(s[1..]) else s
  }

  function StripRight(s: string): (r: string)
    ensures |r| <= |s| && r == s[..|r|]
    ensures r == [] || !IsSpace(r[|r| - 1])
    ensures forall i :: |r| <= i < |s| ==> IsSpace(s[i])
  {
    if s != [] && IsSpace(s[|s| - 1]) then StripRight(s[..|s| - 1]) else s
  }

  /** Python's `s.strip()`. */
  function Strip(s: string): (r: string)
    ensures r == [] || (!IsSpace(r[0]) && !IsSpace(r[|r| - 1]))
    ensures exists a, b :: s == a + r + b && AllSpace(a) && AllSpace(b)
  {
    StripSplit(s);
    StripRight(StripLeft(s))
  }

  /** What `strip` removes on each side is whitespace. */
  lemma StripSplit(s: string)
    ensures exists a, b :: s == a + StripRight(StripLeft(s)) + b && AllSpace(a) && AllSpace(b)
  {
    var l := StripLeft(s);
    var r := StripRight(l);
    var a := LeftSpace(s);
    var b := RightSpace(l);
    Regroup(a, r, b);
    assert s == a + r + b && AllSpace(a) && AllSpace(b);
  }

  lemma Regroup(a: string, r: string, b: string)
    ensures a + (r + b) == a + r + b
  {
  }

  lemma LeftSpace(s: string) returns (a: string)
    ensures s == a + StripLeft(s) && AllSpace(a)
  {
    a := s[..|s| - |StripLeft(s)|];
  }

  lemma RightSpace(s: string) returns (b: string)
    ensures s == StripRight(s) + b && AllSpace(b)
  {
    var r := StripRight(s);
    b := s[|r|..];
    assert forall k :: 0 <= k < |b| ==> b[k] == s[|r| + k];
  }

  // ---------------------------------------------------------------------
  // Decimal numbers

  /** Length of the run of decimal digits that starts at `i`. */
  function DigitRunLength(s: string, i: nat): (n: nat)
    requires i <= |s|
    ensures i + n <= |s|
    ensures AllDigits(s[i..i + n])
    ensures i + n == |s| || !IsDigit(s[i + n])
    decreases |s| - i
  {
    if i < |s| && IsDigit(s[i]) then
      var m := DigitRunLength(s, i + 1);
      assert s[i..i + 1 + m] == [s[i]] + s[i + 1..i + 1 + m];
      1 + m
    else 0
  }

  /** Python's `int(s)` for a string of decimal digits. */
  function DigitsValue(s: string): nat
    requires AllDigits(s)
  {
    if s == [] then 0 else 10 * DigitsValue(s[..|s| - 1]) + (s[|s| - 1] as int - '0' as int)
  }

  function DigitChar(d: nat): (c: char)
    requires d < 10
    ensures IsDigit(c) && c as int - '0' as int == d
  {
    ['0', '1', '2', '3', '4', '5', '6', '7', '8', '9'][d]
  }

  /** Python's `str(n)` for a non-negative integer. */
  function NatText(n: nat): (s: string)
    ensures s != [] && AllDigits(s)
  {
    if n < 10 then [DigitChar(n)] else NatText(n / 10) + [DigitChar(n % 10)]
  }

  /** Reading back what `str` wrote gives the number again. */
  lemma {:induction false} NatTextRoundTrip(n: nat)
    ensures DigitsValue(NatText(n)) == n
  {
    var s := NatText(n);
    if n >= 10 {
      NatTextRoundTrip(n / 10);
      assert s[..|s| - 1] == NatText(n / 10);
    }
  }

  /** The value of the digit run starting at `i`. */
  function DigitsAt(s: string, i: nat): nat
    requires i <= |s|
  {
    DigitsValue(s[i..i + DigitRunLength(s, i)])
  }

  /** A digit string followed by a non-digit is read back whole from where
      it starts. */
  lemma ReadDigitsAt(s: string, i: nat, digits: string)
    requires AllDigits(digits)
    requires i + |digits| <= |s| && s[i..i + |digits|] == digits
    requires i + |digits| == |s| || !IsDigit(s[i + |digits|])
    ensures DigitRunLength(s, i) == |digits|
    ensures DigitsAt(s, i) == DigitsValue(digits)
  {
    assert forall k :: i <= k < i + |digits| ==> s[k] == digits[k - i];
    DigitRunExact(s, i, |digits|);
  }

  /** The number written by `str`, followed by a non-digit, is read back
      whole from where it starts. */
  lemma ReadNumberAt(s: string, i: nat, n: nat)
    requires i + |NatText(n)| <= |s| && s[i..i + |NatText(n)|] == NatText(n)
    requires i + |NatText(n)| == |s| || !IsDigit(s[i + |NatText(n)|])
    ensures DigitRunLength(s, i) == |NatText(n)|
    ensures DigitsAt(s, i) == n
  {
    ReadDigitsAt(s, i, NatText(n));
    NatTextRoundTrip(n);
  }

  /** A run of `m` digits followed by a non-digit has length `m`. */
  lemma {:induction false} DigitRunExact(s: string, i: nat, m: nat)
    requires i + m <= |s|
    requires forall k :: i <= k < i + m ==> IsDigit(s[k])
    requires i + m == |s| || !IsDigit(s[i + m])
    ensures DigitRunLength(s, i) == m
    decreases m
  {
    if m > 0 {
      DigitRunExact(s, i + 1, m - 1);
    }
  }

  // ---------------------------------------------------------------------
  // Removing a marker, `s.replace(pat, "")`

  /** Python's `s.replace(pat, "")`: every non-overlapping occurrence of
      `pat`, found left to right, is deleted. */
  function RemoveAll(s: string, pat: string): (r: string)
    requires pat != []
    ensures |r| <= |s|
    decreases |s|
  {
    if |s| < |pat| then s
    else if s[..|pat|] == pat then RemoveAll(s[|pat|..], pat)
    else [s[0]] + RemoveAll(s[1..], pat)
  }

  /** A string in which the marker does not occur is left alone. */
  lemma {:induction false} RemoveAllAbsent(s: string, pat: string)
    requires pat != [] && !Contains(s, pat)
    ensures RemoveAll(s, pat) == s
    decreases |s|
  {
    if |s| >= |pat| {
      assert s[0..|pat|] == s[..|pat|];
      assert !OccursAt(s, pat, 0);
      if Contains(s[1..], pat) {
        var i :| 0 <= i <= |s[1..]| - |pat| && OccursAt(s[1..], pat, i);
        assert s[1..][i..i + |pat|] == pat;
        assert s[i + 1..i + 1 + |pat|] == s[1..][i..i + |pat|];
        assert OccursAt(s, pat, i + 1);
      }
      RemoveAllAbsent(s[1..], pat);
      assert [s[0]] + s[1..] == s;
    }
  }

  /** `"pb1.pddl".replace(".pddl", "")` is `"pb1"`: a stem without a dot
      followed by the marker loses exactly the marker. */
  lemma {:induction false} RemoveTrailingMarker(stem: string, pat: string)
    requires pat != [] && pat[0] == '.' && '.' !in stem
    ensures RemoveAll(stem + pat, pat) == stem
    decreases |stem|
  {
    var s := stem + pat;
    if stem == [] {
      assert s[..|pat|] == pat;
      assert s[|pat|..] == [];
    } else {
      assert s[0] == stem[0] && stem[0] != '.';
      assert s[..|pat|] != pat by { assert s[..|pat|][0] == stem[0]; }
      assert s[1..] == stem[1..] + pat;
      RemoveTrailingMarker(stem[1..], pat);
      assert [stem[0]] + stem[1..] == stem;
    }
  }

  // ---------------------------------------------------------------------
  // Case folding and ordering

  /** Python's `str.lower()` restricted to ASCII letters. */
  function LowerChar(c: char): char {
    if 'A' <= c <= 'Z' then (c as int + 32) as char else c
  }

  function Lower(s: string): (r: string)
    ensures |r| == |s|
    ensures forall i :: 0 <= i < |s| ==> r[i] == LowerChar(s[i])
  {
    seq(|s|, i requires 0 <= i < |s| => LowerChar(s[i]))
  }

  /** Lower-casing twice is lower-casing once. */
  lemma LowerIdempotent(s: string)
    ensures Lower(Lower(s)) == Lower(s)
  {
    forall i | 0 <= i < |s|
      ensures Lower(Lower(s))[i] == Lower(s)[i]
    {
      var c := s[i];
      assert Lower(s)[i] == LowerChar(c);
      assert 'A' <= c <= 'Z' ==> !('A' <= LowerChar(c) <= 'Z');
    }
  }

  /** Python's `a <= b` on strings: code point by code point, a proper
      prefix first. */
  predicate LexLe(a: string, b: string) {
    a == [] || (b != [] && (a[0] < b[0] || (a[0] == b[0] && LexLe(a[1..], b[1..]))))
  }

  lemma {:induction false} LexLeTotal(a: string, b: string)
    ensures LexLe(a, b) || LexLe(b, a)
  {
    if a != [] && b != [] && a[0] == b[0] {
      LexLeTotal(a[1..], b[1..]);
    }
  }

  lemma {:induction false} LexLeTransitive(a: string, b: string, c: string)
    requires LexLe(a, b) && LexLe(b, c)
    ensures LexLe(a, c)
  {
    if a != [] && b != [] && c != [] && a[0] == b[0] && b[0] == c[0] {
      LexLeTransitive(a[1..], b[1..], c[1..]);
    }
  }
}
