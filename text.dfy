/** Character classes and string operations shared by the extractor, the tagger
    and the normalisation step, restricted to ASCII plus the rupee sign. */
module Text {

  /** Whitespace as Python's `str.isspace()` and the regex class `\s` see it, on ASCII. */
  predicate IsSpace(c: char) {
    c == ' ' || c == '\t' || c == '\n' || c == '\r' || c == '\U{B}' || c == '\U{C}'
    || ('\U{1C}' <= c <= '\U{1F}')
  }

  /** The regex class `\d`, on ASCII. */
  predicate IsDigit(c: char) {
    '0' <= c <= '9'
  }

  predicate IsUpper(c: char) {
    'A' <= c <= 'Z'
  }

  /** `str.lower()` on one character: ASCII capitals become small letters. */
  function LowerChar(c: char): char {
    if IsUpper(c) then (c as int + 32) as char else c
  }

  /** `str.lower()`. */
  function Lower(s: string): string {
    seq(|s|, i requires 0 <= i < |s| => LowerChar(s[i]))
  }

  /** Lowering is idempotent and leaves no capital letter behind. */
  lemma LowerIdempotent(s: string)
    ensures Lower(Lower(s)) == Lower(s)
    ensures forall i :: 0 <= i < |s| ==> !IsUpper(Lower(s)[i])
  {
  }

  /** Number of whitespace characters at the front of `s`. */
  function LeadingSpaces(s: string): (n: nat)
    ensures n <= |s|
    ensures forall i :: 0 <= i < n ==> IsSpace(s[i])
    ensures n == |s| || !IsSpace(s[n])
  {
    if s == [] || !IsSpace(s[0]) then 0 else 1 + LeadingSpaces(s[1..])
  }

  /** Number of whitespace characters at the back of `s`. */
  function TrailingSpaces(s: string): (n: nat)
    ensures n <= |s|
    ensures forall i :: |s| - n <= i < |s| ==> IsSpace(s[i])
    ensures n == |s| || !IsSpace(s[|s| - 1 - n])
  {
    if s == [] || !IsSpace(s[|s| - 1]) then 0 else 1 + TrailingSpaces(s[..|s| - 1])
  }

  /** `str.strip()`: `s` without its leading and trailing whitespace. */
  function Strip(s: string): (r: string)
    ensures r == [] <==> forall i :: 0 <= i < |s| ==> IsSpace(s[i])
    ensures r != [] ==> !IsSpace(r[0]) && !IsSpace(r[|r| - 1])
    ensures exists a :: Padded(s, a, r)
  {
    var a := LeadingSpaces(s);
    if a == |s| then
      assert Padded(s, 0, []);
      []
    else
      var r := s[a..|s| - TrailingSpaces(s)];
      assert Padded(s, a, r);
      r
  }

  /** Stripping a string that neither starts nor ends with whitespace changes nothing. */
  lemma StripStripped(r: string)
    requires r != [] ==> !IsSpace(r[0]) && !IsSpace(r[|r| - 1])
    ensures Strip(r) == r
  {
    if r != [] {
      assert LeadingSpaces(r) == 0;
      assert TrailingSpaces(r) == 0;
      assert r[0..|r|] == r;
    }
  }

  /** Stripping a lower-case string leaves a lower-case string. */
  lemma LowerOfStrip(s: string)
    requires Lower(s) == s
    ensures Lower(Strip(s)) == Strip(s)
  {
    var r := Strip(s);
    var a: nat :| Padded(s, a, r);
    forall k | 0 <= k < |r| ensures LowerChar(r[k]) == r[k] {
      assert r[k] == s[a + k];
      assert Lower(s)[a + k] == LowerChar(s[a + k]);
    }
  }

  /** `s` is `r` with only whitespace before it (the first `a` characters) and after it. */
  ghost predicate Padded(s: string, a: nat, r: string) {
    && a + |r| <= |s|
    && r == s[a..a + |r|]
    && (forall i :: 0 <= i < a ==> IsSpace(s[i]))
    && (forall i :: a + |r| <= i < |s| ==> IsSpace(s[i]))
  }

  /** `w` occurs in `t` as a substring (Python's `w in t`). */
  ghost predicate Occurs(w: string, t: string) {
    exists i: nat :: OccursAt(w, t, i)
  }

  /** `w` occurs in `t` starting at position `i`. */
  predicate OccursAt(w: string, t: string, i: nat) {
    i + |w| <= |t| && t[i..i + |w|] == w
  }

  function ContainsFrom(t: string, w: string, from: nat): (b: bool)
    decreases |t| - from
    ensures b <==> exists i: nat :: from <= i && OccursAt(w, t, i)
  {
    if from + |w| > |t| then false
    else if OccursAt(w, t, from) then true
    else ContainsFrom(t, w, from + 1)
  }

  /** Substring test by scanning every start position. */
  function Contains(t: string, w: string): (b: bool)
    ensures b <==> Occurs(w, t)
  {
    ContainsFrom(t, w, 0)
  }
}
