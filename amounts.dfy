/** The amount extractor: the first `inr`, `aed` or `₹` marker followed by a number,
    as the regular expression `(?i)(?:inr|aed|₹)\s?([\d,]+\.?\d*)` finds it with
    `re.search`, and the captured number read by `float` after its commas are removed. */
module Amounts {
  import opened Results
  import opened Text

  /** The rupee sign U+20B9. */
  const Rupee: char := '\U{20B9}'

  /** The regex class `[\d,]`. */
  predicate IsNumChar(c: char) {
    IsDigit(c) || c == ','
  }

  /** The three-letter lower-case word `w` occurs at position `i` of `t`, ignoring case
      (the `(?i)` flag). */
  predicate WordAt(t: string, i: nat, w: string)
    requires |w| == 3
  {
    i + 3 <= |t| && LowerChar(t[i]) == w[0] && LowerChar(t[i + 1]) == w[1] && LowerChar(t[i + 2]) == w[2]
  }

  /** The position just after a currency marker starting at `i`, if one does. */
  function MarkerEnd(t: string, i: nat): Option<nat> {
    if i < |t| && t[i] == Rupee then Some(i + 1)
    else if WordAt(t, i, "inr") || WordAt(t, i, "aed") then Some(i + 3)
    else None
  }

  /** Where the captured number starts when the pattern is tried at `i`: after the
      marker comes at most one whitespace character (`\s?`) and then a digit or a
      comma. Giving the optional whitespace back cannot help, since a whitespace
      character is never a digit or a comma. */
  function NumberStart(t: string, i: nat): Option<nat> {
    match MarkerEnd(t, i)
    case None => None
    case Some(k) =>
      if k < |t| && IsSpace(t[k]) then
        if k + 1 < |t| && IsNumChar(t[k + 1]) then Some(k + 1) else None
      else if k < |t| && IsNumChar(t[k]) then Some(k)
      else None
  }

  /** The pattern matches when tried at position `i`. */
  predicate MatchesAt(t: string, i: nat) {
    NumberStart(t, i).Some?
  }

  /** `p` is the start of the leftmost match, the one `re.search` reports. */
  ghost predicate Leftmost(t: string, p: nat) {
    MatchesAt(t, p) && forall j :: 0 <= j < p ==> !MatchesAt(t, j)
  }

  /** The search: try every start position from `from` on, in order. */
  function FirstMatch(t: string, from: nat): (r: Option<nat>)
    decreases |t| - from
    ensures r.Some? ==> from <= r.value < |t| && MatchesAt(t, r.value)
                        && forall j :: from <= j < r.value ==> !MatchesAt(t, j)
    ensures r.None? ==> forall j :: from <= j ==> !MatchesAt(t, j)
  {
    if from >= |t| then None
    else if MatchesAt(t, from) then Some(from)
    else FirstMatch(t, from + 1)
  }

  /** End of the greedy run `[\d,]+` or `[\d,]*` that starts at `k`. */
  function NumRunEnd(t: string, k: nat): (m: nat)
    requires k <= |t|
    decreases |t| - k
    ensures k <= m <= |t|
    ensures forall j :: k <= j < m ==> IsNumChar(t[j])
    ensures m == |t| || !IsNumChar(t[m])
  {
    if k == |t| || !IsNumChar(t[k]) then k else NumRunEnd(t, k + 1)
  }

  /** The greedy run of digits and commas is determined by where it stops. */
  lemma NumRunEndIs(t: string, k: nat, m: nat)
    requires k <= m <= |t|
    requires forall j :: k <= j < m ==> IsNumChar(t[j])
    requires m == |t| || !IsNumChar(t[m])
    ensures NumRunEnd(t, k) == m
  {
  }

  /** End of the greedy run `\d*` that starts at `k`. */
  function DigitRunEnd(t: string, k: nat): (m: nat)
    requires k <= |t|
    decreases |t| - k
    ensures k <= m <= |t|
    ensures forall j :: k <= j < m ==> IsDigit(t[j])
    ensures m == |t| || !IsDigit(t[m])
  {
    if k == |t| || !IsDigit(t[k]) then k else DigitRunEnd(t, k + 1)
  }

  /** The greedy run of digits is determined by where it stops. */
  lemma DigitRunEndIs(t: string, k: nat, m: nat)
    requires k <= m <= |t|
    requires forall j :: k <= j < m ==> IsDigit(t[j])
    requires m == |t| || !IsDigit(t[m])
    ensures DigitRunEnd(t, k) == m
  {
  }

  /** Capture group 1, split at its optional point: `whole` is the `[\d,]+` part and
      `fraction` the `\d*` part after the point. */
  datatype Literal = Literal(whole: string, point: bool, fraction: string)

  /** The captured text itself. */
  function LiteralText(lit: Literal): string {
    lit.whole + if lit.point then "." + lit.fraction else ""
  }

  ghost predicate WellFormed(lit: Literal) {
    && lit.whole != []
    && (forall i :: 0 <= i < |lit.whole| ==> IsNumChar(lit.whole[i]))
    && (forall i :: 0 <= i < |lit.fraction| ==> IsDigit(lit.fraction[i]))
    && (!lit.point ==> lit.fraction == [])
  }

  /** The greedy capture `[\d,]+\.?\d*` starting at `s`. */
  function Capture(t: string, s: nat): (lit: Literal)
    requires s < |t| && IsNumChar(t[s])
    ensures WellFormed(lit)
  {
    var m := NumRunEnd(t, s);
    if m < |t| && t[m] == '.' then
      Literal(t[s..m], true, t[m + 1..DigitRunEnd(t, m + 1)])
    else
      Literal(t[s..m], false, [])
  }

  /** The capture's text lies in `t` at `s`, its run of digits and commas cannot be
      extended, a point follows that run exactly when the capture takes one, and the
      digits after the point cannot be extended. */
  lemma CaptureSpec(t: string, s: nat)
    requires s < |t| && IsNumChar(t[s])
    ensures var lit := Capture(t, s);
            && s + |LiteralText(lit)| <= |t| && t[s..s + |LiteralText(lit)|] == LiteralText(lit)
            && var e := s + |lit.whole|;
            && (e == |t| || !IsNumChar(t[e]))
            && (lit.point <==> e < |t| && t[e] == '.')
            && (lit.point ==> var f := e + 1 + |lit.fraction|; f == |t| || !IsDigit(t[f]))
  {
    var m := NumRunEnd(t, s);
    if m < |t| && t[m] == '.' {
      var f := DigitRunEnd(t, m + 1);
      assert LiteralText(Capture(t, s)) == t[s..f];
    }
  }

  /** `s.replace(",", "")`. */
  function RemoveCommas(s: string): string {
    if s == [] then []
    else if s[0] == ',' then RemoveCommas(s[1..])
    else [s[0]] + RemoveCommas(s[1..])
  }

  /** Removing the commas keeps every other character, so it leaves nothing exactly
      when there were only commas, and only digits when there were digits and commas. */
  lemma {:induction false} RemoveCommasSpec(s: string)
    ensures forall c :: c in RemoveCommas(s) <==> c in s && c != ','
    ensures RemoveCommas(s) == [] <==> forall i :: 0 <= i < |s| ==> s[i] == ','
    ensures (forall i :: 0 <= i < |s| ==> IsNumChar(s[i])) ==> forall i :: 0 <= i < |RemoveCommas(s)| ==> IsDigit(RemoveCommas(s)[i])
  {
    if s != [] {
      RemoveCommasSpec(s[1..]);
      assert forall i :: 1 <= i < |s| ==> s[i] == s[1..][i - 1];
    }
  }

  /** Removing the commas distributes over concatenation: the remaining characters
      keep their order and their repeats. */
  lemma {:induction false} RemoveCommasAppend(a: string, b: string)
    ensures RemoveCommas(a + b) == RemoveCommas(a) + RemoveCommas(b)
  {
    if a == [] {
      assert a + b == b;
    } else {
      assert (a + b)[1..] == a[1..] + b;
      RemoveCommasAppend(a[1..], b);
    }
  }

  /** The value of a decimal digit (the scanner hands over no other character). */
  function DigitValue(c: char): nat {
    if IsDigit(c) then c as int - '0' as int else 0
  }

  /** The value of a string of decimal digits (0 for the empty string). */
  function DigitsValue(ds: string): nat {
    if ds == [] then 0 else DigitsValue(ds[..|ds| - 1]) * 10 + DigitValue(ds[|ds| - 1])
  }

  function Pow10(n: nat): (p: nat)
    ensures p >= 1
  {
    if n == 0 then 1 else 10 * Pow10(n - 1)
  }

  /** `float(text.replace(",", ""))` on a captured literal. `float` needs at least one
      digit, before or after the point, and raises ValueError otherwise. */
  function Convert(lit: Literal): (r: Result<real, Error>)
    requires WellFormed(lit)
    ensures r.Err? <==> (forall i :: 0 <= i < |lit.whole| ==> lit.whole[i] == ',') && lit.fraction == []
    ensures r.Ok? ==> r.value >= 0.0
  {
    var digits := RemoveCommas(lit.whole);
    RemoveCommasSpec(lit.whole);
    if digits == [] && lit.fraction == [] then
      Err(NotANumber(RemoveCommas(LiteralText(lit))))
    else
      Ok(DigitsValue(digits) as real + DigitsValue(lit.fraction) as real / Pow10(|lit.fraction|) as real)
  }

  /** A literal with at least one digit converts to its decimal value. */
  lemma ConvertValue(lit: Literal)
    requires WellFormed(lit) && (RemoveCommas(lit.whole) != [] || lit.fraction != [])
    ensures Convert(lit) == Ok(DigitsValue(RemoveCommas(lit.whole)) as real
                               + DigitsValue(lit.fraction) as real / Pow10(|lit.fraction|) as real)
  {
  }

  /** What `extract_amount` returns when the leftmost match starts at `p`. */
  function AmountAt(t: string, p: nat): Result<Option<real>, Error>
    requires MatchesAt(t, p)
  {
    match Convert(Capture(t, NumberStart(t, p).value))
    case Ok(v) => Ok(Some(v))
    case Err(e) => Err(e)
  }

  /** `extract_amount`: None exactly when the pattern matches nowhere; otherwise the
      conversion of the leftmost match's capture, which is a non-negative number or
      a ValueError. */
  function Extract(t: string): (r: Result<Option<real>, Error>)
    ensures r == Ok(None) <==> forall j :: 0 <= j < |t| ==> !MatchesAt(t, j)
    ensures forall p :: Leftmost(t, p) ==> r == AmountAt(t, p)
    ensures r.Ok? && r.value.Some? ==> r.value.value >= 0.0
  {
    match FirstMatch(t, 0)
    case None => Ok(None)
    case Some(p) =>
      assert Leftmost(t, p);
      LeftmostUnique(t, p);
      AmountAt(t, p)
  }

  /** Reading off the result from the leftmost match and its capture. */
  lemma ExtractFrom(t: string, p: nat, s: nat, lit: Literal)
    requires Leftmost(t, p) && NumberStart(t, p) == Some(s)
    requires s < |t| && IsNumChar(t[s]) && Capture(t, s) == lit
    ensures Extract(t) == match Convert(lit) case Ok(v) => Ok(Some(v)) case Err(e) => Err(e)
  {
  }

  lemma LeftmostUnique(t: string, p: nat)
    requires Leftmost(t, p)
    ensures forall q :: Leftmost(t, q) ==> q == p
  {
  }

  /** The three currency markers, in lower case. */
  predicate IsMarker(m: string) {
    m == "inr" || m == "aed" || m == [Rupee]
  }

  /** No currency marker starts anywhere in `s`. */
  ghost predicate MarkerFree(s: string) {
    forall j :: 0 <= j < |s| ==> MarkerEnd(s, j).None?
  }

  /** A capture is followed by `suffix` without being extended by it. */
  ghost predicate EndsCapture(lit: Literal, suffix: string) {
    suffix == [] ||
    if lit.point then !IsDigit(suffix[0]) else !IsNumChar(suffix[0]) && suffix[0] != '.'
  }

  /** A marker never begins inside a marker-free text and ends inside a following marker:
      `i`, `a` and `₹` never stand second or third in `inr` or `aed`. */
  lemma NoMarkerAcross(prefix: string, rest: string, j: nat)
    requires MarkerFree(prefix) && j < |prefix|
    requires rest != [] && (rest[0] == 'i' || rest[0] == 'a' || rest[0] == Rupee)
    ensures MarkerEnd(prefix + rest, j).None?
  {
    var t := prefix + rest;
    assert MarkerEnd(prefix, j).None?;
    assert t[j] == prefix[j];
    forall w | w == "inr" || w == "aed" ensures !WordAt(t, j, w) {
      if j + 3 <= |prefix| {
        assert !WordAt(prefix, j, w);
        assert t[j + 1] == prefix[j + 1] && t[j + 2] == prefix[j + 2];
      } else {
        var k := |prefix| - j;
        assert t[j + k] == rest[0];
        assert LowerChar(t[j + k]) != w[k];
      }
    }
  }

  /** No match starts inside a marker-free prefix that is followed by a marker. */
  lemma PrefixSkipped(prefix: string, rest: string)
    requires MarkerFree(prefix)
    requires rest != [] && (rest[0] == 'i' || rest[0] == 'a' || rest[0] == Rupee)
    ensures forall j :: 0 <= j < |prefix| ==> !MatchesAt(prefix + rest, j)
  {
    forall j | 0 <= j < |prefix| ensures !MatchesAt(prefix + rest, j) {
      NoMarkerAcross(prefix, rest, j);
    }
  }

  /** The marker at the front of `rest` matches, and its number starts after the gap. */
  lemma MatchAfterMarker(t: string, p: nat, marker: string, gap: string)
    requires IsMarker(marker)
    requires gap == [] || (|gap| == 1 && IsSpace(gap[0]))
    requires p + |marker| + |gap| < |t|
    requires t[p..p + |marker| + |gap|] == marker + gap
    requires IsNumChar(t[p + |marker| + |gap|])
    ensures NumberStart(t, p) == Some(p + |marker| + |gap|)
  {
    forall k | 0 <= k < |marker| ensures t[p + k] == marker[k] {
      assert t[p..p + |marker| + |gap|][k] == (marker + gap)[k];
    }
    if marker == [Rupee] {
      assert MarkerEnd(t, p) == Some(p + 1);
    } else {
      assert t[p] != Rupee;
      assert WordAt(t, p, marker);
      assert MarkerEnd(t, p) == Some(p + 3);
    }
    var k := p + |marker|;
    if gap != [] {
      assert t[k] == t[p..p + |marker| + |gap|][|marker|] == gap[0];
    }
  }

  /** A slice starting at `s` that reads `x + y` reads `x` up to `s + |x|` and `y` after it. */
  lemma SplitAt(t: string, s: nat, x: string, y: string)
    requires s <= |t| && t[s..] == x + y
    ensures s + |x| <= |t| && t[s..s + |x|] == x && t[s + |x|..] == y
  {
    assert t[s..][..|x|] == x;
    assert t[s..][|x|..] == y;
  }

  /** A run of digits and commas in `t` at `k`, followed by a text that does not extend it. */
  lemma NumRunIs(t: string, k: nat, run: string, rest: string)
    requires k <= |t| && t[k..] == run + rest
    requires forall i :: 0 <= i < |run| ==> IsNumChar(run[i])
    requires rest == [] || !IsNumChar(rest[0])
    ensures NumRunEnd(t, k) == k + |run| && t[k..k + |run|] == run && t[k + |run|..] == rest
  {
    SplitAt(t, k, run, rest);
    var m := k + |run|;
    forall j | k <= j < m ensures IsNumChar(t[j]) {
      assert t[j] == t[k..m][j - k];
    }
    if m < |t| { assert t[m] == t[m..][0]; }
    NumRunEndIs(t, k, m);
  }

  /** A run of digits in `t` at `k`, followed by a text that does not extend it. */
  lemma DigitRunIs(t: string, k: nat, run: string, rest: string)
    requires k <= |t| && t[k..] == run + rest
    requires forall i :: 0 <= i < |run| ==> IsDigit(run[i])
    requires rest == [] || !IsDigit(rest[0])
    ensures DigitRunEnd(t, k) == k + |run| && t[k..k + |run|] == run
  {
    SplitAt(t, k, run, rest);
    var m := k + |run|;
    forall j | k <= j < m ensures IsDigit(t[j]) {
      assert t[j] == t[k..m][j - k];
    }
    if m < |t| { assert t[m] == t[m..][0]; }
    DigitRunEndIs(t, k, m);
  }

  /** The capture read off the two run ends, when a point follows the first run. */
  lemma CaptureWithPoint(t: string, s: nat, e: nat, f: nat)
    requires s < |t| && IsNumChar(t[s])
    requires NumRunEnd(t, s) == e && e < |t| && t[e] == '.' && DigitRunEnd(t, e + 1) == f
    ensures Capture(t, s) == Literal(t[s..e], true, t[e + 1..f])
  {
  }

  /** The capture read off the run end, when no point follows the run. */
  lemma CaptureWithoutPoint(t: string, s: nat, e: nat)
    requires s < |t| && IsNumChar(t[s])
    requires NumRunEnd(t, s) == e && (e == |t| || t[e] != '.')
    ensures Capture(t, s) == Literal(t[s..e], false, [])
  {
  }

  /** A run of digits and commas in `t` at `s`, followed by a point. */
  lemma RunThenPoint(t: string, s: nat, whole: string, tail: string)
    requires whole != [] && forall i :: 0 <= i < |whole| ==> IsNumChar(whole[i])
    requires s <= |t| && t[s..] == whole + ("." + tail)
    ensures var e := s + |whole|;
            && e < |t| && NumRunEnd(t, s) == e && t[s..e] == whole
            && IsNumChar(t[s]) && t[e] == '.' && t[e + 1..] == tail
  {
    var e := s + |whole|;
    NumRunIs(t, s, whole, "." + tail);
    assert t[e] == t[e..][0];
    assert t[e + 1..] == t[e..][1..];
    assert t[s] == t[s..e][0];
  }

  /** A literal with a point, followed by a text that does not extend its digits. */
  lemma PointedCaptureIs(t: string, s: nat, whole: string, fraction: string, suffix: string)
    requires WellFormed(Literal(whole, true, fraction)) && (suffix == [] || !IsDigit(suffix[0]))
    requires s <= |t| && t[s..] == whole + ("." + (fraction + suffix))
    ensures s < |t| && IsNumChar(t[s]) && Capture(t, s) == Literal(whole, true, fraction)
  {
    var e := s + |whole|;
    var f := e + 1 + |fraction|;
    RunThenPoint(t, s, whole, fraction + suffix);
    assert DigitRunEnd(t, e + 1) == f && t[e + 1..f] == fraction by {
      DigitRunIs(t, e + 1, fraction, suffix);
    }
    CaptureWithPoint(t, s, e, f);
  }

  /** A literal without a point, followed by a text that does not extend it. */
  lemma PlainCaptureIs(t: string, s: nat, whole: string, suffix: string)
    requires WellFormed(Literal(whole, false, [])) && (suffix == [] || (!IsNumChar(suffix[0]) && suffix[0] != '.'))
    requires s <= |t| && t[s..] == whole + suffix
    ensures s < |t| && IsNumChar(t[s]) && Capture(t, s) == Literal(whole, false, [])
  {
    var e := s + |whole|;
    NumRunIs(t, s, whole, suffix);
    assert t[s] == whole[0];
    assert e < |t| ==> t[e] == t[e..][0] == suffix[0];
    CaptureWithoutPoint(t, s, e);
  }

  /** The greedy capture starting at `s` reads exactly `lit` when `suffix` follows it. */
  lemma CaptureIs(t: string, s: nat, lit: Literal, suffix: string)
    requires WellFormed(lit) && EndsCapture(lit, suffix)
    requires s <= |t| && t[s..] == LiteralText(lit) + suffix
    ensures s < |t| && IsNumChar(t[s]) && Capture(t, s) == lit
  {
    if lit.point {
      assert LiteralText(lit) + suffix == lit.whole + ("." + (lit.fraction + suffix));
      PointedCaptureIs(t, s, lit.whole, lit.fraction, suffix);
    } else {
      assert LiteralText(lit) + suffix == lit.whole + suffix;
      PlainCaptureIs(t, s, lit.whole, suffix);
    }
  }

  /** The extractor returns the conversion of the literal that follows the first
      marker and its optional whitespace character, whatever marker-free text
      comes before and whatever text after that does not extend the literal. */
  lemma {:induction false} ExtractDecomposed(prefix: string, marker: string, gap: string, lit: Literal, suffix: string)
    requires MarkerFree(prefix) && IsMarker(marker)
    requires gap == [] || (|gap| == 1 && IsSpace(gap[0]))
    requires WellFormed(lit) && EndsCapture(lit, suffix)
    ensures Extract(prefix + marker + gap + LiteralText(lit) + suffix)
            == match Convert(lit) case Ok(v) => Ok(Some(v)) case Err(e) => Err(e)
  {
    var rest := marker + gap + (LiteralText(lit) + suffix);
    var t := prefix + marker + gap + LiteralText(lit) + suffix;
    var p, s := |prefix|, |prefix| + |marker| + |gap|;
    assert t == prefix + rest;
    assert forall j :: 0 <= j < p ==> !MatchesAt(t, j) by {
      assert rest[0] == marker[0];
      PrefixSkipped(prefix, rest);
    }
    assert s <= |t| && t[p..s] == marker + gap && t[s..] == LiteralText(lit) + suffix;
    ExtractAt(t, p, marker, gap, lit, suffix);
  }

  /** The extractor on a text whose first match is a marker at `p`, read off the
      slices of the text alone. */
  lemma ExtractAt(t: string, p: nat, marker: string, gap: string, lit: Literal, suffix: string)
    requires IsMarker(marker)
    requires gap == [] || (|gap| == 1 && IsSpace(gap[0]))
    requires WellFormed(lit) && EndsCapture(lit, suffix)
    requires forall j :: 0 <= j < p ==> !MatchesAt(t, j)
    requires p + |marker| + |gap| <= |t|
    requires t[p..p + |marker| + |gap|] == marker + gap
    requires t[p + |marker| + |gap|..] == LiteralText(lit) + suffix
    ensures Extract(t) == match Convert(lit) case Ok(v) => Ok(Some(v)) case Err(e) => Err(e)
  {
    var s := p + |marker| + |gap|;
    assert s < |t| && IsNumChar(t[s]) && Capture(t, s) == lit by {
      CaptureIs(t, s, lit, suffix);
    }
    assert NumberStart(t, p) == Some(s) by {
      MatchAfterMarker(t, p, marker, gap);
    }
    assert Leftmost(t, p);
    ExtractFrom(t, p, s, lit);
  }

  /** Lowering a character changes neither whitespace, digits, commas, points nor the rupee sign. */
  lemma LowerKeepsClasses(c: char)
    ensures IsSpace(LowerChar(c)) == IsSpace(c)
    ensures IsNumChar(LowerChar(c)) == IsNumChar(c) && IsDigit(LowerChar(c)) == IsDigit(c)
    ensures IsNumChar(c) || c == '.' ==> LowerChar(c) == c
    ensures (LowerChar(c) == Rupee) == (c == Rupee) && (LowerChar(c) == '.') == (c == '.')
    ensures LowerChar(LowerChar(c)) == LowerChar(c)
  {
  }

  lemma MatchesUnderLower(t: string, i: nat)
    ensures NumberStart(Lower(t), i) == NumberStart(t, i)
  {
    var u := Lower(t);
    forall j | 0 <= j < |t| ensures u[j] == LowerChar(t[j]) { }
    if i < |t| { LowerKeepsClasses(t[i]); }
    if i + 2 < |t| { LowerKeepsClasses(t[i + 1]); LowerKeepsClasses(t[i + 2]); }
    assert MarkerEnd(u, i) == MarkerEnd(t, i);
    match MarkerEnd(t, i)
    case None =>
    case Some(k) =>
      if k < |t| { LowerKeepsClasses(t[k]); }
      if k + 1 < |t| { LowerKeepsClasses(t[k + 1]); }
  }

  lemma NumRunUnderLower(t: string, k: nat)
    requires k <= |t|
    ensures var m := NumRunEnd(t, k);
      NumRunEnd(Lower(t), k) == m && Lower(t)[k..m] == t[k..m]
  {
    var u := Lower(t);
    var m := NumRunEnd(t, k);
    forall j | k <= j < m ensures u[j] == t[j] && IsNumChar(u[j]) {
      LowerKeepsClasses(t[j]);
    }
    if m < |t| { LowerKeepsClasses(t[m]); }
    NumRunEndIs(u, k, m);
  }

  lemma DigitRunUnderLower(t: string, k: nat)
    requires k <= |t|
    ensures var m := DigitRunEnd(t, k);
      DigitRunEnd(Lower(t), k) == m && Lower(t)[k..m] == t[k..m]
  {
    var u := Lower(t);
    var m := DigitRunEnd(t, k);
    forall j | k <= j < m ensures u[j] == t[j] && IsDigit(u[j]) {
      LowerKeepsClasses(t[j]);
    }
    if m < |t| { LowerKeepsClasses(t[m]); }
    DigitRunEndIs(u, k, m);
  }

  lemma CaptureUnderLower(t: string, s: nat)
    requires s < |t| && IsNumChar(t[s])
    ensures s < |Lower(t)| && IsNumChar(Lower(t)[s]) && Capture(Lower(t), s) == Capture(t, s)
  {
    var u := Lower(t);
    LowerKeepsClasses(t[s]);
    var m := NumRunEnd(t, s);
    NumRunUnderLower(t, s);
    if m < |t| {
      LowerKeepsClasses(t[m]);
      if t[m] == '.' {
        DigitRunUnderLower(t, m + 1);
      }
    }
  }

  /** The `(?i)` flag makes lowering the text first irrelevant: the extractor gives the
      same outcome on a text and on its lower-case form. */
  lemma ExtractIgnoresCase(t: string)
    ensures Extract(Lower(t)) == Extract(t)
  {
    var u := Lower(t);
    forall i: nat ensures MatchesAt(u, i) == MatchesAt(t, i) {
      MatchesUnderLower(t, i);
    }
    match FirstMatch(t, 0)
    case None =>
    case Some(p) =>
      assert Leftmost(t, p) && Leftmost(u, p);
      var s := NumberStart(t, p).value;
      MatchesUnderLower(t, p);
      CaptureUnderLower(t, s);
      ExtractFrom(t, p, s, Capture(t, s));
      ExtractFrom(u, p, s, Capture(t, s));
  }
}
