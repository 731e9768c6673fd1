/** The dashboard's money format `₹{x:,.2f}`: whole rupees grouped by thousands with
    commas, a point and two digits of paise. The extractor reads every such rendering
    back to the amount it shows. */
module AmountFormat {
  import opened Results
  import opened Text
  import opened Amounts

  function DigitChar(d: nat): (c: char)
    requires d < 10
    ensures IsDigit(c) && DigitValue(c) == d
  {
    ('0' as int + d) as char
  }

  ghost predicate AllDigits(s: string) {
    forall i :: 0 <= i < |s| ==> IsDigit(s[i])
  }

  ghost predicate AllNumChars(s: string) {
    forall i :: 0 <= i < |s| ==> IsNumChar(s[i])
  }

  /** `n` in decimal, without leading zeros. */
  function ShowNat(n: nat): (s: string)
    ensures s != [] && AllDigits(s) && DigitsValue(s) == n
  {
    if n < 10 then
      var s := [DigitChar(n)];
      assert s[..0] == [];
      s
    else
      var s := ShowNat(n / 10) + [DigitChar(n % 10)];
      assert s[..|s| - 1] == ShowNat(n / 10);
      s
  }

  /** `n` as exactly `width` decimal digits, with leading zeros. */
  function ZeroPadded(n: nat, width: nat): (s: string)
    requires n < Pow10(width)
    ensures |s| == width && AllDigits(s) && DigitsValue(s) == n
  {
    if width == 0 then []
    else
      var s := ZeroPadded(n / 10, width - 1) + [DigitChar(n % 10)];
      assert s[..|s| - 1] == ZeroPadded(n / 10, width - 1);
      s
  }

  /** The `,` option of the format: digit groups of three separated by commas. */
  function Grouped(n: nat): (s: string)
    ensures s != [] && IsDigit(s[0]) && AllNumChars(s)
    ensures DigitsValue(RemoveCommas(s)) == n
  {
    if n < 1000 then
      var s := ShowNat(n);
      NoCommas(s);
      s
    else
      var head := Grouped(n / 1000);
      var tail := ZeroPadded(n % 1000, 3);
      var s := head + "," + tail;
      GroupStep(n, head, tail);
      s
  }

  /** `f"{paise / 100:,.2f}"` for an amount held in whole paise. */
  function FormatAmount(paise: nat): string {
    Grouped(paise / 100) + "." + ZeroPadded(paise % 100, 2)
  }

  lemma GroupStep(n: nat, head: string, tail: string)
    requires n >= 1000
    requires head != [] && IsDigit(head[0]) && AllNumChars(head) && DigitsValue(RemoveCommas(head)) == n / 1000
    requires |tail| == 3 && AllDigits(tail) && DigitsValue(tail) == n % 1000
    ensures var s := head + "," + tail; s != [] && IsDigit(s[0]) && AllNumChars(s) && DigitsValue(RemoveCommas(s)) == n
  {
    GroupText(head, tail);
    GroupValue(RemoveCommas(head), tail, n / 1000, n % 1000);
  }

  lemma GroupText(head: string, tail: string)
    requires AllDigits(tail)
    ensures RemoveCommas(head + "," + tail) == RemoveCommas(head) + tail
    ensures AllNumChars(head) ==> AllNumChars(head + "," + tail)
  {
    var withComma := head + ",";
    RemoveCommasAppend(withComma, tail);
    RemoveCommasAppend(head, ",");
    assert RemoveCommas(",") == [];
    NoCommas(tail);
    assert RemoveCommas(withComma) + RemoveCommas(tail) == RemoveCommas(head) + tail;
  }

  lemma GroupValue(digits: string, tail: string, q: nat, r: nat)
    requires DigitsValue(digits) == q
    requires |tail| == 3 && DigitsValue(tail) == r
    ensures DigitsValue(digits + tail) == q * 1000 + r
  {
    DigitsValueAppend(digits, tail);
    assert Pow10(3) == 1000;
  }

  lemma NoCommas(s: string)
    requires AllDigits(s)
    ensures RemoveCommas(s) == s
  {
    if s != [] {
      NoCommas(s[1..]);
      assert s == [s[0]] + s[1..];
    }
  }

  lemma DigitsValueSnoc(s: string, c: char)
    ensures DigitsValue(s + [c]) == DigitsValue(s) * 10 + DigitValue(c)
  {
    assert (s + [c])[..|s|] == s;
  }

  lemma Horner(va: nat, p: nat, vb: nat, d: nat)
    ensures (va * p + vb) * 10 + d == va * (p * 10) + (vb * 10 + d)
  {
  }

  /** Digits appended to a number shift it left by their count. */
  lemma {:induction false} DigitsValueAppend(a: string, b: string)
    ensures DigitsValue(a + b) == DigitsValue(a) * Pow10(|b|) + DigitsValue(b)
  {
    if b == [] {
      assert a + b == a;
    } else {
      var b', c := b[..|b| - 1], b[|b| - 1];
      assert a + b == (a + b') + [c];
      assert b == b' + [c];
      DigitsValueAppend(a, b');
      DigitsValueSnoc(a + b', c);
      DigitsValueSnoc(b', c);
      Horner(DigitsValue(a), Pow10(|b'|), DigitsValue(b'), DigitValue(c));
    }
  }

  /** Round trip: after any marker-free text, a currency marker, at most one whitespace
      character and a formatted amount, the extractor returns that amount exactly, as
      long as no digit follows the rendering. */
  lemma {:induction false} ExtractFormatted(prefix: string, marker: string, gap: string, paise: nat, suffix: string)
    requires MarkerFree(prefix) && IsMarker(marker)
    requires gap == [] || (|gap| == 1 && IsSpace(gap[0]))
    requires suffix == [] || !IsDigit(suffix[0])
    ensures Extract(prefix + marker + gap + FormatAmount(paise) + suffix) == Ok(Some(paise as real / 100.0))
  {
    var whole, cents := paise / 100, paise % 100;
    var lit := Literal(Grouped(whole), true, ZeroPadded(cents, 2));
    assert LiteralText(lit) == FormatAmount(paise);
    FormattedWellFormed(paise, lit);
    FormattedValue(lit, paise);
    ExtractDecomposed(prefix, marker, gap, lit, suffix);
  }

  lemma FormattedWellFormed(paise: nat, lit: Literal)
    requires lit == Literal(Grouped(paise / 100), true, ZeroPadded(paise % 100, 2))
    ensures WellFormed(lit) && |lit.fraction| == 2
    ensures DigitsValue(RemoveCommas(lit.whole)) == paise / 100 && DigitsValue(lit.fraction) == paise % 100
  {
    assert Pow10(2) == 100;
  }

  /** A literal whose digits read the rupees and the two digits of paise of an amount
      converts to that amount. */
  lemma FormattedValue(lit: Literal, paise: nat)
    requires WellFormed(lit) && |lit.fraction| == 2
    requires DigitsValue(RemoveCommas(lit.whole)) == paise / 100 && DigitsValue(lit.fraction) == paise % 100
    ensures Convert(lit) == Ok(paise as real / 100.0)
  {
    var rupees, cents := paise / 100, paise % 100;
    assert Convert(lit) == Ok(rupees as real + cents as real / 100.0) by {
      ConvertValue(lit);
      assert Pow10(|lit.fraction|) == 100;
    }
    assert rupees as real + cents as real / 100.0 == paise as real / 100.0 by {
      CentsSplit(paise);
    }
  }

  /** Any whole number followed by a point and `k` digits of a fraction, as a renderer
      writes them, converts to the number plus the fraction over `10^k`. */
  lemma ConvertRendered(a: nat, b: nat, k: nat)
    requires b < Pow10(k)
    ensures Convert(Literal(ShowNat(a), true, ZeroPadded(b, k)))
            == Ok(a as real + b as real / Pow10(k) as real)
  {
    var lit := Literal(ShowNat(a), true, ZeroPadded(b, k));
    assert WellFormed(lit) && RemoveCommas(lit.whole) == lit.whole by {
      NoCommas(lit.whole);
    }
    ConvertValue(lit);
  }

  lemma CentsSplit(paise: nat)
    ensures (paise / 100) as real + (paise % 100) as real / 100.0 == paise as real / 100.0
  {
    var whole, cents := paise / 100, paise % 100;
    assert paise == whole * 100 + cents;
    assert paise as real == whole as real * 100.0 + cents as real;
  }
}
