/** Worked inputs of the amount extractor. Each is split into the facts about its
    pieces and their combination through the decomposition lemma. */
module AmountExamples {
  import opened Results
  import opened Amounts

  lemma PaidParts(lit: Literal)
    requires lit == Literal("1,234", true, "50")
    ensures "paid " + "inr" + " " + LiteralText(lit) + " today" == "paid inr 1,234.50 today"
    ensures MarkerFree("paid ") && WellFormed(lit) && EndsCapture(lit, " today")
  {
    assert "pa"[0] == 'p';
  }

  lemma PaidDigits()
    ensures RemoveCommas("1,234") == "1234" && DigitsValue("1234") == 1234 && DigitsValue("50") == 50
  {
    PaidWhole();
    PaidCommas();
    assert "50"[..1] == "5";
  }

  lemma PaidCommas()
    ensures RemoveCommas("1,234") == "1234"
  {
    assert "1,234"[1..] == ",234" && ",234"[1..] == "234" && "234"[1..] == "34" && "34"[1..] == "4";
  }

  lemma PaidWhole()
    ensures DigitsValue("1234") == 1234
  {
    assert "1234"[..3] == "123" && "123"[..2] == "12" && "12"[..1] == "1";
  }

  lemma PaidValue(lit: Literal)
    requires lit == Literal("1,234", true, "50")
    ensures Convert(lit) == Ok(1234.5)
  {
    PaidDigits();
    assert Pow10(2) == 100;
  }

  /** Thousands separators are dropped and the fraction is kept. */
  lemma PaidWithSeparators()
    ensures Extract("paid inr 1,234.50 today") == Ok(Some(1234.5))
  {
    var lit := Literal("1,234", true, "50");
    PaidParts(lit);
    PaidValue(lit);
    ExtractDecomposed("paid ", "inr", " ", lit, " today");
  }

  lemma SecondPointParts(lit: Literal)
    requires lit == Literal("1", true, "2")
    ensures "" + "inr" + " " + LiteralText(lit) + ".3" == "inr 1.2.3"
    ensures WellFormed(lit) && EndsCapture(lit, ".3") && Convert(lit) == Ok(1.2)
  {
  }

  /** Only one point is taken: the capture stops at the second one. */
  lemma SecondPointEndsTheNumber()
    ensures Extract("inr 1.2.3") == Ok(Some(1.2))
  {
    var lit := Literal("1", true, "2");
    SecondPointParts(lit);
    ExtractDecomposed("", "inr", " ", lit, ".3");
  }

  lemma CommasOnlyParts(lit: Literal)
    requires lit == Literal(",", false, "")
    ensures "" + "inr" + " " + LiteralText(lit) + "" == "inr ,"
    ensures WellFormed(lit) && EndsCapture(lit, "") && Convert(lit) == Err(NotANumber(""))
  {
  }

  /** A marker followed only by commas matches, and `float("")` then fails. */
  lemma CommasOnlyFailToConvert()
    ensures Extract("inr ,") == Err(NotANumber(""))
  {
    var lit := Literal(",", false, "");
    CommasOnlyParts(lit);
    ExtractDecomposed("", "inr", " ", lit, "");
  }

  lemma RupeeParts(lit: Literal)
    requires lit == Literal("99", false, "")
    ensures "" + [Rupee] + "" + LiteralText(lit) + "" == [Rupee] + "99"
    ensures WellFormed(lit) && EndsCapture(lit, "") && Convert(lit) == Ok(99.0)
  {
    assert "99"[..1] == "9";
  }

  /** The rupee sign needs no space before the number. */
  lemma RupeeWithoutSpace()
    ensures Extract([Rupee] + "99") == Ok(Some(99.0))
  {
    var lit := Literal("99", false, "");
    RupeeParts(lit);
    ExtractDecomposed("", [Rupee], "", lit, "");
  }

  lemma TwoSpacesParts(t: string)
    requires t == "inr  5"
    ensures forall j :: 0 <= j < |t| ==> !MatchesAt(t, j)
  {
    assert "inr"[0] == 'i' && "aed"[0] == 'a';
    assert !MatchesAt(t, 0);
  }

  /** Two whitespace characters between marker and digits: no match, so None. */
  lemma TwoSpacesIsNoValue()
    ensures Extract("inr  5") == Ok(None)
  {
    TwoSpacesParts("inr  5");
  }
}
