/** The savings advisor shown under a non-empty view: the spend band against the
    credited total, the progress bar's value and the tip for the top category. */
module Advisor {
  import opened Results
  import opened Tagger
  import opened Pipeline
  import opened Report

  /** The three verdicts on spending against income. */
  datatype Band = Overspending | Moderate | Healthy

  /** Verdicts in order of severity. */
  function Severity(b: Band): nat {
    match b
    case Healthy => 0
    case Moderate => 1
    case Overspending => 2
  }

  /** The verdict on `spent` against `credited`, given only when something was
      credited: over 80% of it, between 60% and 80%, or at most 60%. */
  function SpendBand(spent: real, credited: real): (b: Option<Band>)
    ensures b.None? <==> credited <= 0.0
    ensures b == Some(Overspending) <==> credited > 0.0 && spent / credited > 0.8
    ensures b == Some(Moderate) <==> credited > 0.0 && 0.6 < spent / credited <= 0.8
    ensures b == Some(Healthy) <==> credited > 0.0 && spent / credited <= 0.6
  {
    if credited <= 0.0 then None
    else
      RatioAbove(spent, credited, 0.8);
      RatioAbove(spent, credited, 0.6);
      if spent > credited * 0.8 then Some(Overspending)
      else if spent > credited * 0.6 then Some(Moderate)
      else Some(Healthy)
  }

  /** Comparing `spent` with a fraction of `credited` compares the ratio with it. */
  lemma RatioAbove(spent: real, credited: real, k: real)
    requires credited > 0.0
    ensures spent > credited * k <==> spent / credited > k
  {
    var r := spent / credited;
    assert spent == r * credited;
    if r > k {
      assert r * credited > k * credited;
    } else {
      assert r * credited <= k * credited;
    }
  }

  /** Spending more never gives a milder verdict. */
  lemma BandMonotone(spent1: real, spent2: real, credited: real)
    requires credited > 0.0 && spent1 <= spent2
    ensures Severity(SpendBand(spent1, credited).value) <= Severity(SpendBand(spent2, credited).value)
  {
  }

  /** Spending exactly 80% of income is not yet overspending. */
  lemma EightyPercentIsModerate()
    ensures SpendBand(800.0, 1000.0) == Some(Moderate)
  {
  }

  /** The progress bar's value: the spend ratio, capped at 1. */
  function Progress(spent: real, credited: real): (p: real)
    requires credited > 0.0
    ensures spent >= 0.0 ==> 0.0 <= p <= 1.0
    ensures p == 1.0 <==> spent >= credited
    ensures p < 1.0 ==> p * credited == spent
  {
    var ratio := spent / credited;
    RatioAbove(spent, credited, 1.0);
    if ratio < 1.0 then ratio else 1.0
  }

  /** The five tips: one per advised category and a default. */
  datatype Tip = MealPrep | ShoppingCap | SubscriptionAudit | OffPeakTravel | KeepTracking

  /** The tip for the top category: a fixed one for Food, Shopping, Bills and
      Travel, the default for any other label. */
  function TipFor(topCat: string): (tip: Tip)
    ensures tip == KeepTracking <==> topCat !in {"Food", "Shopping", "Bills", "Travel"}
    ensures tip != KeepTracking ==> TipCategory(tip) == Some(topCat)
  {
    if topCat == "Food" then MealPrep
    else if topCat == "Shopping" then ShoppingCap
    else if topCat == "Bills" then SubscriptionAudit
    else if topCat == "Travel" then OffPeakTravel
    else KeepTracking
  }

  /** The category a tip is given for; none for the default. */
  function TipCategory(tip: Tip): Option<string> {
    match tip
    case MealPrep => Some("Food")
    case ShoppingCap => Some("Shopping")
    case SubscriptionAudit => Some("Bills")
    case OffPeakTravel => Some("Travel")
    case KeepTracking => None
  }

  /** Every specific tip is the one given for its own category. */
  lemma TipRoundTrip(tip: Tip)
    ensures TipCategory(tip).Some? <==> tip != KeepTracking
    ensures TipCategory(tip).Some? ==> TipFor(TipCategory(tip).value) == tip
  {
  }

  /** What the advisor section shows: a verdict and a progress value when
      something was credited, and always a tip. */
  datatype Advice = Advice(band: Option<Band>, progress: Option<real>, tip: Tip)

  /** The advisor section for the filtered view; nothing for an empty view, which
      shows a warning instead. */
  function Advise(view: seq<Transaction>): Option<Advice> {
    if view == [] then None
    else
      var spent := TotalSpent(view);
      var credited := TotalCredited(view);
      Some(Advice(SpendBand(spent, credited),
                  if credited > 0.0 then Some(Progress(spent, credited)) else None,
                  TipFor(TopCategory(view))))
  }

  /** For a non-empty view with non-negative amounts, a verdict and progress
      value are shown exactly when some Credit row has a positive amount, the
      progress value lies in [0, 1], and the tip is the default exactly when the
      top category is none of the four advised ones. */
  lemma AdviceShown(view: seq<Transaction>)
    requires view != []
    requires forall j :: 0 <= j < |view| ==> view[j].amount >= 0.0
    ensures Advise(view).Some?
    ensures Advise(view).value.band.Some? <==>
      exists j :: 0 <= j < |view| && view[j].kind == Credit && view[j].amount > 0.0
    ensures Advise(view).value.progress.Some? <==> Advise(view).value.band.Some?
    ensures Advise(view).value.progress.Some? ==> 0.0 <= Advise(view).value.progress.value <= 1.0
    ensures Advise(view).value.tip == KeepTracking <==>
      TopCategory(view) !in {"Food", "Shopping", "Bills", "Travel"}
  {
    OfKindSum(view, Credit);
    SumOfKindPositive(view, Credit);
    TotalsNonNegative(view);
  }

  /** An empty view shows no advice. */
  lemma NoAdviceForEmptyView()
    ensures Advise([]) == None
  {
  }
}
