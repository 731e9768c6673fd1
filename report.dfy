/** The filtered view of the analysed table and the figures computed from it:
    the sidebar filter, the two totals and the top category. */
module Report {
  import opened Tagger
  import opened Pipeline

  /** The sidebar filter: the rows whose type and category are both selected,
      in their original order. */
  function Filter(txs: seq<Transaction>, types: set<TxnType>, cats: set<string>): (r: seq<Transaction>)
    ensures |r| <= |txs|
    ensures forall x :: x in r <==> x in txs && x.kind in types && x.category in cats
  {
    if txs == [] then []
    else
      var rest := Filter(txs[1..], types, cats);
      if txs[0].kind in types && txs[0].category in cats then [txs[0]] + rest else rest
  }

  /** Filtering a concatenation filters each part and keeps them in order. */
  lemma {:induction false} FilterAppend(a: seq<Transaction>, b: seq<Transaction>, types: set<TxnType>, cats: set<string>)
    ensures Filter(a + b, types, cats) == Filter(a, types, cats) + Filter(b, types, cats)
  {
    if a == [] {
      assert a + b == b;
    } else {
      assert (a + b)[1..] == a[1..] + b;
      FilterAppend(a[1..], b, types, cats);
    }
  }

  /** A selection that covers every row keeps the table as it is. */
  lemma {:induction false} FilterKeepsAll(txs: seq<Transaction>, types: set<TxnType>, cats: set<string>)
    requires forall j :: 0 <= j < |txs| ==> txs[j].kind in types && txs[j].category in cats
    ensures Filter(txs, types, cats) == txs
  {
    if txs != [] {
      FilterKeepsAll(txs[1..], types, cats);
    }
  }

  /** The types present in the table (`df["Type"].unique()`). */
  function Kinds(txs: seq<Transaction>): set<TxnType> {
    set j | 0 <= j < |txs| :: txs[j].kind
  }

  /** The categories present in the table (`df["Predicted_Category"].unique()`). */
  function Categories(txs: seq<Transaction>): set<string> {
    set j | 0 <= j < |txs| :: txs[j].category
  }

  /** The default selection, every type and every category present, keeps all rows. */
  lemma DefaultSelectionKeepsAll(txs: seq<Transaction>)
    ensures Filter(txs, Kinds(txs), Categories(txs)) == txs
  {
    FilterKeepsAll(txs, Kinds(txs), Categories(txs));
  }

  /** Filtering twice with the same selection is filtering once. */
  lemma FilterIdempotent(txs: seq<Transaction>, types: set<TxnType>, cats: set<string>)
    ensures Filter(Filter(txs, types, cats), types, cats) == Filter(txs, types, cats)
  {
    var r := Filter(txs, types, cats);
    forall j | 0 <= j < |r|
      ensures r[j].kind in types && r[j].category in cats
    {
      assert r[j] in r;
    }
    FilterKeepsAll(r, types, cats);
  }

  /** The sum of the Amount column. */
  function Sum(txs: seq<Transaction>): real {
    if txs == [] then 0.0 else txs[0].amount + Sum(txs[1..])
  }

  /** The rows of one type (the mask `Type == kind`). */
  function OfKind(txs: seq<Transaction>, kind: TxnType): (r: seq<Transaction>)
    ensures forall x :: x in r <==> x in txs && x.kind == kind
  {
    Filter(txs, {kind}, Categories(txs))
  }

  /** `total_spent`: the summed amount of the Debit rows. */
  function TotalSpent(txs: seq<Transaction>): real {
    Sum(OfKind(txs, Debit))
  }

  /** `total_credited`: the summed amount of the Credit rows. */
  function TotalCredited(txs: seq<Transaction>): real {
    Sum(OfKind(txs, Credit))
  }

  /** The sum over the rows of one type, by a single pass. */
  function SumOfKind(txs: seq<Transaction>, kind: TxnType): real {
    if txs == [] then 0.0
    else (if txs[0].kind == kind then txs[0].amount else 0.0) + SumOfKind(txs[1..], kind)
  }

  /** The Amount sum of the rows of one type, whatever categories the filter names,
      is the single-pass sum over that type. */
  lemma {:induction false} FilterSumIsSumOfKind(txs: seq<Transaction>, kind: TxnType, cats: set<string>)
    requires forall j :: 0 <= j < |txs| ==> txs[j].category in cats
    ensures Sum(Filter(txs, {kind}, cats)) == SumOfKind(txs, kind)
  {
    if txs != [] {
      FilterSumIsSumOfKind(txs[1..], kind, cats);
    }
  }

  lemma OfKindSum(txs: seq<Transaction>, kind: TxnType)
    ensures Sum(OfKind(txs, kind)) == SumOfKind(txs, kind)
  {
    FilterSumIsSumOfKind(txs, kind, Categories(txs));
  }

  /** Every row's amount counts towards exactly one of the three types: Debit rows
      towards `total_spent`, Credit rows towards `total_credited`, Unknown rows
      towards neither. */
  lemma {:induction false} KindsPartitionSum(txs: seq<Transaction>)
    ensures TotalSpent(txs) + TotalCredited(txs) + Sum(OfKind(txs, Unknown)) == Sum(txs)
  {
    OfKindSum(txs, Debit);
    OfKindSum(txs, Credit);
    OfKindSum(txs, Unknown);
    SumOfKindsPartition(txs);
  }

  lemma {:induction false} SumOfKindsPartition(txs: seq<Transaction>)
    ensures SumOfKind(txs, Debit) + SumOfKind(txs, Credit) + SumOfKind(txs, Unknown) == Sum(txs)
  {
    if txs != [] {
      SumOfKindsPartition(txs[1..]);
    }
  }

  /** A row of another type never changes a type's total, wherever it stands. */
  lemma {:induction false} OtherKindIgnored(a: seq<Transaction>, x: Transaction, b: seq<Transaction>, kind: TxnType)
    requires x.kind != kind
    ensures SumOfKind(a + [x] + b, kind) == SumOfKind(a + b, kind)
  {
    if a == [] {
      assert a + [x] + b == [x] + b && a + b == b;
      assert ([x] + b)[1..] == b;
    } else {
      assert (a + [x] + b)[1..] == a[1..] + [x] + b;
      assert (a + b)[1..] == a[1..] + b;
      OtherKindIgnored(a[1..], x, b, kind);
    }
  }

  /** Unknown rows count towards neither total. */
  lemma UnknownRowsIgnored(a: seq<Transaction>, x: Transaction, b: seq<Transaction>)
    requires x.kind == Unknown
    ensures TotalSpent(a + [x] + b) == TotalSpent(a + b)
    ensures TotalCredited(a + [x] + b) == TotalCredited(a + b)
  {
    OfKindSum(a + [x] + b, Debit);
    OfKindSum(a + b, Debit);
    OfKindSum(a + [x] + b, Credit);
    OfKindSum(a + b, Credit);
    OtherKindIgnored(a, x, b, Debit);
    OtherKindIgnored(a, x, b, Credit);
  }

  /** With non-negative amounts every type's total is non-negative. */
  lemma {:induction false} SumOfKindNonNegative(txs: seq<Transaction>, kind: TxnType)
    requires forall j :: 0 <= j < |txs| ==> txs[j].amount >= 0.0
    ensures SumOfKind(txs, kind) >= 0.0
  {
    if txs != [] {
      SumOfKindNonNegative(txs[1..], kind);
    }
  }

  /** Both totals are non-negative when the amounts are, and both are 0 for an
      empty view. */
  lemma TotalsNonNegative(txs: seq<Transaction>)
    requires forall j :: 0 <= j < |txs| ==> txs[j].amount >= 0.0
    ensures TotalSpent(txs) >= 0.0 && TotalCredited(txs) >= 0.0
    ensures txs == [] ==> TotalSpent(txs) == 0.0 && TotalCredited(txs) == 0.0
  {
    OfKindSum(txs, Debit);
    OfKindSum(txs, Credit);
    SumOfKindNonNegative(txs, Debit);
    SumOfKindNonNegative(txs, Credit);
  }

  /** With non-negative amounts a type's total is positive exactly when some row of
      that type has a positive amount. */
  lemma {:induction false} SumOfKindPositive(txs: seq<Transaction>, kind: TxnType)
    requires forall j :: 0 <= j < |txs| ==> txs[j].amount >= 0.0
    ensures SumOfKind(txs, kind) > 0.0 <==>
      exists j :: 0 <= j < |txs| && txs[j].kind == kind && txs[j].amount > 0.0
  {
    if txs != [] {
      SumOfKindPositive(txs[1..], kind);
      SumOfKindNonNegative(txs[1..], kind);
      if exists j :: 0 <= j < |txs| && txs[j].kind == kind && txs[j].amount > 0.0 {
        var j :| 0 <= j < |txs| && txs[j].kind == kind && txs[j].amount > 0.0;
        if j > 0 {
          assert txs[1..][j - 1] == txs[j];
        }
      }
    }
  }

  /** Python's `<` on strings: lexicographic by code point, a proper prefix first. */
  predicate LexLess(a: string, b: string) {
    if a == [] then b != []
    else if b == [] then false
    else if a[0] != b[0] then a[0] < b[0]
    else LexLess(a[1..], b[1..])
  }

  lemma {:induction false} LexLessIrreflexive(a: string)
    ensures !LexLess(a, a)
  {
    if a != [] {
      LexLessIrreflexive(a[1..]);
    }
  }

  lemma {:induction false} LexLessTotal(a: string, b: string)
    requires a != b
    ensures LexLess(a, b) || LexLess(b, a)
  {
    if a != [] && b != [] && a[0] == b[0] {
      assert a == [a[0]] + a[1..] && b == [b[0]] + b[1..];
      LexLessTotal(a[1..], b[1..]);
    }
  }

  lemma {:induction false} LexLessAsymmetric(a: string, b: string)
    requires LexLess(a, b)
    ensures !LexLess(b, a)
  {
    if a != [] && b != [] && a[0] == b[0] {
      LexLessAsymmetric(a[1..], b[1..]);
    }
  }

  lemma {:induction false} LexLessTransitive(a: string, b: string, c: string)
    requires LexLess(a, b) && LexLess(b, c)
    ensures LexLess(a, c)
  {
    if a != [] && a[0] == b[0] && b[0] == c[0] {
      LexLessTransitive(a[1..], b[1..], c[1..]);
    }
  }

  /** Strictly increasing in code-point order, hence without duplicates. */
  ghost predicate Sorted(s: seq<string>) {
    forall i, j :: 0 <= i < j < |s| ==> LexLess(s[i], s[j])
  }

  /** `s` with `x` put in its place, unless it is there already. */
  function Insert(x: string, s: seq<string>): (r: seq<string>)
    requires Sorted(s)
    ensures Sorted(r)
    ensures forall y :: y in r <==> y == x || y in s
  {
    if s == [] then [x]
    else if x == s[0] then s
    else if LexLess(x, s[0]) then
      assert forall j :: 0 <= j < |s| ==> LexLess(x, s[j]) by {
        forall j | 0 <= j < |s| ensures LexLess(x, s[j]) {
          if j > 0 { LexLessTransitive(x, s[0], s[j]); }
        }
      }
      [x] + s
    else
      LexLessTotal(x, s[0]);
      var r := Insert(x, s[1..]);
      assert forall y :: y in r ==> LexLess(s[0], y) by {
        forall y | y in r ensures LexLess(s[0], y) {
          if y != x {
            var j :| 1 <= j < |s| && s[j] == y;
          }
        }
      }
      [s[0]] + r
  }

  /** The group keys of `groupby("Predicted_Category")`: every category of the
      table once, in sorted order. */
  function GroupKeys(txs: seq<Transaction>): (keys: seq<string>)
    ensures Sorted(keys)
    ensures forall c :: c in keys <==> c in Categories(txs)
  {
    if txs == [] then []
    else
      var keys := Insert(txs[0].category, GroupKeys(txs[1..]));
      assert forall c :: c in Categories(txs) <==> c == txs[0].category || c in Categories(txs[1..]) by {
        forall c ensures c in Categories(txs) <==> c == txs[0].category || c in Categories(txs[1..]) {
          if c in Categories(txs) && c != txs[0].category {
            var j :| 0 <= j < |txs| && txs[j].category == c;
            assert txs[1..][j - 1].category == c;
          }
          if c in Categories(txs[1..]) {
            var j :| 0 <= j < |txs[1..]| && txs[1..][j].category == c;
            assert txs[j + 1].category == c;
          }
        }
      }
      keys
  }

  /** The summed amount of one category, over every type. */
  function CategoryTotal(txs: seq<Transaction>, cat: string): real {
    if txs == [] then 0.0
    else (if txs[0].category == cat then txs[0].amount else 0.0) + CategoryTotal(txs[1..], cat)
  }

  /** `idxmax`: the first position of the largest value. */
  function IdxMax(vals: seq<real>): (m: nat)
    requires vals != []
    ensures m < |vals|
    ensures forall j :: 0 <= j < |vals| ==> vals[j] <= vals[m]
    ensures forall j :: 0 <= j < m ==> vals[j] < vals[m]
  {
    if |vals| == 1 then 0
    else
      var m := IdxMax(vals[..|vals| - 1]);
      if vals[|vals| - 1] > vals[m] then |vals| - 1 else m
  }

  /** `top_cat`: "N/A" for an empty view, otherwise the first group key, in sorted
      order, whose summed amount is the largest. */
  function TopCategory(txs: seq<Transaction>): string {
    if txs == [] then "N/A"
    else
      var keys := GroupKeys(txs);
      assert txs[0].category in keys;
      var sums := seq(|keys|, i requires 0 <= i < |keys| => CategoryTotal(txs, keys[i]));
      keys[IdxMax(sums)]
  }

  /** Over sorted keys, the first maximum is at least every value, and a key that
      ties with it comes after it. */
  lemma FirstMaximumComesFirst(keys: seq<string>, sums: seq<real>, j: nat)
    requires Sorted(keys) && |sums| == |keys| && j < |keys|
    ensures sums[j] <= sums[IdxMax(sums)]
    ensures j != IdxMax(sums) && sums[j] == sums[IdxMax(sums)] ==> LexLess(keys[IdxMax(sums)], keys[j])
  {
  }

  /** The top category of a non-empty view is one of its categories, no category
      sums to more, and of the categories that tie with it, it comes first in
      code-point order. */
  lemma TopCategoryIsFirstMaximum(txs: seq<Transaction>)
    requires txs != []
    ensures TopCategory(txs) in Categories(txs)
    ensures forall c :: c in Categories(txs) ==> CategoryTotal(txs, c) <= CategoryTotal(txs, TopCategory(txs))
    ensures forall c :: c in Categories(txs) && c != TopCategory(txs)
                     && CategoryTotal(txs, c) == CategoryTotal(txs, TopCategory(txs))
                     ==> LexLess(TopCategory(txs), c)
  {
    var keys := GroupKeys(txs);
    assert txs[0].category in keys;
    var sums := seq(|keys|, i requires 0 <= i < |keys| => CategoryTotal(txs, keys[i]));
    var m := IdxMax(sums);
    assert TopCategory(txs) == keys[m];
    forall c | c in Categories(txs)
      ensures CategoryTotal(txs, c) <= sums[m]
      ensures c != keys[m] && CategoryTotal(txs, c) == sums[m] ==> LexLess(keys[m], c)
    {
      var j :| 0 <= j < |keys| && keys[j] == c;
      FirstMaximumComesFirst(keys, sums, j);
    }
  }

  /** An empty view's top category is "N/A", whatever the labels. */
  lemma EmptyViewNotApplicable()
    ensures TopCategory([]) == "N/A"
  {
  }

  /** "N/A" exactly for an empty view, provided no category is itself named "N/A". */
  lemma TopCategoryNotApplicable(txs: seq<Transaction>)
    requires "N/A" !in Categories(txs)
    ensures TopCategory(txs) == "N/A" <==> txs == []
  {
    if txs != [] {
      TopCategoryIsFirstMaximum(txs);
    }
  }
}
