/** The transaction-type tagger `detect_type`: a substring test against two fixed
    keyword lists, debit keywords first. */
module Tagger {
  import opened Text

  datatype TxnType = Debit | Credit | Unknown

  const DebitWords: seq<string> := ["debited", "spent", "purchase", "paid", "withdrawal"]
  const CreditWords: seq<string> := ["credited", "received", "refund", "deposit", "salary"]

  /** Some word of `words` occurs in `text`. */
  ghost predicate AnyOccurs(words: seq<string>, text: string) {
    exists k :: 0 <= k < |words| && Occurs(words[k], text)
  }

  /** `any(x in text for x in words)`, trying the words in order. */
  function ContainsAny(text: string, words: seq<string>): (b: bool)
    ensures b <==> AnyOccurs(words, text)
  {
    if words == [] then false
    else
      assert forall k :: 1 <= k < |words| ==> words[1..][k - 1] == words[k];
      Contains(text, words[0]) || ContainsAny(text, words[1..])
  }

  /** `detect_type`: Debit when a debit keyword occurs in the lower-cased text, else
      Credit when a credit keyword does, else Unknown. Debit wins when both do. */
  function DetectType(text: string): (r: TxnType)
    ensures r == Debit <==> AnyOccurs(DebitWords, Lower(text))
    ensures r == Credit <==> !AnyOccurs(DebitWords, Lower(text)) && AnyOccurs(CreditWords, Lower(text))
    ensures r == Unknown <==> !AnyOccurs(DebitWords, Lower(text)) && !AnyOccurs(CreditWords, Lower(text))
  {
    var t := Lower(text);
    if ContainsAny(t, DebitWords) then Debit
    else if ContainsAny(t, CreditWords) then Credit
    else Unknown
  }

  /** Tagging ignores case: the text being lower-cased already changes nothing. */
  lemma DetectTypeIgnoresCase(text: string)
    ensures DetectType(Lower(text)) == DetectType(text)
  {
    LowerIdempotent(text);
  }

  lemma OccursInLonger(w: string, a: string, b: string)
    requires Occurs(w, a)
    ensures Occurs(w, a + b)
  {
    var i: nat :| OccursAt(w, a, i);
    assert (a + b)[i..i + |w|] == a[i..i + |w|];
    assert OccursAt(w, a + b, i);
  }

  /** Appending text to a message can only move its tag towards Debit: a Debit
      message stays Debit and a Credit message becomes Debit or stays Credit. */
  lemma {:induction false} AppendingNeverWeakensTag(a: string, b: string)
    ensures DetectType(a) == Debit ==> DetectType(a + b) == Debit
    ensures DetectType(a) == Credit ==> DetectType(a + b) != Unknown
  {
    assert Lower(a + b) == Lower(a) + Lower(b);
    forall words: seq<string>, k | 0 <= k < |words| && Occurs(words[k], Lower(a))
      ensures Occurs(words[k], Lower(a + b))
    {
      OccursInLonger(words[k], Lower(a), Lower(b));
    }
  }

  lemma LowerDistributes(a: string, b: string)
    ensures Lower(a + b) == Lower(a) + Lower(b)
  {
  }

  lemma DebitWordsAreLower(k: nat)
    requires k < |DebitWords|
    ensures Lower(DebitWords[k]) == DebitWords[k]
  {
  }

  /** A debit keyword anywhere in a message, in any case and whatever surrounds it,
      makes the message a Debit, credit keywords notwithstanding. */
  lemma {:induction false} DebitKeywordAnywhere(before: string, k: nat, after: string)
    requires k < |DebitWords|
    ensures DetectType(before + DebitWords[k] + after) == Debit
  {
    var w := DebitWords[k];
    LowerDistributes(before + w, after);
    LowerDistributes(before, w);
    DebitWordsAreLower(k);
    var t := Lower(before) + w + Lower(after);
    assert t[|before|..|before| + |w|] == w;
    assert OccursAt(w, t, |before|);
  }

  /** Matching is by substring, not by word: "unpaid" contains "paid". */
  lemma UnpaidIsDebit()
    ensures DetectType("unpaid bill") == Debit
  {
    assert "unpaid bill" == "un" + DebitWords[3] + " bill";
    DebitKeywordAnywhere("un", 3, " bill");
  }

  /** A message with both kinds of keyword is a Debit. */
  lemma SalarySpentIsDebit()
    ensures DetectType("salary credited but also spent on groceries") == Debit
  {
    assert "salary credited but also spent on groceries"
      == "salary credited but also " + DebitWords[1] + " on groceries";
    DebitKeywordAnywhere("salary credited but also ", 1, " on groceries");
  }
}
