/**
 The probabilities of one window's list: every entry's `p` is its share of the
 window's total count, and `cp` accumulates the `p` values in list order.
 `double` arithmetic is abstracted by exact reals.
 */
module Probabilities {
  import opened CharList

  /** `after` is `before` with its probabilities computed: characters and
      counts are kept, `p[k] = count[k] / total`, `cp[0] = p[0]` and
      `cp[k] = cp[k-1] + p[k]`. */
  predicate Calculated(before: seq<CharData>, after: seq<CharData>)
  {
    && SameCounts(before, after)
    && TotalCount(before) > 0
    && (forall k :: 0 <= k < |after| ==> after[k].p == before[k].count as real / TotalCount(before) as real)
    && (|after| > 0 ==> after[0].cp == after[0].p)
    && (forall k :: 0 < k < |after| ==> after[k].cp == after[k - 1].cp + after[k].p)
  }

  /** The sum of the `p` values, accumulated in list order. */
  function SumP(l: seq<CharData>): real
  {
    if l == [] then 0.0 else SumP(l[..|l| - 1]) + l[|l| - 1].p
  }

  lemma DivideSum(a: real, b: real, t: real)
    requires t > 0.0
    ensures a / t + b / t == (a + b) / t
  {
  }

  lemma DivideSelf(t: real)
    requires t > 0.0
    ensures t / t == 1.0
  {
  }

  /** Each `cp` is the sum of the `p` values up to and including its entry,
      that is, the share of the counts up to that entry. */
  lemma {:induction false} CumulativeIsPrefixSum(before: seq<CharData>, after: seq<CharData>, k: nat)
    requires Calculated(before, after) && k < |after|
    ensures after[k].cp == SumP(after[..k + 1])
    ensures after[k].cp == TotalCount(before[..k + 1]) as real / TotalCount(before) as real
  {
    var total := TotalCount(before) as real;
    assert after[..k + 1][..k] == after[..k];
    assert before[..k + 1][..k] == before[..k];
    assert SumP(after[..k + 1]) == SumP(after[..k]) + after[k].p;
    assert TotalCount(before[..k + 1]) == TotalCount(before[..k]) + before[k].count;
    assert after[k].p == before[k].count as real / total;
    if k == 0 {
      assert after[..0] == [] && before[..0] == [];
    } else {
      CumulativeIsPrefixSum(before, after, k - 1);
      assert after[k].cp == after[k - 1].cp + after[k].p;
      DivideSum(TotalCount(before[..k]) as real, before[k].count as real, total);
    }
  }

  /** Every window's probabilities add up to one, and the last `cp` is that sum. */
  lemma ProbabilitiesSumToOne(before: seq<CharData>, after: seq<CharData>)
    requires Calculated(before, after)
    ensures |after| > 0
    ensures after[|after| - 1].cp == SumP(after) == 1.0
  {
    var last := |after| - 1;
    CumulativeIsPrefixSum(before, after, last);
    assert after[..last + 1] == after;
    assert before[..last + 1] == before;
    DivideSelf(TotalCount(before) as real);
  }

  lemma {:induction false} CumulativeStep(before: seq<CharData>, after: seq<CharData>, i: nat, j: nat)
    requires Calculated(before, after) && i <= j < |after|
    ensures after[i].cp <= after[j].cp
    decreases j - i
  {
    if i < j {
      CumulativeStep(before, after, i, j - 1);
      assert after[j].p >= 0.0;
    }
  }

  /** `cp` never decreases along the list. */
  lemma CumulativeNonDecreasing(before: seq<CharData>, after: seq<CharData>)
    requires Calculated(before, after)
    ensures forall i, j :: 0 <= i <= j < |after| ==> after[i].cp <= after[j].cp
  {
    forall i, j | 0 <= i <= j < |after| ensures after[i].cp <= after[j].cp {
      CumulativeStep(before, after, i, j);
    }
  }

  /** Every `p` and every `cp` lies in [0, 1], and `p <= cp`. */
  lemma ProbabilityBounds(before: seq<CharData>, after: seq<CharData>)
    requires Calculated(before, after)
    ensures forall k :: 0 <= k < |after| ==>
              0.0 <= after[k].p <= after[k].cp <= 1.0
  {
    ProbabilitiesSumToOne(before, after);
    CumulativeNonDecreasing(before, after);
    forall k | 0 <= k < |after| ensures 0.0 <= after[k].p <= after[k].cp <= 1.0 {
      assert after[k].p >= 0.0;
      if k > 0 {
        assert after[k - 1].cp >= after[0].cp >= 0.0;
      }
    }
  }

  /** The computed probabilities are determined by the characters and counts. */
  lemma CalculatedUnique(before: seq<CharData>, r1: seq<CharData>, r2: seq<CharData>)
    requires Calculated(before, r1) && Calculated(before, r2)
    ensures r1 == r2
  {
    forall k | 0 <= k < |r1| ensures r1[k] == r2[k] {
      CumulativeIsPrefixSum(before, r1, k);
      CumulativeIsPrefixSum(before, r2, k);
    }
  }

  /** A computed list already carries the probabilities of its own counts. */
  lemma CalculatedIsFixpoint(before: seq<CharData>, after: seq<CharData>)
    requires Calculated(before, after)
    ensures Calculated(after, after)
  {
    SameCountsCounts(before, after);
  }

  /** Recomputing on an already computed list reproduces it exactly. */
  lemma RecalculationIdempotent(before: seq<CharData>, after: seq<CharData>)
    requires Calculated(before, after)
    ensures Calculated(after, after)
    ensures forall again :: Calculated(after, again) ==> again == after
  {
    CalculatedIsFixpoint(before, after);
    forall again | Calculated(after, again) ensures again == after {
      CalculatedUnique(after, after, again);
    }
  }
}
