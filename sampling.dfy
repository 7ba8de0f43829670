/**
 Drawing a successor from one window's list: the first entry, in list order,
 whose cumulative probability reaches the draw; a space when none does.
 */
module Sampling {
  import opened CharList
  import opened Probabilities

  /** The character a draw selects from a list. */
  function Sample(l: seq<CharData>, draw: real): char
  {
    if l == [] then ' '
    else if l[0].cp >= draw then l[0].chr
    else Sample(l[1..], draw)
  }

  /** The draw selects the first entry whose `cp` reaches it, and falls back
      to a space exactly when no entry does. */
  lemma {:induction false} SampleIsFirstQualifying(l: seq<CharData>, draw: real)
    ensures forall k :: 0 <= k < |l| && draw <= l[k].cp && (forall j :: 0 <= j < k ==> l[j].cp < draw)
              ==> Sample(l, draw) == l[k].chr
    ensures (forall k :: 0 <= k < |l| ==> l[k].cp < draw) ==> Sample(l, draw) == ' '
  {
    if l != [] && l[0].cp < draw {
      SampleIsFirstQualifying(l[1..], draw);
      forall k | 0 < k < |l| && draw <= l[k].cp && (forall j :: 0 <= j < k ==> l[j].cp < draw)
        ensures Sample(l, draw) == l[k].chr
      {
        assert l[1..][k - 1] == l[k];
        assert forall j :: 0 <= j < k - 1 ==> l[1..][j].cp < draw by {
          forall j | 0 <= j < k - 1 ensures l[1..][j].cp < draw {
            assert l[1..][j] == l[j + 1];
          }
        }
      }
    }
  }

  /** When the last `cp` reaches the draw, the draw selects the character of
      an entry whose `cp` reaches it, so the fallback branch is not taken. */
  lemma {:induction false} SampleInList(l: seq<CharData>, draw: real)
    requires |l| > 0 && draw <= l[|l| - 1].cp
    ensures exists k :: 0 <= k < |l| && draw <= l[k].cp && Sample(l, draw) == l[k].chr
  {
    if l[0].cp < draw {
      SampleInList(l[1..], draw);
      var k :| 0 <= k < |l[1..]| && draw <= l[1..][k].cp && Sample(l[1..], draw) == l[1..][k].chr;
      assert l[1..][k] == l[k + 1];
    } else {
      assert Sample(l, draw) == l[0].chr;
    }
  }

  /** For a list whose probabilities are computed, every draw in [0, 1)
      selects the character of an entry whose `cp` reaches the draw: the scan
      stops at an entry and never falls through to the fallback branch. */
  lemma SampleOfCalculated(before: seq<CharData>, after: seq<CharData>, draw: real)
    requires Calculated(before, after)
    requires draw < 1.0
    ensures exists k :: 0 <= k < |after| && draw <= after[k].cp && Sample(after, draw) == after[k].chr
  {
    ProbabilitiesSumToOne(before, after);
    SampleInList(after, draw);
  }
}
