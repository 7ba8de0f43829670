/**
 What training is meant to count, defined directly on the corpus: for a
 window length `n`, the start positions `i` with `i + n < |s|` each give a
 window `s[i..i+n]` followed by the character `s[i+n]`. Training may be run
 on several corpora in turn, and the counts then add up.
 */
module Corpus {

  /** The number of start positions that have a successor character. */
  function Positions(s: string, n: nat): nat
  {
    if |s| > n then |s| - n else 0
  }

  /** The window starting at `i` is `w` and has a successor character. */
  predicate WindowAt(s: string, n: nat, i: nat, w: string)
  {
    i + n < |s| && s[i..i + n] == w
  }

  /** The window starting at `i` is `w` and the character after it is `c`. */
  predicate SuccessorAt(s: string, n: nat, i: nat, w: string, c: char)
  {
    i + n < |s| && s[i..i + n] == w && s[i + n] == c
  }

  /** Positions `i < k` whose window is `w` and whose successor is `c`. */
  function SuccessorsBelow(s: string, n: nat, k: nat, w: string, c: char): nat
    requires k <= Positions(s, n)
  {
    if k == 0 then 0
    else SuccessorsBelow(s, n, k - 1, w, c)
         + (if SuccessorAt(s, n, k - 1, w, c) then 1 else 0)
  }

  /** Positions `i < k` whose window is `w`. */
  function WindowsBelow(s: string, n: nat, k: nat, w: string): nat
    requires k <= Positions(s, n)
  {
    if k == 0 then 0
    else WindowsBelow(s, n, k - 1, w) + (if WindowAt(s, n, k - 1, w) then 1 else 0)
  }

  /** How often `c` follows the window `w` in `s`. */
  function Successors(s: string, n: nat, w: string, c: char): nat
  {
    SuccessorsBelow(s, n, Positions(s, n), w, c)
  }

  /** How often the window `w` occurs in `s` with a character after it. */
  function WindowOccurrences(s: string, n: nat, w: string): nat
  {
    WindowsBelow(s, n, Positions(s, n), w)
  }

  /** `Successors`, summed over every corpus trained so far. */
  function AllSuccessors(corpora: seq<string>, n: nat, w: string, c: char): nat
  {
    if corpora == [] then 0
    else AllSuccessors(corpora[..|corpora| - 1], n, w, c) + Successors(corpora[|corpora| - 1], n, w, c)
  }

  /** `WindowOccurrences`, summed over every corpus trained so far. */
  function AllWindowOccurrences(corpora: seq<string>, n: nat, w: string): nat
  {
    if corpora == [] then 0
    else AllWindowOccurrences(corpora[..|corpora| - 1], n, w) + WindowOccurrences(corpora[|corpora| - 1], n, w)
  }

  lemma AllSuccessorsSnoc(corpora: seq<string>, s: string, n: nat, w: string, c: char)
    ensures AllSuccessors(corpora + [s], n, w, c) == AllSuccessors(corpora, n, w, c) + Successors(s, n, w, c)
  {
    assert (corpora + [s])[..|corpora|] == corpora;
  }

  lemma AllWindowOccurrencesSnoc(corpora: seq<string>, s: string, n: nat, w: string)
    ensures AllWindowOccurrences(corpora + [s], n, w) == AllWindowOccurrences(corpora, n, w) + WindowOccurrences(s, n, w)
  {
    assert (corpora + [s])[..|corpora|] == corpora;
  }

  /** The successor count is positive exactly when some position below `k`
      shows `c` right after `w`. */
  lemma {:induction false} SuccessorsBelowPositive(s: string, n: nat, k: nat, w: string, c: char)
    requires k <= Positions(s, n)
    ensures SuccessorsBelow(s, n, k, w, c) > 0
        <==> exists i: nat :: i < k && SuccessorAt(s, n, i, w, c)
  {
    if k > 0 {
      SuccessorsBelowPositive(s, n, k - 1, w, c);
    }
  }

  /** The window count is positive exactly when `w` occurs at some position below `k`. */
  lemma {:induction false} WindowsBelowPositive(s: string, n: nat, k: nat, w: string)
    requires k <= Positions(s, n)
    ensures WindowsBelow(s, n, k, w) > 0 <==> exists i: nat :: i < k && WindowAt(s, n, i, w)
  {
    if k > 0 {
      WindowsBelowPositive(s, n, k - 1, w);
    }
  }

  /** `c` is counted after `w` exactly when `c` follows an occurrence of `w`
      in the corpus; `w` is counted exactly when it occurs with a successor.
      A corpus no longer than the window has neither. */
  lemma CountsMeanOccurrences(s: string, n: nat, w: string, c: char)
    ensures Successors(s, n, w, c) > 0
        <==> exists i: nat :: SuccessorAt(s, n, i, w, c)
    ensures WindowOccurrences(s, n, w) > 0 <==> exists i: nat :: WindowAt(s, n, i, w)
    ensures |s| <= n ==> WindowOccurrences(s, n, w) == 0
  {
    SuccessorsBelowPositive(s, n, Positions(s, n), w, c);
    WindowsBelowPositive(s, n, Positions(s, n), w);
  }

  /** Every window with a recorded occurrence is exactly `n` characters long. */
  lemma {:induction false} CountedWindowLength(corpora: seq<string>, n: nat, w: string)
    requires AllWindowOccurrences(corpora, n, w) > 0
    ensures |w| == n
    decreases |corpora|
  {
    var last := corpora[|corpora| - 1];
    if WindowOccurrences(last, n, w) > 0 {
      WindowsBelowPositive(last, n, Positions(last, n), w);
    } else {
      CountedWindowLength(corpora[..|corpora| - 1], n, w);
    }
  }

  /** Counts summed over corpora are positive exactly when one corpus has them. */
  lemma {:induction false} AllSuccessorsPositive(corpora: seq<string>, n: nat, w: string, c: char)
    ensures AllSuccessors(corpora, n, w, c) > 0
        <==> exists j :: 0 <= j < |corpora| && Successors(corpora[j], n, w, c) > 0
    decreases |corpora|
  {
    if corpora != [] {
      var front := corpora[..|corpora| - 1];
      AllSuccessorsPositive(front, n, w, c);
      assert forall j :: 0 <= j < |front| ==> front[j] == corpora[j];
    }
  }

  /** Window counts summed over corpora are positive exactly when one corpus has them. */
  lemma {:induction false} AllWindowOccurrencesPositive(corpora: seq<string>, n: nat, w: string)
    ensures AllWindowOccurrences(corpora, n, w) > 0
        <==> exists j :: 0 <= j < |corpora| && WindowOccurrences(corpora[j], n, w) > 0
    decreases |corpora|
  {
    if corpora != [] {
      var front := corpora[..|corpora| - 1];
      AllWindowOccurrencesPositive(front, n, w);
      assert forall j :: 0 <= j < |front| ==> front[j] == corpora[j];
    }
  }
}
