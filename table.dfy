/**
 The trained table: windows mapped to their character lists, one step of the
 counting loop, and what the table holds once training is done.
 */
module Table {
  import opened CharList
  import opened Corpus
  import opened Probabilities
  import opened Sampling

  /** Windows mapped to the statistics of the characters that follow them. */
  type Table = map<string, seq<CharData>>

  /** A window's list, or the empty list when the window is not a key. */
  function Lookup(table: Table, w: string): seq<CharData>
  {
    if w in table then table[w] else []
  }

  /** One step of the counting loop: the window's list counts `c` once more;
      a window seen for the first time gets a list holding only `c`, counted
      once. Every other window keeps its list. */
  method Record(table: Table, window: string, c: char) returns (r: Table)
    ensures r.Keys == table.Keys + {window}
    ensures forall w :: w in table && w != window ==> r[w] == table[w]
    ensures window !in table ==> r[window] == [NewCharData(c)]
    ensures forall d :: CountOf(r[window], d) == CountOf(Lookup(table, window), d) + (if d == c then 1 else 0)
    ensures TotalCount(r[window]) == TotalCount(Lookup(table, window)) + 1
    ensures window in table ==> Others(r[window], c) == Others(table[window], c)
    ensures window in table && IndexOf(table[window], c) >= 0 ==>
              var k := IndexOf(table[window], c);
              r[window] == table[window][k := table[window][k].(count := table[window][k].count + 1)]
    ensures (window in table ==> Counted(table[window])) ==> Counted(r[window])
  {
    if window in table {
      var list := Update(table[window], c);
      r := table[window := list];
    } else {
      var list := AddFirst([], c);
      r := table[window := list];
    }
  }

  /** What the counting loop keeps after `i` positions of `corpus`: every
      list is well formed, the keys are the earlier keys plus the windows seen,
      and each count is the earlier count plus the occurrences seen. */
  ghost predicate CountedSoFar(before: Table, table: Table, corpus: string, n: nat, i: nat)
    requires i <= Positions(corpus, n)
  {
    && ListsCounted(table)
    && KeysSoFar(before, table, corpus, n, i)
    && TotalsSoFar(before, table, corpus, n, i)
    && CountsSoFar(before, table, corpus, n, i)
  }

  ghost predicate ListsCounted(table: Table)
  {
    forall w :: w in table ==> Counted(table[w])
  }

  ghost predicate KeysSoFar(before: Table, table: Table, corpus: string, n: nat, i: nat)
    requires i <= Positions(corpus, n)
  {
    forall w :: w in table <==> w in before || WindowsBelow(corpus, n, i, w) > 0
  }

  ghost predicate TotalsSoFar(before: Table, table: Table, corpus: string, n: nat, i: nat)
    requires i <= Positions(corpus, n)
  {
    forall w :: TotalCount(Lookup(table, w)) == TotalCount(Lookup(before, w)) + WindowsBelow(corpus, n, i, w)
  }

  ghost predicate CountsSoFar(before: Table, table: Table, corpus: string, n: nat, i: nat)
    requires i <= Positions(corpus, n)
  {
    forall w, c :: CountOf(Lookup(table, w), c) == CountOf(Lookup(before, w), c) + SuccessorsBelow(corpus, n, i, w, c)
  }

  /** The step from position `i` to `i + 1` adds one occurrence of `window`,
      and one of `c` after it, to the counts of the corpus. */
  lemma BelowStep(corpus: string, n: nat, i: nat, window: string, c: char)
    requires i < Positions(corpus, n) && window == corpus[i..i + n] && c == corpus[i + n]
    ensures forall w :: WindowsBelow(corpus, n, i + 1, w) == WindowsBelow(corpus, n, i, w) + (if w == window then 1 else 0)
    ensures forall w, d :: SuccessorsBelow(corpus, n, i + 1, w, d)
              == SuccessorsBelow(corpus, n, i, w, d) + (if w == window && d == c then 1 else 0)
  {
  }

  /** Recording position `i` extends what has been counted to position `i + 1`. */
  lemma CountingStep(before: Table, prev: Table, next: Table, corpus: string, n: nat, i: nat, window: string, c: char)
    requires i < Positions(corpus, n) && window == corpus[i..i + n] && c == corpus[i + n]
    requires CountedSoFar(before, prev, corpus, n, i)
    requires next.Keys == prev.Keys + {window}
    requires forall w :: w in prev && w != window ==> next[w] == prev[w]
    requires forall d :: CountOf(next[window], d) == CountOf(Lookup(prev, window), d) + (if d == c then 1 else 0)
    requires TotalCount(next[window]) == TotalCount(Lookup(prev, window)) + 1
    requires (window in prev ==> Counted(prev[window])) ==> Counted(next[window])
    ensures CountedSoFar(before, next, corpus, n, i + 1)
  {
    ListsStep(prev, next, window);
    KeysStep(before, prev, next, corpus, n, i, window, c);
    TotalsStep(before, prev, next, corpus, n, i, window, c);
    CountsStep(before, prev, next, corpus, n, i, window, c);
  }

  lemma ListsStep(prev: Table, next: Table, window: string)
    requires ListsCounted(prev)
    requires next.Keys == prev.Keys + {window}
    requires forall w :: w in prev && w != window ==> next[w] == prev[w]
    requires (window in prev ==> Counted(prev[window])) ==> Counted(next[window])
    ensures ListsCounted(next)
  {
    forall w | w in next ensures Counted(next[w]) {
      if w != window { assert next[w] == prev[w]; }
    }
  }

  lemma KeysStep(before: Table, prev: Table, next: Table, corpus: string, n: nat, i: nat, window: string, c: char)
    requires i < Positions(corpus, n) && window == corpus[i..i + n] && c == corpus[i + n]
    requires KeysSoFar(before, prev, corpus, n, i)
    requires next.Keys == prev.Keys + {window}
    ensures KeysSoFar(before, next, corpus, n, i + 1)
  {
    BelowStep(corpus, n, i, window, c);
  }

  lemma TotalsStep(before: Table, prev: Table, next: Table, corpus: string, n: nat, i: nat, window: string, c: char)
    requires i < Positions(corpus, n) && window == corpus[i..i + n] && c == corpus[i + n]
    requires TotalsSoFar(before, prev, corpus, n, i)
    requires next.Keys == prev.Keys + {window}
    requires forall w :: w in prev && w != window ==> next[w] == prev[w]
    requires TotalCount(next[window]) == TotalCount(Lookup(prev, window)) + 1
    ensures TotalsSoFar(before, next, corpus, n, i + 1)
  {
    BelowStep(corpus, n, i, window, c);
    forall w ensures TotalCount(Lookup(next, w)) == TotalCount(Lookup(before, w)) + WindowsBelow(corpus, n, i + 1, w) {
      if w != window { assert Lookup(next, w) == Lookup(prev, w); }
    }
  }

  lemma CountsStep(before: Table, prev: Table, next: Table, corpus: string, n: nat, i: nat, window: string, c: char)
    requires i < Positions(corpus, n) && window == corpus[i..i + n] && c == corpus[i + n]
    requires CountsSoFar(before, prev, corpus, n, i)
    requires next.Keys == prev.Keys + {window}
    requires forall w :: w in prev && w != window ==> next[w] == prev[w]
    requires forall d :: CountOf(next[window], d) == CountOf(Lookup(prev, window), d) + (if d == c then 1 else 0)
    ensures CountsSoFar(before, next, corpus, n, i + 1)
  {
    BelowStep(corpus, n, i, window, c);
    forall w, d ensures CountOf(Lookup(next, w), d) == CountOf(Lookup(before, w), d) + SuccessorsBelow(corpus, n, i + 1, w, d) {
      if w != window { assert Lookup(next, w) == Lookup(prev, w); }
    }
  }

  /** The counting loop over one corpus: every position that has a successor
      records its window and that successor. */
  method CountWindows(table: Table, corpus: string, n: nat) returns (r: Table)
    requires ListsCounted(table)
    ensures CountedSoFar(table, r, corpus, n, Positions(corpus, n))
  {
    r := table;
    var i := 0;
    while i < |corpus| - n
      invariant 0 <= i <= Positions(corpus, n)
      invariant CountedSoFar(table, r, corpus, n, i)
    {
      var window := corpus[i..i + n];
      var c := corpus[i + n];
      ghost var prev := r;
      r := Record(r, window, c);
      CountingStep(table, prev, r, corpus, n, i, window, c);
      i := i + 1;
    }
  }

  /** The table trained on `corpora`: every list is non-empty, holds one
      entry per character with positive counts and carries the probabilities
      of those counts; the keys are exactly the windows that occurred with a
      successor; each list's total is the number of those occurrences, and
      each count is the number of times its character followed its window. */
  ghost predicate ValidTable(table: Table, corpora: seq<string>, n: nat)
  {
    && ListsComputed(table)
    && KeysOccur(table, corpora, n)
    && TotalsOccur(table, corpora, n)
    && CountsOccur(table, corpora, n)
  }

  ghost predicate ListsComputed(table: Table)
  {
    forall w :: w in table ==> Counted(table[w]) && Calculated(table[w], table[w])
  }

  ghost predicate KeysOccur(table: Table, corpora: seq<string>, n: nat)
  {
    forall w :: w in table <==> AllWindowOccurrences(corpora, n, w) > 0
  }

  ghost predicate TotalsOccur(table: Table, corpora: seq<string>, n: nat)
  {
    forall w :: TotalCount(Lookup(table, w)) == AllWindowOccurrences(corpora, n, w)
  }

  ghost predicate CountsOccur(table: Table, corpora: seq<string>, n: nat)
  {
    forall w, c :: CountOf(Lookup(table, w), c) == AllSuccessors(corpora, n, w, c)
  }

  /** Recomputing probabilities leaves every count of the table as it was
      and makes every list carry the probabilities of its own counts. */
  lemma RecalculatedTable(counted: Table, final: Table)
    requires final.Keys == counted.Keys
    requires forall w :: w in final ==> Calculated(counted[w], final[w]) && Counted(final[w])
    ensures forall w :: w in final ==> Counted(final[w]) && Calculated(final[w], final[w])
    ensures forall w :: TotalCount(Lookup(final, w)) == TotalCount(Lookup(counted, w))
    ensures forall w, c :: CountOf(Lookup(final, w), c) == CountOf(Lookup(counted, w), c)
  {
    forall w | w in final ensures Calculated(final[w], final[w]) {
      CalculatedIsFixpoint(counted[w], final[w]);
    }
    forall w ensures TotalCount(Lookup(final, w)) == TotalCount(Lookup(counted, w))
      && forall c :: CountOf(Lookup(final, w), c) == CountOf(Lookup(counted, w), c)
    {
      if w in final {
        SameCountsCounts(counted[w], final[w]);
      }
    }
  }

  /** The keys and counts after training are those before it plus what the
      corpus contributes, and every list carries the probabilities of its counts. */
  lemma TrainingAddsCounts(before: Table, counted: Table, final: Table, corpus: string, n: nat)
    requires CountedSoFar(before, counted, corpus, n, Positions(corpus, n))
    requires final.Keys == counted.Keys
    requires forall w :: w in final ==> Calculated(counted[w], final[w]) && Counted(final[w])
    ensures ListsComputed(final)
    ensures forall w :: w in final <==> w in before || WindowOccurrences(corpus, n, w) > 0
    ensures forall w :: TotalCount(Lookup(final, w)) == TotalCount(Lookup(before, w)) + WindowOccurrences(corpus, n, w)
    ensures forall w, c :: CountOf(Lookup(final, w), c) == CountOf(Lookup(before, w), c) + Successors(corpus, n, w, c)
  {
    RecalculatedTable(counted, final);
  }

  /** Adding the counts of one more corpus to a trained table gives the
      table trained on that corpus too. */
  lemma TrainingKeepsValid(before: Table, final: Table, trained: seq<string>, corpus: string, n: nat)
    requires ValidTable(before, trained, n)
    requires ListsComputed(final)
    requires forall w :: w in final <==> w in before || WindowOccurrences(corpus, n, w) > 0
    requires forall w :: TotalCount(Lookup(final, w)) == TotalCount(Lookup(before, w)) + WindowOccurrences(corpus, n, w)
    requires forall w, c :: CountOf(Lookup(final, w), c) == CountOf(Lookup(before, w), c) + Successors(corpus, n, w, c)
    ensures ValidTable(final, trained + [corpus], n)
  {
    KeysAccumulate(before, final, trained, corpus, n);
    TotalsAccumulate(before, final, trained, corpus, n);
    CountsAccumulate(before, final, trained, corpus, n);
  }

  lemma KeysAccumulate(before: Table, final: Table, trained: seq<string>, corpus: string, n: nat)
    requires KeysOccur(before, trained, n)
    requires forall w :: w in final <==> w in before || WindowOccurrences(corpus, n, w) > 0
    ensures KeysOccur(final, trained + [corpus], n)
  {
    forall w ensures w in final <==> AllWindowOccurrences(trained + [corpus], n, w) > 0 {
      AllWindowOccurrencesSnoc(trained, corpus, n, w);
    }
  }

  lemma TotalsAccumulate(before: Table, final: Table, trained: seq<string>, corpus: string, n: nat)
    requires TotalsOccur(before, trained, n)
    requires forall w :: TotalCount(Lookup(final, w)) == TotalCount(Lookup(before, w)) + WindowOccurrences(corpus, n, w)
    ensures TotalsOccur(final, trained + [corpus], n)
  {
    forall w ensures TotalCount(Lookup(final, w)) == AllWindowOccurrences(trained + [corpus], n, w) {
      AllWindowOccurrencesSnoc(trained, corpus, n, w);
    }
  }

  lemma CountsAccumulate(before: Table, final: Table, trained: seq<string>, corpus: string, n: nat)
    requires CountsOccur(before, trained, n)
    requires forall w, c :: CountOf(Lookup(final, w), c) == CountOf(Lookup(before, w), c) + Successors(corpus, n, w, c)
    ensures CountsOccur(final, trained + [corpus], n)
  {
    forall w, c ensures CountOf(Lookup(final, w), c) == AllSuccessors(trained + [corpus], n, w, c) {
      AllSuccessorsSnoc(trained, corpus, n, w, c);
    }
  }

  /** In a trained table, a draw in [0, 1) always selects a character that
      followed the window in some trained corpus. */
  lemma SampledSuccessorOccurs(table: Table, corpora: seq<string>, n: nat, w: string, draw: real)
    requires ValidTable(table, corpora, n)
    requires w in table && draw < 1.0
    ensures AllSuccessors(corpora, n, w, Sample(table[w], draw)) > 0
  {
    var l := table[w];
    assert ListsComputed(table);
    SampleOfCalculated(l, l, draw);
    var k :| 0 <= k < |l| && Sample(l, draw) == l[k].chr;
    CountOfAtLeast(l, k);
    assert CountsOccur(table, corpora, n);
    assert Lookup(table, w) == l;
  }

  /** Every draw in [0, 1) selects, from every list, a character that
      followed that list's window in some corpus. */
  ghost predicate SamplesOccur(table: Table, corpora: seq<string>, n: nat)
  {
    forall w, draw :: w in table && draw < 1.0 ==> AllSuccessors(corpora, n, w, Sample(table[w], draw)) > 0
  }

  lemma TrainedSamplesOccur(table: Table, corpora: seq<string>, n: nat)
    requires ValidTable(table, corpora, n)
    ensures SamplesOccur(table, corpora, n)
  {
    forall w, draw | w in table && draw < 1.0
      ensures AllSuccessors(corpora, n, w, Sample(table[w], draw)) > 0
    {
      SampledSuccessorOccurs(table, corpora, n, w, draw);
    }
  }

  /** The keys of a trained table are exactly the windows that occur, with a
      character after them, in some trained corpus; corpora no longer than
      the window leave the table empty. */
  lemma TrainedKeysAreWindows(table: Table, corpora: seq<string>, n: nat)
    requires ValidTable(table, corpora, n)
    ensures forall w :: w in table <==> exists j: nat, i: nat :: j < |corpora| && WindowAt(corpora[j], n, i, w)
    ensures (forall j :: 0 <= j < |corpora| ==> |corpora[j]| <= n) ==> table == map[]
  {
    assert KeysOccur(table, corpora, n);
    forall w ensures w in table <==> exists j: nat, i: nat :: j < |corpora| && WindowAt(corpora[j], n, i, w) {
      AllWindowOccurrencesPositive(corpora, n, w);
      forall j | 0 <= j < |corpora| {
        CountsMeanOccurrences(corpora[j], n, w, ' ');
      }
    }
    if forall j :: 0 <= j < |corpora| ==> |corpora[j]| <= n {
      assert table.Keys == {};
    }
  }
}
