/**
 A fixed-order character-level Markov model. Training counts, for every
 window of `windowLength` characters in the normalised corpus, how often each
 character follows it, then turns each window's counts into probabilities and
 cumulative probabilities. Generation repeatedly looks up the trailing window
 of the text built so far and appends the character a uniform draw selects.
 The random source is replaced by an explicit sequence of draws in [0, 1),
 one per generated character.
 */
module LanguageModel {
  import opened CharList
  import opened Corpus
  import opened Probabilities
  import opened Sampling
  import opened Text
  import opened Table

  datatype Option<T> = None | Some(value: T)

  /** The number of characters a requested text length generates. */
  function Steps(textLength: int): nat
  {
    if textLength > 0 then textLength else 0
  }

  /** The buffer generation holds after `steps` steps: at step `i` the window
      is the `|initialText|` characters from position `i`, and the draw
      `draws[i]` selects the next character. None when some window looked up
      is not a key (the point where the original fails). */
  function Generated(table: Table, initialText: string, draws: seq<real>, steps: nat): (r: Option<string>)
    requires steps <= |draws|
    ensures r.Some? ==> |r.value| == |initialText| + steps
  {
    if steps == 0 then Some(initialText)
    else match Generated(table, initialText, draws, steps - 1)
      case None => None
      case Some(text) =>
        var window := text[steps - 1..steps - 1 + |initialText|];
        if window in table then Some(text + [Sample(table[window], draws[steps - 1])]) else None
  }

  /** Once a lookup fails, every later buffer is undefined too. */
  lemma {:induction false} GeneratedPrefixDefined(table: Table, initialText: string, draws: seq<real>, j: nat, k: nat)
    requires j <= k <= |draws| && Generated(table, initialText, draws, k).Some?
    ensures Generated(table, initialText, draws, j).Some?
    decreases k - j
  {
    if j < k {
      assert Generated(table, initialText, draws, k - 1).Some?;
      GeneratedPrefixDefined(table, initialText, draws, j, k - 1);
    }
  }

  /** A defined step looks up the window at position `i`, which is the
      buffer's trailing `|initialText|` characters, and appends the character
      the draw selects from it. */
  lemma GeneratedNext(table: Table, initialText: string, draws: seq<real>, i: nat, text: string)
    requires i < |draws| && Generated(table, initialText, draws, i) == Some(text)
    requires Generated(table, initialText, draws, i + 1).Some?
    ensures text[i..i + |initialText|] == text[|text| - |initialText|..]
    ensures text[i..i + |initialText|] in table
    ensures Generated(table, initialText, draws, i + 1)
         == Some(text + [Sample(table[text[i..i + |initialText|]], draws[i])])
  {
  }

  /** Position `initialLength + i` of `text` holds what step `i` appended:
      its window is a key, the draw selects it, and it followed that window in
      some trained corpus. */
  ghost predicate StepAt(table: Table, corpora: seq<string>, n: nat, text: string, initialLength: nat, i: nat, draw: real)
  {
    && initialLength + i < |text|
    && var window := text[i..i + initialLength];
    && window in table
    && text[initialLength + i] == Sample(table[window], draw)
    && AllSuccessors(corpora, n, window, text[initialLength + i]) > 0
  }

  /** A generated buffer starts with the initial text, and each appended
      character is the draw's choice among the successors of its window. */
  lemma {:induction false} GeneratedSteps(table: Table, corpora: seq<string>, n: nat, initialText: string, draws: seq<real>, steps: nat)
    requires SamplesOccur(table, corpora, n)
    requires steps <= |draws| && forall k :: 0 <= k < |draws| ==> 0.0 <= draws[k] < 1.0
    requires Generated(table, initialText, draws, steps).Some?
    ensures Generated(table, initialText, draws, steps).value[..|initialText|] == initialText
    ensures forall i :: 0 <= i < steps ==>
              StepAt(table, corpora, n, Generated(table, initialText, draws, steps).value, |initialText|, i, draws[i])
  {
    var text := Generated(table, initialText, draws, steps).value;
    if steps > 0 {
      var prev := Generated(table, initialText, draws, steps - 1).value;
      GeneratedSteps(table, corpora, n, initialText, draws, steps - 1);
      var window := prev[steps - 1..steps - 1 + |initialText|];
      assert text == prev + [Sample(table[window], draws[steps - 1])];
      assert text[steps - 1..steps - 1 + |initialText|] == window;
      assert StepAt(table, corpora, n, text, |initialText|, steps - 1, draws[steps - 1]);
      forall i | 0 <= i < steps - 1 ensures StepAt(table, corpora, n, text, |initialText|, i, draws[i]) {
        assert StepAt(table, corpora, n, prev, |initialText|, i, draws[i]);
        assert text[i..i + |initialText|] == prev[i..i + |initialText|];
      }
      assert text[..|initialText|] == prev[..|initialText|];
    }
  }

  class LanguageModel {
    /** The map of this model: windows to their character lists. */
    var table: Table

    /** The window length used in this model. */
    const windowLength: nat

    /** Every normalised corpus trained so far, in training order. */
    ghost var corpora: seq<string>

    /** The map is the trained table of the corpora seen so far. */
    ghost predicate Valid()
      reads this
    {
      ValidTable(table, corpora, windowLength)
    }

    /** A model with the given window length and an empty map. */
    constructor (windowLength: nat)
      ensures Valid()
      ensures this.windowLength == windowLength && table == map[] && corpora == []
    {
      this.windowLength := windowLength;
      table := map[];
      corpora := [];
    }

    /** Every key of a valid model is exactly one window long. */
    lemma KeysHaveWindowLength()
      requires Valid()
      ensures forall w :: w in table ==> |w| == windowLength
    {
      forall w | w in table ensures |w| == windowLength {
        CountedWindowLength(corpora, windowLength, w);
      }
    }

    /** Builds the model from a corpus: normalises its line endings, counts
        each window's successors into the map, then recomputes the
        probabilities of every list. Counts add to those of earlier training. */
    method Train(text: string)
      requires Valid()
      modifies this
      ensures Valid()
      ensures corpora == old(corpora) + [Normalize(text)]
      ensures forall w :: w in table <==> w in old(table) || WindowOccurrences(Normalize(text), windowLength, w) > 0
      ensures forall w :: TotalCount(Lookup(table, w))
                == TotalCount(Lookup(old(table), w)) + WindowOccurrences(Normalize(text), windowLength, w)
      ensures forall w, c :: CountOf(Lookup(table, w), c)
                == CountOf(Lookup(old(table), w), c) + Successors(Normalize(text), windowLength, w, c)
    {
      var corpus := Normalize(text);
      ghost var before, trained := table, corpora;
      table := CountWindows(table, corpus, windowLength);
      corpora := corpora + [corpus];
      ghost var counted := table;
      table := CalculateAllProbabilities(table);
      TrainingAddsCounts(before, counted, table, corpus, windowLength);
      TrainingKeepsValid(before, table, trained, corpus, windowLength);
    }

    /** Recomputes the probabilities of every list in the map. */
    method CalculateAllProbabilities(t: Table) returns (r: Table)
      requires forall w :: w in t ==> Counted(t[w])
      ensures r.Keys == t.Keys
      ensures forall w :: w in r ==> Calculated(t[w], r[w]) && Counted(r[w])
    {
      r := t;
      var pending := t.Keys;
      while pending != {}
        invariant pending <= r.Keys && r.Keys == t.Keys
        invariant forall w :: w in pending ==> r[w] == t[w]
        invariant forall w :: w in r && w !in pending ==> Calculated(t[w], r[w]) && Counted(r[w])
        decreases pending
      {
        var w :| w in pending;
        var list := CalculateProbabilities(r[w]);
        SameCountsCounts(r[w], list);
        r := r[w := list];
        pending := pending - {w};
      }
    }

    /** Sums one list's counts, then sets each entry's probability and
        cumulative probability, walking the list in order. */
    method CalculateProbabilities(probs: seq<CharData>) returns (r: seq<CharData>)
      requires TotalCount(probs) > 0
      ensures Calculated(probs, r)
    {
      var totalCount := 0;
      var k := 0;
      while k < |probs|
        invariant 0 <= k <= |probs|
        invariant totalCount == TotalCount(probs[..k])
      {
        assert probs[..k + 1][..k] == probs[..k];
        totalCount := totalCount + probs[k].count;
        k := k + 1;
      }
      assert probs[..|probs|] == probs;
      r := probs;
      r := r[0 := r[0].(p := r[0].count as real / totalCount as real)];
      r := r[0 := r[0].(cp := r[0].p)];
      k := 0;
      while k + 1 < |r|
        invariant 0 <= k < |r| == |probs|
        invariant totalCount == TotalCount(probs) > 0
        invariant SameCounts(probs, r)
        invariant forall j :: 0 <= j <= k ==> r[j].p == probs[j].count as real / totalCount as real
        invariant r[0].cp == r[0].p
        invariant forall j :: 0 < j <= k ==> r[j].cp == r[j - 1].cp + r[j].p
      {
        r := r[k + 1 := r[k + 1].(p := r[k + 1].count as real / totalCount as real)];
        r := r[k + 1 := r[k + 1].(cp := r[k].cp + r[k + 1].p)];
        k := k + 1;
      }
    }

    /** Scans the list for the first entry whose cumulative probability
        reaches the draw; a space when none does. */
    method GetRandomChar(probs: seq<CharData>, draw: real) returns (c: char)
      ensures c == Sample(probs, draw)
    {
      var k := 0;
      while k < |probs|
        invariant 0 <= k <= |probs|
        invariant Sample(probs[k..], draw) == Sample(probs, draw)
      {
        if probs[k].cp >= draw {
          return probs[k].chr;
        }
        assert probs[k..][1..] == probs[k + 1..];
        k := k + 1;
      }
      return ' ';
    }

    /** Extends `initialText` by `textLength` characters. At step `i` the
        window is the `|initialText|` characters from position `i` of the
        buffer; every such window must be a key. */
    method Generate(initialText: string, textLength: int, draws: seq<real>) returns (newText: string)
      requires SamplesOccur(table, corpora, windowLength)
      requires Steps(textLength) <= |draws|
      requires forall k :: 0 <= k < |draws| ==> 0.0 <= draws[k] < 1.0
      requires Generated(table, initialText, draws, Steps(textLength)).Some?
      ensures Generated(table, initialText, draws, Steps(textLength)) == Some(newText)
      ensures |newText| == |initialText| + Steps(textLength)
      ensures newText[..|initialText|] == initialText
      ensures textLength <= 0 ==> newText == initialText
      ensures forall i :: 0 <= i < textLength ==> StepAt(table, corpora, windowLength, newText, |initialText|, i, draws[i])
    {
      newText := initialText;
      var window := initialText;
      var i := 0;
      while i < textLength
        invariant 0 <= i <= Steps(textLength)
        invariant |window| == |initialText|
        invariant Generated(table, initialText, draws, i) == Some(newText)
      {
        window := newText[i..i + |window|];
        GeneratedPrefixDefined(table, initialText, draws, i + 1, Steps(textLength));
        GeneratedNext(table, initialText, draws, i, newText);
        var c := GetRandomChar(table[window], draws[i]);
        newText := newText + [c];
        i := i + 1;
      }
      GeneratedSteps(table, corpora, windowLength, initialText, draws, Steps(textLength));
    }

    /** Generation needs an initial text exactly one window long: otherwise
        the very first lookup fails. */
    lemma InitialTextMustFitWindow(initialText: string, draws: seq<real>, steps: nat)
      requires Valid()
      requires 0 < steps <= |draws|
      requires |initialText| != windowLength
      ensures Generated(table, initialText, draws, steps).None?
    {
      KeysHaveWindowLength();
      assert initialText[0..|initialText|] == initialText;
      if Generated(table, initialText, draws, steps).Some? {
        GeneratedPrefixDefined(table, initialText, draws, 1, steps);
      }
    }
  }
}
