# Character-level Markov language model

This project models `LanguageModel`, a fixed-order character-level Markov model.

**Training.** Training normalises the line endings of a corpus. It then slides a window of `windowLength` characters over the corpus. For every window it keeps a list of `CharData` records, one per character that followed the window. Each record holds the character, how often it followed, its probability `p` and its cumulative probability `cp`. After counting, every list's probabilities are recomputed in list order.

**Sampling and generation.** Sampling returns the first character whose `cp` reaches a uniform draw, or a space when none does. Generation starts from an initial text. At step `i` it looks up the `|initialText|` characters from position `i` of the buffer, samples a successor and appends it.

## Representation

- **Modules.** The modules follow the parts of the algorithm:
  - `Text`: the line-ending normalisation.
  - `CharList`: `CharData` and the two list operations training uses, `addFirst` and `update`.
  - `Corpus`: what training is meant to count, defined directly on the corpus.
  - `Probabilities`: what `calculateProbabilities` computes.
  - `Sampling`: what `getRandomChar` selects.
  - `Table`: the window map and the counting loop of `train` (`CountWindows`, one `Record` per position), and the invariant of a trained map.
  - `LanguageModel`: the class with `train`, `calculateProbabilities`, `getRandomChar` and `generate` as methods, plus the specification of generation.
- **The map.** `CharDataMap` is a field `table: map<string, seq<CharData>>` that the methods reassign.
- **The per-window list.** It is a `seq<CharData>` with one entry per character.
  - `update` inserts an unseen character at an unspecified position (`:|`), so every contract holds whatever position the list uses.
  - `calculateProbabilities` returns the updated list instead of writing the nodes in place.
- **Counts across calls.** `train` adds to the counts of earlier calls, because the map is never cleared. A ghost field `corpora` records every normalised corpus trained so far. The class invariant `Valid()` states that the map is exactly the trained table of those corpora:
  - the keys are the windows that occur with a successor;
  - every count is the number of times its character followed its window;
  - every list has one entry per character, positive counts, and the probabilities of those counts.
- **Probabilities.** `p` and `cp` are exact reals standing in for `double`.
- **Randomness.** `Random.nextDouble()` is replaced by an explicit sequence `draws`: one draw in [0, 1) per generated character.
- **Generation.** The function `Generated` describes generation as a value. It is `None` exactly when some looked-up window is not a key. At that point the original crashes: `CharDataMap.get` returns `null` and `getRandomChar` dereferences it. `Generate` therefore requires the lookups to succeed.

## Model

| member | source | states |
|---|---|---|
| Text.NormalizeIsLineBreaksToSpaces | LanguageModel.java:38 | Three chained replacements: every `"\r\n"`, then every `"\n"`, then every `"\r"` becomes a space. Together they equal a single left-to-right pass that turns a CR LF pair, a lone LF and a lone CR into one space each and keeps every other character. |
| Text.NormalizeRemovesLineBreaks | LanguageModel.java:38 | After normalisation, no `'\n'` or `'\r'` is left. The text never gets longer. A text without line breaks is unchanged. |
| CharList.IndexOf | LanguageModel.java:43 | Stands for the search inside `List.update`, a class that is not part of this model. Returns the position of the first entry for a character, or -1 exactly when no entry has that character. |
| CharList.AddFirst | LanguageModel.java:47-48 | `addFirst(c)` puts a record for `c`, counted once, in front of the list. The count of `c` and the total each grow by one, and the entries of other characters are unchanged. A list with no entry for `c` stays distinct and well formed. |
| CharList.Update | LanguageModel.java:43 | `update(c)` adds one to the count of `c` and leaves every other character's count unchanged. It adds one to the total and keeps the other characters' entries in order. An existing entry for `c` is incremented in place. Without one, a record for `c` counted once is inserted at some position. A distinct list stays distinct and a well-formed list stays well-formed. On an empty list it yields the single record for `c`. |
| CharList.SameCountsCounts | LanguageModel.java:61-76 | Lists with the same characters and counts have the same per-character counts and the same total, and are equally well formed. |
| Table.Record | LanguageModel.java:40-50 | One loop step. The window becomes a key and every other key keeps its list. A new key holds only its first successor, counted once. The window's count for the successor and its total each grow by one, and the window's other entries are unchanged. An existing entry for the successor is incremented in place. Well-formedness is kept. |
| Table.CountWindows | LanguageModel.java:39-51 | The counting loop over every position that has a successor. Afterwards the keys are the earlier keys plus every window of the corpus, each total grows by that window's occurrences, each per-character count grows by its successor occurrences, and every list stays well formed. |
| Table.CountingStep | LanguageModel.java:39-51 | Loop invariant, one step: after recording position `i`, the keys, totals and per-character counts are those before the loop plus the occurrences at positions below `i + 1`, and every list stays well formed. |
| Table.TrainingKeepsValid | LanguageModel.java:39-55 | Adding one corpus's windows and counts to a trained table, with every list's probabilities recomputed, gives the trained table of one more corpus. |
| Table.TrainingAddsCounts | LanguageModel.java:39-55 | After training on a corpus, the keys are the old keys plus the windows of the corpus. Every total and every per-character count is the old one plus the corpus's occurrences. |
| Table.TrainedKeysAreWindows | LanguageModel.java:39-51 | The keys of a trained table are exactly the windows `corpus[i..i+windowLength]` with a successor in some trained corpus. Corpora no longer than the window leave the table empty. |
| Table.TrainedSamplesOccur | LanguageModel.java:39-55 | Every list of a trained table, for every draw below 1, selects a character that followed its window in training. |
| Table.SampledSuccessorOccurs | LanguageModel.java:39-55 | In a trained table, a draw below 1 selects from a window's list a character that followed that window in a trained corpus. |
| Corpus.CountsMeanOccurrences | LanguageModel.java:39-50 | The successor count of `(w, c)` is positive exactly when some position shows `c` right after `w`. The window count of `w` is positive exactly when `w` occurs with a successor. A corpus no longer than the window counts nothing. |
| Corpus.CountedWindowLength | LanguageModel.java:39-40 | Every counted window is exactly `windowLength` characters long. |
| Corpus.AllSuccessorsPositive | LanguageModel.java:35-51 | An accumulated successor count is positive exactly when one trained corpus contributes to it. |
| Corpus.AllWindowOccurrencesPositive | LanguageModel.java:35-51 | An accumulated window count is positive exactly when one trained corpus contributes to it. |
| Probabilities.CumulativeIsPrefixSum | LanguageModel.java:70-75 | Each `cp` is the sum of the `p` values up to and including its entry, that is, the share of the counts up to that entry in the total. |
| Probabilities.ProbabilitiesSumToOne | LanguageModel.java:61-76 | A computed list is non-empty, and its last `cp`, the sum of its `p` values, is 1. |
| Probabilities.CumulativeNonDecreasing | LanguageModel.java:72-75 | `cp` never decreases along the list. |
| Probabilities.ProbabilityBounds | LanguageModel.java:70-75 | Every `p` and `cp` lies in [0, 1], and `p <= cp`. |
| Probabilities.CalculatedUnique | LanguageModel.java:61-76 | The computed `p` and `cp` values are determined by the characters and counts. |
| Probabilities.RecalculationIdempotent | LanguageModel.java:61-76 | Recomputing a computed list yields exactly that list. |
| Sampling.SampleIsFirstQualifying | LanguageModel.java:84-90 | The draw selects the first entry, in list order, whose `cp` reaches it. The result is a space when no entry qualifies. |
| Sampling.SampleInList | LanguageModel.java:84-88 | When the last `cp` reaches the draw, the selected character is that of an entry whose `cp` reaches the draw. |
| Sampling.SampleOfCalculated | LanguageModel.java:80-90 | For a computed list and a draw below 1, the scan stops at an entry whose `cp` reaches the draw and returns its character. It never falls through to the fallback branch. |
| LanguageModel.Generated | LanguageModel.java:101-108 | A defined generation after `steps` steps is `steps` characters longer than the initial text. |
| LanguageModel.GeneratedPrefixDefined | LanguageModel.java:103-105 | If generation succeeds for `k` steps, it succeeds for every shorter run. |
| LanguageModel.GeneratedSteps | LanguageModel.java:102-107 | A generated text starts with the initial text. At each step `i`, the window of `|initialText|` characters from position `i` is a key, the appended character is the draw's choice from its list, and that character followed that window in some trained corpus. |
| LanguageModel.LanguageModel.constructor | LanguageModel.java:28-32 | A new model has the given window length, an empty map and no training, and is valid. |
| LanguageModel.LanguageModel.KeysHaveWindowLength | LanguageModel.java:39-40 | Every key of a valid model is exactly `windowLength` characters long. |
| LanguageModel.LanguageModel.Train | LanguageModel.java:35-56 | After `train`, the model is the trained table of the old corpora plus the normalised corpus. The keys are the old keys plus the corpus's windows with a successor. Every total and every per-character count is the old one plus the corpus's occurrences. |
| LanguageModel.LanguageModel.CalculateAllProbabilities | LanguageModel.java:52-55 | Every list of the map gets its probabilities computed. The keys are unchanged and the lists stay well formed. |
| LanguageModel.LanguageModel.CalculateProbabilities | LanguageModel.java:61-77 | The two loops keep characters and counts. They set `p[k] = count[k] / total`, `cp[0] = p[0]` and `cp[k] = cp[k-1] + p[k]`. |
| LanguageModel.LanguageModel.GetRandomChar | LanguageModel.java:80-91 | The scan returns exactly the character `Sample` selects: the first entry whose `cp` reaches the draw, else a space. |
| LanguageModel.LanguageModel.Generate | LanguageModel.java:101-109 | The loop builds exactly the text `Generated` defines, `max(textLength, 0)` characters longer than the initial text and starting with it. A non-positive length returns the initial text. Each appended character was selected from its window's list and followed that window in training. |
| LanguageModel.LanguageModel.InitialTextMustFitWindow | LanguageModel.java:104-105 | Every key is one window long. So an initial text of any other length makes the first lookup fail whenever at least one character is requested. |

## Left out

- Reading the corpus file (`In`, `readAll`, lines 36-37) is file I/O. `Train` takes the corpus text as a parameter.
- `toString` (lines 112-119) and `main` (lines 121-132) are left out: formatting, argument parsing and printing.
- `java.util.Random` and its seeding (lines 14, 21, 30, 83) are left out. The draws are an explicit parameter. The seeded constructor (lines 19-23) therefore coincides with the unseeded one (lines 28-32).
- `double` rounding is not modelled. `p` and `cp` are exact reals, so the last `cp` is exactly 1.
- LanguageModel.LanguageModel.CalculateProbabilities requires a positive total count. The original would dereference the head of an empty list. Every list training builds has a positive total.
- LanguageModel.LanguageModel.Generate requires every looked-up window to be a key. In the original, a missing key makes `getRandomChar` dereference `null` (line 81). The doc comment at lines 96-97 says the initial text is returned in this case, but the code does not do that, so that behaviour is not modelled.
- LanguageModel.LanguageModel.Generate requires every draw from every list to select a character that occurred after its window (`SamplesOccur`). The original demands nothing here. Every valid model meets this requirement (`Table.TrainedSamplesOccur`).
- `windowLength` is a `nat`. A negative window length makes `substring` throw in the original.
- Strings are sequences of Unicode scalar values. In Java, `length`, `substring` and `charAt` count UTF-16 code units. So a character outside the Basic Multilingual Plane is one `char` here but two Java `char`s (a surrogate pair). The windows and successors Java forms from surrogate halves, and the lone halves `generate` can emit, are not modelled.
- Counts are unbounded integers. A Java `int` overflow of a count or of `totalCount` is not modelled.
- The counting loop of `train` (lines 39-51) is the separate method `Table.CountWindows`, which `Train` calls on the map. Its steps and its order are those of the original.
- The list nodes are not updated in place. The `List`, `Node`, `ListIterator` and `CharData` classes are not part of this model. Their order of entries, and where `update` inserts a new character, are left unspecified.
- `HashMap` iteration order in the recomputation loop (lines 52-55) is not modelled. Keys are taken in an arbitrary order. This is sound because each list is computed independently.
