# CTC character decoder, modelled in Dafny

This project models the character-level CTC (Connectionist Temporal
Classification) decoder `CTCCharTextEncoder` of `first_asr_steps`. It covers
four parts of the decoder:

- **Vocabulary** (module `Vocabulary`). The blank `^` sits at index 0, and
  the alphabet follows it in order. The two tables `ind2char` and `char2ind`
  are built from this vocabulary when the encoder is constructed.
- **Greedy collapse, `ctc_decode`** (modules `PathCollapse` and
  `TextEncoder`). A path of per-timestep indices becomes a text: a symbol is
  kept when it differs from the raw symbol before it and is not the blank.
  The collapse is defined once as "merge runs, then delete blanks"
  (`Collapse`). The one-pass rule of the source is proved to compute it. The
  method `TextEncoder.CtcDecode` keeps the source's loop and is proved
  against `Collapse`.
- **Beam search, `ctc_beam_search`** (modules `Dicts`, `Beams` and
  `TextEncoder`). A dict maps beam keys `(text, last raw symbol)` to
  probability mass. Each timestep runs two operations:
  - `extend_and_merge` extends every key by every symbol and adds up the
    masses that land on one key;
  - `cut_beams` keeps the `beam_size` most probable keys.

  At the end the keys are merged by text and ranked by descending
  probability.
  - Python dicts are lists of (key, mass) items in insertion order (module
    `Dicts`).
  - `sorted` is a stable descending insertion sort, so ties break exactly as
    in Python.
  - The methods `TextEncoder.ExtendAndMergeStep` and
    `TextEncoder.CtcBeamSearch` keep the source's nested loops and are
    proved equal to the pure definitions of module `Beams`.
- **Brute-force reference** (modules `BruteForce` and `Equivalence`). The
  test's `brute_force` enumerates every raw path, collapses it and sums the
  probability per text. The main theorem,
  `Equivalence.NoPruningMatchesBruteForce`, compares it with the beam search.
  With a beam of at least `|vocab|^T` entries (`T` timesteps), the beam
  search ranks the same texts with the same probabilities as the
  enumeration of the paths of length `T`. The key step is
  `Beams.KeyOfCollapse`: the key reached along a raw path is the path's
  collapsed text together with its last raw symbol.

Two modules of worked examples evaluate the model on concrete inputs:

- `Examples` evaluates the collapse rule.
- `CatExample` evaluates the first beam search test: vocabulary `^cat`, two
  timesteps, beam width 3.

Probabilities are exact `real`s. Every product of masses goes through
`Dicts.Mul`.

`ctc_decode` checks the first INDEX for 0 rather than the first symbol for
the blank. The model keeps this detail as `TextEncoder.LeadingBlank`. It only
matters for an alphabet that itself contains `^`. For a blank-free alphabet,
`TextEncoder.CtcDecode` returns exactly `Collapse` of the raw symbols.

## Model

| member | source | states |
|---|---|---|
| Vocabulary.NewEncoder | src/text_encoder/ctc_char_text_encoder.py:17-21 | Constructing an encoder gives tables that are the index map and its inversion over `[^] + alphabet` |
| Vocabulary.EncoderLayout | src/text_encoder/ctc_char_text_encoder.py:19-20 | `ind2char` has exactly the indices `0..|alphabet|`, so its size is `|alphabet| + 1`; index 0 holds `^` and index `i` holds `alphabet[i-1]` |
| Vocabulary.IndexMapFacts | src/text_encoder/ctc_char_text_encoder.py:20 | `dict(enumerate(vocab))` has exactly the indices `0..n-1`, each mapped to its symbol |
| Vocabulary.SymbolAt | src/text_encoder/ctc_char_text_encoder.py:20 | Every vocabulary index is a key of `ind2char`, and it maps to the symbol at that index |
| Vocabulary.InvertFacts | src/text_encoder/ctc_char_text_encoder.py:21 | `char2ind` holds exactly the vocabulary's characters; each maps to the LAST index holding it, because later entries of the comprehension overwrite earlier ones |
| Vocabulary.CharRoundTrip | src/text_encoder/ctc_char_text_encoder.py:20-21 | `char2ind` is defined exactly on the vocabulary, and `ind2char[char2ind[c]] == c` for each of its characters |
| Vocabulary.IndexRoundTrip | src/text_encoder/ctc_char_text_encoder.py:19-21 | `char2ind[ind2char[i]] == i` holds for every index if and only if the vocabulary has no repeated symbol |
| Vocabulary.DistinctVocab | src/text_encoder/ctc_char_text_encoder.py:15-19 | The vocabulary has no repeated symbol if and only if the alphabet has none and does not contain `^` |
| PathCollapse.StripBlanksFacts | src/text_encoder/ctc_char_text_encoder.py:62 | `replace('^', '')` leaves no blank, never lengthens the text, and changes nothing in a blank-free text |
| PathCollapse.CollapseSnoc | src/text_encoder/ctc_char_text_encoder.py:27-31 | A new raw symbol extends the collapsed text exactly when it differs from the previous raw symbol (the blank before the first) and is not the blank |
| PathCollapse.CollapseBounds | src/text_encoder/ctc_char_text_encoder.py:23-32 | A collapsed text holds no blank and is never longer than its path |
| PathCollapse.OnePassCollapse | src/text_encoder/ctc_char_text_encoder.py:25-31 | On every prefix, the one-pass keep-or-drop rule gives the same text as merging runs and then deleting blanks |
| TextEncoder.DecodeFirst | src/text_encoder/ctc_char_text_encoder.py:24-26 | After the first index is read, `res` is the collapse of the first raw symbol, plus the leading `^` when the index is nonzero but stands for `^` |
| TextEncoder.DecodeNext | src/text_encoder/ctc_char_text_encoder.py:27-31 | One pass of the loop turns the collapse of the first `i` raw symbols into the collapse of the first `i + 1` |
| TextEncoder.DecodeBounds | src/text_encoder/ctc_char_text_encoder.py:23-32 | The decoded text is never longer than the index list; for an alphabet without `^` it has no leading blank and holds no blank |
| TextEncoder.CtcDecode | src/text_encoder/ctc_char_text_encoder.py:23-32 | Fails on the empty list (IndexError) and at the first index that is not a key (KeyError), and succeeds if and only if every index is a key. On success it returns the collapse of the raw symbols: no longer than the list, and without blanks for a blank-free alphabet |
| TextEncoder.IndicesChars | src/tests/test_text_encoder.py:16-17 | For any text over the vocabulary, encoding it with `char2ind` and reading it back with `ind2char` gives the text again. For an alphabet without `^` and a non-empty text, `ctc_decode`'s result on the encoded text (no leading `^`, then the collapse) is the collapse of the text itself |
| TextEncoder.ExtendAndMergeStep | src/text_encoder/ctc_char_text_encoder.py:56-64 | The nested loops with `new_dp[...] += prob * char_prob` compute exactly `Beams.ExtendAndMerge` of the states and the row |
| TextEncoder.CtcBeamSearch | src/text_encoder/ctc_char_text_encoder.py:34-54 | Fails exactly when the row width differs from the vocabulary size; otherwise the timestep loop and the `hypos` loop return `Beams.BeamSearch` |
| TextEncoder.CtcBeamSearchDefault | src/text_encoder/ctc_char_text_encoder.py:34-35 | Called without a width, the search uses `beam_size = 100`: it fails exactly on a width mismatch and otherwise returns `Beams.BeamSearch` with width 100 |
| Beams.StepFacts | src/text_encoder/ctc_char_text_encoder.py:61-62 | A step's last symbol is the new symbol, and its text holds no blank and grows by at most one symbol. From a blank-free text, it appends `c` exactly when `c` differs from the last raw symbol and is not the blank |
| Beams.KeyOfCollapse | src/text_encoder/ctc_char_text_encoder.py:58-63 | The key reached along any raw path from `('', '^')` is (the path's collapsed text, its last raw symbol) |
| Beams.MergeRowSnoc | src/text_encoder/ctc_char_text_encoder.py:59-63 | One more symbol of the inner loop adds `prob * char_prob` to the key that symbol reaches, in the dict built so far |
| Beams.CandidatesSnoc | src/text_encoder/ctc_char_text_encoder.py:58-59 | One more state of the outer loop contributes its row of extensions after all earlier ones |
| Beams.CandidatesLength | src/text_encoder/ctc_char_text_encoder.py:58-59 | One timestep accumulates exactly `|dp| * |row|` (key, mass) pairs |
| Beams.RowKeys | src/text_encoder/ctc_char_text_encoder.py:59-61 | The keys of one state's extensions are exactly its steps by the symbols of the row |
| Beams.CandidatesKeys | src/text_encoder/ctc_char_text_encoder.py:58-61 | A key is reached in one timestep if and only if it is a step of some old key by some symbol of the row |
| Beams.CandidatesWSum | src/text_encoder/ctc_char_text_encoder.py:58-63 | Weighted by any weight on new keys, the pairs of a timestep weigh as much as the old states under the induced weight: each state passes its mass to its successors in proportion to the row |
| Beams.CandidatesSameMass | src/text_encoder/ctc_char_text_encoder.py:58-63 | States that carry the same mass on every key produce pairs that carry the same mass on every key |
| Beams.CandidatesSameKeys | src/text_encoder/ctc_char_text_encoder.py:58-61 | States with the same keys produce pairs with the same keys |
| Beams.ExtendAndMergeKeys | src/text_encoder/ctc_char_text_encoder.py:56-64 | `extend_and_merge` returns a dict, with no key repeated, whose keys are exactly the successors of the old keys |
| Beams.ExtendAndMergeKey | src/text_encoder/ctc_char_text_encoder.py:56-64 | A key is in the new dict if and only if it is a successor of an old key |
| Beams.ExtendAndMergeMass | src/text_encoder/ctc_char_text_encoder.py:57-63 | Each new key's mass is the sum, over old states, of the state's mass times the probability of the symbols that take it there. Masses accumulate and are never overwritten |
| Beams.ExtendAndMergeTotal | src/text_encoder/ctc_char_text_encoder.py:57-63 | Total mass after a timestep = total mass before it × the row sum |
| Beams.ExtendAndMergeWSum | src/text_encoder/ctc_char_text_encoder.py:56-64 | Under any weight on keys, the new dict weighs what the old states weigh under the induced weight |
| Beams.CutBeamsFacts | src/text_encoder/ctc_char_text_encoder.py:66-69 | `cut_beams` returns items of the input with unchanged masses, in descending order. It keeps `min(beam_size, |dp|)` items for a non-negative width, and all of them, sorted, when the width covers the dict |
| Beams.CutBeamsDropsLeast | src/text_encoder/ctc_char_text_encoder.py:68 | Every dropped item is at most as probable as every kept item |
| Beams.CutBeamsKeys | src/text_encoder/ctc_char_text_encoder.py:68-69 | Cutting keeps only keys the input had, and keeps a dict a dict |
| Beams.ProjectWSum | src/text_encoder/ctc_char_text_encoder.py:49-50 | Dropping the last symbol keeps the weight of the states under any weight on texts |
| Beams.ProjectSameMass | src/text_encoder/ctc_char_text_encoder.py:49-50 | States of equal mass per key give texts of equal mass per text |
| Beams.ProjectKeys | src/text_encoder/ctc_char_text_encoder.py:49-50 | The texts after dropping the last symbols are exactly the texts of the keys |
| Beams.ProjectSameKeys | src/text_encoder/ctc_char_text_encoder.py:49-50 | States with the same keys give the same texts |
| Beams.BeamSearchRanked | src/text_encoder/ctc_char_text_encoder.py:48-54 | The hypotheses have pairwise distinct texts and are sorted by descending probability |
| Beams.BeamSearchMass | src/text_encoder/ctc_char_text_encoder.py:48-52 | Each hypothesis's probability is the summed mass of the surviving states that carry its text |
| Beams.BeamSearchTexts | src/text_encoder/ctc_char_text_encoder.py:48-52 | A text is a hypothesis if and only if some surviving state carries it |
| Beams.BeamStatesNonNegative | src/text_encoder/ctc_char_text_encoder.py:42-45 | With a table of non-negative probabilities, every beam state after every timestep carries a non-negative mass |
| Beams.BeamSearchNonNegative | src/text_encoder/ctc_char_text_encoder.py:42-54 | With a table of non-negative probabilities, every returned hypothesis has a non-negative probability |
| Beams.CandidatesNonNegative | src/text_encoder/ctc_char_text_encoder.py:58-63 | Non-negative states and a non-negative row give non-negative products `prob * char_prob` |
| Beams.BeamSearchNoSteps | src/text_encoder/ctc_char_text_encoder.py:42-54 | With zero timesteps the result is exactly `[Hypothesis('', 1.0)]` |
| Dicts.AddMassLookup | src/text_encoder/ctc_char_text_encoder.py:63 | `d[k] += x` adds `x` to `d[k]` and leaves every other key's value alone |
| Dicts.AddMassShape | src/text_encoder/ctc_char_text_encoder.py:63 | `d[k] += x` makes `k` a key, grows the dict by one only for a new key, and keeps it a dict |
| Dicts.AddMassFresh | src/text_encoder/ctc_char_text_encoder.py:63 | `d[k] += x` appends a new key last: dicts keep insertion order |
| Dicts.MergeShape | src/text_encoder/ctc_char_text_encoder.py:57-63 | Accumulating pairs gives a dict over exactly their keys, never longer than the list of pairs |
| Dicts.MergeLookup | src/text_encoder/ctc_char_text_encoder.py:57-63 | Each key of the accumulated dict looks up to the total mass of the pairs that carry it |
| Dicts.MergeMass | src/text_encoder/ctc_char_text_encoder.py:48-50 | Accumulating into a `defaultdict(float)` keeps the mass on every key |
| Dicts.LookupIsMass | src/text_encoder/ctc_char_text_encoder.py:50 | In a dict, `d[k]` is the whole mass carried under `k` |
| Dicts.MergeNonNegative | src/text_encoder/ctc_char_text_encoder.py:57-63 | Accumulating non-negative masses into a `defaultdict(float)` gives non-negative values |
| Dicts.PrefixSortNonNegative | src/text_encoder/ctc_char_text_encoder.py:68 | Sorting and then slicing keep masses non-negative, because they keep only items of the input |
| Dicts.InsertDescAt | src/text_encoder/ctc_char_text_encoder.py:54 | Stable insertion puts an item after every item at least as heavy and before the first lighter one |
| Dicts.InsertDescStable | src/text_encoder/ctc_char_text_encoder.py:54 | Inserting into a sorted list appends the item after every earlier item of the same mass |
| Dicts.SortDescPerm | src/text_encoder/ctc_char_text_encoder.py:68 | `sorted(..., reverse=True)` is sorted descending by mass and is a permutation of its input |
| Dicts.SortDescStable | src/text_encoder/ctc_char_text_encoder.py:68 | The sort is stable: the items of each mass keep their original order |
| Dicts.SortDescKeys | src/text_encoder/ctc_char_text_encoder.py:68-69 | The sort keeps the keys and keeps a dict a dict |
| Dicts.SortDescMass | src/text_encoder/ctc_char_text_encoder.py:54 | The sort keeps the mass on every key |
| Dicts.PyPrefixFacts | src/text_encoder/ctc_char_text_encoder.py:68 | `s[:n]` is a prefix of `s`; it has `min(n, |s|)` items for `n >= 0`, and is all of `s` when `n >= |s|` |
| Dicts.RankingUnique | src/tests/test_text_encoder.py:51-55 | Two descending dicts with the same keys and values are equal lists once the masses of one of them are pairwise distinct |
| BruteForce.IndexOf | src/tests/test_text_encoder.py:63 | `vocab.index(c)` is a position holding `c`, and no earlier position holds `c` |
| BruteForce.IndexOfDistinct | src/tests/test_text_encoder.py:63 | In a vocabulary without repeats, `vocab.index(vocab[j]) == j` |
| BruteForce.AppendedMember | src/tests/test_text_encoder.py:60 | The one-symbol extensions of `p` are exactly the strings `p + [c]` with `c` in the vocabulary |
| BruteForce.ExtensionsMember | src/tests/test_text_encoder.py:60 | The extensions of a list of paths are exactly its paths followed by one vocabulary symbol |
| BruteForce.ExtensionsLength | src/tests/test_text_encoder.py:60 | Extending a list of paths multiplies its length by `|vocab|` |
| BruteForce.AllPathsShape | src/tests/test_text_encoder.py:60 | `product(vocab, repeat=t)` yields `|vocab|^t` paths; a string is among them if and only if it has length `t` and uses only vocabulary symbols |
| BruteForce.AllPathsLength | src/tests/test_text_encoder.py:60 | There are `|vocab|^t` paths of length `t` |
| BruteForce.AllPathsMember | src/tests/test_text_encoder.py:60 | A string is an enumerated path if and only if it has length `t` and uses only vocabulary symbols |
| BruteForce.PathProbStep | src/tests/test_text_encoder.py:61-63 | Symbol `j` at the next timestep multiplies the path probability by `probs[t][j]` |
| BruteForce.PathProbStepWeights | src/tests/test_text_encoder.py:61-63 | Path probabilities step by the table row of the path's length, for every symbol |
| BruteForce.KeyedAppended | src/text_encoder/ctc_char_text_encoder.py:58-63 | The keyed one-symbol extensions of a path are exactly the row one timestep of `extend_and_merge` produces from the path's key and weight |
| BruteForce.KeyedExtensions | src/text_encoder/ctc_char_text_encoder.py:58-63 | Enumerating one step further, keyed, is exactly the list of pairs one timestep of `extend_and_merge` accumulates |
| BruteForce.KeyedAppend | src/tests/test_text_encoder.py:60-65 | Keying paths distributes over concatenating path lists |
| BruteForce.ProjectKeyed | src/tests/test_text_encoder.py:64-65 | Dropping the last symbol of each keyed path gives the test's list of `(ctc_decode(path), combination_prob)` pairs |
| Equivalence.AllPathsStepWeights | src/tests/test_text_encoder.py:61-63 | The probabilities of the paths of length `t` step by row `t` of the table |
| Equivalence.StepMatches | src/text_encoder/ctc_char_text_encoder.py:43-45 | A timestep that prunes nothing takes states matching the keyed paths to states matching the keyed extended paths: same keys, same mass per key |
| Equivalence.Unpruned | src/text_encoder/ctc_char_text_encoder.py:42-45 | With a beam of at least `|vocab|^t`, the states after `t` timesteps are the keys of the paths of length `t`, each carrying the total probability of the paths that reach it |
| Equivalence.RankedTextsAgree | src/text_encoder/ctc_char_text_encoder.py:48-54 | Two state dicts with the same keys and the same mass per key rank the same texts with the same probabilities |
| Equivalence.NoPruningMatchesBruteForce | src/text_encoder/ctc_char_text_encoder.py:42-54 | With a beam of at least `|vocab|^T`, beam search and the brute-force reference rank the same texts with the same probabilities; each probability is the sum over all raw paths of length `T` that collapse to that text |
| Equivalence.NoPruningSameRanking | src/tests/test_text_encoder.py:51-55 | When the reference has no two equal probabilities, the unpruned beam search returns exactly the reference ranking |
| Findings.BlankPaths | src/tests/test_text_encoder.py:60 | Over the vocabulary `^`, there is one path of each length, made only of blanks |
| Findings.BlankOutcomes | src/tests/test_text_encoder.py:60-69 | Under the table `[[1.0], [0.5]]`, both blank paths decode to `''`, with weights 1.0 (length 1) and 0.5 (length 2) |
| Findings.ReferenceLengthMismatch | src/tests/test_text_encoder.py:60 | On that table the as-written reference gives `[('', 1.0)]`, the corrected reference gives `[('', 0.5)]`, and the two differ |
| Findings.BeamSearchDisagreesWithTest | src/tests/test_text_encoder.py:45-49 | On that table beam search returns `[('', 0.5)]`, which differs from the reference the test compares it with |
| Examples.CollapseRun | src/text_encoder/ctc_char_text_encoder.py:27-31 | `aa` collapses to `a` |
| Examples.CollapseSeparated | src/text_encoder/ctc_char_text_encoder.py:27-31 | `a^a` collapses to `aa` |
| Examples.CollapseStretch | src/tests/test_text_encoder.py:13-18 | The stretch `sss^hhh^` of the test sentence collapses to `sh` |
| CatExample.FirstMerged | src/tests/test_text_encoder.py:24-26 | At the first timestep of the `^cat` test, `extend_and_merge` of the start state gives `''`: 0.0, `c`: 0.3, `a`: 0.5, `t`: 0.2, in that order |
| CatExample.SecondMerged | src/tests/test_text_encoder.py:24-26 | At the second timestep, `extend_and_merge` gives the nine pairs of the test's comment plus three zero-mass keys ending in the blank, twelve keys in insertion order, with masses such as `at`: 0.2, `ac`: 0.15, `a` (from `aa`): 0.15, and `ct`: 0.12 |
| CatExample.FirstState | src/tests/test_text_encoder.py:24-28 | After the first timestep of the `^cat` test with width 3, the states are `c`: 0.3, `a`: 0.5, `t`: 0.2, with `a` first |
| CatExample.SecondState | src/tests/test_text_encoder.py:24-28 | After the second timestep the three kept states are `at`: 0.2, `ac`: 0.15, `a`: 0.15 |
| CatExample.BeamSearchCat | src/tests/test_text_encoder.py:20-38 | The `^cat` test's beam search returns exactly `at`: 0.2, `ac`: 0.15, `a`: 0.15, the values the test asserts |

## Left out

- Tensors and floating point are not modelled. Probabilities are exact
  `real`s, and the table is a `seq<seq<real>>`. The test's `assertEqual`
  checks and its `delta=1e-7` tolerance become exact equalities.
- The base class `CharTextEncoder` is not part of this model, and neither is
  its default alphabet. The alphabet is a parameter. Distinct symbols and no
  `^` are needed only where stated: the round trips and the brute-force
  comparison.
- The assertion `len(probs.shape) == 2` is not modelled: a table is a
  sequence of rows by construction. A torch tensor is rectangular, so
  `Rectangular(probs, vocSize)` is a precondition.
- TextEncoder.ExtendAndMergeStep: requires the row to be no longer than the
  vocabulary. A longer row would raise KeyError in `ind2char[char_id]`; the
  only caller, `ctc_beam_search`, rules that out with its width assertion.
- BruteForce.ReferenceAsWritten: requires at least as many rows as vocabulary
  symbols. With fewer rows, `probs[i]` raises IndexError in the test; that
  error path is not modelled.
- BruteForce.SymbolProb: gives 0 where `vocab.index(c)` would fail. No
  enumerated path reaches that case.
- BruteForce.Reference: enumerates paths of the table's length, as the test
  evidently intends (see Findings). With zero timesteps it takes
  `ctc_decode` of the empty path to be the empty text. The source's
  `ctc_decode` would raise IndexError there.
- `sorted` and `cut_beams` break ties by Python's stable sort over dict
  insertion order. The model reproduces this exactly. The equivalence with
  the brute-force reference therefore holds per text and per probability;
  the list order is the same only when probabilities do not tie
  (`Equivalence.NoPruningSameRanking`).
- The 98-symbol sentence of `test_ctc_decode` is not evaluated as a whole.
  `Examples.CollapseStretch` evaluates one stretch of it. The general
  properties (`TextEncoder.CtcDecode`, `PathCollapse.CollapseBounds`) hold
  for every input.
- The second beam search test (`ab`, three timesteps, width 27) is not
  evaluated on concrete numbers. It is an instance of
  `Equivalence.NoPruningMatchesBruteForce` with `27 >= 3^3`.
- Batch collation, the edit-distance metric, the audio augmentations and
  logging are not modelled. They are torch, librosa and library plumbing
  outside the decoder.

## Findings

| source | as written | input that shows it | evidently intended | confidence | as-written member | corrected member |
|---|---|---|---|---|---|---|
| src/tests/test_text_encoder.py:60 | `product(*repeat(vocab, len(vocab)))` enumerates paths as long as the VOCABULARY | vocabulary `['^']` with the two-row table `[[1.0], [0.5]]`: the reference weighs the one-symbol path (1.0), while beam search returns 0.5 | paths as long as the number of timesteps, `len(probs)`; the reference can agree with beam search only because the test's vocabulary size and number of timesteps are both 3 | not executed | Findings.ReferenceLengthMismatch | Equivalence.NoPruningMatchesBruteForce |
