/**
  The reference of the test suite enumerates paths of length
  `len(vocab)` (src/tests/test_text_encoder.py:60), not one symbol per
  timestep of the table. The two agree only when the vocabulary is exactly
  as large as the table is long, as in the test's own data.
*/
module Findings {
  import opened Dicts
  import opened PathCollapse
  import opened Beams
  import opened BruteForce
  import opened Vocabulary
  import opened Equivalence

  /** The paths over `^` alone: one per length, all blanks. */
  lemma {:induction false} BlankPaths(vocab: string)
    requires vocab == "^"
    ensures AllPaths(vocab, 1) == [[Blank]]
    ensures AllPaths(vocab, 2) == [[Blank, Blank]]
  {
    assert vocab[0] == Blank && |vocab| == 1;
    var none: seq<string> := [];
    var empty: string := [];
    var one: string := [Blank];
    var two: string := [Blank, Blank];
    assert Appended(empty, vocab, 1) == Appended(empty, vocab, 0) + [empty + [vocab[0]]];
    assert empty + [vocab[0]] == one;
    assert Appended(one, vocab, 1) == Appended(one, vocab, 0) + [one + [vocab[0]]];
    assert one + [vocab[0]] == two;
    assert AllPaths(vocab, 0) == [empty];
    assert [empty][..0] == none && [one][..0] == none;
    assert AllPaths(vocab, 1) == Extensions([empty], vocab) == Extensions(none, vocab) + Appended(empty, vocab, 1);
    assert AllPaths(vocab, 2) == Extensions([one], vocab) == Extensions(none, vocab) + Appended(one, vocab, 1);
  }

  /** Both blank paths collapse to the empty text and weigh 1.0 and 0.5 under the two-row table. */
  lemma {:induction false} BlankOutcomes(vocab: string, probs: seq<seq<real>>)
    requires vocab == "^" && probs == [[1.0], [0.5]]
    ensures Outcomes(AllPaths(vocab, 1), Weight(vocab, probs)) == [([], 1.0)]
    ensures Outcomes(AllPaths(vocab, 2), Weight(vocab, probs)) == [([], 0.5)]
  {
    BlankPaths(vocab);
    CollapseSnoc([], Blank);
    assert [Blank] == [] + [Blank];
    CollapseSnoc([Blank], Blank);
    assert [Blank, Blank] == [Blank] + [Blank];
    assert vocab[0] == Blank && IndexOf(vocab, Blank) == 0;
    assert probs[0][0] == 1.0 && probs[1][0] == 0.5;
    assert [Blank][..0] == [] && [Blank, Blank][..1] == [Blank];
    assert PathProb(vocab, probs, [Blank]) == Mul(1.0, 1.0);
    assert PathProb(vocab, probs, [Blank, Blank]) == Mul(PathProb(vocab, probs, [Blank]), 0.5);
    var none: seq<string> := [];
    assert [[Blank]][..0] == none && [[Blank, Blank]][..0] == none;
  }

  /**
    With the vocabulary `^` alone and two timesteps of probability 1 and
    0.5, the reference as written weighs the single one-symbol path (1.0),
    while the paths that one symbol per timestep describes weigh 0.5.
  */
  lemma {:induction false} ReferenceLengthMismatch(vocab: string, probs: seq<seq<real>>)
    requires vocab == "^" && probs == [[1.0], [0.5]]
    ensures ReferenceAsWritten(vocab, probs) == [([], 1.0)]
    ensures Reference(vocab, probs) == [([], 0.5)]
    ensures Reference(vocab, probs) != ReferenceAsWritten(vocab, probs)
  {
    BlankOutcomes(vocab, probs);
    assert |vocab| == 1 && |probs| == 2;
    var none: Items<string> := [];
    forall x: (string, real)
      ensures SortDesc(Merge([x])) == [x]
    {
      MergeSnoc(none, x);
      assert [x] == none + [x] && [x][..0] == none;
      assert SortDesc([x]) == InsertDesc(x, SortDesc(none));
    }
    assert ReferenceAsWritten(vocab, probs) == Enumerate(vocab, probs, 1);
    assert Reference(vocab, probs) == Enumerate(vocab, probs, 2);
  }

  /**
    On the same table the beam search, which never prunes here, returns the
    corrected reference and not the one the test compares it with.
  */
  lemma {:induction false} BeamSearchDisagreesWithTest(vocab: string, probs: seq<seq<real>>)
    requires vocab == "^" && probs == [[1.0], [0.5]]
    ensures BeamSearch(vocab, probs, 1) == [Hypothesis([], 0.5)]
    ensures BeamSearch(vocab, probs, 1) != ToHypotheses(ReferenceAsWritten(vocab, probs))
  {
    ReferenceLengthMismatch(vocab, probs);
    var g, w := Reference(vocab, probs), ReferenceAsWritten(vocab, probs);
    assert Rectangular(probs, |vocab|) && DistinctSymbols(vocab) && |vocab| >= 1;
    assert 1 >= Pow(|vocab|, |probs|) by {
      assert |vocab| == 1 && |probs| == 2 && Pow(1, 2) == 1;
    }
    NoPruningSameRanking(vocab, probs, 1);
    assert ToHypotheses(w)[0] == Hypothesis([], 1.0);
    assert ToHypotheses(g) == [Hypothesis([], 0.5)];
  }
}
