/**
  Beam search without pruning is the brute-force reference: when the beam is
  at least as wide as the number of raw paths, no state is ever cut, every
  state carries exactly the probability of the raw paths that reach its key,
  and the final ranking has the texts and probabilities of the enumeration.
*/
module Equivalence {
  import opened Dicts
  import opened PathCollapse
  import opened Beams
  import opened BruteForce
  import opened Vocabulary

  /**
    Two state dicts with the same keys and the same mass on every key rank
    the same texts with the same probabilities; both rankings are dicts
    sorted by descending probability.
  */
  lemma {:induction false} RankedTextsAgree(a: Items<Beam>, b: Items<Beam>)
    requires SameMass(a, b) && Keys(a) == Keys(b)
    ensures var ra, rb := SortDesc(TextMass(a)), SortDesc(TextMass(b));
      && DistinctKeys(ra) && DistinctKeys(rb) && SortedDesc(ra) && SortedDesc(rb)
      && Keys(ra) == Keys(rb) && |ra| == |rb|
      && forall k :: Lookup(ra, k) == Lookup(rb, k)
  {
    var ra, rb := SortDesc(TextMass(a)), SortDesc(TextMass(b));
    ProjectSameMass(a, b);
    ProjectSameKeys(a, b);
    MergeShape(Project(a));
    MergeShape(Project(b));
    MergeMass(Project(a));
    MergeMass(Project(b));
    SortDescKeys(TextMass(a));
    SortDescKeys(TextMass(b));
    SortDescPerm(TextMass(a));
    SortDescPerm(TextMass(b));
    SortDescMass(TextMass(a));
    SortDescMass(TextMass(b));
    SameMassChain(ra, TextMass(a), Project(a), Project(b), TextMass(b), rb);
    forall k
      ensures Lookup(ra, k) == Lookup(rb, k)
    {
      SameMassLookup(ra, rb, k);
    }
    DistinctKeysCard(ra);
    DistinctKeysCard(rb);
  }

  lemma {:induction false} SameMassChain<K(!new)>(a: Items<K>, b: Items<K>, c: Items<K>, d: Items<K>, e: Items<K>, g: Items<K>)
    requires SameMass(a, b) && SameMass(c, b) && SameMass(c, d) && SameMass(e, d) && SameMass(g, e)
    ensures SameMass(a, g)
  {
    forall f: K -> real
      ensures WSum(a, f) == WSum(g, f)
    {
      assert WSum(a, f) == WSum(b, f) == WSum(c, f) == WSum(d, f) == WSum(e, f) == WSum(g, f);
    }
  }

  // ---------------------------------------------------------------------
  // No pruning

  lemma {:induction false} PowPositive(b: nat, e: nat)
    requires b >= 1
    ensures Pow(b, e) >= 1
  {
    if e > 0 {
      PowPositive(b, e - 1);
    }
  }

  lemma {:induction false} PowMonotone(b: nat, s: nat, t: nat)
    requires b >= 1 && s <= t
    ensures Pow(b, s) <= Pow(b, t)
  {
    if s < t {
      PowMonotone(b, s, t - 1);
      var x := Pow(b, t - 1);
      assert Pow(b, t) == b * x;
      MulAtLeast(b, x);
    }
  }

  lemma {:induction false} MulAtLeast(b: nat, x: nat)
    requires b >= 1
    ensures x <= b * x
  {
    if b > 1 {
      MulAtLeast(b - 1, x);
      assert b * x == (b - 1) * x + x;
    }
  }

  lemma {:induction false} PowStepBound(b: nat, t: nat, n: nat)
    requires t >= 1 && n <= Pow(b, t - 1)
    ensures n * b <= Pow(b, t)
  {
    assert Pow(b, t) == b * Pow(b, t - 1);
    assert n * b <= Pow(b, t - 1) * b;
  }

  /** The weights of the enumerated paths of length `t` step by table row `t`. */
  lemma {:induction false} AllPathsStepWeights(vocab: string, probs: seq<seq<real>>, t: nat)
    requires Rectangular(probs, |vocab|) && DistinctSymbols(vocab) && t < |probs|
    ensures forall p :: p in AllPaths(vocab, t) ==> StepWeights(Weight(vocab, probs), p, vocab, probs[t])
  {
    forall p | p in AllPaths(vocab, t)
      ensures StepWeights(Weight(vocab, probs), p, vocab, probs[t])
    {
      AllPathsMember(vocab, t, p);
      PathProbStepWeights(vocab, probs, p);
    }
  }

  /**
    One timestep on states that match the keyed paths `ps` (same keys, same
    mass on every key), with a beam wide enough to keep every new state,
    gives states that match the keyed extensions of `ps`.
  */
  lemma {:induction false} StepMatches(dp: Items<Beam>, ps: seq<string>, vocab: string, dist: seq<real>,
                                       w: string -> real, beamSize: int)
    requires |dist| == |vocab| && forall p :: p in ps ==> StepWeights(w, p, vocab, dist)
    requires DistinctKeys(dp) && Keys(dp) == Keys(Keyed(ps, w)) && SameMass(dp, Keyed(ps, w))
    requires |dp| * |vocab| <= beamSize
    ensures var next := CutBeams(ExtendAndMerge(dp, vocab, dist), beamSize);
      && DistinctKeys(next)
      && Keys(next) == Keys(Keyed(Extensions(ps, vocab), w))
      && SameMass(next, Keyed(Extensions(ps, vocab), w))
      && |next| <= |dp| * |vocab|
  {
    var cands := Candidates(dp, vocab, dist);
    var merged := Merge(cands);
    KeyedExtensions(ps, vocab, dist, w);
    CandidatesLength(dp, vocab, dist);
    MergeShape(cands);
    CutBeamsFacts(merged, beamSize);
    SortDescKeys(merged);
    SortDescPerm(merged);
    SortDescMass(merged);
    MergeMass(cands);
    CandidatesSameMass(dp, Keyed(ps, w), vocab, dist);
    CandidatesSameKeys(dp, Keyed(ps, w), vocab, dist);
    SameMassTrans(SortDesc(merged), merged, cands, Candidates(Keyed(ps, w), vocab, dist));
  }

  lemma {:induction false} SameMassTrans<K(!new)>(a: Items<K>, b: Items<K>, c: Items<K>, d: Items<K>)
    requires SameMass(a, b) && SameMass(b, c) && SameMass(c, d)
    ensures SameMass(a, d)
  {
    forall f: K -> real
      ensures WSum(a, f) == WSum(d, f)
    {
      assert WSum(a, f) == WSum(b, f) == WSum(c, f) == WSum(d, f);
    }
  }

  /**
    With a beam at least `|vocab|^t` wide, the states after `t` timesteps
    are exactly the keys of the raw paths of length `t`, each with the total
    probability of the paths that reach it.
  */
  lemma {:induction false} Unpruned(vocab: string, probs: seq<seq<real>>, beamSize: int, t: nat)
    requires Rectangular(probs, |vocab|) && DistinctSymbols(vocab) && |vocab| >= 1
    requires t <= |probs| && beamSize >= Pow(|vocab|, t)
    ensures var dp, ref := BeamStates(vocab, probs, beamSize, t), Keyed(AllPaths(vocab, t), Weight(vocab, probs));
      && DistinctKeys(dp) && Keys(dp) == Keys(ref) && SameMass(dp, ref)
      && |dp| <= Pow(|vocab|, t)
  {
    var w := Weight(vocab, probs);
    if t == 0 {
      assert AllPaths(vocab, 0) == [[]];
      assert Keyed([[]], w) == [(KeyOf([]), w([]))];
    } else {
      PowMonotone(|vocab|, t - 1, t);
      Unpruned(vocab, probs, beamSize, t - 1);
      var dp, ps := BeamStates(vocab, probs, beamSize, t - 1), AllPaths(vocab, t - 1);
      PowStepBound(|vocab|, t, |dp|);
      assert |dp| * |vocab| <= beamSize;
      AllPathsStepWeights(vocab, probs, t - 1);
      assert SameMass(dp, Keyed(ps, w));
      StepMatches(dp, ps, vocab, probs[t - 1], w, beamSize);
      assert BeamStates(vocab, probs, beamSize, t) == CutBeams(ExtendAndMerge(dp, vocab, probs[t - 1]), beamSize);
      assert AllPaths(vocab, t) == Extensions(ps, vocab);
    }
  }

  /**
    The main theorem. With a beam at least `|vocab|^T` wide (`T` the number
    of timesteps), beam search ranks the same texts as the brute-force
    reference, each with the same probability: the sum of the probabilities
    of all raw paths of length `T` that collapse to it. Both rankings are
    dicts sorted by descending probability.
  */
  lemma {:induction false} NoPruningMatchesBruteForce(vocab: string, probs: seq<seq<real>>, beamSize: int)
    requires Rectangular(probs, |vocab|) && DistinctSymbols(vocab) && |vocab| >= 1
    requires beamSize >= Pow(|vocab|, |probs|)
    ensures var r, g := Ranked(vocab, probs, beamSize), Reference(vocab, probs);
      && DistinctKeys(r) && DistinctKeys(g) && SortedDesc(r) && SortedDesc(g)
      && Keys(r) == Keys(g) && |r| == |g|
      && (forall x :: Lookup(r, x) == Lookup(g, x))
      && forall x :: Lookup(g, x) == MassAt(Outcomes(AllPaths(vocab, |probs|), Weight(vocab, probs)), x)
  {
    var w := Weight(vocab, probs);
    var ps := AllPaths(vocab, |probs|);
    var final := BeamStates(vocab, probs, beamSize, |probs|);
    Unpruned(vocab, probs, beamSize, |probs|);
    ProjectKeyed(ps, w);
    RankedTextsAgree(final, Keyed(ps, w));
    var merged := Merge(Outcomes(ps, w));
    MergeShape(Outcomes(ps, w));
    SortDescKeys(merged);
    SortDescMass(merged);
    forall x
      ensures Lookup(SortDesc(merged), x) == MassAt(Outcomes(ps, w), x)
    {
      SameMassLookup(SortDesc(merged), merged, x);
      MergeLookup(Outcomes(ps, w), x);
    }
  }

  /**
    The third check of the beam search test: when no two texts of the
    reference share a probability, the unpruned beam search returns exactly
    the reference ranking, text by text.
  */
  lemma {:induction false} NoPruningSameRanking(vocab: string, probs: seq<seq<real>>, beamSize: int)
    requires Rectangular(probs, |vocab|) && DistinctSymbols(vocab) && |vocab| >= 1
    requires beamSize >= Pow(|vocab|, |probs|)
    requires var g := Reference(vocab, probs); forall i, j :: 0 <= i < j < |g| ==> g[i].1 != g[j].1
    ensures Ranked(vocab, probs, beamSize) == Reference(vocab, probs)
    ensures BeamSearch(vocab, probs, beamSize) == ToHypotheses(Reference(vocab, probs))
  {
    NoPruningMatchesBruteForce(vocab, probs, beamSize);
    RankingUnique(Reference(vocab, probs), Ranked(vocab, probs, beamSize));
  }
}
