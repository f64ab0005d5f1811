/**
  The prefix beam search of `CTCCharTextEncoder.ctc_beam_search`, as pure
  functions over the dict items of module Dicts.

  A beam state is keyed by (collapsed text so far, last raw symbol). One
  timestep extends every state by every symbol of the vocabulary, weighted
  by that symbol's probability at the timestep, and sums the mass of the
  extensions that land on the same key (`ExtendAndMerge`); the states are
  then cut to the `beamSize` most probable (`CutBeams`). At the end the
  states are merged by text and ranked by probability (`BeamSearch`).
*/
module Beams {
  import opened Dicts
  import opened PathCollapse

  /** The key of a beam state: the collapsed text and the last raw symbol. */
  datatype Beam = Beam(text: string, last: char)

  /** One ranked result, `Hypothesis(text, prob)`. */
  datatype Hypothesis = Hypothesis(text: string, prob: real)

  /** The only state before the first timestep: empty text, last symbol blank. */
  const Start: Beam := Beam([], Blank)

  /** The key reached from `b` when the next raw symbol is `c`. */
  function Step(b: Beam, c: char): Beam
  {
    Beam(StripBlanks(if c != b.last then b.text + [c] else b.text), c)
  }

  /** The key reached along a whole raw path from `Start`. */
  function KeyOf(path: string): Beam
  {
    if path == [] then Start else Step(KeyOf(path[..|path| - 1]), path[|path| - 1])
  }

  /**
    The pairs that state `b` of mass `m` contributes for symbols `0..n-1`,
    in the order the inner loop of `extend_and_merge` visits them.
  */
  function Row(b: Beam, m: real, vocab: string, dist: seq<real>, n: nat): (r: Items<Beam>)
    requires n <= |dist| <= |vocab|
    ensures |r| == n
  {
    if n == 0 then []
    else Row(b, m, vocab, dist, n - 1) + [(Step(b, vocab[n - 1]), Mul(m, dist[n - 1]))]
  }

  /** Every (new key, mass) pair `extend_and_merge` accumulates, in loop order. */
  function Candidates(dp: Items<Beam>, vocab: string, dist: seq<real>): Items<Beam>
    requires |dist| <= |vocab|
  {
    if dp == [] then []
    else Candidates(dp[..|dp| - 1], vocab, dist) + Row(dp[|dp| - 1].0, dp[|dp| - 1].1, vocab, dist, |dist|)
  }

  /** `extend_and_merge(dp, distribution)`: the new states after one timestep. */
  function ExtendAndMerge(dp: Items<Beam>, vocab: string, dist: seq<real>): Items<Beam>
    requires |dist| <= |vocab|
  {
    Merge(Candidates(dp, vocab, dist))
  }

  /** `cut_beams(dp, beam_size)`: the `beamSize` most probable items, most probable first. */
  function CutBeams<K>(dp: Items<K>, beamSize: int): Items<K>
  {
    PyPrefix(SortDesc(dp), beamSize)
  }

  /** Every row of the probability table has one entry per vocabulary symbol. */
  predicate Rectangular(probs: seq<seq<real>>, v: nat)
  {
    forall t :: 0 <= t < |probs| ==> |probs[t]| == v
  }

  /** Every probability in the table is non-negative. */
  predicate NonNegativeTable(probs: seq<seq<real>>)
  {
    forall t, j :: 0 <= t < |probs| && 0 <= j < |probs[t]| ==> probs[t][j] >= 0.0
  }

  /** The beam states `dp` after the first `t` timesteps. */
  function BeamStates(vocab: string, probs: seq<seq<real>>, beamSize: int, t: nat): Items<Beam>
    requires Rectangular(probs, |vocab|) && t <= |probs|
  {
    if t == 0 then [(Start, 1.0)]
    else CutBeams(ExtendAndMerge(BeamStates(vocab, probs, beamSize, t - 1), vocab, probs[t - 1]), beamSize)
  }

  /** The states with the last symbol dropped: `(beam, _), prob` becomes `(beam, prob)`. */
  function Project(dp: Items<Beam>): Items<string>
  {
    if dp == [] then []
    else Project(dp[..|dp| - 1]) + [(dp[|dp| - 1].0.text, dp[|dp| - 1].1)]
  }

  /** The `hypos` defaultdict: the mass of every text, summed over its last symbols. */
  function TextMass(dp: Items<Beam>): Items<string>
  {
    Merge(Project(dp))
  }

  /** The final (text, probability) pairs, most probable first. */
  function Ranked(vocab: string, probs: seq<seq<real>>, beamSize: int): Items<string>
    requires Rectangular(probs, |vocab|)
  {
    SortDesc(TextMass(BeamStates(vocab, probs, beamSize, |probs|)))
  }

  function ToHypotheses(items: Items<string>): (hs: seq<Hypothesis>)
    ensures |hs| == |items|
    ensures forall i :: 0 <= i < |items| ==> hs[i] == Hypothesis(items[i].0, items[i].1)
  {
    seq(|items|, i requires 0 <= i < |items| => Hypothesis(items[i].0, items[i].1))
  }

  /** `ctc_beam_search(probs, beam_size)` once the shape check has passed. */
  function BeamSearch(vocab: string, probs: seq<seq<real>>, beamSize: int): seq<Hypothesis>
    requires Rectangular(probs, |vocab|)
  {
    ToHypotheses(Ranked(vocab, probs, beamSize))
  }

  // ---------------------------------------------------------------------
  // One extension step

  /**
    A step never leaves a blank in the text and grows it by at most one
    symbol; from a blank-free text it appends `c` exactly when `c` differs
    from the last raw symbol and is not the blank.
  */
  lemma {:induction false} StepFacts(b: Beam, c: char)
    ensures Step(b, c).last == c
    ensures Blank !in Step(b, c).text
    ensures |Step(b, c).text| <= |b.text| + 1
    ensures Blank !in b.text ==>
      Step(b, c).text == b.text + (if c != b.last && c != Blank then [c] else [])
  {
    var t := if c != b.last then b.text + [c] else b.text;
    StripBlanksFacts(t);
    if Blank !in b.text {
      StripBlanksFacts(b.text);
      if c != b.last {
        StripBlanksSnoc(b.text, c);
      }
    }
  }

  /**
    The key reached along a raw path is its collapsed text together with its
    last raw symbol: the beam states track exactly `ctc_decode` of each path.
  */
  lemma {:induction false} KeyOfCollapse(path: string)
    ensures KeyOf(path) == Beam(Collapse(path), LastOr(path))
  {
    if path != [] {
      var p, c := path[..|path| - 1], path[|path| - 1];
      assert path == p + [c];
      KeyOfCollapse(p);
      CollapseBounds(p);
      StepFacts(KeyOf(p), c);
      CollapseSnoc(p, c);
    }
  }

  /** The total probability of the symbols among `0..n-1` that take `b` to a key weighted by `f`. */
  function RowWeight(b: Beam, vocab: string, dist: seq<real>, f: Beam -> real, n: nat): real
    requires n <= |dist| <= |vocab|
  {
    if n == 0 then 0.0 else RowWeight(b, vocab, dist, f, n - 1) + Mul(dist[n - 1], f(Step(b, vocab[n - 1])))
  }

  /** The weight on old keys that one timestep induces from the weight `f` on new keys. */
  function Lift(vocab: string, dist: seq<real>, f: Beam -> real): Beam -> real
    requires |dist| <= |vocab|
  {
    b => RowWeight(b, vocab, dist, f, |dist|)
  }

  /** The keys one timestep reaches from the keys `ks` with the symbols `0..n-1`. */
  function Successors(ks: set<Beam>, vocab: string, n: nat): set<Beam>
    requires n <= |vocab|
  {
    set b, j | b in ks && 0 <= j < n :: Step(b, vocab[j])
  }

  /** The sum of the first `n` entries of a row. */
  function RowSum(dist: seq<real>, n: nat): real
    requires n <= |dist|
  {
    if n == 0 then 0.0 else RowSum(dist, n - 1) + dist[n - 1]
  }

  lemma {:induction false} RowWSum(e: (Beam, real), vocab: string, dist: seq<real>, f: Beam -> real, n: nat)
    requires n <= |dist| <= |vocab|
    ensures WSum(Row(e.0, e.1, vocab, dist, n), f) == Mul(e.1, RowWeight(e.0, vocab, dist, f, n))
  {
    if n > 0 {
      RowWSum(e, vocab, dist, f, n - 1);
      var d, g := dist[n - 1], f(Step(e.0, vocab[n - 1]));
      var y := (Step(e.0, vocab[n - 1]), Mul(e.1, d));
      WSumAppend(Row(e.0, e.1, vocab, dist, n - 1), [y], f);
      WSumSingle(y, f);
      MulAssoc(e.1, d, g);
      MulAddRight(e.1, RowWeight(e.0, vocab, dist, f, n - 1), Mul(d, g), RowWeight(e.0, vocab, dist, f, n));
    }
  }

  /**
    The candidates of a timestep, weighted by `f`, weigh as much as the old
    states weighted by the lifted weight: each old state passes its mass to
    its successors in proportion to the symbol probabilities.
  */
  lemma {:induction false} CandidatesWSum(dp: Items<Beam>, vocab: string, dist: seq<real>, f: Beam -> real)
    requires |dist| <= |vocab|
    ensures WSum(Candidates(dp, vocab, dist), f) == WSum(dp, Lift(vocab, dist, f))
  {
    if dp != [] {
      CandidatesWSum(dp[..|dp| - 1], vocab, dist, f);
      CandidatesWSumLast(dp, vocab, dist, f);
      RowWSum(dp[|dp| - 1], vocab, dist, f, |dist|);
      WSumLiftLast(dp, vocab, dist, f);
    }
  }

  lemma {:induction false} CandidatesWSumLast(dp: Items<Beam>, vocab: string, dist: seq<real>, f: Beam -> real)
    requires |dist| <= |vocab| && dp != []
    ensures WSum(Candidates(dp, vocab, dist), f) ==
      WSum(Candidates(dp[..|dp| - 1], vocab, dist), f) + WSum(Row(dp[|dp| - 1].0, dp[|dp| - 1].1, vocab, dist, |dist|), f)
  {
    WSumAppend(Candidates(dp[..|dp| - 1], vocab, dist), Row(dp[|dp| - 1].0, dp[|dp| - 1].1, vocab, dist, |dist|), f);
  }

  lemma {:induction false} WSumLiftLast(dp: Items<Beam>, vocab: string, dist: seq<real>, f: Beam -> real)
    requires |dist| <= |vocab| && dp != []
    ensures WSum(dp, Lift(vocab, dist, f)) ==
      WSum(dp[..|dp| - 1], Lift(vocab, dist, f)) + Mul(dp[|dp| - 1].1, RowWeight(dp[|dp| - 1].0, vocab, dist, f, |dist|))
  {
    assert dp == dp[..|dp| - 1] + [dp[|dp| - 1]];
    WSumSnoc(dp[..|dp| - 1], dp[|dp| - 1], Lift(vocab, dist, f));
  }

  /** States that carry the same mass on every key have candidates that do too. */
  lemma {:induction false} CandidatesSameMass(a: Items<Beam>, b: Items<Beam>, vocab: string, dist: seq<real>)
    requires |dist| <= |vocab| && SameMass(a, b)
    ensures SameMass(Candidates(a, vocab, dist), Candidates(b, vocab, dist))
  {
    forall f: Beam -> real
      ensures WSum(Candidates(a, vocab, dist), f) == WSum(Candidates(b, vocab, dist), f)
    {
      CandidatesWSum(a, vocab, dist, f);
      CandidatesWSum(b, vocab, dist, f);
      assert WSum(a, Lift(vocab, dist, f)) == WSum(b, Lift(vocab, dist, f));
    }
  }

  lemma {:induction false} RowKeys(b: Beam, m: real, vocab: string, dist: seq<real>, n: nat, x: Beam)
    requires n <= |dist| <= |vocab|
    ensures x in Keys(Row(b, m, vocab, dist, n)) <==> exists j :: 0 <= j < n && x == Step(b, vocab[j])
  {
    if n > 0 {
      RowKeys(b, m, vocab, dist, n - 1, x);
      KeysAppend(Row(b, m, vocab, dist, n - 1), [(Step(b, vocab[n - 1]), Mul(m, dist[n - 1]))]);
    }
  }

  /** The keys of the candidates are exactly the successors of the old keys. */
  lemma {:induction false} CandidatesKeys(dp: Items<Beam>, vocab: string, dist: seq<real>, x: Beam)
    requires |dist| <= |vocab|
    ensures x in Keys(Candidates(dp, vocab, dist)) <==>
      exists b, j :: b in Keys(dp) && 0 <= j < |dist| && x == Step(b, vocab[j])
  {
    if dp != [] {
      var p, e := dp[..|dp| - 1], dp[|dp| - 1];
      assert dp == p + [e];
      CandidatesKeys(p, vocab, dist, x);
      KeysAppend(Candidates(p, vocab, dist), Row(e.0, e.1, vocab, dist, |dist|));
      RowKeys(e.0, e.1, vocab, dist, |dist|, x);
      KeysAppend(p, [e]);
    }
  }

  /** States with the same keys have candidates with the same keys. */
  lemma {:induction false} CandidatesSameKeys(a: Items<Beam>, b: Items<Beam>, vocab: string, dist: seq<real>)
    requires |dist| <= |vocab| && Keys(a) == Keys(b)
    ensures Keys(Candidates(a, vocab, dist)) == Keys(Candidates(b, vocab, dist))
  {
    forall x
      ensures x in Keys(Candidates(a, vocab, dist)) <==> x in Keys(Candidates(b, vocab, dist))
    {
      CandidatesKeys(a, vocab, dist, x);
      CandidatesKeys(b, vocab, dist, x);
    }
  }

  /** One more symbol of a row adds its mass to the merged candidates so far. */
  lemma {:induction false} MergeRowSnoc(before: Items<Beam>, b: Beam, m: real, vocab: string, dist: seq<real>, n: nat)
    requires n < |dist| <= |vocab|
    ensures Merge(before + Row(b, m, vocab, dist, n + 1)) ==
      AddMass(Merge(before + Row(b, m, vocab, dist, n)), Step(b, vocab[n]), Mul(m, dist[n]))
  {
    var x := (Step(b, vocab[n]), Mul(m, dist[n]));
    MergeSnoc(before + Row(b, m, vocab, dist, n), x);
    assert before + Row(b, m, vocab, dist, n + 1) == (before + Row(b, m, vocab, dist, n)) + [x];
  }

  /** The candidates of one more state are the earlier ones followed by its row. */
  lemma {:induction false} CandidatesSnoc(dp: Items<Beam>, vocab: string, dist: seq<real>, i: nat)
    requires i < |dp| && |dist| <= |vocab|
    ensures Candidates(dp[..i + 1], vocab, dist) ==
      Candidates(dp[..i], vocab, dist) + Row(dp[i].0, dp[i].1, vocab, dist, |dist|)
  {
    assert dp[..i + 1][..i] == dp[..i];
  }

  lemma {:induction false} CandidatesLength(dp: Items<Beam>, vocab: string, dist: seq<real>)
    requires |dist| <= |vocab|
    ensures |Candidates(dp, vocab, dist)| == |dp| * |dist|
  {
    if dp != [] {
      var p := dp[..|dp| - 1];
      CandidatesLength(p, vocab, dist);
      assert |Candidates(dp, vocab, dist)| == |p| * |dist| + |dist|;
      assert |p| * |dist| + |dist| == (|p| + 1) * |dist|;
    }
  }

  lemma {:induction false} WSumUniform(dp: Items<Beam>, g: Beam -> real, c: real)
    requires forall b :: g(b) == c
    ensures WSum(dp, g) == Mul(TotalMass(dp), c)
  {
    if dp != [] {
      WSumUniform(dp[1..], g, c);
      assert One<Beam>()(dp[0].0) == 1.0;
      MulOne(dp[0].1);
      MulAddLeft(dp[0].1, TotalMass(dp[1..]), TotalMass(dp), c);
    }
  }

  lemma {:induction false} RowWeightOne(b: Beam, vocab: string, dist: seq<real>, n: nat)
    requires n <= |dist| <= |vocab|
    ensures RowWeight(b, vocab, dist, One(), n) == RowSum(dist, n)
  {
    if n > 0 {
      RowWeightOne(b, vocab, dist, n - 1);
    }
  }

  lemma {:induction false} LiftOne(vocab: string, dist: seq<real>)
    requires |dist| <= |vocab|
    ensures forall b :: Lift(vocab, dist, One())(b) == RowSum(dist, |dist|)
  {
    forall b
      ensures Lift(vocab, dist, One())(b) == RowSum(dist, |dist|)
    {
      RowWeightOne(b, vocab, dist, |dist|);
    }
  }

  /**
    One timestep of `extend_and_merge` produces a dict whose keys are exactly
    the successors of the old keys.
  */
  lemma {:induction false} ExtendAndMergeKeys(dp: Items<Beam>, vocab: string, dist: seq<real>)
    requires |dist| <= |vocab|
    ensures DistinctKeys(ExtendAndMerge(dp, vocab, dist))
    ensures Keys(ExtendAndMerge(dp, vocab, dist)) == Successors(Keys(dp), vocab, |dist|)
  {
    MergeShape(Candidates(dp, vocab, dist));
    forall x
      ensures x in Keys(ExtendAndMerge(dp, vocab, dist)) <==> x in Successors(Keys(dp), vocab, |dist|)
    {
      ExtendAndMergeKey(dp, vocab, dist, x);
    }
  }

  lemma {:induction false} ExtendAndMergeKey(dp: Items<Beam>, vocab: string, dist: seq<real>, x: Beam)
    requires |dist| <= |vocab|
    ensures x in Keys(ExtendAndMerge(dp, vocab, dist)) <==> x in Successors(Keys(dp), vocab, |dist|)
  {
    MergeShape(Candidates(dp, vocab, dist));
    CandidatesKeys(dp, vocab, dist, x);
  }

  /**
    The mass of each new key is the sum, over the old states, of the state's
    mass times the total probability of the symbols that take it to that
    key: masses of paths that meet are added, never overwritten.
  */
  lemma {:induction false} ExtendAndMergeMass(dp: Items<Beam>, vocab: string, dist: seq<real>)
    requires |dist| <= |vocab|
    ensures forall x ::
      Lookup(ExtendAndMerge(dp, vocab, dist), x) == WSum(dp, Lift(vocab, dist, Indicator(x)))
  {
    forall x
      ensures Lookup(ExtendAndMerge(dp, vocab, dist), x) == WSum(dp, Lift(vocab, dist, Indicator(x)))
    {
      MergeLookup(Candidates(dp, vocab, dist), x);
      CandidatesWSum(dp, vocab, dist, Indicator(x));
    }
  }

  /** The total mass after a timestep is the total before it times the row sum. */
  lemma {:induction false} ExtendAndMergeTotal(dp: Items<Beam>, vocab: string, dist: seq<real>)
    requires |dist| <= |vocab|
    ensures TotalMass(ExtendAndMerge(dp, vocab, dist)) == Mul(TotalMass(dp), RowSum(dist, |dist|))
  {
    ExtendAndMergeWSum(dp, vocab, dist, One());
    LiftOne(vocab, dist);
    WSumUniform(dp, Lift(vocab, dist, One()), RowSum(dist, |dist|));
  }

  lemma {:induction false} ExtendAndMergeWSum(dp: Items<Beam>, vocab: string, dist: seq<real>, f: Beam -> real)
    requires |dist| <= |vocab|
    ensures WSum(ExtendAndMerge(dp, vocab, dist), f) == WSum(dp, Lift(vocab, dist, f))
  {
    MergeWSum(Candidates(dp, vocab, dist), f);
    CandidatesWSum(dp, vocab, dist, f);
  }

  // ---------------------------------------------------------------------
  // Cutting

  /**
    `cut_beams` keeps at most `beamSize` items (all of them when `beamSize`
    is at least their number), in descending order, each an item of the
    input with its probability unchanged.
  */
  lemma {:induction false} CutBeamsFacts<K>(dp: Items<K>, beamSize: int)
    ensures var r := CutBeams(dp, beamSize);
      && SortedDesc(r)
      && |r| <= |dp|
      && (beamSize >= 0 ==> |r| == if beamSize <= |dp| then beamSize else |dp|)
      && (forall e :: e in r ==> e in dp)
      && (beamSize >= |dp| ==> r == SortDesc(dp))
  {
    var s := SortDesc(dp);
    var r := CutBeams(dp, beamSize);
    SortDescPerm(dp);
    PyPrefixFacts(s, beamSize);
    var m :| 0 <= m <= |s| && r == s[..m];
    forall e | e in r
      ensures e in dp
    {
      assert e in multiset(s);
    }
  }

  /** Every item `cut_beams` drops is at most as probable as every item it keeps. */
  lemma {:induction false} CutBeamsDropsLeast<K>(dp: Items<K>, beamSize: int)
    ensures var r := CutBeams(dp, beamSize);
      forall e, kept :: e in dp && e.0 !in Keys(r) && kept in r ==> e.1 <= kept.1
  {
    var s := SortDesc(dp);
    var r := CutBeams(dp, beamSize);
    SortDescPerm(dp);
    PyPrefixFacts(s, beamSize);
    var m :| 0 <= m <= |s| && r == s[..m];
    forall e, kept | e in dp && e.0 !in Keys(r) && kept in r
      ensures e.1 <= kept.1
    {
      assert e in multiset(s);
      var i :| 0 <= i < |s| && s[i] == e;
      var j :| 0 <= j < m && s[j] == kept;
      if i < m {
        assert e == r[i];
        KeysIndex(r, i);
      }
    }
  }

  /** Cutting keeps a dict a dict and keeps only keys it had. */
  lemma {:induction false} CutBeamsKeys<K>(dp: Items<K>, beamSize: int)
    ensures Keys(CutBeams(dp, beamSize)) <= Keys(dp)
    ensures DistinctKeys(dp) ==> DistinctKeys(CutBeams(dp, beamSize))
  {
    var s := SortDesc(dp);
    SortDescKeys(dp);
    PyPrefixFacts(s, beamSize);
    var m :| 0 <= m <= |s| && CutBeams(dp, beamSize) == s[..m];
    SortDescPerm(dp);
    if DistinctKeys(dp) {
      DistinctPrefix(s, m);
    } else {
      KeysPrefix(s, m);
    }
  }

  // ---------------------------------------------------------------------
  // The final merge by text and ranking

  /** A weight on texts read as a weight on beam keys. */
  function TextWeight(f: string -> real): Beam -> real
  {
    (b: Beam) => f(b.text)
  }

  lemma {:induction false} ProjectWSum(m: Items<Beam>, f: string -> real)
    ensures WSum(Project(m), f) == WSum(m, TextWeight(f))
  {
    if m != [] {
      var p, e := m[..|m| - 1], m[|m| - 1];
      assert m == p + [e];
      ProjectWSum(p, f);
      WSumSnoc(Project(p), (e.0.text, e.1), f);
      WSumSnoc(p, e, TextWeight(f));
    }
  }

  /** States of equal mass give texts of equal mass. */
  lemma {:induction false} ProjectSameMass(a: Items<Beam>, b: Items<Beam>)
    requires SameMass(a, b)
    ensures SameMass(Project(a), Project(b))
  {
    forall f: string -> real
      ensures WSum(Project(a), f) == WSum(Project(b), f)
    {
      ProjectWSum(a, f);
      ProjectWSum(b, f);
      assert WSum(a, TextWeight(f)) == WSum(b, TextWeight(f));
    }
  }

  /** The texts the keys `ks` carry. */
  function Texts(ks: set<Beam>): set<string>
  {
    set b | b in ks :: b.text
  }

  /** The texts of the projected states are the texts of the state keys. */
  lemma {:induction false} ProjectKeys(m: Items<Beam>)
    ensures Keys(Project(m)) == Texts(Keys(m))
  {
    if m != [] {
      var p, e := m[..|m| - 1], m[|m| - 1];
      assert m == p + [e];
      ProjectKeys(p);
      KeysAppend(Project(p), [(e.0.text, e.1)]);
      KeysAppend(p, [e]);
    }
  }

  lemma {:induction false} ProjectSameKeys(a: Items<Beam>, b: Items<Beam>)
    requires Keys(a) == Keys(b)
    ensures Keys(Project(a)) == Keys(Project(b))
  {
    ProjectKeys(a);
    ProjectKeys(b);
  }

  /** The texts `ctc_beam_search` returns are distinct and ranked by descending probability. */
  lemma {:induction false} BeamSearchRanked(vocab: string, probs: seq<seq<real>>, beamSize: int)
    requires Rectangular(probs, |vocab|)
    ensures var hs := BeamSearch(vocab, probs, beamSize);
      forall i, j :: 0 <= i < j < |hs| ==> hs[i].text != hs[j].text && hs[i].prob >= hs[j].prob
  {
    var merged := TextMass(BeamStates(vocab, probs, beamSize, |probs|));
    var r := SortDesc(merged);
    MergeShape(Project(BeamStates(vocab, probs, beamSize, |probs|)));
    SortDescKeys(merged);
    SortDescPerm(merged);
    forall i, j | 0 <= i < j < |r|
      ensures r[i].0 != r[j].0
    {
      DistinctKeysIndex(r, i, j);
    }
  }

  /**
    Each hypothesis's probability is the summed mass of the surviving states
    that carry its text: `hypos[beam] += prob`.
  */
  lemma {:induction false} BeamSearchMass(vocab: string, probs: seq<seq<real>>, beamSize: int)
    requires Rectangular(probs, |vocab|)
    ensures var hs, final := BeamSearch(vocab, probs, beamSize), BeamStates(vocab, probs, beamSize, |probs|);
      forall i :: 0 <= i < |hs| ==> hs[i].prob == MassAt(Project(final), hs[i].text)
  {
    var final := BeamStates(vocab, probs, beamSize, |probs|);
    var merged := TextMass(final);
    var r := SortDesc(merged);
    MergeShape(Project(final));
    SortDescKeys(merged);
    SortDescMass(merged);
    forall i | 0 <= i < |r|
      ensures r[i].1 == MassAt(Project(final), r[i].0)
    {
      LookupIndex(r, i);
      SameMassLookup(r, merged, r[i].0);
      MergeLookup(Project(final), r[i].0);
    }
  }

  /** A text is among the hypotheses exactly when some surviving state carries it. */
  lemma {:induction false} BeamSearchTexts(vocab: string, probs: seq<seq<real>>, beamSize: int)
    requires Rectangular(probs, |vocab|)
    ensures var hs, final := BeamSearch(vocab, probs, beamSize), BeamStates(vocab, probs, beamSize, |probs|);
      (set h | h in hs :: h.text) == Texts(Keys(final))
  {
    var final := BeamStates(vocab, probs, beamSize, |probs|);
    var merged := TextMass(final);
    var r := SortDesc(merged);
    var hs := BeamSearch(vocab, probs, beamSize);
    MergeShape(Project(final));
    SortDescKeys(merged);
    ProjectKeys(final);
    forall x | x in Keys(r)
      ensures x in (set h | h in hs :: h.text)
    {
      var i := KeyIndex(r, x);
      assert hs[i] in hs;
    }
    forall h | h in hs
      ensures h.text in Keys(r)
    {
      var i :| 0 <= i < |hs| && hs[i] == h;
      KeysIndex(r, i);
    }
  }

  /** With no timesteps the only hypothesis is the empty text with probability 1. */
  lemma {:induction false} BeamSearchNoSteps(vocab: string, probs: seq<seq<real>>, beamSize: int)
    requires Rectangular(probs, |vocab|) && |probs| == 0
    ensures BeamSearch(vocab, probs, beamSize) == [Hypothesis([], 1.0)]
  {
    var final := BeamStates(vocab, probs, beamSize, 0);
    assert final == [(Start, 1.0)];
    assert Project(final) == [([], 1.0)];
    var none: Items<string> := [];
    MergeSnoc(none, ([], 1.0));
    assert none + [([], 1.0)] == [([], 1.0)];
    assert TextMass(final) == [([], 1.0)];
    assert SortDesc(TextMass(final)) == [([], 1.0)];
  }

  // ---------------------------------------------------------------------
  // Non-negative probabilities

  /** One state's extensions carry non-negative masses when the state and the row do. */
  lemma {:induction false} RowNonNegative(b: Beam, m: real, vocab: string, dist: seq<real>, n: nat)
    requires n <= |dist| <= |vocab| && m >= 0.0
    requires forall j :: 0 <= j < |dist| ==> dist[j] >= 0.0
    ensures NonNegative(Row(b, m, vocab, dist, n))
  {
    if n > 0 {
      RowNonNegative(b, m, vocab, dist, n - 1);
      MulNonNegative(m, dist[n - 1]);
      NonNegativeAppend(Row(b, m, vocab, dist, n - 1), [(Step(b, vocab[n - 1]), Mul(m, dist[n - 1]))]);
    }
  }

  /** The pairs of a timestep carry non-negative masses when the states and the row do. */
  lemma {:induction false} CandidatesNonNegative(dp: Items<Beam>, vocab: string, dist: seq<real>)
    requires |dist| <= |vocab| && NonNegative(dp)
    requires forall j :: 0 <= j < |dist| ==> dist[j] >= 0.0
    ensures NonNegative(Candidates(dp, vocab, dist))
  {
    if dp != [] {
      var p, e := dp[..|dp| - 1], dp[|dp| - 1];
      assert dp == p + [e];
      NonNegativeAppend(p, [e]);
      CandidatesNonNegative(p, vocab, dist);
      RowNonNegative(e.0, e.1, vocab, dist, |dist|);
      NonNegativeAppend(Candidates(p, vocab, dist), Row(e.0, e.1, vocab, dist, |dist|));
    }
  }

  /** With a table of non-negative probabilities every beam state keeps a non-negative mass. */
  lemma {:induction false} BeamStatesNonNegative(vocab: string, probs: seq<seq<real>>, beamSize: int, t: nat)
    requires Rectangular(probs, |vocab|) && NonNegativeTable(probs) && t <= |probs|
    ensures NonNegative(BeamStates(vocab, probs, beamSize, t))
  {
    if t > 0 {
      var dp := BeamStates(vocab, probs, beamSize, t - 1);
      BeamStatesNonNegative(vocab, probs, beamSize, t - 1);
      CandidatesNonNegative(dp, vocab, probs[t - 1]);
      MergeNonNegative(Candidates(dp, vocab, probs[t - 1]));
      PrefixSortNonNegative(ExtendAndMerge(dp, vocab, probs[t - 1]), beamSize);
    }
  }

  /** Dropping the last symbols keeps the masses. */
  lemma {:induction false} ProjectNonNegative(dp: Items<Beam>)
    requires NonNegative(dp)
    ensures NonNegative(Project(dp))
  {
    if dp != [] {
      var p, e := dp[..|dp| - 1], dp[|dp| - 1];
      assert dp == p + [e];
      NonNegativeAppend(p, [e]);
      ProjectNonNegative(p);
      NonNegativeAppend(Project(p), [(e.0.text, e.1)]);
    }
  }

  /** With a table of non-negative probabilities every hypothesis has a non-negative probability. */
  lemma {:induction false} BeamSearchNonNegative(vocab: string, probs: seq<seq<real>>, beamSize: int)
    requires Rectangular(probs, |vocab|) && NonNegativeTable(probs)
    ensures forall h :: h in BeamSearch(vocab, probs, beamSize) ==> h.prob >= 0.0
  {
    var final := BeamStates(vocab, probs, beamSize, |probs|);
    BeamStatesNonNegative(vocab, probs, beamSize, |probs|);
    ProjectNonNegative(final);
    MergeNonNegative(Project(final));
    PrefixSortNonNegative(TextMass(final), 0);
    var items := Ranked(vocab, probs, beamSize);
    var hs := ToHypotheses(items);
    forall h | h in hs
      ensures h.prob >= 0.0
    {
      var i :| 0 <= i < |hs| && hs[i] == h;
      assert h.prob == items[i].1;
    }
  }
}
