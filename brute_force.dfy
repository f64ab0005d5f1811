/**
  The reference decoder of the test suite (`brute_force` in
  src/tests/test_text_encoder.py): enumerate every raw path over the
  vocabulary in `itertools.product` order, weigh each by the product of its
  per-timestep probabilities, collapse it, sum the weights per text and rank
  the texts by weight.
*/
module BruteForce {
  import opened Dicts
  import opened PathCollapse
  import opened Beams
  import opened Vocabulary

  /** `b` to the power `e`. */
  function Pow(b: nat, e: nat): nat
  {
    if e == 0 then 1 else b * Pow(b, e - 1)
  }

  /** Every symbol of `p` belongs to the vocabulary. */
  predicate IsPath(vocab: string, p: string)
  {
    forall i :: 0 <= i < |p| ==> p[i] in vocab
  }

  /** `vocab.index(c)`: the first position of `c` in `vocab`. */
  function IndexOf(vocab: string, c: char): (i: nat)
    requires c in vocab
    ensures i < |vocab| && vocab[i] == c
    ensures forall k :: 0 <= k < i ==> vocab[k] != c
  {
    if vocab[0] == c then 0 else 1 + IndexOf(vocab[1..], c)
  }

  /** `p` extended by each of the symbols `0..n-1`, in vocabulary order. */
  function Appended(p: string, vocab: string, n: nat): seq<string>
    requires n <= |vocab|
  {
    if n == 0 then [] else Appended(p, vocab, n - 1) + [p + [vocab[n - 1]]]
  }

  /** Every path of `ps` extended by every symbol, the last symbol varying fastest. */
  function Extensions(ps: seq<string>, vocab: string): seq<string>
  {
    if ps == [] then [] else Extensions(ps[..|ps| - 1], vocab) + Appended(ps[|ps| - 1], vocab, |vocab|)
  }

  /** `itertools.product(vocab, repeat=t)`: every raw path of length `t`. */
  function AllPaths(vocab: string, t: nat): seq<string>
  {
    if t == 0 then [[]] else Extensions(AllPaths(vocab, t - 1), vocab)
  }

  /**
    `probs[t][vocab.index(c)]`: the probability of symbol `c` at timestep
    `t`; 0 where that lookup would fail, which no enumerated path reaches.
  */
  function SymbolProb(vocab: string, probs: seq<seq<real>>, t: nat, c: char): real
  {
    if c in vocab && t < |probs| && IndexOf(vocab, c) < |probs[t]| then probs[t][IndexOf(vocab, c)] else 0.0
  }

  /**
    `combination_prob`: the product, over the timesteps of `p`, of the
    probability of the symbol taken there, starting from 1.
  */
  function PathProb(vocab: string, probs: seq<seq<real>>, p: string): real
  {
    if p == [] then 1.0
    else Mul(PathProb(vocab, probs, p[..|p| - 1]), SymbolProb(vocab, probs, |p| - 1, p[|p| - 1]))
  }

  /** `combination_prob` as a weight on paths. */
  function Weight(vocab: string, probs: seq<seq<real>>): string -> real
  {
    p => PathProb(vocab, probs, p)
  }

  /** The list `res`: each path's collapsed text with the path's weight. */
  function Outcomes(ps: seq<string>, w: string -> real): (r: Items<string>)
    ensures |r| == |ps|
  {
    if ps == [] then []
    else Outcomes(ps[..|ps| - 1], w) + [(Collapse(ps[|ps| - 1]), w(ps[|ps| - 1]))]
  }

  /** Each path's beam key with the path's weight. */
  function Keyed(ps: seq<string>, w: string -> real): (r: Items<Beam>)
    ensures |r| == |ps|
  {
    if ps == [] then []
    else Keyed(ps[..|ps| - 1], w) + [(KeyOf(ps[|ps| - 1]), w(ps[|ps| - 1]))]
  }

  /** Extending `p` by symbol `j` multiplies its weight by `dist[j]`. */
  predicate StepWeights(w: string -> real, p: string, vocab: string, dist: seq<real>)
  {
    forall j :: 0 <= j < |vocab| && j < |dist| ==> w(p + [vocab[j]]) == Mul(w(p), dist[j])
  }

  /**
    The reference ranking over paths of length `t`: `res_unique` summed per
    text, sorted by probability, most probable first.
  */
  function Enumerate(vocab: string, probs: seq<seq<real>>, t: nat): Items<string>
  {
    SortDesc(Merge(Outcomes(AllPaths(vocab, t), Weight(vocab, probs))))
  }

  /** The reference as intended: one path symbol per timestep of the table. */
  function Reference(vocab: string, probs: seq<seq<real>>): Items<string>
  {
    Enumerate(vocab, probs, |probs|)
  }

  /** The reference as written: paths as long as the vocabulary, `repeat(vocab, len(vocab))`. */
  function ReferenceAsWritten(vocab: string, probs: seq<seq<real>>): Items<string>
    requires |vocab| <= |probs|
  {
    Enumerate(vocab, probs, |vocab|)
  }

  // ---------------------------------------------------------------------
  // The enumeration

  lemma {:induction false} AppendedFacts(p: string, vocab: string, n: nat)
    requires n <= |vocab|
    ensures |Appended(p, vocab, n)| == n
    ensures forall j :: 0 <= j < n ==> Appended(p, vocab, n)[j] == p + [vocab[j]]
  {
    if n > 0 {
      AppendedFacts(p, vocab, n - 1);
    }
  }

  /** The extensions of one path are that path followed by one symbol. */
  lemma AppendedMember(p: string, vocab: string, q: string)
    ensures q in Appended(p, vocab, |vocab|) <==>
      q != [] && q[..|q| - 1] == p && q[|q| - 1] in vocab
  {
    var a := Appended(p, vocab, |vocab|);
    AppendedFacts(p, vocab, |vocab|);
    if q in a {
      var j :| 0 <= j < |a| && a[j] == q;
      assert q[..|q| - 1] == p;
    }
    if q != [] && q[..|q| - 1] == p && q[|q| - 1] in vocab {
      var j :| 0 <= j < |vocab| && vocab[j] == q[|q| - 1];
      assert q == q[..|q| - 1] + [q[|q| - 1]];
      assert a[j] == q;
    }
  }

  /** The extensions are exactly the paths of `ps` followed by one more symbol. */
  lemma {:induction false} ExtensionsMember(ps: seq<string>, vocab: string, q: string)
    ensures q in Extensions(ps, vocab) <==>
      q != [] && q[..|q| - 1] in ps && q[|q| - 1] in vocab
  {
    if ps != [] {
      var rest, p := ps[..|ps| - 1], ps[|ps| - 1];
      assert ps == rest + [p];
      ExtensionsMember(rest, vocab, q);
      AppendedMember(p, vocab, q);
      assert Extensions(ps, vocab) == Extensions(rest, vocab) + Appended(p, vocab, |vocab|);
      if q != [] {
        assert q[..|q| - 1] in ps <==> q[..|q| - 1] in rest || q[..|q| - 1] == p;
      }
    }
  }

  lemma {:induction false} ExtensionsLength(ps: seq<string>, vocab: string)
    ensures |Extensions(ps, vocab)| == |vocab| * |ps|
  {
    if ps != [] {
      var rest := ps[..|ps| - 1];
      ExtensionsLength(rest, vocab);
      AppendedFacts(ps[|ps| - 1], vocab, |vocab|);
      assert |Extensions(ps, vocab)| == |vocab| * |rest| + |vocab|;
      assert |vocab| * |rest| + |vocab| == |vocab| * (|rest| + 1);
    }
  }

  /**
    `product(vocab, repeat=t)` yields `|vocab|^t` paths, and a string is one
    of them exactly when it has length `t` and uses only vocabulary symbols.
  */
  lemma {:induction false} AllPathsShape(vocab: string, t: nat)
    ensures |AllPaths(vocab, t)| == Pow(|vocab|, t)
    ensures forall q :: q in AllPaths(vocab, t) <==> |q| == t && IsPath(vocab, q)
  {
    AllPathsLength(vocab, t);
    forall q
      ensures q in AllPaths(vocab, t) <==> |q| == t && IsPath(vocab, q)
    {
      AllPathsMember(vocab, t, q);
    }
  }

  lemma {:induction false} AllPathsLength(vocab: string, t: nat)
    ensures |AllPaths(vocab, t)| == Pow(|vocab|, t)
  {
    if t > 0 {
      AllPathsLength(vocab, t - 1);
      ExtensionsLength(AllPaths(vocab, t - 1), vocab);
    }
  }

  lemma {:induction false} AllPathsMember(vocab: string, t: nat, q: string)
    ensures q in AllPaths(vocab, t) <==> |q| == t && IsPath(vocab, q)
  {
    if t > 0 {
      ExtensionsMember(AllPaths(vocab, t - 1), vocab, q);
      if q != [] {
        var p := q[..|q| - 1];
        AllPathsMember(vocab, t - 1, p);
        assert q == p + [q[|q| - 1]];
        assert IsPath(vocab, q) <==> IsPath(vocab, p) && q[|q| - 1] in vocab;
      }
    } else {
      assert AllPaths(vocab, 0) == [[]];
    }
  }

  // ---------------------------------------------------------------------
  // Paths and beam states

  lemma {:induction false} IndexOfDistinct(vocab: string, j: nat)
    requires DistinctSymbols(vocab) && j < |vocab|
    ensures IndexOf(vocab, vocab[j]) == j
  {
  }

  /** The paths through one more symbol weigh what one more step of `extend_and_merge` gives them. */
  lemma {:induction false} KeyedAppended(p: string, vocab: string, dist: seq<real>, w: string -> real, n: nat)
    requires n <= |dist| == |vocab| && StepWeights(w, p, vocab, dist)
    ensures Keyed(Appended(p, vocab, n), w) == Row(KeyOf(p), w(p), vocab, dist, n)
  {
    if n > 0 {
      KeyedAppended(p, vocab, dist, w, n - 1);
      KeyOfSnoc(p, vocab[n - 1]);
      KeyedSnoc(Appended(p, vocab, n - 1), w, p + [vocab[n - 1]]);
    }
  }

  lemma {:induction false} KeyOfSnoc(p: string, c: char)
    ensures KeyOf(p + [c]) == Step(KeyOf(p), c)
  {
    assert (p + [c])[..|p|] == p;
  }

  /** Path probabilities step by the table row of the path's length. */
  lemma {:induction false} PathProbStepWeights(vocab: string, probs: seq<seq<real>>, p: string)
    requires Rectangular(probs, |vocab|) && DistinctSymbols(vocab) && |p| < |probs|
    ensures StepWeights(Weight(vocab, probs), p, vocab, probs[|p|])
  {
    forall j | 0 <= j < |vocab| && j < |probs[|p|]|
      ensures Weight(vocab, probs)(p + [vocab[j]]) == Mul(Weight(vocab, probs)(p), probs[|p|][j])
    {
      PathProbStep(vocab, probs, p, j);
    }
  }

  /** Taking symbol `j` at the next timestep multiplies the path probability by its entry. */
  lemma {:induction false} PathProbStep(vocab: string, probs: seq<seq<real>>, p: string, j: nat)
    requires Rectangular(probs, |vocab|) && DistinctSymbols(vocab)
    requires j < |vocab| && |p| < |probs|
    ensures PathProb(vocab, probs, p + [vocab[j]]) == Mul(PathProb(vocab, probs, p), probs[|p|][j])
  {
    IndexOfDistinct(vocab, j);
    PathProbSnoc(vocab, probs, p, vocab[j]);
  }

  lemma {:induction false} KeyedSnoc(ps: seq<string>, w: string -> real, q: string)
    ensures Keyed(ps + [q], w) == Keyed(ps, w) + [(KeyOf(q), w(q))]
  {
    assert (ps + [q])[..|ps|] == ps;
  }

  lemma {:induction false} PathProbSnoc(vocab: string, probs: seq<seq<real>>, p: string, c: char)
    ensures PathProb(vocab, probs, p + [c]) == Mul(PathProb(vocab, probs, p), SymbolProb(vocab, probs, |p|, c))
  {
    assert (p + [c])[..|p|] == p;
  }

  /** `KeyedAppended` over all paths: enumerating one step further is `Candidates`. */
  lemma {:induction false} KeyedExtensions(ps: seq<string>, vocab: string, dist: seq<real>, w: string -> real)
    requires |dist| == |vocab|
    requires forall p :: p in ps ==> StepWeights(w, p, vocab, dist)
    ensures Keyed(Extensions(ps, vocab), w) == Candidates(Keyed(ps, w), vocab, dist)
  {
    if ps != [] {
      var rest, p := ps[..|ps| - 1], ps[|ps| - 1];
      assert p in ps;
      assert forall q :: q in rest ==> q in ps;
      KeyedExtensions(rest, vocab, dist, w);
      KeyedAppended(p, vocab, dist, w, |vocab|);
      KeyedAppend(Extensions(rest, vocab), Appended(p, vocab, |vocab|), w);
      assert Keyed(ps, w)[..|ps| - 1] == Keyed(rest, w);
    }
  }

  lemma {:induction false} KeyedAppend(a: seq<string>, b: seq<string>, w: string -> real)
    ensures Keyed(a + b, w) == Keyed(a, w) + Keyed(b, w)
  {
    if b != [] {
      var c, x := b[..|b| - 1], b[|b| - 1];
      assert b == c + [x];
      assert a + b == (a + c) + [x];
      KeyedAppend(a, c, w);
      KeyedSnoc(a + c, w, x);
    } else {
      assert a + b == a;
    }
  }

  /** Dropping the last symbols of the keyed paths gives the outcomes: the key lemma, path by path. */
  lemma {:induction false} ProjectKeyed(ps: seq<string>, w: string -> real)
    ensures Project(Keyed(ps, w)) == Outcomes(ps, w)
  {
    if ps != [] {
      var rest := ps[..|ps| - 1];
      ProjectKeyed(rest, w);
      KeyOfCollapse(ps[|ps| - 1]);
      assert Keyed(ps, w)[..|ps| - 1] == Keyed(rest, w);
    }
  }
}
