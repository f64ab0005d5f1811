/**
  The methods of `CTCCharTextEncoder` as the source writes them, loops and
  all: `ctc_decode`, `extend_and_merge` and `ctc_beam_search`. Each is
  proved against the pure definitions of modules PathCollapse and Beams.
*/
module TextEncoder {
  import opened Dicts
  import opened PathCollapse
  import opened Beams
  import opened Vocabulary

  datatype Result<T, E> = Ok(value: T) | Err(error: E)

  /** Why `ctc_decode` fails: it reads `inds[0]` (IndexError), or an index is no key of `ind2char` (KeyError). */
  datatype DecodeError = EmptyInput | UnknownIndex(pos: nat)

  /** Why `ctc_beam_search` fails: the assertion that the row width is the vocabulary size. */
  datatype SearchError = WidthMismatch

  /** The first `n` indices of `inds` are keys of `ind2char`. */
  predicate KnownUpTo(enc: Encoder, inds: seq<int>, n: nat)
  {
    n <= |inds| && forall j :: 0 <= j < n ==> inds[j] in enc.ind2char
  }

  /** `pos` is the first position of `inds` whose index is no key of `ind2char`. */
  predicate FirstUnknown(enc: Encoder, inds: seq<int>, pos: nat)
  {
    pos < |inds| && inds[pos] !in enc.ind2char && KnownUpTo(enc, inds, pos)
  }

  /** The raw symbols the first `n` indices stand for. */
  function Chars(enc: Encoder, inds: seq<int>, n: nat): (p: string)
    requires KnownUpTo(enc, inds, n)
    ensures |p| == n
  {
    if n == 0 then [] else Chars(enc, inds, n - 1) + [enc.ind2char[inds[n - 1]]]
  }

  /** `[char2ind[c] for c in text]`. */
  function Indices(enc: Encoder, text: string): (inds: seq<int>)
    requires forall i :: 0 <= i < |text| ==> text[i] in enc.char2ind
    ensures |inds| == |text|
  {
    seq(|text|, k requires 0 <= k < |text| => enc.char2ind[text[k]])
  }

  /**
    The one place `ctc_decode` departs from the collapse rule: it tests the
    first INDEX for zero rather than the first symbol for the blank, so an
    alphabet holding `^` at a later index lets a leading `^` through.
  */
  function LeadingBlank(enc: Encoder, inds: seq<int>): string
    requires inds != [] && inds[0] in enc.ind2char
  {
    if inds[0] != 0 && enc.ind2char[inds[0]] == Blank then [Blank] else []
  }

  lemma {:induction false} CharsIndex(enc: Encoder, inds: seq<int>, n: nat, k: nat)
    requires KnownUpTo(enc, inds, n) && k < n
    ensures Chars(enc, inds, n)[k] == enc.ind2char[inds[k]]
  {
    if k < n - 1 {
      CharsIndex(enc, inds, n - 1, k);
    }
  }

  /** What `ctc_decode` holds after reading the first index. */
  lemma {:induction false} DecodeFirst(enc: Encoder, inds: seq<int>)
    requires enc.Valid() && inds != [] && inds[0] in enc.ind2char
    ensures KnownUpTo(enc, inds, 1)
    ensures (if inds[0] != 0 then [enc.ind2char[inds[0]]] else []) ==
      LeadingBlank(enc, inds) + Collapse(Chars(enc, inds, 1))
  {
    EncoderLayout(enc.alphabet);
    assert Chars(enc, inds, 1) == [] + [enc.ind2char[inds[0]]];
    CollapseSnoc([], enc.ind2char[inds[0]]);
  }

  /** One pass of the loop of `ctc_decode` extends the collapse of the raw symbols read so far. */
  lemma {:induction false} DecodeNext(enc: Encoder, inds: seq<int>, i: nat, res: string)
    requires 1 <= i && KnownUpTo(enc, inds, i + 1)
    requires res == LeadingBlank(enc, inds) + Collapse(Chars(enc, inds, i))
    ensures var c, last := enc.ind2char[inds[i]], enc.ind2char[inds[i - 1]];
      (if c != last && c != Blank then res + [c] else res) ==
      LeadingBlank(enc, inds) + Collapse(Chars(enc, inds, i + 1))
  {
    CharsIndex(enc, inds, i, i - 1);
    CollapseSnoc(Chars(enc, inds, i), enc.ind2char[inds[i]]);
  }

  /** A path that starts with a blank collapses to fewer symbols than it has. */
  lemma {:induction false} BlankFirstBound(p: string)
    requires p != [] && p[0] == Blank
    ensures |Collapse(p)| < |p|
  {
    if |p| == 1 {
      CollapseSnoc([], Blank);
      assert p == [] + [Blank];
    } else {
      var q := p[..|p| - 1];
      BlankFirstBound(q);
      assert p == q + [p[|p| - 1]];
      CollapseSnoc(q, p[|p| - 1]);
    }
  }

  /**
    The decoded text is never longer than the index list, and without a `^`
    in the alphabet there is no leading blank and the text holds no blank.
  */
  lemma {:induction false} DecodeBounds(enc: Encoder, inds: seq<int>)
    requires enc.Valid() && inds != [] && KnownUpTo(enc, inds, |inds|)
    ensures |LeadingBlank(enc, inds) + Collapse(Chars(enc, inds, |inds|))| <= |inds|
    ensures BlankFree(enc.alphabet) ==>
      LeadingBlank(enc, inds) == [] && Blank !in Collapse(Chars(enc, inds, |inds|))
  {
    var p := Chars(enc, inds, |inds|);
    CollapseBounds(p);
    if inds[0] != 0 && enc.ind2char[inds[0]] == Blank {
      CharsIndex(enc, inds, |inds|, 0);
      BlankFirstBound(p);
      if BlankFree(enc.alphabet) {
        EncoderLayout(enc.alphabet);
        assert enc.alphabet[inds[0] - 1] == Blank;
      }
    }
  }

  /**
    `ctc_decode(inds)`. On a list of known indices it returns the collapse
    of the raw symbols (with the leading `^` that an index other than 0 can
    carry when the alphabet itself holds `^`); the text is never longer than
    the list, and holds no blank when the alphabet has none. It fails on the
    empty list and at the first index that is no key of `ind2char`.
  */
  method CtcDecode(enc: Encoder, inds: seq<int>) returns (r: Result<string, DecodeError>)
    requires enc.Valid()
    ensures inds == [] <==> r == Err(EmptyInput)
    ensures r.Ok? <==> inds != [] && KnownUpTo(enc, inds, |inds|)
    ensures r.Err? && r.error.UnknownIndex? ==> FirstUnknown(enc, inds, r.error.pos)
    ensures r.Ok? ==> r.value == LeadingBlank(enc, inds) + Collapse(Chars(enc, inds, |inds|))
    ensures r.Ok? ==> |r.value| <= |inds|
    ensures r.Ok? && BlankFree(enc.alphabet) ==>
      r.value == Collapse(Chars(enc, inds, |inds|)) && Blank !in r.value
  {
    if |inds| == 0 {
      return Err(EmptyInput);
    }
    var res: string := [];
    if inds[0] != 0 {
      if inds[0] !in enc.ind2char {
        return Err(UnknownIndex(0));
      }
      res := res + [enc.ind2char[inds[0]]];
    }
    assert inds[0] in enc.ind2char by {
      EncoderLayout(enc.alphabet);
    }
    DecodeFirst(enc, inds);
    for i := 1 to |inds|
      invariant KnownUpTo(enc, inds, i)
      invariant res == LeadingBlank(enc, inds) + Collapse(Chars(enc, inds, i))
    {
      if inds[i] !in enc.ind2char {
        return Err(UnknownIndex(i));
      }
      var newChar := enc.ind2char[inds[i]];
      var lastChar := enc.ind2char[inds[i - 1]];
      DecodeNext(enc, inds, i, res);
      if newChar != lastChar && newChar != Blank {
        res := res + [newChar];
      }
    }
    DecodeBounds(enc, inds);
    return Ok(res);
  }

  /**
    The test's round trip: encoding a text of vocabulary symbols with
    `char2ind` and looking the indices up again gives the text back. For an
    alphabet without `^` and a non-empty text, `ctc_decode` of the encoded
    text is therefore the collapse of the text itself.
  */
  lemma {:induction false} IndicesChars(alphabet: string, text: string)
    requires forall i :: 0 <= i < |text| ==> text[i] in Vocab(alphabet)
    ensures var e := NewEncoder(alphabet);
      (forall i :: 0 <= i < |text| ==> text[i] in e.char2ind)
      && KnownUpTo(e, Indices(e, text), |text|) && Chars(e, Indices(e, text), |text|) == text
    ensures var e := NewEncoder(alphabet);
      BlankFree(alphabet) && text != [] ==>
      LeadingBlank(e, Indices(e, text)) + Collapse(Chars(e, Indices(e, text), |text|)) == Collapse(text)
  {
    var e := NewEncoder(alphabet);
    forall k | 0 <= k < |text|
      ensures text[k] in e.char2ind && e.char2ind[text[k]] in e.ind2char
      ensures e.ind2char[e.char2ind[text[k]]] == text[k]
    {
      CharRoundTrip(alphabet, text[k]);
    }
    var inds := Indices(e, text);
    forall k | 0 <= k < |text|
      ensures Chars(e, inds, |text|)[k] == text[k]
    {
      CharsIndex(e, inds, |text|, k);
    }
    if BlankFree(alphabet) && text != [] {
      DecodeBounds(e, inds);
    }
  }

  /**
    `extend_and_merge(dp, distribution)`: every state is extended by every
    symbol of the row and the masses landing on one key are added up.
  */
  method ExtendAndMergeStep(enc: Encoder, dp: Items<Beam>, dist: seq<real>) returns (newDp: Items<Beam>)
    requires enc.Valid() && |dist| <= |Vocab(enc.alphabet)|
    ensures newDp == ExtendAndMerge(dp, Vocab(enc.alphabet), dist)
  {
    var vocab := Vocab(enc.alphabet);
    newDp := [];
    for i := 0 to |dp|
      invariant newDp == Merge(Candidates(dp[..i], vocab, dist))
    {
      var beam, lastChar, prob := dp[i].0.text, dp[i].0.last, dp[i].1;
      ghost var before := Candidates(dp[..i], vocab, dist);
      assert before + Row(dp[i].0, prob, vocab, dist, 0) == before;
      for charId := 0 to |dist|
        invariant newDp == Merge(before + Row(dp[i].0, prob, vocab, dist, charId))
      {
        SymbolAt(enc, charId);
        var newChar := enc.ind2char[charId];
        var newBeam := if newChar != lastChar then beam + [newChar] else beam;
        newBeam := StripBlanks(newBeam);
        MergeRowSnoc(before, dp[i].0, prob, vocab, dist, charId);
        newDp := AddMass(newDp, Beam(newBeam, newChar), Mul(prob, dist[charId]));
      }
      CandidatesSnoc(dp, vocab, dist, i);
    }
    assert dp[..|dp|] == dp;
  }

  /**
    `ctc_beam_search(probs, beam_size)` on a table of `|probs|` rows of
    `vocSize` entries each. It fails when the width is not the vocabulary
    size; otherwise it returns the ranked hypotheses of the beam search.
  */
  method CtcBeamSearch(enc: Encoder, probs: seq<seq<real>>, vocSize: nat, beamSize: int)
    returns (r: Result<seq<Hypothesis>, SearchError>)
    requires enc.Valid() && Rectangular(probs, vocSize)
    ensures vocSize != |Vocab(enc.alphabet)| <==> r == Err(WidthMismatch)
    ensures vocSize == |Vocab(enc.alphabet)| ==>
      r == Ok(BeamSearch(Vocab(enc.alphabet), probs, beamSize))
  {
    var vocab := Vocab(enc.alphabet);
    IndexMapFacts(vocab, |vocab|);
    if vocSize != |enc.ind2char| {
      return Err(WidthMismatch);
    }
    var dp: Items<Beam> := [(Start, 1.0)];
    for t := 0 to |probs|
      invariant dp == BeamStates(vocab, probs, beamSize, t)
    {
      dp := ExtendAndMergeStep(enc, dp, probs[t]);
      dp := CutBeams(dp, beamSize);
    }
    var hypos: Items<string> := [];
    for i := 0 to |dp|
      invariant hypos == Merge(Project(dp[..i]))
    {
      MergeSnoc(Project(dp[..i]), (dp[i].0.text, dp[i].1));
      assert dp[..i + 1][..i] == dp[..i];
      hypos := AddMass(hypos, dp[i].0.text, dp[i].1);
    }
    assert dp[..|dp|] == dp;
    return Ok(ToHypotheses(SortDesc(hypos)));
  }

  /** The default `beam_size` of `ctc_beam_search`. */
  const DefaultBeamSize: int := 100

  /** `ctc_beam_search(probs)` called without a width: the default width 100. */
  method CtcBeamSearchDefault(enc: Encoder, probs: seq<seq<real>>, vocSize: nat)
    returns (r: Result<seq<Hypothesis>, SearchError>)
    requires enc.Valid() && Rectangular(probs, vocSize)
    ensures vocSize != |Vocab(enc.alphabet)| <==> r == Err(WidthMismatch)
    ensures vocSize == |Vocab(enc.alphabet)| ==>
      r == Ok(BeamSearch(Vocab(enc.alphabet), probs, 100))
  {
    r := CtcBeamSearch(enc, probs, vocSize, DefaultBeamSize);
  }
}
