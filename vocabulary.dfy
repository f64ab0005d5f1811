/**
  The vocabulary of `CTCCharTextEncoder`: the blank at index 0 followed by
  the alphabet, with the two lookup tables `ind2char` and `char2ind` built
  from it once, when the encoder is constructed.
*/
module Vocabulary {
  import opened PathCollapse

  /** `[EMPTY_TOK] + list(alphabet)`. */
  function Vocab(alphabet: string): string
  {
    [Blank] + alphabet
  }

  /** No symbol occurs twice. */
  predicate DistinctSymbols(vocab: string)
  {
    forall i, j :: 0 <= i < j < |vocab| ==> vocab[i] != vocab[j]
  }

  /** `dict(enumerate(vocab))` over the first `n` indices, inserted in increasing order. */
  function IndexMap(vocab: string, n: nat): map<int, char>
    requires n <= |vocab|
  {
    if n == 0 then map[] else IndexMap(vocab, n - 1)[n - 1 := vocab[n - 1]]
  }

  /**
    `{v: k for k, v in ind2char.items()}` over the first `n` indices: the
    indices are visited in increasing order and a later index overwrites an
    earlier one with the same character.
  */
  function Invert(vocab: string, n: nat): map<char, int>
    requires n <= |vocab|
  {
    if n == 0 then map[] else Invert(vocab, n - 1)[vocab[n - 1] := n - 1]
  }

  /** An encoder: its alphabet and the two tables `__init__` builds from it. */
  datatype Encoder = Encoder(alphabet: string, ind2char: map<int, char>, char2ind: map<char, int>)
  {
    /** The tables are the ones `__init__` builds from the alphabet. */
    predicate Valid()
    {
      ind2char == IndexMap(Vocab(alphabet), |alphabet| + 1) && char2ind == Invert(Vocab(alphabet), |alphabet| + 1)
    }
  }

  /** `CTCCharTextEncoder(alphabet)`. */
  function NewEncoder(alphabet: string): (e: Encoder)
    ensures e.Valid() && e.alphabet == alphabet
  {
    var vocab := Vocab(alphabet);
    Encoder(alphabet, IndexMap(vocab, |vocab|), Invert(vocab, |vocab|))
  }

  /** The blank is the only `^` of the vocabulary: it does not occur in the alphabet. */
  predicate BlankFree(alphabet: string)
  {
    Blank !in alphabet
  }

  /** `dict(enumerate(vocab))` over `n` indices has exactly the indices `0..n-1`, each with its symbol. */
  lemma {:induction false} IndexMapFacts(vocab: string, n: nat)
    requires n <= |vocab|
    ensures forall i :: i in IndexMap(vocab, n) <==> 0 <= i < n
    ensures forall i :: 0 <= i < n ==> IndexMap(vocab, n)[i] == vocab[i]
    ensures |IndexMap(vocab, n)| == n
  {
    if n > 0 {
      IndexMapFacts(vocab, n - 1);
    }
  }

  /**
    The vocabulary has the blank at index 0 and the alphabet after it, in
    order: `ind2char` has exactly the |alphabet| + 1 indices `0..|alphabet|`.
  */
  lemma {:induction false} EncoderLayout(alphabet: string)
    ensures var e := NewEncoder(alphabet);
      && (forall i :: i in e.ind2char <==> 0 <= i <= |alphabet|)
      && |e.ind2char| == |alphabet| + 1
      && e.ind2char[0] == Blank
      && (forall i :: 1 <= i <= |alphabet| ==> e.ind2char[i] == alphabet[i - 1])
  {
    IndexMapFacts(Vocab(alphabet), |alphabet| + 1);
  }

  /** `ind2char[k]` is the `k`-th symbol of the vocabulary, for every index `k` of it. */
  lemma SymbolAt(e: Encoder, k: int)
    requires e.Valid() && 0 <= k < |Vocab(e.alphabet)|
    ensures k in e.ind2char && e.ind2char[k] == Vocab(e.alphabet)[k]
  {
    IndexMapFacts(Vocab(e.alphabet), |e.alphabet| + 1);
  }

  /**
    `char2ind` over the first `n` indices holds exactly the characters among
    them, each mapped to the LAST index where it occurs.
  */
  lemma {:induction false} InvertFacts(vocab: string, n: nat, c: char)
    requires n <= |vocab|
    ensures c in Invert(vocab, n) <==> c in vocab[..n]
    ensures c in Invert(vocab, n) ==>
      var k := Invert(vocab, n)[c];
      && 0 <= k < n && vocab[k] == c
      && forall i :: k < i < n ==> vocab[i] != c
  {
    if n > 0 {
      InvertFacts(vocab, n - 1, c);
      assert vocab[..n] == vocab[..n - 1] + [vocab[n - 1]];
    }
  }

  /** Looking a character up and back always gives the character again. */
  lemma {:induction false} CharRoundTrip(alphabet: string, c: char)
    ensures var e := NewEncoder(alphabet);
      c in e.char2ind <==> c in Vocab(alphabet)
    ensures var e := NewEncoder(alphabet);
      c in e.char2ind ==> e.char2ind[c] in e.ind2char && e.ind2char[e.char2ind[c]] == c
  {
    var vocab := Vocab(alphabet);
    InvertFacts(vocab, |vocab|, c);
    IndexMapFacts(vocab, |vocab|);
    assert vocab[..|vocab|] == vocab;
  }

  /**
    Looking an index up and back gives the index again for every index
    exactly when no symbol of the vocabulary repeats: the two tables are
    mutual inverses just for an alphabet of distinct symbols other than the
    blank.
  */
  lemma {:induction false} IndexRoundTrip(alphabet: string)
    ensures var e := NewEncoder(alphabet);
      (forall i :: i in e.ind2char ==> e.ind2char[i] in e.char2ind && e.char2ind[e.ind2char[i]] == i)
      <==> DistinctSymbols(Vocab(alphabet))
  {
    var e, vocab := NewEncoder(alphabet), Vocab(alphabet);
    assert vocab[..|vocab|] == vocab;
    IndexMapFacts(vocab, |vocab|);
    if DistinctSymbols(vocab) {
      forall i | i in e.ind2char
        ensures e.ind2char[i] in e.char2ind && e.char2ind[e.ind2char[i]] == i
      {
        InvertFacts(vocab, |vocab|, vocab[i]);
      }
    } else {
      var i, j :| 0 <= i < j < |vocab| && vocab[i] == vocab[j];
      InvertFacts(vocab, |vocab|, vocab[i]);
      assert e.char2ind[e.ind2char[i]] != i;
    }
  }

  /** The vocabulary has no repeated symbol just when the alphabet has none and no blank. */
  lemma {:induction false} DistinctVocab(alphabet: string)
    ensures DistinctSymbols(Vocab(alphabet)) <==> BlankFree(alphabet) && DistinctSymbols(alphabet)
  {
    var vocab := Vocab(alphabet);
    if BlankFree(alphabet) && DistinctSymbols(alphabet) {
      forall i, j | 0 <= i < j < |vocab|
        ensures vocab[i] != vocab[j]
      {
        if i > 0 {
          assert vocab[i] == alphabet[i - 1] && vocab[j] == alphabet[j - 1];
        } else {
          assert vocab[j] == alphabet[j - 1];
        }
      }
    }
    if DistinctSymbols(vocab) {
      forall k | 0 <= k < |alphabet|
        ensures alphabet[k] != Blank
      {
        assert vocab[0] == Blank && vocab[k + 1] == alphabet[k];
      }
      forall i, j | 0 <= i < j < |alphabet|
        ensures alphabet[i] != alphabet[j]
      {
        assert vocab[i + 1] == alphabet[i] && vocab[j + 1] == alphabet[j];
      }
    }
  }
}
