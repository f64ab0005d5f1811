/**
  The beam search of `test_beam_search` (src/tests/test_text_encoder.py:20-38)
  evaluated step by step on the model: vocabulary `^cat`, two timesteps,
  beam width 3. Each lemma fixes one intermediate value (one extension of a
  beam, the merged candidates after one more symbol, one more item of a
  sort), so that the final ranking follows from small steps.
*/
module CatExample {
  import opened Dicts
  import opened PathCollapse
  import opened Beams

  // ---------------------------------------------------------------------
  // One step of a beam, as `extend_and_merge` computes it.

  /**
    One step of a beam with a blank-free text: the symbol is appended exactly
    when it is new and not the blank, and it becomes the last raw symbol.
  */
  lemma {:induction false} StepTo(b: Beam, c: char, text: string)
    requires Blank !in b.text
    requires text == b.text + (if c != b.last && c != Blank then [c] else [])
    ensures Step(b, c) == Beam(text, c)
  {
    StepFacts(b, c);
  }

  // ---------------------------------------------------------------------
  // First timestep: the candidates of the start beam merged one symbol at a
  // time, in the order `extend_and_merge` visits them, then sorted.

  lemma {:induction false} FirstAdd1(m: Items<Beam>, k: Beam, x: real)
    requires m == [] && k == Beam("", '^') && x == 0.0
    ensures AddMass(m, k, x) == [(Beam("", '^'), 0.0)]
  {
    assert AddMass([], Beam("", '^'), 0.0) == [(Beam("", '^'), 0.0)];
  }

  lemma {:induction false} FirstMerge1(before: Items<Beam>, b: Beam, m: real)
    requires b == Beam("", '^') && m == 1.0
    requires Merge(before + Row(b, m, "^cat", [0.0, 0.3, 0.5, 0.2], 0)) == []
    ensures Merge(before + Row(b, m, "^cat", [0.0, 0.3, 0.5, 0.2], 1)) == [(Beam("", '^'), 0.0)]
  {
    MergeRowSnoc(before, b, m, "^cat", [0.0, 0.3, 0.5, 0.2], 0);
    assert "^cat"[0] == '^';
    StepTo(b, '^', "");
    assert Mul(m, [0.0, 0.3, 0.5, 0.2][0]) == 0.0;
    FirstAdd1(Merge(before + Row(b, m, "^cat", [0.0, 0.3, 0.5, 0.2], 0)), Step(b, "^cat"[0]), Mul(m, [0.0, 0.3, 0.5, 0.2][0]));
  }

  lemma {:induction false} FirstAdd2(m: Items<Beam>, k: Beam, x: real)
    requires m == [(Beam("", '^'), 0.0)] && k == Beam("c", 'c') && x == 0.3
    ensures AddMass(m, k, x) == [(Beam("", '^'), 0.0), (Beam("c", 'c'), 0.3)]
  {
    AddMassFresh([(Beam("", '^'), 0.0)], Beam("c", 'c'), 0.3);
    assert [(Beam("", '^'), 0.0)] + [(Beam("c", 'c'), 0.3)] == [(Beam("", '^'), 0.0), (Beam("c", 'c'), 0.3)];
  }

  lemma {:induction false} FirstMerge2(before: Items<Beam>, b: Beam, m: real)
    requires b == Beam("", '^') && m == 1.0
    requires Merge(before + Row(b, m, "^cat", [0.0, 0.3, 0.5, 0.2], 1)) == [(Beam("", '^'), 0.0)]
    ensures Merge(before + Row(b, m, "^cat", [0.0, 0.3, 0.5, 0.2], 2)) == [(Beam("", '^'), 0.0), (Beam("c", 'c'), 0.3)]
  {
    MergeRowSnoc(before, b, m, "^cat", [0.0, 0.3, 0.5, 0.2], 1);
    assert "^cat"[1] == 'c';
    assert b.text + ['c'] == "c";
    StepTo(b, 'c', "c");
    assert Mul(m, [0.0, 0.3, 0.5, 0.2][1]) == 0.3;
    FirstAdd2(Merge(before + Row(b, m, "^cat", [0.0, 0.3, 0.5, 0.2], 1)), Step(b, "^cat"[1]), Mul(m, [0.0, 0.3, 0.5, 0.2][1]));
  }

  lemma {:induction false} FirstAdd3(m: Items<Beam>, k: Beam, x: real)
    requires m == [(Beam("", '^'), 0.0), (Beam("c", 'c'), 0.3)] && k == Beam("a", 'a') && x == 0.5
    ensures AddMass(m, k, x) == [(Beam("", '^'), 0.0), (Beam("c", 'c'), 0.3), (Beam("a", 'a'), 0.5)]
  {
    AddMassFresh([(Beam("", '^'), 0.0), (Beam("c", 'c'), 0.3)], Beam("a", 'a'), 0.5);
    assert [(Beam("", '^'), 0.0), (Beam("c", 'c'), 0.3)] + [(Beam("a", 'a'), 0.5)] == [(Beam("", '^'), 0.0), (Beam("c", 'c'), 0.3), (Beam("a", 'a'), 0.5)];
  }

  lemma {:induction false} FirstMerge3(before: Items<Beam>, b: Beam, m: real)
    requires b == Beam("", '^') && m == 1.0
    requires Merge(before + Row(b, m, "^cat", [0.0, 0.3, 0.5, 0.2], 2)) == [(Beam("", '^'), 0.0), (Beam("c", 'c'), 0.3)]
    ensures Merge(before + Row(b, m, "^cat", [0.0, 0.3, 0.5, 0.2], 3)) == [(Beam("", '^'), 0.0), (Beam("c", 'c'), 0.3), (Beam("a", 'a'), 0.5)]
  {
    MergeRowSnoc(before, b, m, "^cat", [0.0, 0.3, 0.5, 0.2], 2);
    assert "^cat"[2] == 'a';
    assert b.text + ['a'] == "a";
    StepTo(b, 'a', "a");
    assert Mul(m, [0.0, 0.3, 0.5, 0.2][2]) == 0.5;
    FirstAdd3(Merge(before + Row(b, m, "^cat", [0.0, 0.3, 0.5, 0.2], 2)), Step(b, "^cat"[2]), Mul(m, [0.0, 0.3, 0.5, 0.2][2]));
  }

  lemma {:induction false} FirstAdd4(m: Items<Beam>, k: Beam, x: real)
    requires m == [(Beam("", '^'), 0.0), (Beam("c", 'c'), 0.3), (Beam("a", 'a'), 0.5)] && k == Beam("t", 't') && x == 0.2
    ensures AddMass(m, k, x) == [(Beam("", '^'), 0.0), (Beam("c", 'c'), 0.3), (Beam("a", 'a'), 0.5), (Beam("t", 't'), 0.2)]
  {
    AddMassFresh([(Beam("", '^'), 0.0), (Beam("c", 'c'), 0.3), (Beam("a", 'a'), 0.5)], Beam("t", 't'), 0.2);
    assert [(Beam("", '^'), 0.0), (Beam("c", 'c'), 0.3), (Beam("a", 'a'), 0.5)] + [(Beam("t", 't'), 0.2)] == [(Beam("", '^'), 0.0), (Beam("c", 'c'), 0.3), (Beam("a", 'a'), 0.5), (Beam("t", 't'), 0.2)];
  }

  lemma {:induction false} FirstMerge4(before: Items<Beam>, b: Beam, m: real)
    requires b == Beam("", '^') && m == 1.0
    requires Merge(before + Row(b, m, "^cat", [0.0, 0.3, 0.5, 0.2], 3)) == [(Beam("", '^'), 0.0), (Beam("c", 'c'), 0.3), (Beam("a", 'a'), 0.5)]
    ensures Merge(before + Row(b, m, "^cat", [0.0, 0.3, 0.5, 0.2], 4)) == [(Beam("", '^'), 0.0), (Beam("c", 'c'), 0.3), (Beam("a", 'a'), 0.5), (Beam("t", 't'), 0.2)]
  {
    MergeRowSnoc(before, b, m, "^cat", [0.0, 0.3, 0.5, 0.2], 3);
    assert "^cat"[3] == 't';
    assert b.text + ['t'] == "t";
    StepTo(b, 't', "t");
    assert Mul(m, [0.0, 0.3, 0.5, 0.2][3]) == 0.2;
    FirstAdd4(Merge(before + Row(b, m, "^cat", [0.0, 0.3, 0.5, 0.2], 3)), Step(b, "^cat"[3]), Mul(m, [0.0, 0.3, 0.5, 0.2][3]));
  }

  lemma {:induction false} FirstMergeBeam0(dp: Items<Beam>)
    requires dp == [(Beam("", '^'), 1.0)]
    ensures Merge(Candidates(dp[..1], "^cat", [0.0, 0.3, 0.5, 0.2])) == [(Beam("", '^'), 0.0), (Beam("c", 'c'), 0.3), (Beam("a", 'a'), 0.5), (Beam("t", 't'), 0.2)]
  {
    var before := Candidates(dp[..0], "^cat", [0.0, 0.3, 0.5, 0.2]);
    assert dp[..0] == [];
    var b, m := dp[0].0, dp[0].1;
    assert before + Row(b, m, "^cat", [0.0, 0.3, 0.5, 0.2], 0) == before;
    FirstMerge1(before, b, m);
    FirstMerge2(before, b, m);
    FirstMerge3(before, b, m);
    FirstMerge4(before, b, m);
    CandidatesSnoc(dp, "^cat", [0.0, 0.3, 0.5, 0.2], 0);
  }

  lemma {:induction false} FirstSort1(s: Items<Beam>)
    requires s == [(Beam("", '^'), 0.0)]
    ensures SortDesc(s) == [(Beam("", '^'), 0.0)]
  {
    assert s[..0] == [];
  }

  lemma {:induction false} FirstInsert2(x: (Beam, real), r: Items<Beam>)
    requires x == (Beam("c", 'c'), 0.3) && r == [(Beam("", '^'), 0.0)]
    ensures InsertDesc(x, r) == [(Beam("c", 'c'), 0.3), (Beam("", '^'), 0.0)]
  {
    InsertDescAt((Beam("c", 'c'), 0.3), [], [(Beam("", '^'), 0.0)]);
    assert [] + [(Beam("c", 'c'), 0.3)] + [(Beam("", '^'), 0.0)] == [(Beam("c", 'c'), 0.3), (Beam("", '^'), 0.0)];
  }

  lemma {:induction false} FirstSort2(s: Items<Beam>)
    requires s == [(Beam("", '^'), 0.0), (Beam("c", 'c'), 0.3)]
    ensures SortDesc(s) == [(Beam("c", 'c'), 0.3), (Beam("", '^'), 0.0)]
  {
    assert s[..1] == [(Beam("", '^'), 0.0)];
    FirstSort1(s[..1]);
    FirstInsert2(s[1], SortDesc(s[..1]));
  }

  lemma {:induction false} FirstInsert3(x: (Beam, real), r: Items<Beam>)
    requires x == (Beam("a", 'a'), 0.5) && r == [(Beam("c", 'c'), 0.3), (Beam("", '^'), 0.0)]
    ensures InsertDesc(x, r) == [(Beam("a", 'a'), 0.5), (Beam("c", 'c'), 0.3), (Beam("", '^'), 0.0)]
  {
    InsertDescAt((Beam("a", 'a'), 0.5), [], [(Beam("c", 'c'), 0.3), (Beam("", '^'), 0.0)]);
    assert [] + [(Beam("a", 'a'), 0.5)] + [(Beam("c", 'c'), 0.3), (Beam("", '^'), 0.0)] == [(Beam("a", 'a'), 0.5), (Beam("c", 'c'), 0.3), (Beam("", '^'), 0.0)];
  }

  lemma {:induction false} FirstSort3(s: Items<Beam>)
    requires s == [(Beam("", '^'), 0.0), (Beam("c", 'c'), 0.3), (Beam("a", 'a'), 0.5)]
    ensures SortDesc(s) == [(Beam("a", 'a'), 0.5), (Beam("c", 'c'), 0.3), (Beam("", '^'), 0.0)]
  {
    assert s[..2] == [(Beam("", '^'), 0.0), (Beam("c", 'c'), 0.3)];
    FirstSort2(s[..2]);
    FirstInsert3(s[2], SortDesc(s[..2]));
  }

  lemma {:induction false} FirstInsert4(x: (Beam, real), r: Items<Beam>)
    requires x == (Beam("t", 't'), 0.2) && r == [(Beam("a", 'a'), 0.5), (Beam("c", 'c'), 0.3), (Beam("", '^'), 0.0)]
    ensures InsertDesc(x, r) == [(Beam("a", 'a'), 0.5), (Beam("c", 'c'), 0.3), (Beam("t", 't'), 0.2), (Beam("", '^'), 0.0)]
  {
    InsertDescAt((Beam("t", 't'), 0.2), [(Beam("a", 'a'), 0.5), (Beam("c", 'c'), 0.3)], [(Beam("", '^'), 0.0)]);
    assert [(Beam("a", 'a'), 0.5), (Beam("c", 'c'), 0.3)] + [(Beam("", '^'), 0.0)] == [(Beam("a", 'a'), 0.5), (Beam("c", 'c'), 0.3), (Beam("", '^'), 0.0)];
    assert [(Beam("a", 'a'), 0.5), (Beam("c", 'c'), 0.3)] + [(Beam("t", 't'), 0.2)] + [(Beam("", '^'), 0.0)] == [(Beam("a", 'a'), 0.5), (Beam("c", 'c'), 0.3), (Beam("t", 't'), 0.2), (Beam("", '^'), 0.0)];
  }

  lemma {:induction false} FirstSort4(s: Items<Beam>)
    requires s == [(Beam("", '^'), 0.0), (Beam("c", 'c'), 0.3), (Beam("a", 'a'), 0.5), (Beam("t", 't'), 0.2)]
    ensures SortDesc(s) == [(Beam("a", 'a'), 0.5), (Beam("c", 'c'), 0.3), (Beam("t", 't'), 0.2), (Beam("", '^'), 0.0)]
  {
    assert s[..3] == [(Beam("", '^'), 0.0), (Beam("c", 'c'), 0.3), (Beam("a", 'a'), 0.5)];
    FirstSort3(s[..3]);
    FirstInsert4(s[3], SortDesc(s[..3]));
  }

  // ---------------------------------------------------------------------
  // Second timestep: the candidates of the three beams merged one symbol at a
  // time, then sorted.

  lemma {:induction false} SecondAdd1(m: Items<Beam>, k: Beam, x: real)
    requires m == [] && k == Beam("a", '^') && x == 0.0
    ensures AddMass(m, k, x) == [(Beam("a", '^'), 0.0)]
  {
    assert AddMass([], Beam("a", '^'), 0.0) == [(Beam("a", '^'), 0.0)];
  }

  lemma {:induction false} SecondMerge1(before: Items<Beam>, b: Beam, m: real)
    requires b == Beam("a", 'a') && m == 0.5
    requires Merge(before + Row(b, m, "^cat", [0.0, 0.3, 0.3, 0.4], 0)) == []
    ensures Merge(before + Row(b, m, "^cat", [0.0, 0.3, 0.3, 0.4], 1)) == [(Beam("a", '^'), 0.0)]
  {
    MergeRowSnoc(before, b, m, "^cat", [0.0, 0.3, 0.3, 0.4], 0);
    assert "^cat"[0] == '^';
    StepTo(b, '^', "a");
    assert Mul(m, [0.0, 0.3, 0.3, 0.4][0]) == 0.0;
    SecondAdd1(Merge(before + Row(b, m, "^cat", [0.0, 0.3, 0.3, 0.4], 0)), Step(b, "^cat"[0]), Mul(m, [0.0, 0.3, 0.3, 0.4][0]));
  }

  lemma {:induction false} SecondAdd2(m: Items<Beam>, k: Beam, x: real)
    requires m == [(Beam("a", '^'), 0.0)] && k == Beam("ac", 'c') && x == 0.15
    ensures AddMass(m, k, x) == [(Beam("a", '^'), 0.0), (Beam("ac", 'c'), 0.15)]
  {
    AddMassFresh([(Beam("a", '^'), 0.0)], Beam("ac", 'c'), 0.15);
    assert [(Beam("a", '^'), 0.0)] + [(Beam("ac", 'c'), 0.15)] == [(Beam("a", '^'), 0.0), (Beam("ac", 'c'), 0.15)];
  }

  lemma {:induction false} SecondMerge2(before: Items<Beam>, b: Beam, m: real)
    requires b == Beam("a", 'a') && m == 0.5
    requires Merge(before + Row(b, m, "^cat", [0.0, 0.3, 0.3, 0.4], 1)) == [(Beam("a", '^'), 0.0)]
    ensures Merge(before + Row(b, m, "^cat", [0.0, 0.3, 0.3, 0.4], 2)) == [(Beam("a", '^'), 0.0), (Beam("ac", 'c'), 0.15)]
  {
    MergeRowSnoc(before, b, m, "^cat", [0.0, 0.3, 0.3, 0.4], 1);
    assert "^cat"[1] == 'c';
    assert b.text + ['c'] == "ac";
    StepTo(b, 'c', "ac");
    assert Mul(m, [0.0, 0.3, 0.3, 0.4][1]) == 0.15;
    SecondAdd2(Merge(before + Row(b, m, "^cat", [0.0, 0.3, 0.3, 0.4], 1)), Step(b, "^cat"[1]), Mul(m, [0.0, 0.3, 0.3, 0.4][1]));
  }

  lemma {:induction false} SecondAdd3(m: Items<Beam>, k: Beam, x: real)
    requires m == [(Beam("a", '^'), 0.0), (Beam("ac", 'c'), 0.15)] && k == Beam("a", 'a') && x == 0.15
    ensures AddMass(m, k, x) == [(Beam("a", '^'), 0.0), (Beam("ac", 'c'), 0.15), (Beam("a", 'a'), 0.15)]
  {
    AddMassFresh([(Beam("a", '^'), 0.0), (Beam("ac", 'c'), 0.15)], Beam("a", 'a'), 0.15);
    assert [(Beam("a", '^'), 0.0), (Beam("ac", 'c'), 0.15)] + [(Beam("a", 'a'), 0.15)] == [(Beam("a", '^'), 0.0), (Beam("ac", 'c'), 0.15), (Beam("a", 'a'), 0.15)];
  }

  lemma {:induction false} SecondMerge3(before: Items<Beam>, b: Beam, m: real)
    requires b == Beam("a", 'a') && m == 0.5
    requires Merge(before + Row(b, m, "^cat", [0.0, 0.3, 0.3, 0.4], 2)) == [(Beam("a", '^'), 0.0), (Beam("ac", 'c'), 0.15)]
    ensures Merge(before + Row(b, m, "^cat", [0.0, 0.3, 0.3, 0.4], 3)) == [(Beam("a", '^'), 0.0), (Beam("ac", 'c'), 0.15), (Beam("a", 'a'), 0.15)]
  {
    MergeRowSnoc(before, b, m, "^cat", [0.0, 0.3, 0.3, 0.4], 2);
    assert "^cat"[2] == 'a';
    StepTo(b, 'a', "a");
    assert Mul(m, [0.0, 0.3, 0.3, 0.4][2]) == 0.15;
    SecondAdd3(Merge(before + Row(b, m, "^cat", [0.0, 0.3, 0.3, 0.4], 2)), Step(b, "^cat"[2]), Mul(m, [0.0, 0.3, 0.3, 0.4][2]));
  }

  lemma {:induction false} SecondAdd4(m: Items<Beam>, k: Beam, x: real)
    requires m == [(Beam("a", '^'), 0.0), (Beam("ac", 'c'), 0.15), (Beam("a", 'a'), 0.15)] && k == Beam("at", 't') && x == 0.2
    ensures AddMass(m, k, x) == [(Beam("a", '^'), 0.0), (Beam("ac", 'c'), 0.15), (Beam("a", 'a'), 0.15), (Beam("at", 't'), 0.2)]
  {
    AddMassFresh([(Beam("a", '^'), 0.0), (Beam("ac", 'c'), 0.15), (Beam("a", 'a'), 0.15)], Beam("at", 't'), 0.2);
    assert [(Beam("a", '^'), 0.0), (Beam("ac", 'c'), 0.15), (Beam("a", 'a'), 0.15)] + [(Beam("at", 't'), 0.2)] == [(Beam("a", '^'), 0.0), (Beam("ac", 'c'), 0.15), (Beam("a", 'a'), 0.15), (Beam("at", 't'), 0.2)];
  }

  lemma {:induction false} SecondMerge4(before: Items<Beam>, b: Beam, m: real)
    requires b == Beam("a", 'a') && m == 0.5
    requires Merge(before + Row(b, m, "^cat", [0.0, 0.3, 0.3, 0.4], 3)) == [(Beam("a", '^'), 0.0), (Beam("ac", 'c'), 0.15), (Beam("a", 'a'), 0.15)]
    ensures Merge(before + Row(b, m, "^cat", [0.0, 0.3, 0.3, 0.4], 4)) == [(Beam("a", '^'), 0.0), (Beam("ac", 'c'), 0.15), (Beam("a", 'a'), 0.15), (Beam("at", 't'), 0.2)]
  {
    MergeRowSnoc(before, b, m, "^cat", [0.0, 0.3, 0.3, 0.4], 3);
    assert "^cat"[3] == 't';
    assert b.text + ['t'] == "at";
    StepTo(b, 't', "at");
    assert Mul(m, [0.0, 0.3, 0.3, 0.4][3]) == 0.2;
    SecondAdd4(Merge(before + Row(b, m, "^cat", [0.0, 0.3, 0.3, 0.4], 3)), Step(b, "^cat"[3]), Mul(m, [0.0, 0.3, 0.3, 0.4][3]));
  }

  lemma {:induction false} SecondMergeBeam0(dp: Items<Beam>)
    requires dp == [(Beam("a", 'a'), 0.5), (Beam("c", 'c'), 0.3), (Beam("t", 't'), 0.2)]
    ensures Merge(Candidates(dp[..1], "^cat", [0.0, 0.3, 0.3, 0.4])) == [(Beam("a", '^'), 0.0), (Beam("ac", 'c'), 0.15), (Beam("a", 'a'), 0.15), (Beam("at", 't'), 0.2)]
  {
    var before := Candidates(dp[..0], "^cat", [0.0, 0.3, 0.3, 0.4]);
    assert dp[..0] == [];
    var b, m := dp[0].0, dp[0].1;
    assert before + Row(b, m, "^cat", [0.0, 0.3, 0.3, 0.4], 0) == before;
    SecondMerge1(before, b, m);
    SecondMerge2(before, b, m);
    SecondMerge3(before, b, m);
    SecondMerge4(before, b, m);
    CandidatesSnoc(dp, "^cat", [0.0, 0.3, 0.3, 0.4], 0);
  }

  lemma {:induction false} SecondAdd5(m: Items<Beam>, k: Beam, x: real)
    requires m == [(Beam("a", '^'), 0.0), (Beam("ac", 'c'), 0.15), (Beam("a", 'a'), 0.15), (Beam("at", 't'), 0.2)] && k == Beam("c", '^') && x == 0.0
    ensures AddMass(m, k, x) == [(Beam("a", '^'), 0.0), (Beam("ac", 'c'), 0.15), (Beam("a", 'a'), 0.15), (Beam("at", 't'), 0.2), (Beam("c", '^'), 0.0)]
  {
    AddMassFresh([(Beam("a", '^'), 0.0), (Beam("ac", 'c'), 0.15), (Beam("a", 'a'), 0.15), (Beam("at", 't'), 0.2)], Beam("c", '^'), 0.0);
    assert [(Beam("a", '^'), 0.0), (Beam("ac", 'c'), 0.15), (Beam("a", 'a'), 0.15), (Beam("at", 't'), 0.2)] + [(Beam("c", '^'), 0.0)] == [(Beam("a", '^'), 0.0), (Beam("ac", 'c'), 0.15), (Beam("a", 'a'), 0.15), (Beam("at", 't'), 0.2), (Beam("c", '^'), 0.0)];
  }

  lemma {:induction false} SecondMerge5(before: Items<Beam>, b: Beam, m: real)
    requires b == Beam("c", 'c') && m == 0.3
    requires Merge(before + Row(b, m, "^cat", [0.0, 0.3, 0.3, 0.4], 0)) == [(Beam("a", '^'), 0.0), (Beam("ac", 'c'), 0.15), (Beam("a", 'a'), 0.15), (Beam("at", 't'), 0.2)]
    ensures Merge(before + Row(b, m, "^cat", [0.0, 0.3, 0.3, 0.4], 1)) == [(Beam("a", '^'), 0.0), (Beam("ac", 'c'), 0.15), (Beam("a", 'a'), 0.15), (Beam("at", 't'), 0.2), (Beam("c", '^'), 0.0)]
  {
    MergeRowSnoc(before, b, m, "^cat", [0.0, 0.3, 0.3, 0.4], 0);
    assert "^cat"[0] == '^';
    StepTo(b, '^', "c");
    assert Mul(m, [0.0, 0.3, 0.3, 0.4][0]) == 0.0;
    SecondAdd5(Merge(before + Row(b, m, "^cat", [0.0, 0.3, 0.3, 0.4], 0)), Step(b, "^cat"[0]), Mul(m, [0.0, 0.3, 0.3, 0.4][0]));
  }

  lemma {:induction false} SecondAdd6(m: Items<Beam>, k: Beam, x: real)
    requires m == [(Beam("a", '^'), 0.0), (Beam("ac", 'c'), 0.15), (Beam("a", 'a'), 0.15), (Beam("at", 't'), 0.2), (Beam("c", '^'), 0.0)] && k == Beam("c", 'c') && x == 0.09
    ensures AddMass(m, k, x) == [(Beam("a", '^'), 0.0), (Beam("ac", 'c'), 0.15), (Beam("a", 'a'), 0.15), (Beam("at", 't'), 0.2), (Beam("c", '^'), 0.0), (Beam("c", 'c'), 0.09)]
  {
    AddMassFresh([(Beam("a", '^'), 0.0), (Beam("ac", 'c'), 0.15), (Beam("a", 'a'), 0.15), (Beam("at", 't'), 0.2), (Beam("c", '^'), 0.0)], Beam("c", 'c'), 0.09);
    assert [(Beam("a", '^'), 0.0), (Beam("ac", 'c'), 0.15), (Beam("a", 'a'), 0.15), (Beam("at", 't'), 0.2), (Beam("c", '^'), 0.0)] + [(Beam("c", 'c'), 0.09)] == [(Beam("a", '^'), 0.0), (Beam("ac", 'c'), 0.15), (Beam("a", 'a'), 0.15), (Beam("at", 't'), 0.2), (Beam("c", '^'), 0.0), (Beam("c", 'c'), 0.09)];
  }

  lemma {:induction false} SecondMerge6(before: Items<Beam>, b: Beam, m: real)
    requires b == Beam("c", 'c') && m == 0.3
    requires Merge(before + Row(b, m, "^cat", [0.0, 0.3, 0.3, 0.4], 1)) == [(Beam("a", '^'), 0.0), (Beam("ac", 'c'), 0.15), (Beam("a", 'a'), 0.15), (Beam("at", 't'), 0.2), (Beam("c", '^'), 0.0)]
    ensures Merge(before + Row(b, m, "^cat", [0.0, 0.3, 0.3, 0.4], 2)) == [(Beam("a", '^'), 0.0), (Beam("ac", 'c'), 0.15), (Beam("a", 'a'), 0.15), (Beam("at", 't'), 0.2), (Beam("c", '^'), 0.0), (Beam("c", 'c'), 0.09)]
  {
    MergeRowSnoc(before, b, m, "^cat", [0.0, 0.3, 0.3, 0.4], 1);
    assert "^cat"[1] == 'c';
    StepTo(b, 'c', "c");
    assert Mul(m, [0.0, 0.3, 0.3, 0.4][1]) == 0.09;
    SecondAdd6(Merge(before + Row(b, m, "^cat", [0.0, 0.3, 0.3, 0.4], 1)), Step(b, "^cat"[1]), Mul(m, [0.0, 0.3, 0.3, 0.4][1]));
  }

  lemma {:induction false} SecondAdd7(m: Items<Beam>, k: Beam, x: real)
    requires m == [(Beam("a", '^'), 0.0), (Beam("ac", 'c'), 0.15), (Beam("a", 'a'), 0.15), (Beam("at", 't'), 0.2), (Beam("c", '^'), 0.0), (Beam("c", 'c'), 0.09)] && k == Beam("ca", 'a') && x == 0.09
    ensures AddMass(m, k, x) == [(Beam("a", '^'), 0.0), (Beam("ac", 'c'), 0.15), (Beam("a", 'a'), 0.15), (Beam("at", 't'), 0.2), (Beam("c", '^'), 0.0), (Beam("c", 'c'), 0.09), (Beam("ca", 'a'), 0.09)]
  {
    AddMassFresh([(Beam("a", '^'), 0.0), (Beam("ac", 'c'), 0.15), (Beam("a", 'a'), 0.15), (Beam("at", 't'), 0.2), (Beam("c", '^'), 0.0), (Beam("c", 'c'), 0.09)], Beam("ca", 'a'), 0.09);
    assert [(Beam("a", '^'), 0.0), (Beam("ac", 'c'), 0.15), (Beam("a", 'a'), 0.15), (Beam("at", 't'), 0.2), (Beam("c", '^'), 0.0), (Beam("c", 'c'), 0.09)] + [(Beam("ca", 'a'), 0.09)] == [(Beam("a", '^'), 0.0), (Beam("ac", 'c'), 0.15), (Beam("a", 'a'), 0.15), (Beam("at", 't'), 0.2), (Beam("c", '^'), 0.0), (Beam("c", 'c'), 0.09), (Beam("ca", 'a'), 0.09)];
  }

  lemma {:induction false} SecondMerge7(before: Items<Beam>, b: Beam, m: real)
    requires b == Beam("c", 'c') && m == 0.3
    requires Merge(before + Row(b, m, "^cat", [0.0, 0.3, 0.3, 0.4], 2)) == [(Beam("a", '^'), 0.0), (Beam("ac", 'c'), 0.15), (Beam("a", 'a'), 0.15), (Beam("at", 't'), 0.2), (Beam("c", '^'), 0.0), (Beam("c", 'c'), 0.09)]
    ensures Merge(before + Row(b, m, "^cat", [0.0, 0.3, 0.3, 0.4], 3)) == [(Beam("a", '^'), 0.0), (Beam("ac", 'c'), 0.15), (Beam("a", 'a'), 0.15), (Beam("at", 't'), 0.2), (Beam("c", '^'), 0.0), (Beam("c", 'c'), 0.09), (Beam("ca", 'a'), 0.09)]
  {
    MergeRowSnoc(before, b, m, "^cat", [0.0, 0.3, 0.3, 0.4], 2);
    assert "^cat"[2] == 'a';
    assert b.text + ['a'] == "ca";
    StepTo(b, 'a', "ca");
    assert Mul(m, [0.0, 0.3, 0.3, 0.4][2]) == 0.09;
    SecondAdd7(Merge(before + Row(b, m, "^cat", [0.0, 0.3, 0.3, 0.4], 2)), Step(b, "^cat"[2]), Mul(m, [0.0, 0.3, 0.3, 0.4][2]));
  }

  lemma {:induction false} SecondAdd8(m: Items<Beam>, k: Beam, x: real)
    requires m == [(Beam("a", '^'), 0.0), (Beam("ac", 'c'), 0.15), (Beam("a", 'a'), 0.15), (Beam("at", 't'), 0.2), (Beam("c", '^'), 0.0), (Beam("c", 'c'), 0.09), (Beam("ca", 'a'), 0.09)] && k == Beam("ct", 't') && x == 0.12
    ensures AddMass(m, k, x) == [(Beam("a", '^'), 0.0), (Beam("ac", 'c'), 0.15), (Beam("a", 'a'), 0.15), (Beam("at", 't'), 0.2), (Beam("c", '^'), 0.0), (Beam("c", 'c'), 0.09), (Beam("ca", 'a'), 0.09), (Beam("ct", 't'), 0.12)]
  {
    AddMassFresh([(Beam("a", '^'), 0.0), (Beam("ac", 'c'), 0.15), (Beam("a", 'a'), 0.15), (Beam("at", 't'), 0.2), (Beam("c", '^'), 0.0), (Beam("c", 'c'), 0.09), (Beam("ca", 'a'), 0.09)], Beam("ct", 't'), 0.12);
    assert [(Beam("a", '^'), 0.0), (Beam("ac", 'c'), 0.15), (Beam("a", 'a'), 0.15), (Beam("at", 't'), 0.2), (Beam("c", '^'), 0.0), (Beam("c", 'c'), 0.09), (Beam("ca", 'a'), 0.09)] + [(Beam("ct", 't'), 0.12)] == [(Beam("a", '^'), 0.0), (Beam("ac", 'c'), 0.15), (Beam("a", 'a'), 0.15), (Beam("at", 't'), 0.2), (Beam("c", '^'), 0.0), (Beam("c", 'c'), 0.09), (Beam("ca", 'a'), 0.09), (Beam("ct", 't'), 0.12)];
  }

  lemma {:induction false} SecondMerge8(before: Items<Beam>, b: Beam, m: real)
    requires b == Beam("c", 'c') && m == 0.3
    requires Merge(before + Row(b, m, "^cat", [0.0, 0.3, 0.3, 0.4], 3)) == [(Beam("a", '^'), 0.0), (Beam("ac", 'c'), 0.15), (Beam("a", 'a'), 0.15), (Beam("at", 't'), 0.2), (Beam("c", '^'), 0.0), (Beam("c", 'c'), 0.09), (Beam("ca", 'a'), 0.09)]
    ensures Merge(before + Row(b, m, "^cat", [0.0, 0.3, 0.3, 0.4], 4)) == [(Beam("a", '^'), 0.0), (Beam("ac", 'c'), 0.15), (Beam("a", 'a'), 0.15), (Beam("at", 't'), 0.2), (Beam("c", '^'), 0.0), (Beam("c", 'c'), 0.09), (Beam("ca", 'a'), 0.09), (Beam("ct", 't'), 0.12)]
  {
    MergeRowSnoc(before, b, m, "^cat", [0.0, 0.3, 0.3, 0.4], 3);
    assert "^cat"[3] == 't';
    assert b.text + ['t'] == "ct";
    StepTo(b, 't', "ct");
    assert Mul(m, [0.0, 0.3, 0.3, 0.4][3]) == 0.12;
    SecondAdd8(Merge(before + Row(b, m, "^cat", [0.0, 0.3, 0.3, 0.4], 3)), Step(b, "^cat"[3]), Mul(m, [0.0, 0.3, 0.3, 0.4][3]));
  }

  lemma {:induction false} SecondMergeBeam1(dp: Items<Beam>)
    requires dp == [(Beam("a", 'a'), 0.5), (Beam("c", 'c'), 0.3), (Beam("t", 't'), 0.2)]
    ensures Merge(Candidates(dp[..2], "^cat", [0.0, 0.3, 0.3, 0.4])) == [(Beam("a", '^'), 0.0), (Beam("ac", 'c'), 0.15), (Beam("a", 'a'), 0.15), (Beam("at", 't'), 0.2), (Beam("c", '^'), 0.0), (Beam("c", 'c'), 0.09), (Beam("ca", 'a'), 0.09), (Beam("ct", 't'), 0.12)]
  {
    var before := Candidates(dp[..1], "^cat", [0.0, 0.3, 0.3, 0.4]);
    SecondMergeBeam0(dp);
    var b, m := dp[1].0, dp[1].1;
    assert before + Row(b, m, "^cat", [0.0, 0.3, 0.3, 0.4], 0) == before;
    SecondMerge5(before, b, m);
    SecondMerge6(before, b, m);
    SecondMerge7(before, b, m);
    SecondMerge8(before, b, m);
    CandidatesSnoc(dp, "^cat", [0.0, 0.3, 0.3, 0.4], 1);
  }

  lemma {:induction false} SecondAdd9(m: Items<Beam>, k: Beam, x: real)
    requires m == [(Beam("a", '^'), 0.0), (Beam("ac", 'c'), 0.15), (Beam("a", 'a'), 0.15), (Beam("at", 't'), 0.2), (Beam("c", '^'), 0.0), (Beam("c", 'c'), 0.09), (Beam("ca", 'a'), 0.09), (Beam("ct", 't'), 0.12)] && k == Beam("t", '^') && x == 0.0
    ensures AddMass(m, k, x) == [(Beam("a", '^'), 0.0), (Beam("ac", 'c'), 0.15), (Beam("a", 'a'), 0.15), (Beam("at", 't'), 0.2), (Beam("c", '^'), 0.0), (Beam("c", 'c'), 0.09), (Beam("ca", 'a'), 0.09), (Beam("ct", 't'), 0.12), (Beam("t", '^'), 0.0)]
  {
    AddMassFresh([(Beam("a", '^'), 0.0), (Beam("ac", 'c'), 0.15), (Beam("a", 'a'), 0.15), (Beam("at", 't'), 0.2), (Beam("c", '^'), 0.0), (Beam("c", 'c'), 0.09), (Beam("ca", 'a'), 0.09), (Beam("ct", 't'), 0.12)], Beam("t", '^'), 0.0);
    assert [(Beam("a", '^'), 0.0), (Beam("ac", 'c'), 0.15), (Beam("a", 'a'), 0.15), (Beam("at", 't'), 0.2), (Beam("c", '^'), 0.0), (Beam("c", 'c'), 0.09), (Beam("ca", 'a'), 0.09), (Beam("ct", 't'), 0.12)] + [(Beam("t", '^'), 0.0)] == [(Beam("a", '^'), 0.0), (Beam("ac", 'c'), 0.15), (Beam("a", 'a'), 0.15), (Beam("at", 't'), 0.2), (Beam("c", '^'), 0.0), (Beam("c", 'c'), 0.09), (Beam("ca", 'a'), 0.09), (Beam("ct", 't'), 0.12), (Beam("t", '^'), 0.0)];
  }

  lemma {:induction false} SecondMerge9(before: Items<Beam>, b: Beam, m: real)
    requires b == Beam("t", 't') && m == 0.2
    requires Merge(before + Row(b, m, "^cat", [0.0, 0.3, 0.3, 0.4], 0)) == [(Beam("a", '^'), 0.0), (Beam("ac", 'c'), 0.15), (Beam("a", 'a'), 0.15), (Beam("at", 't'), 0.2), (Beam("c", '^'), 0.0), (Beam("c", 'c'), 0.09), (Beam("ca", 'a'), 0.09), (Beam("ct", 't'), 0.12)]
    ensures Merge(before + Row(b, m, "^cat", [0.0, 0.3, 0.3, 0.4], 1)) == [(Beam("a", '^'), 0.0), (Beam("ac", 'c'), 0.15), (Beam("a", 'a'), 0.15), (Beam("at", 't'), 0.2), (Beam("c", '^'), 0.0), (Beam("c", 'c'), 0.09), (Beam("ca", 'a'), 0.09), (Beam("ct", 't'), 0.12), (Beam("t", '^'), 0.0)]
  {
    MergeRowSnoc(before, b, m, "^cat", [0.0, 0.3, 0.3, 0.4], 0);
    assert "^cat"[0] == '^';
    StepTo(b, '^', "t");
    assert Mul(m, [0.0, 0.3, 0.3, 0.4][0]) == 0.0;
    SecondAdd9(Merge(before + Row(b, m, "^cat", [0.0, 0.3, 0.3, 0.4], 0)), Step(b, "^cat"[0]), Mul(m, [0.0, 0.3, 0.3, 0.4][0]));
  }

  lemma {:induction false} SecondAdd10(m: Items<Beam>, k: Beam, x: real)
    requires m == [(Beam("a", '^'), 0.0), (Beam("ac", 'c'), 0.15), (Beam("a", 'a'), 0.15), (Beam("at", 't'), 0.2), (Beam("c", '^'), 0.0), (Beam("c", 'c'), 0.09), (Beam("ca", 'a'), 0.09), (Beam("ct", 't'), 0.12), (Beam("t", '^'), 0.0)] && k == Beam("tc", 'c') && x == 0.06
    ensures AddMass(m, k, x) == [(Beam("a", '^'), 0.0), (Beam("ac", 'c'), 0.15), (Beam("a", 'a'), 0.15), (Beam("at", 't'), 0.2), (Beam("c", '^'), 0.0), (Beam("c", 'c'), 0.09), (Beam("ca", 'a'), 0.09), (Beam("ct", 't'), 0.12), (Beam("t", '^'), 0.0), (Beam("tc", 'c'), 0.06)]
  {
    AddMassFresh([(Beam("a", '^'), 0.0), (Beam("ac", 'c'), 0.15), (Beam("a", 'a'), 0.15), (Beam("at", 't'), 0.2), (Beam("c", '^'), 0.0), (Beam("c", 'c'), 0.09), (Beam("ca", 'a'), 0.09), (Beam("ct", 't'), 0.12), (Beam("t", '^'), 0.0)], Beam("tc", 'c'), 0.06);
    assert [(Beam("a", '^'), 0.0), (Beam("ac", 'c'), 0.15), (Beam("a", 'a'), 0.15), (Beam("at", 't'), 0.2), (Beam("c", '^'), 0.0), (Beam("c", 'c'), 0.09), (Beam("ca", 'a'), 0.09), (Beam("ct", 't'), 0.12), (Beam("t", '^'), 0.0)] + [(Beam("tc", 'c'), 0.06)] == [(Beam("a", '^'), 0.0), (Beam("ac", 'c'), 0.15), (Beam("a", 'a'), 0.15), (Beam("at", 't'), 0.2), (Beam("c", '^'), 0.0), (Beam("c", 'c'), 0.09), (Beam("ca", 'a'), 0.09), (Beam("ct", 't'), 0.12), (Beam("t", '^'), 0.0), (Beam("tc", 'c'), 0.06)];
  }

  lemma {:induction false} SecondMerge10(before: Items<Beam>, b: Beam, m: real)
    requires b == Beam("t", 't') && m == 0.2
    requires Merge(before + Row(b, m, "^cat", [0.0, 0.3, 0.3, 0.4], 1)) == [(Beam("a", '^'), 0.0), (Beam("ac", 'c'), 0.15), (Beam("a", 'a'), 0.15), (Beam("at", 't'), 0.2), (Beam("c", '^'), 0.0), (Beam("c", 'c'), 0.09), (Beam("ca", 'a'), 0.09), (Beam("ct", 't'), 0.12), (Beam("t", '^'), 0.0)]
    ensures Merge(before + Row(b, m, "^cat", [0.0, 0.3, 0.3, 0.4], 2)) == [(Beam("a", '^'), 0.0), (Beam("ac", 'c'), 0.15), (Beam("a", 'a'), 0.15), (Beam("at", 't'), 0.2), (Beam("c", '^'), 0.0), (Beam("c", 'c'), 0.09), (Beam("ca", 'a'), 0.09), (Beam("ct", 't'), 0.12), (Beam("t", '^'), 0.0), (Beam("tc", 'c'), 0.06)]
  {
    MergeRowSnoc(before, b, m, "^cat", [0.0, 0.3, 0.3, 0.4], 1);
    assert "^cat"[1] == 'c';
    assert b.text + ['c'] == "tc";
    StepTo(b, 'c', "tc");
    assert Mul(m, [0.0, 0.3, 0.3, 0.4][1]) == 0.06;
    SecondAdd10(Merge(before + Row(b, m, "^cat", [0.0, 0.3, 0.3, 0.4], 1)), Step(b, "^cat"[1]), Mul(m, [0.0, 0.3, 0.3, 0.4][1]));
  }

  lemma {:induction false} SecondAdd11(m: Items<Beam>, k: Beam, x: real)
    requires m == [(Beam("a", '^'), 0.0), (Beam("ac", 'c'), 0.15), (Beam("a", 'a'), 0.15), (Beam("at", 't'), 0.2), (Beam("c", '^'), 0.0), (Beam("c", 'c'), 0.09), (Beam("ca", 'a'), 0.09), (Beam("ct", 't'), 0.12), (Beam("t", '^'), 0.0), (Beam("tc", 'c'), 0.06)] && k == Beam("ta", 'a') && x == 0.06
    ensures AddMass(m, k, x) == [(Beam("a", '^'), 0.0), (Beam("ac", 'c'), 0.15), (Beam("a", 'a'), 0.15), (Beam("at", 't'), 0.2), (Beam("c", '^'), 0.0), (Beam("c", 'c'), 0.09), (Beam("ca", 'a'), 0.09), (Beam("ct", 't'), 0.12), (Beam("t", '^'), 0.0), (Beam("tc", 'c'), 0.06), (Beam("ta", 'a'), 0.06)]
  {
    AddMassFresh([(Beam("a", '^'), 0.0), (Beam("ac", 'c'), 0.15), (Beam("a", 'a'), 0.15), (Beam("at", 't'), 0.2), (Beam("c", '^'), 0.0), (Beam("c", 'c'), 0.09), (Beam("ca", 'a'), 0.09), (Beam("ct", 't'), 0.12), (Beam("t", '^'), 0.0), (Beam("tc", 'c'), 0.06)], Beam("ta", 'a'), 0.06);
    assert [(Beam("a", '^'), 0.0), (Beam("ac", 'c'), 0.15), (Beam("a", 'a'), 0.15), (Beam("at", 't'), 0.2), (Beam("c", '^'), 0.0), (Beam("c", 'c'), 0.09), (Beam("ca", 'a'), 0.09), (Beam("ct", 't'), 0.12), (Beam("t", '^'), 0.0), (Beam("tc", 'c'), 0.06)] + [(Beam("ta", 'a'), 0.06)] == [(Beam("a", '^'), 0.0), (Beam("ac", 'c'), 0.15), (Beam("a", 'a'), 0.15), (Beam("at", 't'), 0.2), (Beam("c", '^'), 0.0), (Beam("c", 'c'), 0.09), (Beam("ca", 'a'), 0.09), (Beam("ct", 't'), 0.12), (Beam("t", '^'), 0.0), (Beam("tc", 'c'), 0.06), (Beam("ta", 'a'), 0.06)];
  }

  lemma {:induction false} SecondMerge11(before: Items<Beam>, b: Beam, m: real)
    requires b == Beam("t", 't') && m == 0.2
    requires Merge(before + Row(b, m, "^cat", [0.0, 0.3, 0.3, 0.4], 2)) == [(Beam("a", '^'), 0.0), (Beam("ac", 'c'), 0.15), (Beam("a", 'a'), 0.15), (Beam("at", 't'), 0.2), (Beam("c", '^'), 0.0), (Beam("c", 'c'), 0.09), (Beam("ca", 'a'), 0.09), (Beam("ct", 't'), 0.12), (Beam("t", '^'), 0.0), (Beam("tc", 'c'), 0.06)]
    ensures Merge(before + Row(b, m, "^cat", [0.0, 0.3, 0.3, 0.4], 3)) == [(Beam("a", '^'), 0.0), (Beam("ac", 'c'), 0.15), (Beam("a", 'a'), 0.15), (Beam("at", 't'), 0.2), (Beam("c", '^'), 0.0), (Beam("c", 'c'), 0.09), (Beam("ca", 'a'), 0.09), (Beam("ct", 't'), 0.12), (Beam("t", '^'), 0.0), (Beam("tc", 'c'), 0.06), (Beam("ta", 'a'), 0.06)]
  {
    MergeRowSnoc(before, b, m, "^cat", [0.0, 0.3, 0.3, 0.4], 2);
    assert "^cat"[2] == 'a';
    assert b.text + ['a'] == "ta";
    StepTo(b, 'a', "ta");
    assert Mul(m, [0.0, 0.3, 0.3, 0.4][2]) == 0.06;
    SecondAdd11(Merge(before + Row(b, m, "^cat", [0.0, 0.3, 0.3, 0.4], 2)), Step(b, "^cat"[2]), Mul(m, [0.0, 0.3, 0.3, 0.4][2]));
  }

  lemma {:induction false} SecondAdd12(m: Items<Beam>, k: Beam, x: real)
    requires m == [(Beam("a", '^'), 0.0), (Beam("ac", 'c'), 0.15), (Beam("a", 'a'), 0.15), (Beam("at", 't'), 0.2), (Beam("c", '^'), 0.0), (Beam("c", 'c'), 0.09), (Beam("ca", 'a'), 0.09), (Beam("ct", 't'), 0.12), (Beam("t", '^'), 0.0), (Beam("tc", 'c'), 0.06), (Beam("ta", 'a'), 0.06)] && k == Beam("t", 't') && x == 0.08
    ensures AddMass(m, k, x) == [(Beam("a", '^'), 0.0), (Beam("ac", 'c'), 0.15), (Beam("a", 'a'), 0.15), (Beam("at", 't'), 0.2), (Beam("c", '^'), 0.0), (Beam("c", 'c'), 0.09), (Beam("ca", 'a'), 0.09), (Beam("ct", 't'), 0.12), (Beam("t", '^'), 0.0), (Beam("tc", 'c'), 0.06), (Beam("ta", 'a'), 0.06), (Beam("t", 't'), 0.08)]
  {
    AddMassFresh([(Beam("a", '^'), 0.0), (Beam("ac", 'c'), 0.15), (Beam("a", 'a'), 0.15), (Beam("at", 't'), 0.2), (Beam("c", '^'), 0.0), (Beam("c", 'c'), 0.09), (Beam("ca", 'a'), 0.09), (Beam("ct", 't'), 0.12), (Beam("t", '^'), 0.0), (Beam("tc", 'c'), 0.06), (Beam("ta", 'a'), 0.06)], Beam("t", 't'), 0.08);
    assert [(Beam("a", '^'), 0.0), (Beam("ac", 'c'), 0.15), (Beam("a", 'a'), 0.15), (Beam("at", 't'), 0.2), (Beam("c", '^'), 0.0), (Beam("c", 'c'), 0.09), (Beam("ca", 'a'), 0.09), (Beam("ct", 't'), 0.12), (Beam("t", '^'), 0.0), (Beam("tc", 'c'), 0.06), (Beam("ta", 'a'), 0.06)] + [(Beam("t", 't'), 0.08)] == [(Beam("a", '^'), 0.0), (Beam("ac", 'c'), 0.15), (Beam("a", 'a'), 0.15), (Beam("at", 't'), 0.2), (Beam("c", '^'), 0.0), (Beam("c", 'c'), 0.09), (Beam("ca", 'a'), 0.09), (Beam("ct", 't'), 0.12), (Beam("t", '^'), 0.0), (Beam("tc", 'c'), 0.06), (Beam("ta", 'a'), 0.06), (Beam("t", 't'), 0.08)];
  }

  lemma {:induction false} SecondMerge12(before: Items<Beam>, b: Beam, m: real)
    requires b == Beam("t", 't') && m == 0.2
    requires Merge(before + Row(b, m, "^cat", [0.0, 0.3, 0.3, 0.4], 3)) == [(Beam("a", '^'), 0.0), (Beam("ac", 'c'), 0.15), (Beam("a", 'a'), 0.15), (Beam("at", 't'), 0.2), (Beam("c", '^'), 0.0), (Beam("c", 'c'), 0.09), (Beam("ca", 'a'), 0.09), (Beam("ct", 't'), 0.12), (Beam("t", '^'), 0.0), (Beam("tc", 'c'), 0.06), (Beam("ta", 'a'), 0.06)]
    ensures Merge(before + Row(b, m, "^cat", [0.0, 0.3, 0.3, 0.4], 4)) == [(Beam("a", '^'), 0.0), (Beam("ac", 'c'), 0.15), (Beam("a", 'a'), 0.15), (Beam("at", 't'), 0.2), (Beam("c", '^'), 0.0), (Beam("c", 'c'), 0.09), (Beam("ca", 'a'), 0.09), (Beam("ct", 't'), 0.12), (Beam("t", '^'), 0.0), (Beam("tc", 'c'), 0.06), (Beam("ta", 'a'), 0.06), (Beam("t", 't'), 0.08)]
  {
    MergeRowSnoc(before, b, m, "^cat", [0.0, 0.3, 0.3, 0.4], 3);
    assert "^cat"[3] == 't';
    StepTo(b, 't', "t");
    assert Mul(m, [0.0, 0.3, 0.3, 0.4][3]) == 0.08;
    SecondAdd12(Merge(before + Row(b, m, "^cat", [0.0, 0.3, 0.3, 0.4], 3)), Step(b, "^cat"[3]), Mul(m, [0.0, 0.3, 0.3, 0.4][3]));
  }

  lemma {:induction false} SecondMergeBeam2(dp: Items<Beam>)
    requires dp == [(Beam("a", 'a'), 0.5), (Beam("c", 'c'), 0.3), (Beam("t", 't'), 0.2)]
    ensures Merge(Candidates(dp[..3], "^cat", [0.0, 0.3, 0.3, 0.4])) == [(Beam("a", '^'), 0.0), (Beam("ac", 'c'), 0.15), (Beam("a", 'a'), 0.15), (Beam("at", 't'), 0.2), (Beam("c", '^'), 0.0), (Beam("c", 'c'), 0.09), (Beam("ca", 'a'), 0.09), (Beam("ct", 't'), 0.12), (Beam("t", '^'), 0.0), (Beam("tc", 'c'), 0.06), (Beam("ta", 'a'), 0.06), (Beam("t", 't'), 0.08)]
  {
    var before := Candidates(dp[..2], "^cat", [0.0, 0.3, 0.3, 0.4]);
    SecondMergeBeam1(dp);
    var b, m := dp[2].0, dp[2].1;
    assert before + Row(b, m, "^cat", [0.0, 0.3, 0.3, 0.4], 0) == before;
    SecondMerge9(before, b, m);
    SecondMerge10(before, b, m);
    SecondMerge11(before, b, m);
    SecondMerge12(before, b, m);
    CandidatesSnoc(dp, "^cat", [0.0, 0.3, 0.3, 0.4], 2);
  }

  lemma {:induction false} SecondSort1(s: Items<Beam>)
    requires s == [(Beam("a", '^'), 0.0)]
    ensures SortDesc(s) == [(Beam("a", '^'), 0.0)]
  {
    assert s[..0] == [];
  }

  lemma {:induction false} SecondInsert2(x: (Beam, real), r: Items<Beam>)
    requires x == (Beam("ac", 'c'), 0.15) && r == [(Beam("a", '^'), 0.0)]
    ensures InsertDesc(x, r) == [(Beam("ac", 'c'), 0.15), (Beam("a", '^'), 0.0)]
  {
    InsertDescAt((Beam("ac", 'c'), 0.15), [], [(Beam("a", '^'), 0.0)]);
    assert [] + [(Beam("ac", 'c'), 0.15)] + [(Beam("a", '^'), 0.0)] == [(Beam("ac", 'c'), 0.15), (Beam("a", '^'), 0.0)];
  }

  lemma {:induction false} SecondSort2(s: Items<Beam>)
    requires s == [(Beam("a", '^'), 0.0), (Beam("ac", 'c'), 0.15)]
    ensures SortDesc(s) == [(Beam("ac", 'c'), 0.15), (Beam("a", '^'), 0.0)]
  {
    assert s[..1] == [(Beam("a", '^'), 0.0)];
    SecondSort1(s[..1]);
    SecondInsert2(s[1], SortDesc(s[..1]));
  }

  lemma {:induction false} SecondInsert3(x: (Beam, real), r: Items<Beam>)
    requires x == (Beam("a", 'a'), 0.15) && r == [(Beam("ac", 'c'), 0.15), (Beam("a", '^'), 0.0)]
    ensures InsertDesc(x, r) == [(Beam("ac", 'c'), 0.15), (Beam("a", 'a'), 0.15), (Beam("a", '^'), 0.0)]
  {
    InsertDescAt((Beam("a", 'a'), 0.15), [(Beam("ac", 'c'), 0.15)], [(Beam("a", '^'), 0.0)]);
    assert [(Beam("ac", 'c'), 0.15)] + [(Beam("a", '^'), 0.0)] == [(Beam("ac", 'c'), 0.15), (Beam("a", '^'), 0.0)];
    assert [(Beam("ac", 'c'), 0.15)] + [(Beam("a", 'a'), 0.15)] + [(Beam("a", '^'), 0.0)] == [(Beam("ac", 'c'), 0.15), (Beam("a", 'a'), 0.15), (Beam("a", '^'), 0.0)];
  }

  lemma {:induction false} SecondSort3(s: Items<Beam>)
    requires s == [(Beam("a", '^'), 0.0), (Beam("ac", 'c'), 0.15), (Beam("a", 'a'), 0.15)]
    ensures SortDesc(s) == [(Beam("ac", 'c'), 0.15), (Beam("a", 'a'), 0.15), (Beam("a", '^'), 0.0)]
  {
    assert s[..2] == [(Beam("a", '^'), 0.0), (Beam("ac", 'c'), 0.15)];
    SecondSort2(s[..2]);
    SecondInsert3(s[2], SortDesc(s[..2]));
  }

  lemma {:induction false} SecondInsert4(x: (Beam, real), r: Items<Beam>)
    requires x == (Beam("at", 't'), 0.2) && r == [(Beam("ac", 'c'), 0.15), (Beam("a", 'a'), 0.15), (Beam("a", '^'), 0.0)]
    ensures InsertDesc(x, r) == [(Beam("at", 't'), 0.2), (Beam("ac", 'c'), 0.15), (Beam("a", 'a'), 0.15), (Beam("a", '^'), 0.0)]
  {
    InsertDescAt((Beam("at", 't'), 0.2), [], [(Beam("ac", 'c'), 0.15), (Beam("a", 'a'), 0.15), (Beam("a", '^'), 0.0)]);
    assert [] + [(Beam("at", 't'), 0.2)] + [(Beam("ac", 'c'), 0.15), (Beam("a", 'a'), 0.15), (Beam("a", '^'), 0.0)] == [(Beam("at", 't'), 0.2), (Beam("ac", 'c'), 0.15), (Beam("a", 'a'), 0.15), (Beam("a", '^'), 0.0)];
  }

  lemma {:induction false} SecondSort4(s: Items<Beam>)
    requires s == [(Beam("a", '^'), 0.0), (Beam("ac", 'c'), 0.15), (Beam("a", 'a'), 0.15), (Beam("at", 't'), 0.2)]
    ensures SortDesc(s) == [(Beam("at", 't'), 0.2), (Beam("ac", 'c'), 0.15), (Beam("a", 'a'), 0.15), (Beam("a", '^'), 0.0)]
  {
    assert s[..3] == [(Beam("a", '^'), 0.0), (Beam("ac", 'c'), 0.15), (Beam("a", 'a'), 0.15)];
    SecondSort3(s[..3]);
    SecondInsert4(s[3], SortDesc(s[..3]));
  }

  lemma {:induction false} SecondInsert5(x: (Beam, real), r: Items<Beam>)
    requires x == (Beam("c", '^'), 0.0) && r == [(Beam("at", 't'), 0.2), (Beam("ac", 'c'), 0.15), (Beam("a", 'a'), 0.15), (Beam("a", '^'), 0.0)]
    ensures InsertDesc(x, r) == [(Beam("at", 't'), 0.2), (Beam("ac", 'c'), 0.15), (Beam("a", 'a'), 0.15), (Beam("a", '^'), 0.0), (Beam("c", '^'), 0.0)]
  {
    InsertDescAt((Beam("c", '^'), 0.0), [(Beam("at", 't'), 0.2), (Beam("ac", 'c'), 0.15), (Beam("a", 'a'), 0.15), (Beam("a", '^'), 0.0)], []);
    assert [(Beam("at", 't'), 0.2), (Beam("ac", 'c'), 0.15), (Beam("a", 'a'), 0.15), (Beam("a", '^'), 0.0)] + [] == [(Beam("at", 't'), 0.2), (Beam("ac", 'c'), 0.15), (Beam("a", 'a'), 0.15), (Beam("a", '^'), 0.0)] && [(Beam("at", 't'), 0.2), (Beam("ac", 'c'), 0.15), (Beam("a", 'a'), 0.15), (Beam("a", '^'), 0.0)] + [(Beam("c", '^'), 0.0)] + [] == [(Beam("at", 't'), 0.2), (Beam("ac", 'c'), 0.15), (Beam("a", 'a'), 0.15), (Beam("a", '^'), 0.0), (Beam("c", '^'), 0.0)];
  }

  lemma {:induction false} SecondSort5(s: Items<Beam>)
    requires s == [(Beam("a", '^'), 0.0), (Beam("ac", 'c'), 0.15), (Beam("a", 'a'), 0.15), (Beam("at", 't'), 0.2), (Beam("c", '^'), 0.0)]
    ensures SortDesc(s) == [(Beam("at", 't'), 0.2), (Beam("ac", 'c'), 0.15), (Beam("a", 'a'), 0.15), (Beam("a", '^'), 0.0), (Beam("c", '^'), 0.0)]
  {
    assert s[..4] == [(Beam("a", '^'), 0.0), (Beam("ac", 'c'), 0.15), (Beam("a", 'a'), 0.15), (Beam("at", 't'), 0.2)];
    SecondSort4(s[..4]);
    SecondInsert5(s[4], SortDesc(s[..4]));
  }

  lemma {:induction false} SecondInsert6(x: (Beam, real), r: Items<Beam>)
    requires x == (Beam("c", 'c'), 0.09) && r == [(Beam("at", 't'), 0.2), (Beam("ac", 'c'), 0.15), (Beam("a", 'a'), 0.15), (Beam("a", '^'), 0.0), (Beam("c", '^'), 0.0)]
    ensures InsertDesc(x, r) == [(Beam("at", 't'), 0.2), (Beam("ac", 'c'), 0.15), (Beam("a", 'a'), 0.15), (Beam("c", 'c'), 0.09), (Beam("a", '^'), 0.0), (Beam("c", '^'), 0.0)]
  {
    InsertDescAt((Beam("c", 'c'), 0.09), [(Beam("at", 't'), 0.2), (Beam("ac", 'c'), 0.15), (Beam("a", 'a'), 0.15)], [(Beam("a", '^'), 0.0), (Beam("c", '^'), 0.0)]);
    assert [(Beam("at", 't'), 0.2), (Beam("ac", 'c'), 0.15), (Beam("a", 'a'), 0.15)] + [(Beam("a", '^'), 0.0), (Beam("c", '^'), 0.0)] == [(Beam("at", 't'), 0.2), (Beam("ac", 'c'), 0.15), (Beam("a", 'a'), 0.15), (Beam("a", '^'), 0.0), (Beam("c", '^'), 0.0)];
    assert [(Beam("at", 't'), 0.2), (Beam("ac", 'c'), 0.15), (Beam("a", 'a'), 0.15)] + [(Beam("c", 'c'), 0.09)] + [(Beam("a", '^'), 0.0), (Beam("c", '^'), 0.0)] == [(Beam("at", 't'), 0.2), (Beam("ac", 'c'), 0.15), (Beam("a", 'a'), 0.15), (Beam("c", 'c'), 0.09), (Beam("a", '^'), 0.0), (Beam("c", '^'), 0.0)];
  }

  lemma {:induction false} SecondSort6(s: Items<Beam>)
    requires s == [(Beam("a", '^'), 0.0), (Beam("ac", 'c'), 0.15), (Beam("a", 'a'), 0.15), (Beam("at", 't'), 0.2), (Beam("c", '^'), 0.0), (Beam("c", 'c'), 0.09)]
    ensures SortDesc(s) == [(Beam("at", 't'), 0.2), (Beam("ac", 'c'), 0.15), (Beam("a", 'a'), 0.15), (Beam("c", 'c'), 0.09), (Beam("a", '^'), 0.0), (Beam("c", '^'), 0.0)]
  {
    assert s[..5] == [(Beam("a", '^'), 0.0), (Beam("ac", 'c'), 0.15), (Beam("a", 'a'), 0.15), (Beam("at", 't'), 0.2), (Beam("c", '^'), 0.0)];
    SecondSort5(s[..5]);
    SecondInsert6(s[5], SortDesc(s[..5]));
  }

  lemma {:induction false} SecondInsert7(x: (Beam, real), r: Items<Beam>)
    requires x == (Beam("ca", 'a'), 0.09) && r == [(Beam("at", 't'), 0.2), (Beam("ac", 'c'), 0.15), (Beam("a", 'a'), 0.15), (Beam("c", 'c'), 0.09), (Beam("a", '^'), 0.0), (Beam("c", '^'), 0.0)]
    ensures InsertDesc(x, r) == [(Beam("at", 't'), 0.2), (Beam("ac", 'c'), 0.15), (Beam("a", 'a'), 0.15), (Beam("c", 'c'), 0.09), (Beam("ca", 'a'), 0.09), (Beam("a", '^'), 0.0), (Beam("c", '^'), 0.0)]
  {
    InsertDescAt((Beam("ca", 'a'), 0.09), [(Beam("at", 't'), 0.2), (Beam("ac", 'c'), 0.15), (Beam("a", 'a'), 0.15), (Beam("c", 'c'), 0.09)], [(Beam("a", '^'), 0.0), (Beam("c", '^'), 0.0)]);
    assert [(Beam("at", 't'), 0.2), (Beam("ac", 'c'), 0.15), (Beam("a", 'a'), 0.15), (Beam("c", 'c'), 0.09)] + [(Beam("a", '^'), 0.0), (Beam("c", '^'), 0.0)] == [(Beam("at", 't'), 0.2), (Beam("ac", 'c'), 0.15), (Beam("a", 'a'), 0.15), (Beam("c", 'c'), 0.09), (Beam("a", '^'), 0.0), (Beam("c", '^'), 0.0)];
    assert [(Beam("at", 't'), 0.2), (Beam("ac", 'c'), 0.15), (Beam("a", 'a'), 0.15), (Beam("c", 'c'), 0.09)] + [(Beam("ca", 'a'), 0.09)] + [(Beam("a", '^'), 0.0), (Beam("c", '^'), 0.0)] == [(Beam("at", 't'), 0.2), (Beam("ac", 'c'), 0.15), (Beam("a", 'a'), 0.15), (Beam("c", 'c'), 0.09), (Beam("ca", 'a'), 0.09), (Beam("a", '^'), 0.0), (Beam("c", '^'), 0.0)];
  }

  lemma {:induction false} SecondSort7(s: Items<Beam>)
    requires s == [(Beam("a", '^'), 0.0), (Beam("ac", 'c'), 0.15), (Beam("a", 'a'), 0.15), (Beam("at", 't'), 0.2), (Beam("c", '^'), 0.0), (Beam("c", 'c'), 0.09), (Beam("ca", 'a'), 0.09)]
    ensures SortDesc(s) == [(Beam("at", 't'), 0.2), (Beam("ac", 'c'), 0.15), (Beam("a", 'a'), 0.15), (Beam("c", 'c'), 0.09), (Beam("ca", 'a'), 0.09), (Beam("a", '^'), 0.0), (Beam("c", '^'), 0.0)]
  {
    assert s[..6] == [(Beam("a", '^'), 0.0), (Beam("ac", 'c'), 0.15), (Beam("a", 'a'), 0.15), (Beam("at", 't'), 0.2), (Beam("c", '^'), 0.0), (Beam("c", 'c'), 0.09)];
    SecondSort6(s[..6]);
    SecondInsert7(s[6], SortDesc(s[..6]));
  }

  lemma {:induction false} SecondInsert8(x: (Beam, real), r: Items<Beam>)
    requires x == (Beam("ct", 't'), 0.12) && r == [(Beam("at", 't'), 0.2), (Beam("ac", 'c'), 0.15), (Beam("a", 'a'), 0.15), (Beam("c", 'c'), 0.09), (Beam("ca", 'a'), 0.09), (Beam("a", '^'), 0.0), (Beam("c", '^'), 0.0)]
    ensures InsertDesc(x, r) == [(Beam("at", 't'), 0.2), (Beam("ac", 'c'), 0.15), (Beam("a", 'a'), 0.15), (Beam("ct", 't'), 0.12), (Beam("c", 'c'), 0.09), (Beam("ca", 'a'), 0.09), (Beam("a", '^'), 0.0), (Beam("c", '^'), 0.0)]
  {
    InsertDescAt((Beam("ct", 't'), 0.12), [(Beam("at", 't'), 0.2), (Beam("ac", 'c'), 0.15), (Beam("a", 'a'), 0.15)], [(Beam("c", 'c'), 0.09), (Beam("ca", 'a'), 0.09), (Beam("a", '^'), 0.0), (Beam("c", '^'), 0.0)]);
    assert [(Beam("at", 't'), 0.2), (Beam("ac", 'c'), 0.15), (Beam("a", 'a'), 0.15)] + [(Beam("c", 'c'), 0.09), (Beam("ca", 'a'), 0.09), (Beam("a", '^'), 0.0), (Beam("c", '^'), 0.0)] == [(Beam("at", 't'), 0.2), (Beam("ac", 'c'), 0.15), (Beam("a", 'a'), 0.15), (Beam("c", 'c'), 0.09), (Beam("ca", 'a'), 0.09), (Beam("a", '^'), 0.0), (Beam("c", '^'), 0.0)];
    assert [(Beam("at", 't'), 0.2), (Beam("ac", 'c'), 0.15), (Beam("a", 'a'), 0.15)] + [(Beam("ct", 't'), 0.12)] + [(Beam("c", 'c'), 0.09), (Beam("ca", 'a'), 0.09), (Beam("a", '^'), 0.0), (Beam("c", '^'), 0.0)] == [(Beam("at", 't'), 0.2), (Beam("ac", 'c'), 0.15), (Beam("a", 'a'), 0.15), (Beam("ct", 't'), 0.12), (Beam("c", 'c'), 0.09), (Beam("ca", 'a'), 0.09), (Beam("a", '^'), 0.0), (Beam("c", '^'), 0.0)];
  }

  lemma {:induction false} SecondSort8(s: Items<Beam>)
    requires s == [(Beam("a", '^'), 0.0), (Beam("ac", 'c'), 0.15), (Beam("a", 'a'), 0.15), (Beam("at", 't'), 0.2), (Beam("c", '^'), 0.0), (Beam("c", 'c'), 0.09), (Beam("ca", 'a'), 0.09), (Beam("ct", 't'), 0.12)]
    ensures SortDesc(s) == [(Beam("at", 't'), 0.2), (Beam("ac", 'c'), 0.15), (Beam("a", 'a'), 0.15), (Beam("ct", 't'), 0.12), (Beam("c", 'c'), 0.09), (Beam("ca", 'a'), 0.09), (Beam("a", '^'), 0.0), (Beam("c", '^'), 0.0)]
  {
    assert s[..7] == [(Beam("a", '^'), 0.0), (Beam("ac", 'c'), 0.15), (Beam("a", 'a'), 0.15), (Beam("at", 't'), 0.2), (Beam("c", '^'), 0.0), (Beam("c", 'c'), 0.09), (Beam("ca", 'a'), 0.09)];
    SecondSort7(s[..7]);
    SecondInsert8(s[7], SortDesc(s[..7]));
  }

  lemma {:induction false} SecondInsert9(x: (Beam, real), r: Items<Beam>)
    requires x == (Beam("t", '^'), 0.0) && r == [(Beam("at", 't'), 0.2), (Beam("ac", 'c'), 0.15), (Beam("a", 'a'), 0.15), (Beam("ct", 't'), 0.12), (Beam("c", 'c'), 0.09), (Beam("ca", 'a'), 0.09), (Beam("a", '^'), 0.0), (Beam("c", '^'), 0.0)]
    ensures InsertDesc(x, r) == [(Beam("at", 't'), 0.2), (Beam("ac", 'c'), 0.15), (Beam("a", 'a'), 0.15), (Beam("ct", 't'), 0.12), (Beam("c", 'c'), 0.09), (Beam("ca", 'a'), 0.09), (Beam("a", '^'), 0.0), (Beam("c", '^'), 0.0), (Beam("t", '^'), 0.0)]
  {
    InsertDescAt((Beam("t", '^'), 0.0), [(Beam("at", 't'), 0.2), (Beam("ac", 'c'), 0.15), (Beam("a", 'a'), 0.15), (Beam("ct", 't'), 0.12), (Beam("c", 'c'), 0.09), (Beam("ca", 'a'), 0.09), (Beam("a", '^'), 0.0), (Beam("c", '^'), 0.0)], []);
    assert [(Beam("at", 't'), 0.2), (Beam("ac", 'c'), 0.15), (Beam("a", 'a'), 0.15), (Beam("ct", 't'), 0.12), (Beam("c", 'c'), 0.09), (Beam("ca", 'a'), 0.09), (Beam("a", '^'), 0.0), (Beam("c", '^'), 0.0)] + [] == [(Beam("at", 't'), 0.2), (Beam("ac", 'c'), 0.15), (Beam("a", 'a'), 0.15), (Beam("ct", 't'), 0.12), (Beam("c", 'c'), 0.09), (Beam("ca", 'a'), 0.09), (Beam("a", '^'), 0.0), (Beam("c", '^'), 0.0)] && [(Beam("at", 't'), 0.2), (Beam("ac", 'c'), 0.15), (Beam("a", 'a'), 0.15), (Beam("ct", 't'), 0.12), (Beam("c", 'c'), 0.09), (Beam("ca", 'a'), 0.09), (Beam("a", '^'), 0.0), (Beam("c", '^'), 0.0)] + [(Beam("t", '^'), 0.0)] + [] == [(Beam("at", 't'), 0.2), (Beam("ac", 'c'), 0.15), (Beam("a", 'a'), 0.15), (Beam("ct", 't'), 0.12), (Beam("c", 'c'), 0.09), (Beam("ca", 'a'), 0.09), (Beam("a", '^'), 0.0), (Beam("c", '^'), 0.0), (Beam("t", '^'), 0.0)];
  }

  lemma {:induction false} SecondSort9(s: Items<Beam>)
    requires s == [(Beam("a", '^'), 0.0), (Beam("ac", 'c'), 0.15), (Beam("a", 'a'), 0.15), (Beam("at", 't'), 0.2), (Beam("c", '^'), 0.0), (Beam("c", 'c'), 0.09), (Beam("ca", 'a'), 0.09), (Beam("ct", 't'), 0.12), (Beam("t", '^'), 0.0)]
    ensures SortDesc(s) == [(Beam("at", 't'), 0.2), (Beam("ac", 'c'), 0.15), (Beam("a", 'a'), 0.15), (Beam("ct", 't'), 0.12), (Beam("c", 'c'), 0.09), (Beam("ca", 'a'), 0.09), (Beam("a", '^'), 0.0), (Beam("c", '^'), 0.0), (Beam("t", '^'), 0.0)]
  {
    assert s[..8] == [(Beam("a", '^'), 0.0), (Beam("ac", 'c'), 0.15), (Beam("a", 'a'), 0.15), (Beam("at", 't'), 0.2), (Beam("c", '^'), 0.0), (Beam("c", 'c'), 0.09), (Beam("ca", 'a'), 0.09), (Beam("ct", 't'), 0.12)];
    SecondSort8(s[..8]);
    SecondInsert9(s[8], SortDesc(s[..8]));
  }

  lemma {:induction false} SecondInsert10(x: (Beam, real), r: Items<Beam>)
    requires x == (Beam("tc", 'c'), 0.06) && r == [(Beam("at", 't'), 0.2), (Beam("ac", 'c'), 0.15), (Beam("a", 'a'), 0.15), (Beam("ct", 't'), 0.12), (Beam("c", 'c'), 0.09), (Beam("ca", 'a'), 0.09), (Beam("a", '^'), 0.0), (Beam("c", '^'), 0.0), (Beam("t", '^'), 0.0)]
    ensures InsertDesc(x, r) == [(Beam("at", 't'), 0.2), (Beam("ac", 'c'), 0.15), (Beam("a", 'a'), 0.15), (Beam("ct", 't'), 0.12), (Beam("c", 'c'), 0.09), (Beam("ca", 'a'), 0.09), (Beam("tc", 'c'), 0.06), (Beam("a", '^'), 0.0), (Beam("c", '^'), 0.0), (Beam("t", '^'), 0.0)]
  {
    InsertDescAt((Beam("tc", 'c'), 0.06), [(Beam("at", 't'), 0.2), (Beam("ac", 'c'), 0.15), (Beam("a", 'a'), 0.15), (Beam("ct", 't'), 0.12), (Beam("c", 'c'), 0.09), (Beam("ca", 'a'), 0.09)], [(Beam("a", '^'), 0.0), (Beam("c", '^'), 0.0), (Beam("t", '^'), 0.0)]);
    assert [(Beam("at", 't'), 0.2), (Beam("ac", 'c'), 0.15), (Beam("a", 'a'), 0.15), (Beam("ct", 't'), 0.12), (Beam("c", 'c'), 0.09), (Beam("ca", 'a'), 0.09)] + [(Beam("a", '^'), 0.0), (Beam("c", '^'), 0.0), (Beam("t", '^'), 0.0)] == [(Beam("at", 't'), 0.2), (Beam("ac", 'c'), 0.15), (Beam("a", 'a'), 0.15), (Beam("ct", 't'), 0.12), (Beam("c", 'c'), 0.09), (Beam("ca", 'a'), 0.09), (Beam("a", '^'), 0.0), (Beam("c", '^'), 0.0), (Beam("t", '^'), 0.0)];
    assert [(Beam("at", 't'), 0.2), (Beam("ac", 'c'), 0.15), (Beam("a", 'a'), 0.15), (Beam("ct", 't'), 0.12), (Beam("c", 'c'), 0.09), (Beam("ca", 'a'), 0.09)] + [(Beam("tc", 'c'), 0.06)] + [(Beam("a", '^'), 0.0), (Beam("c", '^'), 0.0), (Beam("t", '^'), 0.0)] == [(Beam("at", 't'), 0.2), (Beam("ac", 'c'), 0.15), (Beam("a", 'a'), 0.15), (Beam("ct", 't'), 0.12), (Beam("c", 'c'), 0.09), (Beam("ca", 'a'), 0.09), (Beam("tc", 'c'), 0.06), (Beam("a", '^'), 0.0), (Beam("c", '^'), 0.0), (Beam("t", '^'), 0.0)];
  }

  lemma {:induction false} SecondSort10(s: Items<Beam>)
    requires s == [(Beam("a", '^'), 0.0), (Beam("ac", 'c'), 0.15), (Beam("a", 'a'), 0.15), (Beam("at", 't'), 0.2), (Beam("c", '^'), 0.0), (Beam("c", 'c'), 0.09), (Beam("ca", 'a'), 0.09), (Beam("ct", 't'), 0.12), (Beam("t", '^'), 0.0), (Beam("tc", 'c'), 0.06)]
    ensures SortDesc(s) == [(Beam("at", 't'), 0.2), (Beam("ac", 'c'), 0.15), (Beam("a", 'a'), 0.15), (Beam("ct", 't'), 0.12), (Beam("c", 'c'), 0.09), (Beam("ca", 'a'), 0.09), (Beam("tc", 'c'), 0.06), (Beam("a", '^'), 0.0), (Beam("c", '^'), 0.0), (Beam("t", '^'), 0.0)]
  {
    assert s[..9] == [(Beam("a", '^'), 0.0), (Beam("ac", 'c'), 0.15), (Beam("a", 'a'), 0.15), (Beam("at", 't'), 0.2), (Beam("c", '^'), 0.0), (Beam("c", 'c'), 0.09), (Beam("ca", 'a'), 0.09), (Beam("ct", 't'), 0.12), (Beam("t", '^'), 0.0)];
    SecondSort9(s[..9]);
    SecondInsert10(s[9], SortDesc(s[..9]));
  }

  lemma {:induction false} SecondInsert11(x: (Beam, real), r: Items<Beam>)
    requires x == (Beam("ta", 'a'), 0.06) && r == [(Beam("at", 't'), 0.2), (Beam("ac", 'c'), 0.15), (Beam("a", 'a'), 0.15), (Beam("ct", 't'), 0.12), (Beam("c", 'c'), 0.09), (Beam("ca", 'a'), 0.09), (Beam("tc", 'c'), 0.06), (Beam("a", '^'), 0.0), (Beam("c", '^'), 0.0), (Beam("t", '^'), 0.0)]
    ensures InsertDesc(x, r) == [(Beam("at", 't'), 0.2), (Beam("ac", 'c'), 0.15), (Beam("a", 'a'), 0.15), (Beam("ct", 't'), 0.12), (Beam("c", 'c'), 0.09), (Beam("ca", 'a'), 0.09), (Beam("tc", 'c'), 0.06), (Beam("ta", 'a'), 0.06), (Beam("a", '^'), 0.0), (Beam("c", '^'), 0.0), (Beam("t", '^'), 0.0)]
  {
    InsertDescAt((Beam("ta", 'a'), 0.06), [(Beam("at", 't'), 0.2), (Beam("ac", 'c'), 0.15), (Beam("a", 'a'), 0.15), (Beam("ct", 't'), 0.12), (Beam("c", 'c'), 0.09), (Beam("ca", 'a'), 0.09), (Beam("tc", 'c'), 0.06)], [(Beam("a", '^'), 0.0), (Beam("c", '^'), 0.0), (Beam("t", '^'), 0.0)]);
    assert [(Beam("at", 't'), 0.2), (Beam("ac", 'c'), 0.15), (Beam("a", 'a'), 0.15), (Beam("ct", 't'), 0.12), (Beam("c", 'c'), 0.09), (Beam("ca", 'a'), 0.09), (Beam("tc", 'c'), 0.06)] + [(Beam("a", '^'), 0.0), (Beam("c", '^'), 0.0), (Beam("t", '^'), 0.0)] == [(Beam("at", 't'), 0.2), (Beam("ac", 'c'), 0.15), (Beam("a", 'a'), 0.15), (Beam("ct", 't'), 0.12), (Beam("c", 'c'), 0.09), (Beam("ca", 'a'), 0.09), (Beam("tc", 'c'), 0.06), (Beam("a", '^'), 0.0), (Beam("c", '^'), 0.0), (Beam("t", '^'), 0.0)];
    assert [(Beam("at", 't'), 0.2), (Beam("ac", 'c'), 0.15), (Beam("a", 'a'), 0.15), (Beam("ct", 't'), 0.12), (Beam("c", 'c'), 0.09), (Beam("ca", 'a'), 0.09), (Beam("tc", 'c'), 0.06)] + [(Beam("ta", 'a'), 0.06)] + [(Beam("a", '^'), 0.0), (Beam("c", '^'), 0.0), (Beam("t", '^'), 0.0)] == [(Beam("at", 't'), 0.2), (Beam("ac", 'c'), 0.15), (Beam("a", 'a'), 0.15), (Beam("ct", 't'), 0.12), (Beam("c", 'c'), 0.09), (Beam("ca", 'a'), 0.09), (Beam("tc", 'c'), 0.06), (Beam("ta", 'a'), 0.06), (Beam("a", '^'), 0.0), (Beam("c", '^'), 0.0), (Beam("t", '^'), 0.0)];
  }

  lemma {:induction false} SecondSort11(s: Items<Beam>)
    requires s == [(Beam("a", '^'), 0.0), (Beam("ac", 'c'), 0.15), (Beam("a", 'a'), 0.15), (Beam("at", 't'), 0.2), (Beam("c", '^'), 0.0), (Beam("c", 'c'), 0.09), (Beam("ca", 'a'), 0.09), (Beam("ct", 't'), 0.12), (Beam("t", '^'), 0.0), (Beam("tc", 'c'), 0.06), (Beam("ta", 'a'), 0.06)]
    ensures SortDesc(s) == [(Beam("at", 't'), 0.2), (Beam("ac", 'c'), 0.15), (Beam("a", 'a'), 0.15), (Beam("ct", 't'), 0.12), (Beam("c", 'c'), 0.09), (Beam("ca", 'a'), 0.09), (Beam("tc", 'c'), 0.06), (Beam("ta", 'a'), 0.06), (Beam("a", '^'), 0.0), (Beam("c", '^'), 0.0), (Beam("t", '^'), 0.0)]
  {
    assert s[..10] == [(Beam("a", '^'), 0.0), (Beam("ac", 'c'), 0.15), (Beam("a", 'a'), 0.15), (Beam("at", 't'), 0.2), (Beam("c", '^'), 0.0), (Beam("c", 'c'), 0.09), (Beam("ca", 'a'), 0.09), (Beam("ct", 't'), 0.12), (Beam("t", '^'), 0.0), (Beam("tc", 'c'), 0.06)];
    SecondSort10(s[..10]);
    SecondInsert11(s[10], SortDesc(s[..10]));
  }

  lemma {:induction false} SecondInsert12(x: (Beam, real), r: Items<Beam>)
    requires x == (Beam("t", 't'), 0.08) && r == [(Beam("at", 't'), 0.2), (Beam("ac", 'c'), 0.15), (Beam("a", 'a'), 0.15), (Beam("ct", 't'), 0.12), (Beam("c", 'c'), 0.09), (Beam("ca", 'a'), 0.09), (Beam("tc", 'c'), 0.06), (Beam("ta", 'a'), 0.06), (Beam("a", '^'), 0.0), (Beam("c", '^'), 0.0), (Beam("t", '^'), 0.0)]
    ensures InsertDesc(x, r) == [(Beam("at", 't'), 0.2), (Beam("ac", 'c'), 0.15), (Beam("a", 'a'), 0.15), (Beam("ct", 't'), 0.12), (Beam("c", 'c'), 0.09), (Beam("ca", 'a'), 0.09), (Beam("t", 't'), 0.08), (Beam("tc", 'c'), 0.06), (Beam("ta", 'a'), 0.06), (Beam("a", '^'), 0.0), (Beam("c", '^'), 0.0), (Beam("t", '^'), 0.0)]
  {
    InsertDescAt((Beam("t", 't'), 0.08), [(Beam("at", 't'), 0.2), (Beam("ac", 'c'), 0.15), (Beam("a", 'a'), 0.15), (Beam("ct", 't'), 0.12), (Beam("c", 'c'), 0.09), (Beam("ca", 'a'), 0.09)], [(Beam("tc", 'c'), 0.06), (Beam("ta", 'a'), 0.06), (Beam("a", '^'), 0.0), (Beam("c", '^'), 0.0), (Beam("t", '^'), 0.0)]);
    assert [(Beam("at", 't'), 0.2), (Beam("ac", 'c'), 0.15), (Beam("a", 'a'), 0.15), (Beam("ct", 't'), 0.12), (Beam("c", 'c'), 0.09), (Beam("ca", 'a'), 0.09)] + [(Beam("tc", 'c'), 0.06), (Beam("ta", 'a'), 0.06), (Beam("a", '^'), 0.0), (Beam("c", '^'), 0.0), (Beam("t", '^'), 0.0)] == [(Beam("at", 't'), 0.2), (Beam("ac", 'c'), 0.15), (Beam("a", 'a'), 0.15), (Beam("ct", 't'), 0.12), (Beam("c", 'c'), 0.09), (Beam("ca", 'a'), 0.09), (Beam("tc", 'c'), 0.06), (Beam("ta", 'a'), 0.06), (Beam("a", '^'), 0.0), (Beam("c", '^'), 0.0), (Beam("t", '^'), 0.0)];
    assert [(Beam("at", 't'), 0.2), (Beam("ac", 'c'), 0.15), (Beam("a", 'a'), 0.15), (Beam("ct", 't'), 0.12), (Beam("c", 'c'), 0.09), (Beam("ca", 'a'), 0.09)] + [(Beam("t", 't'), 0.08)] + [(Beam("tc", 'c'), 0.06), (Beam("ta", 'a'), 0.06), (Beam("a", '^'), 0.0), (Beam("c", '^'), 0.0), (Beam("t", '^'), 0.0)] == [(Beam("at", 't'), 0.2), (Beam("ac", 'c'), 0.15), (Beam("a", 'a'), 0.15), (Beam("ct", 't'), 0.12), (Beam("c", 'c'), 0.09), (Beam("ca", 'a'), 0.09), (Beam("t", 't'), 0.08), (Beam("tc", 'c'), 0.06), (Beam("ta", 'a'), 0.06), (Beam("a", '^'), 0.0), (Beam("c", '^'), 0.0), (Beam("t", '^'), 0.0)];
  }

  lemma {:induction false} SecondSort12(s: Items<Beam>)
    requires s == [(Beam("a", '^'), 0.0), (Beam("ac", 'c'), 0.15), (Beam("a", 'a'), 0.15), (Beam("at", 't'), 0.2), (Beam("c", '^'), 0.0), (Beam("c", 'c'), 0.09), (Beam("ca", 'a'), 0.09), (Beam("ct", 't'), 0.12), (Beam("t", '^'), 0.0), (Beam("tc", 'c'), 0.06), (Beam("ta", 'a'), 0.06), (Beam("t", 't'), 0.08)]
    ensures SortDesc(s) == [(Beam("at", 't'), 0.2), (Beam("ac", 'c'), 0.15), (Beam("a", 'a'), 0.15), (Beam("ct", 't'), 0.12), (Beam("c", 'c'), 0.09), (Beam("ca", 'a'), 0.09), (Beam("t", 't'), 0.08), (Beam("tc", 'c'), 0.06), (Beam("ta", 'a'), 0.06), (Beam("a", '^'), 0.0), (Beam("c", '^'), 0.0), (Beam("t", '^'), 0.0)]
  {
    assert s[..11] == [(Beam("a", '^'), 0.0), (Beam("ac", 'c'), 0.15), (Beam("a", 'a'), 0.15), (Beam("at", 't'), 0.2), (Beam("c", '^'), 0.0), (Beam("c", 'c'), 0.09), (Beam("ca", 'a'), 0.09), (Beam("ct", 't'), 0.12), (Beam("t", '^'), 0.0), (Beam("tc", 'c'), 0.06), (Beam("ta", 'a'), 0.06)];
    SecondSort11(s[..11]);
    SecondInsert12(s[11], SortDesc(s[..11]));
  }

  // ---------------------------------------------------------------------
  // The surviving beams projected to their texts, merged and ranked.

  lemma {:induction false} FinalProject()
    ensures Project([(Beam("at", 't'), 0.2), (Beam("ac", 'c'), 0.15), (Beam("a", 'a'), 0.15)]) == [("at", 0.2), ("ac", 0.15), ("a", 0.15)]
  {
    assert [(Beam("at", 't'), 0.2)][..0] == [];
    assert [(Beam("at", 't'), 0.2), (Beam("ac", 'c'), 0.15)][..1] == [(Beam("at", 't'), 0.2)];
    assert [(Beam("at", 't'), 0.2), (Beam("ac", 'c'), 0.15), (Beam("a", 'a'), 0.15)][..2] == [(Beam("at", 't'), 0.2), (Beam("ac", 'c'), 0.15)];
  }

  lemma {:induction false} FinalMerge1()
    ensures Merge([("at", 0.2)]) == [("at", 0.2)]
  {
    assert [("at", 0.2)][..0] == [];
  }

  lemma {:induction false} FinalMerge2()
    ensures Merge([("at", 0.2), ("ac", 0.15)]) == [("at", 0.2), ("ac", 0.15)]
  {
    FinalMerge1();
    assert [("at", 0.2), ("ac", 0.15)][..1] == [("at", 0.2)];
    AddMassFresh([("at", 0.2)], "ac", 0.15);
    assert [("at", 0.2)] + [("ac", 0.15)] == [("at", 0.2), ("ac", 0.15)];
  }

  lemma {:induction false} FinalMerge3()
    ensures Merge([("at", 0.2), ("ac", 0.15), ("a", 0.15)]) == [("at", 0.2), ("ac", 0.15), ("a", 0.15)]
  {
    FinalMerge2();
    assert [("at", 0.2), ("ac", 0.15), ("a", 0.15)][..2] == [("at", 0.2), ("ac", 0.15)];
    AddMassFresh([("at", 0.2), ("ac", 0.15)], "a", 0.15);
    assert [("at", 0.2), ("ac", 0.15)] + [("a", 0.15)] == [("at", 0.2), ("ac", 0.15), ("a", 0.15)];
  }

  lemma {:induction false} FinalSort1(s: Items<string>)
    requires s == [("at", 0.2)]
    ensures SortDesc(s) == [("at", 0.2)]
  {
    assert s[..0] == [];
  }

  lemma {:induction false} FinalInsert2(x: (string, real), r: Items<string>)
    requires x == ("ac", 0.15) && r == [("at", 0.2)]
    ensures InsertDesc(x, r) == [("at", 0.2), ("ac", 0.15)]
  {
    InsertDescAt(("ac", 0.15), [("at", 0.2)], []);
    assert [("at", 0.2)] + [] == [("at", 0.2)] && [("at", 0.2)] + [("ac", 0.15)] + [] == [("at", 0.2), ("ac", 0.15)];
  }

  lemma {:induction false} FinalSort2(s: Items<string>)
    requires s == [("at", 0.2), ("ac", 0.15)]
    ensures SortDesc(s) == [("at", 0.2), ("ac", 0.15)]
  {
    assert s[..1] == [("at", 0.2)];
    FinalSort1(s[..1]);
    FinalInsert2(s[1], SortDesc(s[..1]));
  }

  lemma {:induction false} FinalInsert3(x: (string, real), r: Items<string>)
    requires x == ("a", 0.15) && r == [("at", 0.2), ("ac", 0.15)]
    ensures InsertDesc(x, r) == [("at", 0.2), ("ac", 0.15), ("a", 0.15)]
  {
    InsertDescAt(("a", 0.15), [("at", 0.2), ("ac", 0.15)], []);
    assert [("at", 0.2), ("ac", 0.15)] + [] == [("at", 0.2), ("ac", 0.15)] && [("at", 0.2), ("ac", 0.15)] + [("a", 0.15)] + [] == [("at", 0.2), ("ac", 0.15), ("a", 0.15)];
  }

  lemma {:induction false} FinalSort3(s: Items<string>)
    requires s == [("at", 0.2), ("ac", 0.15), ("a", 0.15)]
    ensures SortDesc(s) == [("at", 0.2), ("ac", 0.15), ("a", 0.15)]
  {
    assert s[..2] == [("at", 0.2), ("ac", 0.15)];
    FinalSort2(s[..2]);
    FinalInsert3(s[2], SortDesc(s[..2]));
  }
  // ---------------------------------------------------------------------
  // The whole search.

  /** `extend_and_merge` at the first timestep: the start beam extended by every symbol. */
  lemma {:induction false} FirstMerged(dp: Items<Beam>, vocab: string, dist: seq<real>)
    requires dp == [(Beam("", '^'), 1.0)] && vocab == "^cat" && dist == [0.0, 0.3, 0.5, 0.2]
    ensures ExtendAndMerge(dp, vocab, dist) == [(Beam("", '^'), 0.0), (Beam("c", 'c'), 0.3), (Beam("a", 'a'), 0.5), (Beam("t", 't'), 0.2)]
  {
    assert dp[..1] == dp;
    FirstMergeBeam0(dp);
  }

  /** `extend_and_merge` at the second timestep: twelve candidates, twelve distinct keys. */
  lemma {:induction false} SecondMerged(dp: Items<Beam>, vocab: string, dist: seq<real>)
    requires dp == [(Beam("a", 'a'), 0.5), (Beam("c", 'c'), 0.3), (Beam("t", 't'), 0.2)] && vocab == "^cat" && dist == [0.0, 0.3, 0.3, 0.4]
    ensures ExtendAndMerge(dp, vocab, dist) == [(Beam("a", '^'), 0.0), (Beam("ac", 'c'), 0.15), (Beam("a", 'a'), 0.15), (Beam("at", 't'), 0.2), (Beam("c", '^'), 0.0), (Beam("c", 'c'), 0.09), (Beam("ca", 'a'), 0.09), (Beam("ct", 't'), 0.12), (Beam("t", '^'), 0.0), (Beam("tc", 'c'), 0.06), (Beam("ta", 'a'), 0.06), (Beam("t", 't'), 0.08)]
  {
    assert dp[..3] == dp;
    SecondMergeBeam2(dp);
  }

  /** After the first timestep of the `^cat` table every one-letter text survives the cut. */
  lemma {:induction false} FirstState(vocab: string, probs: seq<seq<real>>)
    requires vocab == "^cat" && probs == [[0.0, 0.3, 0.5, 0.2], [0.0, 0.3, 0.3, 0.4]]
    ensures Rectangular(probs, |vocab|)
    ensures BeamStates(vocab, probs, 3, 1) == [(Beam("a", 'a'), 0.5), (Beam("c", 'c'), 0.3), (Beam("t", 't'), 0.2)]
  {
    var dp := BeamStates(vocab, probs, 3, 0);
    assert dp == [(Beam("", '^'), 1.0)];
    var merged := ExtendAndMerge(dp, vocab, probs[0]);
    FirstMerged(dp, vocab, probs[0]);
    FirstSort4(merged);
    assert [(Beam("a", 'a'), 0.5), (Beam("c", 'c'), 0.3), (Beam("t", 't'), 0.2), (Beam("", '^'), 0.0)][..3] == [(Beam("a", 'a'), 0.5), (Beam("c", 'c'), 0.3), (Beam("t", 't'), 0.2)];
  }

  /** After the second timestep the three most probable beams are `at`, `ac` and `a`. */
  lemma {:induction false} SecondState(vocab: string, probs: seq<seq<real>>)
    requires vocab == "^cat" && probs == [[0.0, 0.3, 0.5, 0.2], [0.0, 0.3, 0.3, 0.4]]
    ensures Rectangular(probs, |vocab|)
    ensures BeamStates(vocab, probs, 3, 2) == [(Beam("at", 't'), 0.2), (Beam("ac", 'c'), 0.15), (Beam("a", 'a'), 0.15)]
  {
    var dp := BeamStates(vocab, probs, 3, 1);
    assert dp == [(Beam("a", 'a'), 0.5), (Beam("c", 'c'), 0.3), (Beam("t", 't'), 0.2)] by {
      FirstState(vocab, probs);
    }
    var merged := ExtendAndMerge(dp, vocab, probs[1]);
    SecondMerged(dp, vocab, probs[1]);
    SecondSort12(merged);
    assert [(Beam("at", 't'), 0.2), (Beam("ac", 'c'), 0.15), (Beam("a", 'a'), 0.15), (Beam("ct", 't'), 0.12), (Beam("c", 'c'), 0.09), (Beam("ca", 'a'), 0.09), (Beam("t", 't'), 0.08), (Beam("tc", 'c'), 0.06), (Beam("ta", 'a'), 0.06), (Beam("a", '^'), 0.0), (Beam("c", '^'), 0.0), (Beam("t", '^'), 0.0)][..3] == [(Beam("at", 't'), 0.2), (Beam("ac", 'c'), 0.15), (Beam("a", 'a'), 0.15)];
  }

  /**
    The beam search with width 3 on the `^cat` table ranks `at` first and
    keeps `ac` ahead of `a`, which ties with it, in the order it met them.
  */
  lemma {:induction false} BeamSearchCat(vocab: string, probs: seq<seq<real>>)
    requires vocab == "^cat" && probs == [[0.0, 0.3, 0.5, 0.2], [0.0, 0.3, 0.3, 0.4]]
    ensures Rectangular(probs, |vocab|)
    ensures BeamSearch(vocab, probs, 3) == [Hypothesis("at", 0.2), Hypothesis("ac", 0.15), Hypothesis("a", 0.15)]
  {
    var dp := BeamStates(vocab, probs, 3, 2);
    assert dp == [(Beam("at", 't'), 0.2), (Beam("ac", 'c'), 0.15), (Beam("a", 'a'), 0.15)] by {
      SecondState(vocab, probs);
    }
    var texts := TextMass(dp);
    assert texts == [("at", 0.2), ("ac", 0.15), ("a", 0.15)] by {
      FinalProject();
      FinalMerge3();
    }
    FinalSort3(texts);
    var hs := BeamSearch(vocab, probs, 3);
    assert |hs| == 3 && hs[0] == Hypothesis("at", 0.2) && hs[1] == Hypothesis("ac", 0.15) && hs[2] == Hypothesis("a", 0.15);
  }
}
