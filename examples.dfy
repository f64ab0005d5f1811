/**
  Worked examples of the collapse rule of `ctc_decode`, evaluated on the
  model: runs merge, a blank keeps equal symbols apart, blanks go.
*/
module Examples {
  import opened PathCollapse

  /** A run of equal symbols merges into one. */
  lemma {:induction false} CollapseRun(s: string)
    requires s == "aa"
    ensures Collapse(s) == "a"
  {
    OnePassCollapse("aa", 2);
    assert "aa"[..2] == s;
  }

  /** A blank between two equal symbols keeps them apart. */
  lemma {:induction false} CollapseSeparated(s: string)
    requires s == "a^a"
    ensures Collapse(s) == "aa"
  {
    OnePassCollapse("a^a", 3);
    assert "a^a"[..3] == s;
  }

  /** A stretch of the sentence of `test_ctc_decode`: runs merge, blanks go. */
  lemma {:induction false} CollapseStretch(s: string)
    requires s == "sss^hhh^"
    ensures Collapse(s) == "sh"
  {
    OnePassCollapse("sss^hhh^", 8);
    assert "sss^hhh^"[..8] == s;
  }
}
