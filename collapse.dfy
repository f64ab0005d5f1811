/**
  The CTC collapse rule on raw symbol paths: merge each run of equal
  consecutive symbols into one, then delete every blank. A blank between two
  equal symbols therefore keeps them apart ("aa" gives "a", "a^a" gives "aa").
*/
module PathCollapse {

  /** The blank ("empty") token, `EMPTY_TOK`. */
  const Blank: char := '^'

  /** `s.replace('^', '')`: `s` with every blank deleted. */
  function StripBlanks(s: string): string
  {
    if s == [] then []
    else StripBlanks(s[..|s| - 1]) + (if s[|s| - 1] == Blank then [] else [s[|s| - 1]])
  }

  /** `s` with every run of equal consecutive symbols merged into one. */
  function Dedup(s: string): string
  {
    if s == [] then []
    else if |s| > 1 && s[|s| - 2] == s[|s| - 1] then Dedup(s[..|s| - 1])
    else Dedup(s[..|s| - 1]) + [s[|s| - 1]]
  }

  /** The text a raw path stands for: repeats merged first, blanks deleted second. */
  function Collapse(path: string): string
  {
    StripBlanks(Dedup(path))
  }

  /** The last raw symbol of `path`, or the blank before the first step. */
  function LastOr(path: string): char
  {
    if path == [] then Blank else path[|path| - 1]
  }

  /** Deleting blanks leaves no blank, never lengthens, and changes nothing without blanks. */
  lemma {:induction false} StripBlanksFacts(s: string)
    ensures Blank !in StripBlanks(s)
    ensures |StripBlanks(s)| <= |s|
    ensures Blank !in s ==> StripBlanks(s) == s
  {
    if s != [] {
      var p := s[..|s| - 1];
      assert s == p + [s[|s| - 1]];
      StripBlanksFacts(p);
    }
  }

  lemma {:induction false} StripBlanksSnoc(s: string, c: char)
    ensures StripBlanks(s + [c]) == StripBlanks(s) + (if c == Blank then [] else [c])
  {
    assert (s + [c])[..|s|] == s;
  }

  lemma {:induction false} DedupSnoc(s: string, c: char)
    ensures Dedup(s + [c]) == if s != [] && s[|s| - 1] == c then Dedup(s) else Dedup(s) + [c]
  {
    assert (s + [c])[..|s|] == s;
  }

  /**
    The one-pass rule `ctc_decode` follows: a new raw symbol adds itself to
    the text exactly when it differs from the raw symbol before it and is
    not the blank.
  */
  lemma {:induction false} CollapseSnoc(path: string, c: char)
    ensures Collapse(path + [c]) ==
      Collapse(path) + (if c != LastOr(path) && c != Blank then [c] else [])
  {
    DedupSnoc(path, c);
    if !(path != [] && path[|path| - 1] == c) {
      StripBlanksSnoc(Dedup(path), c);
    }
  }

  /** The collapsed text holds no blank and is never longer than the path. */
  lemma {:induction false} CollapseBounds(path: string)
    ensures Blank !in Collapse(path)
    ensures |Collapse(path)| <= |path|
  {
    if path == [] {
    } else {
      var p := path[..|path| - 1];
      assert path == p + [path[|path| - 1]];
      CollapseSnoc(p, path[|path| - 1]);
      CollapseBounds(p);
      StripBlanksFacts(Dedup(path));
    }
  }

  /**
    The one-pass rule over the first `n` symbols: keep a symbol exactly
    when it is not the blank and differs from the raw symbol before it (the
    blank before the first).
  */
  function OnePass(s: string, n: nat): string
    requires n <= |s|
  {
    if n == 0 then []
    else OnePass(s, n - 1) + (if s[n - 1] != (if n >= 2 then s[n - 2] else Blank) && s[n - 1] != Blank then [s[n - 1]] else [])
  }

  /** The one-pass rule and merge-then-strip give the same text on every prefix. */
  lemma {:induction false} OnePassCollapse(s: string, n: nat)
    requires n <= |s|
    ensures OnePass(s, n) == Collapse(s[..n])
  {
    if n > 0 {
      var p, c := s[..n - 1], s[n - 1];
      OnePassCollapse(s, n - 1);
      assert s[..n] == p + [c];
      assert LastOr(p) == if n >= 2 then s[n - 2] else Blank;
      CollapseSnoc(p, c);
    }
  }
}
