/** Newline counts and trailing white space of plain character strings. */
module TextLines {
  import opened Ascii
  import opened Scan

  function Newlines(s: string): nat {
    if s == "" then 0 else Newlines(s[..|s| - 1]) + if s[|s| - 1] == '\n' then 1 else 0
  }

  lemma {:induction false} NewlinesConcat(a: string, b: string)
    ensures Newlines(a + b) == Newlines(a) + Newlines(b)
  {
    if b == "" {
      assert a + b == a;
    } else {
      assert (a + b)[..|a + b| - 1] == a + b[..|b| - 1];
      NewlinesConcat(a, b[..|b| - 1]);
    }
  }

  lemma NewlinesSplit(s: string, i: nat, j: nat)
    requires i <= j <= |s|
    ensures Newlines(s[..j]) == Newlines(s[..i]) + Newlines(s[i..j])
  {
    assert s[..j] == s[..i] + s[i..j];
    NewlinesConcat(s[..i], s[i..j]);
  }

  lemma NewlinesStep(s: string, i: nat)
    requires i < |s|
    ensures Newlines(s[..i + 1]) == Newlines(s[..i]) + if s[i] == '\n' then 1 else 0
  {
    assert s[..i + 1][..i] == s[..i];
  }

  lemma NoNewlines()
    ensures Newlines("") == 0
  {
  }

  lemma WindowUp(s: string, a: nat, b: nat)
    requires a <= b < |s|
    ensures Newlines(s[a..b + 1]) == Newlines(s[a..b]) + if s[b] == '\n' then 1 else 0
  {
    assert s[a..b + 1][..b - a] == s[a..b];
  }

  lemma WindowDown(s: string, a: nat, b: nat)
    requires a < b <= |s|
    ensures Newlines(s[a..b]) == Newlines(s[a + 1..b]) + if s[a] == '\n' then 1 else 0
  {
    assert s[a..b] == [s[a]] + s[a + 1..b];
    NewlinesConcat([s[a]], s[a + 1..b]);
    assert [s[a]][..0] == "";
  }

  /** Moving a window on by one character takes in one and lets one go. */
  lemma WindowShift(s: string, a: nat, b: nat)
    requires a <= b < |s|
    ensures Newlines(s[a + 1..b + 1]) + (if s[a] == '\n' then 1 else 0) == Newlines(s[a..b]) + if s[b] == '\n' then 1 else 0
  {
    WindowUp(s, a, b);
    WindowDown(s, a, b + 1);
  }

  function Chopped(s: string): string {
    if s != "" && Space(s[|s| - 1]) then Chopped(s[..|s| - 1]) else s
  }

  lemma ChoppedStep(s: string, n: nat)
    requires n <= |s|
    ensures Chopped(s[..n]) == if n > 0 && Space(s[n - 1]) then Chopped(s[..n - 1]) else s[..n]
  {
    if n > 0 { assert s[..n][..n - 1] == s[..n - 1]; }
  }

  /** Chop removes exactly the longest suffix of white space. */
  lemma {:induction false} ChopIsMaximal(s: string)
    ensures Chopped(s) <= s
    ensures forall i :: |Chopped(s)| <= i < |s| ==> s[i] in BLANKS
    ensures Chopped(s) == "" || Chopped(s)[|Chopped(s)| - 1] !in BLANKS
  {
    if s != "" { Blanks(s[|s| - 1]); }
    if s != "" && Space(s[|s| - 1]) {
      ChopIsMaximal(s[..|s| - 1]);
    }
  }

  /** Inserting `data` at `pos` shifts the count before a cursor at or behind `pos` by the newlines of `data`. */
  lemma InsertedNewlines(was: string, pos: nat, data: string, sp: nat)
    requires pos <= |was| && sp <= |was|
    ensures var text := was[..pos] + data + was[pos..];
            if sp >= pos then Newlines(text[..sp + |data|]) == Newlines(was[..sp]) + Newlines(data)
            else text[..sp] == was[..sp]
  {
    hide Newlines;
    var text := was[..pos] + data + was[pos..];
    if sp >= pos {
      assert text[..sp + |data|] == was[..pos] + data + was[pos..sp];
      NewlinesConcat(was[..pos] + data, was[pos..sp]);
      NewlinesConcat(was[..pos], data);
      NewlinesSplit(was, pos, sp);
    }
  }

  /** Deleting [s, e) moves a cursor behind it and drops the newlines that lay before the cursor. */
  lemma DeletedNewlines(was: string, s: nat, e: nat, sp: nat)
    requires s <= e <= |was| && sp <= |was|
    ensures var text := was[..s] + was[e..];
            if sp > e then Newlines(text[..sp - (e - s)]) == Newlines(was[..sp]) - Newlines(was[s..e])
            else if sp > s then Newlines(text[..s]) == Newlines(was[..sp]) - Newlines(was[s..sp])
            else text[..sp] == was[..sp]
  {
    var text := was[..s] + was[e..];
    if sp > e {
      assert text[..sp - (e - s)] == was[..s] + was[e..sp];
      NewlinesConcat(was[..s], was[e..sp]);
      NewlinesSplit(was, s, e);
      NewlinesSplit(was, e, sp);
    } else if sp > s {
      assert text[..s] == was[..s];
      NewlinesSplit(was, s, sp);
    }
  }
}
