/** The path of `replace_simple` (Source/DOH/string.c) that works in place: the text shrinks or keeps its length, and what
    is searched is the buffer under way.
 */
module InPlace {
  import opened Scan
  import opened Quotes
  import opened Substitution
  import opened QuotedSites
  import opened FindPlaces
  import opened GrowingSites
  import opened StringObject

  // ----- the text still to come, behind a given place

  ghost function Rest(f: Search, b: string, from: nat, left: bool, tok: string, rep: string, seen: bool, once: bool): string
    requires tok != "" && from <= |b|
  {
    SitesAreSpaced(f, b, from, left, tok, seen, once);
    Weave(b, from, Sites(f, b, from, left, tok, seen, once), |tok|, rep)
  }

  ghost function Count(f: Search, b: string, from: nat, left: bool, tok: string, seen: bool, once: bool): nat
    requires tok != "" && from <= |b|
  {
    |Sites(f, b, from, left, tok, seen, once)|
  }

  /** Behind a site: nothing more under FIRST, the remaining sites otherwise. */
  ghost function After(f: Search, b: string, n: nat, tok: string, rep: string, seen: bool, once: bool): string
    requires tok != "" && n <= |b|
  {
    if once then b[n..] else Rest(f, b, n, seen, tok, rep, seen, false)
  }

  ghost function CountAfter(f: Search, b: string, n: nat, tok: string, seen: bool, once: bool): nat
    requires tok != "" && n <= |b|
  {
    if once then 0 else Count(f, b, n, seen, tok, seen, false)
  }

  lemma RestStep(f: Search, b: string, from: nat, left: bool, tok: string, rep: string, seen: bool, once: bool)
    requires tok != "" && from <= |b|
    ensures var c := Find(f, b, from, left, tok);
            if c == NONE then
              Rest(f, b, from, left, tok, rep, seen, once) == b[from..] && Count(f, b, from, left, tok, seen, once) == 0
            else
              && Rest(f, b, from, left, tok, rep, seen, once)
                 == b[from..c] + rep + After(f, b, c + |tok|, tok, rep, seen, once)
              && Count(f, b, from, left, tok, seen, once) == 1 + CountAfter(f, b, c + |tok|, tok, seen, once)
  {
    hide Find, Sites, Weave;
    var c := Find(f, b, from, left, tok);
    SitesStep(f, b, from, left, tok, seen, once);
    if c == NONE {
      WeaveNil(b, from, |tok|, rep);
    } else {
      var n := c + |tok|;
      if once {
        WeaveNil(b, n, |tok|, rep);
        WeaveStep(b, from, c, [], |tok|, rep);
        assert [c] + [] == [c];
      } else {
        SitesAreSpaced(f, b, n, seen, tok, seen, once);
        WeaveStep(b, from, c, Sites(f, b, n, seen, tok, seen, once), |tok|, rep);
      }
    }
  }

  // ----- the in-place pass

  /** Buffer contents during the in-place pass: the finished text, then the original. */
  ghost predicate Layout(cur: string, out: string, whole: string) {
    |out| <= |whole| && cur == out + whole[|out|..]
  }

  /** The finished text so far is `out`, and the site `s` is to be rewritten next. */
  ghost predicate Pending(f: Search, b: string, out: string, s: int, tok: string, rep: string, seen: bool, once: bool,
                          rcount: nat, total: string, n: nat)
    requires tok != ""
  {
    && OccursAt(tok, b, s)
    && total == out + rep + After(f, b, s + |tok|, tok, rep, seen, once)
    && n == rcount + 1 + CountAfter(f, b, s + |tok|, tok, seen, once)
  }

  lemma FirstPending(f: Search, b: string, tok: string, rep: string, seen: bool, once: bool)
    requires tok != "" && Find(f, b, 0, false, tok) != NONE
    ensures var s := Find(f, b, 0, false, tok);
            Pending(f, b, b[..s], s, tok, rep, seen, once, 0,
                    Rest(f, b, 0, false, tok, rep, seen, once), Count(f, b, 0, false, tok, seen, once))
  {
    hide Find, Sites, Weave, After, CountAfter, Rest, Count;
    RestStep(f, b, 0, false, tok, rep, seen, once);
    assert b[0..Find(f, b, 0, false, tok)] == b[..Find(f, b, 0, false, tok)];
  }

  /** After rewriting the site `s` the next one is pending, or the rest is copied. */
  lemma NextPending(f: Search, b: string, out: string, s: int, tok: string, rep: string, seen: bool,
                    rcount: nat, total: string, n: nat)
    requires tok != "" && Pending(f, b, out, s, tok, rep, seen, false, rcount, total, n)
    ensures var c := Find(f, b, s + |tok|, seen, tok);
            if c == NONE then total == out + rep + b[s + |tok|..] && n == rcount + 1
            else Pending(f, b, out + rep + b[s + |tok|..c], c, tok, rep, seen, false, rcount + 1, total, n)
  {
    hide Find, Sites, Weave, StrStr;
    RestStep(f, b, s + |tok|, seen, tok, rep, seen, false);
    var c := Find(f, b, s + |tok|, seen, tok);
    if c != NONE {
      var x, y, z := out + rep, b[s + |tok|..c], After(f, b, c + |tok|, tok, rep, seen, false);
      assert x + (y + rep + z) == (x + y) + rep + z;
    }
  }

  lemma PendingFacts(f: Search, b: string, out: string, s: int, tok: string, rep: string, seen: bool, once: bool,
                     rcount: nat, total: string, n: nat)
    requires tok != "" && Pending(f, b, out, s, tok, rep, seen, once, rcount, total, n)
    ensures 0 <= s && s + |tok| <= |b| && OccursAt(tok, b, s) && |out| + |rep| <= |total|
    ensures once ==> total == out + rep + b[s + |tok|..] && n == rcount + 1
  {
    hide Find, Sites, Weave, StrStr;
  }

  /** The matcher run on the half-rewritten buffer finds what it would find in the original. */
  lemma ScanSame(f: Search, b: string, cur: string, out: string, s: nat, tok: string, rep: string)
    requires tok != "" && OccursAt(tok, b, s) && |rep| <= |tok|
    requires Layout(cur, out + rep, b) && |out| <= s && (|rep| == |tok| ==> |out| == s)
    ensures Find(f, cur, s + |tok|, LeftIn(cur, s + |tok|), tok) == Find(f, b, s + |tok|, SeenByCode(tok, rep), tok)
  {
    hide Find;
    var n := s + |tok|;
    TokenEnd(b, s, tok);
    assert cur[n..] == b[n..];
    assert LeftIn(cur, n) == SeenByCode(tok, rep);
    FindSuffix(f, cur, b, n, SeenByCode(tok, rep), tok);
  }

  lemma PrefixSlice(whole: string, len: nat, s: nat, e: nat)
    requires s <= e <= len <= |whole|
    ensures whole[..len][s..e] == whole[s..e]
  {
  }

  /** Moving whole[s..c] behind the finished text. */
  lemma MoveLayout(cur: string, next: string, out: string, whole: string, s: nat, c: nat)
    requires Layout(cur, out, whole) && |out| <= s <= c <= |whole|
    requires next == cur[..|out|] + cur[s..c] + cur[|out| + (c - s)..]
    ensures Layout(next, out + whole[s..c], whole)
  {
    var n := |out| + (c - s);
    assert cur[..|out|] == out;
    assert cur[s..c] == whole[s..c] by { assert forall i :: s <= i < c ==> cur[i] == whole[i]; }
    assert cur[n..] == whole[n..] by { assert forall i :: n <= i < |whole| ==> cur[i] == whole[i]; }
  }

  /** memcpy(t, rep, replen) at the end of the finished text. */
  method PutRep(a: array<char>, t: nat, rep: string, ghost out: string, ghost whole: string)
    requires |out| == t && t + |rep| <= a.Length && Layout(a[..], out, whole)
    modifies a
    ensures Layout(a[..], out + rep, whole)
  {
    MemCpy(a, t, rep);
  }

  /** memmove(t, s, c - s): a piece of the original moves behind the finished text. */
  method Shift(a: array<char>, t: nat, s: nat, c: nat, ghost out: string, ghost whole: string)
    requires |out| == t <= s <= c <= a.Length && Layout(a[..], out, whole)
    modifies a
    ensures Layout(a[..], out + whole[s..c], whole)
  {
    ghost var cur := a[..];
    MemMove(a, t, s, c - s);
    MoveLayout(cur, a[..], out, whole, s, c);
  }

  lemma LayoutFacts(cur: string, out: string, whole: string, len: nat)
    requires Layout(cur, out, whole) && |out| <= len <= |whole|
    ensures |cur| == |whole| && cur[..|out|] == out && Layout(cur[..len], out, whole[..len])
  {
  }

  lemma InitialLayout(whole: string, b: string, first: nat)
    requires first <= |b| && b <= whole
    ensures Layout(whole, b[..first], whole)
  {
  }

  /** The terminator moved along with the rest is not part of the text. */
  lemma DropLast(cur: string, out: string, whole: string, s: nat, len: nat)
    requires |out| <= s <= len < |whole| && Layout(cur, out + whole[s..len + 1], whole)
    ensures Finished(cur, out + whole[s..len], len)
  {
    assert whole[s..len + 1] == whole[s..len] + [whole[len]];
  }

  ghost predicate Finished(cur: string, total: string, len: nat) {
    |total| <= len <= |cur| && cur[..|total|] == total
  }

  /** With nothing to move, the finished text simply grows over the original. */
  lemma StayLayout(cur: string, out: string, whole: string, c: nat)
    requires Layout(cur, out, whole) && |out| <= c <= |whole|
    ensures Layout(cur, out + whole[|out|..c], whole) && Finished(cur, out + whole[|out|..c], c)
  {
  }

  lemma WatchingSame(f: Search, b: string, c: string, from: nat, noquote: bool)
    requires from <= |b| == |c| && b[from..] == c[from..] && Watching(f, b, from, noquote)
    ensures Watching(f, c, from, noquote)
  {
    hide FirstOf;
    SliceOn(b, c, from, from);
    FirstOfSame(IsQuote, b, c, from);
  }

  /** The search behind the site just rewritten at `s`, on the buffer under way. */
  method NextPlace(a: array<char>, len: nat, f: Search, tok: string, rep: string, s: nat, noquote: bool,
                   ghost b: string, ghost out: string)
    returns (c: int, noquote': bool)
    requires tok != "" && |rep| <= |tok| && len < a.Length && OccursAt(tok, b, s)
    requires Layout(a[..len], out + rep, b) && |out| <= s && (|rep| == |tok| ==> |out| == s)
    requires Watching(f, b, s + |tok|, noquote)
    ensures c == Find(f, b, s + |tok|, SeenByCode(tok, rep), tok)
    ensures c != NONE ==> Watching(f, b, c + |tok|, noquote')
  {
    hide Find, FirstOf, SeenByCode, OccursAt, Watching, First, LeftIn;
    ghost var cur, n := a[..len], s + |tok|;
    ScanSame(f, b, cur, out, s, tok, rep);
    OccursFrom(b, s, tok);
    assert cur[n..] == b[n..];
    WatchingSame(f, b, cur, n, noquote);
    StillFinds(f, cur, n, LeftIn(cur, n), tok, noquote);
    c, noquote' := FindNext(a, len, f.m, s + |tok|, tok, noquote);
    if c != NONE {
      StillWatching(f, cur, n, LeftIn(cur, n), tok, noquote);
      SliceOn(cur, b, n, c + |tok|);
      WatchingSame(f, cur, b, c + |tok|, noquote');
    }
  }

  /** Finds the site behind the one just rewritten at `s` and moves what lies between. */
  method NextSite(a: array<char>, len: nat, f: Search, tok: string, rep: string, s: nat, t: nat, noquote: bool,
                  ghost out: string, ghost whole: string, ghost rcount: nat, ghost total: string, ghost n: nat)
    returns (c: int, t': nat, noquote': bool, ghost out': string)
    requires tok != "" && |rep| <= |tok| && len < a.Length == |whole|
    requires Pending(f, whole[..len], out, s, tok, rep, SeenByCode(tok, rep), false, rcount, total, n)
    requires Layout(a[..], out + rep, whole) && t == |out + rep| && |out| <= s && (|rep| == |tok| ==> |out| == s)
    requires Watching(f, whole[..len], s + |tok|, noquote)
    modifies a
    ensures c == NONE ==> rcount + 1 == n && Finished(a[..], total, len)
    ensures c != NONE ==>
              && s < c <= len && Pending(f, whole[..len], out', c, tok, rep, SeenByCode(tok, rep), false, rcount + 1, total, n)
              && Layout(a[..], out', whole) && |out'| == t' <= c && (|rep| == |tok| ==> t' == c)
              && Watching(f, whole[..len], c + |tok|, noquote')
  {
    hide Find, Rest, Count, Layout, SeenByCode, Finished, Pending, OccursAt, Watching;
    ghost var b := whole[..len];
    PendingFacts(f, b, out, s, tok, rep, SeenByCode(tok, rep), false, rcount, total, n);
    var from := s + |tok|;
    NextPending(f, b, out, s, tok, rep, SeenByCode(tok, rep), rcount, total, n);
    LayoutFacts(a[..], out + rep, whole, len);
    assert a[..][..len] == a[..len];
    c, noquote' := NextPlace(a, len, f, tok, rep, s, noquote, b, out);
    t' := t;
    ghost var e := if c == NONE then len else c;
    PrefixSlice(whole, len, from, e);
    if |rep| - |tok| != 0 {
      if c != NONE {
        Shift(a, t, from, c, out + rep, whole);
        t' := t + (c - from);
      } else {
        Shift(a, t, from, len + 1, out + rep, whole);
        DropLast(a[..], out + rep, whole, from, len);
      }
    } else {
      StayLayout(a[..], out + rep, whole, e);
      if c != NONE { t' := t + (c - from); }
    }
    out' := out + rep + b[from..e];
  }

  /** Under FIRST only the rest of the text is left to move. */
  method CopyRest(a: array<char>, len: nat, tok: string, rep: string, from: nat, t: nat, ghost out: string, ghost whole: string)
    requires |rep| <= |tok| && from <= len < a.Length == |whole|
    requires Layout(a[..], out + rep, whole) && t == |out + rep| <= from && (|rep| == |tok| ==> t == from)
    modifies a
    ensures Finished(a[..], out + rep + whole[..len][from..], len)
  {
    PrefixSlice(whole, len, from, len);
    if |rep| - |tok| != 0 {
      Shift(a, t, from, len + 1, out + rep, whole);
      DropLast(a[..], out + rep, whole, from, len);
    } else {
      StayLayout(a[..], out + rep, whole, len);
    }
  }

  method ReplaceInPlace(a: array<char>, len: nat, f: Search, tok: string, rep: string, once: bool, first: int, noquote: bool)
    returns (rcount: nat)
    requires tok != "" && |rep| <= |tok| && len < a.Length
    requires first == Find(f, a[..len], 0, false, tok) != NONE && Watching(f, a[..len], first + |tok|, noquote)
    modifies a
    ensures rcount == Count(f, old(a[..len]), 0, false, tok, SeenByCode(tok, rep), once)
    ensures Finished(a[..], Rest(f, old(a[..len]), 0, false, tok, rep, SeenByCode(tok, rep), once), len)
  {
    hide Find, Rest, Count, Layout, SeenByCode, Finished, Pending, Watching;
    ghost var whole := a[..];
    ghost var b := whole[..len];
    assert a[..len] == b;
    ghost var seen := SeenByCode(tok, rep);
    ghost var total, n := Rest(f, b, 0, false, tok, rep, seen, once), Count(f, b, 0, false, tok, seen, once);
    var ic := if once then 1 else -1;
    var s, t, noquote' := first, first, noquote;
    rcount := 0;
    ghost var out := b[..s];
    FirstPending(f, b, tok, rep, seen, once);
    InitialLayout(whole, b, first);
    while ic != 0 && s != NONE
      invariant if once then ic == 1 else ic < 0
      invariant s == NONE ==> rcount == n && Finished(a[..], total, len)
      invariant s != NONE ==>
                  && Pending(f, b, out, s, tok, rep, seen, once, rcount, total, n)
                  && Layout(a[..], out, whole) && |out| == t <= s && (|rep| == |tok| ==> t == s)
                  && Watching(f, b, s + |tok|, noquote')
      decreases if s == NONE then 0 else len - s + 1
    {
      PendingFacts(f, b, out, s, tok, rep, seen, once, rcount, total, n);
      PutRep(a, t, rep, out, whole);
      t := t + |rep|;
      rcount := rcount + 1;
      if ic == 1 {
        s := s + |tok|;
        break;
      }
      s, t, noquote', out := NextSite(a, len, f, tok, rep, s, t, noquote', out, whole, rcount - 1, total, n);
      ic := ic - 1;
    }
    if s != NONE {
      CopyRest(a, len, tok, rep, s, t, out, whole);
    }
  }
}
