/** The path of `replace_simple` (Source/DOH/string.c) that makes a new buffer: the places are counted, room is made by
    doubling, and the text is copied with a second search.
 */
module Growing {
  import opened Scan
  import opened Quotes
  import opened Substitution
  import opened QuotedSites
  import opened GrowingSites
  import opened FindPlaces
  import opened StringObject

  // ----- the text still to come

  lemma {:induction false} SpacedTake(sites: seq<nat>, from: nat, b: string, k: nat, n: nat)
    requires Spaced(sites, from, b, k)
    ensures Spaced(Take(sites, n), from, b, k)
    decreases |sites|
  {
    if n == 0 {
      if sites != [] { SpacedFrom(sites, from, b, k); }
    } else if 0 < n <= |sites| {
      SpacedTake(sites[1..], sites[0] + k, b, k, n - 1);
      assert Take(sites, n)[1..] == Take(sites[1..], n - 1);
    }
  }

  /** The text from `from` on, with the first `n` places of a search replaced. */
  ghost function RestOf(g: Search, b: string, from: nat, tok: string, rep: string, n: nat): string
    requires tok != "" && from <= |b|
  {
    var seen := IsIdChar(Last(tok));
    SitesAreSpaced(g, b, from, seen, tok, seen, false);
    SpacedTake(Counted(g, b, from, tok), from, b, |tok|, n);
    Weave(b, from, Take(Counted(g, b, from, tok), n), |tok|, rep)
  }

  lemma CountedStep(g: Search, b: string, from: nat, tok: string)
    requires tok != "" && from <= |b|
    ensures var c := Find(g, b, from, IsIdChar(Last(tok)), tok);
            Counted(g, b, from, tok) == if c == NONE then [] else [c] + Counted(g, b, c + |tok|, tok)
  {
    hide Find, Sites, IsIdChar;
    SitesStep(g, b, from, IsIdChar(Last(tok)), tok, IsIdChar(Last(tok)), false);
  }

  lemma RestOfNone(g: Search, b: string, from: nat, tok: string, rep: string)
    requires tok != "" && from <= |b|
    ensures RestOf(g, b, from, tok, rep, 0) == b[from..]
  {
    hide Counted, Weave;
    WeaveNil(b, from, |tok|, rep);
    assert Take(Counted(g, b, from, tok), 0) == [];
  }

  lemma RestOfStep(g: Search, b: string, from: nat, tok: string, rep: string, n: nat)
    requires tok != "" && from <= |b| && 0 < n <= |Counted(g, b, from, tok)|
    ensures var c := Find(g, b, from, IsIdChar(Last(tok)), tok);
            && c != NONE && n - 1 <= |Counted(g, b, c + |tok|, tok)|
            && RestOf(g, b, from, tok, rep, n) == b[from..c] + rep + RestOf(g, b, c + |tok|, tok, rep, n - 1)
  {
    hide Find, Counted, Weave, IsIdChar;
    var seen := IsIdChar(Last(tok));
    CountedStep(g, b, from, tok);
    var c := Find(g, b, from, seen, tok);
    var rest := Counted(g, b, c + |tok|, tok);
    CountedSpaced(g, b, c + |tok|, tok);
    SpacedTake(rest, c + |tok|, b, |tok|, n - 1);
    WeaveStep(b, from, c, Take(rest, n - 1), |tok|, rep);
    assert Take([c] + rest, n) == [c] + Take(rest, n - 1);
  }

  lemma CountedSpaced(g: Search, b: string, from: nat, tok: string)
    requires tok != "" && from <= |b|
    ensures Spaced(Counted(g, b, from, tok), from, b, |tok|)
  {
    SitesAreSpaced(g, b, from, IsIdChar(Last(tok)), tok, IsIdChar(Last(tok)), false);
  }

  lemma GrownSpaced(f: Search, b: string, tok: string, once: bool)
    requires tok != ""
    ensures Spaced(GrownSites(f, b, tok, once), 0, b, |tok|)
  {
    hide Find, Counted, CopySearch;
    var s := Find(f, b, 0, false, tok);
    if s != NONE && !once {
      var n := s + |tok|;
      CountedSpaced(CopySearch(f, b, tok), b, n, tok);
      SpacedTake(Counted(CopySearch(f, b, tok), b, n, tok), n, b, |tok|, |Counted(f, b, n, tok)|);
      assert ([s] + Copied(f, b, n, tok))[1..] == Copied(f, b, n, tok);
    }
  }

  /** The text that results when it grows. */
  ghost function GrownText(f: Search, b: string, tok: string, rep: string, once: bool): string
    requires tok != ""
  {
    GrownSpaced(f, b, tok, once);
    Weave(b, 0, GrownSites(f, b, tok, once), |tok|, rep)
  }

  lemma GrownLength(f: Search, b: string, tok: string, rep: string, once: bool)
    requires tok != ""
    ensures |GrownText(f, b, tok, rep, once)| == |b| + |GrownSites(f, b, tok, once)| * (|rep| - |tok|)
  {
    hide GrownSites, Weave;
    GrownSpaced(f, b, tok, once);
    WeaveLength(b, 0, GrownSites(f, b, tok, once), |tok|, rep);
  }

  lemma GrownNone(f: Search, b: string, tok: string, rep: string, once: bool)
    requires tok != ""
    ensures var s := Find(f, b, 0, false, tok);
            s == NONE <==> GrownSites(f, b, tok, once) == []
    ensures Find(f, b, 0, false, tok) == NONE ==> GrownText(f, b, tok, rep, once) == b
  {
    hide Find, Copied;
    assert b[0..] == b;
  }

  // ----- a text in which the second search goes wrong

  const SPOKEN := "a \"a\" a"

  lemma SpokenPlaces()
    ensures Match(Simple, SPOKEN, 0, false, "a") == 0 && Match(Simple, SPOKEN, 1, true, "a") == 3
    ensures Match(Simple, SPOKEN, 4, true, "a") == 6 && Match(Simple, SPOKEN, 5, false, "a") == 6
    ensures Match(Simple, SPOKEN, 7, true, "a") == NONE
  {
    var b := SPOKEN;
    assert OccursAt("a", b, 0) && OccursAt("a", b, 3) && OccursAt("a", b, 6);
    assert b[1..2] == " " && b[2..3] == "\"" && b[4..5] == "\"" && b[5..6] == " ";
    assert StrStr(b, 2, "a") == 3 && StrStr(b, 5, "a") == 6;
  }

  lemma SpokenQuotes()
    ensures FirstOf(IsQuote, SPOKEN, 0) == 2 && FirstOf(IsQuote, SPOKEN, 1) == 2 && FirstOf(IsQuote, SPOKEN, 5) == NONE
    ensures FirstOf(IsQuote, SPOKEN, 7) == NONE && EndQuote(SPOKEN, 2) == 4
  {
    var b := SPOKEN;
    assert FirstOf(IsQuote, b, 3) == 4;
    assert FirstOf(EndsLine, b, 3) == NONE by { assert FirstOf(EndsLine, b, 5) == NONE; }
  }

  /** The search outside quotes finds the first and the last "a", and no quote behind the last one. */
  lemma SpokenHits()
    ensures First(Simple, SPOKEN, 0, false, "a") == Hit(0, 2) && First(Simple, SPOKEN, 1, true, "a") == Hit(6, NONE)
    ensures First(Simple, SPOKEN, 7, true, "a") == Hit(NONE, NONE)
  {
    hide Match, FirstOf, EndQuote, PastQuotes;
    SpokenPlaces();
    SpokenQuotes();
    assert OccursAt("a", SPOKEN, 3) && OccursAt("a", SPOKEN, 6) && OccursAt("a", SPOKEN, 0);
    PastDone(Simple, SPOKEN, 2, 0, "a");
    PastStep(Simple, SPOKEN, 2, 3, "a");
    PastDone(Simple, SPOKEN, NONE, 6, "a");
    PastDone(Simple, SPOKEN, NONE, NONE, "a");
  }

  lemma SpokenSites()
    ensures var f := Search(Simple, true);
            && RightSites(f, SPOKEN, "a", false) == [0, 6]
            && GrownSites(f, SPOKEN, "a", false) == [0, 3]
  {
    hide Match, PastQuotes, First, Sites, Find;
    var f, g, b := Search(Simple, true), Search(Simple, false), SPOKEN;
    SpokenPlaces();
    SpokenHits();
    OutsideStep(Simple, b, 0, false, "a", true);
    OutsideStep(Simple, b, 1, true, "a", true);
    OutsideStep(Simple, b, 7, true, "a", true);
    PlainStep(Simple, b, 1, true, "a", true);
    PlainStep(Simple, b, 4, true, "a", true);
    PlainStep(Simple, b, 7, true, "a", true);
    assert Counted(f, b, 1, "a") == [6] && Counted(g, b, 1, "a") == [3, 6];
  }

  /** Replacing "a" by "bb" outside quotes in a text with an "a" before, within and behind quotes: the one within is
      replaced, and the one behind is not. */
  lemma QuotedIsReplaced()
    ensures var f := Search(Simple, true);
            && Substituted(f, SPOKEN, "a", "bb", false) == "bb \"a\" bb"
            && GrownText(f, SPOKEN, "a", "bb", false) == "bb \"bb\" a"
  {
    hide Sites, GrownSites, Weave;
    var b := SPOKEN;
    SpokenSites();
    WeaveNil(b, 7, 1, "bb");
    WeaveNil(b, 4, 1, "bb");
    WeaveStep(b, 1, 6, [], 1, "bb");
    WeaveStep(b, 1, 3, [], 1, "bb");
    WeaveStep(b, 0, 0, [6], 1, "bb");
    WeaveStep(b, 0, 0, [3], 1, "bb");
    assert [6] + [] == [6] && [3] + [] == [3] && [0] + [6] == [0, 6] && [0] + [3] == [0, 3];
  }

  /** The finished text so far is `out`, the site `s` is to be rewritten next, and `left` more behind it. */
  ghost predicate Due(g: Search, b: string, out: string, s: int, tok: string, rep: string, left: nat, total: string)
    requires tok != ""
  {
    && OccursAt(tok, b, s)
    && left <= |Counted(g, b, s + |tok|, tok)|
    && total == out + rep + RestOf(g, b, s + |tok|, tok, rep, left)
  }

  lemma FirstDue(f: Search, b: string, tok: string, rep: string, once: bool)
    requires tok != "" && Find(f, b, 0, false, tok) != NONE
    ensures var s := Find(f, b, 0, false, tok);
            && |GrownSites(f, b, tok, once)| > 0
            && Due(CopySearch(f, b, tok), b, b[..s], s, tok, rep, |GrownSites(f, b, tok, once)| - 1,
                   GrownText(f, b, tok, rep, once))
  {
    hide Find, Counted, CopySearch, Weave, IsIdChar;
    var s := Find(f, b, 0, false, tok);
    var n, g := s + |tok|, CopySearch(f, b, tok);
    assert b[0..s] == b[..s];
    if once {
      WeaveNil(b, n, |tok|, rep);
      WeaveStep(b, 0, s, [], |tok|, rep);
      assert [s] + [] == [s];
      RestOfNone(g, b, n, tok, rep);
    } else {
      CopiedLength(f, b, tok);
      CountedSpaced(g, b, n, tok);
      SpacedTake(Counted(g, b, n, tok), n, b, |tok|, |Counted(f, b, n, tok)|);
      WeaveStep(b, 0, s, Copied(f, b, n, tok), |tok|, rep);
    }
  }

  /** The last of the places is the last there is; the others have a successor. */
  lemma NextDue(g: Search, b: string, out: string, s: int, tok: string, rep: string, left: nat, total: string)
    requires tok != "" && Due(g, b, out, s, tok, rep, left, total)
    ensures 0 <= s && s + |tok| <= |b| && |out| + |rep| <= |total| && LeftIn(b, s + |tok|) == IsIdChar(Last(tok))
    ensures left == 0 ==> total == out + rep + b[s + |tok|..]
    ensures left > 0 ==>
              var c := Find(g, b, s + |tok|, IsIdChar(Last(tok)), tok);
              && c != NONE && |out + rep + b[s + |tok|..c]| <= |total|
              && Due(g, b, out + rep + b[s + |tok|..c], c, tok, rep, left - 1, total)
  {
    hide Find, Counted, RestOf, IsIdChar;
    TokenEnd(b, s, tok);
    var n := s + |tok|;
    if left == 0 {
      RestOfNone(g, b, n, tok, rep);
    } else {
      RestOfStep(g, b, n, tok, rep, left);
      var c := Find(g, b, n, IsIdChar(Last(tok)), tok);
      var x, y, z := out + rep, b[n..c], RestOf(g, b, c + |tok|, tok, rep, left - 1);
      assert x + (y + rep + z) == (x + y) + rep + z;
    }
  }

  // ----- counting

  lemma NoQuoteNoToken(b: string, s: nat, c: int, tok: string)
    requires OccursAt(tok, b, c) && s <= c && FirstOf(IsQuote, b, s) == NONE
    ensures QuoteFree(tok)
  {
    hide FirstOf;
    forall o | 0 <= o < |tok| ensures !IsQuote(tok[o]) {
      TokenChar(b, c, tok, o);
    }
  }

  /** While quotes are looked for, there is one ahead, unless the token brings its own. */
  ghost predicate QuoteAhead(b: string, s: nat, tok: string, noquote: bool) {
    noquote && QuoteFree(tok) ==> FirstOf(IsQuote, b, s) != NONE
  }

  lemma QuoteStaysAhead(m: Matcher, b: string, from: nat, left: bool, tok: string)
    requires tok != "" && from <= |b| && First(m, b, from, left, tok).at != NONE
    ensures var h := First(m, b, from, left, tok); QuoteAhead(b, h.at + |tok|, tok, h.quote != NONE)
  {
    hide Match, FirstOf, PastQuotes, QuoteFree, Clear;
    if QuoteFree(tok) { PastOutside(m, b, from, Match(m, b, from, left, tok), tok); }
  }

  /** What is known of the places from `s` on, with quotes looked for or not. */
  ghost predicate Ahead(f: Search, b: string, s: nat, tok: string, noquote: bool)
    requires tok != "" && s <= |b|
  {
    && Watching(f, b, s, noquote) && QuoteAhead(b, s, tok, noquote)
    && LeftIn(b, s) == IsIdChar(Last(tok))
  }

  ghost predicate WatchedFrom(f: Search, b: string, s: nat, tok: string)
    requires tok != "" && s <= |b|
  {
    Watched(f.m, b, s, IsIdChar(Last(tok)), tok, IsIdChar(Last(tok)))
  }

  lemma StartCounting(f: Search, b: string, tok: string, once: bool, noquote: bool)
    requires tok != "" && Find(f, b, 0, false, tok) != NONE
    requires noquote <==> f.noquote && First(f.m, b, 0, false, tok).quote != NONE
    ensures var n := Find(f, b, 0, false, tok) + |tok|;
            && Ahead(f, b, n, tok, noquote)
            && |GrownSites(f, b, tok, once)| == 1 + (if once then 0 else |Counted(f, b, n, tok)|)
            && (CopySearch(f, b, tok).noquote <==> noquote && WatchedFrom(f, b, n, tok))
  {
    hide Find, Sites, Watched, FirstOf, QuoteFree, IsIdChar, OccursAt, QuoteAhead, Watching, Match, PastQuotes;
    var s := Find(f, b, 0, false, tok);
    TokenEnd(b, s, tok);
    LeftBehind(b, s + |tok|);
    AtStart(f, b, 0);
    StillWatching(f, b, 0, false, tok, f.noquote);
    if noquote { QuoteStaysAhead(f.m, b, 0, false, tok); } else { NotAhead(b, s + |tok|, tok); }
    if !once { CopiedLength(f, b, tok); }
  }

  lemma AtStart(f: Search, b: string, from: nat)
    ensures Watching(f, b, from, f.noquote)
  {
  }

  lemma NotAhead(b: string, s: nat, tok: string)
    ensures QuoteAhead(b, s, tok, false)
  {
  }

  /** One round of the counting: what the matcher and the passing over of quotes find. */
  lemma CountRound(f: Search, b: string, s: nat, tok: string, noquote: bool)
    requires tok != "" && s <= |b| && Ahead(f, b, s, tok, noquote)
    ensures var seen := IsIdChar(Last(tok));
            var c, h := Match(f.m, b, s, seen, tok), First(f.m, b, s, seen, tok);
            var r := if noquote then h.at else c;
            && (c == NONE ==> h.at == NONE)
            && (r == NONE ==> Counted(f, b, s, tok) == [] && (noquote ==> WatchedFrom(f, b, s, tok)))
            && (r != NONE ==>
                  && s <= r && r + |tok| <= |b|
                  && Counted(f, b, s, tok) == [r] + Counted(f, b, r + |tok|, tok)
                  && Ahead(f, b, r + |tok|, tok, noquote && h.quote != NONE)
                  && (noquote ==> (WatchedFrom(f, b, s, tok) <==> h.quote != NONE && WatchedFrom(f, b, r + |tok|, tok))))
  {
    hide Sites, FirstOf, QuoteFree, IsIdChar, OccursAt, QuoteAhead, Watching, Match, PastQuotes;
    var seen := IsIdChar(Last(tok));
    CountedStep(f, b, s, tok);
    StillFinds(f, b, s, seen, tok, noquote);
    var r := Find(f, b, s, seen, tok);
    if r != NONE {
      TokenEnd(b, r, tok);
      LeftBehind(b, r + |tok|);
      StillWatching(f, b, s, seen, tok, noquote);
      if noquote { QuoteStaysAhead(f.m, b, s, seen, tok); } else { NotAhead(b, r + |tok|, tok); }
    }
  }

  /** The counting loop.  It gives up where quotes are looked for and none is left; that does not happen. */
  method CountSites(a: array<char>, len: nat, f: Search, tok: string, once: bool, first: nat, noquote: bool)
    returns (rcount: nat, noquote': bool)
    requires tok != "" && len < a.Length
    requires first == Find(f, a[..len], 0, false, tok) != NONE
    requires noquote <==> f.noquote && First(f.m, a[..len], 0, false, tok).quote != NONE
    ensures rcount == |GrownSites(f, a[..len], tok, once)|
    ensures if once then noquote' == noquote else noquote' == CopySearch(f, a[..len], tok).noquote
  {
    hide Find, Counted, Watched, FirstOf, IsIdChar, LeftIn, OccursAt, Match, PastQuotes, GrownSites, CopySearch,
         Watching, WatchedFrom;
    ghost var b, seen := a[..len], IsIdChar(Last(tok));
    StartCounting(f, b, tok, once, noquote);
    rcount, noquote' := 1, noquote;
    var ic := if once then 0 else -2;
    var s := first + |tok|;
    while ic != 0
      invariant s <= len && (if once then ic == 0 else ic < 0)
      invariant Ahead(f, b, s, tok, noquote')
      invariant |GrownSites(f, b, tok, once)| == rcount + if once then 0 else |Counted(f, b, s, tok)|
      invariant if once then noquote' == noquote
                else CopySearch(f, b, tok).noquote <==> noquote' && WatchedFrom(f, b, s, tok)
      decreases len - s
    {
      CountRound(f, b, s, tok, noquote');
      var c := FindMatch(a, len, f.m, s, tok);
      if c == NONE { break; }
      if noquote' {
        var q := FirstOf(IsQuote, a[..len], s);
        if q == NONE {
          NoQuoteNoToken(b, s, c, tok);
          break;
        }
        c, noquote' := SkipQuotes(a, len, f.m, q, c, tok);
        if c == NONE { break; }
      }
      rcount := rcount + 1;
      ic := ic - 1;
      s := c + |tok|;
    }
  }

  // ----- copying

  /** memcpy(t, s, n) from the old buffer behind the finished text of the new one. */
  method CopyPiece(ns: array<char>, t: nat, data: string, ghost out: string)
    requires t == |out| && t + |data| <= ns.Length && ns[..t] == out
    modifies ns
    ensures ns[..t + |data|] == out + data
  {
    MemCpy(ns, t, data);
    assert ns[..][..t + |data|] == out + data;
  }

  lemma CutLast(cur: string, out: string, piece: string, c: char)
    requires cur == out + (piece + [c])
    ensures cur[..|out + piece|] == out + piece
  {
  }

  /** One round of the copying loop: the replacement, then the text up to the next site or to the end. */
  method CopyRound(a: array<char>, len: nat, ns: array<char>, m: Matcher, tok: string, rep: string, s: nat, t: nat, last: bool,
                   noquote: bool, ghost g: Search, ghost left: nat, ghost out: string, ghost total: string)
    returns (c: int, t': nat, noquote': bool, ghost out': string)
    requires tok != "" && len < a.Length && ns != a && |total| < ns.Length && g.m == m
    requires Due(g, a[..len], out, s, tok, rep, left, total) && last == (left == 0)
    requires t == |out| <= ns.Length && ns[..t] == out && s + |tok| <= len
    requires !last ==> Watching(g, a[..len], s + |tok|, noquote)
    modifies ns
    ensures last ==> ns[..|total|] == total
    ensures !last ==>
              && 0 <= c && c + |tok| <= len && Due(g, a[..len], out', c, tok, rep, left - 1, total)
              && t' == |out'| <= ns.Length && ns[..t'] == out' && Watching(g, a[..len], c + |tok|, noquote')
  {
    hide Find, Due, LeftIn, OccursAt, Watching, First, IsIdChar;
    ghost var b := a[..len];
    NextDue(g, b, out, s, tok, rep, left, total);
    var from := s + |tok|;
    CopyPiece(ns, t, rep, out);
    out', t' := out + rep, t + |rep|;
    c, noquote' := FindNext(a, len, m, from, tok, noquote);
    if !last {
      StillFinds(g, b, from, LeftIn(b, from), tok, noquote);
      StillWatching(g, b, from, LeftIn(b, from), tok, noquote);
      ArraySlice(a, len, from, c);
      CopyPiece(ns, t', a[from..c], out');
      out', t' := out' + b[from..c], t' + (c - from);
    } else {
      ArraySlice(a, len, from, len);
      CopyPiece(ns, t', a[from..len] + [a[len]], out');
      CutLast(ns[..t' + (len - from) + 1], out', b[from..], a[len]);
      assert ns[..|total|] == ns[..t' + (len - from) + 1][..|total|];
    }
  }

  method CopyWithRep(a: array<char>, len: nat, ns: array<char>, m: Matcher, tok: string, rep: string,
                     first: nat, rcount: nat, noquote: bool, ghost g: Search, ghost total: string)
    requires tok != "" && len < a.Length && ns != a && |total| < ns.Length && first + |tok| <= len && g.m == m
    requires 0 < rcount && Due(g, a[..len], a[..first], first, tok, rep, rcount - 1, total)
    requires rcount > 1 ==> Watching(g, a[..len], first + |tok|, noquote)
    modifies ns
    ensures ns[..|total|] == total
  {
    hide Find, Due, OccursAt, Watching;
    ghost var b, out := a[..len], a[..first];
    NextDue(g, b, out, first, tok, rep, rcount - 1, total);
    assert "" + a[..first] == out;
    CopyPiece(ns, 0, a[..first], "");
    var s: int, t: nat, noquote' := first, first, noquote;
    for i := 0 to rcount
      invariant a[..len] == b
      invariant i < rcount ==>
                  && 0 <= s && s + |tok| <= len && Due(g, b, out, s, tok, rep, rcount - i - 1, total)
                  && t == |out| <= ns.Length && ns[..t] == out
                  && (i < rcount - 1 ==> Watching(g, b, s + |tok|, noquote'))
      invariant i == rcount ==> ns[..|total|] == total
    {
      s, t, noquote', out := CopyRound(a, len, ns, m, tok, rep, s, t, i == rcount - 1, noquote', g, rcount - i - 1, out, total);
    }
  }

  lemma NoMoreThanOne(f: Search, b: string, tok: string, once: bool)
    requires tok != ""
    ensures once ==> |GrownSites(f, b, tok, once)| <= 1
    ensures CopySearch(f, b, tok).m == f.m
  {
    hide Find, First, Watched;
  }

  /** The growing path: a new buffer with room by doubling; the copying searches as the counting has left it. */
  method ReplaceGrowing(a: array<char>, len: nat, maxsize: nat, f: Search, tok: string, rep: string, once: bool,
                        first: int, noquote: bool)
    returns (ns: array<char>, rcount: nat)
    requires tok != "" && |tok| < |rep| && len < a.Length && 0 < maxsize
    requires first == Find(f, a[..len], 0, false, tok) != NONE
    requires noquote <==> f.noquote && First(f.m, a[..len], 0, false, tok).quote != NONE
    ensures fresh(ns) && maxsize <= ns.Length
    ensures rcount == |GrownSites(f, a[..len], tok, once)|
    ensures var total := GrownText(f, a[..len], tok, rep, once);
            |total| < ns.Length && ns[..|total|] == total && |total| == len + rcount * (|rep| - |tok|)
  {
    hide Find, GrownSites, GrownText, First, CopySearch, Due, Watching;
    ghost var b := a[..len];
    var noquote';
    rcount, noquote' := CountSites(a, len, f, tok, once, first, noquote);
    ghost var total := GrownText(f, b, tok, rep, once);
    GrownLength(f, b, tok, rep, once);
    var expand := (|rep| - |tok|) * rcount;
    var newsize := maxsize;
    while len + expand >= newsize
      invariant maxsize <= newsize
      decreases len + expand - newsize
    {
      newsize := newsize * 2;
    }
    ns := new char[newsize];
    FirstDue(f, b, tok, rep, once);
    assert b[..first] == a[..first];
    ghost var g := CopySearch(f, b, tok);
    NoMoreThanOne(f, b, tok, once);
    AtStart(g, b, first + |tok|);
    CopyWithRep(a, len, ns, f.m, tok, rep, first, rcount, noquote', g, total);
  }
}
