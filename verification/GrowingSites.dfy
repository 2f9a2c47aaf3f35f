/** A growing text is searched twice (Source/DOH/string.c, `replace_simple`): once to count the places, once to copy.
    Passing over the last quote of the text turns DOH_REPLACE_NOQUOTE off, and the counting leaves it off for the
    copying: which places are then replaced, and when they are the right ones.
 */
module GrowingSites {
  import opened Scan
  import opened Quotes
  import opened Substitution
  import opened QuotedSites

  /** Whether quotes are still looked for when all places from `from` on have been counted. */
  ghost predicate Watched(m: Matcher, b: string, from: nat, left: bool, tok: string, seen: bool)
    requires tok != "" && from <= |b|
    decreases |b| - from
  {
    var h := First(m, b, from, left, tok);
    h.at == NONE || (h.quote != NONE && Watched(m, b, h.at + |tok|, seen, tok, seen))
  }

  /** The search that copies: as the counting leaves it. */
  ghost function CopySearch(f: Search, b: string, tok: string): Search
    requires tok != ""
  {
    var h := First(f.m, b, 0, false, tok);
    var seen := IsIdChar(Last(tok));
    Search(f.m, f.noquote && h.at != NONE && h.quote != NONE && Watched(f.m, b, h.at + |tok|, seen, tok, seen))
  }

  // ----- the copying never runs out of places

  /** Once no quote is left, the token has none behind its first character. */
  lemma {:induction false} PastLast(m: Matcher, b: string, from: nat, c: int, tok: string)
    requires tok != "" && from <= |b| && MatchAt(b, c, tok) && (c == NONE || from <= c + 1)
    ensures var h := PastQuotes(m, b, FirstOf(IsQuote, b, from), c, tok);
            h.at != NONE && h.quote == NONE ==> FirstOf(IsQuote, b, h.at + |tok|) == NONE && Loose(tok)
    decreases |b| - from
  {
    hide Match, EndQuote, FirstOf, PastQuotes, OccursAt, IsQuote, Loose;
    var q := FirstOf(IsQuote, b, from);
    if c == NONE || q == NONE || c <= q {
      PastDone(m, b, q, c, tok);
      if c != NONE && q == NONE {
        FirstOfFrom(IsQuote, b, from, c + |tok|);
        LooseAt(b, from, c, tok);
      }
    } else {
      PastStep(m, b, q, c, tok);
      var e := EndQuote(b, q);
      if e != NONE {
        var c' := if e > c then Match(m, b, e + 1, false, tok) else c;
        if c' != NONE { PastLast(m, b, e + 1, c', tok); }
      }
    }
  }

  /** A token that begins at `from` or one before it, with no quotes from there on. */
  lemma LooseAt(b: string, from: nat, c: int, tok: string)
    requires tok != "" && OccursAt(tok, b, c) && c + 1 >= from && FirstOf(IsQuote, b, from) == NONE
    ensures Loose(tok)
  {
    hide FirstOf;
    forall o | 0 < o < |tok| ensures !IsQuote(tok[o]) {
      TokenChar(b, c, tok, o);
    }
  }

  /** Two occurrences cannot overlap at `x`. */
  ghost predicate NoCross(b: string, x: nat, tok: string) {
    forall j, i :: OccursAt(tok, b, j) && j < x && x <= i < j + |tok| ==> !OccursAt(tok, b, i)
  }

  lemma NoCrossBehind(b: string, e: nat, tok: string)
    requires Loose(tok) && QuoteAt(b, e)
    ensures NoCross(b, e + 1, tok)
  {
    hide OccursAt;
    forall j, i | OccursAt(tok, b, j) && j < e + 1 && e + 1 <= i < j + |tok| ensures !OccursAt(tok, b, i) {
      OccursFrom(b, j, tok);
      TokenChar(b, j, tok, e - j);
      if OccursAt(tok, b, i) {
        TokenChar(b, i, tok, 0);
        TokenChar(b, j, tok, i - j);
      }
    }
  }

  lemma OccursFrom(b: string, j: int, tok: string)
    requires OccursAt(tok, b, j)
    ensures 0 <= j && j + |tok| <= |b|
  {
  }

  lemma SameStart(m: Matcher, b: string, x: nat, y: nat, tok: string, seen: bool)
    requires tok != "" && x <= y <= |b| && forall i :: x <= i < y ==> !OccursAt(tok, b, i)
    ensures Plain(m, b, x, LeftIn(b, x), tok, seen) == Plain(m, b, y, LeftIn(b, y), tok, seen)
  {
    hide StrStr, Match, OccursAt, Plain, IsIdChar;
    MatchStep(m, b, x, LeftIn(b, x), tok);
    MatchStep(m, b, y, LeftIn(b, y), tok);
    assert StrStr(b, x, tok) == StrStr(b, y, tok);
    PlainStep(m, b, x, LeftIn(b, x), tok, seen);
    PlainStep(m, b, y, LeftIn(b, y), tok, seen);
  }

  /** Starting further on finds no more places. */
  lemma {:induction false} StartingLater(m: Matcher, b: string, from: nat, left: bool, x: nat, tok: string, seen: bool)
    requires tok != "" && from <= x <= |b| && Real(b, from, left, tok, seen) && NoCross(b, x, tok)
    ensures |Plain(m, b, from, left, tok, seen)| >= |Plain(m, b, x, LeftIn(b, x), tok, seen)|
    decreases |b| - from
  {
    hide StrStr, Match, OccursAt, Plain, IsIdChar, LeftIn;
    var i := StrStr(b, from, tok);
    if i == NONE || i >= x {
      SameStart(m, b, from, x, tok, seen);
    } else {
      var n := i + |tok|;
      TokenEnd(b, i, tok);
      LeftBehind(b, n);
      MatchStep(m, b, from, left, tok);
      PlainStep(m, b, from, left, tok, seen);
      PlainStep(m, b, n, seen, tok, seen);
      if n <= x {
        StartingLater(m, b, n, seen, x, tok, seen);
      } else {
        SameStart(m, b, x, n, tok, seen);
      }
    }
  }

  lemma LeftBehind(b: string, n: nat)
    requires 0 < n <= |b|
    ensures LeftIn(b, n) == IsIdChar(b[n - 1])
  {
  }

  /** The place found outside quotes has no more places behind it than the plain search still finds. */
  lemma {:induction false} PastEnough(m: Matcher, b: string, from: nat, n: nat, c: int, tok: string, seen: bool)
    requires tok != "" && Loose(tok) && from <= |b| && n <= |b| && seen == IsIdChar(Last(tok))
    requires c == Match(m, b, n, LeftIn(b, n), tok)
    ensures var h := PastQuotes(m, b, FirstOf(IsQuote, b, from), c, tok);
            h.at != NONE ==>
              |Plain(m, b, n, LeftIn(b, n), tok, seen)| >= 1 + |Plain(m, b, h.at + |tok|, seen, tok, seen)|
    decreases |b| - from
  {
    hide Match, EndQuote, FirstOf, PastQuotes, OccursAt, IsQuote, Loose, Plain, IsIdChar, LeftIn, NoCross;
    var q := FirstOf(IsQuote, b, from);
    if c == NONE || q == NONE || c <= q {
      PastDone(m, b, q, c, tok);
      PlainStep(m, b, n, LeftIn(b, n), tok, seen);
    } else {
      PastStep(m, b, q, c, tok);
      var e := EndQuote(b, q);
      if e > c {
        NoCrossBehind(b, e, tok);
        StartingLater(m, b, n, LeftIn(b, n), e + 1, tok, seen);
        LeftOfQuote(b, e);
        PastEnough(m, b, e + 1, e + 1, Match(m, b, e + 1, false, tok), tok, seen);
      } else if e != NONE {
        PastEnough(m, b, e + 1, n, c, tok, seen);
      }
    }
  }

  lemma LeftOfQuote(b: string, e: nat)
    requires QuoteAt(b, e)
    ensures !LeftIn(b, e + 1)
  {
  }

  lemma {:induction false} DroppedIsLoose(m: Matcher, b: string, from: nat, left: bool, tok: string, seen: bool)
    requires tok != "" && from <= |b| && !Watched(m, b, from, left, tok, seen)
    ensures Loose(tok)
    decreases |b| - from
  {
    hide Match, FirstOf, PastQuotes, Loose, OccursAt;
    var h := First(m, b, from, left, tok);
    PastLast(m, b, from, Match(m, b, from, left, tok), tok);
    if h.quote != NONE { DroppedIsLoose(m, b, h.at + |tok|, seen, tok, seen); }
  }

  /** When quotes are no longer looked for, the plain search finds at least as many places as were counted. */
  lemma {:induction false} Enough(m: Matcher, b: string, from: nat, left: bool, tok: string, seen: bool)
    requires tok != "" && from <= |b| && Real(b, from, left, tok, seen) && !Watched(m, b, from, left, tok, seen)
    ensures |Outside(m, b, from, left, tok, seen)| <= |Plain(m, b, from, left, tok, seen)|
    decreases |b| - from
  {
    hide Match, FirstOf, PastQuotes, Loose, OccursAt, Plain, Outside, IsIdChar;
    var h := First(m, b, from, left, tok);
    var n := h.at + |tok|;
    OutsideStep(m, b, from, left, tok, seen);
    DroppedIsLoose(m, b, from, left, tok, seen);
    PastLast(m, b, from, Match(m, b, from, left, tok), tok);
    PastEnough(m, b, from, from, Match(m, b, from, left, tok), tok, seen);
    TokenEnd(b, h.at, tok);
    if h.quote == NONE {
      NoQuotesLeft(m, b, n, seen, tok, seen);
    } else {
      Enough(m, b, n, seen, tok, seen);
    }
  }

  // ----- the places

  /** Behind the first place the copying takes as many as the counting found. */
  lemma CopyEnough(f: Search, b: string, tok: string)
    requires tok != "" && Find(f, b, 0, false, tok) != NONE
    ensures var n, seen := Find(f, b, 0, false, tok) + |tok|, IsIdChar(Last(tok));
            |Sites(f, b, n, seen, tok, seen, false)| <= |Sites(CopySearch(f, b, tok), b, n, seen, tok, seen, false)|
  {
    hide Match, FirstOf, PastQuotes, Sites, Watched, IsIdChar, OccursAt;
    var seen := IsIdChar(Last(tok));
    if f.noquote && !CopySearch(f, b, tok).noquote {
      var h := First(f.m, b, 0, false, tok);
      var n := h.at + |tok|;
      TokenEnd(b, h.at, tok);
      PastLast(f.m, b, 0, Match(f.m, b, 0, false, tok), tok);
      if h.quote == NONE {
        NoQuotesLeft(f.m, b, n, seen, tok, seen);
      } else {
        Enough(f.m, b, n, seen, tok, seen);
      }
    }
  }

  function Take(s: seq<nat>, n: nat): seq<nat> {
    if n <= |s| then s[..n] else s
  }

  /** The places behind the first one, as they are counted and as they are copied. */
  ghost function Counted(f: Search, b: string, n: nat, tok: string): seq<nat>
    requires tok != "" && n <= |b|
  {
    Sites(f, b, n, IsIdChar(Last(tok)), tok, IsIdChar(Last(tok)), false)
  }

  ghost function Copied(f: Search, b: string, n: nat, tok: string): seq<nat>
    requires tok != "" && n <= |b|
  {
    Take(Counted(CopySearch(f, b, tok), b, n, tok), |Counted(f, b, n, tok)|)
  }

  /** The places replaced when the text grows. */
  ghost function GrownSites(f: Search, b: string, tok: string, once: bool): seq<nat>
    requires tok != ""
  {
    var s := Find(f, b, 0, false, tok);
    if s == NONE then [] else if once then [s] else [s] + Copied(f, b, s + |tok|, tok)
  }

  /** The places of a search in the original text. */
  ghost function RightSites(f: Search, b: string, tok: string, once: bool): seq<nat>
    requires tok != ""
  {
    Sites(f, b, 0, false, tok, IsIdChar(Last(tok)), once)
  }

  lemma CopiedLength(f: Search, b: string, tok: string)
    requires tok != "" && Find(f, b, 0, false, tok) != NONE
    ensures var n := Find(f, b, 0, false, tok) + |tok|;
            |Copied(f, b, n, tok)| == |Counted(f, b, n, tok)| <= |Counted(CopySearch(f, b, tok), b, n, tok)|
  {
    hide Find, Sites, CopySearch, IsIdChar;
    CopyEnough(f, b, tok);
  }

  /** Right places are copied: all of them when quotes are still looked for, when only one place is replaced, and
      when the search does not ask for it. */
  lemma GrownIsRight(f: Search, b: string, tok: string, once: bool)
    requires tok != "" && (once || !f.noquote || CopySearch(f, b, tok).noquote)
    ensures GrownSites(f, b, tok, once) == RightSites(f, b, tok, once)
  {
    hide Find, Sites, CopySearch, IsIdChar;
    var seen := IsIdChar(Last(tok));
    SitesStep(f, b, 0, false, tok, seen, once);
    if Find(f, b, 0, false, tok) != NONE && !once {
      SameSearch(f, b, tok);
      CopiedLength(f, b, tok);
    }
  }

  lemma SameSearch(f: Search, b: string, tok: string)
    requires tok != ""
    ensures f.noquote == CopySearch(f, b, tok).noquote || !f.noquote ==> CopySearch(f, b, tok) == f
  {
    hide First, Watched;
  }

  /** If the places copied are those counted although quotes are no longer looked for, the plain search finds no
      others. */
  lemma {:induction false} DroppedTail(m: Matcher, b: string, from: nat, left: bool, tok: string, seen: bool)
    requires tok != "" && from <= |b| && !Watched(m, b, from, left, tok, seen)
    requires Outside(m, b, from, left, tok, seen) == Take(Plain(m, b, from, left, tok, seen), |Outside(m, b, from, left, tok, seen)|)
    ensures Outside(m, b, from, left, tok, seen) == Plain(m, b, from, left, tok, seen)
    decreases |b| - from
  {
    hide Match, FirstOf, PastQuotes, Loose, OccursAt, Plain, Outside, IsIdChar;
    var h := First(m, b, from, left, tok);
    var n := h.at + |tok|;
    OutsideStep(m, b, from, left, tok, seen);
    PlainStep(m, b, from, left, tok, seen);
    PastLast(m, b, from, Match(m, b, from, left, tok), tok);
    var o, p := Outside(m, b, from, left, tok, seen), Plain(m, b, from, left, tok, seen);
    assert o[0] == h.at == p[0];
    if h.quote == NONE {
      NoQuotesLeft(m, b, n, seen, tok, seen);
    } else {
      var o', p' := Outside(m, b, n, seen, tok, seen), Plain(m, b, n, seen, tok, seen);
      assert o' == o[1..] && p' == p[1..];
      assert o' == Take(p', |o'|);
      DroppedTail(m, b, n, seen, tok, seen);
    }
  }

  /** The growing path replaces the right places exactly when quotes are still looked for at the end of the counting,
      or no place behind the first one stands in quotes. */
  lemma GrowingExactly(m: Matcher, b: string, tok: string)
    requires tok != ""
    ensures var f := Search(m, true);
            var s := Find(f, b, 0, false, tok);
            GrownSites(f, b, tok, false) == RightSites(f, b, tok, false) <==>
              s == NONE || CopySearch(f, b, tok) == f ||
              Counted(f, b, s + |tok|, tok) == Counted(Search(m, false), b, s + |tok|, tok)
  {
    hide Find, Sites, CopySearch, IsIdChar, Copied;
    var f, seen := Search(m, true), IsIdChar(Last(tok));
    var s := Find(f, b, 0, false, tok);
    SitesStep(f, b, 0, false, tok, seen, false);
    if s != NONE && CopySearch(f, b, tok) != f {
      CopiedExactly(m, b, tok);
      var counted := Counted(f, b, s + |tok|, tok);
      assert GrownSites(f, b, tok, false) == [s] + Copied(f, b, s + |tok|, tok);
      assert ([s] + counted)[1..] == counted && ([s] + Copied(f, b, s + |tok|, tok))[1..] == Copied(f, b, s + |tok|, tok);
    } else if s != NONE {
      GrownIsRight(f, b, tok, false);
    }
  }

  lemma CopiedExactly(m: Matcher, b: string, tok: string)
    requires tok != "" && Find(Search(m, true), b, 0, false, tok) != NONE && CopySearch(Search(m, true), b, tok) != Search(m, true)
    ensures var f := Search(m, true);
            var n := Find(f, b, 0, false, tok) + |tok|;
            Copied(f, b, n, tok) == Counted(f, b, n, tok) <==> Counted(f, b, n, tok) == Counted(Search(m, false), b, n, tok)
  {
    hide Match, FirstOf, PastQuotes, Sites, Watched, IsIdChar, OccursAt;
    var f, seen := Search(m, true), IsIdChar(Last(tok));
    var h, n := First(m, b, 0, false, tok), Find(f, b, 0, false, tok) + |tok|;
    CopiedLength(f, b, tok);
    PastLast(m, b, 0, Match(m, b, 0, false, tok), tok);
    var counted, plain := Counted(f, b, n, tok), Counted(Search(m, false), b, n, tok);
    assert Copied(f, b, n, tok) == Take(plain, |counted|);
    if h.quote == NONE {
      NoQuotesLeft(m, b, n, seen, tok, seen);
    } else if counted == Take(plain, |counted|) {
      DroppedTail(m, b, n, seen, tok, seen);
    }
  }

  // ----- tokens without quotes

  /** The end of the last place, or where the search begins. */
  function EndOfSites(sites: seq<nat>, from: nat, k: nat): nat {
    if sites == [] then from else sites[|sites| - 1] + k
  }

  lemma {:induction false} WatchedMeans(m: Matcher, b: string, from: nat, left: bool, tok: string, seen: bool)
    requires tok != "" && QuoteFree(tok) && from <= |b| && FirstOf(IsQuote, b, from) != NONE
    ensures var last := EndOfSites(Outside(m, b, from, left, tok, seen), from, |tok|);
            Watched(m, b, from, left, tok, seen) <==> FirstOf(IsQuote, b, last) != NONE
    decreases |b| - from
  {
    hide Match, FirstOf, PastQuotes, QuoteFree, OccursAt, Outside, IsIdChar, Clear;
    var h := First(m, b, from, left, tok);
    OutsideStep(m, b, from, left, tok, seen);
    PastOutside(m, b, from, Match(m, b, from, left, tok), tok);
    if h.at != NONE {
      var n := h.at + |tok|;
      var rest := Outside(m, b, n, seen, tok, seen);
      assert EndOfSites([h.at] + rest, from, |tok|) == EndOfSites(rest, n, |tok|);
      if h.quote == NONE {
        SitesBehind(m, b, n, seen, tok, seen);
        FirstOfFrom(IsQuote, b, n, EndOfSites(rest, n, |tok|));
      } else {
        WatchedMeans(m, b, n, seen, tok, seen);
      }
    }
  }

  /** For a token without quotes: the growing path replaces the right places exactly when a quote stands behind the
      last of them, or no match behind the first of them stands in quotes. */
  lemma GrowingOutsideQuotes(m: Matcher, b: string, tok: string)
    requires tok != "" && QuoteFree(tok)
    ensures var f := Search(m, true);
            var sites := RightSites(f, b, tok, false);
            GrownSites(f, b, tok, false) == sites <==>
              sites == [] || FirstOf(IsQuote, b, sites[|sites| - 1] + |tok|) != NONE ||
              sites == [sites[0]] + Counted(Search(m, false), b, sites[0] + |tok|, tok)
  {
    hide Match, FirstOf, PastQuotes, Sites, Watched, IsIdChar, OccursAt, QuoteFree, Clear;
    var f, seen := Search(m, true), IsIdChar(Last(tok));
    var s := Find(f, b, 0, false, tok);
    SitesStep(f, b, 0, false, tok, seen, false);
    GrowingExactly(m, b, tok);
    if s != NONE {
      var h, n := First(m, b, 0, false, tok), s + |tok|;
      var counted, plain := Counted(f, b, n, tok), Counted(Search(m, false), b, n, tok);
      var sites := RightSites(f, b, tok, false);
      assert sites == [s] + counted && sites[1..] == counted;
      assert ([s] + plain)[1..] == plain;
      assert sites[|sites| - 1] + |tok| == EndOfSites(counted, n, |tok|);
      PastOutside(m, b, 0, Match(m, b, 0, false, tok), tok);
      if h.quote == NONE {
        NoQuotesLeft(m, b, n, seen, tok, seen);
      } else {
        WatchedMeans(m, b, n, seen, tok, seen);
      }
    }
  }
}
