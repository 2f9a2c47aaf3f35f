/** Replacing outside quotes (DOH_REPLACE_NOQUOTE in Source/DOH/string.c): what the places found mean, and what becomes
    of them when the text grows and is searched twice.
 */
module QuotedSites {
  import opened Scan
  import opened Quotes
  import opened Substitution

  predicate QuoteFree(tok: string) {
    forall o :: 0 <= o < |tok| ==> !IsQuote(tok[o])
  }

  /** No quote behind the first character. */
  predicate Loose(tok: string) {
    forall o :: 0 < o < |tok| ==> !IsQuote(tok[o])
  }

  /** The character before `s`, as the matchers test it. */
  predicate LeftIn(b: string, s: int)
    requires s <= |b|
  {
    0 < s && IsIdChar(b[s - 1])
  }

  /** Behind a site the text itself has the last character of the token. */
  predicate Real(b: string, from: nat, left: bool, tok: string, seen: bool)
    requires tok != "" && from <= |b|
  {
    left == LeftIn(b, from) && seen == IsIdChar(Last(tok))
  }

  function Plain(m: Matcher, b: string, from: nat, left: bool, tok: string, seen: bool): seq<nat>
    requires tok != "" && from <= |b|
  {
    Sites(Search(m, false), b, from, left, tok, seen, false)
  }

  function Outside(m: Matcher, b: string, from: nat, left: bool, tok: string, seen: bool): seq<nat>
    requires tok != "" && from <= |b|
  {
    Sites(Search(m, true), b, from, left, tok, seen, false)
  }

  function First(m: Matcher, b: string, from: nat, left: bool, tok: string): (h: Hit)
    requires tok != "" && from <= |b|
    ensures h.at == Find(Search(m, true), b, from, left, tok)
    ensures h.quote == NONE || QuoteAt(b, h.quote)
  {
    PastQuotes(m, b, FirstOf(IsQuote, b, from), Match(m, b, from, left, tok), tok)
  }

  lemma PlainStep(m: Matcher, b: string, from: nat, left: bool, tok: string, seen: bool)
    requires tok != "" && from <= |b|
    ensures var i := Match(m, b, from, left, tok);
            Plain(m, b, from, left, tok, seen) == if i == NONE then [] else [i] + Plain(m, b, i + |tok|, seen, tok, seen)
  {
    hide Match, Sites, PastQuotes;
    SitesStep(Search(m, false), b, from, left, tok, seen, false);
  }

  lemma OutsideStep(m: Matcher, b: string, from: nat, left: bool, tok: string, seen: bool)
    requires tok != "" && from <= |b|
    ensures var i := First(m, b, from, left, tok).at;
            Outside(m, b, from, left, tok, seen) == if i == NONE then [] else [i] + Outside(m, b, i + |tok|, seen, tok, seen)
  {
    hide First, Find, Sites;
    SitesStep(Search(m, true), b, from, left, tok, seen, false);
  }

  lemma TokenChar(b: string, i: nat, tok: string, o: nat)
    requires OccursAt(tok, b, i) && o < |tok|
    ensures b[i + o] == tok[o]
  {
    assert b[i..i + |tok|][o] == tok[o];
  }

  // ----- texts without further quotes

  lemma {:induction false} NoQuotesLeft(m: Matcher, b: string, from: nat, left: bool, tok: string, seen: bool)
    requires tok != "" && from <= |b| && FirstOf(IsQuote, b, from) == NONE
    ensures First(m, b, from, left, tok) == Hit(Match(m, b, from, left, tok), NONE)
    ensures Outside(m, b, from, left, tok, seen) == Plain(m, b, from, left, tok, seen)
    decreases |b| - from
  {
    hide Match, FirstOf, PastQuotes, Plain, Outside;
    var i := Match(m, b, from, left, tok);
    PastDone(m, b, NONE, i, tok);
    PlainStep(m, b, from, left, tok, seen);
    OutsideStep(m, b, from, left, tok, seen);
    if i != NONE {
      FirstOfFrom(IsQuote, b, from, i + |tok|);
      NoQuotesLeft(m, b, i + |tok|, seen, tok, seen);
    }
  }

  // ----- outside quotes means outside quotes

  /** The token at `at` stands outside quotes, and behind it the text reads as if it began there. */
  ghost predicate Clear(b: string, from: nat, at: nat, tok: string)
    requires from <= |b| && at + |tok| <= |b|
  {
    && (forall i :: at <= i < at + |tok| ==> !InQuotes(b, from, i))
    && (forall i :: at + |tok| <= i ==> (InQuotes(b, from, i) <==> InQuotes(b, at + |tok|, i)))
  }

  lemma NotAtQuote(b: string, c: nat, tok: string, e: int)
    requires tok != "" && QuoteFree(tok) && OccursAt(tok, b, c) && QuoteAt(b, e)
    ensures e != c
  {
    TokenChar(b, c, tok, 0);
  }

  lemma ClearHere(b: string, from: nat, c: nat, tok: string)
    requires tok != "" && QuoteFree(tok) && from <= c && c + |tok| <= |b| && OccursAt(tok, b, c)
    requires FirstOf(IsQuote, b, from) == NONE || c <= FirstOf(IsQuote, b, from)
    ensures FirstOf(IsQuote, b, c + |tok|) == FirstOf(IsQuote, b, from) && Clear(b, from, c, tok)
  {
    hide FirstOf, OccursAt, EndQuote;
    forall k | from <= k < c + |tok| ensures !IsQuote(b[k]) {
      if k >= c { TokenChar(b, c, tok, k - c); }
    }
    FirstOfFrom(IsQuote, b, from, c + |tok|);
    forall i: nat ensures InQuotes(b, from, i) <==> InQuotes(b, c + |tok|, i) {
      InQuotesFrom(b, from, c + |tok|, i);
    }
  }

  /** Behind the end of a quote the text reads as if it began there. */
  lemma BehindRun(b: string, from: nat, e: nat)
    requires from <= |b| && QuoteAt(b, FirstOf(IsQuote, b, from)) && EndQuote(b, FirstOf(IsQuote, b, from)) == e
    ensures forall i :: i > e ==> (InQuotes(b, from, i) <==> InQuotes(b, e + 1, i))
    ensures forall i :: FirstOf(IsQuote, b, from) <= i <= e ==> InQuotes(b, from, i)
  {
    hide FirstOf, EndQuote;
  }

  lemma ClearBehind(b: string, from: nat, e: nat, at: nat, tok: string)
    requires from <= |b| && e + 1 <= |b| && e < at && at + |tok| <= |b| && Clear(b, e + 1, at, tok)
    requires forall i :: i > e ==> (InQuotes(b, from, i) <==> InQuotes(b, e + 1, i))
    ensures Clear(b, from, at, tok)
  {
    hide InQuotes;
  }

  /** What is found stands outside quotes. */
  lemma {:induction false} PastOutside(m: Matcher, b: string, from: nat, c: int, tok: string)
    requires tok != "" && QuoteFree(tok) && from <= |b| && MatchAt(b, c, tok) && (c == NONE || from <= c)
    ensures var h := PastQuotes(m, b, FirstOf(IsQuote, b, from), c, tok);
            h.at != NONE ==> h.quote == FirstOf(IsQuote, b, h.at + |tok|) && Clear(b, from, h.at, tok)
    decreases |b| - from
  {
    hide Match, EndQuote, FirstOf, PastQuotes, OccursAt, QuoteFree, Clear, InQuotes, IsQuote;
    var q := FirstOf(IsQuote, b, from);
    if c == NONE || q == NONE || c <= q {
      PastDone(m, b, q, c, tok);
      if c != NONE { ClearHere(b, from, c, tok); }
    } else {
      PastStep(m, b, q, c, tok);
      var e := EndQuote(b, q);
      if e != NONE {
        NotAtQuote(b, c, tok, e);
        BehindRun(b, from, e);
        var c' := if e > c then Match(m, b, e + 1, false, tok) else c;
        if c' != NONE {
          PastOutside(m, b, e + 1, c', tok);
          var h := PastQuotes(m, b, FirstOf(IsQuote, b, e + 1), c', tok);
          if h.at != NONE { ClearBehind(b, from, e, h.at, tok); }
        }
      }
    }
  }

  /** A place substituted is outside quotes, all of it. */
  ghost predicate Apart(b: string, from: nat, sites: seq<nat>, tok: string)
    requires from <= |b|
  {
    forall j, i :: 0 <= j < |sites| && sites[j] <= i < sites[j] + |tok| ==> !InQuotes(b, from, i)
  }

  lemma {:induction false} SitesOutside(m: Matcher, b: string, from: nat, left: bool, tok: string, seen: bool)
    requires tok != "" && QuoteFree(tok) && from <= |b|
    ensures Apart(b, from, Outside(m, b, from, left, tok, seen), tok)
    decreases |b| - from
  {
    hide Match, PastQuotes, OccursAt, QuoteFree, InQuotes, FirstOf, Outside, Find;
    OutsideStep(m, b, from, left, tok, seen);
    PastOutside(m, b, from, Match(m, b, from, left, tok), tok);
    var h := First(m, b, from, left, tok);
    if h.at != NONE {
      var rest := Outside(m, b, h.at + |tok|, seen, tok, seen);
      SitesOutside(m, b, h.at + |tok|, seen, tok, seen);
      SitesBehind(m, b, h.at + |tok|, seen, tok, seen);
      forall j, i | 0 <= j < |rest| && rest[j] <= i < rest[j] + |tok| ensures !InQuotes(b, from, i) {
      }
    }
  }

  lemma SitesBehind(m: Matcher, b: string, from: nat, left: bool, tok: string, seen: bool)
    requires tok != "" && from <= |b|
    ensures forall j :: 0 <= j < |Outside(m, b, from, left, tok, seen)| ==>
              from <= Outside(m, b, from, left, tok, seen)[j]
  {
    var sites := Outside(m, b, from, left, tok, seen);
    SitesAreSpaced(Search(m, true), b, from, left, tok, seen, false);
    SpacedFrom(sites, from, b, |tok|);
  }

  lemma {:induction false} SpacedFrom(sites: seq<nat>, from: nat, b: string, k: nat)
    requires Spaced(sites, from, b, k)
    ensures forall j :: 0 <= j < |sites| ==> from <= sites[j] && sites[j] + k <= |b|
    decreases |sites|
  {
    if sites != [] {
      SpacedFrom(sites[1..], sites[0] + k, b, k);
      assert forall j :: 0 < j < |sites| ==> sites[j] == sites[1..][j - 1];
    }
  }

  /** DOH_REPLACE_NOQUOTE keeps quotes untouched in every text exactly when the token has none of its own. */
  lemma QuotesAreKept(m: Matcher, tok: string, seen: bool)
    requires tok != ""
    ensures QuoteFree(tok) <==> forall b :: Apart(b, 0, Outside(m, b, 0, false, tok, seen), tok)
  {
    hide Match, PastQuotes, QuoteFree, Apart, FirstOf, Outside;
    if QuoteFree(tok) {
      forall b ensures Apart(b, 0, Outside(m, b, 0, false, tok, seen), tok) {
        SitesOutside(m, b, 0, false, tok, seen);
      }
    } else {
      TokenTouchesQuotes(m, tok, seen);
    }
  }

  lemma TokenTouchesQuotes(m: Matcher, tok: string, seen: bool)
    requires tok != "" && !QuoteFree(tok)
    ensures !Apart(tok, 0, Outside(m, tok, 0, false, tok, seen), tok)
  {
    hide Outside, EndQuote, FirstOf;
    assert OccursAt(tok, tok, 0);
    assert Match(m, tok, 0, false, tok) == 0;
    PastDone(m, tok, FirstOf(IsQuote, tok, 0), 0, tok);
    OutsideStep(m, tok, 0, false, tok, seen);
    var q := FirstOf(IsQuote, tok, 0);
    assert q != NONE by {
      var o :| 0 <= o < |tok| && IsQuote(tok[o]);
    }
    assert InQuotes(tok, 0, q);
    assert Outside(m, tok, 0, false, tok, seen)[0] == 0;
  }

  // ----- nothing outside quotes is missed

  /** An occurrence that the matcher turns down for its neighbours. */
  ghost predicate TurnedDown(m: Matcher, b: string, j: int, tok: string) {
    OccursAt(tok, b, j) && Rejected(m, b, j, LeftIn(b, j), tok)
  }

  ghost predicate Overlapped(m: Matcher, b: string, i: int, tok: string) {
    exists j :: j <= i < j + |tok| && TurnedDown(m, b, j, tok)
  }

  /** Every occurrence from `from` up to `c` overlaps one that was turned down. */
  ghost predicate Swept(m: Matcher, b: string, from: nat, c: int, tok: string) {
    forall i :: from <= i && (c == NONE || i < c) && OccursAt(tok, b, i) ==> Overlapped(m, b, i, tok)
  }

  lemma {:induction false} MatchSweeps(m: Matcher, b: string, from: nat, left: bool, tok: string)
    requires tok != "" && from <= |b| && left == LeftIn(b, from)
    ensures Swept(m, b, from, Match(m, b, from, left, tok), tok)
    decreases |b| - from
  {
    hide StrStr, Match, OccursAt, IsIdChar;
    MatchStep(m, b, from, left, tok);
    var i := StrStr(b, from, tok);
    if i != NONE && Rejected(m, b, i, LeftOf(b, i, from, left), tok) {
      assert LeftOf(b, i, from, left) == LeftIn(b, i);
      TokenEnd(b, i, tok);
      MatchSweeps(m, b, i + |tok|, IsIdChar(Last(tok)), tok);
      var c := Match(m, b, from, left, tok);
      assert TurnedDown(m, b, i, tok);
      forall x | from <= x && (c == NONE || x < c) && OccursAt(tok, b, x) ensures Overlapped(m, b, x, tok) {
      }
    }
  }

  /** Outside quotes, every occurrence up to `c` overlaps one that was turned down. */
  ghost predicate SweptOutside(m: Matcher, b: string, from: nat, c: int, tok: string)
    requires from <= |b|
  {
    forall i :: from <= i && (c == NONE || i < c) && OccursAt(tok, b, i) && !InQuotes(b, from, i) ==> Overlapped(m, b, i, tok)
  }

  lemma {:induction false} PastSweeps(m: Matcher, b: string, from: nat, c: int, tok: string)
    requires tok != "" && QuoteFree(tok) && from <= |b| && MatchAt(b, c, tok) && (c == NONE || from <= c)
    requires Swept(m, b, from, c, tok)
    ensures SweptOutside(m, b, from, PastQuotes(m, b, FirstOf(IsQuote, b, from), c, tok).at, tok)
    decreases |b| - from
  {
    hide Match, EndQuote, FirstOf, PastQuotes, OccursAt, QuoteFree, InQuotes, Overlapped;
    var q := FirstOf(IsQuote, b, from);
    if c == NONE || q == NONE || c <= q {
      PastDone(m, b, q, c, tok);
    } else {
      PastStep(m, b, q, c, tok);
      var e := EndQuote(b, q);
      if e == NONE {
        InOpenQuote(b, from);
      } else {
        NotAtQuote(b, c, tok, e);
        BehindRun(b, from, e);
        var c' := if e > c then Match(m, b, e + 1, false, tok) else c;
        if e > c { MatchSweeps(m, b, e + 1, false, tok); }
        if c' != NONE { PastSweeps(m, b, e + 1, c', tok); }
      }
    }
  }

  lemma InOpenQuote(b: string, from: nat)
    requires from <= |b| && QuoteAt(b, FirstOf(IsQuote, b, from)) && EndQuote(b, FirstOf(IsQuote, b, from)) == NONE
    ensures forall i :: FirstOf(IsQuote, b, from) <= i ==> InQuotes(b, from, i)
  {
    hide FirstOf, EndQuote;
  }

  /** Every occurrence that stands outside quotes overlaps a place substituted, or an occurrence turned down. */
  lemma {:induction false} OutsideMissesNothing(m: Matcher, b: string, from: nat, left: bool, tok: string, seen: bool, i: nat)
    requires tok != "" && QuoteFree(tok) && from <= i && i <= |b| && Real(b, from, left, tok, seen)
    requires OccursAt(tok, b, i) && !InQuotes(b, from, i)
    ensures Overlapped(m, b, i, tok) ||
            exists j :: j in Outside(m, b, from, left, tok, seen) && j <= i < j + |tok|
    decreases |b| - from
  {
    hide Match, PastQuotes, OccursAt, QuoteFree, InQuotes, FirstOf, Outside, Find, Overlapped, IsIdChar;
    OutsideStep(m, b, from, left, tok, seen);
    var c := Match(m, b, from, left, tok);
    MatchSweeps(m, b, from, left, tok);
    PastSweeps(m, b, from, c, tok);
    PastOutside(m, b, from, c, tok);
    var h := First(m, b, from, left, tok);
    var sites := Outside(m, b, from, left, tok, seen);
    if h.at != NONE && h.at <= i {
      assert sites[0] == h.at && h.at in sites;
      if h.at + |tok| <= i {
        TokenEnd(b, h.at, tok);
        OutsideMissesNothing(m, b, h.at + |tok|, seen, tok, seen, i);
        var rest := Outside(m, b, h.at + |tok|, seen, tok, seen);
        assert sites == [h.at] + rest;
        if !Overlapped(m, b, i, tok) {
          var j :| j in rest && j <= i < j + |tok|;
          assert j in sites;
        }
      } else {
        var j := h.at;
        assert j in sites && j <= i < j + |tok|;
      }
    }
  }
}
