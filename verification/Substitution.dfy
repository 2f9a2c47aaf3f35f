/** What `Replace` means, on plain character strings (Source/DOH/string.c, the four matchers and
    `replace_simple`).

    A matcher picks the next place to substitute, and DOH_REPLACE_NOQUOTE passes over quotes; the places picked are
    the `Sites`; `Weave` puts the replacement at the sites and keeps everything else.
 */
module Substitution {
  import opened Scan
  import opened Quotes

  datatype Matcher = Simple | Identifier | IdBegin | IdEnd {
    predicate LooksLeft() { Identifier? || IdBegin? }
    predicate LooksRight() { Identifier? || IdEnd? }
  }

  predicate IsIdChar(c: char) {
    'a' <= c <= 'z' || 'A' <= c <= 'Z' || '0' <= c <= '9' || c == '_'
  }

  function Last(s: string): char
    requires s != ""
  {
    s[|s| - 1]
  }

  predicate OccursAt(tok: string, b: string, i: int) {
    0 <= i && i + |tok| <= |b| && b[i..i + |tok|] == tok
  }

  /** `strstr`: the least occurrence at or behind `from`. */
  function StrStr(b: string, from: nat, tok: string): (r: int)
    requires from <= |b|
    ensures r == NONE || (from <= r && r + |tok| <= |b| && OccursAt(tok, b, r))
    ensures forall i :: from <= i && (r == NONE || i < r) ==> !OccursAt(tok, b, i)
    decreases |b| - from
  {
    if OccursAt(tok, b, from) then from
    else if from == |b| then NONE
    else StrStr(b, from + 1, tok)
  }

  /** A candidate at `i` is turned down when a neighbour the matcher looks at is an identifier character.
      `left` tells whether the character before the candidate is one. */
  predicate Rejected(m: Matcher, b: string, i: nat, left: bool, tok: string) {
    || (m.LooksLeft() && left)
    || (m.LooksRight() && i + |tok| < |b| && IsIdChar(b[i + |tok|]))
  }

  /** `left` tells whether the character seen before `from` is an identifier character. */
  function LeftOf(b: string, i: nat, from: nat, left: bool): bool
    requires from <= i <= |b|
  {
    if i == from then left else IsIdChar(b[i - 1])
  }

  /** The matchers: a candidate that is turned down is skipped whole. */
  function Match(m: Matcher, b: string, from: nat, left: bool, tok: string): (r: int)
    requires tok != "" && from <= |b|
    ensures r == NONE || (from <= r && r + |tok| <= |b| && OccursAt(tok, b, r))
    decreases |b| - from
  {
    var i := StrStr(b, from, tok);
    if i == NONE then NONE
    else if Rejected(m, b, i, LeftOf(b, i, from, left), tok) then
      Match(m, b, i + |tok|, IsIdChar(Last(tok)), tok)
    else i
  }

  /** A match, and the next quote as the search for it leaves it. */
  datatype Hit = Hit(at: int, quote: int)

  ghost predicate MatchAt(b: string, c: int, tok: string) {
    c == NONE || (c + |tok| <= |b| && OccursAt(tok, b, c))
  }

  /** The quotes in front of the match `c` are passed over, from the one at `q` on.  A match inside a quote is given up
      for the next one behind the quote; without an end of the quote there is none. */
  function PastQuotes(m: Matcher, b: string, q: int, c: int, tok: string): (h: Hit)
    requires tok != "" && (q == NONE || QuoteAt(b, q)) && MatchAt(b, c, tok)
    ensures MatchAt(b, h.at, tok) && (h.at != NONE ==> c != NONE && c <= h.at)
    ensures h.quote == NONE || QuoteAt(b, h.quote)
    decreases if q == NONE then 0 else |b| - q
  {
    if c == NONE || q == NONE || c <= q then Hit(c, q)
    else
      var e := EndQuote(b, q);
      if e == NONE then Hit(NONE, q)
      else
        var c' := if e > c then Match(m, b, e + 1, false, tok) else c;
        if c' == NONE then Hit(NONE, q) else PastQuotes(m, b, FirstOf(IsQuote, b, e + 1), c', tok)
  }

  /** A matcher, and whether DOH_REPLACE_NOQUOTE is given. */
  datatype Search = Search(m: Matcher, noquote: bool)

  function Find(f: Search, b: string, from: nat, left: bool, tok: string): (r: int)
    requires tok != "" && from <= |b|
    ensures r == NONE || (from <= r && r + |tok| <= |b| && OccursAt(tok, b, r))
  {
    var c := Match(f.m, b, from, left, tok);
    if f.noquote then PastQuotes(f.m, b, FirstOf(IsQuote, b, from), c, tok).at else c
  }

  /** The places substituted, in order.  `seen` tells whether the character standing before the rest of the text
      after a substitution is an identifier character. */
  function Sites(f: Search, b: string, from: nat, left: bool, tok: string, seen: bool, once: bool): seq<nat>
    requires tok != "" && from <= |b|
    decreases |b| - from
  {
    var i := Find(f, b, from, left, tok);
    if i == NONE then []
    else if once then [i]
    else [i] + Sites(f, b, i + |tok|, seen, tok, seen, once)
  }

  ghost predicate Spaced(sites: seq<nat>, from: nat, b: string, k: nat) {
    if sites == [] then from <= |b|
    else from <= sites[0] && sites[0] + k <= |b| && Spaced(sites[1..], sites[0] + k, b, k)
  }

  lemma {:induction false} SitesAreSpaced(f: Search, b: string, from: nat, left: bool, tok: string, seen: bool, once: bool)
    requires tok != "" && from <= |b|
    ensures Spaced(Sites(f, b, from, left, tok, seen, once), from, b, |tok|)
    decreases |b| - from
  {
    hide Find;
    var i := Find(f, b, from, left, tok);
    if i != NONE && !once {
      SitesAreSpaced(f, b, i + |tok|, seen, tok, seen, once);
      assert ([i] + Sites(f, b, i + |tok|, seen, tok, seen, once))[1..] == Sites(f, b, i + |tok|, seen, tok, seen, once);
    }
  }

  function Weave(b: string, from: nat, sites: seq<nat>, k: nat, rep: string): string
    requires Spaced(sites, from, b, k)
    decreases |sites|
  {
    if sites == [] then b[from..]
    else b[from..sites[0]] + rep + Weave(b, sites[0] + k, sites[1..], k, rep)
  }

  lemma {:induction false} WeaveLength(b: string, from: nat, sites: seq<nat>, k: nat, rep: string)
    requires Spaced(sites, from, b, k)
    ensures |Weave(b, from, sites, k, rep)| == |b| - from + |sites| * (|rep| - k)
    decreases |sites|
  {
    if sites != [] {
      WeaveLength(b, sites[0] + k, sites[1..], k, rep);
      var d := |rep| - k;
      assert |sites| * d == (|sites| - 1) * d + d;
    }
  }

  /** The plain substitution: the character before the rest of the text is the last one of the token. */
  function Substituted(f: Search, b: string, tok: string, rep: string, once: bool): string
    requires tok != ""
  {
    SubstitutedSeeing(f, b, tok, rep, IsIdChar(Last(tok)), once)
  }

  function SubstitutedSeeing(f: Search, b: string, tok: string, rep: string, seen: bool, once: bool): string
    requires tok != ""
  {
    SitesAreSpaced(f, b, 0, false, tok, seen, once);
    Weave(b, 0, Sites(f, b, 0, false, tok, seen, once), |tok|, rep)
  }

  /** What `replace_simple` sees before the rest of the text: when token and replacement are equally long the
      replacement has already been written there. */
  function SeenByCode(tok: string, rep: string): bool
    requires tok != ""
  {
    IsIdChar(Last(if |rep| == |tok| then rep else tok))
  }

  // ----- what the sites are

  /** An occurrence whose neighbours the matcher accepts; the left one is looked up in the text unless the place
      is `from` itself. */
  ghost predicate LetThrough(m: Matcher, b: string, i: nat, from: nat, tok: string) {
    && OccursAt(tok, b, i)
    && !(m.LooksRight() && i + |tok| < |b| && IsIdChar(b[i + |tok|]))
    && !(m.LooksLeft() && from < i && IsIdChar(b[i - 1]))
  }

  /** Every site is an accepted occurrence, behind the end of the one before it. */
  lemma {:induction false} SitesMeaning(f: Search, b: string, from: nat, left: bool, tok: string, seen: bool, once: bool, j: nat)
    requires tok != "" && from <= |b| && j < |Sites(f, b, from, left, tok, seen, once)|
    ensures var sites := Sites(f, b, from, left, tok, seen, once);
            var start := if j == 0 then from else sites[j - 1] + |tok|;
            start <= sites[j] && LetThrough(f.m, b, sites[j], start, tok)
    decreases |b| - from
  {
    hide Find, Sites;
    var i := Find(f, b, from, left, tok);
    SitesStep(f, b, from, left, tok, seen, once);
    FindMeaning(f, b, from, left, tok);
    if j > 0 {
      SitesMeaning(f, b, i + |tok|, seen, tok, seen, once, j - 1);
    }
  }

  lemma PastStep(m: Matcher, b: string, q: int, c: int, tok: string)
    requires tok != "" && QuoteAt(b, q) && MatchAt(b, c, tok) && q < c
    ensures var e := EndQuote(b, q);
            var c' := if e > c then Match(m, b, e + 1, false, tok) else c;
            PastQuotes(m, b, q, c, tok) ==
            if e == NONE || c' == NONE then Hit(NONE, q) else PastQuotes(m, b, FirstOf(IsQuote, b, e + 1), c', tok)
  {
    hide Match, EndQuote, FirstOf;
  }

  lemma PastDone(m: Matcher, b: string, q: int, c: int, tok: string)
    requires tok != "" && (q == NONE || QuoteAt(b, q)) && MatchAt(b, c, tok)
    requires c == NONE || q == NONE || c <= q
    ensures PastQuotes(m, b, q, c, tok) == Hit(c, q)
  {
  }

  /** Behind a quote no character to the left is in the way. */
  lemma {:induction false} PastQuotesMeaning(m: Matcher, b: string, q: int, c: int, tok: string)
    requires tok != "" && (q == NONE || QuoteAt(b, q)) && MatchAt(b, c, tok)
    ensures var r := PastQuotes(m, b, q, c, tok).at;
            r == NONE || r == c || (r > 0 && q < r && q != NONE && !Rejected(m, b, r, IsIdChar(b[r - 1]), tok))
    decreases if q == NONE then 0 else |b| - q
  {
    hide Match, EndQuote, FirstOf, PastQuotes, OccursAt, Rejected;
    if c == NONE || q == NONE || c <= q {
      PastDone(m, b, q, c, tok);
    } else {
      PastStep(m, b, q, c, tok);
      var e := EndQuote(b, q);
      var c' := if e > c then Match(m, b, e + 1, false, tok) else c;
      if e != NONE && c' != NONE {
        PastQuotesMeaning(m, b, FirstOf(IsQuote, b, e + 1), c', tok);
        if e > c {
          MatchMeaning(m, b, e + 1, false, tok);
          assert LeftOf(b, c', e + 1, false) == IsIdChar(b[c' - 1]);
        }
      }
    }
  }

  /** What is found is an occurrence that the matcher accepts. */
  lemma FindMeaning(f: Search, b: string, from: nat, left: bool, tok: string)
    requires tok != "" && from <= |b|
    ensures var i := Find(f, b, from, left, tok);
            i != NONE ==> !Rejected(f.m, b, i, LeftOf(b, i, from, left), tok)
  {
    hide Match, PastQuotes, FirstOf;
    MatchMeaning(f.m, b, from, left, tok);
    PastQuotesMeaning(f.m, b, FirstOf(IsQuote, b, from), Match(f.m, b, from, left, tok), tok);
  }

  lemma MatchStep(m: Matcher, b: string, from: nat, left: bool, tok: string)
    requires tok != "" && from <= |b|
    ensures var i := StrStr(b, from, tok);
            Match(m, b, from, left, tok) ==
            if i == NONE then NONE
            else if Rejected(m, b, i, LeftOf(b, i, from, left), tok) then Match(m, b, i + |tok|, IsIdChar(Last(tok)), tok)
            else i
  {
    hide StrStr;
  }

  lemma TokenEnd(b: string, i: nat, tok: string)
    requires tok != "" && OccursAt(tok, b, i)
    ensures b[i + |tok| - 1] == Last(tok)
  {
    assert b[i..i + |tok|][|tok| - 1] == Last(tok);
  }

  lemma {:induction false} MatchMeaning(m: Matcher, b: string, from: nat, left: bool, tok: string)
    requires tok != "" && from <= |b|
    ensures var i := Match(m, b, from, left, tok);
            i != NONE ==> !Rejected(m, b, i, LeftOf(b, i, from, left), tok)
    decreases |b| - from
  {
    hide StrStr, Match;
    MatchStep(m, b, from, left, tok);
    var i := StrStr(b, from, tok);
    if i != NONE && Rejected(m, b, i, LeftOf(b, i, from, left), tok) {
      MatchMeaning(m, b, i + |tok|, IsIdChar(Last(tok)), tok);
      TokenEnd(b, i, tok);
    }
  }

  /** The plain matcher misses nothing: every occurrence of the token overlaps a site. */
  lemma {:induction false} SimpleMissesNothing(b: string, from: nat, left: bool, tok: string, seen: bool, i: nat) returns (j: nat)
    requires tok != "" && from <= i && OccursAt(tok, b, i)
    ensures var sites := Sites(Search(Simple, false), b, from, left, tok, seen, false);
            j < |sites| && sites[j] <= i < sites[j] + |tok|
    decreases |b| - from
  {
    hide StrStr, Match, Sites, LeftOf;
    MatchStep(Simple, b, from, left, tok);
    SitesStep(Search(Simple, false), b, from, left, tok, seen, false);
    var s := Match(Simple, b, from, left, tok);
    assert s == StrStr(b, from, tok) && s != NONE && s <= i;
    if i < s + |tok| {
      j := 0;
    } else {
      var k := SimpleMissesNothing(b, s + |tok|, seen, tok, seen, i);
      j := k + 1;
    }
  }

  /** An occurrence the matchers have looked at, and whether it was accepted. */
  datatype Candidate = Candidate(at: nat, accepted: bool)

  /** Every candidate, in order: an accepted one is substituted, and either kind is skipped whole. */
  function Candidates(m: Matcher, b: string, from: nat, left: bool, tok: string, seen: bool): seq<Candidate>
    requires tok != "" && from <= |b|
    decreases |b| - from
  {
    var i := StrStr(b, from, tok);
    if i == NONE then []
    else if Rejected(m, b, i, LeftOf(b, i, from, left), tok) then
      [Candidate(i, false)] + Candidates(m, b, i + |tok|, IsIdChar(Last(tok)), tok, seen)
    else [Candidate(i, true)] + Candidates(m, b, i + |tok|, seen, tok, seen)
  }

  function Accepted(cs: seq<Candidate>): seq<nat> {
    if cs == [] then [] else (if cs[0].accepted then [cs[0].at] else []) + Accepted(cs[1..])
  }

  lemma NoneAccepted()
    ensures Accepted([]) == []
  {
  }

  lemma AcceptedCons(c: Candidate, cs: seq<Candidate>)
    ensures Accepted([c] + cs) == (if c.accepted then [c.at] else []) + Accepted(cs)
  {
    assert ([c] + cs)[1..] == cs;
  }

  lemma CandidatesStep(m: Matcher, b: string, from: nat, left: bool, tok: string, seen: bool)
    requires tok != "" && from <= |b|
    ensures var i := StrStr(b, from, tok);
            Candidates(m, b, from, left, tok, seen) ==
            if i == NONE then []
            else
              var accepted := !Rejected(m, b, i, LeftOf(b, i, from, left), tok);
              [Candidate(i, accepted)]
              + Candidates(m, b, i + |tok|, if accepted then seen else IsIdChar(Last(tok)), tok, seen)
  {
    hide StrStr, Rejected, LeftOf;
  }

  /** The accepted candidates are the places substituted. */
  lemma {:induction false} AcceptedAreSites(m: Matcher, b: string, from: nat, left: bool, tok: string, seen: bool)
    requires tok != "" && from <= |b|
    ensures Accepted(Candidates(m, b, from, left, tok, seen)) == Sites(Search(m, false), b, from, left, tok, seen, false)
    decreases |b| - from
  {
    hide StrStr, Match, Sites, Candidates, Accepted;
    MatchStep(m, b, from, left, tok);
    SitesStep(Search(m, false), b, from, left, tok, seen, false);
    CandidatesStep(m, b, from, left, tok, seen);
    var i := StrStr(b, from, tok);
    if i == NONE {
      NoneAccepted();
    } else {
      var accepted := !Rejected(m, b, i, LeftOf(b, i, from, left), tok);
      var left' := if accepted then seen else IsIdChar(Last(tok));
      AcceptedCons(Candidate(i, accepted), Candidates(m, b, i + |tok|, left', tok, seen));
      AcceptedAreSites(m, b, i + |tok|, left', tok, seen);
      SitesStep(Search(m, false), b, i + |tok|, left', tok, seen, false);
    }
  }

  /** No matcher misses an occurrence without a reason: each overlaps a candidate that begins at or before it -- a
      place substituted, or a candidate turned down, which is skipped whole. */
  lemma {:induction false} NothingMissed(m: Matcher, b: string, from: nat, left: bool, tok: string, seen: bool, i: nat)
    returns (j: nat)
    requires tok != "" && from <= i && OccursAt(tok, b, i)
    ensures var cs := Candidates(m, b, from, left, tok, seen);
            j < |cs| && cs[j].at <= i < cs[j].at + |tok| && OccursAt(tok, b, cs[j].at)
    decreases |b| - from
  {
    hide StrStr, Candidates, Rejected, LeftOf;
    CandidatesStep(m, b, from, left, tok, seen);
    var s := StrStr(b, from, tok);
    assert s != NONE && s <= i;
    if i < s + |tok| {
      j := 0;
    } else {
      var left' := if Rejected(m, b, s, LeftOf(b, s, from, left), tok) then IsIdChar(Last(tok)) else seen;
      var k := NothingMissed(m, b, s + |tok|, left', tok, seen, i);
      j := k + 1;
    }
  }

  // ----- the left neighbour

  lemma OccursSuffix(b: string, c: string, from: nat, tok: string, i: int)
    requires from <= i && from <= |b| == |c| && b[from..] == c[from..]
    ensures OccursAt(tok, b, i) <==> OccursAt(tok, c, i)
  {
    if i + |tok| <= |b| {
      SliceWithin(b, from, i, i + |tok|);
      SliceWithin(c, from, i, i + |tok|);
    }
  }

  /** Matching looks only at the text from `from` on, and at `left`. */
  lemma StrStrSuffix(b: string, c: string, from: nat, tok: string)
    requires from <= |b| == |c| && b[from..] == c[from..]
    ensures StrStr(b, from, tok) == StrStr(c, from, tok)
  {
    hide StrStr, OccursAt;
    forall i | from <= i ensures OccursAt(tok, b, i) == OccursAt(tok, c, i) {
      OccursSuffix(b, c, from, tok, i);
    }
  }

  lemma {:induction false} MatchSuffix(m: Matcher, b: string, c: string, from: nat, left: bool, tok: string)
    requires tok != "" && from <= |b| == |c| && b[from..] == c[from..]
    ensures Match(m, b, from, left, tok) == Match(m, c, from, left, tok)
    decreases |b| - from
  {
    hide StrStr, Match;
    StrStrSuffix(b, c, from, tok);
    MatchStep(m, b, from, left, tok);
    MatchStep(m, c, from, left, tok);
    var i := StrStr(b, from, tok);
    if i != NONE {
      assert forall k :: from <= k < |b| ==> b[k] == b[from..][k - from] == c[k];
      if Rejected(m, b, i, LeftOf(b, i, from, left), tok) {
        assert b[i + |tok|..] == b[from..][i + |tok| - from..] == c[i + |tok|..];
        MatchSuffix(m, b, c, i + |tok|, IsIdChar(Last(tok)), tok);
      }
    }
  }

  lemma OccursSame(b: string, c: string, from: nat, tok: string, at: int)
    requires from <= at && |b| == |c| && from <= |b| && b[from..] == c[from..] && MatchAt(b, at, tok)
    ensures MatchAt(c, at, tok)
  {
    OccursSuffix(b, c, from, tok, at);
  }

  lemma SliceOn(b: string, c: string, from: nat, n: nat)
    requires from <= n <= |b| == |c| && b[from..] == c[from..]
    ensures b[n..] == c[n..] && SameFrom(b, c, n)
  {
    assert b[n..] == b[from..][n - from..] && c[n..] == c[from..][n - from..];
    assert forall k :: n <= k < |b| ==> b[k] == b[n..][k - n] == c[k];
  }

  lemma {:induction false} PastSame(m: Matcher, b: string, c: string, from: nat, q: int, at: int, tok: string)
    requires tok != "" && from <= |b| == |c| && b[from..] == c[from..]
    requires (q == NONE || (from <= q && QuoteAt(b, q))) && (at == NONE || from <= at) && MatchAt(b, at, tok)
    ensures (q == NONE || QuoteAt(c, q)) && MatchAt(c, at, tok)
    ensures PastQuotes(m, b, q, at, tok) == PastQuotes(m, c, q, at, tok)
    decreases if q == NONE then 0 else |b| - q
  {
    hide Match, EndQuote, FirstOf, PastQuotes, OccursAt, SameFrom;
    if at != NONE { OccursSame(b, c, from, tok, at); }
    if q != NONE {
      SliceOn(b, c, from, q);
      EndSame(b, c, q);
    }
    if at == NONE || q == NONE || at <= q {
      PastDone(m, b, q, at, tok);
      PastDone(m, c, q, at, tok);
    } else {
      PastStep(m, b, q, at, tok);
      PastStep(m, c, q, at, tok);
      var e := EndQuote(b, q);
      if e != NONE {
        SliceOn(b, c, from, e + 1);
        MatchSuffix(m, b, c, e + 1, false, tok);
        FirstOfSame(IsQuote, b, c, e + 1);
        var at' := if e > at then Match(m, b, e + 1, false, tok) else at;
        if at' != NONE { PastSame(m, b, c, from, FirstOf(IsQuote, b, e + 1), at', tok); }
      }
    }
  }

  lemma EndSame(b: string, c: string, q: nat)
    requires QuoteAt(b, q) && SameFrom(b, c, q)
    ensures QuoteAt(c, q) && EndQuote(b, q) == EndQuote(c, q)
  {
    hide EndQuoteFrom, SameFrom;
    EndQuoteSame(b, c, q, q);
  }

  /** The search looks only at the text from `from` on, and at `left`. */
  lemma FindSuffix(f: Search, b: string, c: string, from: nat, left: bool, tok: string)
    requires tok != "" && from <= |b| == |c| && b[from..] == c[from..]
    ensures Find(f, b, from, left, tok) == Find(f, c, from, left, tok)
  {
    hide Match, FirstOf, PastQuotes, SameFrom;
    MatchSuffix(f.m, b, c, from, left, tok);
    SliceOn(b, c, from, from);
    FirstOfSame(IsQuote, b, c, from);
    PastSame(f.m, b, c, from, FirstOf(IsQuote, b, from), Match(f.m, b, from, left, tok), tok);
  }

  /** When the code and the plain substitution can differ: equal lengths, a matcher that looks left, replacement
      and token ending in characters of different kinds, and a token that can follow itself. */
  predicate Faithful(m: Matcher, tok: string, rep: string)
    requires tok != ""
  {
    || SeenByCode(tok, rep) == IsIdChar(Last(tok))
    || !m.LooksLeft()
    || (m.Identifier? && IsIdChar(tok[0]))
  }

  lemma {:induction false} LeftIsMoot(m: Matcher, b: string, from: nat, left: bool, left': bool, tok: string)
    requires tok != "" && from <= |b|
    requires !m.LooksLeft() || !OccursAt(tok, b, from)
    ensures Match(m, b, from, left, tok) == Match(m, b, from, left', tok)
  {
  }

  lemma FindIsMoot(f: Search, b: string, from: nat, left: bool, left': bool, tok: string)
    requires tok != "" && from <= |b|
    requires !f.m.LooksLeft() || !OccursAt(tok, b, from)
    ensures Find(f, b, from, left, tok) == Find(f, b, from, left', tok)
  {
    hide Match, PastQuotes, FirstOf;
    LeftIsMoot(f.m, b, from, left, left', tok);
  }

  /** Under `Faithful` the search finds the same next place behind a site, whichever character it sees. */
  lemma FaithfulNext(f: Search, b: string, from: nat, left: bool, tok: string, rep: string)
    requires tok != "" && from <= |b| && Faithful(f.m, tok, rep)
    requires Find(f, b, from, left, tok) != NONE
    ensures var n := Find(f, b, from, left, tok) + |tok|;
            Find(f, b, n, SeenByCode(tok, rep), tok) == Find(f, b, n, IsIdChar(Last(tok)), tok)
  {
    hide Find;
    var n := Find(f, b, from, left, tok) + |tok|;
    var s, s' := SeenByCode(tok, rep), IsIdChar(Last(tok));
    if s != s' {
      FindMeaning(f, b, from, left, tok);
      if OccursAt(tok, b, n) {
        assert b[n..n + |tok|][0] == tok[0];
      }
      FindIsMoot(f, b, n, s, s', tok);
    }
  }

  lemma {:induction false} FaithfulSites(f: Search, b: string, from: nat, left: bool, tok: string, rep: string, once: bool)
    requires tok != "" && from <= |b| && Faithful(f.m, tok, rep)
    ensures Sites(f, b, from, left, tok, SeenByCode(tok, rep), once) == Sites(f, b, from, left, tok, IsIdChar(Last(tok)), once)
    decreases |b| - from
  {
    hide Find, Faithful, SeenByCode, Sites;
    var i := Find(f, b, from, left, tok);
    var s, s' := SeenByCode(tok, rep), IsIdChar(Last(tok));
    SitesStep(f, b, from, left, tok, s, once);
    SitesStep(f, b, from, left, tok, s', once);
    if i != NONE && !once {
      FaithfulNext(f, b, from, left, tok, rep);
      FaithfulSites(f, b, i + |tok|, s', tok, rep, once);
      SitesByFirst(f, b, i + |tok|, s, s', tok, s, once);
    }
  }

  lemma SitesStep(f: Search, b: string, from: nat, left: bool, tok: string, seen: bool, once: bool)
    requires tok != "" && from <= |b|
    ensures var i := Find(f, b, from, left, tok);
            Sites(f, b, from, left, tok, seen, once) ==
            if i == NONE then [] else if once then [i] else [i] + Sites(f, b, i + |tok|, seen, tok, seen, once)
  {
    hide Find;
  }

  /** The left neighbour matters to the sites only through the first match. */
  lemma SitesByFirst(f: Search, b: string, from: nat, left: bool, left': bool, tok: string, seen: bool, once: bool)
    requires tok != "" && from <= |b| && Find(f, b, from, left, tok) == Find(f, b, from, left', tok)
    ensures Sites(f, b, from, left, tok, seen, once) == Sites(f, b, from, left', tok, seen, once)
  {
    hide Find;
  }

  lemma {:induction false} DoubledMatches(m: Matcher, tok: string, at: nat, left: bool)
    requires tok != "" && (at == 0 || at == |tok|)
    requires m == IdBegin || (m == Identifier && !IsIdChar(tok[0]))
    ensures var r := Match(m, tok + tok, at, left, tok);
            if !left then r == at else at == |tok| ==> r == NONE
  {
    var b, k := tok + tok, |tok|;
    assert b[0..k] == tok && b[k..k + k] == tok && b[k] == tok[0];
    assert OccursAt(tok, b, at);
    if left && at == k {
      assert Match(m, b, k + k, IsIdChar(Last(tok)), tok) == NONE;
    }
  }

  lemma DoubledFinds(f: Search, tok: string, at: nat, left: bool)
    requires tok != "" && (at == 0 || at == |tok|)
    requires f.m == IdBegin || (f.m == Identifier && !IsIdChar(tok[0]))
    ensures var r := Find(f, tok + tok, at, left, tok);
            if !left then r == at else at == |tok| ==> r == NONE
  {
    hide Match, FirstOf;
    DoubledMatches(f.m, tok, at, left);
  }

  lemma DoubledSites(f: Search, tok: string, seen: bool)
    requires tok != ""
    requires f.m == IdBegin || (f.m == Identifier && !IsIdChar(tok[0]))
    ensures Sites(f, tok + tok, 0, false, tok, seen, false) == if seen then [0] else [0, |tok|]
  {
    hide Find, Sites;
    var b, k := tok + tok, |tok|;
    DoubledFinds(f, tok, 0, false);
    DoubledFinds(f, tok, k, seen);
    SitesStep(f, b, 0, false, tok, seen, false);
    SitesStep(f, b, k, seen, tok, seen, false);
    SitesStep(f, b, k + k, seen, tok, seen, false);
    assert [k] + [] == [k] && [0] + [] == [0] && [0] + [k] == [0, k];
  }

  lemma HalvesWeave(b: string, tok: string, rep: string, k: nat)
    requires |b| == k + k && b[k..] == tok
    ensures Spaced([0], 0, b, k) && Spaced([0, k], 0, b, k)
    ensures Weave(b, 0, [0], k, rep) == rep + tok
    ensures Weave(b, 0, [0, k], k, rep) == rep + rep
  {
    WeaveNil(b, k, k, rep);
    WeaveNil(b, k + k, k, rep);
    WeaveStep(b, 0, 0, [], k, rep);
    WeaveStep(b, k, k, [], k, rep);
    WeaveStep(b, 0, 0, [k], k, rep);
    assert [0] + [] == [0] && [k] + [] == [k] && [0] + [k] == [0, k];
  }

  lemma WeaveNil(b: string, from: nat, k: nat, rep: string)
    requires from <= |b|
    ensures Spaced([], from, b, k) && Weave(b, from, [], k, rep) == b[from..]
  {
  }

  lemma WeaveStep(b: string, from: nat, i: nat, rest: seq<nat>, k: nat, rep: string)
    requires from <= i && i + k <= |b| && Spaced(rest, i + k, b, k)
    ensures Spaced([i] + rest, from, b, k)
    ensures Weave(b, from, [i] + rest, k, rep) == b[from..i] + rep + Weave(b, i + k, rest, k, rep)
  {
    assert ([i] + rest)[1..] == rest;
  }

  /** On the doubled token the two differ whenever the condition fails. */
  lemma UnfaithfulWitness(f: Search, tok: string, rep: string)
    requires tok != "" && !Faithful(f.m, tok, rep)
    ensures SubstitutedSeeing(f, tok + tok, tok, rep, SeenByCode(tok, rep), false) != Substituted(f, tok + tok, tok, rep, false)
  {
    hide Find, Sites, Weave;
    var s, s' := SeenByCode(tok, rep), IsIdChar(Last(tok));
    var two, one := rep + rep, rep + tok;
    assert (tok + tok)[|tok|..] == tok;
    HalvesWeave(tok + tok, tok, rep, |tok|);
    assert two != one by { assert Last(two) == Last(rep) && Last(one) == Last(tok); }
    DoubledSites(f, tok, s);
    DoubledSites(f, tok, s');
  }

  /** `replace_simple` performs the plain substitution on every text exactly when `Faithful` holds. */
  lemma FaithfulExactly(f: Search, tok: string, rep: string)
    requires tok != ""
    ensures Faithful(f.m, tok, rep) <==>
            forall b, once :: SubstitutedSeeing(f, b, tok, rep, SeenByCode(tok, rep), once) == Substituted(f, b, tok, rep, once)
  {
    if Faithful(f.m, tok, rep) {
      forall b, once
        ensures SubstitutedSeeing(f, b, tok, rep, SeenByCode(tok, rep), once) == Substituted(f, b, tok, rep, once)
      {
        FaithfulSites(f, b, 0, false, tok, rep, once);
      }
    } else {
      UnfaithfulWitness(f, tok, rep);
    }
  }

  lemma UnequalLengthsAreFaithful(m: Matcher, tok: string, rep: string)
    requires tok != "" && |rep| != |tok|
    ensures Faithful(m, tok, rep)
  {
  }
}
