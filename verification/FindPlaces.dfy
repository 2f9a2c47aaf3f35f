/** The searching of Source/DOH/string.c on a buffer: the four matchers, `end_quote`, and the passing over of quotes. */
module FindPlaces {
  import opened Scan
  import opened Quotes
  import opened Substitution
  import opened QuotedSites
  import opened GrowingSites

  method FindMatch(a: array<char>, len: nat, m: Matcher, from: nat, tok: string) returns (c: int)
    requires tok != "" && from <= len < a.Length
    ensures c == Match(m, a[..len], from, LeftIn(a[..len], from), tok)
  {
    hide StrStr, Match, IsIdChar, Last, OccursAt, LeftIn, LeftOf;
    ghost var b := a[..len];
    var s := from;
    ghost var left := LeftIn(b, from);
    while true
      invariant from <= s <= len
      invariant left == LeftIn(b, s)
      invariant Match(m, b, s, left, tok) == Match(m, b, from, LeftIn(b, from), tok)
      decreases len - s
    {
      MatchStep(m, b, s, left, tok);
      var i := StrStr(a[..len], s, tok);
      if i == NONE { return NONE; }
      RealLeft(b, i, s, left);
      if m.LooksLeft() && i > 0 && IsIdChar(a[i - 1]) {
        BehindToken(b, i, tok);
        s, left := i + |tok|, IsIdChar(Last(tok));
        continue;
      }
      if m.LooksRight() && i + |tok| < len && IsIdChar(a[i + |tok|]) {
        BehindToken(b, i, tok);
        s, left := i + |tok|, IsIdChar(Last(tok));
        continue;
      }
      return i;
    }
  }

  lemma RealLeft(b: string, i: nat, from: nat, left: bool)
    requires from <= i <= |b| && left == LeftIn(b, from)
    ensures LeftOf(b, i, from, left) == LeftIn(b, i) == (i > 0 && IsIdChar(b[i - 1]))
  {
  }

  lemma BehindToken(b: string, i: nat, tok: string)
    requires tok != "" && OccursAt(tok, b, i)
    ensures i + |tok| <= |b| && LeftIn(b, i + |tok|) == IsIdChar(Last(tok))
  {
    TokenEnd(b, i, tok);
  }

  /** end_quote */
  method FindEndQuote(a: array<char>, len: nat, open: nat) returns (e: int)
    requires len < a.Length && QuoteAt(a[..len], open)
    ensures e == EndQuote(a[..len], open)
  {
    hide FirstOf, EndQuoteFrom;
    ghost var b := a[..len];
    var s := open;
    while true
      invariant open <= s < len
      invariant EndQuoteFrom(b, open, s) == EndQuote(b, open)
      decreases len - s
    {
      EndQuoteStep(b, open, s);
      var q, nl := FirstOf(IsQuote, a[..len], s + 1), FirstOf(EndsLine, a[..len], s + 1);
      if nl != NONE && nl < q {
        if a[nl - 1] == '\\' {
          s := nl + 1;
          continue;
        }
        return open;
      }
      if q == NONE && nl != NONE { return open; }
      if q == NONE { return NONE; }
      if a[q] == a[open] && a[q - 1] != '\\' { return q; }
      s := q;
    }
  }

  /** The loop that passes over the quotes in front of a match; `noquote` goes off with the last of them. */
  method SkipQuotes(a: array<char>, len: nat, m: Matcher, q: nat, c: int, tok: string) returns (c': int, noquote: bool)
    requires tok != "" && len < a.Length && QuoteAt(a[..len], q) && MatchAt(a[..len], c, tok)
    ensures var h := PastQuotes(m, a[..len], q, c, tok); c' == h.at && (noquote <==> h.quote != NONE)
    ensures c' == NONE ==> noquote
  {
    hide FirstOf, EndQuote, Match, PastQuotes, OccursAt, LeftIn, IsQuote;
    ghost var b := a[..len];
    var q': int := q;
    c', noquote := c, true;
    while q' != NONE && q' < c'
      invariant (q' == NONE || QuoteAt(b, q')) && MatchAt(b, c', tok)
      invariant PastQuotes(m, b, q', c', tok) == PastQuotes(m, b, q, c, tok)
      invariant (noquote <==> q' != NONE) && (c' == NONE ==> noquote)
      decreases if q' == NONE then 0 else len - q'
    {
      PastStep(m, b, q', c', tok);
      var q2 := FindEndQuote(a, len, q');
      if q2 == NONE { return NONE, noquote; }
      if q2 > c' {
        LeftOfQuote(b, q2);
        c' := FindMatch(a, len, m, q2 + 1, tok);
      }
      if c' == NONE { return NONE, noquote; }
      q' := FirstOf(IsQuote, a[..len], q2 + 1);
      if q' == NONE { noquote := false; }
    }
    PastDone(m, b, q', c', tok);
  }

  /** The next place, with quotes looked for or not, and whether they still are. */
  method FindNext(a: array<char>, len: nat, m: Matcher, from: nat, tok: string, noquote: bool) returns (c: int, noquote': bool)
    requires tok != "" && from <= len < a.Length
    ensures c == Find(Search(m, noquote), a[..len], from, LeftIn(a[..len], from), tok)
    ensures noquote' <==> noquote && First(m, a[..len], from, LeftIn(a[..len], from), tok).quote != NONE
  {
    hide FirstOf, Match, PastQuotes, LeftIn;
    noquote' := noquote;
    c := FindMatch(a, len, m, from, tok);
    if noquote {
      var q := FirstOf(IsQuote, a[..len], from);
      if q == NONE {
        PastDone(m, a[..len], q, c, tok);
        noquote' := false;
      } else {
        c, noquote' := SkipQuotes(a, len, m, q, c, tok);
      }
    }
  }

  // ----- quotes no longer looked for

  /** Quotes are looked for as asked, or there are none. */
  ghost predicate Watching(f: Search, b: string, from: nat, noquote: bool) {
    noquote == f.noquote || (f.noquote && FirstOf(IsQuote, b, from) == NONE)
  }

  lemma StillFinds(f: Search, b: string, from: nat, left: bool, tok: string, noquote: bool)
    requires tok != "" && from <= |b| && Watching(f, b, from, noquote)
    ensures Find(Search(f.m, noquote), b, from, left, tok) == Find(f, b, from, left, tok)
  {
    hide Match, FirstOf, PastQuotes;
    if noquote != f.noquote { PastDone(f.m, b, NONE, Match(f.m, b, from, left, tok), tok); }
  }

  lemma StillWatching(f: Search, b: string, from: nat, left: bool, tok: string, noquote: bool)
    requires tok != "" && from <= |b| && Watching(f, b, from, noquote)
    requires Find(f, b, from, left, tok) != NONE
    ensures Watching(f, b, Find(f, b, from, left, tok) + |tok|, noquote && First(f.m, b, from, left, tok).quote != NONE)
  {
    hide Match, FirstOf, PastQuotes;
    PastLast(f.m, b, from, Match(f.m, b, from, left, tok), tok);
    FirstOfFromNone(b, from, Find(f, b, from, left, tok) + |tok|);
  }

  lemma FirstOfFromNone(b: string, i: nat, j: nat)
    requires i <= j
    ensures FirstOf(IsQuote, b, i) == NONE ==> FirstOf(IsQuote, b, j) == NONE
  {
    hide FirstOf;
  }
}
