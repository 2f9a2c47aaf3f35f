/** Quoted stretches of a text, as `end_quote` of Source/DOH/string.c finds their ends. */
module Quotes {
  import opened Scan

  predicate IsQuote(c: char) { c == '"' || c == '\'' }

  predicate EndsLine(c: char) { c == '\n' }

  predicate QuoteAt(b: string, q: int) {
    0 <= q < |b| && IsQuote(b[q])
  }

  /** The loop of `end_quote` on the quote at `open`, from place `s` on: the closing quote, the quote itself where its
      line ends first, or nothing. */
  function EndQuoteFrom(b: string, open: nat, s: nat): (r: int)
    requires QuoteAt(b, open) && open <= s < |b|
    ensures r == NONE || (open <= r && QuoteAt(b, r))
    decreases |b| - s
  {
    var q, nl := FirstOf(IsQuote, b, s + 1), FirstOf(EndsLine, b, s + 1);
    if nl != NONE && nl < q then
      if b[nl - 1] == '\\' then EndQuoteFrom(b, open, nl + 1) else open
    else if q == NONE then
      if nl != NONE then open else NONE
    else if b[q] == b[open] && b[q - 1] != '\\' then q
    else EndQuoteFrom(b, open, q)
  }

  function EndQuote(b: string, open: nat): (r: int)
    requires QuoteAt(b, open)
    ensures r == NONE || (open <= r && QuoteAt(b, r))
  {
    EndQuoteFrom(b, open, open)
  }

  lemma EndQuoteStep(b: string, open: nat, s: nat)
    requires QuoteAt(b, open) && open <= s < |b|
    ensures var q, nl := FirstOf(IsQuote, b, s + 1), FirstOf(EndsLine, b, s + 1);
            EndQuoteFrom(b, open, s) ==
            if nl != NONE && nl < q then
              if b[nl - 1] == '\\' then EndQuoteFrom(b, open, nl + 1) else open
            else if q == NONE then
              if nl != NONE then open else NONE
            else if b[q] == b[open] && b[q - 1] != '\\' then q
            else EndQuoteFrom(b, open, q)
  {
    hide FirstOf;
  }

  /** A quote of the same kind that no backslash precedes. */
  predicate Closes(b: string, open: nat, j: int) {
    open < j < |b| && b[j] == b[open] && b[j - 1] != '\\'
  }

  lemma {:induction false} EndQuoteScan(b: string, open: nat, s: nat)
    requires QuoteAt(b, open) && open <= s < |b|
    requires forall j :: open < j <= s ==> !Closes(b, open, j)
    requires FirstOf(EndsLine, b, open + 1) == FirstOf(EndsLine, b, s + 1)
    ensures var nl := FirstOf(EndsLine, b, open + 1);
            var e := EndQuoteFrom(b, open, s);
            && (forall j :: Closes(b, open, j) && (nl == NONE || j < nl) ==> open < e <= j && Closes(b, open, e))
            && ((forall j :: Closes(b, open, j) ==> nl != NONE && nl < j) ==>
                  e == if nl == NONE then NONE
                       else if b[nl - 1] == '\\' && FirstOf(IsQuote, b, nl + 1) != NONE then EndQuoteFrom(b, open, nl + 1)
                       else open)
    decreases |b| - s
  {
    hide FirstOf, EndQuoteFrom;
    EndQuoteStep(b, open, s);
    var q, nl := FirstOf(IsQuote, b, s + 1), FirstOf(EndsLine, b, s + 1);
    if nl != NONE && nl < q {
      FirstOfFrom(IsQuote, b, s + 1, nl + 1);
    } else if q == NONE {
      if nl != NONE { FirstOfFrom(IsQuote, b, s + 1, nl + 1); }
    } else if !Closes(b, open, q) {
      FirstOfFrom(EndsLine, b, s + 1, q + 1);
      EndQuoteScan(b, open, q);
    }
  }

  /** The end of a quote: the first closing quote on its line; without one, the end of the text means that there is
      none, and the end of the line that the quote stands alone -- unless a backslash carries the line on and quotes
      follow, when the search goes on behind the character that follows the line end. */
  lemma EndQuoteMeans(b: string, open: nat)
    requires QuoteAt(b, open)
    ensures var nl, e := FirstOf(EndsLine, b, open + 1), EndQuote(b, open);
            && (forall j :: Closes(b, open, j) && (nl == NONE || j < nl) ==> open < e <= j && Closes(b, open, e))
            && ((forall j :: Closes(b, open, j) ==> nl != NONE && nl < j) ==>
                  e == if nl == NONE then NONE
                       else if b[nl - 1] == '\\' && FirstOf(IsQuote, b, nl + 1) != NONE then EndQuoteFrom(b, open, nl + 1)
                       else open)
  {
    hide FirstOf;
    EndQuoteScan(b, open, open);
  }

  /** A closing quote at the very start of a continued line is not seen, nor one behind an escaped backslash. */
  lemma MissedEnds()
    ensures var carried, escaped := ['"', '\\', '\n', '"'], ['"', '\\', '\\', '"'];
            EndQuote(carried, 0) == NONE && EndQuote(escaped, 0) == NONE
  {
    var carried, escaped := ['"', '\\', '\n', '"'], ['"', '\\', '\\', '"'];
    assert FirstOf(IsQuote, carried, 1) == 3 && FirstOf(EndsLine, carried, 1) == 2;
    assert EndQuoteFrom(carried, 0, 3) == NONE;
    assert FirstOf(IsQuote, escaped, 1) == 3 && FirstOf(EndsLine, escaped, 1) == NONE;
    assert EndQuoteFrom(escaped, 0, 3) == NONE;
  }

  /** Place `i` stands in quotes, the quotes themselves included, for a reading of the text from `from` on. */
  ghost predicate InQuotes(b: string, from: nat, i: nat)
    requires from <= |b|
    decreases |b| - from
  {
    var q := FirstOf(IsQuote, b, from);
    q != NONE && q <= i && (EndQuote(b, q) == NONE || i <= EndQuote(b, q) || InQuotes(b, EndQuote(b, q) + 1, i))
  }

  lemma InQuotesFrom(b: string, from: nat, n: nat, i: nat)
    requires from <= |b| && n <= |b| && FirstOf(IsQuote, b, from) == FirstOf(IsQuote, b, n)
    ensures InQuotes(b, from, i) <==> InQuotes(b, n, i)
  {
    hide FirstOf, EndQuote;
  }

  lemma SameAt(b: string, c: string, from: nat, k: nat)
    requires SameFrom(b, c, from) && from <= k < |b|
    ensures b[from] == c[from] && b[k] == c[k] && SameFrom(b, c, k + 1) && |b| == |c|
  {
  }

  lemma {:induction false} EndQuoteSame(b: string, c: string, open: nat, s: nat)
    requires open <= s < |b| && SameFrom(b, c, open) && QuoteAt(b, open)
    ensures QuoteAt(c, open) && EndQuoteFrom(b, open, s) == EndQuoteFrom(c, open, s)
    decreases |b| - s
  {
    hide FirstOf, EndQuoteFrom, SameFrom;
    EndQuoteStep(b, open, s);
    SameAt(b, c, open, s);
    EndQuoteStep(c, open, s);
    FirstOfSame(IsQuote, b, c, s + 1);
    FirstOfSame(EndsLine, b, c, s + 1);
    var q, nl := FirstOf(IsQuote, b, s + 1), FirstOf(EndsLine, b, s + 1);
    if nl != NONE && nl < q {
      SameAt(b, c, open, nl - 1);
      if b[nl - 1] == '\\' { EndQuoteSame(b, c, open, nl + 1); }
    } else if q != NONE {
      SameAt(b, c, open, q - 1);
      SameAt(b, c, open, q);
      if !Closes(b, open, q) { EndQuoteSame(b, c, open, q); }
    }
  }
}
