/** Which places the flags of `String_replace` select (Source/DOH/string.c, Source/DOH/doh.h), told by the characters
    of the text: the identifiers of the text are its maximal runs of letters, digits and underscores. */
module IdentifierRuns {
  import opened Ascii
  import opened Scan
  import opened Quotes
  import opened Substitution
  import opened GrowingSites
  import opened Replace

  lemma WordChars(c: char)
    ensures IsIdChar(c) <==> InWord(c)
  {
    Smalls(c);
    Capitals(c);
    Digits(c);
  }

  ghost predicate Word(tok: string) {
    tok != "" && forall i :: 0 <= i < |tok| ==> InWord(tok[i])
  }

  /** No identifier reaches over the place `i` from the left. */
  ghost predicate Starts(b: string, i: int)
    requires 0 <= i <= |b|
  {
    i == 0 || !InWord(b[i - 1])
  }

  /** No identifier reaches over the place `i` to the right. */
  ghost predicate Ends(b: string, i: int)
    requires 0 <= i <= |b|
  {
    i == |b| || !InWord(b[i])
  }

  ghost predicate TokenAt(tok: string, b: string, i: int) {
    0 <= i && i + |tok| <= |b| && b[i..i + |tok|] == tok
  }

  /** The characters of [i, j) are an identifier of the text. */
  ghost predicate IsIdentifier(b: string, i: int, j: int) {
    0 <= i < j <= |b| && (forall k :: i <= k < j ==> InWord(b[k])) && Starts(b, i) && Ends(b, j)
  }

  ghost predicate Good(m: Matcher, b: string, i: int, tok: string) {
    TokenAt(tok, b, i) && (m.LooksLeft() ==> Starts(b, i)) && (m.LooksRight() ==> Ends(b, i + |tok|))
  }

  /** `left` tells the truth about the character before `from`. */
  ghost predicate Told(b: string, from: nat, left: bool)
    requires from <= |b|
  {
    left <==> !Starts(b, from)
  }

  lemma RejectedIsBad(m: Matcher, b: string, i: nat, from: nat, left: bool, tok: string)
    requires from <= i && OccursAt(tok, b, i) && Told(b, from, left)
    ensures Rejected(m, b, i, LeftOf(b, i, from, left), tok) <==> !Good(m, b, i, tok)
  {
    hide IsIdChar;
    if i > 0 { WordChars(b[i - 1]); }
    if i + |tok| < |b| { WordChars(b[i + |tok|]); }
  }

  /** Inside an occurrence of a word nothing starts. */
  lemma InsideWord(b: string, c: nat, tok: string, i: int)
    requires Word(tok) && TokenAt(tok, b, c) && c < i <= c + |tok|
    ensures !Starts(b, i)
  {
    assert b[i - 1] == b[c..c + |tok|][i - 1 - c] == tok[i - 1 - c];
  }

  lemma WordEnd(tok: string)
    requires Word(tok)
    ensures IsIdChar(Last(tok))
  {
    WordChars(Last(tok));
  }

  lemma {:induction false} MatchIsFirst(m: Matcher, b: string, from: nat, left: bool, tok: string)
    requires m.LooksLeft() && Word(tok) && from <= |b| && Told(b, from, left)
    ensures var r := Match(m, b, from, left, tok);
            && (r == NONE || Good(m, b, r, tok))
            && (forall i :: from <= i && (r == NONE || i < r) ==> !Good(m, b, i, tok))
    decreases |b| - from
  {
    hide StrStr, Match, Rejected, LeftOf, Starts, Ends, InWord, IsIdChar;
    MatchStep(m, b, from, left, tok);
    var c := StrStr(b, from, tok);
    assert forall i :: Good(m, b, i, tok) ==> OccursAt(tok, b, i);
    if c != NONE {
      RejectedIsBad(m, b, c, from, left, tok);
      if !Good(m, b, c, tok) {
        WordEnd(tok);
        InsideWord(b, c, tok, c + |tok|);
        MatchIsFirst(m, b, c + |tok|, true, tok);
        forall i | c < i < c + |tok| ensures !Good(m, b, i, tok) {
          InsideWord(b, c, tok, i);
        }
      }
    }
  }

  /** The sites of a matcher that looks left are all the places that pass. */
  lemma {:induction false} SitesAreGood(m: Matcher, b: string, from: nat, left: bool, tok: string, i: nat)
    requires m.LooksLeft() && Word(tok) && from <= |b| && Told(b, from, left)
    ensures i in Sites(Search(m, false), b, from, left, tok, true, false) <==> from <= i && Good(m, b, i, tok)
    decreases |b| - from
  {
    hide Sites, Match, Starts, Ends, InWord;
    SitesStep(Search(m, false), b, from, left, tok, true, false);
    MatchIsFirst(m, b, from, left, tok);
    var c := Match(m, b, from, left, tok);
    if c != NONE {
      InsideWord(b, c, tok, c + |tok|);
      SitesAreGood(m, b, c + |tok|, true, tok, i);
      if c < i < c + |tok| { InsideWord(b, c, tok, i); }
    }
  }

  // ----- in order, and one only

  /** In order, each behind the end of the one before. */
  ghost predicate InOrder(places: seq<nat>, k: nat) {
    forall i, j :: 0 <= i < j < |places| ==> places[i] + k <= places[j]
  }

  lemma {:induction false} SpacedInOrder(places: seq<nat>, from: nat, b: string, k: nat)
    requires Spaced(places, from, b, k)
    ensures InOrder(places, k) && forall i :: 0 <= i < |places| ==> from <= places[i]
    decreases |places|
  {
    if places != [] {
      SpacedInOrder(places[1..], places[0] + k, b, k);
      assert forall i :: 0 < i < |places| ==> places[i] == places[1..][i - 1];
    }
  }

  lemma PlacesInOrder(f: Search, b: string, tok: string, rep: string, once: bool)
    requires tok != ""
    ensures InOrder(Places(f, b, tok, rep, once), |tok|)
  {
    PlacesSpaced(f, b, tok, rep, once);
    SpacedInOrder(Places(f, b, tok, rep, once), 0, b, |tok|);
  }

  /** DOH_REPLACE_FIRST takes the first of the places that are taken without it. */
  lemma FirstOnly(f: Search, b: string, tok: string, rep: string)
    requires tok != ""
    ensures var all := Places(f, b, tok, rep, false);
            Places(f, b, tok, rep, true) == if all == [] then [] else [all[0]]
  {
    hide Find;
    SitesStep(f, b, 0, false, tok, SeenByCode(tok, rep), false);
    SitesStep(f, b, 0, false, tok, SeenByCode(tok, rep), true);
  }

  // ----- the flags

  /** Bit 0x20 over 0x10 over 0x04 select the matcher, bit 0x02 spares quotes. */
  lemma FlagBits(flags: bv8)
    ensures SearchOf(flags).noquote <==> flags & 0x02 != 0
    ensures flags & 0x20 != 0 ==> SearchOf(flags).m == IdEnd
    ensures flags & 0x20 == 0 && flags & 0x10 != 0 ==> SearchOf(flags).m == IdBegin
    ensures flags & 0x20 == 0 && flags & 0x10 == 0 && flags & 0x04 != 0 ==> SearchOf(flags).m == Identifier
    ensures flags & 0x20 == 0 && flags & 0x10 == 0 && flags & 0x04 == 0 ==> SearchOf(flags).m == Simple
  {
  }

  /** Away from quotes, and where the left neighbour is seen rightly, the places are those of the original text. */
  lemma PlacesAreRight(m: Matcher, b: string, tok: string, rep: string)
    requires tok != "" && Faithful(m, tok, rep)
    ensures var f := Search(m, false);
            Places(f, b, tok, rep, false) == Sites(f, b, 0, false, tok, IsIdChar(Last(tok)), false)
  {
    hide Find, Sites, GrownSites, CopySearch, Faithful, SeenByCode;
    if |rep| <= |tok| {
      FaithfulSites(Search(m, false), b, 0, false, tok, rep, false);
    } else {
      GrownIsRight(Search(m, false), b, tok, false);
    }
  }

  lemma GoodPlaces(m: Matcher, b: string, tok: string, rep: string)
    requires m.LooksLeft() && Word(tok) && Faithful(m, tok, rep)
    ensures forall i: nat :: i in Places(Search(m, false), b, tok, rep, false) <==> Good(m, b, i, tok)
  {
    hide Places, Sites, Good, IsIdChar, Faithful, InWord;
    PlacesAreRight(m, b, tok, rep);
    WordEnd(tok);
    forall i: nat ensures i in Places(Search(m, false), b, tok, rep, false) <==> Good(m, b, i, tok) {
      SitesAreGood(m, b, 0, false, tok, i);
    }
  }

  /** DOH_REPLACE_ID: for a token spelled of letters, digits and underscores, the places are exactly the identifiers of
      the text that equal it, whatever the replacement. */
  lemma ReplacesIdentifiers(flags: bv8, b: string, tok: string, rep: string)
    requires flags & 0x20 == 0 && flags & 0x10 == 0 && flags & 0x04 != 0 && flags & 0x02 == 0
    requires Word(tok)
    ensures var places := Places(SearchOf(flags), b, tok, rep, false);
            && InOrder(places, |tok|)
            && (forall i: nat :: i in places <==> IsIdentifier(b, i, i + |tok|) && b[i..i + |tok|] == tok)
  {
    hide Places, InWord, IsIdChar;
    FlagBits(flags);
    var f := SearchOf(flags);
    WordChars(tok[0]);
    GoodPlaces(Identifier, b, tok, rep);
    PlacesInOrder(f, b, tok, rep, false);
    forall i: nat ensures Good(Identifier, b, i, tok) <==> IsIdentifier(b, i, i + |tok|) && b[i..i + |tok|] == tok {
      if TokenAt(tok, b, i) {
        assert forall k :: i <= k < i + |tok| ==> b[k] == b[i..i + |tok|][k - i] == tok[k - i];
      }
    }
  }

  /** DOH_REPLACE_ID_BEGIN: exactly the places where an identifier of the text starts and the token stands -- unless
      the replacement is as long as the token and does not end in a letter, digit or underscore. */
  lemma ReplacesBeginnings(flags: bv8, b: string, tok: string, rep: string)
    requires flags & 0x20 == 0 && flags & 0x10 != 0 && flags & 0x02 == 0
    requires Word(tok) && (|rep| != |tok| || InWord(rep[|rep| - 1]))
    ensures var places := Places(SearchOf(flags), b, tok, rep, false);
            && InOrder(places, |tok|)
            && (forall i: nat :: i in places <==> TokenAt(tok, b, i) && Starts(b, i))
  {
    hide Places, InWord, IsIdChar;
    FlagBits(flags);
    var f := SearchOf(flags);
    WordEnd(tok);
    if |rep| == |tok| { WordChars(rep[|rep| - 1]); }
    GoodPlaces(IdBegin, b, tok, rep);
    PlacesInOrder(f, b, tok, rep, false);
    assert forall i: nat :: Good(IdBegin, b, i, tok) <==> TokenAt(tok, b, i) && Starts(b, i);
  }

  // ----- plain search, and the ends of identifiers

  lemma RejectedByEnd(b: string, i: nat, left: bool, tok: string)
    requires i + |tok| <= |b|
    ensures Rejected(IdEnd, b, i, left, tok) <==> !Ends(b, i + |tok|)
    ensures !Rejected(Simple, b, i, left, tok)
  {
    hide IsIdChar, InWord;
    if i + |tok| < |b| { WordChars(b[i + |tok|]); }
  }

  /** The plain matcher's places with an identifier ending there are the places of the one that looks right. */
  lemma {:induction false} EndSites(b: string, from: nat, left: bool, left': bool, tok: string, seen: bool, i: nat)
    requires tok != "" && from <= |b|
    ensures i in Sites(Search(IdEnd, false), b, from, left, tok, seen, false) <==>
            i in Sites(Search(Simple, false), b, from, left', tok, seen, false) && i + |tok| <= |b| && Ends(b, i + |tok|)
    decreases |b| - from
  {
    hide Sites, StrStr, Match, InWord, IsIdChar, Ends, Rejected, LeftOf;
    var c := StrStr(b, from, tok);
    MatchStep(IdEnd, b, from, left, tok);
    MatchStep(Simple, b, from, left', tok);
    SitesStep(Search(IdEnd, false), b, from, left, tok, seen, false);
    SitesStep(Search(Simple, false), b, from, left', tok, seen, false);
    if c != NONE {
      RejectedByEnd(b, c, LeftOf(b, c, from, left), tok);
      RejectedByEnd(b, c, LeftOf(b, c, from, left'), tok);
      if Ends(b, c + |tok|) {
        EndSites(b, c + |tok|, seen, seen, tok, seen, i);
      } else {
        EndSites(b, c + |tok|, IsIdChar(Last(tok)), seen, tok, seen, i);
        SitesStep(Search(IdEnd, false), b, c + |tok|, IsIdChar(Last(tok)), tok, seen, false);
      }
    }
  }

  /** No flag bit but ANY: the occurrences of the token that no earlier place overlaps. */
  lemma ReplacesLeftmost(flags: bv8, b: string, tok: string, rep: string)
    requires flags & 0x20 == 0 && flags & 0x10 == 0 && flags & 0x04 == 0 && flags & 0x02 == 0
    requires tok != ""
    ensures var places := Places(SearchOf(flags), b, tok, rep, false);
            && InOrder(places, |tok|)
            && (forall i: nat :: i in places <==>
                  TokenAt(tok, b, i) && !(exists c: nat :: c in places && c < i < c + |tok|))
  {
    hide Places, Sites, IsIdChar, Find;
    FlagBits(flags);
    var f := SearchOf(flags);
    PlacesInOrder(f, b, tok, rep, false);
    PlacesAreRight(Simple, b, tok, rep);
    var places := Places(f, b, tok, rep, false);
    forall i: nat ensures i in places <==> TokenAt(tok, b, i) && !(exists c: nat :: c in places && c < i < c + |tok|) {
      if i in places {
        PlaceIsToken(Simple, b, tok, i);
        NotInside(places, |tok|, i);
      } else if TokenAt(tok, b, i) {
        var j := SimpleMissesNothing(b, 0, false, tok, IsIdChar(Last(tok)), i);
        assert places[j] in places && places[j] < i < places[j] + |tok|;
      }
    }
  }

  lemma NotInside(places: seq<nat>, k: nat, i: nat)
    requires InOrder(places, k) && i in places
    ensures !(exists c: nat :: c in places && c < i < c + k)
  {
    var n :| 0 <= n < |places| && places[n] == i;
    assert forall l :: 0 <= l < n ==> places[l] + k <= places[n];
  }

  lemma PlaceIsToken(m: Matcher, b: string, tok: string, i: nat)
    requires tok != "" && i in Sites(Search(m, false), b, 0, false, tok, IsIdChar(Last(tok)), false)
    ensures TokenAt(tok, b, i)
  {
    hide Sites, IsIdChar;
    var sites := Sites(Search(m, false), b, 0, false, tok, IsIdChar(Last(tok)), false);
    var j :| 0 <= j < |sites| && sites[j] == i;
    SitesMeaning(Search(m, false), b, 0, false, tok, IsIdChar(Last(tok)), false, j);
  }

  /** The token cannot overlap itself. */
  ghost predicate Borderless(tok: string) {
    forall d :: 0 < d < |tok| ==> tok[d..] != tok[..|tok| - d]
  }

  lemma OverlapIsBorder(b: string, tok: string, c: nat, i: nat)
    requires TokenAt(tok, b, c) && TokenAt(tok, b, i) && c < i < c + |tok|
    ensures !Borderless(tok)
  {
    var d := i - c;
    assert tok[d..] == b[c..c + |tok|][d..] == b[i..c + |tok|];
    assert tok[..|tok| - d] == b[i..i + |tok|][..|tok| - d] == b[i..c + |tok|];
  }

  /** DOH_REPLACE_ID_END: of the places the plain search takes, those where an identifier of the text ends with the
      token; for a token that cannot overlap itself, all places where one does. */
  lemma ReplacesEndings(flags: bv8, plain: bv8, b: string, tok: string, rep: string)
    requires flags & 0x20 != 0 && flags & 0x02 == 0
    requires plain & 0x20 == 0 && plain & 0x10 == 0 && plain & 0x04 == 0 && plain & 0x02 == 0
    requires tok != ""
    ensures var places, all := Places(SearchOf(flags), b, tok, rep, false), Places(SearchOf(plain), b, tok, rep, false);
            && InOrder(places, |tok|)
            && (forall i: nat :: i in places <==> i in all && TokenAt(tok, b, i) && Ends(b, i + |tok|))
            && (Borderless(tok) ==> forall i: nat :: i in places <==> TokenAt(tok, b, i) && Ends(b, i + |tok|))
  {
    hide Places, Sites, IsIdChar, Find, InWord;
    FlagBits(flags);
    FlagBits(plain);
    PlacesInOrder(SearchOf(flags), b, tok, rep, false);
    PlacesAreRight(IdEnd, b, tok, rep);
    PlacesAreRight(Simple, b, tok, rep);
    ReplacesLeftmost(plain, b, tok, rep);
    var places, all := Places(SearchOf(flags), b, tok, rep, false), Places(SearchOf(plain), b, tok, rep, false);
    forall i: nat ensures i in places <==> i in all && TokenAt(tok, b, i) && Ends(b, i + |tok|) {
      EndSites(b, 0, false, false, tok, IsIdChar(Last(tok)), i);
    }
    if Borderless(tok) {
      forall i: nat | TokenAt(tok, b, i) ensures i in all {
        if c: nat :| c in all && c < i < c + |tok| {
          OverlapIsBorder(b, tok, c, i);
        }
      }
    }
  }

  /** A token that overlaps itself can be missed: in "ababa" the candidate at 0 is turned down, and hides the one at 2. */
  lemma EndingMissed(rep: string)
    ensures Places(SearchOf(0x20), "ababa", "aba", rep, false) == [] && TokenAt("aba", "ababa", 2) && Ends("ababa", 5)
  {
    hide Places, Ends;
    var b, tok := "ababa", "aba";
    ReplacesEndings(0x20, 0x01, b, tok, rep);
    ReplacesLeftmost(0x01, b, tok, rep);
    var places, all := Places(SearchOf(0x20), b, tok, rep, false), Places(SearchOf(0x01), b, tok, rep, false);
    AbaInAbaba();
    assert 0 in all;
    assert 2 !in all;
    Inhabited(places);
  }

  lemma Inhabited(places: seq<nat>)
    ensures places != [] ==> exists i: nat :: i in places
  {
    if places != [] { assert places[0] in places; }
  }

  lemma AbaInAbaba()
    ensures TokenAt("aba", "ababa", 0) && !TokenAt("aba", "ababa", 1) && TokenAt("aba", "ababa", 2)
    ensures !Ends("ababa", 3) && Ends("ababa", 5)
  {
    WordChars('b');
    assert "ababa"[1..4][0] == 'b';
  }

  // ----- quotes

  /** A stretch in quotes, double or single: it ends at the first quote of its kind that no backslash precedes, and
      nothing in front of it is quoted. */
  lemma QuotedStretch(pre: string, qc: char, body: string, post: string)
    requires qc == '"' || qc == '\''
    requires '"' !in pre && '\'' !in pre && '\n' !in body
    requires forall k :: 0 <= k < |body| && body[k] == qc ==> k > 0 && body[k - 1] == '\\'
    requires body == "" || body[|body| - 1] != '\\'
    ensures var b, open := pre + [qc] + body + [qc] + post, |pre|;
            && QuoteAt(b, open) && EndQuote(b, open) == open + 1 + |body|
            && (forall i :: open <= i <= open + 1 + |body| ==> InQuotes(b, 0, i))
            && (forall i: nat :: i < open ==> !InQuotes(b, 0, i))
  {
    var b, open, close := pre + [qc] + body + [qc] + post, |pre|, |pre| + 1 + |body|;
    assert b[open] == qc && b[close] == qc;
    assert forall k :: 0 <= k < open ==> b[k] == pre[k];
    assert forall k :: open < k < close ==> b[k] == body[k - open - 1];
    StretchEnd(b, open, close);
    FirstOfFrom(IsQuote, b, 0, open);
  }

  lemma StretchEnd(b: string, open: nat, close: nat)
    requires QuoteAt(b, open) && open < close < |b| && b[close] == b[open] && b[close - 1] != '\\'
    requires forall k :: open < k < close ==> b[k] != '\n' && (b[k] == b[open] ==> k > open + 1 && b[k - 1] == '\\')
    requires b[open] == '"' || b[open] == '\''
    ensures EndQuote(b, open) == close
  {
    hide EndQuote;
    EndQuoteMeans(b, open);
    assert b[close] != '\n';
    assert Closes(b, open, close);
  }
}
