/** `replace_simple` and `String_replace` of Source/DOH/string.c on a string object. */
module Replace {
  import opened Scan
  import opened Substitution
  import opened QuotedSites
  import opened GrowingSites
  import opened FindPlaces
  import opened InPlace
  import opened Growing
  import opened StringHash
  import opened StringObject

  // ----- the outcome

  /** The places `replace_simple` replaces. */
  ghost function Places(f: Search, b: string, tok: string, rep: string, once: bool): seq<nat>
    requires tok != ""
  {
    if |rep| <= |tok| then Sites(f, b, 0, false, tok, SeenByCode(tok, rep), once) else GrownSites(f, b, tok, once)
  }

  lemma PlacesSpaced(f: Search, b: string, tok: string, rep: string, once: bool)
    requires tok != ""
    ensures Spaced(Places(f, b, tok, rep, once), 0, b, |tok|)
  {
    if |rep| <= |tok| {
      SitesAreSpaced(f, b, 0, false, tok, SeenByCode(tok, rep), once);
    } else {
      GrownSpaced(f, b, tok, once);
    }
  }

  /** The text it leaves. */
  ghost function Replaced(f: Search, b: string, tok: string, rep: string, once: bool): string
    requires tok != ""
  {
    PlacesSpaced(f, b, tok, rep, once);
    Weave(b, 0, Places(f, b, tok, rep, once), |tok|, rep)
  }

  function Expansion(rcount: nat, tok: string, rep: string): (e: int)
    ensures |rep| <= |tok| ==> e <= 0
    ensures |tok| < |rep| && 0 < rcount ==> 0 < e
  {
    MulSign(rcount, |rep| - |tok|);
    rcount * (|rep| - |tok|)
  }

  lemma MulSign(n: nat, d: int)
    ensures d <= 0 ==> n * d <= 0
    ensures 0 < n && 0 < d ==> 0 < n * d
  {
  }

  lemma ReplacedFacts(f: Search, b: string, tok: string, rep: string, once: bool)
    requires tok != ""
    ensures var n := |Places(f, b, tok, rep, once)|;
            && |Replaced(f, b, tok, rep, once)| == |b| + Expansion(n, tok, rep)
            && (Find(f, b, 0, false, tok) == NONE <==> n == 0)
            && (n == 0 ==> Replaced(f, b, tok, rep, once) == b)
            && (once ==> n <= 1)
    ensures |rep| <= |tok| ==> Replaced(f, b, tok, rep, once) == Rest(f, b, 0, false, tok, rep, SeenByCode(tok, rep), once)
    ensures |rep| > |tok| ==> Replaced(f, b, tok, rep, once) == GrownText(f, b, tok, rep, once)
  {
    hide Find, Sites, Weave, GrownSites;
    PlacesSpaced(f, b, tok, rep, once);
    WeaveLength(b, 0, Places(f, b, tok, rep, once), |tok|, rep);
    SitesStep(f, b, 0, false, tok, SeenByCode(tok, rep), once);
    GrownNone(f, b, tok, rep, once);
    NoMoreThanOne(f, b, tok, once);
    WeaveNil(b, 0, |tok|, rep);
    assert b[0..] == b;
  }

  /** What is replaced is right when the code sees the left neighbour rightly and, in a growing text, still looks for
      quotes when it copies. */
  lemma RightReplacement(f: Search, b: string, tok: string, rep: string, once: bool)
    requires tok != "" && Faithful(f.m, tok, rep)
    requires |rep| <= |tok| || once || !f.noquote || CopySearch(f, b, tok).noquote
    ensures Replaced(f, b, tok, rep, once) == Substituted(f, b, tok, rep, once)
  {
    hide Find, Sites, Weave, GrownSites, CopySearch, Faithful, SeenByCode;
    if |rep| <= |tok| {
      FaithfulSites(f, b, 0, false, tok, rep, once);
    } else {
      GrownIsRight(f, b, tok, once);
    }
  }

  /** Where the cursor goes: it moves with the end only when it stands at or behind it -- behind the NEW end when
      the text shrinks. */
  function CursorAfter(sp: int, oldlen: int, newlen: int): int {
    if sp >= (if newlen <= oldlen then newlen else oldlen) then sp + (newlen - oldlen) else sp
  }

  /** With `n` places substituted, each taking `d` characters from the text, the cursor stays inside the text exactly
      when it stood before the new end or at least the lost length behind the start. */
  predicate CursorSafe(sp: int, len: int, n: nat, d: int) {
    n == 0 || sp < len - n * d || n * d <= sp
  }

  lemma CursorStaysInside(f: Search, b: string, tok: string, rep: string, once: bool, sp: int)
    requires tok != "" && 0 <= sp <= |b|
    ensures var n, newlen := |Places(f, b, tok, rep, once)|, |Replaced(f, b, tok, rep, once)|;
            0 <= (if n == 0 then sp else CursorAfter(sp, |b|, newlen)) <= newlen <==> CursorSafe(sp, |b|, n, |tok| - |rep|)
  {
    hide Places, Replaced, Rest, GrownText, Find;
    ReplacedFacts(f, b, tok, rep, once);
    Opposite(|Places(f, b, tok, rep, once)|, |tok|, |rep|);
  }

  lemma Opposite(n: nat, k: nat, r: nat)
    ensures n * (r - k) == -(n * (k - r)) && (r >= k ==> n * (k - r) <= 0)
  {
    MulSign(n, k - r);
  }

  /** Removing the whole of "ab" with the cursor at the start leaves it at -2. */
  lemma CursorCanLeave()
    ensures Replaced(Search(Simple, false), "ab", "ab", "", false) == "" && CursorAfter(0, 2, 0) == -2
  {
    hide Find, Sites, Weave;
    var f := Search(Simple, false);
    assert Find(f, "ab", 0, false, "ab") == 0 && Find(f, "ab", 2, true, "ab") == NONE by { AbMatches(); }
    SitesStep(f, "ab", 0, false, "ab", true, false);
    SitesStep(f, "ab", 2, true, "ab", true, false);
    var nil: seq<nat> := [];
    WeaveNil("ab", 2, 2, "");
    WeaveStep("ab", 0, 0, nil, 2, "");
    assert [0] + nil == [0];
  }

  lemma AbMatches()
    ensures var f := Search(Simple, false); Find(f, "ab", 0, false, "ab") == 0 && Find(f, "ab", 2, true, "ab") == NONE
  {
    assert OccursAt("ab", "ab", 0);
    assert Match(Simple, "ab", 0, false, "ab") == 0;
    assert Match(Simple, "ab", 2, true, "ab") == NONE;
  }

  // ----- the code

  method ReplaceSimple(str: DohString, tok: string, rep: string, f: Search, once: bool) returns (rcount: nat)
    requires str.Valid() && str.Backed()
    requires NUL !in str.text && NUL !in tok && NUL !in rep
    modifies str, str.str
    ensures str.Valid() && str.Backed() && (str.str == old(str.str) || fresh(str.str))
    ensures tok == "" ==> rcount == 0 && str.text == old(str.text)
    ensures tok != "" ==>
              && str.text == Replaced(f, old(str.text), tok, rep, once)
              && rcount == |Places(f, old(str.text), tok, rep, once)|
    ensures str.line == old(str.line)
    ensures str.sp == if rcount == 0 then old(str.sp) else CursorAfter(old(str.sp), old(str.len), str.len)
    ensures tok != "" && old(str.CursorIn()) ==>
              (str.CursorIn() <==> CursorSafe(old(str.sp), old(str.len), rcount, |tok| - |rep|))
  {
    hide Find, First, HashOf, Places, Replaced, Rest, Count, GrownText, GrownSites, Finished, Expansion, Layout, CursorSafe,
         Watching;
    if |tok| == 0 { return 0; }
    ghost var b := str.text;
    if str.CursorIn() { CursorStaysInside(f, b, tok, rep, once, str.sp); }
    assert str.str[..str.len] == b;
    ReplacedFacts(f, b, tok, rep, once);
    PlacesCount(f, b, tok, rep, once);
    AtStart(f, b, 0);
    var first, noquote := FindNext(str.str, str.len, f.m, 0, tok, f.noquote);
    if first == NONE { return 0; }
    StillWatching(f, b, 0, false, tok, f.noquote);
    str.hashkey := -1;
    ghost var total := Replaced(f, b, tok, rep, once);
    if |rep| - |tok| <= 0 {
      rcount := ReplaceInPlace(str.str, str.len, f, tok, rep, once, first, noquote);
      Shrink(str, Expansion(rcount, tok, rep), total);
    } else {
      var ns;
      ns, rcount := ReplaceGrowing(str.str, str.len, str.maxsize, f, tok, rep, once, first, noquote);
      Adopt(str, ns, Expansion(rcount, tok, rep), total);
    }
  }

  lemma PlacesCount(f: Search, b: string, tok: string, rep: string, once: bool)
    requires tok != ""
    ensures |rep| <= |tok| ==> |Places(f, b, tok, rep, once)| == Count(f, b, 0, false, tok, SeenByCode(tok, rep), once)
    ensures |rep| > |tok| ==> Places(f, b, tok, rep, once) == GrownSites(f, b, tok, once)
  {
    hide Sites, GrownSites;
  }

  /** The bookkeeping behind the in-place pass. */
  method Shrink(str: DohString, expand: int, ghost total: string)
    requires expand <= 0 && 0 <= str.len + expand && str.len < str.str.Length && str.Backed()
    requires str.hashkey < 0 && |total| == str.len + expand && Finished(str.str[..], total, str.len)
    modifies str`len, str`sp, str`text, str.str
    ensures str.Valid() && str.Backed() && str.len == old(str.len) + expand && str.text == total
    ensures str.sp == CursorAfter(old(str.sp), old(str.len), str.len)
  {
    str.text := total;
    str.len := str.len + expand;
    assert str.str[..][..str.len] == str.str[..str.len];
    str.str[str.len] := NUL;
    if str.sp >= str.len { str.sp := str.sp + expand; }
  }

  /** The bookkeeping behind the growing path. */
  method Adopt(str: DohString, ns: array<char>, expand: int, ghost total: string)
    requires 0 < expand && 0 <= str.len && ns != str.str && str.hashkey < 0
    requires |total| == str.len + expand < ns.Length && ns[..|total|] == total
    modifies str, ns
    ensures str.Valid() && str.Backed() && str.str == ns && str.len == old(str.len) + expand && str.text == total
    ensures str.sp == CursorAfter(old(str.sp), old(str.len), str.len) && str.line == old(str.line)
  {
    str.text := total;
    str.str := ns;
    if str.sp >= str.len { str.sp := str.sp + expand; }
    str.len := str.len + expand;
    str.str[str.len] := NUL;
    str.maxsize := ns.Length;
  }

  const DOH_REPLACE_NOQUOTE: bv8 := 0x02
  const DOH_REPLACE_ID: bv8 := 0x04
  const DOH_REPLACE_FIRST: bv8 := 0x08
  const DOH_REPLACE_ID_BEGIN: bv8 := 0x10
  const DOH_REPLACE_ID_END: bv8 := 0x20

  function MatcherOf(flags: bv8): Matcher {
    if flags & DOH_REPLACE_ID_END != 0 then IdEnd
    else if flags & DOH_REPLACE_ID_BEGIN != 0 then IdBegin
    else if flags & DOH_REPLACE_ID != 0 then Identifier
    else Simple
  }

  function SearchOf(flags: bv8): Search {
    Search(MatcherOf(flags), flags & DOH_REPLACE_NOQUOTE != 0)
  }

  /** `String_replace`, by its flag bits: the text, the count and the cursor.  Where `Faithful` holds -- with token and
      replacement of different length always -- the text is the plain substitution, unless it grows and the counting
      has passed over its last quote.  Under FIRST at most one site is rewritten. */
  method StringReplace(str: DohString, tok: string, rep: string, flags: bv8) returns (rcount: nat)
    requires str.Valid() && str.Backed()
    requires NUL !in str.text && NUL !in tok && NUL !in rep
    modifies str, str.str
    ensures str.Valid() && str.Backed() && (str.str == old(str.str) || fresh(str.str))
    ensures tok == "" ==> rcount == 0 && str.text == old(str.text)
    ensures var f, once, b := SearchOf(flags), flags & 0x08 != 0, old(str.text);
            tok != "" ==>
              && str.text == Replaced(f, b, tok, rep, once)
              && rcount == |Places(f, b, tok, rep, once)|
              && (Faithful(f.m, tok, rep) && (|rep| <= |tok| || once || !f.noquote || CopySearch(f, b, tok).noquote) ==>
                    str.text == Substituted(f, b, tok, rep, once))
              && (old(str.CursorIn()) ==>
                    (str.CursorIn() <==> CursorSafe(old(str.sp), old(str.len), rcount, |tok| - |rep|)))
    ensures flags & 0x08 != 0 ==> rcount <= 1
    ensures str.len == old(str.len) + Expansion(rcount, tok, rep) && str.line == old(str.line)
    ensures str.sp == if rcount == 0 then old(str.sp) else CursorAfter(old(str.sp), old(str.len), str.len)
  {
    hide Find, Places, Replaced, Rest, GrownText, HashOf, Substituted, Faithful, CopySearch, CursorSafe, CursorAfter;
    var f, once := SearchOf(flags), flags & DOH_REPLACE_FIRST != 0;
    ghost var b := str.text;
    rcount := ReplaceSimple(str, tok, rep, f, once);
    if tok != "" {
      ReplacedFacts(f, b, tok, rep, once);
      if Faithful(f.m, tok, rep) && (|rep| <= |tok| || once || !f.noquote || CopySearch(f, b, tok).noquote) {
        RightReplacement(f, b, tok, rep, once);
      }
    }
  }
}
