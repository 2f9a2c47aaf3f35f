/** The statistics file of the compiler cache (CCache/stats.c): 32-bit counters written as text over whatever the file
    held before, and never truncated.
 */
module Stats {
  import Ascii
  import opened Scan
  import opened Wrappers
  import opened Snprintf
  import opened Format
  import opened Printer

  const STATS_TOCACHE: nat := 4
  const STATS_NUMFILES: nat := 11
  const STATS_TOTALSIZE: nat := 12
  const STATS_MAXFILES: nat := 13
  const STATS_MAXSIZE: nat := 14
  const STATS_END: nat := 23

  const DEFAULT_MAXSIZE: nat := 1000 * 1000

  ghost predicate Counters(cs: seq<nat>) {
    |cs| == STATS_END && forall k :: 0 <= k < STATS_END ==> cs[k] < TWO32
  }

  function Zeroed(): (cs: seq<nat>)
    ensures Counters(cs) && forall k :: 0 <= k < STATS_END ==> cs[k] == 0
  {
    seq(STATS_END, _ => 0)
  }

  // ----- what the file says

  datatype Conversion = Conversion(value: int, n: nat)

  /** strtol in base ten: blanks, a sign, digits; out of range it stays at the limit of a `long`. */
  function Strtol(s: Text, longMax: nat): (c: Conversion)
    ensures c.n <= |s|
  {
    var i := Span(Space, s, 0);
    var signed := i < |s| && s[i] in "+-";
    var j := if signed then i + 1 else i;
    var e := Span(Digit, s, j);
    if e == j then Conversion(0, 0)
    else
      var u := Decode(s[j..e], 10);
      Conversion(if signed && s[i] == '-' then -Min(u, longMax + 1) else Min(u, longMax), e)
  }

  /** parse_stats from counter `i` on: it stops where there is no number. */
  function ParseFrom(cs: seq<nat>, i: nat, s: Text, longMax: nat): (r: seq<nat>)
    requires |cs| == STATS_END && i <= STATS_END
    ensures |r| == STATS_END
    decreases STATS_END - i
  {
    if i == STATS_END then cs
    else
      var c := Strtol(s, longMax);
      var cs' := cs[i := (cs[i] + c.value) % TWO32];
      if c.n == 0 then cs' else ParseFrom(cs', i + 1, s[c.n..], longMax)
  }

  function TextFrom(cs: seq<nat>, i: nat): Text
    requires i <= |cs|
    decreases |cs| - i
  {
    if i == |cs| then "\n" else Numeral(cs[i], 10, false) + " " + TextFrom(cs, i + 1)
  }

  /** write at offset 0, without truncation */
  function Overwrite(content: Text, t: Text): Text {
    if |t| >= |content| then t else t + content[|t|..]
  }

  /** The most stats_read_fd takes in. */
  const READ_MAX: nat := 1023

  /** The counters a file stands for, read into zeroed ones. */
  function Counts(content: Text, longMax: nat): (cs: seq<nat>)
    ensures |cs| == STATS_END
  {
    if content == [] then Zeroed()[STATS_MAXSIZE := DEFAULT_MAXSIZE / 16]
    else ParseFrom(Zeroed(), 0, content[..Min(|content|, READ_MAX)], longMax)
  }

  // ----- round trip

  lemma {:induction false} NumeralIsDigits(u: nat)
    ensures AllDigits(Numeral(u, 10, false))
    decreases u
  {
    hide DigitChar, Digit, AllDigits;
    TenDigits(u % 10);
    if u >= 10 {
      NumeralIsDigits(u / 10);
      DigitsSnoc(Numeral(u / 10, 10, false), DigitChar(u % 10, false));
    } else {
      assert u % 10 == u;
      DigitsSnoc([], DigitChar(u, false));
      assert [] + [DigitChar(u, false)] == [DigitChar(u, false)];
    }
  }

  lemma DigitsSnoc(t: Text, d: char)
    requires Digit(d) && (t == [] || AllDigits(t))
    ensures AllDigits(t + [d])
  {
    hide Digit;
  }

  lemma TenDigits(v: nat)
    requires v < 10
    ensures Digit(DigitChar(v, false))
  {
    assert DigitChar(v, false) == "0123456789"[v];
  }

  /** A written counter is read back, up to the limit of a `long`, whatever follows it. */
  lemma StrtolReads(blank: Text, u: nat, rest: Text, longMax: nat)
    requires blank == "" || blank == " "
    requires rest != [] && !Digit(rest[0])
    ensures Strtol(blank + Numeral(u, 10, false) + rest, longMax)
         == Conversion(Min(u, longMax), |blank| + |Numeral(u, 10, false)|)
  {
    hide Numeral, Decode;
    var t := Numeral(u, 10, false);
    var s := blank + t + rest;
    var i, e := |blank|, |blank| + |t|;
    NumeralIsDigits(u);
    NumeralDecodes(u, 10, false);
    assert s[i] == t[0] && Digit(t[0]);
    SpanAll(Space, s, 0, i);
    forall k | i <= k < e ensures Digit(s[k]) { assert s[k] == t[k - i]; }
    SpanAll(Digit, s, i, e);
    assert s[i..e] == t;
  }

  /** strtol: past the blanks, a sign if there is one, then all the digits that follow; the number they stand for, within
      the limits of a `long`, and how far it goes.  Without a digit nothing is read. */
  lemma StrtolMeans(s: Text, longMax: nat) returns (i: nat, j: nat, e: nat)
    ensures i <= j <= e <= |s|
    ensures (forall k :: 0 <= k < i ==> s[k] in Ascii.BLANKS) && (i < |s| ==> s[i] !in Ascii.BLANKS)
    ensures j == if i < |s| && (s[i] == '+' || s[i] == '-') then i + 1 else i
    ensures (forall k :: j <= k < e ==> s[k] in Ascii.DIGITS) && (e < |s| ==> s[e] !in Ascii.DIGITS)
    ensures var u := Decode(s[j..e], 10);
            Strtol(s, longMax) ==
            if e == j then Conversion(0, 0)
            else Conversion(if s[i] == '-' then -Min(u, longMax + 1) else Min(u, longMax), e)
  {
    hide Decode, Span;
    forall c ensures (Digit(c) <==> c in Ascii.DIGITS) && (Space(c) <==> c in Ascii.BLANKS) {
      Ascii.Digits(c);
      Ascii.Blanks(c);
    }
    hide Digit, Space;
    i := Span(Space, s, 0);
    SpanMeaning(Space, s, 0);
    j := if i < |s| && (s[i] == '+' || s[i] == '-') then i + 1 else i;
    e := Span(Digit, s, j);
    SpanMeaning(Digit, s, j);
    assert j == i && i < e ==> s[i] in Ascii.DIGITS;
  }

  /** A file that is empty, or missing, stands for a size limit of 62500 in counter 14, and zeros elsewhere. */
  lemma EmptyFile(longMax: nat)
    ensures Counts([], longMax) == [0, 0, 0, 0, 0, 0, 0, 0, 0, 0, 0, 0, 0, 0, 62500, 0, 0, 0, 0, 0, 0, 0, 0]
  {
  }

  lemma ParseStep(cs: seq<nat>, i: nat, s: Text, longMax: nat)
    requires |cs| == STATS_END && i < STATS_END
    ensures var c := Strtol(s, longMax);
            var cs' := cs[i := (cs[i] + c.value) % TWO32];
            ParseFrom(cs, i, s, longMax) == if c.n == 0 then cs' else ParseFrom(cs', i + 1, s[c.n..], longMax)
  {
    hide Strtol;
  }

  lemma ParseEnd(cs: seq<nat>, s: Text, longMax: nat)
    requires |cs| == STATS_END
    ensures ParseFrom(cs, STATS_END, s, longMax) == cs
  {
  }

  lemma TextStep(cs: seq<nat>, i: nat)
    requires i < |cs|
    ensures TextFrom(cs, i) == Numeral(cs[i], 10, false) + " " + TextFrom(cs, i + 1)
  {
    hide Numeral;
  }

  lemma {:induction false} ParseText(cs: seq<nat>, i: nat, acc: seq<nat>, blank: Text, junk: Text, longMax: nat)
    requires Counters(cs) && Counters(acc) && i <= STATS_END
    requires blank == "" || blank == " "
    requires forall k :: i <= k < STATS_END ==> acc[k] == 0
    ensures var r := ParseFrom(acc, i, blank + TextFrom(cs, i) + junk, longMax);
            && (forall k :: 0 <= k < i ==> r[k] == acc[k])
            && (forall k :: i <= k < STATS_END ==> r[k] == Min(cs[k], longMax))
    decreases STATS_END - i
  {
    hide Numeral, Strtol, Decode, ParseFrom, TextFrom;
    var s := blank + TextFrom(cs, i) + junk;
    if i < STATS_END {
      var t := Numeral(cs[i], 10, false);
      var rest := " " + TextFrom(cs, i + 1) + junk;
      TextStep(cs, i);
      assert s == blank + t + rest;
      StrtolReads(blank, cs[i], rest, longMax);
      assert s[|blank| + |t|..] == rest;
      ParseStep(acc, i, s, longMax);
      ParseText(cs, i + 1, acc[i := Min(cs[i], longMax)], " ", junk, longMax);
    } else {
      ParseEnd(acc, s, longMax);
    }
  }

  lemma TenPlaces(u: nat)
    requires u < TWO32
    ensures |Numeral(u, 10, false)| <= 10
  {
    hide Numeral;
    assert Power(10, 5) == 100000;
    assert Power(10, 10) == 10000000000;
    NumeralLength(u, 10, false, 10);
  }

  lemma {:induction false} TextFits(cs: seq<nat>, i: nat)
    requires Counters(cs) && i <= STATS_END
    ensures |TextFrom(cs, i)| <= 11 * (STATS_END - i) + 1
    decreases STATS_END - i
  {
    hide Numeral;
    if i < STATS_END {
      TenPlaces(cs[i]);
      TextFits(cs, i + 1);
    }
  }

  /** Counters written over any older file, longer or shorter, are read back unchanged exactly when none of them is
      beyond the limit of a `long`: always with 64 bits, up to 2^31 - 1 with 32. */
  lemma RoundTrip(cs: seq<nat>, content: Text, longMax: nat)
    requires Counters(cs)
    ensures var r := Counts(Overwrite(content, TextFrom(cs, 0)), longMax);
            && (forall k :: 0 <= k < STATS_END ==> r[k] == Min(cs[k], longMax))
            && (r == cs <==> forall k :: 0 <= k < STATS_END ==> cs[k] <= longMax)
  {
    hide Numeral, ParseFrom, TextFrom;
    TextFits(cs, 0);
    var t := TextFrom(cs, 0);
    TextNotEmpty(cs);
    var file := Overwrite(content, t);
    var seen := file[..Min(|file|, READ_MAX)];
    var junk := seen[|t|..];
    assert seen == "" + t + junk;
    ParseText(cs, 0, Zeroed(), "", junk, longMax);
  }

  lemma TextNotEmpty(cs: seq<nat>)
    ensures TextFrom(cs, 0) != []
  {
    hide Numeral;
  }

  lemma {:induction false} TextCut(cs: seq<nat>, i: nat, done: Text)
    requires i < |cs| && done + TextFrom(cs, i) == TextFrom(cs, 0)
    ensures done + (Numeral(cs[i], 10, false) + " ") + TextFrom(cs, i + 1) == TextFrom(cs, 0)
  {
    hide Numeral;
  }

  /** "%u " prints a 32-bit counter as its numeral and a blank. */
  lemma PercentU(u: nat)
    requires u < TWO32
    ensures Default("%u ", [Int(u)]) == Some(Numeral(u, 10, false) + " ")
  {
    hide Numeral, Default, Convert, Written, FlagsOf;
    var d := Directive([], Absent, false, Absent, NoLength, 'u');
    JustU(d);
    assert "%" + (Written(d) + " ") == "%u ";
    DirectiveMeaning(d, " ", [Int(u)]);
    PlainField(u);
    Blank();
  }

  lemma JustU(d: Directive)
    requires d == Directive([], Absent, false, Absent, NoLength, 'u')
    ensures Written(d) == "u" && FlagsOf(d.flags, NO_FLAGS) == NO_FLAGS
  {
  }

  lemma Blank()
    ensures Default(" ", []) == Some(" ")
  {
    LiteralMeaning(' ', [], []);
    DefaultNone();
    assert [' '] + [] == " ";
  }

  lemma DefaultNone()
    ensures Default([], []) == Some([])
  {
  }

  lemma PlainField(u: nat)
    requires u < TWO32
    ensures Convert('u', NO_FLAGS, 0, -1, NoLength, [Int(u)]) == Some((Numeral(u, 10, false), []))
  {
    hide FieldInt;
    assert UnsignedArg(IntArg([Int(u)]), NoLength) == u && Rest([Int(u)]) == [];
    PlainInt(u);
  }

  lemma PlainInt(u: nat)
    requires u < TWO32
    ensures FieldInt(u, 10, 0, -1, NO_FLAGS, false, true) == Numeral(u, 10, false)
  {
    hide Numeral;
    TenPlaces(u);
    assert Magnitude(u, true) == u;
  }

  // ----- the code

  /** What one update does to the counters: a miss also adds to the file count and the size. */
  function Bumped(cs: seq<nat>, stat: nat, size: nat, numfiles: nat): (r: seq<nat>)
    requires |cs| == STATS_END && stat < STATS_END
    ensures Counters(cs) ==> Counters(r)
  {
    var one := cs[stat := (cs[stat] + 1) % TWO32];
    if stat != STATS_TOCACHE then one
    else one[STATS_NUMFILES := (one[STATS_NUMFILES] + numfiles) % TWO32]
            [STATS_TOTALSIZE := (one[STATS_TOTALSIZE] + size) % TWO32]
  }

  /** What stats_set_sizes does to the counters. */
  function SizesSet(cs: seq<nat>, numFiles: nat, totalSize: nat): (r: seq<nat>)
    requires |cs| == STATS_END
    ensures Counters(cs) ==> Counters(r)
  {
    cs[STATS_NUMFILES := numFiles % TWO32][STATS_TOTALSIZE := totalSize % TWO32]
  }

  class StatsFile {
    var content: Text
    const longMax: nat

    constructor (longMax: nat)
      ensures content == [] && this.longMax == longMax
    {
      content := [];
      this.longMax := longMax;
    }

    /** parse_stats */
    method ParseStats(counters: array<nat>, buf: Text)
      requires counters.Length == STATS_END
      modifies counters
      ensures counters[..] == ParseFrom(old(counters[..]), 0, buf, longMax)
    {
      hide Strtol, ParseFrom;
      var p := 0;
      var i := 0;
      assert buf[0..] == buf;
      while i < STATS_END
        invariant 0 <= i <= STATS_END && 0 <= p <= |buf|
        invariant ParseFrom(counters[..], i, buf[p..], longMax) == ParseFrom(old(counters[..]), 0, buf, longMax)
      {
        ParseStep(counters[..], i, buf[p..], longMax);
        var c := Strtol(buf[p..], longMax);
        ghost var was := counters[..];
        counters[i] := (counters[i] + c.value) % TWO32;
        assert counters[..] == was[i := (was[i] + c.value) % TWO32];
        if c.n == 0 { return; }
        assert buf[p..][c.n..] == buf[p + c.n..];
        p := p + c.n;
        i := i + 1;
      }
      ParseEnd(counters[..], buf[p..], longMax);
    }

    /** write_stats; the buffer is large enough for any counters. */
    method WriteStats(counters: array<nat>)
      requires Counters(counters[..])
      modifies this
      ensures content == Overwrite(old(content), TextFrom(counters[..], 0))
    {
      hide Default, Numeral, TextFrom;
      ghost var cs := counters[..];
      TextFits(cs, 0);
      var buf := new char[1024];
      var len := 0;
      var i := 0;
      assert buf[..0] + TextFrom(cs, 0) == TextFrom(cs, 0);
      while i < STATS_END
        invariant 0 <= i <= STATS_END && 0 <= len <= 254
        invariant buf[..len] + TextFrom(cs, i) == TextFrom(cs, 0)
        modifies buf
      {
        PercentU(cs[i]);
        TenPlaces(cs[i]);
        TextCut(cs, i, buf[..len]);
        ghost var done := buf[..len];
        var n := Vsnprintf(buf, len, 1024 - (len + 1), "%u ", [Int(counters[i])]);
        assert buf[..len + n] == buf[..len] + buf[len..len + n];
        len := len + n;
        assert buf[..len] == done + (Numeral(cs[i], 10, false) + " ");
        i := i + 1;
      }
      NewlineOnly(cs);
      ghost var done := buf[..len];
      var n := Vsnprintf(buf, len, 1024 - (len + 1), "\n", []);
      assert buf[..len + n] == buf[..len] + buf[len..len + n];
      len := len + n;
      assert buf[..len] == done + TextFrom(cs, STATS_END);
      content := buf[..len] + if len < |content| then content[len..] else [];
    }

    /** stats_read_fd */
    method ReadStats(counters: array<nat>)
      requires counters.Length == STATS_END && counters[..] == Zeroed()
      modifies counters
      ensures counters[..] == Counts(content, longMax)
    {
      hide ParseFrom;
      var len := Min(|content|, 1024 - 1);
      if len <= 0 {
        counters[STATS_MAXSIZE] := counters[STATS_MAXSIZE] + DEFAULT_MAXSIZE / 16;
        return;
      }
      ParseStats(counters, content[..len]);
    }

    /** stats_update_size; it also says whether the cache has got too big. */
    method UpdateSize(stat: nat, size: nat, numfiles: nat) returns (needCleanup: bool)
      requires stat < STATS_END
      modifies this
      ensures var cs := Bumped(Counts(old(content), longMax), stat, size, numfiles);
              && Counters(cs) && content == Overwrite(old(content), TextFrom(cs, 0))
              && (needCleanup <==> (cs[13] != 0 && cs[11] > cs[13]) || (cs[14] != 0 && cs[12] > cs[14]))
    {
      hide ParseFrom, TextFrom;
      var counters := new nat[STATS_END](_ => 0);
      assert counters[..] == Zeroed();
      ReadStats(counters);
      CountsAreCounters(content, longMax);
      ghost var was := counters[..];
      counters[stat] := (counters[stat] + 1) % TWO32;
      if stat == STATS_TOCACHE {
        counters[STATS_NUMFILES] := (counters[STATS_NUMFILES] + numfiles) % TWO32;
        counters[STATS_TOTALSIZE] := (counters[STATS_TOTALSIZE] + size) % TWO32;
      }
      assert counters[..] == Bumped(was, stat, size, numfiles);
      WriteStats(counters);
      needCleanup := (counters[STATS_MAXFILES] != 0 && counters[STATS_NUMFILES] > counters[STATS_MAXFILES]) ||
                     (counters[STATS_MAXSIZE] != 0 && counters[STATS_TOTALSIZE] > counters[STATS_MAXSIZE]);
    }

    /** stats_set_sizes */
    method SetSizes(numFiles: nat, totalSize: nat)
      modifies this
      ensures var cs := SizesSet(Counts(old(content), longMax), numFiles, totalSize);
              Counters(cs) && content == Overwrite(old(content), TextFrom(cs, 0))
    {
      hide ParseFrom, TextFrom, Counts;
      var counters := new nat[STATS_END](_ => 0);
      assert counters[..] == Zeroed();
      ReadStats(counters);
      CountsAreCounters(content, longMax);
      ghost var was := counters[..];
      counters[STATS_NUMFILES] := numFiles % TWO32;
      counters[STATS_TOTALSIZE] := totalSize % TWO32;
      assert counters[..] == SizesSet(was, numFiles, totalSize);
      WriteStats(counters);
    }
  }

  lemma NewlineOnly(cs: seq<nat>)
    requires |cs| == STATS_END
    ensures Default("\n", []) == Some(TextFrom(cs, STATS_END)) && |TextFrom(cs, STATS_END)| == 1
  {
    LiteralMeaning('\n', [], []);
    DefaultNone();
    assert ['\n'] + [] == "\n";
  }

  lemma {:induction false} ParseCounters(cs: seq<nat>, i: nat, s: Text, longMax: nat)
    requires Counters(cs) && i <= STATS_END
    ensures Counters(ParseFrom(cs, i, s, longMax))
    decreases STATS_END - i
  {
    hide Strtol;
    if i < STATS_END {
      var c := Strtol(s, longMax);
      if c.n != 0 { ParseCounters(cs[i := (cs[i] + c.value) % TWO32], i + 1, s[c.n..], longMax); }
    }
  }

  lemma CountsAreCounters(content: Text, longMax: nat)
    ensures Counters(Counts(content, longMax))
  {
    hide ParseFrom;
    if content != [] { ParseCounters(Zeroed(), 0, content[..Min(|content|, READ_MAX)], longMax); }
  }

  // ----- runs of updates

  datatype Update = Update(stat: nat, size: nat, numfiles: nat)

  ghost predicate Known(us: seq<Update>) {
    forall i :: 0 <= i < |us| ==> us[i].stat < STATS_END
  }

  /** The counters as the next reader sees them: none above the limit of its `long`. */
  ghost function Kept(cs: seq<nat>, longMax: nat): (r: seq<nat>)
    ensures |r| == |cs| && forall k :: 0 <= k < |cs| ==> r[k] == Min(cs[k], longMax)
  {
    seq(|cs|, k requires 0 <= k < |cs| => Min(cs[k], longMax))
  }

  ghost function Tally(cs: seq<nat>, us: seq<Update>, longMax: nat): (r: seq<nat>)
    requires |cs| == STATS_END && Known(us)
    ensures |r| == STATS_END
  {
    if us == [] then cs
    else
      var u := us[|us| - 1];
      Kept(Bumped(Tally(cs, us[..|us| - 1], longMax), u.stat, u.size, u.numfiles), longMax)
  }

  /** What one update, and what a sequence of updates, adds to the counter `k`: one to its own counter; a cache miss (4)
      also adds to the number of files (11) and to the total size (12). */
  ghost function Added(u: Update, k: nat): nat {
    (if k == u.stat then 1 else 0)
    + (if u.stat == 4 && k == 11 then u.numfiles else 0)
    + (if u.stat == 4 && k == 12 then u.size else 0)
  }

  ghost function AddedBy(us: seq<Update>, k: nat): nat {
    if us == [] then 0 else AddedBy(us[..|us| - 1], k) + Added(us[|us| - 1], k)
  }

  lemma BumpedAdds(cs: seq<nat>, u: Update, k: nat)
    requires Counters(cs) && u.stat < STATS_END && k < STATS_END
    ensures Bumped(cs, u.stat, u.size, u.numfiles)[k] == (cs[k] + Added(u, k)) % TWO32
  {
  }

  /** One counter `v` that stood for the total `t`, after one more update. */
  lemma OneMore(v: nat, t: nat, a: nat, longMax: nat)
    requires v < TWO32 && v <= longMax
    requires longMax >= TWO32 - 1 ==> v == t % TWO32
    requires t < TWO32 ==> (v == t <==> t <= longMax)
    ensures var w := Min((v + a) % TWO32, longMax);
            && (longMax >= TWO32 - 1 ==> w == (t + a) % TWO32)
            && (t + a < TWO32 ==> (w == t + a <==> t + a <= longMax))
  {
    if longMax >= TWO32 - 1 {
      var q := t / TWO32;
      assert t + a == q * TWO32 + (v + a);
    }
  }

  lemma OneUpdate(cs: seq<nat>, u: Update, longMax: nat, k: nat)
    requires Counters(cs) && u.stat < STATS_END && k < STATS_END
    ensures var r := Kept(Bumped(cs, u.stat, u.size, u.numfiles), longMax);
            Counters(r) && r[k] == Min((cs[k] + Added(u, k)) % TWO32, longMax)
  {
    hide Added;
    BumpedAdds(cs, u, k);
  }

  lemma TallyLast(cs: seq<nat>, us: seq<Update>, longMax: nat)
    requires us != [] && |cs| == STATS_END && Known(us)
    ensures var n := |us| - 1;
            Tally(cs, us, longMax)
            == Kept(Bumped(Tally(cs, us[..n], longMax), us[n].stat, us[n].size, us[n].numfiles), longMax)
  {
    hide Bumped, Kept;
  }

  /** No update is lost: with a 64-bit `long` every counter holds what it held at first plus everything added to it
      (modulo 2^32).  With any `long`, a counter whose total is below 2^32 holds it exactly when the total is within the
      limit of that `long`. */
  lemma {:induction false} NothingLost(cs: seq<nat>, us: seq<Update>, longMax: nat, k: nat)
    requires Counters(cs) && Known(us) && k < STATS_END && cs[k] <= longMax
    ensures var total := cs[k] + AddedBy(us, k);
            var r := Tally(cs, us, longMax);
            && Counters(r) && r[k] <= longMax
            && (longMax >= TWO32 - 1 ==> r[k] == total % TWO32)
            && (total < TWO32 ==> (r[k] == total <==> total <= longMax))
    decreases |us|
  {
    hide Added, Bumped, Tally, Kept;
    TallyNone(cs, longMax);
    if us != [] {
      var n := |us| - 1;
      var u, was := us[n], Tally(cs, us[..n], longMax);
      NothingLost(cs, us[..n], longMax, k);
      TallyLast(cs, us, longMax);
      OneUpdate(was, u, longMax, k);
      OneMore(was[k], cs[k] + AddedBy(us[..n], k), Added(u, k), longMax);
    }
  }

  /** Any number of processes updating one file one after the other: the file says what it said at first, with every
      update applied. */
  method RunUpdates(file: StatsFile, us: seq<Update>)
    requires Known(us)
    modifies file
    ensures Counts(file.content, file.longMax) == Tally(Counts(old(file.content), file.longMax), us, file.longMax)
  {
    hide Counts, Tally, Bumped, TextFrom;
    ghost var start, limit := Counts(file.content, file.longMax), file.longMax;
    TallyNone(start, limit);
    for i := 0 to |us|
      invariant Known(us[..i]) && Counts(file.content, limit) == Tally(start, us[..i], limit)
    {
      ghost var was := file.content;
      var u := us[i];
      var _ := file.UpdateSize(u.stat, u.size, u.numfiles);
      ghost var bumped := Bumped(Counts(was, limit), u.stat, u.size, u.numfiles);
      RoundTrip(bumped, was, limit);
      assert Counts(file.content, limit) == Kept(bumped, limit);
      TallyStep(start, us, i, limit);
    }
    assert us[..|us|] == us;
  }

  lemma TallyNone(cs: seq<nat>, longMax: nat)
    requires |cs| == STATS_END
    ensures Tally(cs, [], longMax) == cs
  {
  }

  lemma TallyStep(cs: seq<nat>, us: seq<Update>, i: nat, longMax: nat)
    requires |cs| == STATS_END && Known(us) && i < |us|
    ensures Tally(cs, us[..i + 1], longMax)
         == Kept(Bumped(Tally(cs, us[..i], longMax), us[i].stat, us[i].size, us[i].numfiles), longMax)
  {
    assert us[..i + 1][..i] == us[..i];
  }
}
