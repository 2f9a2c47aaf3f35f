/** The C/C++ unifier of the compiler cache (CCache/unify.c): it folds preprocessor output into a stream of lexemes,
    one to a line, and hashes that stream.

    This file says what the stream is, and why layout does not matter to it; Unifier.dfy has the code.
 */
module Unify {
  import opened Scan
  import opened Wrappers

  // ----- the character table

  predicate Alpha(c: char) { 'a' <= c <= 'z' || 'A' <= c <= 'Z' || c == '_' }
  predicate Hex(c: char) { Digit(c) || 'a' <= c <= 'f' || 'A' <= c <= 'F' }
  predicate Quote(c: char) { c == '\'' || c == '"' }
  predicate Float(c: char) { c in "lLfFuU" }
  predicate AlphaOrDigit(c: char) { Alpha(c) || Digit(c) }
  predicate DigitOrDot(c: char) { Digit(c) || c == '.' }
  predicate DigitOrSign(c: char) { Digit(c) || c == '-' || c == '+' }
  predicate InLine(c: char) { c != '\n' }

  // s_tokens, line by line
  const TOKENS0: seq<Text> := ["...", ">>=", "<<=", "+=", "-=", "*=", "/=", "%=", "&=", "^="]
  const TOKENS1: seq<Text> := ["|=", ">>", "<<", "++", "--", "->", "&&", "||", "<=", ">="]
  const TOKENS2: seq<Text> := ["==", "!=", ";", "{", "<%", "}", "%>", ",", ":", "="]
  const TOKENS3: seq<Text> := ["(", ")", "[", "<:", "]", ":>", ".", "&", "!", "~"]
  const TOKENS4: seq<Text> := ["-", "+", "*", "/", "%", "<", ">", "^", "|", "?"]

  const TOKENS: seq<Text> := TOKENS0 + TOKENS1 + TOKENS2 + TOKENS3 + TOKENS4

  /** The places of a row, as the source declares them. */
  const ROW_PLACES := 7

  /** The tokens filed under `c` once the first `k` have been entered. */
  function Row(c: char, k: nat): seq<Text>
    requires k <= |TOKENS|
  {
    if k == 0 then []
    else Row(c, k - 1) + if [c] <= TOKENS[k - 1] then [TOKENS[k - 1]] else []
  }

  // ----- one item of the input

  /** A number: digits and dots, a hexadecimal part, an exponent, suffix letters. */
  function NumberEnd(s: Text, i: nat): (e: nat)
    requires i < |s|
    ensures i < e <= |s|
  {
    var a := Span(DigitOrDot, s, i + 1);
    var b := if a < |s| && s[a] in "xX" then Span(Hex, s, a + 1) else a;
    var c := if b < |s| && s[b] in "eE" then Span(DigitOrSign, s, b + 1) else b;
    Span(Float, s, c)
  }

  /** Past the quote that closes one of kind `q`; `i` is after the opening one. */
  function QuoteEnd(s: Text, q: char, i: nat): (e: Option<nat>)
    ensures e.Some? ==> i < e.value <= |s|
    decreases |s| - i
  {
    if i >= |s| then None
    else if i < |s| - 1 && s[i] == '\\' then QuoteEnd(s, q, i + 2)
    else if s[i] == q then Some(i + 1)
    else QuoteEnd(s, q, i + 1)
  }

  /** The length of the first token of the row, from entry `k` on, that the text starts with; 1 if there is none. */
  function TokenLen(row: seq<Text>, k: nat, s: Text): (n: nat)
    decreases |row| - k
  {
    if k >= |row| then 1
    else if row[k] <= s then |row[k]|
    else TokenLen(row, k + 1, s)
  }

  /** `Skip` emits nothing; `Lexeme` emits the first `len` characters and a newline.  An item may reach one past the end. */
  datatype Item = Skip(n: nat) | Lexeme(len: nat, n: nat) | Unclosed

  predicate Marker(s: Text) {
    |s| > 2 && s[0] == '#' && s[1] == ' ' && Digit(s[2])
  }

  function Next(s: Text): (item: Item)
    requires s != []
  {
    if s[0] == '#' then
      var e := Span(InLine, s, 1);
      if Marker(s) then Skip(e + 1) else Lexeme(e, e + 1)
    else if Alpha(s[0]) then
      var e := Span(AlphaOrDigit, s, 1);
      Lexeme(e, e)
    else if Digit(s[0]) then
      var e := NumberEnd(s, 0);
      Lexeme(e, e)
    else if Space(s[0]) then Skip(1)
    else if Quote(s[0]) then
      match QuoteEnd(s, s[0], 1)
      case None => Unclosed
      case Some(e) => Lexeme(e, e)
    else
      var e := TokenLen(Row(s[0], |TOKENS|), 0, s);
      Lexeme(e, e)
  }

  lemma NextBounds(s: Text)
    requires s != []
    ensures match Next(s)
            case Skip(n) => 0 < n <= |s| + 1
            case Lexeme(len, n) => 0 < len <= |s| && len <= n <= len + 1 && (n > len ==> s[0] == '#')
            case Unclosed => true
  {
    hide NumberEnd, QuoteEnd, Row;
    if s[0] != '#' && !Alpha(s[0]) && !Digit(s[0]) && !Space(s[0]) && !Quote(s[0]) {
      RowGood(s[0], |TOKENS|);
      TokenLenBounds(Row(s[0], |TOKENS|), 0, s);
    }
  }

  // ----- the token table

  /** No token holds a blank or a `#`. */
  ghost predicate Good(t: Text) {
    0 < |t| <= 3 && !Stopper(t[0]) && (|t| > 1 ==> !Stopper(t[1])) && (|t| > 2 ==> !Stopper(t[2]))
  }

  predicate Stopper(c: char) { Space(c) || c == '#' }

  lemma TokensGood(t: Text)
    requires t in TOKENS
    ensures Good(t)
  {
    if t in TOKENS0 {
    } else if t in TOKENS1 {
    } else if t in TOKENS2 {
    } else if t in TOKENS3 {
    } else {
    }
  }

  lemma {:induction false} RowGood(c: char, k: nat)
    requires k <= |TOKENS|
    ensures forall i :: 0 <= i < |Row(c, k)| ==> Good(Row(c, k)[i]) && Row(c, k)[i][0] == c
  {
    hide Good;
    if k > 0 {
      RowGood(c, k - 1);
      TokensGood(TOKENS[k - 1]);
    }
  }

  lemma {:induction false} TokenLenBounds(row: seq<Text>, k: nat, s: Text)
    requires s != [] && forall i :: 0 <= i < |row| ==> Good(row[i])
    ensures 0 < TokenLen(row, k, s) <= |s|
    decreases |row| - k
  {
    if k < |row| && !(row[k] <= s) { TokenLenBounds(row, k + 1, s); }
  }

  // ----- the stream

  function Drop(s: Text, n: nat): Text {
    if n <= |s| then s[n..] else []
  }

  /** What the unifier hashes: every lexeme on a line of its own. */
  function Out(s: Text): Text
    decreases |s|
  {
    if s == [] then []
    else
      NextBounds(s);
      match Next(s)
      case Skip(n) => Out(Drop(s, n))
      case Lexeme(len, n) => s[..len] + "\n" + Out(Drop(s, n))
      case Unclosed => []
  }

  /** Every string and character constant is closed. */
  ghost predicate Closed(s: Text)
    decreases |s|
  {
    s != [] ==> Next(s) != Unclosed && (NextBounds(s); Closed(Drop(s, Next(s).n)))
  }

  // ----- an item does not depend on what follows a blank or a #

  ghost predicate Stops(v: Text) {
    v == [] || Stopper(v[0])
  }

  lemma NumberPrefix(s: Text, j: nat, v: Text)
    requires s != [] && NumberEnd(s, 0) <= j <= |s| && Stops(v)
    ensures NumberEnd(s[..j] + v, 0) == NumberEnd(s, 0)
  {
    hide Span;
    var t := s[..j] + v;
    var a := Span(DigitOrDot, s, 1);
    var b := if a < |s| && s[a] in "xX" then Span(Hex, s, a + 1) else a;
    var c := if b < |s| && s[b] in "eE" then Span(DigitOrSign, s, b + 1) else b;
    SpanPrefix(DigitOrDot, s, 1, j, v);
    if a < |s| && s[a] in "xX" { SpanPrefix(Hex, s, a + 1, j, v); }
    if b < |s| && s[b] in "eE" { SpanPrefix(DigitOrSign, s, b + 1, j, v); }
    SpanPrefix(Float, s, c, j, v);
  }

  lemma {:induction false} QuotePrefix(s: Text, q: char, i: nat, j: nat, v: Text)
    requires i <= j <= |s| && QuoteEnd(s, q, i).Some? && QuoteEnd(s, q, i).value <= j && Quote(q)
    ensures QuoteEnd(s[..j] + v, q, i) == QuoteEnd(s, q, i)
    decreases j - i
  {
    var t := s[..j] + v;
    assert t[i] == s[i];
    if i < |s| - 1 && s[i] == '\\' {
      QuotePrefix(s, q, i + 2, j, v);
    } else if s[i] != q {
      QuotePrefix(s, q, i + 1, j, v);
    }
  }

  lemma {:induction false} TokenPrefix(row: seq<Text>, k: nat, s: Text, j: nat, v: Text)
    requires s != [] && TokenLen(row, k, s) <= j <= |s| && Stops(v) && 0 < j
    requires forall i :: 0 <= i < |row| ==> Good(row[i])
    ensures TokenLen(row, k, s[..j] + v) == TokenLen(row, k, s)
    decreases |row| - k
  {
    var t := s[..j] + v;
    if k < |row| {
      var r := row[k];
      assert Good(r);
      if |r| <= j {
        assert t[..|r|] == s[..|r|];
        assert r <= t <==> r <= s;
      } else {
        assert !(r <= t);
      }
      if !(r <= s) { TokenPrefix(row, k + 1, s, j, v); }
    }
  }

  /** An item that ends within the first `j` characters is read again when they are followed by nothing, a blank
      or a `#`. */
  lemma NextPrefix(s: Text, j: nat, v: Text)
    requires s != [] && Next(s) != Unclosed && Next(s).n <= j <= |s| && Stops(v)
    ensures s[..j] + v != [] && Next(s[..j] + v) == Next(s)
  {
    hide Span, NumberEnd, QuoteEnd, TokenLen, Row;
    NextBounds(s);
    var t := s[..j] + v;
    assert t[0] == s[0];
    if s[0] == '#' {
      LinePrefix(s, j, v);
    } else if Alpha(s[0]) {
      SpanPrefix(AlphaOrDigit, s, 1, j, v);
    } else if Digit(s[0]) {
      NumberPrefix(s, j, v);
    } else if Space(s[0]) {
    } else if Quote(s[0]) {
      QuotePrefix(s, s[0], 1, j, v);
    } else {
      RowGood(s[0], |TOKENS|);
      TokenPrefix(Row(s[0], |TOKENS|), 0, s, j, v);
    }
  }

  lemma {:induction false} SpanLine(s: Text, i: nat, j: nat, v: Text)
    requires i <= j <= |s| && Span(InLine, s, i) < j
    ensures Span(InLine, s[..j] + v, i) == Span(InLine, s, i) && s[Span(InLine, s, i)] == '\n'
    decreases j - i
  {
    assert (s[..j] + v)[i] == s[i];
    if InLine(s[i]) { SpanLine(s, i + 1, j, v); }
  }

  lemma LinePrefix(s: Text, j: nat, v: Text)
    requires s != [] && s[0] == '#' && Next(s).n <= j <= |s|
    ensures s[..j] + v != [] && Next(s[..j] + v) == Next(s)
  {
    hide Span;
    var t := s[..j] + v;
    var e := Span(InLine, s, 1);
    SpanLine(s, 1, j, v);
    assert t[0] == s[0] && t[1] == s[1];
    if e > 1 { assert |s| > 2 && t[2] == s[2]; }
  }

  // ----- layout

  /** Blanks and `# <digit>` line markers, each marker on a line that ends. */
  ghost predicate Gap(g: Text)
    decreases |g|
  {
    g == [] || (Space(g[0]) && Gap(g[1..])) ||
    (Marker(g) && Span(InLine, g, 1) < |g| && Gap(g[Span(InLine, g, 1) + 1..]))
  }

  lemma OutSkip(s: Text)
    requires s != [] && Next(s).Skip?
    ensures Out(s) == Out(Drop(s, Next(s).n))
  {
    hide Next;
  }

  lemma MarkerNext(t: Text)
    requires Marker(t)
    ensures Next(t) == Skip(Span(InLine, t, 1) + 1)
  {
    hide Span;
  }

  lemma {:induction false} GapSkips(g: Text, s: Text)
    requires Gap(g)
    ensures Out(g + s) == Out(s)
    decreases |g|
  {
    hide Span, Out, Next;
    if g == [] {
      assert g + s == s;
    } else if Space(g[0]) {
      GapSkips(g[1..], s);
      BlankSkips(g[0], g[1..] + s);
      assert g + s == [g[0]] + (g[1..] + s);
    } else {
      var e := Span(InLine, g, 1);
      GapSkips(g[e + 1..], s);
      SpanLine(g, 1, |g|, s);
      assert g[..|g|] + s == g + s;
      MarkerNext(g + s);
      OutSkip(g + s);
      assert Drop(g + s, e + 1) == g[e + 1..] + s;
    }
  }

  lemma BlankSkips(c: char, s: Text)
    requires Space(c)
    ensures Out([c] + s) == Out(s)
  {
    assert Next([c] + s) == Skip(1);
    assert Drop([c] + s, 1) == s;
  }

  lemma GapStops(g: Text, s: Text)
    requires Gap(g) && g != []
    ensures Stops(g + s)
  {
  }

  /** `i` is where one turn of the unifier's loop ends and the next begins. */
  ghost predicate Boundary(s: Text, i: nat): (r: bool)
    ensures r ==> i <= |s|
    decreases i
  {
    || i == 0
    || (s != [] && Next(s) != Unclosed
        && (NextBounds(s);
            Next(s).n <= i && Next(s).n <= |s| && Boundary(s[Next(s).n..], i - Next(s).n)))
  }

  /** One turn, with the rest of the text changed behind it. */
  lemma OutStep(s: Text, i: nat, v: Text)
    requires s != [] && Next(s) != Unclosed && Next(s).n <= i <= |s| && Stops(v)
    requires Out(s[Next(s).n..i] + v) == Out(s[Next(s).n..])
    ensures Out(s[..i] + v) == Out(s)
  {
    hide Next;
    NextBounds(s);
    NextPrefix(s, i, v);
    var n := Next(s).n;
    var t := s[..i] + v;
    assert Drop(t, n) == s[n..i] + v;
    assert Next(s).Lexeme? ==> t[..Next(s).len] == s[..Next(s).len];
  }

  /** Blanks or line markers put in where an item ends do not change the stream. */
  lemma {:induction false} LayoutIrrelevant(s: Text, i: nat, g: Text)
    requires Boundary(s, i) && Gap(g)
    ensures Out(s[..i] + g + s[i..]) == Out(s)
    decreases i
  {
    hide Next, Out, Gap;
    if g == [] {
      assert s[..i] + g + s[i..] == s;
    } else if i == 0 {
      GapSkips(g, s);
      assert s[..0] + g + s[0..] == g + s;
    } else {
      NextBounds(s);
      var n := Next(s).n;
      var rest := s[n..];
      LayoutIrrelevant(rest, i - n, g);
      GapStops(g, s[i..]);
      assert rest[..i - n] + g + rest[i - n..] == s[n..i] + (g + s[i..]);
      OutStep(s, i, g + s[i..]);
      assert s[..i] + g + s[i..] == s[..i] + (g + s[i..]);
    }
  }

  // ----- running the unifier on its own output

  lemma SpaceSkips(w: Text)
    ensures Out("\n" + w) == Out(w) && (Closed("\n" + w) <==> Closed(w))
  {
    assert ("\n" + w)[1..] == w;
    assert Drop("\n" + w, 1) == w;
  }

  /** A lexeme on its own line is read back as that lexeme. */
  lemma LexemeAgain(s: Text, w: Text)
    requires s != [] && Next(s).Lexeme?
    ensures Next(s).len <= |s|
    ensures var len := Next(s).len;
            var t := s[..len] + "\n" + w;
            && Next(t).Lexeme? && Next(t).len == len
            && (Drop(t, Next(t).n) == w || Drop(t, Next(t).n) == "\n" + w)
  {
    hide Next;
    NextBounds(s);
    var len := Next(s).len;
    var t := s[..len] + "\n" + w;
    if s[0] == '#' {
      DirectiveAgain(s, w);
      assert Drop(t, len + 1) == w;
    } else {
      NextPrefix(s, len, "\n" + w);
      assert s[..len] + ("\n" + w) == t;
      assert Drop(t, len) == "\n" + w;
    }
  }

  lemma {:induction false} SpanAgain(s: Text, i: nat, w: Text)
    requires i <= |s|
    ensures var e := Span(InLine, s, i); Span(InLine, s[..e] + "\n" + w, i) == e
    decreases |s| - i
  {
    var e := Span(InLine, s, i);
    var t := s[..e] + "\n" + w;
    if i < |s| && InLine(s[i]) {
      SpanAgain(s, i + 1, w);
      assert t[i] == s[i];
    }
  }

  lemma DirectiveAgain(s: Text, w: Text)
    requires s != [] && s[0] == '#' && Next(s).Lexeme?
    ensures var len := Next(s).len;
            var t := s[..len] + "\n" + w;
            Next(t) == Lexeme(len, len + 1)
  {
    hide Span;
    var e := Span(InLine, s, 1);
    var t := s[..e] + "\n" + w;
    SpanAgain(s, 1, w);
    assert t[0] == s[0];
  }

  /** The stream is its own stream. */
  lemma {:induction false} Idempotent(s: Text)
    requires Closed(s)
    ensures Out(Out(s)) == Out(s) && Closed(Out(s))
    decreases |s|
  {
    hide Next;
    if s != [] {
      NextBounds(s);
      var item := Next(s);
      var rest := Drop(s, item.n);
      Idempotent(rest);
      if item.Lexeme? {
        var w := Out(rest);
        var t := s[..item.len] + "\n" + w;
        assert Out(s) == t;
        LexemeAgain(s, w);
        SpaceSkips(w);
        NextBounds(t);
        assert t[..item.len] == s[..item.len];
      }
    }
  }

  // ----- the stream determines the lexemes

  function Lexemes(s: Text): seq<Text>
    decreases |s|
  {
    if s == [] then []
    else
      NextBounds(s);
      match Next(s)
      case Skip(n) => Lexemes(Drop(s, n))
      case Lexeme(len, n) => [s[..len]] + Lexemes(Drop(s, n))
      case Unclosed => []
  }

  lemma BlankLexemes(w: Text)
    ensures Lexemes("\n" + w) == Lexemes(w)
  {
    assert Next("\n" + w) == Skip(1);
    assert Drop("\n" + w, 1) == w;
  }

  /** Reading the stream back gives the lexemes it was made of. */
  lemma {:induction false} LexemesOfStream(s: Text)
    requires Closed(s)
    ensures Lexemes(Out(s)) == Lexemes(s)
    decreases |s|
  {
    hide Next;
    if s != [] {
      NextBounds(s);
      var item := Next(s);
      var rest := Drop(s, item.n);
      LexemesOfStream(rest);
      if item.Lexeme? {
        var w := Out(rest);
        var t := s[..item.len] + "\n" + w;
        assert Out(s) == t;
        LexemeAgain(s, w);
        BlankLexemes(w);
        NextBounds(t);
        assert t[..item.len] == s[..item.len];
      }
    }
  }

  /** Two texts have the same stream exactly when they have the same lexemes. */
  lemma StreamIsLexemes(s: Text, t: Text)
    requires Closed(s) && Closed(t)
    ensures Out(s) == Out(t) <==> Lexemes(s) == Lexemes(t)
  {
    hide Out, Lexemes, Closed;
    LexemesOfStream(s);
    LexemesOfStream(t);
    OutOfLexemes(s);
    OutOfLexemes(t);
  }

  function Lines(ls: seq<Text>): Text {
    if ls == [] then [] else ls[0] + "\n" + Lines(ls[1..])
  }

  lemma {:induction false} OutOfLexemes(s: Text)
    requires Closed(s)
    ensures Out(s) == Lines(Lexemes(s))
    decreases |s|
  {
    hide Next;
    if s != [] {
      NextBounds(s);
      OutOfLexemes(Drop(s, Next(s).n));
      if Next(s).Lexeme? {
        assert ([s[..Next(s).len]] + Lexemes(Drop(s, Next(s).n)))[1..] == Lexemes(Drop(s, Next(s).n));
      }
    }
  }

  // ----- the rows of the table

  lemma {:induction false} RowNone(c: char, k: nat)
    requires k <= |TOKENS| && forall j :: 0 <= j < k ==> !([c] <= TOKENS[j])
    ensures Row(c, k) == []
    decreases k
  {
    if k > 0 { RowNone(c, k - 1); }
  }

  lemma {:induction false} RowGrows(c: char, k: nat, m: nat)
    requires k <= m <= |TOKENS|
    ensures Row(c, k) <= Row(c, m)
    decreases m - k
  {
    if k < m { RowGrows(c, k, m - 1); }
  }

  /** The first character of a token. */
  function Head(j: nat): char
    requires j < |TOKENS|
  {
    TokenStarts(j);
    TOKENS[j][0]
  }

  lemma TokenStarts(j: nat)
    requires j < |TOKENS|
    ensures TOKENS[j] != []
  {
    assert TOKENS[j] in TOKENS;
    TokensGood(TOKENS[j]);
  }

  lemma RowStep(c: char, k: nat)
    requires 0 < k <= |TOKENS|
    ensures |Row(c, k)| == |Row(c, k - 1)| + if Head(k - 1) == c then 1 else 0
  {
    TokenStarts(k - 1);
  }

  /** A stretch of the table in which no first character occurs twice adds at most one token to a row. */
  lemma {:induction false} Stretch(c: char, lo: nat, heads: string)
    requires lo + |heads| <= |TOKENS| && forall i :: 0 <= i < |heads| ==> Head(lo + i) == heads[i]
    requires forall i, j :: 0 <= i < j < |heads| ==> heads[i] != heads[j]
    ensures |Row(c, lo + |heads|)| == |Row(c, lo)| + if c in heads then 1 else 0
    decreases |heads|
  {
    hide Row, Head;
    if heads != "" {
      var n := |heads| - 1;
      Stretch(c, lo, heads[..n]);
      RowStep(c, lo + |heads|);
      assert heads == heads[..n] + [heads[n]];
    }
  }

  lemma Heads0(j: nat)
    requires j < 10
    ensures |TOKENS| == 50 && Head(j) == ".><+-*/%&^"[j]
  {
    assert TOKENS[j] == TOKENS0[j];
  }

  lemma Heads1(j: nat)
    requires j < 10
    ensures |TOKENS| == 50 && Head(10 + j) == "|><+--&|<>"[j]
  {
    assert TOKENS[10 + j] == TOKENS1[j];
  }

  lemma Heads2(j: nat)
    requires j < 10
    ensures |TOKENS| == 50 && Head(20 + j) == "=!;{<}%,:="[j]
  {
    assert TOKENS[20 + j] == TOKENS2[j];
  }

  lemma Heads3(j: nat)
    requires j < 10
    ensures |TOKENS| == 50 && Head(30 + j) == "()[<]:.&!~"[j]
  {
    assert TOKENS[30 + j] == TOKENS3[j];
  }

  lemma Heads4(j: nat)
    requires j < 10
    ensures |TOKENS| == 50 && Head(40 + j) == "-+*/%<>^|?"[j]
  {
    assert TOKENS[40 + j] == TOKENS4[j];
  }

  lemma RowsBegin(c: char)
    ensures |TOKENS| == 50 && |Row(c, 30)| <= 5
  {
    hide Row, Head;
    forall j | 0 <= j < 10 ensures Head(j) == ".><+-*/%&^"[j] { Heads0(j); }
    Stretch(c, 0, ".><+-*/%&^");
    forall j | 0 <= j < 5 ensures Head(10 + j) == "|><+-"[j] { Heads1(j); }
    Stretch(c, 10, "|><+-");
    forall j | 0 <= j < 5 ensures Head(15 + j) == "-&|<>"[j] { Heads1(5 + j); }
    Stretch(c, 15, "-&|<>");
    forall j | 0 <= j < 5 ensures Head(20 + j) == "=!;{<"[j] { Heads2(j); }
    Stretch(c, 20, "=!;{<");
    forall j | 0 <= j < 5 ensures Head(25 + j) == "}%,:="[j] { Heads2(5 + j); }
    Stretch(c, 25, "}%,:=");
    RowNothing(c);
  }

  /** No row is longer than the seven places that the source gives it. */
  lemma RowsFit(c: char, k: nat)
    requires k <= |TOKENS|
    ensures |Row(c, k)| <= ROW_PLACES
  {
    hide Row, Head;
    RowsBegin(c);
    forall j | 0 <= j < 10 ensures Head(30 + j) == "()[<]:.&!~"[j] { Heads3(j); }
    Stretch(c, 30, "()[<]:.&!~");
    forall j | 0 <= j < 10 ensures Head(40 + j) == "-+*/%<>^|?"[j] { Heads4(j); }
    Stretch(c, 40, "-+*/%<>^|?");
    RowGrows(c, k, 50);
  }

  lemma RowNothing(c: char)
    ensures Row(c, 0) == []
  {
  }

  // ----- a token that is never found

  lemma NoColonBefore(j: nat)
    requires j < 28
    ensures TOKENS[j] != [] && TOKENS[j][0] != ':'
  {
    if j < 10 { Heads0(j); } else if j < 20 { Heads1(j - 10); } else { Heads2(j - 20); }
    TokenStarts(j);
  }

  lemma ColonRow()
    ensures Row(':', |TOKENS|) != [] && Row(':', |TOKENS|)[0] == ":"
  {
    forall j | 0 <= j < 28 ensures !([':'] <= TOKENS[j]) { NoColonBefore(j); }
    RowNone(':', 28);
    ColonEntry();
    assert Row(':', 29) == [":"];
    RowGrows(':', 29, |TOKENS|);
  }

  lemma FirstOfRow(row: seq<Text>, s: Text)
    requires row != [] && row[0] <= s
    ensures TokenLen(row, 0, s) == |row[0]|
  {
  }

  /** The digraph `:>` stands behind `:` in the table, so it is always read as two lexemes. */
  lemma ColonFirst(s: Text)
    requires ":" <= s
    ensures Next(s) == Lexeme(1, 1)
  {
    hide Row, TokenLen, NumberEnd, QuoteEnd;
    ColonRow();
    FirstOfRow(Row(':', |TOKENS|), s);
    assert s[0] == ':';
  }

  lemma ColonEntry()
    ensures TOKENS[28] == ":"
  {
    assert TOKENS[28] == TOKENS2[8];
  }
}
