/** What the unifier takes for one lexeme (CCache/unify.c), every class told by its characters.  Together the lemmas
    cover every first character a text can have.
 */
module LexemeForms {
  import opened Ascii
  import opened Scan
  import opened Unify
  import opened Wrappers

  /** A text that begins with a lexeme of `n` characters, and `skip` more that go with it. */
  lemma OutLexeme(s: Text, n: nat, skip: nat)
    requires s != [] && Next(s) == Lexeme(n, n + skip)
    ensures n <= |s| && Out(s) == s[..n] + "\n" + Out(Drop(s, n + skip))
  {
    hide Next;
    NextBounds(s);
  }

  // ----- words

  lemma Letters(c: char)
    ensures Alpha(c) <==> InLetters(c)
    ensures AlphaOrDigit(c) <==> InWord(c)
    ensures Digit(c) <==> c in DIGITS
  {
    Smalls(c);
    Capitals(c);
    Digits(c);
  }

  /** A letter or underscore makes a lexeme with all the letters, digits and underscores that follow it. */
  lemma WordIsLexeme(s: Text) returns (e: nat)
    requires s != [] && InLetters(s[0])
    ensures 0 < e <= |s| && (forall k :: 0 <= k < e ==> InWord(s[k])) && (e < |s| ==> !InWord(s[e]))
    ensures Out(s) == s[..e] + "\n" + Out(s[e..])
  {
    hide Span, Out, InLetters, InWord, NumberEnd, QuoteEnd, TokenLen, Row;
    Letters('#');
    Letters(s[0]);
    InLettersInWord(s[0]);
    e := Span(AlphaOrDigit, s, 1);
    SpanMeaning(AlphaOrDigit, s, 1);
    forall k | 0 < k < |s| ensures AlphaOrDigit(s[k]) <==> InWord(s[k]) { Letters(s[k]); }
    OutLexeme(s, e, 0);
  }

  lemma InLettersInWord(c: char)
    ensures InLetters(c) ==> InWord(c) && c !in "#" && c !in DIGITS
  {
    Smalls(c);
    Capitals(c);
    Digits(c);
  }

  // ----- numbers

  predicate InDigits(c: char) { c in DIGITS || c == '.' }
  predicate InHex(c: char) { c in HEXDIGITS }
  predicate InExponent(c: char) { c in DIGITS || c == '+' || c == '-' }
  predicate InSuffix(c: char) { c == 'l' || c == 'L' || c == 'f' || c == 'F' || c == 'u' || c == 'U' }

  /** The characters of [i, e) are of the class, and no more of them follow. */
  ghost predicate Maximal(cls: char -> bool, s: Text, i: nat, e: nat) {
    i <= e <= |s| && (forall k :: i <= k < e ==> cls(s[k])) && (e < |s| ==> !cls(s[e]))
  }

  lemma NumberChars(c: char)
    ensures DigitOrDot(c) <==> InDigits(c)
    ensures Hex(c) <==> InHex(c)
    ensures DigitOrSign(c) <==> InExponent(c)
    ensures Float(c) <==> InSuffix(c)
  {
    Digits(c);
    HexDigits(c);
  }

  lemma SpanIs(cls: char -> bool, listed: char -> bool, s: Text, i: nat)
    requires i <= |s| && forall c :: cls(c) <==> listed(c)
    ensures Maximal(listed, s, i, Span(cls, s, i))
  {
    SpanMeaning(cls, s, i);
  }

  lemma ClassesListed()
    ensures forall c :: DigitOrDot(c) <==> InDigits(c)
    ensures forall c :: Hex(c) <==> InHex(c)
    ensures forall c :: DigitOrSign(c) <==> InExponent(c)
    ensures forall c :: Float(c) <==> InSuffix(c)
  {
    hide *;
    forall c
      ensures (DigitOrDot(c) <==> InDigits(c)) && (Hex(c) <==> InHex(c)) && (DigitOrSign(c) <==> InExponent(c))
              && (Float(c) <==> InSuffix(c))
    {
      NumberChars(c);
    }
  }

  /** A digit makes a lexeme with the digits and dots that follow; then, after an `x`, hexadecimal digits; then, after
      an `e`, digits and signs; then suffix letters -- each as many as there are. */
  lemma NumberIsLexeme(s: Text) returns (a: nat, b: nat, c: nat, e: nat)
    requires s != [] && s[0] in DIGITS
    ensures Maximal(InDigits, s, 1, a)
    ensures if a < |s| && (s[a] == 'x' || s[a] == 'X') then Maximal(InHex, s, a + 1, b) else b == a
    ensures if b < |s| && (s[b] == 'e' || s[b] == 'E') then Maximal(InExponent, s, b + 1, c) else c == b
    ensures Maximal(InSuffix, s, c, e)
    ensures Out(s) == s[..e] + "\n" + Out(s[e..])
  {
    hide Span, Out, DigitOrDot, DigitOrSign, Hex, Float, InDigits, InHex, InExponent, InSuffix, Maximal, NumberEnd;
    a := Span(DigitOrDot, s, 1);
    b := if a < |s| && s[a] in "xX" then Span(Hex, s, a + 1) else a;
    c := if b < |s| && s[b] in "eE" then Span(DigitOrSign, s, b + 1) else b;
    e := Span(Float, s, c);
    ClassesListed();
    SpanIs(DigitOrDot, InDigits, s, 1);
    if a < |s| { SpanIs(Hex, InHex, s, a + 1); }
    if b < |s| { SpanIs(DigitOrSign, InExponent, s, b + 1); }
    SpanIs(Float, InSuffix, s, c);
    NumberEndIs(s, a, b, c);
    NumberOut(s, e);
  }

  lemma NumberEndIs(s: Text, a: nat, b: nat, c: nat)
    requires s != [] && a == Span(DigitOrDot, s, 1)
    requires b == if a < |s| && s[a] in "xX" then Span(Hex, s, a + 1) else a
    requires c == if b < |s| && s[b] in "eE" then Span(DigitOrSign, s, b + 1) else b
    ensures NumberEnd(s, 0) == Span(Float, s, c)
  {
    hide Span;
  }

  lemma NumberOut(s: Text, e: nat)
    requires s != [] && s[0] in DIGITS && e == NumberEnd(s, 0)
    ensures e <= |s| && Out(s) == s[..e] + "\n" + Out(s[e..])
  {
    hide Out, Next, NumberEnd;
    Digits(s[0]);
    NumberNext(s);
    OutLexeme(s, e, 0);
  }

  lemma NumberNext(s: Text)
    requires s != [] && Digit(s[0])
    ensures Next(s) == Lexeme(NumberEnd(s, 0), NumberEnd(s, 0))
  {
    hide NumberEnd, QuoteEnd, TokenLen, Row, Span;
  }

  // ----- string and character constants

  /** How many backslashes stand in a row before the place `i`. */
  function Slashes(s: Text, i: nat): nat
    requires i <= |s|
  {
    if i > 0 && s[i - 1] == '\\' then 1 + Slashes(s, i - 1) else 0
  }

  /** A quote like the first character that an even number of backslashes precedes. */
  ghost predicate ClosesAt(s: Text, i: int) {
    0 < i < |s| && s[i] == s[0] && Slashes(s, i) % 2 == 0
  }

  lemma {:induction false} QuoteFinds(s: Text, i: nat)
    requires 0 < i <= |s| && (s[0] == '"' || s[0] == '\'') && Slashes(s, i) % 2 == 0
    ensures match QuoteEnd(s, s[0], i)
            case None => forall j :: i <= j ==> !ClosesAt(s, j)
            case Some(e) => i < e <= |s| && ClosesAt(s, e - 1) && forall j :: i <= j < e - 1 ==> !ClosesAt(s, j)
    decreases |s| - i
  {
    if i < |s| {
      if i < |s| - 1 && s[i] == '\\' {
        assert Slashes(s, i + 1) == 1 + Slashes(s, i);
        assert Slashes(s, i + 2) % 2 == 0;
        QuoteFinds(s, i + 2);
      } else if s[i] != s[0] {
        if i < |s| - 1 { QuoteFinds(s, i + 1); }
      }
    }
  }

  /** A constant ends at the first quote of its kind that no backslash escapes; without one nothing more is emitted. */
  lemma ConstantIsLexeme(s: Text)
    requires s != [] && (s[0] == '"' || s[0] == '\'')
    ensures (exists i :: ClosesAt(s, i)) ==>
              exists e :: ClosesAt(s, e) && (forall i :: 0 < i < e ==> !ClosesAt(s, i))
                          && Out(s) == s[..e + 1] + "\n" + Out(s[e + 1..])
    ensures !(exists i :: ClosesAt(s, i)) ==> Out(s) == []
  {
    hide QuoteEnd, Out, NumberEnd, TokenLen, Row, Span, Slashes;
    NoSlashes(s);
    QuoteFinds(s, 1);
    match QuoteEnd(s, s[0], 1)
    case None =>
      assert Next(s) == Unclosed;
      OutUnclosed(s);
    case Some(e) =>
      OutLexeme(s, e, 0);
      assert ClosesAt(s, e - 1);
  }

  lemma NoSlashes(s: Text)
    requires s != [] && s[0] != '\\'
    ensures Slashes(s, 1) == 0
  {
  }

  lemma OutUnclosed(s: Text)
    requires s != [] && Next(s) == Unclosed
    ensures Out(s) == []
  {
    hide Next;
  }

  // ----- lines and blanks

  /** A line that begins with `#`, a blank and a digit is left out; any other line from a `#` on is one lexeme. */
  lemma HashLine(s: Text) returns (e: nat)
    requires s != [] && s[0] == '#'
    ensures 0 < e <= |s| && (forall k :: 0 <= k < e ==> s[k] != '\n') && (e < |s| ==> s[e] == '\n')
    ensures var rest := if e < |s| then s[e + 1..] else [];
            Out(s) == if |s| > 2 && s[1] == ' ' && s[2] in DIGITS then Out(rest) else s[..e] + "\n" + Out(rest)
  {
    hide Span, Out, NumberEnd, QuoteEnd, TokenLen, Row;
    if |s| > 2 { Digits(s[2]); }
    e := Span(InLine, s, 1);
    SpanMeaning(InLine, s, 1);
    if Marker(s) {
      OutSkip(s);
    } else {
      OutLexeme(s, e, 1);
    }
  }

  /** Blanks are left out. */
  lemma BlankIsNothing(s: Text)
    requires s != [] && s[0] in BLANKS
    ensures Out(s) == Out(s[1..])
  {
    Blanks(s[0]);
    BlankSkips(s[0], s[1..]);
    assert s == [s[0]] + s[1..];
  }

  // ----- operators

  const THREE: seq<Text> := ["...", "<<=", ">>="]

  const TWO: seq<Text> := [
    "++", "--", "->", "<<", ">>", "<=", ">=", "==", "!=", "&&", "||",
    "+=", "-=", "*=", "/=", "%=", "&=", "^=", "|=", "<%", "%>", "<:"
  ]

  ghost predicate Begins(ts: seq<Text>, s: Text) {
    exists t :: t in ts && t <= s
  }

  /** The first token of the table, up to entry `k`, that the text begins with, is `j`. */
  ghost predicate FirstFit(s: Text, j: nat, k: nat) {
    j < k <= |TOKENS| && TOKENS[j] <= s && forall i :: 0 <= i < j ==> !(TOKENS[i] <= s)
  }

  lemma {:induction false} TokenLenSnoc(row: seq<Text>, k: nat, t: Text, s: Text)
    requires k <= |row|
    ensures TokenLen(row + [t], k, s) ==
            if exists i :: k <= i < |row| && row[i] <= s then TokenLen(row, k, s) else if t <= s then |t| else 1
    decreases |row| - k
  {
    if k < |row| {
      TokenLenSnoc(row, k + 1, t, s);
      assert (row + [t])[k] == row[k];
    } else {
      assert (row + [t])[k] == t;
    }
  }

  ghost predicate SomeFits(row: seq<Text>, s: Text) {
    exists i :: 0 <= i < |row| && row[i] <= s
  }

  lemma TokenLenRow(row: seq<Text>, t: Text, s: Text)
    ensures TokenLen(row + [t], 0, s) == if SomeFits(row, s) then TokenLen(row, 0, s) else if t <= s then |t| else 1
    ensures SomeFits(row + [t], s) <==> SomeFits(row, s) || t <= s
  {
    TokenLenSnoc(row, 0, t, s);
    if SomeFits(row, s) {
      var i :| 0 <= i < |row| && row[i] <= s;
      assert (row + [t])[i] <= s;
    }
    assert (row + [t])[|row|] == t;
  }

  /** Searching the row of a character is searching the whole table. */
  lemma {:induction false} RowIsTable(s: Text, k: nat)
    requires s != [] && k <= |TOKENS|
    ensures var row := Row(s[0], k);
            if SomeFits(row, s) then exists j: nat :: FirstFit(s, j, k) && TokenLen(row, 0, s) == |TOKENS[j]|
            else TokenLen(row, 0, s) == 1 && forall j :: 0 <= j < k ==> !(TOKENS[j] <= s)
  {
    hide TOKENS, TokenLen, SomeFits;
    if k == 0 {
      EmptyRow(s);
    } else {
      RowIsTable(s, k - 1);
      var row, t := Row(s[0], k - 1), TOKENS[k - 1];
      TokenLenRow(row, t, s);
      HeadFits(t, s, k - 1);
      assert row + [] == row;
      assert Row(s[0], k) == if [s[0]] <= t then row + [t] else row;
      if SomeFits(row, s) {
        var j: nat :| FirstFit(s, j, k - 1) && TokenLen(row, 0, s) == |TOKENS[j]|;
        assert FirstFit(s, j, k);
      } else if t <= s {
        assert FirstFit(s, k - 1, k);
      }
    }
  }

  lemma EmptyRow(s: Text)
    requires s != []
    ensures Row(s[0], 0) == [] && TokenLen(Row(s[0], 0), 0, s) == 1 && !SomeFits([], s)
  {
  }

  lemma HeadFits(t: Text, s: Text, k: nat)
    requires s != [] && k < |TOKENS| && t == TOKENS[k]
    ensures t != [] && (t <= s ==> [s[0]] <= t)
  {
    TokenStarts(k);
  }

  // ----- the table, entry by entry

  lemma TokenCount()
    ensures |TOKENS| == 50
  {
  }

  lemma Entry(j: nat)
    requires j < |TOKENS|
    ensures |TOKENS| == 50
    ensures TOKENS[j] == if j < 10 then TOKENS0[j] else if j < 20 then TOKENS1[j - 10] else if j < 30 then TOKENS2[j - 20]
                         else if j < 40 then TOKENS3[j - 30] else TOKENS4[j - 40]
  {
  }

  /** The entries of three characters, of two, and of one. */
  ghost predicate Sorted(t: Text, j: nat) {
    if j < 3 then t in THREE
    else if j < 22 || j == 24 || j == 26 || j == 33 then t in TWO
    else if j == 35 then t == ":>"
    else |t| == 1 && (j < 33 ==> t[0] in ";{},:=()[")
  }

  lemma Block0(j: nat)
    requires j < 10
    ensures Sorted(TOKENS0[j], j)
  {
  }

  lemma Block1(j: nat)
    requires j < 10
    ensures Sorted(TOKENS1[j], 10 + j)
  {
  }

  lemma Block2(j: nat)
    requires j < 10
    ensures Sorted(TOKENS2[j], 20 + j)
  {
  }

  lemma Block3(j: nat)
    requires j < 10
    ensures Sorted(TOKENS3[j], 30 + j)
  {
  }

  lemma Block4(j: nat)
    requires j < 10
    ensures Sorted(TOKENS4[j], 40 + j)
  {
  }

  lemma EntrySorted(j: nat)
    requires j < |TOKENS|
    ensures Sorted(TOKENS[j], j)
  {
    hide Sorted, TOKENS0, TOKENS1, TOKENS2, TOKENS3, TOKENS4, TOKENS;
    Entry(j);
    if j < 10 { Block0(j); }
    else if j < 20 { Block1(j - 10); }
    else if j < 30 { Block2(j - 20); }
    else if j < 40 { Block3(j - 30); }
    else { Block4(j - 40); }
  }

  lemma ThreeFiled(t: Text) returns (j: nat)
    requires t in THREE
    ensures |t| == 3 && j < 3 && |TOKENS| == 50 && TOKENS[j] == t
  {
    j := if t == "..." then 0 else if t == ">>=" then 1 else 2;
    Entry(j);
  }

  lemma TwoFiled(t: Text) returns (j: nat)
    requires t in TWO
    ensures |t| == 2 && j < 34 && |TOKENS| == 50 && TOKENS[j] == t && (j >= 22 ==> t[0] == '<' || t[0] == '%')
  {
    hide TOKENS;
    TokenCount();
    j := if t == "+=" then 3 else if t == "-=" then 4 else if t == "*=" then 5 else if t == "/=" then 6
         else if t == "%=" then 7 else if t == "&=" then 8 else if t == "^=" then 9 else if t == "|=" then 10
         else if t == ">>" then 11 else if t == "<<" then 12 else if t == "++" then 13 else if t == "--" then 14
         else if t == "->" then 15 else if t == "&&" then 16 else if t == "||" then 17 else if t == "<=" then 18
         else if t == ">=" then 19 else if t == "==" then 20 else if t == "!=" then 21 else if t == "<%" then 24
         else if t == "%>" then 26 else 33;
    Entry(j);
  }

  lemma NotBegun(s: Text)
    requires forall j :: 0 <= j < |TOKENS| ==> !(TOKENS[j] <= s)
    ensures !Begins(THREE, s) && !Begins(TWO, s)
  {
    hide TOKENS, THREE, TWO;
    if t :| t in THREE && t <= s {
      var j := ThreeFiled(t);
    }
    if t :| t in TWO && t <= s {
      var j := TwoFiled(t);
    }
  }

  /** The first entry that fits is the longest token that does. */
  lemma FirstIsLongest(s: Text, j: nat)
    requires FirstFit(s, j, |TOKENS|)
    ensures |TOKENS[j]| == if Begins(THREE, s) then 3 else if Begins(TWO, s) then 2 else 1
  {
    hide TOKENS, THREE, TWO;
    EntrySorted(j);
    var n := TOKENS[j];
    if j < 3 {
      var i := ThreeFiled(n);
    } else {
      NoThree(s, j);
      if n in TWO {
        var i := TwoFiled(n);
      } else if j == 35 {
        ColonEntry();
        ColonBegins(s);
      } else {
        NoTwo(s, j);
      }
    }
  }

  lemma ColonBegins(s: Text)
    requires ":>" <= s
    ensures ":" <= s
  {
  }

  lemma NoThree(s: Text, j: nat)
    requires FirstFit(s, j, |TOKENS|) && j >= 3
    ensures !Begins(THREE, s)
  {
    hide TOKENS, THREE;
    if t :| t in THREE && t <= s {
      var i := ThreeFiled(t);
    }
  }

  lemma NoTwo(s: Text, j: nat)
    requires FirstFit(s, j, |TOKENS|) && |TOKENS[j]| == 1 && j >= 22 && (j < 33 ==> TOKENS[j][0] in ";{},:=()[")
    ensures !Begins(TWO, s)
  {
    hide TOKENS, TWO;
    if t :| t in TWO && t <= s {
      var i := TwoFiled(t);
    }
  }

  lemma OtherChars(c: char)
    requires !InWord(c) && c !in BLANKS && c != '#' && c != '"' && c != '\''
    ensures c != '#' && !Alpha(c) && !Digit(c) && !Space(c) && !Quote(c)
  {
    Letters(c);
    Blanks(c);
  }

  lemma OperatorNext(s: Text)
    requires s != [] && s[0] != '#' && !Alpha(s[0]) && !Digit(s[0]) && !Space(s[0]) && !Quote(s[0])
    ensures var n := TokenLen(Row(s[0], |TOKENS|), 0, s); Next(s) == Lexeme(n, n)
  {
    hide NumberEnd, QuoteEnd, TokenLen, Row, Span, TOKENS;
  }

  lemma LongestLength(s: Text)
    requires s != []
    ensures TokenLen(Row(s[0], |TOKENS|), 0, s) == if Begins(THREE, s) then 3 else if Begins(TWO, s) then 2 else 1
  {
    hide TOKENS, THREE, TWO, SomeFits, Row, TokenLen, Begins;
    var row := Row(s[0], |TOKENS|);
    RowIsTable(s, |TOKENS|);
    if SomeFits(row, s) {
      var j: nat :| FirstFit(s, j, |TOKENS|) && TokenLen(row, 0, s) == |TOKENS[j]|;
      FirstIsLongest(s, j);
    } else {
      NotBegun(s);
    }
  }

  /** What begins with any other character is the longest operator there is, or the character alone.  (`:>` is not
      among the operators: see `ColonFirst`.) */
  lemma OperatorIsLongest(s: Text)
    requires s != [] && !InWord(s[0]) && s[0] !in BLANKS && s[0] != '#' && s[0] != '"' && s[0] != '\''
    ensures var n := if Begins(THREE, s) then 3 else if Begins(TWO, s) then 2 else 1;
            n <= |s| && Out(s) == s[..n] + "\n" + Out(s[n..])
  {
    hide Next, Out, TOKENS, THREE, TWO, Row, TokenLen, InWord, BLANKS, Alpha, Space, Quote, Begins;
    OtherChars(s[0]);
    OperatorNext(s);
    LongestLength(s);
    OutLexeme(s, TokenLen(Row(s[0], |TOKENS|), 0, s), 0);
  }
}
