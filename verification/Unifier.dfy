/** The unifier as code (CCache/unify.c): offset loops over the input, a 64-byte buffer in front of the hash. */
module Unifier {
  import opened Scan
  import opened Wrappers
  import opened Unify
  import opened Md4

  /** Bytes of a C string: never zero. */
  ghost predicate IsText(s: Text) {
    forall i :: 0 <= i < |s| ==> 0 < s[i] as int < 256
  }

  function ByteOf(c: char): Byte
    requires c as int < 256
  {
    c as int as Byte
  }

  ghost function Bytes(s: Text): seq<Byte>
    requires IsText(s)
  {
    seq(|s|, i requires 0 <= i < |s| => s[i] as int as Byte)
  }

  /** The hash state once `t` has been pushed. */
  ghost function Fed(st: State, t: Text): State
    requires IsText(t)
  {
    Feed(st, Bytes(t))
  }

  lemma FedConcat(st: State, x: Text, y: Text)
    requires IsText(x) && IsText(y)
    ensures IsText(x + y) && Fed(Fed(st, x), y) == Fed(st, x + y)
  {
    hide Feed, ByteOf;
    FeedConcat(st, Bytes(x), Bytes(y));
    assert Bytes(x) + Bytes(y) == Bytes(x + y);
  }

  lemma FedNothing(st: State)
    requires Ready(st)
    ensures Fed(st, []) == st
  {
    FeedNothing(st);
  }

  /** What one item adds to the stream. */
  ghost function Emitted(s: Text, item: Item): Text
    requires item.Lexeme? ==> item.len <= |s|
  {
    if item.Lexeme? then s[..item.len] + "\n" else []
  }

  // ----- offsets into the whole text against offsets into the rest of it

  lemma {:induction false} SpanShift(cls: char -> bool, s: Text, k: nat, i: nat)
    requires k <= |s|
    ensures Span(cls, s[k..], i) + k == Span(cls, s, k + i)
    decreases |s| - i
  {
    if k + i < |s| && cls(s[k + i]) { SpanShift(cls, s, k, i + 1); }
  }

  lemma NumberShift(s: Text, k: nat)
    requires k < |s|
    ensures NumberEnd(s[k..], 0) + k == NumberEnd(s, k)
  {
    hide Span;
    var t := s[k..];
    SpanShift(DigitOrDot, s, k, 1);
    var a := Span(DigitOrDot, t, 1);
    SpanShift(Hex, s, k, a + 1);
    var b := if a < |t| && t[a] in "xX" then Span(Hex, t, a + 1) else a;
    SpanShift(DigitOrSign, s, k, b + 1);
    var c := if b < |t| && t[b] in "eE" then Span(DigitOrSign, t, b + 1) else b;
    SpanShift(Float, s, k, c);
  }

  lemma {:induction false} QuoteShift(s: Text, q: char, k: nat, i: nat)
    requires k <= |s|
    ensures QuoteEnd(s, q, k + i) == match QuoteEnd(s[k..], q, i) case None => None case Some(e) => Some(k + e)
    decreases |s| - i
  {
    if k + i < |s| {
      QuoteShift(s, q, k, i + 1);
      QuoteShift(s, q, k, i + 2);
    }
  }

  /** `c` is where the suffix letters of the number at `ofs` may begin. */
  ghost predicate BeforeSuffix(p: Text, ofs: nat, c: nat) {
    ofs < c <= |p| && NumberEnd(p, ofs) == Span(Float, p, c)
  }

  class Unifier {
    const toks: array<seq<Text>>
    const buf: array<Byte>
    var len: nat
    const md: Mdfour

    ghost predicate Valid()
      reads this, md
    {
      buf.Length == 64 && len < 64 && md.Valid() && buf != md.tail
    }

    ghost predicate TableReady()
      reads toks
    {
      toks.Length == 256 && forall c: nat :: c < 256 ==> toks[c] == Row(c as char, |TOKENS|)
    }

    /** The hash state as it will be when the buffer has been passed on. */
    ghost function Hashed(): (st: State)
      requires Valid()
      reads this, buf, md, md.tail
      ensures Ready(st)
    {
      FeedReady(md.Value(), buf[..len]);
      Feed(md.Value(), buf[..len])
    }

    constructor ()
      ensures Valid() && fresh(buf) && fresh(md) && fresh(md.tail) && fresh(toks)
      ensures Hashed() == BEGIN && toks.Length == 256
    {
      toks := new seq<Text>[256](_ => []);
      buf := new Byte[64];
      len := 0;
      md := new Mdfour();
      new;
      FeedNothing(BEGIN);
      assert buf[..0] == [];
    }

    /** build_table: the tokens of the table, filed under their first character, in rows of seven places. */
    method BuildTable()
      requires toks.Length == 256
      modifies toks
      ensures TableReady()
    {
      forall c | 0 <= c < 256 { toks[c] := []; }
      var i := 0;
      while i < |TOKENS|
        invariant 0 <= i <= |TOKENS|
        invariant forall c: nat :: c < 256 ==> toks[c] == Row(c as char, i)
      {
        TokenStart(TOKENS[i]);
        var c := TOKENS[i][0];
        RoomInRow(c, i);
        assert |toks[c as int]| < ROW_PLACES;
        toks[c as int] := toks[c as int] + [TOKENS[i]];
        i := i + 1;
      }
    }

    /** pushchar of anything but zero */
    method Pushchar(c: char)
      requires Valid() && 0 < c as int < 256
      modifies this`len, buf, md, md.tail
      ensures Valid() && Hashed() == Fed(old(Hashed()), [c])
    {
      hide Feed;
      ghost var st, now := md.Value(), Hashed();
      ghost var held := buf[..len];
      buf[len] := ByteOf(c);
      len := len + 1;
      assert buf[..len] == held + [ByteOf(c)];
      FeedConcat(st, held, [ByteOf(c)]);
      assert Bytes([c]) == [ByteOf(c)];
      if len == 64 {
        md.Update(buf[..]);
        len := 0;
        assert buf[..][..64] == buf[..64];
        assert buf[..len] == [];
        assert buf[..] == held + [ByteOf(c)];
        FeedReady(st, held + [ByteOf(c)]);
        FeedNothing(md.Value());
      }
    }

    /** pushchar(0) */
    method Finished()
      requires Valid()
      modifies this`len, buf, md, md.tail
      ensures Valid() && len == 0 && md.Value() == Finish(old(Hashed()))
    {
      hide Feed, Finish;
      if len > 0 {
        md.Update(buf[..len]);
        len := 0;
      } else {
        FeedNothing(md.Value());
        assert buf[..len] == [];
      }
      md.Tail();
    }

    /** while (ofs < size && the character is of the class) pushchar */
    method PushWhile(p: Text, ofs: nat, cls: char -> bool) returns (e: nat)
      requires Valid() && IsText(p) && ofs <= |p|
      modifies this`len, buf, md, md.tail
      ensures Valid() && e == Span(cls, p, ofs) && Hashed() == Fed(old(Hashed()), p[ofs..e])
    {
      hide Fed, Hashed;
      e := ofs;
      FedNothing(Hashed());
      assert p[ofs..ofs] == [];
      while e < |p| && cls(p[e])
        invariant ofs <= e <= |p| && Span(cls, p, e) == Span(cls, p, ofs)
        invariant Valid() && Hashed() == Fed(old(Hashed()), p[ofs..e])
        decreases |p| - e
      {
        Pushchar(p[e]);
        FedConcat(old(Hashed()), p[ofs..e], [p[e]]);
        SliceSnoc(p, ofs, e);
        e := e + 1;
      }
    }

    /** The do-while form: the first character is pushed whatever it is. */
    method PushFirst(p: Text, ofs: nat, cls: char -> bool) returns (e: nat)
      requires Valid() && IsText(p) && ofs < |p|
      modifies this`len, buf, md, md.tail
      ensures Valid() && e == Span(cls, p, ofs + 1) && Hashed() == Fed(old(Hashed()), p[ofs..e])
    {
      hide Fed, Hashed, Span;
      Pushchar(p[ofs]);
      e := PushWhile(p, ofs + 1, cls);
      FedConcat(old(Hashed()), [p[ofs]], p[ofs + 1..e]);
      assert [p[ofs]] + p[ofs + 1..e] == p[ofs..e];
    }

    /** pushchar('\n') after a lexeme */
    method EndLexeme(p: Text, ofs: nat, e: nat, ghost st: State)
      requires Valid() && IsText(p) && ofs <= e <= |p| && Hashed() == Fed(st, p[ofs..e])
      modifies this`len, buf, md, md.tail
      ensures Valid() && IsText(p[ofs..][..e - ofs] + "\n") && Hashed() == Fed(st, p[ofs..][..e - ofs] + "\n")
    {
      hide Fed, Hashed;
      Pushchar('\n');
      FedConcat(st, p[ofs..e], "\n");
      assert p[ofs..e] == p[ofs..][..e - ofs];
    }

    method Directive(p: Text, ofs: nat) returns (e: nat)
      requires Valid() && IsText(p) && ofs < |p| && p[ofs] == '#'
      modifies this`len, buf, md, md.tail
      ensures var s := p[ofs..]; var item := Next(s);
              && e == ofs + item.n
              && (item.Lexeme? ==> item.len <= |s|) && IsText(Emitted(s, item))
              && Valid() && Hashed() == Fed(old(Hashed()), Emitted(s, item))
    {
      hide Fed, Hashed, Span;
      SpanShift(InLine, p, ofs, 1);
      if |p| - ofs > 2 && p[ofs + 1] == ' ' && Digit(p[ofs + 2]) {
        e := SkipWhile(p, ofs + 1, InLine);
        e := e + 1;
        FedNothing(Hashed());
      } else {
        e := PushFirst(p, ofs, InLine);
        EndLexeme(p, ofs, e, old(Hashed()));
        e := e + 1;
      }
    }

    method Identifier(p: Text, ofs: nat) returns (e: nat)
      requires Valid() && IsText(p) && ofs < |p| && Alpha(p[ofs])
      modifies this`len, buf, md, md.tail
      ensures var s := p[ofs..]; var item := Next(s);
              && e == ofs + item.n
              && item.Lexeme? && item.len <= |s| && IsText(Emitted(s, item))
              && Valid() && Hashed() == Fed(old(Hashed()), Emitted(s, item))
    {
      hide Fed, Hashed, Span;
      SpanShift(AlphaOrDigit, p, ofs, 1);
      e := PushFirst(p, ofs, AlphaOrDigit);
      EndLexeme(p, ofs, e, old(Hashed()));
    }

    /** One optional part of a number: if the text goes on with one of `letters`, it and what follows it. */
    method Part(p: Text, ofs: nat, at: nat, letters: string, cls: char -> bool, ghost st: State) returns (e: nat)
      requires Valid() && IsText(p) && ofs <= at <= |p| && Hashed() == Fed(st, p[ofs..at])
      modifies this`len, buf, md, md.tail
      ensures Valid() && at <= e <= |p| && Hashed() == Fed(st, p[ofs..e])
      ensures e == if at < |p| && p[at] in letters then Span(cls, p, at + 1) else at
    {
      hide Fed, Hashed, Span;
      e := at;
      if at < |p| && p[at] in letters {
        e := PushFirst(p, at, cls);
        FedConcat(st, p[ofs..at], p[at..e]);
        assert p[ofs..at] + p[at..e] == p[ofs..e];
      }
    }

    /** A number up to its suffix letters. */
    method Mantissa(p: Text, ofs: nat) returns (c: nat)
      requires Valid() && IsText(p) && ofs < |p|
      modifies this`len, buf, md, md.tail
      ensures Valid() && BeforeSuffix(p, ofs, c)
      ensures Hashed() == Fed(old(Hashed()), p[ofs..c])
    {
      hide Fed, Hashed, Span, IsText;
      var a := PushFirst(p, ofs, DigitOrDot);
      var b := Part(p, ofs, a, "xX", Hex, old(Hashed()));
      c := Part(p, ofs, b, "eE", DigitOrSign, old(Hashed()));
    }

    method Number(p: Text, ofs: nat) returns (e: nat)
      requires Valid() && IsText(p) && ofs < |p| && Digit(p[ofs])
      modifies this`len, buf, md, md.tail
      ensures var s := p[ofs..]; var item := Next(s);
              && e == ofs + item.n
              && item.Lexeme? && item.len <= |s| && IsText(Emitted(s, item))
              && Valid() && Hashed() == Fed(old(Hashed()), Emitted(s, item))
    {
      hide Fed, Hashed, Span, NumberEnd;
      NumberShift(p, ofs);
      var c := Mantissa(p, ofs);
      e := PushWhile(p, c, Float);
      FedConcat(old(Hashed()), p[ofs..c], p[c..e]);
      assert p[ofs..c] + p[c..e] == p[ofs..e];
      EndLexeme(p, ofs, e, old(Hashed()));
    }

    /** The escapes at one place of a constant, then the character that stands there. */
    method Escapes(p: Text, ofs: nat, at: nat, q: char, ghost st: State) returns (e: nat)
      requires Valid() && IsText(p) && ofs <= at < |p| && Hashed() == Fed(st, p[ofs..at]) && Quote(q)
      requires QuoteEnd(p, q, at).Some?
      modifies this`len, buf, md, md.tail
      ensures Valid() && at <= e < |p| && Hashed() == Fed(st, p[ofs..e + 1])
      ensures QuoteEnd(p, q, at) == if p[e] == q then Some(e + 1) else QuoteEnd(p, q, e + 1)
    {
      hide Fed, Hashed;
      e := at;
      while e < |p| - 1 && p[e] == '\\'
        invariant ofs <= at <= e <= |p| && Valid() && Hashed() == Fed(st, p[ofs..e])
        invariant QuoteEnd(p, q, e) == QuoteEnd(p, q, at)
        decreases |p| - e
      {
        Pushchar(p[e]);
        FedConcat(st, p[ofs..e], [p[e]]);
        SliceSnoc(p, ofs, e);
        Pushchar(p[e + 1]);
        FedConcat(st, p[ofs..e + 1], [p[e + 1]]);
        SliceSnoc(p, ofs, e + 1);
        e := e + 2;
      }
      Pushchar(p[e]);
      FedConcat(st, p[ofs..e], [p[e]]);
      SliceSnoc(p, ofs, e);
    }

    method Quoted(p: Text, ofs: nat) returns (e: nat)
      requires Valid() && IsText(p) && ofs < |p| && Quote(p[ofs]) && Next(p[ofs..]) != Unclosed
      requires !Alpha(p[ofs]) && !Digit(p[ofs]) && !Space(p[ofs]) && p[ofs] != '#'
      modifies this`len, buf, md, md.tail
      ensures var s := p[ofs..]; var item := Next(s);
              && e == ofs + item.n
              && item.Lexeme? && item.len <= |s| && IsText(Emitted(s, item))
              && Valid() && Hashed() == Fed(old(Hashed()), Emitted(s, item))
    {
      hide Fed, Hashed, QuoteEnd;
      var q := p[ofs];
      QuoteShift(p, q, ofs, 1);
      Pushchar(q);
      assert [q] == p[ofs..ofs + 1];
      e := Escapes(p, ofs, ofs + 1, q, old(Hashed()));
      while e < |p| && p[e] != q
        invariant ofs < e < |p| && Valid() && Hashed() == Fed(old(Hashed()), p[ofs..e + 1])
        invariant QuoteEnd(p, q, ofs + 1) == if p[e] == q then Some(e + 1) else QuoteEnd(p, q, e + 1)
        decreases |p| - e
      {
        e := Escapes(p, ofs, e + 1, q, old(Hashed()));
      }
      e := e + 1;
      EndLexeme(p, ofs, e, old(Hashed()));
    }

    /** The first matching token of the row; any other character is a lexeme by itself. */
    method Token(p: Text, ofs: nat) returns (e: nat)
      requires Valid() && TableReady() && IsText(p) && ofs < |p|
      requires !Alpha(p[ofs]) && !Digit(p[ofs]) && !Space(p[ofs]) && !Quote(p[ofs]) && p[ofs] != '#'
      modifies this`len, buf, md, md.tail
      ensures var s := p[ofs..]; var item := Next(s);
              && e == ofs + item.n
              && item.Lexeme? && item.len <= |s| && IsText(Emitted(s, item))
              && Valid() && Hashed() == Fed(old(Hashed()), Emitted(s, item))
    {
      hide Fed, Hashed, Row, TokenLen;
      var row := toks[p[ofs] as int];
      assert row == Row(p[ofs], |TOKENS|);
      ghost var s := p[ofs..];
      NextBounds(s);
      var i := FindToken(row, p, ofs);
      if i < |row| {
        e := PushToken(row[i], p, ofs, old(Hashed()));
      } else {
        Pushchar(p[ofs]);
        e := ofs + 1;
        assert [p[ofs]] == p[ofs..e];
      }
      EndLexeme(p, ofs, e, old(Hashed()));
    }

    method FindToken(row: seq<Text>, p: Text, ofs: nat) returns (i: nat)
      requires ofs <= |p|
      ensures i <= |row|
      ensures if i < |row| then row[i] <= p[ofs..] && TokenLen(row, 0, p[ofs..]) == |row[i]|
              else TokenLen(row, 0, p[ofs..]) == 1
    {
      i := 0;
      while i < |row|
        invariant 0 <= i <= |row| && TokenLen(row, i, p[ofs..]) == TokenLen(row, 0, p[ofs..])
      {
        var len := |row[i]|;
        if |p| >= ofs + len {
          assert p[ofs..ofs + len] == p[ofs..][..len];
          if p[ofs..ofs + len] == row[i] {
            return;
          }
        }
        i := i + 1;
      }
    }

    method PushToken(t: Text, p: Text, ofs: nat, ghost st: State) returns (e: nat)
      requires Valid() && IsText(p) && ofs <= |p| && t <= p[ofs..] && Hashed() == st
      modifies this`len, buf, md, md.tail
      ensures e == ofs + |t| && Valid() && Hashed() == Fed(st, p[ofs..e])
    {
      hide Fed, Hashed;
      FedNothing(st);
      e := ofs;
      assert p[ofs..ofs] == [];
      var j := 0;
      while j < |t|
        invariant 0 <= j <= |t| && e == ofs + j && Valid() && Hashed() == Fed(st, p[ofs..e])
      {
        assert t[j] == p[ofs..][j];
        Pushchar(t[j]);
        FedConcat(st, p[ofs..e], [t[j]]);
        SliceSnoc(p, ofs, e);
        e := e + 1;
        j := j + 1;
      }
    }

    /** unify: what reaches the hash is the stream, whole and in order, whatever the buffer held back meanwhile; then
        the hash is finished. */
    method Unify(p: Text)
      requires Valid() && toks.Length == 256 && IsText(p) && Closed(p)
      modifies this`len, buf, md, md.tail, toks
      ensures Valid() && len == 0 && IsText(Out(p)) && md.Value() == Finish(Fed(old(Hashed()), Out(p)))
    {
      hide Fed, Hashed, Next, Out, Closed, Row, TableReady, Finish;
      BuildTable();
      ghost var st, done := Hashed(), [];
      FedNothing(st);
      OutNothing();
      var ofs := 0;
      assert Drop(p, 0) == p;
      while ofs < |p|
        invariant Valid() && TableReady() && IsText(done) && Hashed() == Fed(st, done)
        invariant done + Out(Drop(p, ofs)) == Out(p) && Closed(Drop(p, ofs))
        decreases |p| - ofs
      {
        ofs, done := Turn(p, ofs, st, done);
      }
      assert Drop(p, ofs) == [];
      assert done + [] == done;
      Finished();
    }

    /** One turn of the loop, which has emitted `done` so far. */
    method Turn(p: Text, ofs: nat, ghost st: State, ghost done: Text) returns (e: nat, ghost done': Text)
      requires Valid() && TableReady() && IsText(p) && ofs < |p| && Closed(Drop(p, ofs))
      requires IsText(done) && Ready(st) && Hashed() == Fed(st, done)
      modifies this`len, buf, md, md.tail
      ensures Valid() && TableReady() && ofs < e && Closed(Drop(p, e))
      ensures IsText(done') && Hashed() == Fed(st, done')
      ensures done' + Out(Drop(p, e)) == done + Out(Drop(p, ofs))
    {
      hide Fed, Hashed, Next, Out, Closed, Row;
      ghost var s := p[ofs..];
      ghost var item := Next(s);
      OutItem(s);
      NextBounds(s);
      e := OneItem(p, ofs);
      done' := done;
      if Space(p[ofs]) {
        BlanksSkip(p, ofs);
      } else {
        FedConcat(st, done, Emitted(s, item));
        assert Drop(s, item.n) == Drop(p, e);
        assert done + (Emitted(s, item) + Out(Drop(p, e))) == done + Emitted(s, item) + Out(Drop(p, e));
        done' := done + Emitted(s, item);
      }
    }

    /** One item.  A run of blanks is skipped in one go, although each blank is an item. */
    method OneItem(p: Text, ofs: nat) returns (e: nat)
      requires Valid() && TableReady() && IsText(p) && ofs < |p| && Next(p[ofs..]) != Unclosed
      modifies this`len, buf, md, md.tail
      ensures Valid()
      ensures Space(p[ofs]) ==> e == Span(Space, p, ofs) && Hashed() == old(Hashed())
      ensures !Space(p[ofs]) ==>
                var s := p[ofs..]; var item := Next(s);
                && e == ofs + item.n
                && (item.Lexeme? ==> item.len <= |s|) && IsText(Emitted(s, item))
                && Hashed() == Fed(old(Hashed()), Emitted(s, item))
    {
      hide Fed, Hashed, Row, TokenLen, QuoteEnd, NumberEnd;
      if p[ofs] == '#' {
        e := Directive(p, ofs);
      } else if Alpha(p[ofs]) {
        e := Identifier(p, ofs);
      } else if Digit(p[ofs]) {
        e := Number(p, ofs);
      } else if Space(p[ofs]) {
        e := SkipWhile(p, ofs + 1, Space);
      } else if Quote(p[ofs]) {
        e := Quoted(p, ofs);
      } else {
        e := Token(p, ofs);
      }
    }
  }

  /** The loops that only move the offset. */
  method SkipWhile(p: Text, ofs: nat, cls: char -> bool) returns (e: nat)
    requires ofs <= |p|
    ensures e == Span(cls, p, ofs)
  {
    e := ofs;
    while e < |p| && cls(p[e])
      invariant ofs <= e <= |p| && Span(cls, p, e) == Span(cls, p, ofs)
    {
      e := e + 1;
    }
  }

  lemma RoomInRow(c: char, i: nat)
    requires i < |TOKENS| && [c] <= TOKENS[i]
    ensures |Row(c, i)| < ROW_PLACES
  {
    RowsFit(c, i + 1);
  }

  lemma TokenStart(t: Text)
    requires t in TOKENS
    ensures t != [] && t[0] as int < 256 && forall c: char :: [c] <= t <==> c == t[0]
  {
    TokensGood(t);
    TokensAscii(t);
  }

  lemma TokensAscii(t: Text)
    requires t in TOKENS && t != []
    ensures t[0] as int < 256
  {
    if t in TOKENS0 {
    } else if t in TOKENS1 {
    } else if t in TOKENS2 {
    } else if t in TOKENS3 {
    } else {
    }
  }

  lemma OutNothing()
    ensures Out([]) == []
  {
  }

  lemma {:induction false} BlanksSkip(p: Text, ofs: nat)
    requires ofs < |p| && Space(p[ofs]) && Closed(p[ofs..])
    ensures var e := Span(Space, p, ofs); ofs < e && Out(Drop(p, e)) == Out(p[ofs..]) && Closed(Drop(p, e))
    decreases |p| - ofs
  {
    hide Out, Closed;
    OutItem(p[ofs..]);
    assert Next(p[ofs..]) == Skip(1);
    assert Drop(p[ofs..], 1) == p[ofs + 1..];
    assert [] + Out(p[ofs + 1..]) == Out(p[ofs + 1..]);
    if ofs + 1 < |p| && Space(p[ofs + 1]) { BlanksSkip(p, ofs + 1); }
  }

  lemma OutItem(s: Text)
    requires s != [] && Closed(s)
    ensures Next(s) != Unclosed && (Next(s).Lexeme? ==> Next(s).len <= |s|)
    ensures Out(s) == Emitted(s, Next(s)) + Out(Drop(s, Next(s).n)) && Closed(Drop(s, Next(s).n))
  {
    hide Next;
    NextBounds(s);
  }
}
