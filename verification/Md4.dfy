/** The streaming MD4 of the compiler cache (CCache/mdfour.c) against RFC 1320.

    The first half is RFC 1320: padding (3.1, 3.2), the buffer (3.3), the 48 steps (3.4) and the byte order.  The
    second half is the code: an accumulator fed by `mdfour_update`, finished by `mdfour_tail`.
 */
module Md4 {
  import opened Wrappers

  type Byte = bv8
  type Word = bv32

  datatype Regs = Regs(a: Word, b: Word, c: Word, d: Word)

  const INIT := Regs(0x67452301, 0xefcdab89, 0x98badcfe, 0x10325476)

  // ----- words and bytes, low-order byte first (sections 2 and 3.5)

  function LoadWord(b: seq<Byte>): Word
    requires |b| == 4
  {
    (b[3] as Word << 24) | (b[2] as Word << 16) | (b[1] as Word << 8) | b[0] as Word
  }

  function StoreWord(x: Word): (b: seq<Byte>)
    ensures |b| == 4 && LoadWord(b) == x
  {
    [(x & 0xff) as Byte, ((x >> 8) & 0xff) as Byte, ((x >> 16) & 0xff) as Byte, ((x >> 24) & 0xff) as Byte]
  }

  /** Reading four bytes as a word loses nothing. */
  lemma StoreOfLoad(b: seq<Byte>)
    requires |b| == 4
    ensures StoreWord(LoadWord(b)) == b
  {
    assert b == [b[0], b[1], b[2], b[3]];
  }

  function Words(block: seq<Byte>): (x: seq<Word>)
    requires |block| == 64
    ensures |x| == 16
  {
    seq(16, i requires 0 <= i < 16 => LoadWord(block[4 * i..4 * i + 4]))
  }

  // ----- section 3.4: one block of sixteen words

  function F(x: Word, y: Word, z: Word): Word { (x & y) | (!x & z) }
  function G(x: Word, y: Word, z: Word): Word { (x & y) | (x & z) | (y & z) }
  function H(x: Word, y: Word, z: Word): Word { x ^ y ^ z }

  /** Where step `i` takes its word from, and by how much it rotates. */
  function Index(i: nat): (k: nat)
    requires i < 48
    ensures k < 16
  {
    if i < 16 then i
    else if i < 32 then (i % 4) * 4 + (i - 16) / 4
    else [0, 8, 4, 12, 2, 10, 6, 14, 1, 9, 5, 13, 3, 11, 7, 15][i - 32]
  }

  function Amount(i: nat): (s: nat)
    requires i < 48
    ensures s <= 32
  {
    (if i < 16 then [3, 7, 11, 19] else if i < 32 then [3, 5, 9, 13] else [3, 9, 11, 15])[i % 4]
  }

  /** What each round rotates. */
  function Sum1(a: Word, b: Word, c: Word, d: Word, x: Word): Word { a + F(b, c, d) + x }
  function Sum2(a: Word, b: Word, c: Word, d: Word, x: Word): Word { a + G(b, c, d) + x + 0x5A827999 }
  function Sum3(a: Word, b: Word, c: Word, d: Word, x: Word): Word { a + H(b, c, d) + x + 0x6ED9EBA1 }

  function Rotate(x: Word, s: nat): Word
    requires s <= 32
  {
    x.RotateLeft(s)
  }

  /** The word written by step `i`, the register letters standing where that step has them. */
  function Op(i: nat, r: Regs, x: Word): Word
    requires i < 48
  {
    var sum := if i < 16 then Sum1(r.a, r.b, r.c, r.d, x)
               else if i < 32 then Sum2(r.a, r.b, r.c, r.d, x) else Sum3(r.a, r.b, r.c, r.d, x);
    Rotate(sum, Amount(i))
  }

  /** After each step the four letters move on by one. */
  function Step(i: nat, r: Regs, x: seq<Word>): Regs
    requires i < 48 && |x| == 16
  {
    Regs(r.d, Op(i, r, x[Index(i)]), r.b, r.c)
  }

  function Steps(n: nat, r: Regs, x: seq<Word>): Regs
    requires n <= 48 && |x| == 16
    decreases n, |x|
  {
    if n == 0 then r else Step(n - 1, Steps(n - 1, r, x), x)
  }

  /** Addition of words, modulo 2^32. */
  function Add(x: Word, y: Word): Word { x + y }

  function Plus(e: Regs, r: Regs): Regs {
    Regs(Add(e.a, r.a), Add(e.b, r.b), Add(e.c, r.c), Add(e.d, r.d))
  }

  function Compress(r: Regs, x: seq<Word>): Regs
    requires |x| == 16
  {
    Plus(Steps(48, r, x), r)
  }

  function Blocks(r: Regs, data: seq<Byte>): Regs
    requires |data| % 64 == 0
    decreases |data|
  {
    if data == [] then r else Blocks(Compress(r, Words(data[..64])), data[64..])
  }

  lemma {:induction false} BlocksConcat(r: Regs, x: seq<Byte>, y: seq<Byte>)
    requires |x| % 64 == 0 && |y| % 64 == 0
    ensures Blocks(r, x + y) == Blocks(Blocks(r, x), y)
    decreases |x|
  {
    hide Compress, Words;
    if x == [] {
      assert x + y == y;
    } else {
      BlocksConcat(Compress(r, Words(x[..64])), x[64..], y);
      assert (x + y)[..64] == x[..64] && (x + y)[64..] == x[64..] + y;
    }
  }

  // ----- sections 3.1 and 3.2: padding

  function Zeros(n: nat): (z: seq<Byte>)
    ensures |z| == n && forall i :: 0 <= i < n ==> z[i] == 0
  {
    seq(n, _ => 0)
  }

  /** The low and the high word of the 64-bit length in bits. */
  function LowBits(len: nat): Word { ((8 * len) % TWO32) as Word }
  function HighBits(len: nat): Word { ((8 * len / TWO32) % TWO32) as Word }

  /** The number of zero bytes after the 0x80. */
  function Gap(len: nat): (g: nat) {
    (55 - len as int) % 64
  }

  /** The least padding that leaves room for the length: any shorter one misses the block boundary. */
  lemma GapIsLeast(len: nat, g: nat)
    ensures (len + 1 + Gap(len) + 8) % 64 == 0
    ensures g < Gap(len) ==> (len + 1 + g + 8) % 64 != 0
  {
  }

  function Padded(msg: seq<Byte>): (p: seq<Byte>)
    ensures |p| == |msg| + 1 + Gap(|msg|) + 8 && |p| % 64 == 0
  {
    GapIsLeast(|msg|, 0);
    msg + [0x80] + Zeros(Gap(|msg|)) + StoreWord(LowBits(|msg|)) + StoreWord(HighBits(|msg|))
  }

  /** RFC 1320, up to the four registers that make up the digest. */
  function Rfc(msg: seq<Byte>): Regs {
    Blocks(INIT, Padded(msg))
  }

  function Output(r: Regs): (d: seq<Byte>)
    ensures |d| == 16
  {
    StoreWord(r.a) + StoreWord(r.b) + StoreWord(r.c) + StoreWord(r.d)
  }

  // ----- the accumulator

  /** What `struct mdfour` holds: the registers, the 32-bit count and the bytes not yet hashed. */
  datatype State = State(regs: Regs, total: nat, tail: seq<Byte>)

  ghost predicate Ready(st: State) {
    |st.tail| < 64 && st.total < TWO32
  }

  const BEGIN := State(INIT, 0, [])

  function Whole(n: nat): (w: nat)
    ensures w % 64 == 0 && w <= n < w + 64
  {
    n / 64 * 64
  }

  /** What any number of bytes does to the state: whole blocks are hashed, the rest waits. */
  function Feed(st: State, bytes: seq<Byte>): (r: State)
    ensures |r.tail| < 64
  {
    var data := st.tail + bytes;
    var w := Whole(|data|);
    State(Blocks(st.regs, data[..w]), (st.total + w) % TWO32, data[w..])
  }

  lemma WholeSum(n: nat, m: nat)
    ensures Whole(n) + Whole(n - Whole(n) + m) == Whole(n + m)
  {
  }

  lemma WrapSum(t: nat, x: nat, y: nat)
    ensures ((t + x) % TWO32 + y) % TWO32 == (t + (x + y)) % TWO32
  {
  }

  /** Two feeds are one: the state does not remember where the input was cut. */
  lemma FeedConcat(st: State, x: seq<Byte>, y: seq<Byte>)
    ensures Feed(Feed(st, x), y) == Feed(st, x + y)
  {
    hide Blocks, Whole;
    var d := st.tail + x;
    var w := Whole(|d|);
    var d2 := d[w..] + y;
    var w2 := Whole(|d2|);
    WholeSum(|d|, |y|);
    WrapSum(st.total, w, w2);
    assert st.tail + (x + y) == d + y;
    assert (d + y)[..w + w2] == d[..w] + d2[..w2];
    assert (d + y)[w + w2..] == d2[w2..];
    BlocksConcat(st.regs, d[..w], d2[..w2]);
  }

  ghost function FeedAll(st: State, pieces: seq<seq<Byte>>): State
    decreases |pieces|
  {
    if pieces == [] then st else FeedAll(Feed(st, pieces[0]), pieces[1..])
  }

  ghost function Joined(pieces: seq<seq<Byte>>): seq<Byte> {
    if pieces == [] then [] else pieces[0] + Joined(pieces[1..])
  }

  /** However a message is cut into updates, the state is the one of a single update. */
  lemma {:induction false} StreamingIsOneShot(st: State, pieces: seq<seq<Byte>>)
    requires Ready(st)
    ensures FeedAll(st, pieces) == Feed(st, Joined(pieces))
    decreases |pieces|
  {
    hide Feed;
    if pieces == [] {
      FeedNothing(st);
    } else {
      FeedReady(st, pieces[0]);
      StreamingIsOneShot(Feed(st, pieces[0]), pieces[1..]);
      FeedConcat(st, pieces[0], Joined(pieces[1..]));
    }
  }

  lemma FeedNothing(st: State)
    requires Ready(st)
    ensures Feed(st, []) == st
  {
    assert st.tail + [] == st.tail;
    assert Whole(|st.tail|) == 0;
    assert st.tail[..0] == [];
  }

  lemma FeedReady(st: State, x: seq<Byte>)
    ensures Ready(Feed(st, x))
  {
  }

  // ----- finishing

  /** The last one or two blocks as `mdfour_tail` builds them: the length word takes 32 bits, the four bytes after
      it stay zero. */
  function CodePad(tail: seq<Byte>, b: Word): (p: seq<Byte>)
    requires |tail| < 64
    ensures |p| == if |tail| <= 55 then 64 else 128
  {
    tail + [0x80] + Zeros((if |tail| <= 55 then 55 else 119) - |tail|) + StoreWord(b) + Zeros(4)
  }

  function Finish(st: State): (r: State)
    requires |st.tail| < 64
    ensures r.tail == st.tail
  {
    var t := (st.total + |st.tail|) % TWO32;
    State(Blocks(st.regs, CodePad(st.tail, ((8 * t) % TWO32) as Word)), t, st.tail)
  }

  /** The byte stream the code hashes for a message: what it fed, and the tail it made up. */
  function CodeStream(msg: seq<Byte>, b: Word): (s: seq<Byte>)
    ensures |s| % 64 == 0
  {
    var w := Whole(|msg|);
    msg[..w] + CodePad(msg[w..], b)
  }

  lemma GapOfTail(len: nat)
    ensures var t := len - Whole(len); Gap(len) == (if t <= 55 then 55 else 119) - t
  {
  }

  lemma ZeroWord()
    ensures StoreWord(0) == Zeros(4)
  {
    assert StoreWord(0) == [0, 0, 0, 0];
  }

  lemma CodeStreamShape(msg: seq<Byte>)
    ensures CodeStream(msg, LowBits(|msg|)) == msg + [0x80] + Zeros(Gap(|msg|)) + StoreWord(LowBits(|msg|)) + Zeros(4)
  {
    hide StoreWord, Whole, Gap;
    var w := Whole(|msg|);
    assert msg == msg[..w] + msg[w..];
    GapOfTail(|msg|);
  }

  lemma AsWordZero(h: nat)
    requires h < TWO32
    ensures h as Word == 0 <==> h == 0
  {
    if h as Word == 0 { assert h == 0; }
  }

  lemma HighBitsZero(len: nat)
    ensures HighBits(len) == 0 <==> (8 * len / TWO32) % TWO32 == 0
  {
    AsWordZero((8 * len / TWO32) % TWO32);
  }

  lemma StoreInjective(x: Word, y: Word)
    ensures StoreWord(x) == StoreWord(y) <==> x == y
  {
    hide StoreWord, LoadWord;
    assert LoadWord(StoreWord(x)) == x && LoadWord(StoreWord(y)) == y;
  }

  /** The code pads as RFC 1320 does exactly when the high word of the bit length is zero. */
  lemma PaddingIsRfc(msg: seq<Byte>)
    ensures CodeStream(msg, LowBits(|msg|)) == Padded(msg) <==> (8 * |msg| / TWO32) % TWO32 == 0
    ensures |msg| < 0x2000_0000 ==> CodeStream(msg, LowBits(|msg|)) == Padded(msg)
  {
    hide Gap, StoreWord, LoadWord, LowBits, HighBits, CodePad, Whole, CodeStream, Zeros;
    CodeStreamShape(msg);
    ZeroWord();
    StoreInjective(HighBits(|msg|), 0);
    HighBitsZero(|msg|);
    var front := msg + [0x80] + Zeros(Gap(|msg|)) + StoreWord(LowBits(|msg|));
    assert (front + StoreWord(HighBits(|msg|)))[|front|..] == StoreWord(HighBits(|msg|));
    assert (front + StoreWord(0))[|front|..] == StoreWord(0);
  }

  lemma LowBitsWrap(len: nat, w: nat)
    requires w <= len
    ensures var t := (w % TWO32 + (len - w)) % TWO32; ((8 * t) % TWO32) as Word == LowBits(len)
  {
    var t := (w % TWO32 + (len - w)) % TWO32;
    WrapSum(0, w, len - w);
    assert t == len % TWO32;
    assert (8 * t) % TWO32 == (8 * len) % TWO32;
  }

  /** One update with the whole message, then the end: the registers hold RFC 1320's digest, for every message of
      less than 2^29 bytes. */
  lemma FinishIsRfc(msg: seq<Byte>)
    ensures Finish(Feed(BEGIN, msg)).regs == Blocks(INIT, CodeStream(msg, LowBits(|msg|)))
    ensures |msg| < 0x2000_0000 ==> Finish(Feed(BEGIN, msg)).regs == Rfc(msg)
  {
    hide Blocks, Gap, StoreWord, Whole, CodePad, Padded, LowBits;
    assert [] + msg == msg;
    var w := Whole(|msg|);
    var rest := msg[w..];
    LowBitsWrap(|msg|, w);
    BlocksConcat(INIT, msg[..w], CodePad(rest, LowBits(|msg|)));
    PaddingIsRfc(msg);
  }

  // ----- the code

  function LShift(x: Word, s: nat): Word
    requires s <= 32
  {
    ((x << s) & 0xffff_ffff) | ((x >> (32 - s)) & 0xffff_ffff)
  }

  /** The two shifts of the macro make one rotation, for the amounts in use. */
  lemma LShiftRotates(x: Word, s: nat)
    requires s in {3, 5, 7, 9, 11, 13, 15, 19}
    ensures LShift(x, s) == Rotate(x, s)
  {
    if s == 3 { assert LShift(x, 3) == x.RotateLeft(3); }
    else if s == 5 { assert LShift(x, 5) == x.RotateLeft(5); }
    else if s == 7 { assert LShift(x, 7) == x.RotateLeft(7); }
    else if s == 9 { assert LShift(x, 9) == x.RotateLeft(9); }
    else if s == 11 { assert LShift(x, 11) == x.RotateLeft(11); }
    else if s == 13 { assert LShift(x, 13) == x.RotateLeft(13); }
    else if s == 15 { assert LShift(x, 15) == x.RotateLeft(15); }
    else { assert LShift(x, 19) == x.RotateLeft(19); }
  }

  function Round1(a: Word, b: Word, c: Word, d: Word, x: Word, s: nat): Word
    requires s <= 32
  {
    LShift(Sum1(a, b, c, d, x) & 0xffff_ffff, s)
  }

  function Round2(a: Word, b: Word, c: Word, d: Word, x: Word, s: nat): Word
    requires s <= 32
  {
    LShift(Sum2(a, b, c, d, x) & 0xffff_ffff, s)
  }

  function Round3(a: Word, b: Word, c: Word, d: Word, x: Word, s: nat): Word
    requires s <= 32
  {
    LShift(Sum3(a, b, c, d, x) & 0xffff_ffff, s)
  }

  lemma Masked(y: Word)
    ensures y & 0xffff_ffff == y
  {
  }

  /** Each macro call is a step of the RFC, given the step's word and amount. */
  lemma Round1IsOp(i: nat, r: Regs, x: Word)
    requires i < 16
    ensures Round1(r.a, r.b, r.c, r.d, x, Amount(i)) == Op(i, r, x)
  {
    hide LShift, Sum1, Amount, Rotate;
    AmountUsed(i);
    var y := Sum1(r.a, r.b, r.c, r.d, x);
    LShiftRotates(y, Amount(i));
    Masked(y);
  }

  lemma Round2IsOp(i: nat, r: Regs, x: Word)
    requires 16 <= i < 32
    ensures Round2(r.a, r.b, r.c, r.d, x, Amount(i)) == Op(i, r, x)
  {
    hide LShift, Sum2, Amount, Rotate;
    AmountUsed(i);
    var y := Sum2(r.a, r.b, r.c, r.d, x);
    LShiftRotates(y, Amount(i));
    Masked(y);
  }

  lemma Round3IsOp(i: nat, r: Regs, x: Word)
    requires 32 <= i < 48
    ensures Round3(r.a, r.b, r.c, r.d, x, Amount(i)) == Op(i, r, x)
  {
    hide LShift, Sum3, Amount, Rotate;
    AmountUsed(i);
    var y := Sum3(r.a, r.b, r.c, r.d, x);
    LShiftRotates(y, Amount(i));
    Masked(y);
  }

  lemma AmountUsed(i: nat)
    requires i < 48
    ensures Amount(i) in {3, 5, 7, 9, 11, 13, 15, 19}
  {
  }

  lemma StepsNext(i: nat, r: Regs, x: seq<Word>)
    requires i < 48 && |x| == 16
    ensures Steps(i + 1, r, x) == Step(i, Steps(i, r, x), x)
  {
    hide Step;
  }

  /** Four macro calls of a round, each writing the letter it is given. */
  function Quad1(r: Regs, x0: Word, x1: Word, x2: Word, x3: Word): Regs {
    var a := Round1(r.a, r.b, r.c, r.d, x0, 3);
    var d := Round1(r.d, a, r.b, r.c, x1, 7);
    var c := Round1(r.c, d, a, r.b, x2, 11);
    Regs(a, Round1(r.b, c, d, a, x3, 19), c, d)
  }

  function Quad2(r: Regs, x0: Word, x1: Word, x2: Word, x3: Word): Regs {
    var a := Round2(r.a, r.b, r.c, r.d, x0, 3);
    var d := Round2(r.d, a, r.b, r.c, x1, 5);
    var c := Round2(r.c, d, a, r.b, x2, 9);
    Regs(a, Round2(r.b, c, d, a, x3, 13), c, d)
  }

  function Quad3(r: Regs, x0: Word, x1: Word, x2: Word, x3: Word): Regs {
    var a := Round3(r.a, r.b, r.c, r.d, x0, 3);
    var d := Round3(r.d, a, r.b, r.c, x1, 9);
    var c := Round3(r.c, d, a, r.b, x2, 11);
    Regs(a, Round3(r.b, c, d, a, x3, 15), c, d)
  }

  lemma Slots1(i: nat)
    requires i in {0, 4, 8, 12}
    ensures Index(i) == i && Index(i + 1) == i + 1 && Index(i + 2) == i + 2 && Index(i + 3) == i + 3
    ensures Amount(i) == 3 && Amount(i + 1) == 7 && Amount(i + 2) == 11 && Amount(i + 3) == 19
  {
  }

  lemma Slots2(i: nat, q: nat)
    requires q < 4 && i == 16 + 4 * q
    ensures Index(i) == q && Index(i + 1) == q + 4 && Index(i + 2) == q + 8 && Index(i + 3) == q + 12
    ensures Amount(i) == 3 && Amount(i + 1) == 5 && Amount(i + 2) == 9 && Amount(i + 3) == 13
  {
  }

  lemma Slots3(i: nat, b: nat)
    requires (i == 32 && b == 0) || (i == 36 && b == 2) || (i == 40 && b == 1) || (i == 44 && b == 3)
    ensures Index(i) == b && Index(i + 1) == b + 8 && Index(i + 2) == b + 4 && Index(i + 3) == b + 12
    ensures Amount(i) == 3 && Amount(i + 1) == 9 && Amount(i + 2) == 11 && Amount(i + 3) == 15
  {
  }

  lemma OneStep1(i: nat, r: Regs, x: seq<Word>)
    requires 0 <= i < 16 && |x| == 16
    ensures var s := Steps(i, r, x);
            Steps(i + 1, r, x) == Regs(s.d, Round1(s.a, s.b, s.c, s.d, x[Index(i)], Amount(i)), s.b, s.c)
  {
    hide Steps, Round1, Index, Amount, Op;
    var s := Steps(i, r, x);
    StepsNext(i, r, x);
    Round1IsOp(i, s, x[Index(i)]);
  }

  lemma OneStep2(i: nat, r: Regs, x: seq<Word>)
    requires 16 <= i < 32 && |x| == 16
    ensures var s := Steps(i, r, x);
            Steps(i + 1, r, x) == Regs(s.d, Round2(s.a, s.b, s.c, s.d, x[Index(i)], Amount(i)), s.b, s.c)
  {
    hide Steps, Round2, Index, Amount, Op;
    var s := Steps(i, r, x);
    StepsNext(i, r, x);
    Round2IsOp(i, s, x[Index(i)]);
  }

  lemma OneStep3(i: nat, r: Regs, x: seq<Word>)
    requires 32 <= i < 48 && |x| == 16
    ensures var s := Steps(i, r, x);
            Steps(i + 1, r, x) == Regs(s.d, Round3(s.a, s.b, s.c, s.d, x[Index(i)], Amount(i)), s.b, s.c)
  {
    hide Steps, Round3, Index, Amount, Op;
    var s := Steps(i, r, x);
    StepsNext(i, r, x);
    Round3IsOp(i, s, x[Index(i)]);
  }

  /** The four registers are back in place after four steps. */
  lemma FourSteps1(i: nat, r: Regs, x: seq<Word>)
    requires |x| == 16
    requires i in {0, 4, 8, 12}
    ensures Steps(i + 4, r, x) == Quad1(Steps(i, r, x), x[i], x[i + 1], x[i + 2], x[i + 3])
  {
    hide Steps, Round1, Index, Amount;
    Slots1(i);
    OneStep1(i, r, x);
    OneStep1(i + 1, r, x);
    OneStep1(i + 2, r, x);
    OneStep1(i + 3, r, x);
  }

  lemma FourSteps2(i: nat, q: nat, r: Regs, x: seq<Word>)
    requires |x| == 16
    requires q < 4 && i == 16 + 4 * q
    ensures Steps(i + 4, r, x) == Quad2(Steps(i, r, x), x[q], x[q + 4], x[q + 8], x[q + 12])
  {
    hide Steps, Round2, Index, Amount;
    Slots2(i, q);
    OneStep2(i, r, x);
    OneStep2(i + 1, r, x);
    OneStep2(i + 2, r, x);
    OneStep2(i + 3, r, x);
  }

  lemma FourSteps3(i: nat, b: nat, r: Regs, x: seq<Word>)
    requires |x| == 16
    requires (i == 32 && b == 0) || (i == 36 && b == 2) || (i == 40 && b == 1) || (i == 44 && b == 3)
    ensures Steps(i + 4, r, x) == Quad3(Steps(i, r, x), x[b], x[b + 8], x[b + 4], x[b + 12])
  {
    hide Steps, Round3, Index, Amount;
    Slots3(i, b);
    OneStep3(i, r, x);
    OneStep3(i + 1, r, x);
    OneStep3(i + 2, r, x);
    OneStep3(i + 3, r, x);
  }

  // The macro calls of mdfour64, by round.

  method Calls1(M: array<Word>, a: Word, b: Word, c: Word, d: Word, ghost r: Regs)
    returns (A: Word, B: Word, C: Word, D: Word)
    requires M.Length == 16 && Regs(a, b, c, d) == Steps(0, r, M[..])
    ensures Regs(A, B, C, D) == Steps(16, r, M[..])
  {
    hide Steps, Round1;
    ghost var x := M[..];
    A, B, C, D := a, b, c, d;
    A := Round1(A, B, C, D, M[0], 3); D := Round1(D, A, B, C, M[1], 7);
    C := Round1(C, D, A, B, M[2], 11); B := Round1(B, C, D, A, M[3], 19);
    FourSteps1(0, r, x);
    A := Round1(A, B, C, D, M[4], 3); D := Round1(D, A, B, C, M[5], 7);
    C := Round1(C, D, A, B, M[6], 11); B := Round1(B, C, D, A, M[7], 19);
    FourSteps1(4, r, x);
    A := Round1(A, B, C, D, M[8], 3); D := Round1(D, A, B, C, M[9], 7);
    C := Round1(C, D, A, B, M[10], 11); B := Round1(B, C, D, A, M[11], 19);
    FourSteps1(8, r, x);
    A := Round1(A, B, C, D, M[12], 3); D := Round1(D, A, B, C, M[13], 7);
    C := Round1(C, D, A, B, M[14], 11); B := Round1(B, C, D, A, M[15], 19);
    FourSteps1(12, r, x);
  }

  method Calls2(M: array<Word>, a: Word, b: Word, c: Word, d: Word, ghost r: Regs)
    returns (A: Word, B: Word, C: Word, D: Word)
    requires M.Length == 16 && Regs(a, b, c, d) == Steps(16, r, M[..])
    ensures Regs(A, B, C, D) == Steps(32, r, M[..])
  {
    hide Steps, Round2;
    ghost var x := M[..];
    A, B, C, D := a, b, c, d;
    A := Round2(A, B, C, D, M[0], 3); D := Round2(D, A, B, C, M[4], 5);
    C := Round2(C, D, A, B, M[8], 9); B := Round2(B, C, D, A, M[12], 13);
    FourSteps2(16, 0, r, x);
    A := Round2(A, B, C, D, M[1], 3); D := Round2(D, A, B, C, M[5], 5);
    C := Round2(C, D, A, B, M[9], 9); B := Round2(B, C, D, A, M[13], 13);
    FourSteps2(20, 1, r, x);
    A := Round2(A, B, C, D, M[2], 3); D := Round2(D, A, B, C, M[6], 5);
    C := Round2(C, D, A, B, M[10], 9); B := Round2(B, C, D, A, M[14], 13);
    FourSteps2(24, 2, r, x);
    A := Round2(A, B, C, D, M[3], 3); D := Round2(D, A, B, C, M[7], 5);
    C := Round2(C, D, A, B, M[11], 9); B := Round2(B, C, D, A, M[15], 13);
    FourSteps2(28, 3, r, x);
  }

  method Calls3(M: array<Word>, a: Word, b: Word, c: Word, d: Word, ghost r: Regs)
    returns (A: Word, B: Word, C: Word, D: Word)
    requires M.Length == 16 && Regs(a, b, c, d) == Steps(32, r, M[..])
    ensures Regs(A, B, C, D) == Steps(48, r, M[..])
  {
    hide Steps, Round3;
    ghost var x := M[..];
    A, B, C, D := a, b, c, d;
    A := Round3(A, B, C, D, M[0], 3); D := Round3(D, A, B, C, M[8], 9);
    C := Round3(C, D, A, B, M[4], 11); B := Round3(B, C, D, A, M[12], 15);
    FourSteps3(32, 0, r, x);
    A := Round3(A, B, C, D, M[2], 3); D := Round3(D, A, B, C, M[10], 9);
    C := Round3(C, D, A, B, M[6], 11); B := Round3(B, C, D, A, M[14], 15);
    FourSteps3(36, 2, r, x);
    A := Round3(A, B, C, D, M[1], 3); D := Round3(D, A, B, C, M[9], 9);
    C := Round3(C, D, A, B, M[5], 11); B := Round3(B, C, D, A, M[13], 15);
    FourSteps3(40, 1, r, x);
    A := Round3(A, B, C, D, M[3], 3); D := Round3(D, A, B, C, M[11], 9);
    C := Round3(C, D, A, B, M[7], 11); B := Round3(B, C, D, A, M[15], 15);
    FourSteps3(44, 3, r, x);
  }

  method Copy64(input: seq<Byte>, ofs: nat) returns (M: array<Word>)
    requires ofs + 64 <= |input|
    ensures fresh(M) && M.Length == 16 && M[..] == Words(input[ofs..ofs + 64])
  {
    M := new Word[16];
    ghost var block := input[ofs..ofs + 64];
    var i := 0;
    while i < 16
      invariant 0 <= i <= 16
      invariant forall j :: 0 <= j < i ==> M[j] == Words(block)[j]
    {
      M[i] := (input[ofs + i * 4 + 3] as Word << 24) | (input[ofs + i * 4 + 2] as Word << 16) |
              (input[ofs + i * 4 + 1] as Word << 8) | input[ofs + i * 4] as Word;
      i := i + 1;
    }
  }

  method Copy4(out: array<Byte>, at: nat, x: Word)
    requires at + 4 <= out.Length
    modifies out
    ensures out[..] == old(out[..at]) + StoreWord(x) + old(out[at + 4..])
  {
    out[at] := (x & 0xff) as Byte;
    out[at + 1] := ((x >> 8) & 0xff) as Byte;
    out[at + 2] := ((x >> 16) & 0xff) as Byte;
    out[at + 3] := ((x >> 24) & 0xff) as Byte;
    assert out[..] == old(out[..at]) + [out[at], out[at + 1], out[at + 2], out[at + 3]] + old(out[at + 4..]);
  }

  /** The buffer mdfour_tail builds; its second half is only read when the tail is long. */
  method PadBuffer(tail: array<Byte>, n: nat, b: Word) returns (bytes: seq<Byte>)
    requires n < 64 == tail.Length
    ensures |bytes| == 128 && (if n <= 55 then bytes[0..0 + 64] else bytes) == CodePad(tail[..n], b)
  {
    hide StoreWord;
    var buf := new Byte[128](_ => 0);
    forall i | 0 <= i < n { buf[i] := tail[i]; }
    buf[n] := 0x80;
    assert buf[..] == tail[..n] + [0x80] + Zeros(127 - n);
    if n <= 55 {
      Copy4(buf, 56, b);
      ShortPad(tail[..n], b, buf[..]);
    } else {
      Copy4(buf, 120, b);
      LongPad(tail[..n], b, buf[..]);
    }
    bytes := buf[..];
  }

  class Mdfour {
    var A: Word
    var B: Word
    var C: Word
    var D: Word
    var totalN: nat
    const tail: array<Byte>
    var tailLen: nat

    ghost predicate Valid()
      reads this
    {
      tail.Length == 64 && tailLen < 64 && totalN < TWO32
    }

    ghost function Value(): (st: State)
      requires Valid()
      reads this, tail
      ensures Ready(st)
    {
      State(Regs(A, B, C, D), totalN, tail[..tailLen])
    }

    /** mdfour_begin */
    constructor ()
      ensures Valid() && Value() == BEGIN && fresh(tail)
    {
      A := 0x67452301;
      B := 0xefcdab89;
      C := 0x98badcfe;
      D := 0x10325476;
      totalN := 0;
      tail := new Byte[64];
      tailLen := 0;
    }

    method Mdfour64(M: array<Word>)
      requires M.Length == 16
      modifies this`A, this`B, this`C, this`D
      ensures Regs(A, B, C, D) == Compress(old(Regs(A, B, C, D)), M[..])
    {
      hide Steps, Add;
      var A, B, C, D := this.A, this.B, this.C, this.D;
      ghost var r := Regs(A, B, C, D);
      StepsNone(r, M[..]);
      var AA, BB, CC, DD := A, B, C, D;
      A, B, C, D := Calls1(M, A, B, C, D, r);
      A, B, C, D := Calls2(M, A, B, C, D, r);
      A, B, C, D := Calls3(M, A, B, C, D, r);
      A := Add(A, AA); B := Add(B, BB);
      C := Add(C, CC); D := Add(D, DD);
      this.A := A; this.B := B;
      this.C := C; this.D := D;
    }

    /** One block taken from `input`. */
    method HashBlock(input: seq<Byte>, ofs: nat)
      requires ofs + 64 <= |input|
      modifies this`A, this`B, this`C, this`D
      ensures Regs(A, B, C, D) == Blocks(old(Regs(A, B, C, D)), input[ofs..ofs + 64])
    {
      hide Steps, Compress, Words;
      var M := Copy64(input, ofs);
      Mdfour64(M);
      OneBlock(old(Regs(A, B, C, D)), input[ofs..ofs + 64]);
    }

    /** mdfour_update with a buffer. */
    method Update(input: seq<Byte>)
      requires Valid()
      modifies this, tail
      ensures Valid() && Value() == Feed(old(Value()), input)
    {
      hide Blocks, Feed;
      ghost var st := Value();
      var pos, n := 0, |input|;
      FeedNothing(st);
      assert input[..0] == [];
      if tailLen != 0 {
        pos := FillTail(input);
        n := n - pos;
      }
      while n >= 64
        invariant 0 <= pos <= |input| && n == |input| - pos
        invariant Valid() && Value() == Feed(st, input[..pos]) && (n > 0 ==> tailLen == 0)
      {
        ghost var now := Value();
        HashBlock(input, pos);
        totalN := (totalN + 64) % TWO32;
        FeedBlock(now, input[pos..pos + 64]);
        FeedConcat(st, input[..pos], input[pos..pos + 64]);
        assert input[..pos] + input[pos..pos + 64] == input[..pos + 64];
        pos := pos + 64;
        n := n - 64;
        assert tail[..tailLen] == [];
      }
      ghost var now := Value();
      if n != 0 {
        forall i | 0 <= i < n { tail[i] := input[pos + i]; }
        tailLen := n;
        FeedShort(now, input[pos..]);
        assert tail[..tailLen] == input[pos..];
      } else {
        FeedNothing(now);
        assert input[pos..] == [];
      }
      FeedConcat(st, input[..pos], input[pos..]);
      assert input[..pos] + input[pos..] == input;
    }

    /** The bytes that complete a waiting tail, or as many as there are. */
    method FillTail(input: seq<Byte>) returns (len: nat)
      requires Valid() && tailLen != 0
      modifies this, tail
      ensures Valid() && len <= |input| && Value() == Feed(old(Value()), input[..len])
      ensures len < |input| ==> tailLen == 0
    {
      hide Blocks, Feed;
      ghost var st := Value();
      len := 64 - tailLen;
      if len > |input| { len := |input|; }
      forall i | 0 <= i < len { tail[tailLen + i] := input[i]; }
      tailLen := tailLen + len;
      assert tail[..tailLen] == st.tail + input[..len];
      if tailLen == 64 {
        HashBlock(tail[..], 0);
        totalN := (totalN + 64) % TWO32;
        tailLen := 0;
        assert tail[..][0..0 + 64] == st.tail + input[..len];
        assert tail[..tailLen] == [];
        FeedCompleting(st, input[..len]);
      } else {
        FeedShorter(st, input[..len]);
      }
    }

    method HashPad(buf: seq<Byte>, n: nat)
      requires |buf| == 128
      modifies this`A, this`B, this`C, this`D
      ensures Regs(A, B, C, D) == Blocks(old(Regs(A, B, C, D)), if n <= 55 then buf[0..0 + 64] else buf)
    {
      hide Blocks;
      HashBlock(buf, 0);
      if n > 55 {
        HashBlock(buf, 64);
        BlocksConcat(old(Regs(A, B, C, D)), buf[0..0 + 64], buf[64..64 + 64]);
        assert buf[0..0 + 64] + buf[64..64 + 64] == buf;
      }
    }

    /** mdfour_update with a null buffer: mdfour_tail.  The tail itself stays where it is. */
    method Tail()
      requires Valid()
      modifies this`A, this`B, this`C, this`D, this`totalN
      ensures Valid() && Value() == Finish(old(Value()))
    {
      hide Blocks, CodePad;
      ghost var st := Value();
      totalN := (totalN + tailLen) % TWO32;
      var b := ((8 * totalN) % TWO32) as Word;
      var buf := PadBuffer(tail, tailLen, b);
      HashPad(buf, tailLen);
    }

    /** mdfour_result */
    method Result(out: array<Byte>)
      requires Valid() && out.Length == 16 && out != tail
      modifies out
      ensures out[..] == Output(Value().regs)
    {
      hide StoreWord;
      Copy4(out, 0, A);
      Copy4(out, 4, B);
      Copy4(out, 8, C);
      Copy4(out, 12, D);
    }
  }

  /** mdfour: the digest of a whole buffer is the one of RFC 1320. */
  method Digest(out: array<Byte>, input: seq<Byte>)
    requires out.Length == 16
    modifies out
    ensures out[..] == Output(Blocks(INIT, CodeStream(input, LowBits(|input|))))
    ensures |input| < 0x2000_0000 ==> out[..] == Output(Rfc(input))
  {
    hide Blocks, Feed, Finish, Output, CodeStream, Padded, LowBits;
    var md := new Mdfour();
    md.Update(input);
    md.Tail();
    md.Result(out);
    FinishIsRfc(input);
  }

  lemma StepsNone(r: Regs, x: seq<Word>)
    requires |x| == 16
    ensures Steps(0, r, x) == r
  {
  }

  lemma OneBlock(r: Regs, block: seq<Byte>)
    requires |block| == 64
    ensures Blocks(r, block) == Compress(r, Words(block))
  {
    hide Compress, Words;
    assert block[..64] == block;
    assert Blocks(Compress(r, Words(block)), block[64..]) == Compress(r, Words(block));
  }

  lemma FeedBlock(st: State, block: seq<Byte>)
    requires st.tail == [] && |block| == 64
    ensures Feed(st, block) == State(Blocks(st.regs, block), (st.total + 64) % TWO32, [])
  {
    hide Blocks;
    assert st.tail + block == block;
    assert block[..64] == block && block[64..] == [];
  }

  lemma FeedCompleting(st: State, x: seq<Byte>)
    requires |st.tail + x| == 64
    ensures Feed(st, x) == State(Blocks(st.regs, st.tail + x), (st.total + 64) % TWO32, [])
  {
    hide Blocks;
    var d := st.tail + x;
    assert d[..64] == d && d[64..] == [];
  }

  lemma FeedShorter(st: State, x: seq<Byte>)
    requires |st.tail + x| < 64 && Ready(st)
    ensures Feed(st, x) == State(st.regs, st.total, st.tail + x)
  {
    var d := st.tail + x;
    assert d[..0] == [] && d[0..] == d && Whole(|d|) == 0;
  }

  lemma FeedShort(st: State, x: seq<Byte>)
    requires st.tail == [] && |x| < 64 && Ready(st)
    ensures Feed(st, x) == State(st.regs, st.total, x)
  {
    assert st.tail + x == x;
    FeedShorter(st, x);
  }

  lemma ShortPad(tail: seq<Byte>, b: Word, buf: seq<Byte>)
    requires |tail| <= 55
    requires buf == (tail + [0x80] + Zeros(127 - |tail|))[..56] + StoreWord(b) + (tail + [0x80] + Zeros(127 - |tail|))[60..]
    ensures buf[0..0 + 64] == CodePad(tail, b)
  {
    hide StoreWord;
  }

  lemma LongPad(tail: seq<Byte>, b: Word, buf: seq<Byte>)
    requires 55 < |tail| < 64
    requires buf == (tail + [0x80] + Zeros(127 - |tail|))[..120] + StoreWord(b) + (tail + [0x80] + Zeros(127 - |tail|))[124..]
    ensures buf == CodePad(tail, b)
  {
    hide StoreWord;
  }
}
