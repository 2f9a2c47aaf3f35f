/** Messages of the test suite in appendix A.5 of RFC 1320, and the constants of section 3.4: what the digests are, step by
    step, with the registers written out.
 */
module Md4Suite {
  import opened Wrappers
  import opened Md4

  /** The constants are the integer parts of 2^30 times the square roots of 2 and 3. */
  lemma RootConstants()
    ensures 0x5A827999 * 0x5A827999 <= 2 * 0x1000_0000_0000_0000 < 0x5A82799A * 0x5A82799A
    ensures 0x6ED9EBA1 * 0x6ED9EBA1 <= 3 * 0x1000_0000_0000_0000 < 0x6ED9EBA2 * 0x6ED9EBA2
    ensures Sum2(0, 0, 0, 0, 0) == 0x5A827999 && Sum3(0, 0, 0, 0, 0) == 0x6ED9EBA1
  {
  }

  // ----- from bytes to words

  lemma ShortLength(n: nat, bits: nat)
    requires bits == 8 * n < TWO32
    ensures LowBits(n) == bits as Word
  {
  }

  /** The words of a row of sixteen bytes. */
  function Four(r: seq<Byte>): seq<Word>
    requires |r| == 16
  {
    [LoadWord([r[0], r[1], r[2], r[3]]), LoadWord([r[4], r[5], r[6], r[7]]),
     LoadWord([r[8], r[9], r[10], r[11]]), LoadWord([r[12], r[13], r[14], r[15]])]
  }

  lemma FourAt(p: seq<Byte>, at: nat, k: nat)
    requires at + 64 <= |p| && k < 4
    ensures Words(p[at..at + 64])[4 * k..4 * k + 4] == Four(p[at + 16 * k..at + 16 * k + 16])
  {
    hide LoadWord;
    var block, r := p[at..at + 64], p[at + 16 * k..at + 16 * k + 16];
    forall j | 0 <= j < 4 ensures Words(block)[4 * k + j] == Four(r)[j] {
      Inner(p, at, at + 64, 16 * k + 4 * j, 16 * k + 4 * j + 4);
      Inner(p, at + 16 * k, at + 16 * k + 16, 4 * j, 4 * j + 4);
      assert r[4 * j..4 * j + 4] == [r[4 * j], r[4 * j + 1], r[4 * j + 2], r[4 * j + 3]];
      assert 4 * (4 * k + j) == 16 * k + 4 * j;
    }
  }

  lemma Inner(p: seq<Byte>, a: nat, b: nat, i: nat, j: nat)
    requires a <= b <= |p| && i <= j <= b - a
    ensures p[a..b][i..j] == p[a + i..a + j]
  {
    forall k | 0 <= k < j - i ensures p[a..b][i..j][k] == p[a + i..a + j][k] {
      assert p[a..b][i..j][k] == p[a..b][i + k] == p[a + i + k];
    }
  }

  lemma Gather(p: seq<Byte>, at: nat, x: seq<Word>)
    requires at + 64 <= |p| && |x| == 16
    requires Four(p[at..at + 16]) == x[0..4] && Four(p[at + 16..at + 32]) == x[4..8]
    requires Four(p[at + 32..at + 48]) == x[8..12] && Four(p[at + 48..at + 64]) == x[12..16]
    ensures Words(p[at..at + 64]) == x
  {
    hide Words, Four;
    var y := Words(p[at..at + 64]);
    FourAt(p, at, 0);
    FourAt(p, at, 1);
    FourAt(p, at, 2);
    FourAt(p, at, 3);
    assert y == y[0..4] + y[4..8] + y[8..12] + y[12..16] && x == x[0..4] + x[4..8] + x[8..12] + x[12..16];
  }

  lemma OneBlock(p: seq<Byte>)
    requires |p| == 64
    ensures Blocks(INIT, p) == Compress(INIT, Words(p[0..64]))
  {
    hide Compress, Words;
    assert p[..64] == p[0..64] && p[64..] == [];
  }

  lemma OneBlockMore(p: seq<Byte>)
    requires |p| == 128
    ensures Blocks(INIT, p) == Blocks(Compress(INIT, Words(p[..64])), p[64..])
    ensures Blocks(Compress(INIT, Words(p[..64])), p[64..])
         == Blocks(Compress(Compress(INIT, Words(p[..64])), Words(p[64..][..64])), p[64..][64..])
  {
    hide Compress, Words;
  }

  lemma TwoBlocks(p: seq<Byte>)
    requires |p| == 128
    ensures Blocks(INIT, p) == Compress(Compress(INIT, Words(p[0..64])), Words(p[64..128]))
  {
    hide Compress, Words;
    OneBlockMore(p);
    assert p[..64] == p[0..64] && p[64..][..64] == p[64..128] && p[64..][64..] == [];
  }

  // ----- the messages

  lemma NoSteps(start: Regs, x: seq<Word>)
    requires |x| == 16
    ensures Steps(0, start, x) == start
  {
  }

  // ----- the empty message

  const EMPTY_WORDS: seq<Word> :=
    [0x00000080, 0x00000000, 0x00000000, 0x00000000, 0x00000000, 0x00000000, 0x00000000, 0x00000000,
     0x00000000, 0x00000000, 0x00000000, 0x00000000, 0x00000000, 0x00000000, 0x00000000, 0x00000000]

  lemma EmptyQuads1()
    ensures Quad1(Regs(0x67452301, 0xefcdab89, 0x98badcfe, 0x10325476), 0x00000080, 0x00000000, 0x00000000, 0x00000000)
         == Regs(0x000003f8, 0x740f9e7d, 0x0446b910, 0x769a0254)
    ensures Quad1(Regs(0x000003f8, 0x740f9e7d, 0x0446b910, 0x769a0254), 0x00000000, 0x00000000, 0x00000000, 0x00000000)
         == Regs(0x34b4e040, 0xf5ef256b, 0x6c2bc1c2, 0x704dd255)
    ensures Quad1(Regs(0x34b4e040, 0xf5ef256b, 0x6c2bc1c2, 0x704dd255), 0x00000000, 0x00000000, 0x00000000, 0x00000000)
         == Regs(0xc7059cb4, 0x18be2386, 0x8bf5399c, 0xbe8bdbae)
    ensures Quad1(Regs(0xc7059cb4, 0x18be2386, 0x8bf5399c, 0xbe8bdbae), 0x00000000, 0x00000000, 0x00000000, 0x00000000)
         == Regs(0xaddcb303, 0x3665f296, 0x8ee8f245, 0xa483a664)
  {
  }

  lemma EmptyQuads2()
    ensures Quad2(Regs(0xaddcb303, 0x3665f296, 0x8ee8f245, 0xa483a664), 0x00000080, 0x00000000, 0x00000000, 0x00000000)
         == Regs(0x7a08fb05, 0x66cec932, 0x98bbca4f, 0xade24047)
    ensures Quad2(Regs(0x7a08fb05, 0x66cec932, 0x98bbca4f, 0xade24047), 0x00000000, 0x00000000, 0x00000000, 0x00000000)
         == Regs(0x0bb1e72c, 0x3d0db9ec, 0x9e4a14b3, 0x6410a1c2)
    ensures Quad2(Regs(0x0bb1e72c, 0x3d0db9ec, 0x9e4a14b3, 0x6410a1c2), 0x00000000, 0x00000000, 0x00000000, 0x00000000)
         == Regs(0x11e8953d, 0xc8d84161, 0x727f1264, 0x7b76231b)
    ensures Quad2(Regs(0x11e8953d, 0xc8d84161, 0x727f1264, 0x7b76231b), 0x00000000, 0x00000000, 0x00000000, 0x00000000)
         == Regs(0x374891bf, 0x6f952b2e, 0xb49a4dae, 0x0a15c329)
  {
  }

  lemma EmptyQuads3()
    ensures Quad3(Regs(0x374891bf, 0x6f952b2e, 0xb49a4dae, 0x0a15c329), 0x00000080, 0x00000000, 0x00000000, 0x00000000)
         == Regs(0xb9e91c4b, 0x28f076bd, 0x1ab10ced, 0xac532bb7)
    ensures Quad3(Regs(0xb9e91c4b, 0x28f076bd, 0x1ab10ced, 0xac532bb7), 0x00000000, 0x00000000, 0x00000000, 0x00000000)
         == Regs(0x36aace9e, 0xb8b9000f, 0x6f678dca, 0x31984c40)
    ensures Quad3(Regs(0x36aace9e, 0xb8b9000f, 0x6f678dca, 0x31984c40), 0x00000000, 0x00000000, 0x00000000, 0x00000000)
         == Regs(0x5e5bde24, 0x187317b3, 0xb69f1f41, 0xef178453)
    ensures Quad3(Regs(0x5e5bde24, 0x187317b3, 0xb69f1f41, 0xef178453), 0x00000000, 0x00000000, 0x00000000, 0x00000000)
         == Regs(0x798ab330, 0x421bbf48, 0x3e9e5fb9, 0xb0576c6a)
  {
  }

  lemma EmptyRound1()
    ensures Steps(16, Regs(0x67452301, 0xefcdab89, 0x98badcfe, 0x10325476), EMPTY_WORDS)
         == Regs(0xaddcb303, 0x3665f296, 0x8ee8f245, 0xa483a664)
  {
    hide Steps, Quad1;
    var start := Regs(0x67452301, 0xefcdab89, 0x98badcfe, 0x10325476);
    EmptyQuads1();
    NoSteps(start, EMPTY_WORDS);
    FourSteps1(0, start, EMPTY_WORDS);
    FourSteps1(4, start, EMPTY_WORDS);
    FourSteps1(8, start, EMPTY_WORDS);
    FourSteps1(12, start, EMPTY_WORDS);
  }

  lemma EmptyRound2()
    requires Steps(16, Regs(0x67452301, 0xefcdab89, 0x98badcfe, 0x10325476), EMPTY_WORDS)
         == Regs(0xaddcb303, 0x3665f296, 0x8ee8f245, 0xa483a664)
    ensures Steps(32, Regs(0x67452301, 0xefcdab89, 0x98badcfe, 0x10325476), EMPTY_WORDS)
         == Regs(0x374891bf, 0x6f952b2e, 0xb49a4dae, 0x0a15c329)
  {
    hide Steps, Quad2;
    var start := Regs(0x67452301, 0xefcdab89, 0x98badcfe, 0x10325476);
    EmptyQuads2();
    FourSteps2(16, 0, start, EMPTY_WORDS);
    FourSteps2(20, 1, start, EMPTY_WORDS);
    FourSteps2(24, 2, start, EMPTY_WORDS);
    FourSteps2(28, 3, start, EMPTY_WORDS);
  }

  lemma EmptyRound3()
    requires Steps(32, Regs(0x67452301, 0xefcdab89, 0x98badcfe, 0x10325476), EMPTY_WORDS)
         == Regs(0x374891bf, 0x6f952b2e, 0xb49a4dae, 0x0a15c329)
    ensures Steps(48, Regs(0x67452301, 0xefcdab89, 0x98badcfe, 0x10325476), EMPTY_WORDS)
         == Regs(0x798ab330, 0x421bbf48, 0x3e9e5fb9, 0xb0576c6a)
  {
    hide Steps, Quad3;
    var start := Regs(0x67452301, 0xefcdab89, 0x98badcfe, 0x10325476);
    EmptyQuads3();
    FourSteps3(32, 0, start, EMPTY_WORDS);
    FourSteps3(36, 2, start, EMPTY_WORDS);
    FourSteps3(40, 1, start, EMPTY_WORDS);
    FourSteps3(44, 3, start, EMPTY_WORDS);
  }

  lemma EmptyBlock()
    ensures Compress(Regs(0x67452301, 0xefcdab89, 0x98badcfe, 0x10325476), EMPTY_WORDS)
         == Regs(0xe0cfd631, 0x31e96ad1, 0xd7593cb7, 0xc089c0e0)
  {
    hide Steps;
    EmptyRound1();
    EmptyRound2();
    EmptyRound3();
  }

  lemma EmptyLength()
    ensures LowBits(0) == 0 && HighBits(0) == 0
  {
    hide LowBits, HighBits;
    HighBitsZero(0);
    ShortLength(0, 0);
  }

  lemma EmptyStored()
    ensures StoreWord(0) == [0x00, 0x00, 0x00, 0x00] && StoreWord(0) == [0, 0, 0, 0]
  {
  }

  lemma EmptyPadded()
    ensures Padded([]) == [] + [0x80] + Zeros(55) + [0x00, 0x00, 0x00, 0x00] + [0, 0, 0, 0]
  {
    hide StoreWord, LowBits, HighBits;
    EmptyLength();
    EmptyStored();
  }

  lemma EmptyRows()
    ensures Padded([])[0..16] ==
            [0x80, 0x00, 0x00, 0x00, 0x00, 0x00, 0x00, 0x00, 0x00, 0x00, 0x00, 0x00, 0x00, 0x00, 0x00, 0x00]
    ensures Padded([])[16..32] ==
            [0x00, 0x00, 0x00, 0x00, 0x00, 0x00, 0x00, 0x00, 0x00, 0x00, 0x00, 0x00, 0x00, 0x00, 0x00, 0x00]
    ensures Padded([])[32..48] ==
            [0x00, 0x00, 0x00, 0x00, 0x00, 0x00, 0x00, 0x00, 0x00, 0x00, 0x00, 0x00, 0x00, 0x00, 0x00, 0x00]
    ensures Padded([])[48..64] ==
            [0x00, 0x00, 0x00, 0x00, 0x00, 0x00, 0x00, 0x00, 0x00, 0x00, 0x00, 0x00, 0x00, 0x00, 0x00, 0x00]
  {
    hide Padded;
    EmptyPadded();
  }

  lemma EmptyLoads()
    ensures Four([0x80, 0x00, 0x00, 0x00, 0x00, 0x00, 0x00, 0x00, 0x00, 0x00, 0x00, 0x00, 0x00, 0x00, 0x00, 0x00])
         == [0x00000080, 0x00000000, 0x00000000, 0x00000000]
    ensures Four([0x00, 0x00, 0x00, 0x00, 0x00, 0x00, 0x00, 0x00, 0x00, 0x00, 0x00, 0x00, 0x00, 0x00, 0x00, 0x00])
         == [0x00000000, 0x00000000, 0x00000000, 0x00000000]
  {
  }

  lemma EmptyWords()
    ensures Words(Padded([])[0..64]) == EMPTY_WORDS
  {
    hide Four, Padded, Words;
    EmptyLoads();
    EmptyRows();
    Gather(Padded([]), 0, EMPTY_WORDS);
  }

  lemma EmptyOutput()
    ensures Output(Regs(0xe0cfd631, 0x31e96ad1, 0xd7593cb7, 0xc089c0e0)) ==
            [0x31, 0xd6, 0xcf, 0xe0, 0xd1, 0x6a, 0xe9, 0x31, 0xb7, 0x3c, 0x59, 0xd7, 0xe0, 0xc0, 0x89, 0xc0]
  {
  }

  lemma EmptyDigest()
    ensures Output(Rfc([])) ==
            [0x31, 0xd6, 0xcf, 0xe0, 0xd1, 0x6a, 0xe9, 0x31, 0xb7, 0x3c, 0x59, 0xd7, 0xe0, 0xc0, 0x89, 0xc0]
  {
    hide Padded, Words, Compress, Output;
    EmptyWords();
    EmptyBlock();
    OneBlock(Padded([]));
    EmptyOutput();
  }

  // ----- "abc"

  const ABC: seq<Byte> :=
    [0x61, 0x62, 0x63]

  const ABC_WORDS: seq<Word> :=
    [0x80636261, 0x00000000, 0x00000000, 0x00000000, 0x00000000, 0x00000000, 0x00000000, 0x00000000,
     0x00000000, 0x00000000, 0x00000000, 0x00000000, 0x00000000, 0x00000000, 0x00000018, 0x00000000]

  lemma AbcQuads1()
    ensures Quad1(Regs(0x67452301, 0xefcdab89, 0x98badcfe, 0x10325476), 0x80636261, 0x00000000, 0x00000000, 0x00000000)
         == Regs(0x031b1304, 0xf66d8f45, 0xd38454e4, 0xee123855)
    ensures Quad1(Regs(0x031b1304, 0xf66d8f45, 0xd38454e4, 0xee123855), 0x00000000, 0x00000000, 0x00000000, 0x00000000)
         == Regs(0xe98a3ac6, 0x613b2bc8, 0x97854e65, 0x0f435cf0)
    ensures Quad1(Regs(0xe98a3ac6, 0x613b2bc8, 0x97854e65, 0x0f435cf0), 0x00000000, 0x00000000, 0x00000000, 0x00000000)
         == Regs(0xc65cc9b7, 0xa7d13acb, 0x15d2eef5, 0x6e365830)
    ensures Quad1(Regs(0xc65cc9b7, 0xa7d13acb, 0x15d2eef5, 0x6e365830), 0x00000000, 0x00000000, 0x00000018, 0x00000000)
         == Regs(0xa299a540, 0xda717395, 0x24baadcb, 0x04e19293)
  {
  }

  lemma AbcQuads2()
    ensures Quad2(Regs(0xa299a540, 0xda717395, 0x24baadcb, 0x04e19293), 0x80636261, 0x00000000, 0x00000000, 0x00000000)
         == Regs(0x1389a66c, 0x228b5116, 0xdd3d21a5, 0x43b67f2e)
    ensures Quad2(Regs(0x1389a66c, 0x228b5116, 0xdd3d21a5, 0x43b67f2e), 0x00000000, 0x00000000, 0x00000000, 0x00000000)
         == Regs(0x8e5c895d, 0x4ec68171, 0xbd68a784, 0x8abf3b85)
    ensures Quad2(Regs(0x8e5c895d, 0x4ec68171, 0xbd68a784, 0x8abf3b85), 0x00000000, 0x00000000, 0x00000000, 0x00000018)
         == Regs(0xbe6d33db, 0x0323e3b7, 0x74661d2d, 0x75cb1df4)
    ensures Quad2(Regs(0xbe6d33db, 0x0323e3b7, 0x74661d2d, 0x75cb1df4), 0x00000000, 0x00000000, 0x00000000, 0x00000000)
         == Regs(0x7296594c, 0x8e531b8f, 0x3dd42422, 0x4e7e1748)
  {
  }

  lemma AbcQuads3()
    ensures Quad3(Regs(0x7296594c, 0x8e531b8f, 0x3dd42422, 0x4e7e1748), 0x80636261, 0x00000000, 0x00000000, 0x00000000)
         == Regs(0xfe66819a, 0xfd9fcfeb, 0x2f4e3583, 0x73824016)
    ensures Quad3(Regs(0xfe66819a, 0xfd9fcfeb, 0x2f4e3583, 0x73824016), 0x00000000, 0x00000000, 0x00000000, 0x00000018)
         == Regs(0x74a13dc8, 0x71a2ad97, 0x03f2b578, 0x99e6af11)
    ensures Quad3(Regs(0x74a13dc8, 0x71a2ad97, 0x03f2b578, 0x99e6af11), 0x00000000, 0x00000000, 0x00000000, 0x00000000)
         == Regs(0x798f0b3e, 0xacbf46ad, 0xea0ccd51, 0x3f5d0629)
    ensures Quad3(Regs(0x798f0b3e, 0xacbf46ad, 0xea0ccd51, 0x3f5d0629), 0x00000000, 0x00000000, 0x00000000, 0x00000000)
         == Regs(0x12bc25a3, 0x630a7626, 0x4f4fe461, 0x8d405204)
  {
  }

  lemma AbcRound1()
    ensures Steps(16, Regs(0x67452301, 0xefcdab89, 0x98badcfe, 0x10325476), ABC_WORDS)
         == Regs(0xa299a540, 0xda717395, 0x24baadcb, 0x04e19293)
  {
    hide Steps, Quad1;
    var start := Regs(0x67452301, 0xefcdab89, 0x98badcfe, 0x10325476);
    AbcQuads1();
    NoSteps(start, ABC_WORDS);
    FourSteps1(0, start, ABC_WORDS);
    FourSteps1(4, start, ABC_WORDS);
    FourSteps1(8, start, ABC_WORDS);
    FourSteps1(12, start, ABC_WORDS);
  }

  lemma AbcRound2()
    requires Steps(16, Regs(0x67452301, 0xefcdab89, 0x98badcfe, 0x10325476), ABC_WORDS)
         == Regs(0xa299a540, 0xda717395, 0x24baadcb, 0x04e19293)
    ensures Steps(32, Regs(0x67452301, 0xefcdab89, 0x98badcfe, 0x10325476), ABC_WORDS)
         == Regs(0x7296594c, 0x8e531b8f, 0x3dd42422, 0x4e7e1748)
  {
    hide Steps, Quad2;
    var start := Regs(0x67452301, 0xefcdab89, 0x98badcfe, 0x10325476);
    AbcQuads2();
    FourSteps2(16, 0, start, ABC_WORDS);
    FourSteps2(20, 1, start, ABC_WORDS);
    FourSteps2(24, 2, start, ABC_WORDS);
    FourSteps2(28, 3, start, ABC_WORDS);
  }

  lemma AbcRound3()
    requires Steps(32, Regs(0x67452301, 0xefcdab89, 0x98badcfe, 0x10325476), ABC_WORDS)
         == Regs(0x7296594c, 0x8e531b8f, 0x3dd42422, 0x4e7e1748)
    ensures Steps(48, Regs(0x67452301, 0xefcdab89, 0x98badcfe, 0x10325476), ABC_WORDS)
         == Regs(0x12bc25a3, 0x630a7626, 0x4f4fe461, 0x8d405204)
  {
    hide Steps, Quad3;
    var start := Regs(0x67452301, 0xefcdab89, 0x98badcfe, 0x10325476);
    AbcQuads3();
    FourSteps3(32, 0, start, ABC_WORDS);
    FourSteps3(36, 2, start, ABC_WORDS);
    FourSteps3(40, 1, start, ABC_WORDS);
    FourSteps3(44, 3, start, ABC_WORDS);
  }

  lemma AbcBlock()
    ensures Compress(Regs(0x67452301, 0xefcdab89, 0x98badcfe, 0x10325476), ABC_WORDS)
         == Regs(0x7a0148a4, 0x52d821af, 0xe80ac15f, 0x9d72a67a)
  {
    hide Steps;
    AbcRound1();
    AbcRound2();
    AbcRound3();
  }

  lemma AbcLength()
    ensures LowBits(3) == 24 && HighBits(3) == 0
  {
    hide LowBits, HighBits;
    HighBitsZero(3);
    ShortLength(3, 24);
  }

  lemma AbcStored()
    ensures StoreWord(24) == [0x18, 0x00, 0x00, 0x00] && StoreWord(0) == [0, 0, 0, 0]
  {
  }

  lemma AbcPadded()
    ensures Padded(ABC) == ABC + [0x80] + Zeros(52) + [0x18, 0x00, 0x00, 0x00] + [0, 0, 0, 0]
  {
    hide StoreWord, LowBits, HighBits;
    AbcLength();
    AbcStored();
  }

  lemma AbcRows()
    ensures Padded(ABC)[0..16] ==
            [0x61, 0x62, 0x63, 0x80, 0x00, 0x00, 0x00, 0x00, 0x00, 0x00, 0x00, 0x00, 0x00, 0x00, 0x00, 0x00]
    ensures Padded(ABC)[16..32] ==
            [0x00, 0x00, 0x00, 0x00, 0x00, 0x00, 0x00, 0x00, 0x00, 0x00, 0x00, 0x00, 0x00, 0x00, 0x00, 0x00]
    ensures Padded(ABC)[32..48] ==
            [0x00, 0x00, 0x00, 0x00, 0x00, 0x00, 0x00, 0x00, 0x00, 0x00, 0x00, 0x00, 0x00, 0x00, 0x00, 0x00]
    ensures Padded(ABC)[48..64] ==
            [0x00, 0x00, 0x00, 0x00, 0x00, 0x00, 0x00, 0x00, 0x18, 0x00, 0x00, 0x00, 0x00, 0x00, 0x00, 0x00]
  {
    hide Padded;
    AbcPadded();
  }

  lemma AbcLoads()
    ensures Four([0x61, 0x62, 0x63, 0x80, 0x00, 0x00, 0x00, 0x00, 0x00, 0x00, 0x00, 0x00, 0x00, 0x00, 0x00, 0x00])
         == [0x80636261, 0x00000000, 0x00000000, 0x00000000]
    ensures Four([0x00, 0x00, 0x00, 0x00, 0x00, 0x00, 0x00, 0x00, 0x00, 0x00, 0x00, 0x00, 0x00, 0x00, 0x00, 0x00])
         == [0x00000000, 0x00000000, 0x00000000, 0x00000000]
    ensures Four([0x00, 0x00, 0x00, 0x00, 0x00, 0x00, 0x00, 0x00, 0x18, 0x00, 0x00, 0x00, 0x00, 0x00, 0x00, 0x00])
         == [0x00000000, 0x00000000, 0x00000018, 0x00000000]
  {
  }

  lemma AbcWords()
    ensures Words(Padded(ABC)[0..64]) == ABC_WORDS
  {
    hide Four, Padded, Words;
    AbcLoads();
    AbcRows();
    Gather(Padded(ABC), 0, ABC_WORDS);
  }

  lemma AbcOutput()
    ensures Output(Regs(0x7a0148a4, 0x52d821af, 0xe80ac15f, 0x9d72a67a)) ==
            [0xa4, 0x48, 0x01, 0x7a, 0xaf, 0x21, 0xd8, 0x52, 0x5f, 0xc1, 0x0a, 0xe8, 0x7a, 0xa6, 0x72, 0x9d]
  {
  }

  lemma AbcDigest()
    ensures Output(Rfc(ABC)) ==
            [0xa4, 0x48, 0x01, 0x7a, 0xaf, 0x21, 0xd8, 0x52, 0x5f, 0xc1, 0x0a, 0xe8, 0x7a, 0xa6, 0x72, 0x9d]
  {
    hide Padded, Words, Compress, Output;
    AbcWords();
    AbcBlock();
    OneBlock(Padded(ABC));
    AbcOutput();
  }

  // ----- "ABCDEFGHIJKLMNOPQRSTUVWXYZabcdefghijklmnopqrstuvwxyz0123456789"

  const ALNUM0: seq<Byte> := [0x41, 0x42, 0x43, 0x44, 0x45, 0x46, 0x47, 0x48, 0x49, 0x4a, 0x4b, 0x4c, 0x4d, 0x4e, 0x4f, 0x50]
  const ALNUM1: seq<Byte> := [0x51, 0x52, 0x53, 0x54, 0x55, 0x56, 0x57, 0x58, 0x59, 0x5a, 0x61, 0x62, 0x63, 0x64, 0x65, 0x66]
  const ALNUM2: seq<Byte> := [0x67, 0x68, 0x69, 0x6a, 0x6b, 0x6c, 0x6d, 0x6e, 0x6f, 0x70, 0x71, 0x72, 0x73, 0x74, 0x75, 0x76]
  const ALNUM3: seq<Byte> := [0x77, 0x78, 0x79, 0x7a, 0x30, 0x31, 0x32, 0x33, 0x34, 0x35, 0x36, 0x37, 0x38, 0x39]

  const ALNUM := ALNUM0 + ALNUM1 + ALNUM2 + ALNUM3

  const ALNUM_WORDS0: seq<Word> :=
    [0x44434241, 0x48474645, 0x4c4b4a49, 0x504f4e4d, 0x54535251, 0x58575655, 0x62615a59, 0x66656463,
     0x6a696867, 0x6e6d6c6b, 0x7271706f, 0x76757473, 0x7a797877, 0x33323130, 0x37363534, 0x00803938]

  lemma Alnum0Quads1()
    ensures Quad1(Regs(0x67452301, 0xefcdab89, 0x98badcfe, 0x10325476), 0x44434241, 0x48474645, 0x4c4b4a49, 0x504f4e4d)
         == Regs(0x221a1202, 0xa2f68168, 0xfaca3a9e, 0x9134db89)
    ensures Quad1(Regs(0x221a1202, 0xa2f68168, 0xfaca3a9e, 0x9134db89), 0x54535251, 0x58575655, 0x62615a59, 0x66656463)
         == Regs(0x517df6e1, 0xa59a55ca, 0x59e2ba09, 0x415d2e4a)
    ensures Quad1(Regs(0x517df6e1, 0xa59a55ca, 0x59e2ba09, 0x415d2e4a), 0x6a696867, 0x6e6d6c6b, 0x7271706f, 0x76757473)
         == Regs(0xed74ca87, 0x2e185725, 0x97aa13cb, 0xae859fb2)
    ensures Quad1(Regs(0xed74ca87, 0x2e185725, 0x97aa13cb, 0xae859fb2), 0x7a797877, 0x33323130, 0x37363534, 0x00803938)
         == Regs(0x73def48f, 0x37410d7b, 0xe4ed3227, 0xf81413c3)
  {
  }

  lemma Alnum0Quads2()
    ensures Quad2(Regs(0x73def48f, 0x37410d7b, 0xe4ed3227, 0xf81413c3), 0x44434241, 0x54535251, 0x6a696867, 0x7a797877)
         == Regs(0x374e1e60, 0x88b9ac51, 0x504545c2, 0xc6dfc21b)
    ensures Quad2(Regs(0x374e1e60, 0x88b9ac51, 0x504545c2, 0xc6dfc21b), 0x48474645, 0x58575655, 0x6e6d6c6b, 0x33323130)
         == Regs(0xd7ad148c, 0xbe947e7f, 0xdd8f9fcb, 0x4cd2d929)
    ensures Quad2(Regs(0xd7ad148c, 0xbe947e7f, 0xdd8f9fcb, 0x4cd2d929), 0x4c4b4a49, 0x62615a59, 0x7271706f, 0x37363534)
         == Regs(0xd88dbeca, 0x5583431b, 0x22116306, 0xc88d7cdc)
    ensures Quad2(Regs(0xd88dbeca, 0x5583431b, 0x22116306, 0xc88d7cdc), 0x504f4e4d, 0x66656463, 0x76757473, 0x00803938)
         == Regs(0x1f074e76, 0x3a4c19f1, 0x1940d024, 0x0f13bdd4)
  {
  }

  lemma Alnum0Quads3()
    ensures Quad3(Regs(0x1f074e76, 0x3a4c19f1, 0x1940d024, 0x0f13bdd4), 0x44434241, 0x6a696867, 0x54535251, 0x7a797877)
         == Regs(0xf21f82cf, 0x7b400312, 0xc42317ca, 0xd4b9ed72)
    ensures Quad3(Regs(0xf21f82cf, 0x7b400312, 0xc42317ca, 0xd4b9ed72), 0x4c4b4a49, 0x7271706f, 0x62615a59, 0x37363534)
         == Regs(0xc8fd9318, 0xef77c30f, 0xeb90ac4b, 0x47a2845b)
    ensures Quad3(Regs(0xc8fd9318, 0xef77c30f, 0xeb90ac4b, 0x47a2845b), 0x48474645, 0x6e6d6c6b, 0x58575655, 0x33323130)
         == Regs(0x1b2580ee, 0x64a1d922, 0x627d4b04, 0x59982289)
    ensures Quad3(Regs(0x1b2580ee, 0x64a1d922, 0x627d4b04, 0x59982289), 0x504f4e4d, 0x76757473, 0x66656463, 0x00803938)
         == Regs(0xcc9b5c59, 0x759a067b, 0xaac38972, 0x5ea23812)
  {
  }

  lemma Alnum0Round1()
    ensures Steps(16, Regs(0x67452301, 0xefcdab89, 0x98badcfe, 0x10325476), ALNUM_WORDS0)
         == Regs(0x73def48f, 0x37410d7b, 0xe4ed3227, 0xf81413c3)
  {
    hide Steps, Quad1;
    var start := Regs(0x67452301, 0xefcdab89, 0x98badcfe, 0x10325476);
    Alnum0Quads1();
    NoSteps(start, ALNUM_WORDS0);
    FourSteps1(0, start, ALNUM_WORDS0);
    FourSteps1(4, start, ALNUM_WORDS0);
    FourSteps1(8, start, ALNUM_WORDS0);
    FourSteps1(12, start, ALNUM_WORDS0);
  }

  lemma Alnum0Round2()
    requires Steps(16, Regs(0x67452301, 0xefcdab89, 0x98badcfe, 0x10325476), ALNUM_WORDS0)
         == Regs(0x73def48f, 0x37410d7b, 0xe4ed3227, 0xf81413c3)
    ensures Steps(32, Regs(0x67452301, 0xefcdab89, 0x98badcfe, 0x10325476), ALNUM_WORDS0)
         == Regs(0x1f074e76, 0x3a4c19f1, 0x1940d024, 0x0f13bdd4)
  {
    hide Steps, Quad2;
    var start := Regs(0x67452301, 0xefcdab89, 0x98badcfe, 0x10325476);
    Alnum0Quads2();
    FourSteps2(16, 0, start, ALNUM_WORDS0);
    FourSteps2(20, 1, start, ALNUM_WORDS0);
    FourSteps2(24, 2, start, ALNUM_WORDS0);
    FourSteps2(28, 3, start, ALNUM_WORDS0);
  }

  lemma Alnum0Round3()
    requires Steps(32, Regs(0x67452301, 0xefcdab89, 0x98badcfe, 0x10325476), ALNUM_WORDS0)
         == Regs(0x1f074e76, 0x3a4c19f1, 0x1940d024, 0x0f13bdd4)
    ensures Steps(48, Regs(0x67452301, 0xefcdab89, 0x98badcfe, 0x10325476), ALNUM_WORDS0)
         == Regs(0xcc9b5c59, 0x759a067b, 0xaac38972, 0x5ea23812)
  {
    hide Steps, Quad3;
    var start := Regs(0x67452301, 0xefcdab89, 0x98badcfe, 0x10325476);
    Alnum0Quads3();
    FourSteps3(32, 0, start, ALNUM_WORDS0);
    FourSteps3(36, 2, start, ALNUM_WORDS0);
    FourSteps3(40, 1, start, ALNUM_WORDS0);
    FourSteps3(44, 3, start, ALNUM_WORDS0);
  }

  lemma Alnum0Block()
    ensures Compress(Regs(0x67452301, 0xefcdab89, 0x98badcfe, 0x10325476), ALNUM_WORDS0)
         == Regs(0x33e07f5a, 0x6567b204, 0x437e6670, 0x6ed48c88)
  {
    hide Steps;
    Alnum0Round1();
    Alnum0Round2();
    Alnum0Round3();
  }

  const ALNUM_WORDS1: seq<Word> :=
    [0x00000000, 0x00000000, 0x00000000, 0x00000000, 0x00000000, 0x00000000, 0x00000000, 0x00000000,
     0x00000000, 0x00000000, 0x00000000, 0x00000000, 0x00000000, 0x00000000, 0x000001f0, 0x00000000]

  lemma Alnum1Quads1()
    ensures Quad1(Regs(0x33e07f5a, 0x6567b204, 0x437e6670, 0x6ed48c88), 0x00000000, 0x00000000, 0x00000000, 0x00000000)
         == Regs(0xfeb56f13, 0x82b711f9, 0xa263b541, 0x21d7746a)
    ensures Quad1(Regs(0xfeb56f13, 0x82b711f9, 0xa263b541, 0x21d7746a), 0x00000000, 0x00000000, 0x00000000, 0x00000000)
         == Regs(0x10c722b5, 0xacf4d3e1, 0xd72fd198, 0x3f852de2)
    ensures Quad1(Regs(0x10c722b5, 0xacf4d3e1, 0xd72fd198, 0x3f852de2), 0x00000000, 0x00000000, 0x00000000, 0x00000000)
         == Regs(0x3f6901bd, 0xabf55310, 0xc72c68a4, 0xf5ffc195)
    ensures Quad1(Regs(0x3f6901bd, 0xabf55310, 0xc72c68a4, 0xf5ffc195), 0x00000000, 0x00000000, 0x000001f0, 0x00000000)
         == Regs(0xb4be1210, 0x1f45209c, 0x5ded23c9, 0xda1e24ec)
  {
  }

  lemma Alnum1Quads2()
    ensures Quad2(Regs(0xb4be1210, 0x1f45209c, 0x5ded23c9, 0xda1e24ec), 0x00000000, 0x00000000, 0x00000000, 0x00000000)
         == Regs(0x746d63ab, 0x9f7a1d78, 0xb9fdf81b, 0x41b841d2)
    ensures Quad2(Regs(0x746d63ab, 0x9f7a1d78, 0xb9fdf81b, 0x41b841d2), 0x00000000, 0x00000000, 0x00000000, 0x00000000)
         == Regs(0x4741b4f3, 0x527d0a09, 0x965d4ed7, 0x768efcc7)
    ensures Quad2(Regs(0x4741b4f3, 0x527d0a09, 0x965d4ed7, 0x768efcc7), 0x00000000, 0x00000000, 0x00000000, 0x000001f0)
         == Regs(0xc10bea9f, 0x3410c1d1, 0x71a61a64, 0x6dd81ff4)
    ensures Quad2(Regs(0xc10bea9f, 0x3410c1d1, 0x71a61a64, 0x6dd81ff4), 0x00000000, 0x00000000, 0x00000000, 0x00000000)
         == Regs(0x88f40164, 0xb01ce610, 0xf1aae5d9, 0x21d35e3f)
  {
  }

  lemma Alnum1Quads3()
    ensures Quad3(Regs(0x88f40164, 0xb01ce610, 0xf1aae5d9, 0x21d35e3f), 0x00000000, 0x00000000, 0x00000000, 0x00000000)
         == Regs(0xc19a57da, 0xb5494170, 0x114b291a, 0xb33be621)
    ensures Quad3(Regs(0xc19a57da, 0xb5494170, 0x114b291a, 0xb33be621), 0x00000000, 0x00000000, 0x00000000, 0x000001f0)
         == Regs(0x3d6e8e32, 0x3517fa46, 0xe877806b, 0x05703577)
    ensures Quad3(Regs(0x3d6e8e32, 0x3517fa46, 0xe877806b, 0x05703577), 0x00000000, 0x00000000, 0x00000000, 0x00000000)
         == Regs(0x22c6496c, 0x0bf21a79, 0x536eca76, 0xe0a8b2e7)
    ensures Quad3(Regs(0x22c6496c, 0x0bf21a79, 0x536eca76, 0xe0a8b2e7), 0x00000000, 0x00000000, 0x00000000, 0x00000000)
         == Regs(0x4ea4bfaa, 0xd0738fee, 0x9da97fac, 0x761c5acb)
  {
  }

  lemma Alnum1Round1()
    ensures Steps(16, Regs(0x33e07f5a, 0x6567b204, 0x437e6670, 0x6ed48c88), ALNUM_WORDS1)
         == Regs(0xb4be1210, 0x1f45209c, 0x5ded23c9, 0xda1e24ec)
  {
    hide Steps, Quad1;
    var start := Regs(0x33e07f5a, 0x6567b204, 0x437e6670, 0x6ed48c88);
    Alnum1Quads1();
    NoSteps(start, ALNUM_WORDS1);
    FourSteps1(0, start, ALNUM_WORDS1);
    FourSteps1(4, start, ALNUM_WORDS1);
    FourSteps1(8, start, ALNUM_WORDS1);
    FourSteps1(12, start, ALNUM_WORDS1);
  }

  lemma Alnum1Round2()
    requires Steps(16, Regs(0x33e07f5a, 0x6567b204, 0x437e6670, 0x6ed48c88), ALNUM_WORDS1)
         == Regs(0xb4be1210, 0x1f45209c, 0x5ded23c9, 0xda1e24ec)
    ensures Steps(32, Regs(0x33e07f5a, 0x6567b204, 0x437e6670, 0x6ed48c88), ALNUM_WORDS1)
         == Regs(0x88f40164, 0xb01ce610, 0xf1aae5d9, 0x21d35e3f)
  {
    hide Steps, Quad2;
    var start := Regs(0x33e07f5a, 0x6567b204, 0x437e6670, 0x6ed48c88);
    Alnum1Quads2();
    FourSteps2(16, 0, start, ALNUM_WORDS1);
    FourSteps2(20, 1, start, ALNUM_WORDS1);
    FourSteps2(24, 2, start, ALNUM_WORDS1);
    FourSteps2(28, 3, start, ALNUM_WORDS1);
  }

  lemma Alnum1Round3()
    requires Steps(32, Regs(0x33e07f5a, 0x6567b204, 0x437e6670, 0x6ed48c88), ALNUM_WORDS1)
         == Regs(0x88f40164, 0xb01ce610, 0xf1aae5d9, 0x21d35e3f)
    ensures Steps(48, Regs(0x33e07f5a, 0x6567b204, 0x437e6670, 0x6ed48c88), ALNUM_WORDS1)
         == Regs(0x4ea4bfaa, 0xd0738fee, 0x9da97fac, 0x761c5acb)
  {
    hide Steps, Quad3;
    var start := Regs(0x33e07f5a, 0x6567b204, 0x437e6670, 0x6ed48c88);
    Alnum1Quads3();
    FourSteps3(32, 0, start, ALNUM_WORDS1);
    FourSteps3(36, 2, start, ALNUM_WORDS1);
    FourSteps3(40, 1, start, ALNUM_WORDS1);
    FourSteps3(44, 3, start, ALNUM_WORDS1);
  }

  lemma Alnum1Block()
    ensures Compress(Regs(0x33e07f5a, 0x6567b204, 0x437e6670, 0x6ed48c88), ALNUM_WORDS1)
         == Regs(0x82853f04, 0x35db41f2, 0xe127e61c, 0xe4f0e753)
  {
    hide Steps;
    Alnum1Round1();
    Alnum1Round2();
    Alnum1Round3();
  }

  lemma AlnumLength()
    ensures LowBits(62) == 496 && HighBits(62) == 0
  {
    hide LowBits, HighBits;
    HighBitsZero(62);
    ShortLength(62, 496);
  }

  lemma AlnumStored()
    ensures StoreWord(496) == [0xf0, 0x01, 0x00, 0x00] && StoreWord(0) == [0, 0, 0, 0]
  {
  }

  lemma AlnumPadded()
    ensures Padded(ALNUM) == ALNUM + [0x80] + Zeros(57) + [0xf0, 0x01, 0x00, 0x00] + [0, 0, 0, 0]
  {
    hide StoreWord, LowBits, HighBits;
    AlnumLength();
    AlnumStored();
  }

  lemma Alnum0Rows()
    ensures Padded(ALNUM)[0..16] ==
            [0x41, 0x42, 0x43, 0x44, 0x45, 0x46, 0x47, 0x48, 0x49, 0x4a, 0x4b, 0x4c, 0x4d, 0x4e, 0x4f, 0x50]
    ensures Padded(ALNUM)[16..32] ==
            [0x51, 0x52, 0x53, 0x54, 0x55, 0x56, 0x57, 0x58, 0x59, 0x5a, 0x61, 0x62, 0x63, 0x64, 0x65, 0x66]
    ensures Padded(ALNUM)[32..48] ==
            [0x67, 0x68, 0x69, 0x6a, 0x6b, 0x6c, 0x6d, 0x6e, 0x6f, 0x70, 0x71, 0x72, 0x73, 0x74, 0x75, 0x76]
    ensures Padded(ALNUM)[48..64] ==
            [0x77, 0x78, 0x79, 0x7a, 0x30, 0x31, 0x32, 0x33, 0x34, 0x35, 0x36, 0x37, 0x38, 0x39, 0x80, 0x00]
  {
    hide Padded;
    AlnumPadded();
  }

  lemma Alnum0Loads()
    ensures Four([0x41, 0x42, 0x43, 0x44, 0x45, 0x46, 0x47, 0x48, 0x49, 0x4a, 0x4b, 0x4c, 0x4d, 0x4e, 0x4f, 0x50])
         == [0x44434241, 0x48474645, 0x4c4b4a49, 0x504f4e4d]
    ensures Four([0x51, 0x52, 0x53, 0x54, 0x55, 0x56, 0x57, 0x58, 0x59, 0x5a, 0x61, 0x62, 0x63, 0x64, 0x65, 0x66])
         == [0x54535251, 0x58575655, 0x62615a59, 0x66656463]
    ensures Four([0x67, 0x68, 0x69, 0x6a, 0x6b, 0x6c, 0x6d, 0x6e, 0x6f, 0x70, 0x71, 0x72, 0x73, 0x74, 0x75, 0x76])
         == [0x6a696867, 0x6e6d6c6b, 0x7271706f, 0x76757473]
    ensures Four([0x77, 0x78, 0x79, 0x7a, 0x30, 0x31, 0x32, 0x33, 0x34, 0x35, 0x36, 0x37, 0x38, 0x39, 0x80, 0x00])
         == [0x7a797877, 0x33323130, 0x37363534, 0x00803938]
  {
  }

  lemma Alnum0Words()
    ensures Words(Padded(ALNUM)[0..64]) == ALNUM_WORDS0
  {
    hide Four, Padded, Words;
    Alnum0Loads();
    Alnum0Rows();
    Gather(Padded(ALNUM), 0, ALNUM_WORDS0);
  }

  lemma Alnum1Rows()
    ensures Padded(ALNUM)[64..80] ==
            [0x00, 0x00, 0x00, 0x00, 0x00, 0x00, 0x00, 0x00, 0x00, 0x00, 0x00, 0x00, 0x00, 0x00, 0x00, 0x00]
    ensures Padded(ALNUM)[80..96] ==
            [0x00, 0x00, 0x00, 0x00, 0x00, 0x00, 0x00, 0x00, 0x00, 0x00, 0x00, 0x00, 0x00, 0x00, 0x00, 0x00]
    ensures Padded(ALNUM)[96..112] ==
            [0x00, 0x00, 0x00, 0x00, 0x00, 0x00, 0x00, 0x00, 0x00, 0x00, 0x00, 0x00, 0x00, 0x00, 0x00, 0x00]
    ensures Padded(ALNUM)[112..128] ==
            [0x00, 0x00, 0x00, 0x00, 0x00, 0x00, 0x00, 0x00, 0xf0, 0x01, 0x00, 0x00, 0x00, 0x00, 0x00, 0x00]
  {
    hide Padded;
    AlnumPadded();
  }

  lemma Alnum1Loads()
    ensures Four([0x00, 0x00, 0x00, 0x00, 0x00, 0x00, 0x00, 0x00, 0x00, 0x00, 0x00, 0x00, 0x00, 0x00, 0x00, 0x00])
         == [0x00000000, 0x00000000, 0x00000000, 0x00000000]
    ensures Four([0x00, 0x00, 0x00, 0x00, 0x00, 0x00, 0x00, 0x00, 0xf0, 0x01, 0x00, 0x00, 0x00, 0x00, 0x00, 0x00])
         == [0x00000000, 0x00000000, 0x000001f0, 0x00000000]
  {
  }

  lemma Alnum1Words()
    ensures Words(Padded(ALNUM)[64..128]) == ALNUM_WORDS1
  {
    hide Four, Padded, Words;
    Alnum1Loads();
    Alnum1Rows();
    Gather(Padded(ALNUM), 64, ALNUM_WORDS1);
  }

  lemma AlnumOutput()
    ensures Output(Regs(0x82853f04, 0x35db41f2, 0xe127e61c, 0xe4f0e753)) ==
            [0x04, 0x3f, 0x85, 0x82, 0xf2, 0x41, 0xdb, 0x35, 0x1c, 0xe6, 0x27, 0xe1, 0x53, 0xe7, 0xf0, 0xe4]
  {
  }

  lemma AlnumDigest()
    ensures Output(Rfc(ALNUM)) ==
            [0x04, 0x3f, 0x85, 0x82, 0xf2, 0x41, 0xdb, 0x35, 0x1c, 0xe6, 0x27, 0xe1, 0x53, 0xe7, 0xf0, 0xe4]
  {
    hide Padded, Words, Compress, Output;
    Alnum0Words();
    Alnum0Block();
    Alnum1Words();
    Alnum1Block();
    TwoBlocks(Padded(ALNUM));
    AlnumOutput();
  }
}
