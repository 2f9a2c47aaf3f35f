/** The hash value of string contents, as a polynomial in 32 over the first fifty signed characters
    (Source/DOH/string.c, String_hash).
 */
module StringHash {
  import opened Lex

  const WORD := 0x1_0000_0000
  const HASH_RANGE := 0x8000_0000
  const HASH_PREFIX := 50

  /** The unbounded polynomial: sum of s[i] * 32^(|s| - 1 - i). */
  function Poly(s: string): int {
    if s == "" then 0 else 32 * Poly(s[..|s| - 1]) + SignedChar(s[|s| - 1])
  }

  function Hashed(s: string): string {
    if |s| > HASH_PREFIX then s[..HASH_PREFIX] else s
  }

  function HashOf(s: string): (h: nat)
    ensures h < HASH_RANGE
  {
    Poly(Hashed(s)) % HASH_RANGE
  }

  /** One step of the C loop on a 32-bit word: `h = (h << 5) + c`. */
  function Mix(h: nat, c: char): nat {
    (32 * h + SignedChar(c)) % WORD
  }

  lemma MixTracksPoly(h: nat, s: string, k: nat)
    requires k < |s| && h == Poly(s[..k]) % WORD
    ensures Mix(h, s[k]) == Poly(s[..k + 1]) % WORD
  {
    assert s[..k + 1][..k] == s[..k];
    var x := Poly(s[..k]);
    var q := x / WORD;
    assert x == WORD * q + h;
    assert 32 * x + SignedChar(s[k]) == WORD * (32 * q) + (32 * h + SignedChar(s[k]));
    ModCancel(32 * h + SignedChar(s[k]), 32 * q);
  }

  lemma ModCancel(a: int, k: int)
    ensures (WORD * k + a) % WORD == a % WORD
    ensures (HASH_RANGE * k + a) % HASH_RANGE == a % HASH_RANGE
  {
  }

  lemma MaskWord(x: int)
    ensures (x % WORD) % HASH_RANGE == x % HASH_RANGE
  {
    assert x == HASH_RANGE * (2 * (x / WORD)) + x % WORD;
    ModCancel(x % WORD, 2 * (x / WORD));
  }

  function Pow32(n: nat): nat {
    if n == 0 then 1 else 32 * Pow32(n - 1)
  }

  lemma {:induction false} PolyConcat(a: string, b: string)
    ensures Poly(a + b) == Poly(a) * Pow32(|b|) + Poly(b)
  {
    if b == "" {
      assert a + b == a;
    } else {
      var b' := b[..|b| - 1];
      assert (a + b)[..|a + b| - 1] == a + b';
      PolyConcat(a, b');
      assert 32 * (Poly(a) * Pow32(|b'|)) == Poly(a) * Pow32(|b|);
    }
  }

  /** The hash sees only the last seven of the characters it reads: 32^7 is a multiple of 2^31. */
  lemma HashSeesLastSeven(s: string, t: string)
    requires |Hashed(s)| >= 7 && |Hashed(t)| >= 7
    requires Hashed(s)[|Hashed(s)| - 7..] == Hashed(t)[|Hashed(t)| - 7..]
    ensures HashOf(s) == HashOf(t)
  {
    HashIsLastSeven(Hashed(s));
    HashIsLastSeven(Hashed(t));
  }

  lemma HashIsLastSeven(s: string)
    requires |s| >= 7
    ensures Poly(s) % HASH_RANGE == Poly(s[|s| - 7..]) % HASH_RANGE
  {
    var a, b := s[..|s| - 7], s[|s| - 7..];
    assert s == a + b;
    PolyConcat(a, b);
    assert Pow32(7) == 16 * HASH_RANGE;
    assert Poly(a) * Pow32(7) == HASH_RANGE * (16 * Poly(a));
    ModCancel(Poly(b), 16 * Poly(a));
  }

  /** Two hash values: 32 * 97 + 98, and -56 modulo 2^31. */
  lemma HashValues()
    ensures HashOf("ab") == 3202 && HashOf([200 as char]) == 2147483592
  {
    assert "ab"[..1] == "a" && "a"[..0] == "";
    assert Poly("a") == 97;
    assert [200 as char][..0] == "";
  }
}
