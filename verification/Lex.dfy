/** Lexicographic comparison of character strings, as `strcmp` (unsigned characters) and `String_cmp`
    (characters of type `char`, signed here) perform it.
 */
module Lex {

  /** The value of a byte read through a signed `char`. */
  function SignedChar(c: char): int {
    if 128 <= c as int < 256 then c as int - 256 else c as int
  }

  function Rank(c: char, signed: bool): int {
    if signed then SignedChar(c) else c as int
  }

  function Compare(a: string, b: string, signed: bool): (r: int)
    ensures -1 <= r <= 1
  {
    if a == "" then (if b == "" then 0 else -1)
    else if b == "" then 1
    else if Rank(a[0], signed) < Rank(b[0], signed) then -1
    else if Rank(a[0], signed) > Rank(b[0], signed) then 1
    else Compare(a[1..], b[1..], signed)
  }

  lemma {:induction false} CompareZero(a: string, b: string, signed: bool)
    ensures Compare(a, b, signed) == 0 <==> a == b
  {
    if a != "" && b != "" && a[0] == b[0] {
      CompareZero(a[1..], b[1..], signed);
      assert a == [a[0]] + a[1..] && b == [b[0]] + b[1..];
    }
  }

  lemma {:induction false} CompareAntisymmetric(a: string, b: string, signed: bool)
    ensures Compare(a, b, signed) == -Compare(b, a, signed)
  {
    if a != "" && b != "" {
      CompareAntisymmetric(a[1..], b[1..], signed);
    }
  }

  lemma {:induction false} CompareTransitive(a: string, b: string, c: string, signed: bool)
    requires Compare(a, b, signed) <= 0 && Compare(b, c, signed) <= 0
    ensures Compare(a, c, signed) <= 0
    ensures Compare(a, b, signed) < 0 || Compare(b, c, signed) < 0 ==> Compare(a, c, signed) < 0
  {
    if a != "" && b != "" && c != "" && Rank(a[0], signed) == Rank(b[0], signed) == Rank(c[0], signed) {
      CompareTransitive(a[1..], b[1..], c[1..], signed);
    }
  }

  /** `a` comes before `b`: at the first place where they differ it has the smaller character, or it ends there. */
  ghost predicate Before(a: string, b: string, signed: bool) {
    exists k: nat ::
      && k <= |a| && k < |b| && a[..k] == b[..k]
      && (k == |a| || Rank(a[k], signed) < Rank(b[k], signed))
  }

  /** The comparison is negative exactly on strings in lexicographic order, positive exactly on those in reverse. */
  lemma CompareMeans(a: string, b: string, signed: bool)
    ensures Compare(a, b, signed) < 0 <==> Before(a, b, signed)
    ensures Compare(a, b, signed) > 0 <==> Before(b, a, signed)
  {
    CompareAntisymmetric(a, b, signed);
    NegativeMeans(a, b, signed);
    NegativeMeans(b, a, signed);
  }

  lemma {:induction false} NegativeMeans(a: string, b: string, signed: bool)
    ensures Compare(a, b, signed) < 0 <==> Before(a, b, signed)
  {
    hide Before;
    if a == "" || b == "" || a[0] != b[0] {
      BeforeHead(a, b, signed);
    } else {
      NegativeMeans(a[1..], b[1..], signed);
      BeforeTail(a, b, signed);
    }
  }

  lemma BeforeHead(a: string, b: string, signed: bool)
    requires a == "" || b == "" || a[0] != b[0]
    ensures Before(a, b, signed) <==> b != "" && (a == "" || Rank(a[0], signed) < Rank(b[0], signed))
  {
    hide Rank;
    assert a[..0] == b[..0];
    if Before(a, b, signed) {
      var k: nat :| k <= |a| && k < |b| && a[..k] == b[..k] && (k == |a| || Rank(a[k], signed) < Rank(b[k], signed));
      SamePrefix(a, b, k);
    }
  }

  lemma SamePrefix(a: string, b: string, k: nat)
    requires k <= |a| && k <= |b| && a[..k] == b[..k]
    ensures k > 0 ==> a[0] == b[0]
  {
    if k > 0 { assert a[0] == a[..k][0] == b[..k][0]; }
  }

  lemma BeforeTail(a: string, b: string, signed: bool)
    requires a != "" && b != "" && a[0] == b[0]
    ensures Before(a, b, signed) <==> Before(a[1..], b[1..], signed)
  {
    hide Rank;
    if Before(a[1..], b[1..], signed) {
      var k: nat :| k <= |a[1..]| && k < |b[1..]| && a[1..][..k] == b[1..][..k]
                    && (k == |a[1..]| || Rank(a[1..][k], signed) < Rank(b[1..][k], signed));
      assert a[..k + 1] == [a[0]] + a[1..][..k] && b[..k + 1] == [b[0]] + b[1..][..k];
    }
    if Before(a, b, signed) {
      var k: nat :| k <= |a| && k < |b| && a[..k] == b[..k] && (k == |a| || Rank(a[k], signed) < Rank(b[k], signed));
      SameHead(a, b, k, signed);
      assert a[1..][..k - 1] == a[..k][1..] && b[1..][..k - 1] == b[..k][1..];
    }
  }

  lemma SameHead(a: string, b: string, k: nat, signed: bool)
    requires a != "" && b != "" && a[0] == b[0] && k <= |a| && k < |b|
    requires k == |a| || Rank(a[k], signed) < Rank(b[k], signed)
    ensures k > 0
  {
  }

  /** Dropping a common prefix does not change the comparison. */
  lemma {:induction false} CompareCommonPrefix(a: string, b: string, k: nat, signed: bool)
    requires k <= |a| && k <= |b| && a[..k] == b[..k]
    ensures Compare(a, b, signed) == Compare(a[k..], b[k..], signed)
  {
    if k != 0 {
      assert a[0] == a[..k][0] == b[..k][0] == b[0];
      assert a[1..][..k - 1] == a[..k][1..] == b[..k][1..] == b[1..][..k - 1];
      CompareCommonPrefix(a[1..], b[1..], k - 1, signed);
      assert a[1..][k - 1..] == a[k..] && b[1..][k - 1..] == b[k..];
    } else {
      assert a[0..] == a && b[0..] == b;
    }
  }
}
