/** Comparison of keys of any kind (Source/DOH/base.c:190-256): null, plain C strings and string objects.  C strings are
    compared by unsigned characters, two string objects by `char`, which is signed here.  Contents hold no zero byte.
 */
module Dispatch {
  import opened Lex
  import opened HashTable
  import opened StringHash

  datatype Key = Null | CString(text: string) | StringObject(text: string)

  function DohCmp(a: Key, b: Key): int {
    if !a.StringObject? || !b.StringObject? then
      if a.Null? && b.Null? then 0
      else if b.Null? then 1
      else if a.Null? then -1
      else Compare(a.text, b.text, false)
    else Compare(a.text, b.text, true)
  }

  function DohEqual(a: Key, b: Key): bool {
    if a.Null? then b.Null?
    else if b.Null? then false
    else if a.StringObject? && b.StringObject? then |a.text| == |b.text| && a.text == b.text
    else if a.StringObject? || b.StringObject? then |a.text| == |b.text| && a.text[..|a.text|] == b.text[..|a.text|]
    else Compare(a.text, b.text, false) == 0
  }

  /** Whatever the two keys are, they are equal exactly when they compare as zero, and that is when they have the same
      contents; equal keys are filed in the same bucket of any table. */
  lemma EqualIsCmpZero(a: Key, b: Key, size: nat)
    requires 0 < size
    ensures DohEqual(a, b) <==> DohCmp(a, b) == 0
    ensures DohEqual(a, b) <==> (a.Null? && b.Null?) || (!a.Null? && !b.Null? && a.text == b.text)
    ensures DohEqual(a, b) && !a.Null? ==> Bucket(a.text, size) == HashOf(a.text) % size == Bucket(b.text, size)
  {
    hide HashOf, Compare;
    if !a.Null? && !b.Null? {
      CompareZero(a.text, b.text, false);
      CompareZero(a.text, b.text, true);
      assert |a.text| == |b.text| ==> a.text[..|a.text|] == a.text && b.text[..|a.text|] == b.text;
    }
  }

  /** The length of the common beginning. */
  function Common(a: string, b: string): (k: nat)
    ensures k <= |a| && k <= |b|
  {
    if a != "" && b != "" && a[0] == b[0] then 1 + Common(a[1..], b[1..]) else 0
  }

  ghost predicate AllBytes(s: string) {
    forall i :: 0 <= i < |s| ==> s[i] as int < 256
  }

  /** The two characters that decide the comparison stand on different sides of 128. */
  ghost predicate Straddles(a: string, b: string) {
    var k := Common(a, b);
    k < |a| && k < |b| && ((a[k] as int < 128) != (b[k] as int < 128))
  }

  /** Which of two keys comes first depends on their representation exactly when the characters that decide it stand on
      different sides of 128. */
  lemma {:induction false} OrderDependsOnKind(a: string, b: string)
    requires AllBytes(a) && AllBytes(b)
    ensures DohCmp(StringObject(a), StringObject(b)) == DohCmp(CString(a), StringObject(b)) <==> !Straddles(a, b)
  {
    if a != "" && b != "" && a[0] == b[0] {
      OrderDependsOnKind(a[1..], b[1..]);
    }
  }

  /** How a byte counts when two string objects are compared (`char` is signed), and otherwise. */
  function Weight(c: char, objects: bool): int {
    if objects then (c as int + 128) % 256 else c as int
  }

  /** Null comes before everything else; of two texts that one comes first which has the smaller byte at the first place
      where they differ, or ends there. */
  ghost predicate Earlier(a: Key, b: Key) {
    if a.Null? || b.Null? then a.Null? && !b.Null?
    else
      var objects := a.StringObject? && b.StringObject?;
      exists k: nat ::
        && k <= |a.text| && k < |b.text| && a.text[..k] == b.text[..k]
        && (k == |a.text| || Weight(a.text[k], objects) < Weight(b.text[k], objects))
  }

  lemma WeightIsRank(c: char, d: char, objects: bool)
    requires c as int < 256 && d as int < 256
    ensures Weight(c, objects) < Weight(d, objects) <==> Rank(c, objects) < Rank(d, objects)
  {
  }

  lemma EarlierIsBefore(a: Key, b: Key)
    requires !a.Null? && !b.Null? && AllBytes(a.text) && AllBytes(b.text)
    ensures Earlier(a, b) <==> Before(a.text, b.text, a.StringObject? && b.StringObject?)
  {
    hide Weight, Rank;
    var objects := a.StringObject? && b.StringObject?;
    forall i, j | 0 <= i < |a.text| && 0 <= j < |b.text|
      ensures Weight(a.text[i], objects) < Weight(b.text[j], objects) <==> Rank(a.text[i], objects) < Rank(b.text[j], objects)
    {
      WeightIsRank(a.text[i], b.text[j], objects);
    }
  }

  /** The sign of the comparison is the order. */
  lemma CmpIsOrder(a: Key, b: Key)
    requires (!a.Null? ==> AllBytes(a.text)) && (!b.Null? ==> AllBytes(b.text))
    ensures DohCmp(a, b) < 0 <==> Earlier(a, b)
    ensures DohCmp(a, b) > 0 <==> Earlier(b, a)
  {
    if !a.Null? && !b.Null? {
      hide Before, Compare, Earlier, AllBytes;
      EarlierIsBefore(a, b);
      EarlierIsBefore(b, a);
      CompareMeans(a.text, b.text, a.StringObject? && b.StringObject?);
    }
  }

  /** Byte 200 comes before "a" in string objects, and behind it once one of the two is a C string. */
  lemma OrderCanDiffer()
    ensures var high := [200 as char];
            && DohCmp(StringObject(high), StringObject("a")) < 0
            && DohCmp(CString(high), StringObject("a")) > 0
  {
  }
}
