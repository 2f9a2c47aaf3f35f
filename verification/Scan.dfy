/** Character classes of the C locale, and runs of one class. */
module Scan {
  type Text = seq<char>

  /** No such place. */
  const NONE := -1

  predicate Digit(c: char) { '0' <= c <= '9' }
  predicate Space(c: char) { c == ' ' || 9 <= c as int <= 13 }

  lemma SliceSnoc(s: Text, i: nat, j: nat)
    requires i <= j < |s|
    ensures s[i..j] + [s[j]] == s[i..j + 1]
  {
  }

  lemma SliceWithin(s: Text, from: nat, i: nat, j: nat)
    requires from <= i <= j <= |s|
    ensures s[from..][i - from..j - from] == s[i..j]
  {
  }

  /** The end of the run of `cls` characters from `i` on. */
  function Span(cls: char -> bool, s: Text, i: nat): (e: nat)
    ensures i <= e && (i <= |s| ==> e <= |s|)
    decreases |s| - i
  {
    if i < |s| && cls(s[i]) then Span(cls, s, i + 1) else i
  }

  /** The run holds nothing else, and ends where the class or the text does. */
  lemma {:induction false} SpanMeaning(cls: char -> bool, s: Text, i: nat)
    requires i <= |s|
    ensures var e := Span(cls, s, i);
            && (forall k :: i <= k < e ==> cls(s[k]))
            && (e < |s| ==> !cls(s[e]))
    decreases |s| - i
  {
    if i < |s| && cls(s[i]) { SpanMeaning(cls, s, i + 1); }
  }

  lemma {:induction false} SpanPrefix(cls: char -> bool, s: Text, i: nat, j: nat, v: Text)
    requires i <= j <= |s| && Span(cls, s, i) <= j
    requires v == [] || !cls(v[0])
    ensures Span(cls, s[..j] + v, i) == Span(cls, s, i)
    decreases j - i
  {
    var t := s[..j] + v;
    if i < j {
      assert t[i] == s[i];
      if cls(s[i]) { SpanPrefix(cls, s, i + 1, j, v); }
    }
  }

  /** A run that is all of one class ends where the class does. */
  lemma {:induction false} SpanAll(cls: char -> bool, s: Text, i: nat, e: nat)
    requires i <= e <= |s| && (forall k :: i <= k < e ==> cls(s[k])) && (e < |s| ==> !cls(s[e]))
    ensures Span(cls, s, i) == e
    decreases e - i
  {
    if i < e { SpanAll(cls, s, i + 1, e); }
  }

  /** `strpbrk` and `strchr`: the first character of `cls` at or behind `from`. */
  function FirstOf(cls: char -> bool, s: Text, from: nat): (r: int)
    ensures r == NONE || (from <= r < |s| && cls(s[r]))
    ensures forall i :: from <= i < |s| && (r == NONE || i < r) ==> !cls(s[i])
    decreases |s| - from
  {
    if from >= |s| then NONE else if cls(s[from]) then from else FirstOf(cls, s, from + 1)
  }

  /** Looking from further on finds the same place, as long as nothing is passed. */
  lemma FirstOfFrom(cls: char -> bool, s: Text, i: nat, j: nat)
    requires i <= j && forall k :: i <= k < j && k < |s| ==> !cls(s[k])
    ensures FirstOf(cls, s, i) == FirstOf(cls, s, j)
  {
    hide FirstOf;
  }

  /** The texts agree from `i` on. */
  predicate SameFrom(s: Text, t: Text, i: nat) {
    |s| == |t| && forall k :: i <= k < |s| ==> s[k] == t[k]
  }

  lemma FirstOfSame(cls: char -> bool, s: Text, t: Text, i: nat)
    requires SameFrom(s, t, i)
    ensures FirstOf(cls, s, i) == FirstOf(cls, t, i)
  {
    hide FirstOf;
  }
}
