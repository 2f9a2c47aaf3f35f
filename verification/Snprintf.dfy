/** What the printf engine of the compiler cache prints (CCache/snprintf.c): fields, numerals, and the reading of a
    format.  Printer.dfy has the engine itself.

    Left aside are %n, %w and the floating-point conversions, for which `Default` gives no text; `long` has 64 bits;
    a missing or mistyped argument reads as zero or as a null string.
 */
module Snprintf {
  import opened Scan
  import opened Wrappers

  datatype Arg = Int(v: int) | Str(s: Option<Text>)

  datatype Flags = Flags(minus: bool, plus: bool, space: bool, num: bool, zero: bool)

  datatype Length = NoLength | Short | Long | LDouble | LLong

  const NO_FLAGS := Flags(false, false, false, false, false)

  function Max(a: int, b: int): int { if a >= b then a else b }

  function Fill(c: char, n: int): (t: Text)
    ensures |t| == Max(n, 0) && forall i :: 0 <= i < |t| ==> t[i] == c
  {
    seq(if n > 0 then n else 0, _ => c)
  }

  // ----- numerals

  function Power(base: nat, k: nat): nat {
    if k == 0 then 1 else base * Power(base, k - 1)
  }

  function DigitChar(v: nat, up: bool): char
    requires v < 16
  {
    (if up then "0123456789ABCDEF" else "0123456789abcdef")[v]
  }

  function DigitValue(c: char): (v: nat) {
    if '0' <= c <= '9' then (c - '0') as int
    else if 'a' <= c <= 'f' then (c - 'a') as int + 10
    else if 'A' <= c <= 'F' then (c - 'A') as int + 10
    else 0
  }

  /** Positional notation, the leading digit first. */
  function Numeral(u: nat, base: nat, up: bool): (t: Text)
    requires 2 <= base <= 16
    ensures |t| > 0
    decreases u
  {
    if u < base then [DigitChar(u, up)]
    else
      Shrinks(u, base);
      Numeral(u / base, base, up) + [DigitChar(u % base, up)]
  }

  lemma Shrinks(u: nat, base: nat)
    requires 2 <= base <= 16
    ensures u / base <= u && (u > 0 ==> u / base < u)
  {
  }

  function Decode(t: Text, base: nat): nat {
    if t == [] then 0 else Decode(t[..|t| - 1], base) * base + DigitValue(t[|t| - 1])
  }

  lemma DigitRoundTrip(v: nat, up: bool)
    requires v < 16
    ensures DigitValue(DigitChar(v, up)) == v
  {
    var digits := if up then "0123456789ABCDEF" else "0123456789abcdef";
    if v < 10 {
      assert digits[v] == "0123456789"[v];
    }
  }

  lemma DecodeSnoc(t: Text, c: char, base: nat)
    ensures Decode(t + [c], base) == Decode(t, base) * base + DigitValue(c)
  {
    hide DigitValue;
    assert (t + [c])[..|t|] == t;
  }

  lemma DivMod(u: nat, base: nat)
    requires base > 0
    ensures u / base * base + u % base == u
  {
  }

  lemma {:induction false} NumeralDecodes(u: nat, base: nat, up: bool)
    requires 2 <= base <= 16
    ensures Decode(Numeral(u, base, up), base) == u
    decreases u
  {
    hide DigitChar, DigitValue, Decode;
    if u < base {
      DigitRoundTrip(u, up);
      DecodeSnoc([], DigitChar(u, up), base);
      DecodeNone(base);
      assert [] + [DigitChar(u, up)] == [DigitChar(u, up)];
    } else {
      Shrinks(u, base);
      NumeralDecodes(u / base, base, up);
      DigitRoundTrip(u % base, up);
      DecodeSnoc(Numeral(u / base, base, up), DigitChar(u % base, up), base);
      DivMod(u, base);
    }
  }

  lemma DecodeNone(base: nat)
    ensures Decode([], base) == 0
  {
  }

  /** All digits are below the base. */
  ghost predicate Below(t: Text, base: nat) {
    forall i :: 0 <= i < |t| ==> DigitValue(t[i]) < base
  }

  lemma {:induction false} DecodeBound(t: Text, base: nat)
    requires base > 0 && Below(t, base)
    ensures Decode(t, base) < Power(base, |t|)
  {
    hide DigitValue;
    if t != [] {
      var n := |t| - 1;
      DecodeBound(t[..n], base);
      Carry(Decode(t[..n], base), Power(base, n), DigitValue(t[n]), base);
    }
  }

  lemma Carry(d: nat, p: nat, v: nat, base: nat)
    requires d < p && v < base
    ensures d * base + v < base * p
  {
    assert (d + 1) * base <= p * base;
  }

  lemma BelowSnoc(t: Text, d: char, base: nat)
    requires Below(t, base) && DigitValue(d) < base
    ensures Below(t + [d], base)
  {
    hide DigitValue;
  }

  lemma {:induction false} NumeralDigits(u: nat, base: nat, up: bool)
    requires 2 <= base <= 16
    ensures Below(Numeral(u, base, up), base)
    decreases u
  {
    hide DigitChar, DigitValue;
    if u < base {
      DigitRoundTrip(u, up);
    } else {
      hide Below;
      Shrinks(u, base);
      NumeralDigits(u / base, base, up);
      DigitRoundTrip(u % base, up);
      BelowSnoc(Numeral(u / base, base, up), DigitChar(u % base, up), base);
    }
  }

  lemma DivLess(u: nat, base: nat, p: nat)
    requires base > 0
    ensures u / base < p <==> u < base * p
  {
    DivMod(u, base);
    if u / base < p {
      assert (u / base + 1) * base <= p * base;
    } else {
      assert u / base * base >= p * base;
    }
  }

  lemma {:induction false} NumeralLength(u: nat, base: nat, up: bool, k: nat)
    requires 2 <= base <= 16 && k > 0
    ensures |Numeral(u, base, up)| <= k <==> u < Power(base, k)
    decreases k
  {
    hide DigitChar;
    DivLess(u, base, Power(base, k - 1));
    if u < base {
      assert Power(base, k - 1) > 0 by { PowerPositive(base, k - 1); }
      assert u / base == 0;
    } else if k > 1 {
      NumeralLength(u / base, base, up, k - 1);
    }
  }

  lemma {:induction false} PowerPositive(base: nat, k: nat)
    requires base > 0
    ensures Power(base, k) > 0
  {
    if k > 0 { PowerPositive(base, k - 1); }
  }

  /** The most digits the engine's digit buffer lets through. */
  const PLACES: nat := 19

  /** The digits printed for a magnitude: the last nineteen of them. */
  function Shown(u: nat, base: nat, up: bool): (t: Text)
    requires 2 <= base <= 16
    ensures 0 < |t| <= PLACES
  {
    var t := Numeral(u, base, up);
    if |t| <= PLACES then t else t[|t| - PLACES..]
  }

  /** The printed digits are the magnitude exactly when it has at most nineteen digits; a twentieth is lost. */
  lemma ShownExactly(u: nat, base: nat, up: bool)
    requires 2 <= base <= 16
    ensures Decode(Shown(u, base, up), base) == u <==> u < Power(base, PLACES)
    ensures u < Power(base, PLACES) <==> |Numeral(u, base, up)| <= PLACES
  {
    hide Numeral, Decode, DigitValue, Power;
    var t := Numeral(u, base, up);
    NumeralLength(u, base, up, PLACES);
    NumeralDecodes(u, base, up);
    if |t| > PLACES {
      NumeralDigits(u, base, up);
      DecodeBound(t[|t| - PLACES..], base);
    }
  }

  // ----- integer fields

  const TWO64: nat := 0x1_0000_0000_0000_0000

  /** `uvalue`, as an unsigned long. */
  function Magnitude(value: int, unsigned: bool): nat {
    (if !unsigned && value < 0 then -value else value) % TWO64
  }

  function Sign(value: int, fl: Flags, unsigned: bool): (t: Text)
    ensures |t| <= 1
  {
    if unsigned then "" else if value < 0 then "-" else if fl.plus then "+" else if fl.space then " " else ""
  }

  /** Spaces and zeros in front of `digits`, as fmtint works them out: with the zero flag the spaces become zeros, of
      which the larger amount is taken. */
  function Spaces(min: int, max: int, digits: nat, sign: nat): (n: nat) {
    Max(min - Max(max, digits) - sign, 0)
  }

  function FieldInt(value: int, base: nat, min: int, max: int, fl: Flags, up: bool, unsigned: bool): Text
    requires 2 <= base <= 16
  {
    var sign := Sign(value, fl, unsigned);
    var digits := Shown(Magnitude(value, unsigned), base, up);
    var spaces := Spaces(min, Max(max, 0), |digits|, |sign|);
    var zeros := Max(max - |digits|, 0);
    if fl.zero then sign + Fill('0', Max(zeros, spaces)) + digits
    else if fl.minus then sign + Fill('0', zeros) + digits + Fill(' ', spaces)
    else Fill(' ', spaces) + sign + Fill('0', zeros) + digits
  }

  /** The length of an integer field, and when it is the one ISO C asks for: the zero flag together with a precision
      that pads makes the field too short as soon as the width asks for anything more. */
  lemma FieldIntLength(value: int, base: nat, min: int, max: int, fl: Flags, up: bool, unsigned: bool)
    requires 2 <= base <= 16
    ensures var n := |FieldInt(value, base, min, max, fl, up, unsigned)|;
            var digits := |Shown(Magnitude(value, unsigned), base, up)|;
            var sign := |Sign(value, fl, unsigned)|;
            n == Max(min, sign + Max(max, digits)) <==> !fl.zero || max <= digits || min <= sign + max
  {
    hide Shown, Sign, Magnitude;
  }

  /** Where the padding goes: the field is blanks, sign, zeros, digits, blanks, with blanks on one side at most, and the
      minus flag puts them last; the zero flag leaves none. */
  lemma FieldIntLayout(value: int, base: nat, min: int, max: int, fl: Flags, up: bool, unsigned: bool)
    requires 2 <= base <= 16
    ensures var digits := Shown(Magnitude(value, unsigned), base, up);
            exists l: nat, z: nat, r: nat ::
              && FieldInt(value, base, min, max, fl, up, unsigned)
                   == Fill(' ', l) + Sign(value, fl, unsigned) + Fill('0', z) + digits + Fill(' ', r)
              && (l == 0 || r == 0) && (fl.zero ==> l == r == 0) && (fl.minus ==> l == 0) && (!fl.minus ==> r == 0)
              && z >= max - |digits|
  {
    hide Shown, Sign, Magnitude;
    var digits := Shown(Magnitude(value, unsigned), base, up);
    var sign := Sign(value, fl, unsigned);
    var spaces := Spaces(min, Max(max, 0), |digits|, |sign|);
    var zeros := Max(max - |digits|, 0);
    var z: nat := if fl.zero then Max(zeros, spaces) else zeros;
    var l: nat := if fl.zero || fl.minus then 0 else spaces;
    var r: nat := if fl.zero || !fl.minus then 0 else spaces;
    assert FieldInt(value, base, min, max, fl, up, unsigned) == Fill(' ', l) + sign + Fill('0', z) + digits + Fill(' ', r);
  }

  // ----- string fields

  function Take(t: Text, n: int): Text {
    if n < 0 then [] else if n < |t| then t[..n] else t
  }

  /** fmtstr: the padded value, cut off after `max` characters. */
  function FieldStr(value: Text, fl: Flags, min: int, max: int): Text {
    var blanks := Fill(' ', min - |value|);
    Take(if fl.minus then value + blanks else blanks + value, max)
  }

  /** The precision as the 's' conversion prepares it: -1 is none; one below the width is raised to it. */
  function StrMax(value: Text, min: int, max: int): int {
    var m := if max == -1 then |value| else max;
    if min > 0 && m >= 0 && min > m then min else m
  }

  /** %s of ISO C: the first `max` characters, padded to `min`; a negative precision is none. */
  function IsoStr(value: Text, fl: Flags, min: int, max: int): Text {
    var t := if max < 0 then value else Take(value, max);
    var blanks := Fill(' ', min - |t|);
    if fl.minus then t + blanks else blanks + t
  }

  ghost predicate Blank(value: Text, i: int, j: int) {
    forall k :: i <= k < j && 0 <= k < |value| ==> value[k] == ' '
  }

  /** When the 's' conversion prints what ISO C's does: the precision is absent, or cuts nothing off, or is no smaller
      than the width -- or the field is filled with blanks of the value where ISO C pads. */
  ghost predicate AsIso(value: Text, fl: Flags, min: int, max: int) {
    || max == -1
    || (max < -1 && value == [] && min <= 0)
    || (max >= 0 && (|value| <= max || min <= max || Blank(value, if fl.minus then max else 0, min)))
  }

  lemma StrIsIso(value: Text, fl: Flags, min: int, max: int)
    ensures FieldStr(value, fl, min, StrMax(value, min, max)) == IsoStr(value, fl, min, max) <==> AsIso(value, fl, min, max)
  {
    if max < -1 {
      assert FieldStr(value, fl, min, StrMax(value, min, max)) == [];
    } else if max == -1 || |value| <= max || min <= max {
      assert FieldStr(value, fl, min, StrMax(value, min, max)) == IsoStr(value, fl, min, max);
    } else if fl.minus {
      CutLeft(value, fl, min, max);
    } else {
      CutRight(value, fl, min, max);
    }
  }

  /** A precision below the width, padding behind the value. */
  lemma CutLeft(value: Text, fl: Flags, min: int, max: int)
    requires fl.minus && 0 <= max < |value| && max < min
    ensures FieldStr(value, fl, min, min) == IsoStr(value, fl, min, max) <==> Blank(value, max, min)
  {
    var own, iso := FieldStr(value, fl, min, min), IsoStr(value, fl, min, max);
    assert |own| == min == |iso|;
    assert forall k :: 0 <= k < max ==> own[k] == iso[k];
    assert forall k :: max <= k < min ==> iso[k] == ' ';
    assert forall k :: max <= k < min ==> own[k] == if k < |value| then value[k] else ' ';
    if own == iso {
      forall k | max <= k < min && 0 <= k < |value| ensures value[k] == ' ' { assert own[k] == iso[k]; }
    }
  }

  /** A precision below the width, padding in front of the value. */
  lemma CutRight(value: Text, fl: Flags, min: int, max: int)
    requires !fl.minus && 0 <= max < |value| && max < min
    ensures FieldStr(value, fl, min, min) == IsoStr(value, fl, min, max) <==> Blank(value, 0, min)
  {
    var own, iso := FieldStr(value, fl, min, min), IsoStr(value, fl, min, max);
    var p, d := Max(min - |value|, 0), min - max;
    assert |own| == min == |iso|;
    assert forall k :: 0 <= k < min ==> own[k] == if k < p then ' ' else value[k - p];
    assert forall k :: 0 <= k < min ==> iso[k] == if k < d then ' ' else value[k - d];
    if own == iso {
      forall k | 0 <= k < min - p ensures value[k] == ' ' { ShiftedBlank(value, own, p, d, k); }
    }
  }

  /** A value equal to itself shifted behind blanks is blank. */
  lemma {:induction false} ShiftedBlank(value: Text, own: Text, p: nat, d: nat, k: nat)
    requires p < d && k + p < |own| && |own| <= p + |value|
    requires forall i :: p <= i < |own| ==> own[i] == value[i - p]
    requires forall i :: 0 <= i < |own| ==> own[i] == if i < d then ' ' else value[i - d]
    ensures value[k] == ' '
    decreases k
  {
    assert own[k + p] == value[k];
    if k + p >= d { ShiftedBlank(value, own, p, d, k + p - d); }
  }

  /** A directive agrees with ISO C on every value exactly when its precision is absent, or no smaller than its width. */
  lemma StrIsIsoAlways(fl: Flags, min: int, max: int)
    ensures (forall value :: FieldStr(value, fl, min, StrMax(value, min, max)) == IsoStr(value, fl, min, max)) <==>
              max == -1 || (0 <= max && min <= max)
  {
    hide FieldStr, IsoStr, StrMax;
    forall value
      ensures FieldStr(value, fl, min, StrMax(value, min, max)) == IsoStr(value, fl, min, max) <==> AsIso(value, fl, min, max)
    {
      StrIsIso(value, fl, min, max);
    }
    var long: Text := seq(if max < 0 then 1 else max + 1, _ => 'x');
    assert long != [] && long[|long| - 1] == 'x';
    assert AsIso(long, fl, min, max) <==> max == -1 || (0 <= max && min <= max);
  }
}
