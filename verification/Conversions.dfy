/** What a directive prints (CCache/snprintf.c:247-397, 433-515), told by the characters of the format and of the text:
    the digits of a field, its sign and its padding, for every integer conversion, and the other conversions.
 */
module Conversions {
  import opened Ascii
  import opened Scan
  import opened Wrappers
  import opened Snprintf
  import opened Format

  const OCTAL := "01234567"
  const DECIMAL := "0123456789"
  const LOWER := "0123456789abcdef"
  const UPPER := "0123456789ABCDEF"

  // ----- digits

  /** `t` is the number `u` in positional notation, with the given digits. */
  ghost predicate Spells(t: Text, u: nat, digits: string)
    requires |digits| >= 2
    decreases u
  {
    && t != []
    && t[|t| - 1] == digits[u % |digits|]
    && if u < |digits| then |t| == 1 else (Smaller(u, |digits|); Spells(t[..|t| - 1], u / |digits|, digits))
  }

  lemma Smaller(u: nat, base: nat)
    requires base >= 2 && u >= base
    ensures u / base < u
  {
    DivMod(u, base);
    Twice(u / base, base);
  }

  lemma Twice(q: nat, base: nat)
    requires base >= 2
    ensures q * base >= 2 * q
  {
  }

  ghost predicate AreDigits(digits: string, up: bool) {
    2 <= |digits| <= 16 && forall v :: 0 <= v < |digits| ==> DigitChar(v, up) == digits[v]
  }

  lemma {:induction false} NumeralSpells(u: nat, up: bool, digits: string)
    requires AreDigits(digits, up)
    ensures Spells(Numeral(u, |digits|, up), u, digits)
    decreases u
  {
    hide DigitChar;
    var base := |digits|;
    if u >= base {
      Shrinks(u, base);
      NumeralSpells(u / base, up, digits);
      var t := Numeral(u / base, base, up);
      assert (t + [DigitChar(u % base, up)])[..|t|] == t;
    }
  }

  lemma DigitLists()
    ensures AreDigits(OCTAL, false) && AreDigits(DECIMAL, false) && AreDigits(LOWER, false) && AreDigits(UPPER, true)
  {
  }

  /** The digits printed for `u`: all of them, if there are no more than nineteen, else the last nineteen. */
  ghost predicate Prints(t: Text, u: nat, digits: string)
    requires |digits| >= 2
  {
    exists all :: Spells(all, u, digits) && t == if |all| <= 19 then all else all[|all| - 19..]
  }

  lemma ShownPrints(u: nat, up: bool, digits: string)
    requires AreDigits(digits, up)
    ensures Prints(Shown(u, |digits|, up), u, digits)
    ensures u < Power(|digits|, 19) ==> Spells(Shown(u, |digits|, up), u, digits)
  {
    hide Numeral, Spells, AreDigits, Power;
    TwoAtLeast(digits, up);
    NumeralSpells(u, up, digits);
    ShownExactly(u, |digits|, up);
  }

  /** Only the numeral spells the number. */
  lemma {:induction false} SpelledIsNumeral(t: Text, u: nat, up: bool, digits: string)
    requires AreDigits(digits, up) && Spells(t, u, digits)
    ensures t == Numeral(u, |digits|, up)
    decreases u
  {
    hide DigitChar, Numeral;
    var base := |digits|;
    NumeralStep(u, base, up);
    if u >= base {
      Smaller(u, base);
      SpelledIsNumeral(t[..|t| - 1], u / base, up, digits);
      assert t == t[..|t| - 1] + [t[|t| - 1]];
    }
  }

  lemma NumeralStep(u: nat, base: nat, up: bool)
    requires 2 <= base <= 16
    ensures u < base ==> u % base == u && Numeral(u, base, up) == [DigitChar(u, up)]
    ensures u >= base ==> Numeral(u, base, up) == Numeral(u / base, base, up) + [DigitChar(u % base, up)]
  {
    hide DigitChar;
  }

  /** Below the nineteenth power of the base, every digit is printed. */
  lemma PrintedInFull(t: Text, u: nat, up: bool, digits: string)
    requires AreDigits(digits, up) && Prints(t, u, digits) && u < Power(|digits|, 19)
    ensures Spells(t, u, digits) && Decode(t, |digits|) == u
  {
    hide Numeral, Spells, AreDigits, Power, Decode;
    TwoAtLeast(digits, up);
    var all :| Spells(all, u, digits) && t == if |all| <= 19 then all else all[|all| - 19..];
    SpelledIsNumeral(all, u, up, digits);
    NumeralLength(u, |digits|, up, 19);
    NumeralDecodes(u, |digits|, up);
  }

  lemma Powers()
    ensures Power(8, 19) == 0x200_0000_0000_0000
    ensures Power(10, 19) == 10_000_000_000_000_000_000
    ensures Power(16, 19) > 0x1_0000_0000_0000_0000
  {
    PowersTo10();
    PowerSum(8, 9, 10);
    PowerSum(10, 9, 10);
    PowerSum(16, 9, 10);
  }

  lemma PowersTo10()
    ensures Power(8, 9) == 134217728 && Power(8, 10) == 1073741824
    ensures Power(10, 9) == 1000000000 && Power(10, 10) == 10000000000
    ensures Power(16, 9) == 68719476736 && Power(16, 10) == 1099511627776
  {
    assert Power(8, 5) == 32768 && Power(10, 5) == 100000 && Power(16, 5) == 1048576;
  }

  lemma {:induction false} PowerSum(base: nat, j: nat, k: nat)
    ensures Power(base, j + k) == Power(base, j) * Power(base, k)
    decreases j
  {
    if j > 0 {
      PowerSum(base, j - 1, k);
      assert base * (Power(base, j - 1) * Power(base, k)) == base * Power(base, j - 1) * Power(base, k);
    }
  }

  lemma TwoAtLeast(digits: string, up: bool)
    requires AreDigits(digits, up)
    ensures 2 <= |digits| <= 16
  {
  }

  // ----- integer fields

  /** Blanks, sign, zeros, digits, blanks.  The flag `0` lets the zeros fill the width, and there are no blanks; the flag
      `-` puts the blanks last. */
  ghost predicate Laid(t: Text, l: nat, sign: Text, z: nat, ds: Text, r: nat, width: int, prec: int,
                       zero: bool, minus: bool)
  {
    && t == Fill(' ', l) + sign + Fill('0', z) + ds + Fill(' ', r)
    && (!zero ==> |t| == Max(width, |sign| + Max(prec, |ds|)) && z == Max(prec - |ds|, 0))
    && (!zero ==> if minus then l == 0 else r == 0)
    && (zero ==> l == 0 && r == 0 && if prec <= |ds| then |t| == Max(width, |sign| + |ds|)
                                     else z == Max(prec - |ds|, width - |sign| - prec))
  }

  ghost predicate IsField(t: Text, sign: Text, u: nat, digits: string, width: int, prec: int, flags: Text)
    requires |digits| >= 2
  {
    exists l: nat, z: nat, r: nat, ds: Text ::
      Prints(ds, u, digits) && Laid(t, l, sign, z, ds, r, width, prec, '0' in flags, '-' in flags)
  }

  lemma FieldLaid(sign: Text, ds: Text, width: int, prec: int, zero: bool, minus: bool) returns (l: nat, z: nat, r: nat)
    requires ds != []
    ensures var spaces, zeros := Spaces(width, Max(prec, 0), |ds|, |sign|), Max(prec - |ds|, 0);
            var t := if zero then sign + Fill('0', Max(zeros, spaces)) + ds
                     else if minus then sign + Fill('0', zeros) + ds + Fill(' ', spaces)
                     else Fill(' ', spaces) + sign + Fill('0', zeros) + ds;
            Laid(t, l, sign, z, ds, r, width, prec, zero, minus)
  {
    var spaces, zeros := Spaces(width, Max(prec, 0), |ds|, |sign|), Max(prec - |ds|, 0);
    z := if zero then Max(zeros, spaces) else zeros;
    l := if zero || minus then 0 else spaces;
    r := if zero || !minus then 0 else spaces;
    assert Fill(' ', 0) == [];
    assert [] + sign == sign;
  }

  lemma FieldIsField(value: int, min: int, max: int, fl: Flags, up: bool, unsigned: bool, sign: Text, flags: Text,
                     digits: string)
    requires AreDigits(digits, up) && sign == Sign(value, fl, unsigned)
    requires (fl.zero <==> '0' in flags) && (fl.minus <==> '-' in flags)
    ensures |digits| >= 2
    ensures IsField(FieldInt(value, |digits|, min, max, fl, up, unsigned), sign, Magnitude(value, unsigned), digits,
                    min, max, flags)
  {
    hide Shown, Sign, Magnitude, AreDigits, Prints, Laid, Spaces;
    TwoAtLeast(digits, up);
    var ds := Shown(Magnitude(value, unsigned), |digits|, up);
    ShownPrints(Magnitude(value, unsigned), up, digits);
    var l, z, r := FieldLaid(sign, ds, min, max, fl.zero, fl.minus);
  }

  // ----- directives

  /** A directive as the manual has it: flags; a width that does not begin with a zero; a precision after a dot; and a
      conversion that is no character of an earlier part. */
  ghost predicate WellFormed(d: Directive) {
    && (forall i :: 0 <= i < |d.flags| ==> d.flags[i] in "-+ #0")
    && (d.width.Digits? ==> d.width.t != [] && d.width.t[0] != '0')
    && (d.width.Digits? ==> forall i :: 0 <= i < |d.width.t| ==> d.width.t[i] in DIGITS)
    && (d.prec.Digits? ==> d.prec.t != [] && forall i :: 0 <= i < |d.prec.t| ==> d.prec.t[i] in DIGITS)
    && (!d.dot ==> d.prec == Absent)
    && d.conv !in "-+ #0" && d.conv !in DIGITS && d.conv !in "*.hlL"
  }

  lemma WellFormedIsLegal(d: Directive)
    requires WellFormed(d)
    ensures Legal(d)
  {
    hide DIGITS;
    forall c ensures Digit(c) <==> c in DIGITS { Ascii.Digits(c); }
  }

  /** What a directive is given: its width, its precision, and the arguments left for its conversion. */
  ghost function Width(d: Directive, args: Args): int { NumberValue(d.width, 0, args) }
  ghost function Precision(d: Directive, args: Args): int { NumberValue(d.prec, -1, NumberRest(d.width, args)) }
  ghost function Left(d: Directive, args: Args): Args { NumberRest(d.prec, NumberRest(d.width, args)) }

  /** The text `t` is printed for the directive, and the rest of the format follows with the arguments `rest`. */
  ghost predicate Becomes(d: Directive, s: Text, args: Args, t: Text, rest: Args) {
    Default("%" + (Written(d) + s), args) == Prepend(t, Default(s, rest))
  }

  lemma DirectiveBecomes(d: Directive, s: Text, args: Args)
    requires WellFormed(d)
    ensures var fl := FlagsOf(d.flags, NO_FLAGS);
            var r := Convert(d.conv, fl, Width(d, args), Precision(d, args), d.length, Left(d, args));
            if r.Some? then Becomes(d, s, args, r.value.0, r.value.1) else Default("%" + (Written(d) + s), args) == None
    ensures var fl := FlagsOf(d.flags, NO_FLAGS);
            && (fl.zero <==> '0' in d.flags) && (fl.minus <==> '-' in d.flags)
            && (fl.plus <==> '+' in d.flags) && (fl.space <==> ' ' in d.flags)
  {
    hide Default, Convert, Written, FlagsOf, WellFormed;
    WellFormedIsLegal(d);
    DirectiveMeaning(d, s, args);
    LegalFlags(d);
    FlagsMean(d.flags, NO_FLAGS);
  }

  lemma LegalFlags(d: Directive)
    requires Legal(d)
    ensures forall i :: 0 <= i < |d.flags| ==> IsFlag(d.flags[i])
  {
  }

  predicate Wide(m: Length) { m == Long || m == LLong }

  /** `%d` and `%i` of an int, and with `l` or `ll` of a long: a minus sign exactly for a negative value, else what the
      flags `+` and blank ask for; then the decimal digits of the magnitude. */
  lemma SignedConversion(d: Directive, s: Text, args: Args, v: int) returns (t: Text)
    requires WellFormed(d) && (d.conv == 'd' || d.conv == 'i')
    requires Left(d, args) != [] && Left(d, args)[0] == Int(v)
    requires if Wide(d.length) then -0x8000_0000_0000_0000 <= v < 0x8000_0000_0000_0000 else -0x8000_0000 <= v < 0x8000_0000
    ensures Becomes(d, s, args, t, Left(d, args)[1..])
    ensures var sign := if v < 0 then "-" else if '+' in d.flags then "+" else if ' ' in d.flags then " " else "";
            IsField(t, sign, if v < 0 then -v else v, DECIMAL, Width(d, args), Precision(d, args), d.flags)
  {
    hide FieldInt, Becomes, WellFormed, FlagsOf, Written, Left, Width, Precision, IsField, AreDigits;
    var fl := FlagsOf(d.flags, NO_FLAGS);
    DirectiveBecomes(d, s, args);
    SignedValue(v, d.length);
    t := FieldInt(v, 10, Width(d, args), Precision(d, args), fl, false, false);
    DigitLists();
    FieldIsField(v, Width(d, args), Precision(d, args), fl, false, false, Sign(v, fl, false), d.flags, DECIMAL);
  }

  lemma SignedValue(v: int, m: Length)
    requires if Wide(m) then -0x8000_0000_0000_0000 <= v < 0x8000_0000_0000_0000 else -0x8000_0000 <= v < 0x8000_0000
    ensures SignedArg(v, m) == v && Magnitude(v, false) == if v < 0 then -v else v
  {
  }

  /** The digits of an unsigned conversion. */
  ghost function DigitsOf(conv: char): string
    ensures |DigitsOf(conv)| >= 2
  {
    if conv == 'o' then "01234567" else if conv == 'u' then "0123456789" else if conv == 'X' then "0123456789ABCDEF"
    else "0123456789abcdef"
  }

  /** `%o`, `%u`, `%x` and `%X`: no sign; the digits of the value modulo 2^32, or modulo 2^64 with `l` or `ll`. */
  lemma UnsignedConversion(d: Directive, s: Text, args: Args, v: int) returns (t: Text)
    requires WellFormed(d) && d.conv in "ouxX"
    requires Left(d, args) != [] && Left(d, args)[0] == Int(v)
    ensures Becomes(d, s, args, t, Left(d, args)[1..])
    ensures IsField(t, "", if Wide(d.length) then v % 0x1_0000_0000_0000_0000 else v % 0x1_0000_0000, DigitsOf(d.conv),
                    Width(d, args), Precision(d, args), d.flags)
  {
    hide FieldInt, Becomes, WellFormed, FlagsOf, Written, Left, Width, Precision, IsField, AreDigits;
    var fl := FlagsOf(d.flags, NO_FLAGS);
    DirectiveBecomes(d, s, args);
    UnsignedValue(v, d.length);
    var value, digits := UnsignedArg(v, d.length), DigitsOf(d.conv);
    t := FieldInt(value, |digits|, Width(d, args), Precision(d, args), fl, d.conv == 'X', true);
    DigitLists();
    FieldIsField(value, Width(d, args), Precision(d, args), fl, d.conv == 'X', true, "", d.flags, digits);
  }

  lemma UnsignedValue(v: int, m: Length)
    ensures Magnitude(UnsignedArg(v, m), true) == if Wide(m) then v % 0x1_0000_0000_0000_0000 else v % 0x1_0000_0000
  {
  }

  // ----- formats

  /** The directives that are a percent sign, at most a length, and a conversion. */
  ghost function Bare(m: Length, conv: char): Directive {
    Directive([], Absent, false, Absent, m, conv)
  }

  lemma BareText(m: Length, conv: char, s: Text, args: Args)
    requires m == NoLength || m == Long
    ensures var d := Bare(m, conv);
            && "%" + (Written(d) + s) == (if m == Long then "%l" else "%") + [conv] + s
            && Width(d, args) == 0 && Precision(d, args) == -1 && Left(d, args) == args
  {
    var d := Bare(m, conv);
    assert Written(d) == (if m == Long then "l" else "") + [conv];
  }

  lemma BareField(t: Text, sign: Text, u: nat, digits: string) returns (ds: Text)
    requires |digits| >= 2 && IsField(t, sign, u, digits, 0, -1, [])
    ensures Prints(ds, u, digits) && t == sign + ds
  {
    hide Prints;
    var l: nat, z: nat, r: nat, ds' :| Prints(ds', u, digits) && Laid(t, l, sign, z, ds', r, 0, -1, false, false);
    ds := ds';
    assert l == z == r == 0;
    assert t == [] + sign + [] + ds + [];
  }

  /** "%d" and "%i" of every int and "%ld" of every long: a minus sign exactly for a negative value, and the decimal
      digits of the magnitude. */
  lemma PercentD(f: Text, v: int, s: Text, args: Args) returns (ds: Text)
    requires if f == "%ld" then -0x8000_0000_0000_0000 <= v < 0x8000_0000_0000_0000
             else (f == "%d" || f == "%i") && -0x8000_0000 <= v < 0x8000_0000
    ensures Default(f + s, [Int(v)] + args) == Prepend((if v < 0 then "-" else "") + ds, Default(s, args))
    ensures Spells(ds, if v < 0 then -v else v, "0123456789") && Decode(ds, 10) == if v < 0 then -v else v
  {
    hide Default, IsField, Written, Width, Precision, Left, Prints, Decode, AreDigits, Power, Spells;
    var m, conv := if f == "%ld" then Long else NoLength, if f == "%i" then 'i' else 'd';
    var all := [Int(v)] + args;
    assert all[1..] == args;
    var d, u: nat, sign := Bare(m, conv), if v < 0 then -v else v, if v < 0 then "-" else "";
    BareText(m, conv, s, all);
    assert (if m == Long then "%l" else "%") + [conv] == f;
    var t := SignedConversion(d, s, all, v);
    ds := BareField(t, sign, u, DECIMAL);
    DigitLists();
    Powers();
    PrintedInFull(ds, u, false, DECIMAL);
  }

  /** "%o", "%u", "%x" and "%X", also with `l`: the digits, in the base and the case asked for, of the value modulo 2^32,
      with `l` modulo 2^64 -- the last nineteen of them, which is all of them below 2^57 in base eight, below 10^19 in
      base ten, and always in base sixteen. */
  lemma PercentX(f: Text, conv: char, v: int, s: Text, args: Args) returns (ds: Text)
    requires conv in "ouxX" && (f == ['%', conv] || f == ['%', 'l', conv])
    ensures Default(f + s, [Int(v)] + args) == Prepend(ds, Default(s, args))
    ensures var u := if |f| == 3 then v % 0x1_0000_0000_0000_0000 else v % 0x1_0000_0000;
            && Prints(ds, u, DigitsOf(conv))
            && ((conv == 'o' ==> u < 0x200_0000_0000_0000) && (conv == 'u' ==> u < 10_000_000_000_000_000_000) ==>
                  Spells(ds, u, DigitsOf(conv)) && Decode(ds, |DigitsOf(conv)|) == u)
  {
    hide Default, IsField, Written, Width, Precision, Left, Prints, Decode, AreDigits, Power, Spells;
    var m := if |f| == 3 then Long else NoLength;
    var all := [Int(v)] + args;
    assert all[1..] == args;
    var u := if |f| == 3 then v % 0x1_0000_0000_0000_0000 else v % 0x1_0000_0000;
    BareText(m, conv, s, all);
    assert (if m == Long then "%l" else "%") + [conv] == f;
    var t := UnsignedConversion(Bare(m, conv), s, all, v);
    ds := BareField(t, "", u, DigitsOf(conv));
    assert "" + ds == ds;
    DigitLists();
    Powers();
    if (conv == 'o' ==> u < 0x200_0000_0000_0000) && (conv == 'u' ==> u < 10_000_000_000_000_000_000) {
      PrintedInFull(ds, u, conv == 'X', DigitsOf(conv));
    }
  }

  /** "%p": the address as a signed long, in lower-case base sixteen without a prefix. */
  lemma PercentP(v: int, s: Text, args: Args) returns (ds: Text)
    requires 0 <= v < 0x1_0000_0000_0000_0000
    ensures var u := if v < 0x8000_0000_0000_0000 then v else 0x1_0000_0000_0000_0000 - v;
            && Default("%p" + s, [Int(v)] + args) ==
                 Prepend((if v < 0x8000_0000_0000_0000 then "" else "-") + ds, Default(s, args))
            && Spells(ds, u, "0123456789abcdef") && Decode(ds, 16) == u
  {
    hide Default, IsField, Written, Width, Precision, Left, Prints, Decode, AreDigits, Power, Spells, FieldInt, FlagsOf,
         WellFormed;
    var all := [Int(v)] + args;
    assert all[1..] == args;
    var d, u: nat := Bare(NoLength, 'p'), if v < 0x8000_0000_0000_0000 then v else 0x1_0000_0000_0000_0000 - v;
    BareText(NoLength, 'p', s, all);
    assert "%" + ['p'] == "%p";
    BareWellFormed('p');
    DirectiveBecomes(d, s, all);
    var value := Signed(v, TWO64);
    assert Magnitude(value, false) == u;
    var fl := FlagsOf(d.flags, NO_FLAGS);
    var t := FieldInt(value, 16, 0, -1, fl, false, false);
    DigitLists();
    FieldIsField(value, 0, -1, fl, false, false, Sign(value, fl, false), d.flags, LOWER);
    ds := BareField(t, Sign(value, fl, false), u, LOWER);
    Powers();
    PrintedInFull(ds, u, false, LOWER);
  }

  lemma BareWellFormed(conv: char)
    requires conv in "pcs%"
    ensures WellFormed(Bare(NoLength, conv))
  {
  }

  /** `%s`: the string, or "(NULL)" for a null pointer, laid out as ISO C has it wherever the two agree (`StrIsIso`). */
  lemma StringConversion(d: Directive, s: Text, args: Args, v: Option<Text>)
    requires WellFormed(d) && d.conv == 's'
    requires Left(d, args) != [] && Left(d, args)[0] == Str(v)
    ensures var value, fl := if v.Some? then v.value else "(NULL)", FlagsOf(d.flags, NO_FLAGS);
            && (fl.minus <==> '-' in d.flags)
            && (AsIso(value, fl, Width(d, args), Precision(d, args)) ==>
                  Becomes(d, s, args, IsoStr(value, fl, Width(d, args), Precision(d, args)), Left(d, args)[1..]))
  {
    hide FieldStr, StrMax, IsoStr, AsIso, Becomes, WellFormed, FlagsOf, Written, Left, Width, Precision;
    var value, fl := if v.Some? then v.value else "(NULL)", FlagsOf(d.flags, NO_FLAGS);
    DirectiveBecomes(d, s, args);
    StrIsIso(value, fl, Width(d, args), Precision(d, args));
  }

  /** `%c` prints the character, whatever flags and numbers are given; `%%` prints a percent sign and takes no argument;
      a conversion that is none prints nothing and takes no argument. */
  lemma OtherConversion(d: Directive, s: Text, args: Args)
    requires WellFormed(d)
    ensures d.conv == 'c' && Left(d, args) != [] && Left(d, args)[0].Int? ==>
              Becomes(d, s, args, [(Left(d, args)[0].v % 256) as char], Left(d, args)[1..])
    ensures d.conv == '%' ==> Becomes(d, s, args, "%", Left(d, args))
    ensures d.conv !in "diouxXcsp%nwfeEgG" ==> Becomes(d, s, args, [], Left(d, args))
    ensures d.conv in "nwfeEgG" ==> Default("%" + (Written(d) + s), args) == None
  {
    hide FieldInt, FieldStr, StrMax, Becomes, Default, WellFormed, FlagsOf, Written, Left, Width, Precision;
    DirectiveBecomes(d, s, args);
  }

  /** "%c", "%s" and "%%" on their own. */
  lemma PercentC(v: int, t: Text, s: Text, args: Args)
    ensures Default("%c" + s, [Int(v)] + args) == Prepend([(v % 256) as char], Default(s, args))
    ensures Default("%s" + s, [Str(Some(t))] + args) == Prepend(t, Default(s, args))
    ensures Default("%s" + s, [Str(None)] + args) == Prepend("(NULL)", Default(s, args))
    ensures Default("%%" + s, args) == Prepend("%", Default(s, args))
  {
    hide Default, Written, Width, Precision, Left, FlagsOf, WellFormed, IsoStr, AsIso;
    OneBare('c', [Int(v)], s, args);
    OtherConversion(Bare(NoLength, 'c'), s, [Int(v)] + args);
    OneBare('s', [Str(Some(t))], s, args);
    StringConversion(Bare(NoLength, 's'), s, [Str(Some(t))] + args, Some(t));
    Unpadded(t);
    OneBare('s', [Str(None)], s, args);
    StringConversion(Bare(NoLength, 's'), s, [Str(None)] + args, None);
    Unpadded("(NULL)");
    OneBare('%', [], s, args);
    OtherConversion(Bare(NoLength, '%'), s, [] + args);
    assert [] + args == args;
  }

  lemma OneBare(conv: char, one: Args, s: Text, args: Args)
    requires conv in "pcs%" && |one| <= 1
    ensures var d := Bare(NoLength, conv);
            && "%" + (Written(d) + s) == ['%', conv] + s && WellFormed(d) && FlagsOf(d.flags, NO_FLAGS) == NO_FLAGS
            && Width(d, one + args) == 0 && Precision(d, one + args) == -1 && Left(d, one + args) == one + args
            && (one != [] ==> (one + args)[0] == one[0] && (one + args)[1..] == args)
  {
    hide WellFormed;
    BareWellFormed(conv);
    BareText(NoLength, conv, s, one + args);
    assert "%" + [conv] == ['%', conv];
    NoFlags();
  }

  lemma NoFlags()
    ensures FlagsOf([], NO_FLAGS) == NO_FLAGS
  {
  }

  lemma Unpadded(value: Text)
    ensures AsIso(value, NO_FLAGS, 0, -1) && IsoStr(value, NO_FLAGS, 0, -1) == value
  {
    assert Fill(' ', 0 - |value|) + value == value;
  }
}
