/** How the printf engine reads a format (CCache/snprintf.c:141-397): one function per state of `dopr`, giving the text
    still to come.  `Directive` is the grammar those states recognise.
 */
module Format {
  import opened Scan
  import opened Wrappers
  import opened Snprintf

  type Args = seq<Arg>

  /** va_arg(args, int) and its kin; va_arg(args, char *) */
  function IntArg(args: Args): int { if args != [] && args[0].Int? then args[0].v else 0 }
  function StrArg(args: Args): Option<Text> { if args != [] && args[0].Str? then args[0].s else None }
  function Rest(args: Args): Args { if args == [] then [] else args[1..] }

  function Signed(v: int, bits: int): int
    requires bits > 0
  {
    if v % bits < bits / 2 then v % bits else v % bits - bits
  }

  /** The value handed to fmtint: read at the width of the modifier, then cast to long. */
  function SignedArg(v: int, m: Length): int {
    if m == Long || m == LLong then Signed(v, TWO64) else Signed(v, TWO32)
  }

  function UnsignedArg(v: int, m: Length): int {
    if m == Long || m == LLong then Signed(v, TWO64) else v % TWO32
  }

  /** One conversion: its text and the arguments left; None for those that are not modelled. */
  function Convert(c: char, fl: Flags, min: int, max: int, m: Length, args: Args): Option<(Text, Args)> {
    if c == 'd' || c == 'i' then
      Some((FieldInt(SignedArg(IntArg(args), m), 10, min, max, fl, false, false), Rest(args)))
    else if c == 'o' then Some((FieldInt(UnsignedArg(IntArg(args), m), 8, min, max, fl, false, true), Rest(args)))
    else if c == 'u' then Some((FieldInt(UnsignedArg(IntArg(args), m), 10, min, max, fl, false, true), Rest(args)))
    else if c == 'X' then Some((FieldInt(UnsignedArg(IntArg(args), m), 16, min, max, fl, true, true), Rest(args)))
    else if c == 'x' then Some((FieldInt(UnsignedArg(IntArg(args), m), 16, min, max, fl, false, true), Rest(args)))
    else if c == 'p' then Some((FieldInt(Signed(IntArg(args), TWO64), 16, min, max, fl, false, false), Rest(args)))
    else if c == 'c' then Some(([(IntArg(args) % 256) as char], Rest(args)))
    else if c == 's' then
      var value := match StrArg(args) case None => "(NULL)" case Some(s) => s;
      Some((FieldStr(value, fl, min, StrMax(value, min, max)), Rest(args)))
    else if c == '%' then Some(("%", args))
    else if c in "nwfeEgG" then None
    else Some(([], args))
  }

  function Prepend(t: Text, r: Option<Text>): Option<Text> {
    match r case None => None case Some(u) => Some(t + u)
  }

  // ----- the states; a format that ends inside a directive prints nothing more

  function Default(s: Text, args: Args): Option<Text>
    decreases |s|, 0
  {
    if s == [] then Some([])
    else if s[0] == '%' then InFlags(s[1..], args, NO_FLAGS)
    else Prepend([s[0]], Default(s[1..], args))
  }

  predicate IsFlag(c: char) { c in "-+ #0" }

  function SetFlag(fl: Flags, c: char): Flags {
    if c == '-' then fl.(minus := true)
    else if c == '+' then fl.(plus := true)
    else if c == ' ' then fl.(space := true)
    else if c == '#' then fl.(num := true)
    else fl.(zero := true)
  }

  function InFlags(s: Text, args: Args, fl: Flags): Option<Text>
    decreases |s|, 6
  {
    if s == [] then Some([])
    else if IsFlag(s[0]) then InFlags(s[1..], args, SetFlag(fl, s[0]))
    else InMin(s, args, fl, 0)
  }

  function InMin(s: Text, args: Args, fl: Flags, min: int): Option<Text>
    decreases |s|, 5
  {
    if s == [] then Some([])
    else if Digit(s[0]) then InMin(s[1..], args, fl, 10 * min + DigitValue(s[0]))
    else if s[0] == '*' then InDot(s[1..], Rest(args), fl, IntArg(args))
    else InDot(s, args, fl, min)
  }

  function InDot(s: Text, args: Args, fl: Flags, min: int): Option<Text>
    decreases |s|, 4
  {
    if s == [] then Some([])
    else if s[0] == '.' then InMax(s[1..], args, fl, min, -1)
    else InMod(s, args, fl, min, -1)
  }

  function InMax(s: Text, args: Args, fl: Flags, min: int, max: int): Option<Text>
    decreases |s|, 3
  {
    if s == [] then Some([])
    else if Digit(s[0]) then InMax(s[1..], args, fl, min, 10 * Max(max, 0) + DigitValue(s[0]))
    else if s[0] == '*' then InMod(s[1..], Rest(args), fl, min, IntArg(args))
    else InMod(s, args, fl, min, max)
  }

  function InMod(s: Text, args: Args, fl: Flags, min: int, max: int): Option<Text>
    decreases |s|, 2
  {
    if s == [] then Some([])
    else if s[0] == 'h' then InConv(s[1..], args, fl, min, max, Short)
    else if s[0] == 'l' then
      if |s| > 1 && s[1] == 'l' then InConv(s[2..], args, fl, min, max, LLong)
      else InConv(s[1..], args, fl, min, max, Long)
    else if s[0] == 'L' then InConv(s[1..], args, fl, min, max, LDouble)
    else InConv(s, args, fl, min, max, NoLength)
  }

  function InConv(s: Text, args: Args, fl: Flags, min: int, max: int, m: Length): Option<Text>
    decreases |s|, 1
  {
    if s == [] then Some([])
    else
      match Convert(s[0], fl, min, max, m, args)
      case None => None
      case Some(r) => Prepend(r.0, Default(s[1..], r.1))
  }

  // ----- the grammar

  datatype Number = Absent | Digits(t: Text) | Star

  datatype Directive = Directive(flags: Text, width: Number, dot: bool, prec: Number, length: Length, conv: char)

  ghost predicate AllDigits(t: Text) {
    forall i :: 0 <= i < |t| ==> Digit(t[i])
  }

  ghost predicate Proper(n: Number) {
    n.Digits? ==> n.t != [] && AllDigits(n.t)
  }

  /** A directive as the grammar has it: a width that is written does not begin with a flag, a precision comes after a
      dot, and the conversion is no character that belongs to an earlier part. */
  ghost predicate Legal(d: Directive) {
    && (forall i :: 0 <= i < |d.flags| ==> IsFlag(d.flags[i]))
    && Proper(d.width) && (d.width.Digits? ==> d.width.t[0] != '0')
    && Proper(d.prec) && (!d.dot ==> d.prec == Absent)
    && !IsFlag(d.conv) && !Digit(d.conv) && d.conv !in "*.hlL"
  }

  function NumberText(n: Number): Text {
    match n case Absent => [] case Digits(t) => t case Star => "*"
  }

  function LengthText(m: Length): Text {
    match m case NoLength => [] case Short => "h" case Long => "l" case LDouble => "L" case LLong => "ll"
  }

  /** The directive as it is written, after its percent sign. */
  function Written(d: Directive): Text {
    d.flags + (NumberText(d.width) + ((if d.dot then "." else []) + (NumberText(d.prec) + (LengthText(d.length) + [d.conv]))))
  }

  function FlagsOf(t: Text, fl: Flags): Flags {
    if t == [] then fl else FlagsOf(t[1..], SetFlag(fl, t[0]))
  }

  lemma InTail(c: char, t: Text)
    requires t != []
    ensures c in t <==> c == t[0] || c in t[1..]
  {
    assert t == [t[0]] + t[1..];
  }

  lemma SetFlagMeans(fl: Flags, c: char)
    requires IsFlag(c)
    ensures var r := SetFlag(fl, c);
            && (r.minus <==> fl.minus || '-' == c) && (r.plus <==> fl.plus || '+' == c)
            && (r.space <==> fl.space || ' ' == c) && (r.num <==> fl.num || '#' == c)
            && (r.zero <==> fl.zero || '0' == c)
  {
  }

  /** A set flag is one that is written. */
  lemma {:induction false} FlagsMean(t: Text, fl: Flags)
    requires forall i :: 0 <= i < |t| ==> IsFlag(t[i])
    ensures var r := FlagsOf(t, fl);
            && (r.minus <==> fl.minus || '-' in t) && (r.plus <==> fl.plus || '+' in t)
            && (r.space <==> fl.space || ' ' in t) && (r.num <==> fl.num || '#' in t)
            && (r.zero <==> fl.zero || '0' in t)
    decreases |t|
  {
    hide SetFlag, IsFlag;
    if t != [] {
      FlagsMean(t[1..], SetFlag(fl, t[0]));
      SetFlagMeans(fl, t[0]);
      InTail('-', t); InTail('+', t); InTail(' ', t); InTail('#', t); InTail('0', t);
    }
  }

  function NumberValue(n: Number, absent: int, args: Args): int {
    match n case Absent => absent case Digits(t) => Decode(t, 10) case Star => IntArg(args)
  }

  function NumberRest(n: Number, args: Args): Args {
    if n == Star then Rest(args) else args
  }

  lemma {:induction false} ReadFlags(t: Text, s: Text, args: Args, fl: Flags)
    requires s != [] && !IsFlag(s[0]) && forall i :: 0 <= i < |t| ==> IsFlag(t[i])
    ensures InFlags(t + s, args, fl) == InMin(s, args, FlagsOf(t, fl), 0)
    decreases |t|
  {
    hide InMin;
    if t == [] {
      assert t + s == s;
    } else {
      ReadFlags(t[1..], s, args, SetFlag(fl, t[0]));
      assert (t + s)[1..] == t[1..] + s;
    }
  }

  function Append(n: int, t: Text): int
    decreases |t|
  {
    if t == [] then n else Append(10 * n + DigitValue(t[0]), t[1..])
  }

  lemma {:induction false} AppendSnoc(n: int, t: Text, c: char)
    ensures Append(n, t + [c]) == 10 * Append(n, t) + DigitValue(c)
    decreases |t|
  {
    hide DigitValue;
    if t == [] {
      assert (t + [c])[1..] == [];
    } else {
      AppendSnoc(10 * n + DigitValue(t[0]), t[1..], c);
      assert (t + [c])[1..] == t[1..] + [c];
    }
  }

  /** Reading digits one by one, most significant first, gives the number they stand for. */
  lemma {:induction false} AppendDecodes(t: Text)
    ensures Append(0, t) == Decode(t, 10)
  {
    hide DigitValue;
    if t != [] {
      var n := |t| - 1;
      AppendDecodes(t[..n]);
      AppendSnoc(0, t[..n], t[n]);
      assert t[..n] + [t[n]] == t;
    }
  }

  lemma {:induction false} ReadWidth(t: Text, s: Text, args: Args, fl: Flags, n: int)
    requires AllDigits(t)
    ensures InMin(t + s, args, fl, n) == InMin(s, args, fl, Append(n, t))
    decreases |t|
  {
    hide InDot, DigitValue;
    if t == [] {
      assert t + s == s;
    } else {
      ReadWidth(t[1..], s, args, fl, 10 * n + DigitValue(t[0]));
      assert (t + s)[1..] == t[1..] + s;
    }
  }

  lemma {:induction false} ReadPrecision(t: Text, s: Text, args: Args, fl: Flags, min: int, n: int)
    requires AllDigits(t) && t != []
    ensures InMax(t + s, args, fl, min, n) == InMax(s, args, fl, min, Append(Max(n, 0), t))
    decreases |t|
  {
    hide InMod, DigitValue;
    assert (t + s)[1..] == t[1..] + s;
    var n' := 10 * Max(n, 0) + DigitValue(t[0]);
    if |t| == 1 {
      assert t[1..] + s == s;
    } else {
      assert n' >= 0;
      ReadPrecision(t[1..], s, args, fl, min, n');
    }
  }

  lemma WidthMeaning(n: Number, s: Text, args: Args, fl: Flags)
    requires Proper(n) && s != [] && !Digit(s[0]) && s[0] != '*'
    ensures InMin(NumberText(n) + s, args, fl, 0) == InDot(s, NumberRest(n, args), fl, NumberValue(n, 0, args))
  {
    hide InDot, Decode;
    match n
    case Absent => assert [] + s == s;
    case Digits(t) =>
      ReadWidth(t, s, args, fl, 0);
      AppendDecodes(t);
    case Star => assert ("*" + s)[1..] == s;
  }

  lemma PrecisionMeaning(n: Number, s: Text, args: Args, fl: Flags, min: int)
    requires Proper(n) && s != [] && !Digit(s[0]) && s[0] != '*'
    ensures InMax(NumberText(n) + s, args, fl, min, -1)
         == InMod(s, NumberRest(n, args), fl, min, NumberValue(n, -1, args))
  {
    hide InMod, Decode;
    match n
    case Absent => assert [] + s == s;
    case Digits(t) =>
      ReadPrecision(t, s, args, fl, min, -1);
      AppendDecodes(t);
    case Star => assert ("*" + s)[1..] == s;
  }

  lemma LengthMeaning(m: Length, c: char, s: Text, args: Args, fl: Flags, min: int, max: int)
    requires c !in "hlL"
    ensures InMod(LengthText(m) + ([c] + s), args, fl, min, max) == InConv([c] + s, args, fl, min, max, m)
  {
    hide InConv;
    var t := [c] + s;
    match m
    case NoLength => assert [] + t == t;
    case Short => assert ("h" + t)[1..] == t;
    case Long => assert ("l" + t)[1..] == t && ("l" + t)[1] == c;
    case LDouble => assert ("L" + t)[1..] == t;
    case LLong => assert ("ll" + t)[2..] == t;
  }

  lemma DotMeaning(dot: bool, n: Number, s: Text, args: Args, fl: Flags, min: int)
    requires Proper(n) && (!dot ==> n == Absent) && s != [] && !Digit(s[0]) && s[0] !in "*."
    ensures InDot((if dot then "." else []) + (NumberText(n) + s), args, fl, min)
         == InMod(s, NumberRest(n, args), fl, min, NumberValue(n, -1, args))
  {
    hide InMod, InMax, NumberText;
    if dot {
      var t := NumberText(n) + s;
      assert ("." + t)[1..] == t;
      PrecisionMeaning(n, s, args, fl, min);
    } else {
      assert [] + (NumberText(n) + s) == s by { NoNumber(); }
    }
  }

  lemma NoNumber()
    ensures NumberText(Absent) == []
  {
  }

  /** A directive of the grammar prints the one field it describes, and the rest of the format follows: flags in any
      order and number, a width and a precision in decimal or from the arguments, in that order. */
  lemma DirectiveMeaning(d: Directive, s: Text, args: Args)
    requires Legal(d)
    ensures var args1 := NumberRest(d.width, args);
            var args2 := NumberRest(d.prec, args1);
            var field := Convert(d.conv, FlagsOf(d.flags, NO_FLAGS), NumberValue(d.width, 0, args),
                                 NumberValue(d.prec, -1, args1), d.length, args2);
            Default("%" + (Written(d) + s), args)
              == match field case None => None case Some(r) => Prepend(r.0, Default(s, r.1))
  {
    hide InFlags, InMin, InDot, InMod, Convert, FlagsOf, NumberText, LengthText, NumberValue, NumberRest;
    var fl := FlagsOf(d.flags, NO_FLAGS);
    var t4 := [d.conv] + s;
    var t3 := LengthText(d.length) + t4;
    var t2 := (if d.dot then "." else []) + (NumberText(d.prec) + t3);
    var t1 := NumberText(d.width) + t2;
    assert Written(d) + s == d.flags + t1;
    assert ("%" + (d.flags + t1))[1..] == d.flags + t1;
    LengthStart(d.length, d.conv, s);
    NumberStart(d.prec, t3);
    assert t2[0] == if d.dot then '.' else t3[0] by { if !d.dot { NoNumber(); } }
    NumberStart(d.width, t2);
    ReadFlags(d.flags, t1, args, NO_FLAGS);
    WidthMeaning(d.width, t2, args, fl);
    var args1, min := NumberRest(d.width, args), NumberValue(d.width, 0, args);
    DotMeaning(d.dot, d.prec, t3, args1, fl, min);
    LengthMeaning(d.length, d.conv, s, NumberRest(d.prec, args1), fl, min, NumberValue(d.prec, -1, args1));
    assert t4[1..] == s;
  }

  lemma LengthStart(m: Length, c: char, s: Text)
    ensures var t := LengthText(m) + ([c] + s); t != [] && (t[0] == c || t[0] in "hlL")
  {
  }

  lemma NumberStart(n: Number, s: Text)
    requires Proper(n) && s != []
    ensures var t := NumberText(n) + s;
            t != [] && (if n.Digits? then t[0] == n.t[0] && Digit(t[0]) else if n.Star? then t[0] == '*' else t[0] == s[0])
  {
  }

  /** Everything else is printed as it stands. */
  lemma LiteralMeaning(c: char, s: Text, args: Args)
    requires c != '%'
    ensures Default([c] + s, args) == Prepend([c], Default(s, args))
  {
    assert ([c] + s)[1..] == s;
  }
}
