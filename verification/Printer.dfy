/** The printf engine (CCache/snprintf.c): the state machine `dopr`, the field writers and the bounded output. */
module Printer {
  import opened Scan
  import opened Wrappers
  import opened Snprintf
  import opened Format

  datatype State = DEFAULT | FLAGS | MIN | DOT | MAX | MOD | CONV | DONE

  /** The position of a state in the order dopr goes through them without reading a character. */
  function Rank(state: State): nat {
    match state
    case DEFAULT => 7 case FLAGS => 6 case MIN => 5 case DOT => 4 case MAX => 3 case MOD => 2 case CONV => 1 case DONE => 0
  }

  /** The text still to come in a given state. */
  function Coming(state: State, s: Text, args: Args, fl: Flags, min: int, max: int, m: Length): Option<Text> {
    match state
    case DEFAULT => Default(s, args)
    case FLAGS => InFlags(s, args, fl)
    case MIN => InMin(s, args, fl, min)
    case DOT => InDot(s, args, fl, min)
    case MAX => InMax(s, args, fl, min, max)
    case MOD => InMod(s, args, fl, min, max)
    case CONV => InConv(s, args, fl, min, max, m)
    case DONE => Some([])
  }

  /** What a state may rely on: the registers it has not come to yet are reset. */
  predicate Tidy(state: State, fl: Flags, min: int, max: int, m: Length) {
    match state
    case DEFAULT => fl == NO_FLAGS && min == 0 && max == -1 && m == NoLength
    case FLAGS => min == 0 && max == -1 && m == NoLength
    case MIN => max == -1 && m == NoLength
    case DOT => max == -1 && m == NoLength
    case MAX => m == NoLength
    case MOD => m == NoLength
    case _ => true
  }

  function Reverse(t: Text): (r: Text)
    ensures |r| == |t|
  {
    if t == [] then [] else [t[|t| - 1]] + Reverse(t[..|t| - 1])
  }

  lemma ReverseSnoc(t: Text, c: char)
    ensures Reverse(t + [c]) == [c] + Reverse(t)
  {
    assert (t + [c])[..|t|] == t;
  }

  /** The digits of `value` are those of what is left of it, then the ones collected, least significant first. */
  ghost predicate Collected(value: nat, left: nat, low: Text, base: nat, up: bool)
    requires 2 <= base <= 16
  {
    Numeral(value, base, up) == (if left == 0 then [] else Numeral(left, base, up)) + Reverse(low)
  }

  lemma FirstDigit(value: nat, base: nat, up: bool)
    requires 2 <= base <= 16
    ensures Collected(value, value / base, [DigitChar(value % base, up)], base, up)
  {
    hide Numeral, DigitChar;
    NumeralSplit(value, base, up);
    NoDigits();
    ReverseSnoc([], DigitChar(value % base, up));
    assert [] + [DigitChar(value % base, up)] == [DigitChar(value % base, up)];
  }

  lemma NextDigit(value: nat, left: nat, low: Text, base: nat, up: bool)
    requires 2 <= base <= 16 && left != 0 && Collected(value, left, low, base, up)
    ensures Collected(value, left / base, low + [DigitChar(left % base, up)], base, up)
  {
    hide Numeral, DigitChar, Reverse;
    NumeralSplit(left, base, up);
    ReverseSnoc(low, DigitChar(left % base, up));
  }

  lemma AllCollected(value: nat, low: Text, base: nat, up: bool)
    requires 2 <= base <= 16 && |low| <= PLACES && Collected(value, 0, low, base, up)
    ensures Reverse(low) == Shown(value, base, up)
  {
    hide Numeral;
  }

  lemma LastNineteen(value: nat, left: nat, low: Text, top: char, base: nat, up: bool)
    requires 2 <= base <= 16 && |low| == PLACES && Collected(value, left, low + [top], base, up)
    ensures Reverse(low) == Shown(value, base, up)
  {
    hide Numeral, Reverse;
    ReverseSnoc(low, top);
    var t := Numeral(value, base, up);
    assert t[|t| - PLACES..] == Reverse(low);
  }

  function Zeros(min: int, max: int, digits: nat, sign: nat, fl: Flags): int {
    if fl.zero then Max(Max(max - digits, 0), Spaces(min, max, digits, sign)) else Max(max - digits, 0)
  }

  /** The blanks of a field, negative when they come last. */
  function Side(min: int, max: int, digits: nat, sign: nat, fl: Flags): int {
    var n: int := Spaces(min, max, digits, sign);
    if fl.zero then 0 else if fl.minus then -n else n
  }

  lemma FieldIntForm(value: int, base: nat, min: int, max: int, fl: Flags, up: bool, unsigned: bool, spadlen: int, zpadlen: int)
    requires 2 <= base <= 16
    requires var sign, digits := Sign(value, fl, unsigned), Shown(Magnitude(value, unsigned), base, up);
             && zpadlen == Zeros(min, Max(max, 0), |digits|, |sign|, fl)
             && spadlen == Side(min, Max(max, 0), |digits|, |sign|, fl)
    ensures FieldInt(value, base, min, max, fl, up, unsigned)
         == Fill(' ', spadlen) + Sign(value, fl, unsigned) + Fill('0', zpadlen)
            + Shown(Magnitude(value, unsigned), base, up) + Fill(' ', -spadlen)
  {
    hide Sign, Shown, Magnitude;
  }

  /** Cutting each of the three parts of a string field as the count reaches the precision cuts off the whole. */
  lemma CutField(value: Text, fl: Flags, min: int, max: int, a: nat, b: nat, c: nat)
    requires a == Min(if fl.minus then 0 else Max(min - |value|, 0), Max(max, 0))
    requires b == Min(|value|, Max(max - a, 0))
    requires c == Min(if fl.minus then Max(min - |value|, 0) else 0, Max(max - (a + b), 0))
    ensures Fill(' ', a) + value[..b] + Fill(' ', c) == FieldStr(value, fl, min, max)
  {
    assert b == |value| ==> value[..b] == value;
  }

  /** The bounded output: the buffer (from `at` on), `currlen` and `maxlen` as the routines pass them around, and all that was written,
      whether there was room or not. */
  class Sink {
    const buffer: array<char>
    const at: nat
    const maxlen: nat
    var currlen: nat
    ghost var out: Text
    ghost const initial: Text

    /** The buffer holds what fits of `out`; beyond that, it is as it was. */
    ghost predicate Valid()
      reads this, buffer
    {
      && at + maxlen <= buffer.Length == |initial|
      && currlen == |out|
      && buffer[..at] == initial[..at]
      && buffer[at..at + Min(currlen, maxlen)] == out[..Min(currlen, maxlen)]
      && buffer[at + Min(currlen, maxlen)..] == initial[at + Min(currlen, maxlen)..]
    }

    constructor (buffer: array<char>, at: nat, maxlen: nat)
      requires at + maxlen <= buffer.Length
      ensures Valid() && out == [] && initial == buffer[..]
      ensures this.buffer == buffer && this.at == at && this.maxlen == maxlen
    {
      this.buffer := buffer;
      this.at := at;
      this.maxlen := maxlen;
      currlen := 0;
      out := [];
      initial := buffer[..];
    }

    /** dopr_outch */
    method Outch(c: char)
      requires Valid()
      modifies this, buffer
      ensures Valid() && out == old(out) + [c]
    {
      if currlen < maxlen {
        buffer[at + currlen] := c;
      }
      currlen := currlen + 1;
      out := out + [c];
    }

    method Repeat(c: char, n: int)
      requires Valid()
      modifies this, buffer
      ensures Valid() && out == old(out) + Fill(c, n)
    {
      hide Sink.Valid;
      var i := n;
      while i > 0
        invariant Valid() && i <= Max(n, 0) && (n > 0 ==> i >= 0) && out == old(out) + Fill(c, n - Max(i, 0))
        decreases i
      {
        Outch(c);
        i := i - 1;
        assert Fill(c, n - i) == Fill(c, n - (i + 1)) + [c];
      }
    }

    /** The digit loop of fmtint: least significant first, at most twenty, of which the twentieth is dropped. */
    method Digits(convert: array<char>, value: nat, base: nat, up: bool) returns (place: nat)
      requires convert.Length == 20 && 2 <= base <= 16
      modifies convert
      ensures place < 20 && Reverse(convert[..place]) == Shown(value, base, up)
    {
      hide Reverse, Numeral, DigitChar, Shown, Collected;
      var uvalue: nat := value;
      place := 0;
      convert[0] := DigitChar(uvalue % base, up);
      assert convert[..1] == [convert[0]];
      FirstDigit(value, base, up);
      uvalue := uvalue / base;
      place := 1;
      while uvalue != 0 && place < 20
        invariant 1 <= place <= 20 && Collected(value, uvalue, convert[..place], base, up)
        decreases 20 - place
      {
        NextDigit(value, uvalue, convert[..place], base, up);
        ghost var low := convert[..place];
        convert[place] := DigitChar(uvalue % base, up);
        assert convert[..place + 1] == low + [convert[place]];
        place := place + 1;
        uvalue := uvalue / base;
      }
      if place == 20 {
        place := 19;
        assert convert[..20] == convert[..19] + [convert[19]];
        LastNineteen(value, uvalue, convert[..19], convert[19], base, up);
      } else {
        AllCollected(value, convert[..place], base, up);
      }
    }

    /** Writes convert[place - 1], ..., convert[0]. */
    method Drain(convert: array<char>, n: nat)
      requires Valid() && n <= convert.Length && convert != buffer
      modifies this, buffer
      ensures Valid() && out == old(out) + Reverse(convert[..n])
    {
      hide Sink.Valid;
      var place := n;
      while place > 0
        invariant 0 <= place <= n && Valid() && out + Reverse(convert[..place]) == old(out) + Reverse(convert[..n])
      {
        place := place - 1;
        assert convert[..place + 1] == convert[..place] + [convert[place]];
        ReverseSnoc(convert[..place], convert[place]);
        Outch(convert[place]);
      }
    }

    /** fmtint */
    method FmtInt(value: int, base: nat, min: int, precision: int, fl: Flags, up: bool, unsigned: bool)
      requires Valid() && 2 <= base <= 16
      modifies this, buffer
      ensures Valid() && out == old(out) + FieldInt(value, base, min, precision, fl, up, unsigned)
    {
      hide Sink.Valid, Shown, Reverse, Fill, FieldInt;
      var max := if precision < 0 then 0 else precision;
      var sign := "";
      var uvalue := value % TWO64;
      if !unsigned {
        if value < 0 {
          sign := "-";
          uvalue := -value % TWO64;
        } else if fl.plus {
          sign := "+";
        } else if fl.space {
          sign := " ";
        }
      }
      assert sign == Sign(value, fl, unsigned) && uvalue == Magnitude(value, unsigned);
      var convert := new char[20];
      var place := Digits(convert, uvalue, base, up);
      assert |Shown(uvalue, base, up)| == |Reverse(convert[..place])| == place;
      var spadlen, zpadlen := Padding(min, max, place, |sign|, fl);
      FieldIntForm(value, base, min, precision, fl, up, unsigned, spadlen, zpadlen);
      Field(sign, convert, place, spadlen, zpadlen);
    }

    method Padding(min: int, max: int, place: nat, sign: nat, fl: Flags) returns (spadlen: int, zpadlen: int)
      ensures zpadlen == Zeros(min, max, place, sign, fl) && spadlen == Side(min, max, place, sign, fl)
    {
      zpadlen := max - place;
      spadlen := min - Max(max, place) - sign;
      if zpadlen < 0 { zpadlen := 0; }
      if spadlen < 0 { spadlen := 0; }
      if fl.zero {
        zpadlen := Max(zpadlen, spadlen);
        spadlen := 0;
      }
      if fl.minus { spadlen := -spadlen; }
    }

    /** The five loops that write an integer field. */
    method Field(sign: Text, convert: array<char>, place: nat, spadlen: int, zpadlen: int)
      requires Valid() && place <= convert.Length && convert != buffer && |sign| <= 1
      modifies this, buffer
      ensures Valid()
      ensures out == old(out) + (Fill(' ', spadlen) + sign + Fill('0', zpadlen) + Reverse(convert[..place]) + Fill(' ', -spadlen))
    {
      hide Sink.Valid, Reverse, Fill;
      Repeat(' ', spadlen);
      if |sign| == 1 { Outch(sign[0]); }
      assert out == old(out) + Fill(' ', spadlen) + sign;
      Repeat('0', zpadlen);
      Drain(convert, place);
      Repeat(' ', -spadlen);
    }

    /** The two padding loops of fmtstr; `cnt` characters of the field are there already. */
    method Pad(n: nat, cnt: nat, max: int) returns (k: nat)
      requires Valid()
      modifies this, buffer
      ensures Valid() && k == Min(n, Max(max - cnt, 0)) && out == old(out) + Fill(' ', k)
    {
      hide Sink.Valid;
      k := 0;
      while k < n && cnt + k < max
        invariant 0 <= k <= Min(n, Max(max - cnt, 0)) && Valid() && out == old(out) + Fill(' ', k)
      {
        Outch(' ');
        k := k + 1;
        assert Fill(' ', k) == Fill(' ', k - 1) + [' '];
      }
    }

    method Copy(value: Text, cnt: nat, max: int) returns (k: nat)
      requires Valid()
      modifies this, buffer
      ensures Valid() && k == Min(|value|, Max(max - cnt, 0)) && out == old(out) + value[..k]
    {
      hide Sink.Valid;
      k := 0;
      while k < |value| && cnt + k < max
        invariant 0 <= k <= Min(|value|, Max(max - cnt, 0)) && Valid() && out == old(out) + value[..k]
      {
        Outch(value[k]);
        k := k + 1;
        assert value[..k] == value[..k - 1] + [value[k - 1]];
      }
    }

    /** fmtstr */
    method FmtStr(value: Text, fl: Flags, min: int, max: int)
      requires Valid()
      modifies this, buffer
      ensures Valid() && out == old(out) + FieldStr(value, fl, min, max)
    {
      hide Sink.Valid, Fill, FieldStr;
      var padlen := min - |value|;
      if padlen < 0 { padlen := 0; }
      if fl.minus { padlen := -padlen; }
      var cnt := Pad(Max(padlen, 0), 0, max);
      ghost var a := cnt;
      var k := Copy(value, cnt, max);
      ghost var b := k;
      cnt := cnt + k;
      k := Pad(Max(-padlen, 0), cnt, max);
      CutField(value, fl, min, max, a, b, k);
    }

    /** The conversion states of dopr. */
    method Conversion(c: char, fl: Flags, min: int, precision: int, m: Length, args: Args) returns (rest: Args)
      requires Valid() && Convert(c, fl, min, precision, m, args).Some?
      modifies this, buffer
      ensures Valid() && var r := Convert(c, fl, min, precision, m, args).value; out == old(out) + r.0 && rest == r.1
    {
      hide Sink.Valid, FieldInt, FieldStr, Signed;
      rest := args;
      if c == 'd' || c == 'i' {
        rest := Rest(args);
        FmtInt(SignedArg(IntArg(args), m), 10, min, precision, fl, false, false);
      } else if c == 'o' {
        rest := Rest(args);
        FmtInt(UnsignedArg(IntArg(args), m), 8, min, precision, fl, false, true);
      } else if c == 'u' {
        rest := Rest(args);
        FmtInt(UnsignedArg(IntArg(args), m), 10, min, precision, fl, false, true);
      } else if c == 'X' {
        rest := Rest(args);
        FmtInt(UnsignedArg(IntArg(args), m), 16, min, precision, fl, true, true);
      } else if c == 'x' {
        rest := Rest(args);
        FmtInt(UnsignedArg(IntArg(args), m), 16, min, precision, fl, false, true);
      } else if c == 'p' {
        rest := Rest(args);
        FmtInt(Signed(IntArg(args), TWO64), 16, min, precision, fl, false, false);
      } else if c == 'c' {
        rest := Rest(args);
        Outch((IntArg(args) % 256) as char);
      } else if c == 's' {
        rest := Rest(args);
        var value := match StrArg(args) case None => "(NULL)" case Some(s) => s;
        var max := precision;
        if max == -1 { max := |value|; }
        if min > 0 && max >= 0 && min > max { max := min; }
        FmtStr(value, fl, min, max);
      } else if c == '%' {
        Outch(c);
      }
    }

    /** dopr's loop: everything the format describes is written, in order, whatever the room. */
    method Dopr(format: Text, args0: Args)
      requires Valid() && out == [] && Default(format, args0).Some?
      modifies this, buffer
      ensures Valid() && out == Default(format, args0).value
    {
      hide Sink.Valid, Convert, Default, InFlags, InMin, InDot, InMax, InMod, InConv;
      hide SetFlag, DigitValue, IsFlag, Digit, IntArg, Rest;
      var state, args, fl, min, max, m := DEFAULT, args0, NO_FLAGS, 0, -1, NoLength;
      var i := 0;
      assert format[0..] == format;
      while state != DONE
        invariant 0 <= i <= |format| && Valid()
        invariant var rest := Coming(state, format[i..], args, fl, min, max, m);
                  rest.Some? && out + rest.value == Default(format, args0).value
        invariant Tidy(state, fl, min, max, m)
        decreases |format| - i, Rank(state)
      {
        ghost var was := Coming(state, format[i..], args, fl, min, max, m);
        if i == |format| {
          Ended(state, format[i..], args, fl, min, max, m);
          state := DONE;
        } else {
          var ch := format[i];
          assert format[i..][0] == ch && format[i..][1..] == format[i + 1..];
          match state {
            case DEFAULT =>
              DefaultStep(format[i..], args);
              if ch == '%' { state := FLAGS; } else { Outch(ch); }
              i := i + 1;
            case FLAGS =>
              FlagsStep(format[i..], args, fl);
              if IsFlag(ch) { fl := SetFlag(fl, ch); i := i + 1; } else { state := MIN; }
            case MIN =>
              MinStep(format[i..], args, fl, min);
              if Digit(ch) { min := 10 * min + DigitValue(ch); i := i + 1; }
              else if ch == '*' { min := IntArg(args); args := Rest(args); i := i + 1; state := DOT; }
              else { state := DOT; }
            case DOT =>
              DotStep(format[i..], args, fl, min);
              if ch == '.' { state := MAX; i := i + 1; } else { state := MOD; }
            case MAX =>
              MaxStep(format[i..], args, fl, min, max);
              if Digit(ch) {
                if max < 0 { max := 0; }
                max := 10 * max + DigitValue(ch);
                i := i + 1;
              } else if ch == '*' { max := IntArg(args); args := Rest(args); i := i + 1; state := MOD; }
              else { state := MOD; }
            case MOD =>
              ModStep(format[i..], args, fl, min, max);
              if ch == 'h' { m := Short; i := i + 1; }
              else if ch == 'l' {
                m := Long;
                i := i + 1;
                if i < |format| && format[i] == 'l' { m := LLong; i := i + 1; }
              } else if ch == 'L' { m := LDouble; i := i + 1; }
              state := CONV;
            case CONV =>
              ConvStep(format[i..], args, fl, min, max, m);
              args := Conversion(ch, fl, min, max, m, args);
              i := i + 1;
              state, fl, min, max, m := DEFAULT, NO_FLAGS, 0, -1, NoLength;
            case DONE =>
          }
        }
      }
    }

    /** The terminator dopr writes last. */
    method Terminate()
      requires Valid()
      modifies buffer
      ensures maxlen > 0 ==> var n := Min(|out|, maxlen - 1); buffer[at..at + n] == out[..n] && buffer[at + n] == '\0'
      ensures buffer[..at] == initial[..at] && buffer[at + maxlen..] == initial[at + maxlen..]
    {
      if maxlen != 0 {
        if currlen < maxlen - 1 {
          buffer[at + currlen] := '\0';
        } else {
          buffer[at + maxlen - 1] := '\0';
        }
      }
    }
  }

  // ----- one unfolding of each state

  lemma Ended(state: State, s: Text, args: Args, fl: Flags, min: int, max: int, m: Length)
    requires s == []
    ensures Coming(state, s, args, fl, min, max, m) == Some([])
  {
  }

  lemma DefaultStep(s: Text, args: Args)
    requires s != []
    ensures Default(s, args) == if s[0] == '%' then InFlags(s[1..], args, NO_FLAGS) else Prepend([s[0]], Default(s[1..], args))
  {
    hide InFlags;
  }

  lemma FlagsStep(s: Text, args: Args, fl: Flags)
    requires s != []
    ensures InFlags(s, args, fl) == if IsFlag(s[0]) then InFlags(s[1..], args, SetFlag(fl, s[0])) else InMin(s, args, fl, 0)
  {
    hide InMin;
  }

  lemma MinStep(s: Text, args: Args, fl: Flags, min: int)
    requires s != []
    ensures InMin(s, args, fl, min) ==
            if Digit(s[0]) then InMin(s[1..], args, fl, 10 * min + DigitValue(s[0]))
            else if s[0] == '*' then InDot(s[1..], Rest(args), fl, IntArg(args))
            else InDot(s, args, fl, min)
  {
    hide InDot;
  }

  lemma DotStep(s: Text, args: Args, fl: Flags, min: int)
    requires s != []
    ensures InDot(s, args, fl, min) == if s[0] == '.' then InMax(s[1..], args, fl, min, -1) else InMod(s, args, fl, min, -1)
  {
    hide InMax, InMod;
  }

  lemma MaxStep(s: Text, args: Args, fl: Flags, min: int, max: int)
    requires s != []
    ensures InMax(s, args, fl, min, max) ==
            if Digit(s[0]) then InMax(s[1..], args, fl, min, 10 * Max(max, 0) + DigitValue(s[0]))
            else if s[0] == '*' then InMod(s[1..], Rest(args), fl, min, IntArg(args))
            else InMod(s, args, fl, min, max)
  {
    hide InMod;
  }

  lemma ModStep(s: Text, args: Args, fl: Flags, min: int, max: int)
    requires s != []
    ensures InMod(s, args, fl, min, max) ==
            if s[0] == 'h' then InConv(s[1..], args, fl, min, max, Short)
            else if s[0] == 'l' then
              if |s| > 1 && s[1] == 'l' then InConv(s[2..], args, fl, min, max, LLong)
              else InConv(s[1..], args, fl, min, max, Long)
            else if s[0] == 'L' then InConv(s[1..], args, fl, min, max, LDouble)
            else InConv(s, args, fl, min, max, NoLength)
  {
    hide InConv;
  }

  lemma ConvStep(s: Text, args: Args, fl: Flags, min: int, max: int, m: Length)
    requires s != []
    ensures InConv(s, args, fl, min, max, m) ==
            match Convert(s[0], fl, min, max, m, args)
            case None => None
            case Some(r) => Prepend(r.0, Default(s[1..], r.1))
  {
    hide Convert, Default;
  }

  lemma NoDigits()
    ensures Reverse([]) == []
  {
  }

  lemma NumeralSplit(u: nat, base: nat, up: bool)
    requires 2 <= base <= 16
    ensures Numeral(u, base, up) == (if u / base == 0 then [] else Numeral(u / base, base, up)) + [DigitChar(u % base, up)]
  {
    hide DigitChar;
    DivMod(u, base);
    if u < base { assert u / base == 0; }
  }

  /** vsnprintf: what is returned is the length of the whole text, whatever the room; the buffer holds as much of it as
      fits before the terminator. */
  method Vsnprintf(buffer: array<char>, at: nat, maxlen: nat, format: Text, args: Args) returns (total: nat)
    requires at + maxlen <= buffer.Length && Default(format, args).Some?
    modifies buffer
    ensures var text := Default(format, args).value;
            && total == |text|
            && (maxlen > 0 ==> var n := Min(|text|, maxlen - 1); buffer[at..at + n] == text[..n] && buffer[at + n] == '\0')
            && buffer[..at] == old(buffer[..at]) && buffer[at + maxlen..] == old(buffer[at + maxlen..])
  {
    hide Default;
    var sink := new Sink(buffer, at, maxlen);
    sink.Dopr(format, args);
    sink.Terminate();
    total := sink.currlen;
  }

  /** vasprintf: the measuring pass sizes the second one exactly.  An empty text leaves the caller without a string. */
  method Vasprintf(format: Text, args: Args) returns (ptr: Option<array<char>>, ret: nat)
    requires Default(format, args).Some?
    ensures var text := Default(format, args).value;
            && ret == |text|
            && (text == [] ==> ptr == None)
            && (text != [] ==> ptr.Some? && fresh(ptr.value) && ptr.value[..] == text + ['\0'])
  {
    hide Default;
    var none := new char[0];
    ret := Vsnprintf(none, 0, 0, format, args);
    if ret <= 0 { return None, ret; }
    var p := new char[ret + 1];
    ret := Vsnprintf(p, 0, ret + 1, format, args);
    ghost var text := Default(format, args).value;
    assert p[..] == p[0..0 + ret] + [p[0 + ret]];
    ptr := Some(p);
  }
}
