/** The string object of Source/DOH/string.c: a growable NUL-terminated buffer with a file cursor `sp`, a line
    counter and a cached hash value.

    Every edit is proved against the matching sequence operation on `text`, wherever the cursor stands: a shrinking
    replacement can leave it in front of the text, a seek in the empty string behind it.  `LineOffset()` is the line
    counter less the newlines before a cursor inside the text: the edits that keep the two in step leave it alone.
 */
module StringObject {
  import opened Scan
  import opened Lex
  import opened StringHash
  import opened TextLines
  import opened Wrappers

  const NUL: char := 0 as char
  const EOF := -1
  const SEEK_SET := 0
  const SEEK_CUR := 1
  const SEEK_END := 2
  const INIT_MAXSIZE := 16

  /** memcpy of a character string to offset `dst`. */
  method MemCpy(a: array<char>, dst: int, data: string)
    requires 0 <= dst && dst + |data| <= a.Length
    modifies a
    ensures a[..] == old(a[..dst]) + data + old(a[dst + |data|..])
  {
    forall i | 0 <= i < |data| { a[dst + i] := data[i]; }
  }

  /** memmove of `n` characters within a buffer. */
  method MemMove(a: array<char>, dst: int, src: int, n: int)
    requires 0 <= n && 0 <= dst && 0 <= src && dst + n <= a.Length && src + n <= a.Length
    modifies a
    ensures a[..] == old(a[..dst]) + old(a[src..src + n]) + old(a[dst + n..])
  {
    forall i | 0 <= i < n { a[dst + i] := a[src + i]; }
  }

  lemma ArraySlice(a: array<char>, len: int, s: int, e: int)
    requires 0 <= s <= e <= len <= a.Length
    ensures a[s..e] == a[..len][s..e]
  {
  }

  class DohString {
    var str: array<char>
    var maxsize: int
    var len: int
    var hashkey: int
    var sp: int
    var line: int

    /** The contents, kept beside the buffer. */
    ghost var text: string

    /** The cached hash is either absent (negative) or the hash of the present contents. */
    ghost predicate Valid()
      reads this, str
    {
      && 0 <= len < str.Length
      && str[len] as int == 0
      && str[..len] == text
      && (hashkey < 0 || hashkey == HashOf(text))
    }

    /** The recorded capacity is backed by the buffer and holds the text; for a copy it leaves no room for the
        terminator, which is there all the same. */
    ghost predicate Backed()
      reads this
    {
      len <= maxsize <= str.Length
    }

    ghost predicate CursorIn()
      reads this
    {
      0 <= sp <= len
    }

    ghost function LineOffset(): int
      reads this
      requires 0 <= sp <= |text|
    {
      line - Newlines(text[..sp])
    }

    // ----- constructors

    constructor (s: string)
      ensures Valid() && Backed() && CursorIn() && fresh(str) && maxsize == (if |s| + 1 > 16 then |s| + 1 else 16)
      ensures text == s && sp == |s| && line == 1
    {
      var max := if |s| + 1 > INIT_MAXSIZE then |s| + 1 else INIT_MAXSIZE;
      var buffer := new char[max];
      forall i | 0 <= i < |s| { buffer[i] := s[i]; }
      buffer[|s|] := NUL;
      str, maxsize, len, hashkey, sp, line := buffer, max, |s|, -1, |s|, 1;
      text := s;
    }

    constructor Empty()
      ensures Valid() && Backed() && CursorIn() && fresh(str) && maxsize == 16
      ensures text == "" && sp == 0 && line == 1 && hashkey == 0
    {
      var buffer := new char[INIT_MAXSIZE];
      buffer[0] := NUL;
      str, maxsize, len, hashkey, sp, line := buffer, INIT_MAXSIZE, 0, 0, 0, 1;
      text := "";
    }

    /** NewString on another string object: its cached hash comes along. */
    constructor FromString(so: DohString)
      requires so.Valid()
      ensures Valid() && Backed() && CursorIn() && fresh(str) && maxsize == (if so.len + 1 > 16 then so.len + 1 else 16)
      ensures text == so.text && sp == so.len && line == 1 && hashkey == so.hashkey
    {
      var max := if so.len + 1 > INIT_MAXSIZE then so.len + 1 else INIT_MAXSIZE;
      var buffer := new char[max];
      forall i | 0 <= i < so.len { buffer[i] := so.str[i]; }
      buffer[so.len] := NUL;
      str, maxsize, len, hashkey, sp, line := buffer, max, so.len, so.hashkey, so.len, 1;
      text := so.text;
    }

    /** CopyString: everything is copied, but the recorded capacity is the length. */
    constructor CopyOf(so: DohString)
      requires so.Valid()
      ensures Valid() && Backed() && fresh(str) && maxsize == so.len
      ensures text == so.text && sp == so.sp && line == so.line && hashkey == so.hashkey
    {
      var buffer := new char[so.len + 1];
      forall i | 0 <= i < so.len { buffer[i] := so.str[i]; }
      buffer[so.len] := NUL;
      str, maxsize, len, hashkey, sp, line := buffer, so.len, so.len, so.hashkey, so.sp, so.line;
      text := so.text;
    }

    // ----- comparison and hashing

    method Cmp(other: DohString) returns (r: int)
      requires Valid() && other.Valid()
      ensures r == Compare(text, other.text, true)
    {
      var maxlen := if other.len < len then other.len else len;
      var i, c := maxlen, 0;
      while i != 0 && str[c] == other.str[c]
        invariant 0 <= i && c == maxlen - i
        invariant str[..c] == other.str[..c]
        decreases i
      {
        i, c := i - 1, c + 1;
      }
      ghost var a, b := text, other.text;
      assert str[..len] == a && other.str[..other.len] == b;
      assert a[..c] == str[..c] && b[..c] == other.str[..c];
      CompareCommonPrefix(a, b, c, true);
      if i != 0 {
        assert a[c..][0] == str[c] && b[c..][0] == other.str[c];
        if SignedChar(str[c]) < SignedChar(other.str[c]) { return -1; } else { return 1; }
      }
      if len == other.len { return 0; }
      if len > other.len { return 1; }
      return -1;
    }

    /** String_equal: the lengths, then memcmp. */
    method Equal(other: DohString) returns (r: bool)
      requires Valid() && other.Valid()
      ensures r <==> text == other.text
    {
      if len != other.len { return false; }
      r := str[..len] == other.str[..len];
    }

    method Hash() returns (h: int)
      requires Valid()
      modifies this`hashkey
      ensures Valid() && h == hashkey == HashOf(text)
    {
      if hashkey >= 0 { return hashkey; }
      var n := if len > 50 then 50 else len;
      var mlen := n / 4;
      var i, c := mlen, 0;
      h := 0;
      while i != 0
        invariant 0 <= i && c == 4 * (mlen - i)
        invariant 0 <= h == Poly(text[..c]) % WORD
        decreases i
      {
        MixTracksPoly(h, text, c);
        h := Mix(h, str[c]);
        MixTracksPoly(h, text, c + 1);
        h := Mix(h, str[c + 1]);
        MixTracksPoly(h, text, c + 2);
        h := Mix(h, str[c + 2]);
        MixTracksPoly(h, text, c + 3);
        h := Mix(h, str[c + 3]);
        c, i := c + 4, i - 1;
      }
      i := n - mlen * 4;
      while i != 0
        invariant 0 <= i && c == n - i
        invariant 0 <= h == Poly(text[..c]) % WORD
        decreases i
      {
        MixTracksPoly(h, text, c);
        h := Mix(h, str[c]);
        c, i := c + 1, i - 1;
      }
      assert text[..c] == Hashed(text);
      MaskWord(Poly(text[..c]));
      h := h % HASH_RANGE;
      hashkey := h;
    }

    // ----- edits

    /** realloc: the new buffer begins as the old one did, as far as both reach. */
    method Realloc(newsize: int)
      requires 0 <= newsize
      modifies this`str, this`maxsize
      ensures fresh(str) && str.Length == maxsize == newsize
      ensures forall i :: 0 <= i < old(str.Length) && i < newsize ==> str[i] == old(str[i])
    {
      var buffer := new char[newsize];
      forall i | 0 <= i < str.Length && i < newsize { buffer[i] := str[i]; }
      str, maxsize := buffer, newsize;
    }

    method Clear()
      requires Valid()
      modifies this, str
      ensures Valid() && CursorIn() && str == old(str) && maxsize == old(maxsize) && len <= old(len)
      ensures text == "" && line == 1 && sp == 0
    {
      hashkey, len, sp, line := -1, 0, 0, 1;
      str[0] := NUL;
      text := "";
    }

    /** The counting loops: the newlines of a piece of text go into `line`, upwards or downwards. */
    method CountLines(part: string, down: bool)
      modifies this`line
      ensures line == old(line) + (if down then -1 else 1) * Newlines(part)
    {
      var i := 0;
      while i < |part|
        invariant 0 <= i <= |part|
        invariant line == old(line) + (if down then -1 else 1) * Newlines(part[..i])
        modifies this`line
      {
        NewlinesStep(part, i);
        if part[i] == '\n' { line := if down then line - 1 else line + 1; }
        i := i + 1;
      }
      assert part[..i] == part;
    }

    /** Makes room by the append policy, then copies the text and its terminator behind the present end. */
    method AppendBuffer(data: string)
      requires 0 <= len < str.Length && Backed()
      modifies this`str, this`maxsize, str
      ensures Backed() && len + |data| <= maxsize && len + |data| < str.Length && (str == old(str) || fresh(str))
      ensures old(maxsize) <= maxsize
      ensures str[..len + |data|] == old(str[..len]) + data && str[len + |data|] == NUL
    {
      ghost var was := str[..len];
      var newlen := len + |data| + 1;
      if newlen >= maxsize - 1 {
        var newmaxsize := 2 * maxsize;
        if newlen >= newmaxsize - 1 { newmaxsize := newlen + 1; }
        Realloc(newmaxsize);
      }
      assert str[..len] == was;
      MemCpy(str, len, data + [NUL]);
      ghost var all := str[..];
      assert all[..len + |data|] == was + data && all[len + |data|] == NUL;
    }

    /** A cursor at the end or behind it moves to the new end, counting what it passes. */
    method Append(data: string)
      requires Valid() && Backed() && sp <= len + |data|
      modifies this, str
      ensures Valid() && Backed() && (str == old(str) || fresh(str)) && old(maxsize) <= maxsize
      ensures text == old(text) + data
      ensures sp == if old(sp >= len) then len else old(sp)
      ensures line == old(line) + if old(sp >= len) then Newlines(text[old(sp)..]) else 0
      ensures old(CursorIn()) ==> CursorIn() && LineOffset() == old(LineOffset())
    {
      hide Newlines, HashOf;
      ghost var was := text;
      hashkey := -1;
      var oldlen, l := len, |data|;
      AppendBuffer(data);
      text := was + data;
      assert 0 <= sp <= oldlen ==> text[..sp] == was[..sp];
      if sp >= oldlen {
        NewlinesConcat(was, data);
        ArraySlice(str, oldlen + l, sp, oldlen + l);
        assert text[sp..oldlen + l] == text[sp..];
        assert sp == oldlen ==> text[sp..] == data;
        CountLines(str[sp..oldlen + l], false);
        sp := oldlen + l;
        assert text[..sp] == text && was[..oldlen] == was;
      }
      len := len + l;
    }

    /** The doubling loop of `String_insert`. */
    method Reserve(l: int)
      requires 0 <= l && 0 <= len < str.Length && Backed() && 0 < maxsize
      modifies this`str, this`maxsize
      ensures Backed() && len + l < maxsize && (str == old(str) || fresh(str)) && old(maxsize) <= maxsize
      ensures str[..len] == old(str[..len])
    {
      while maxsize <= len + l
        invariant 0 <= len < str.Length && Backed() && old(maxsize) <= maxsize
        invariant str == old(str) || fresh(str)
        invariant str[..len] == old(str[..len])
        decreases len + l - maxsize
        modifies this`str, this`maxsize
      {
        Realloc(2 * maxsize);
      }
    }

    /** memmove and memcpy open a gap at `pos` and fill it. */
    method Splice(pos: int, data: string)
      requires 0 <= pos <= len && len + |data| < str.Length
      modifies str
      ensures str[..len + |data|] == old(str[..len])[..pos] + data + old(str[..len])[pos..]
    {
      ghost var all := str[..];
      ghost var was := str[..len];
      MemMove(str, pos + |data|, pos, len - pos);
      ghost var moved := str[..];
      assert moved[pos + |data|..len + |data|] == was[pos..];
      assert moved[..pos] == was[..pos];
      MemCpy(str, pos, data);
      assert str[..][..len + |data|] == was[..pos] + data + was[pos..];
      assert str[..][..len + |data|] == str[..len + |data|];
    }

    /** The buffer part of `String_insert`, up to and with the new terminator. */
    method InsertBuffer(pos: int, data: string)
      requires 0 <= pos <= len < str.Length && Backed() && 0 < maxsize
      modifies this`str, this`maxsize, str
      ensures Backed() && len + |data| < maxsize && (str == old(str) || fresh(str)) && old(maxsize) <= maxsize
      ensures str[..len + |data|] == old(str[..len])[..pos] + data + old(str[..len])[pos..]
      ensures str[len + |data|] == NUL
    {
      Reserve(|data|);
      Splice(pos, data);
      ghost var all := str[..len + |data|];
      str[len + |data|] := NUL;
      assert str[..len + |data|] == all;
    }

    /** The buffer part of `String_write` at cursor `p`, giving the new length. */
    method WriteBuffer(p: int, data: string) returns (newlen: int)
      requires 0 <= p <= len < str.Length && Backed()
      modifies this`str, this`maxsize, str
      ensures 0 <= newlen <= maxsize <= str.Length && newlen < str.Length && (str == old(str) || fresh(str))
      ensures old(maxsize) <= maxsize
      ensures str[..newlen] == old(str[..len])[..p] + data +
                               if p + |data| < len then old(str[..len])[p + |data|..] else ""
      ensures str[newlen] == NUL
    {
      ghost var was := str[..len];
      newlen := len;
      if p + |data| + 1 > maxsize {
        Realloc(p + |data| + 1);
        newlen := p + |data|;
      }
      if p + |data| > newlen { newlen := p + |data|; }
      assert str[..len] == was;
      ghost var all := str[..];
      MemCpy(str, p, data);
      assert all[..p] == was[..p] && (newlen == len ==> all[p + |data|..len] == was[p + |data|..]);
      assert str[..][..newlen] == was[..p] + data + if p + |data| < len then was[p + |data|..] else "";
      str[newlen] := NUL;
    }

    /** memmove closes the gap [s, e); the shorter text is terminated. */
    method Erase(s: int, e: int)
      requires 0 <= s <= e <= len < str.Length
      modifies this`len, str
      ensures len == old(len) - (e - s) && str[len] == NUL
      ensures str[..len] == old(str[..len])[..s] + old(str[..len])[e..]
    {
      ghost var all := str[..];
      ghost var was := str[..len];
      assert all[..s] == was[..s] && all[e..len] == was[e..];
      MemMove(str, s, e, len - e);
      assert str[..] == was[..s] + was[e..] + all[s + (len - e)..];
      len := len - (e - s);
      assert str[..][..len] == was[..s] + was[e..];
      str[len] := NUL;
      assert str[..len] == str[..][..len] == was[..s] + was[e..];
    }

    /** `String_insert` behind its clamping of the position. */
    method InsertAt(pos: int, data: string)
      requires Valid() && Backed() && 0 <= pos <= len && 0 < maxsize
      modifies this, str
      ensures Valid() && Backed() && (str == old(str) || fresh(str)) && old(maxsize) <= maxsize
      ensures text == old(text)[..pos] + data + old(text)[pos..]
      ensures sp == if old(sp) >= pos then old(sp) + |data| else old(sp)
      ensures line == old(line) + if old(sp) >= pos then Newlines(data) else 0
      ensures old(CursorIn()) ==> CursorIn() && LineOffset() == old(LineOffset())
    {
      hide Newlines, HashOf;
      ghost var was := text;
      if CursorIn() { InsertedNewlines(was, pos, data, sp); }
      hashkey := -1;
      InsertBuffer(pos, data);
      text := was[..pos] + data + was[pos..];
      if sp >= pos {
        CountLines(data, false);
        sp := sp + |data|;
      }
      len := len + |data|;
    }

    /** A recorded capacity of zero, as a copy of the empty string has it, can be appended to only: doubling it never
        makes room. */
    method Insert(at: int, data: string)
      requires Valid() && Backed() && (if at == -2 then sp <= len + |data| else 0 < maxsize)
      modifies this, str
      ensures Valid() && Backed() && (str == old(str) || fresh(str)) && old(maxsize) <= maxsize
      ensures var p := if at == -2 then old(len) else if at < 0 then 0 else if at > old(len) then old(len) else at;
              && text == old(text)[..p] + data + old(text)[p..]
              && (at != -2 || old(sp) <= old(len) ==>
                    && sp == (if old(sp) >= p then old(sp) + |data| else old(sp))
                    && line == old(line) + if old(sp) >= p then Newlines(data) else 0)
      ensures at == -2 && old(sp) > old(len) ==> sp == len && line == old(line) + Newlines(text[old(sp)..])
      ensures old(CursorIn()) ==> CursorIn() && LineOffset() == old(LineOffset())
    {
      hide Newlines, HashOf;
      if at == DOH_END {
        Append(data);
        assert text == old(text)[..old(len)] + data + old(text)[old(len)..];
        assert text[old(len)..] == data;
        return;
      }
      var pos := if at < 0 then 0 else if at > len then len else at;
      InsertAt(pos, data);
    }

    /** What a cursor at `at` has passed of [s, e), as far as lines are concerned. */
    static ghost function Passed(t: string, s: int, e: int, at: int): nat
      requires 0 <= s <= e <= |t|
    {
      if at > s then Newlines(t[s..Min(at, e)]) else 0
    }

    /** Where a cursor at `at` goes when [s, e) does. */
    static function Moved(s: int, e: int, at: int): int {
      if at > e then at - (e - s) else if at > s then s else at
    }

    /** Deleting a range takes what the cursor had passed of it out of the count before the cursor. */
    static lemma DeletedLines(was: string, s: int, e: int, at: int)
      requires 0 <= s <= e <= |was| && 0 <= at <= |was|
      ensures 0 <= Moved(s, e, at) <= |was| - (e - s)
      ensures Newlines((was[..s] + was[e..])[..Moved(s, e, at)]) == Newlines(was[..at]) - Passed(was, s, e, at)
    {
      hide Newlines;
      DeletedNewlines(was, s, e, at);
    }

    static lemma PassedMeans(t: string, s: int, e: int, at: int)
      requires 0 <= s <= e <= |t|
      ensures Passed(t, s, e, at) == if at > s then Newlines(t[s..if at > e then e else at]) else 0
    {
    }

    static lemma PassedOne(t: string, pos: int, at: int)
      requires 0 <= pos < |t|
      ensures Passed(t, pos, pos + 1, at) == if at > pos && t[pos] == '\n' then 1 else 0
    {
      hide Newlines;
      WindowUp(t, pos, pos);
      NoNewlines();
      assert t[pos..pos] == "";
    }

    /** `String_delitem` behind its reading of the position. */
    method DelAt(pos: int)
      requires Valid() && 0 <= pos < len
      modifies this, str
      ensures Valid() && str == old(str) && maxsize == old(maxsize) && len <= old(len)
      ensures text == old(text)[..pos] + old(text)[pos + 1..]
      ensures sp == if old(sp) > pos then old(sp) - 1 else old(sp)
      ensures line == old(line) - Passed(old(text), pos, pos + 1, old(sp))
      ensures old(CursorIn()) ==> CursorIn() && LineOffset() == old(LineOffset())
    {
      hide Newlines, HashOf, Passed;
      ghost var was := text;
      hashkey := -1;
      if CursorIn() { DeletedLines(was, pos, pos + 1, sp); }
      PassedOne(was, pos, sp);
      if sp > pos {
        sp := sp - 1;
        if str[pos] == '\n' { line := line - 1; }
      }
      Erase(pos, pos + 1);
      text := was[..pos] + was[pos + 1..];
    }

    method DelItem(at: int)
      requires Valid()
      requires at == -2 || at == -1 || len == 0 || 0 <= at < len
      modifies this, str
      ensures Valid() && str == old(str) && maxsize == old(maxsize) && len <= old(len)
      ensures old(len) == 0 ==> text == old(text) && sp == old(sp) && line == old(line)
      ensures old(len) != 0 ==>
                var p := if at == -2 then old(len) - 1 else if at == -1 then 0 else at;
                && text == old(text)[..p] + old(text)[p + 1..]
                && sp == (if old(sp) > p then old(sp) - 1 else old(sp))
                && line == old(line) - Passed(old(text), p, p + 1, old(sp))
      ensures old(CursorIn()) ==> CursorIn() && LineOffset() == old(LineOffset())
    {
      hide Newlines, HashOf, Passed;
      hashkey := -1;
      var pos := at;
      if pos == DOH_END { pos := len - 1; }
      if pos == DOH_BEGIN { pos := 0; }
      if len == 0 { return; }
      DelAt(pos);
    }

    method DelSlice(sindex: int, eindex: int)
      requires Valid()
      requires var e := if eindex == -2 then len else eindex;
               var s := if sindex == -1 then 0 else sindex;
               len == 0 || 0 <= s <= e <= len
      modifies this, str
      ensures Valid() && str == old(str) && maxsize == old(maxsize) && len <= old(len)
      ensures old(len) == 0 ==> text == old(text) && sp == old(sp) && line == old(line)
      ensures old(len) != 0 ==>
                var e := if eindex == -2 then old(len) else eindex;
                var s := if sindex == -1 then 0 else sindex;
                && text == old(text)[..s] + old(text)[e..]
                && sp == (if old(sp) > e then old(sp) - (e - s) else if old(sp) > s then s else old(sp))
                && line == old(line) - Passed(old(text), s, e, old(sp))
      ensures old(CursorIn()) ==> CursorIn() && LineOffset() == old(LineOffset())
    {
      hide Newlines, HashOf, Passed;
      if len == 0 { return; }
      hashkey := -1;
      var e := if eindex == DOH_END then len else eindex;
      var s := if sindex == DOH_BEGIN then 0 else sindex;
      ghost var was := text;
      if CursorIn() { DeletedLines(was, s, e, sp); }
      PassedMeans(was, s, e, sp);
      if sp > s {
        var end;
        if sp > e {
          end := e;
          sp := sp - (e - s);
        } else {
          end := sp;
          sp := s;
        }
        ArraySlice(str, len, s, end);
        CountLines(str[s..end], true);
      }
      Erase(s, e);
      text := was[..s] + was[e..];
    }

    /** The cursor is drawn back with the end.  The closing assertion of the source holds exactly of a cursor that
        does not stand in front of the text. */
    method Chop()
      requires Valid()
      modifies this, str
      ensures Valid() && str == old(str) && maxsize == old(maxsize) && len <= old(len)
      ensures text == Chopped(old(text))
      ensures sp == if old(sp >= len) then old(sp) - (old(len) - len) else Min(old(sp), len)
      ensures line == old(line) - Passed(old(text), len, old(len), old(sp))
      ensures sp >= 0 <==> old(sp) >= 0
      ensures old(CursorIn()) ==> CursorIn() && LineOffset() == old(LineOffset())
    {
      hide Newlines, HashOf, Passed, Chopped;
      ghost var was := text;
      assert was[..len] == was;
      PassedNone(was, sp);
      var c := len - 1;
      while len > 0 && Space(str[c])
        invariant 0 <= len <= old(len) && c == len - 1
        invariant Chopped(was[..len]) == Chopped(was)
        invariant sp == if old(sp >= len) then old(sp) - (old(len) - len) else Min(old(sp), len)
        invariant line == old(line) - Passed(was, len, old(len), old(sp))
        decreases len
        modifies this`len, this`sp, this`line
      {
        ChoppedStep(was, len);
        PassedStep(was, len, old(sp));
        if sp >= len {
          sp := sp - 1;
          if str[c] == '\n' { line := line - 1; }
        }
        len := len - 1;
        c := c - 1;
      }
      ChoppedStep(was, len);
      str[len] := NUL;
      hashkey := -1;
      text := was[..len];
      assert forall i :: 0 <= i < len ==> str[i] == was[i];
      if old(CursorIn()) { ChoppedLines(was, len, old(sp)); }
    }

    static lemma PassedNone(t: string, at: int)
      ensures Passed(t, |t|, |t|, at) == 0
    {
      assert t[|t|..] == "";
    }

    static lemma PassedStep(t: string, len: nat, at: int)
      requires 0 < len <= |t|
      ensures Passed(t, len - 1, |t|, at) == Passed(t, len, |t|, at) + if at >= len && t[len - 1] == '\n' then 1 else 0
    {
      hide Newlines;
      if at >= len {
        var e := Min(at, |t|);
        WindowDown(t, len - 1, e);
        NoNewlines();
        assert e == len ==> t[len..e] == "";
      }
    }

    /** Cutting the text at `len` takes what the cursor had passed behind it out of the count before the cursor. */
    static lemma ChoppedLines(was: string, len: nat, at: nat)
      requires len <= |was| && at <= |was|
      ensures Newlines(was[..len][..Min(at, len)]) == Newlines(was[..at]) - Passed(was, len, |was|, at)
    {
      hide Newlines;
      if at > len {
        NewlinesSplit(was, len, at);
        assert was[..len][..len] == was[..len];
      } else {
        assert was[..len][..at] == was[..at];
      }
    }

    // ----- file operations

    /** The buffer part of `String_putc` at the end of the text. */
    method PutAtEnd(ch: char)
      requires 0 <= len < str.Length && Backed() && len + 2 <= 2 * maxsize
      modifies this`str, this`maxsize, str
      ensures len + 1 < maxsize <= str.Length && (str == old(str) || fresh(str)) && old(maxsize) <= maxsize
      ensures str[..len + 1] == old(str[..len]) + [ch] && str[len + 1] == NUL
    {
      ghost var was := str[..len];
      if len > maxsize - 2 {
        Realloc(maxsize * 2);
      }
      assert str[..len] == was;
      str[len] := ch;
      str[len + 1] := NUL;
    }

    /** Appending doubles the recorded capacity once: enough unless the string is a copy of at most one character. */
    method Putc(ch: char)
      requires Valid() && Backed() && CursorIn() && (sp < len || len + 2 <= 2 * maxsize)
      modifies this, str
      ensures Valid() && Backed() && CursorIn() && (str == old(str) || fresh(str)) && old(maxsize) <= maxsize
      ensures text == if old(sp == len) then old(text) + [ch] else old(text)[old(sp) := ch]
      ensures sp == old(sp) + 1
      ensures LineOffset() == old(LineOffset())
    {
      hide Newlines, HashOf;
      ghost var was := text;
      text := if sp == len then was + [ch] else was[sp := ch];
      NewlinesStep(text, sp);
      assert text[..sp] == was[..sp];
      hashkey := -1;
      if sp >= len {
        PutAtEnd(ch);
        sp := sp + 1;
        len := sp;
      } else {
        str[sp] := ch;
        sp := sp + 1;
        assert str[..len] == was[sp - 1 := ch];
      }
      if ch == '\n' { line := line + 1; }
    }

    method Getc() returns (c: int)
      requires Valid() && 0 <= sp
      modifies this`sp, this`line
      ensures Valid()
      ensures old(sp) >= len ==> c == -1 && sp == old(sp) && line == old(line)
      ensures old(sp) < len ==> c == text[old(sp)] as int && sp == old(sp) + 1
      ensures old(CursorIn()) ==> CursorIn() && LineOffset() == old(LineOffset())
    {
      hide Newlines, HashOf;
      if sp >= len {
        c := EOF;
      } else {
        NewlinesStep(text, sp);
        c := str[sp] as int;
        sp := sp + 1;
      }
      if c == '\n' as int { line := line + 1; }
    }

    /** Pushing back the character just read keeps counter and cursor in step; pushing back another one does so
        exactly when both or neither are newlines. */
    method Ungetc(ch: int) returns (c: int)
      requires Valid()
      modifies this`sp, this`line
      ensures Valid()
      ensures ch == -1 || old(sp) <= 0 ==> c == -1 && sp == old(sp) && line == old(line)
      ensures ch != -1 && old(sp) > 0 ==>
                c == ch && sp == old(sp) - 1 && line == old(line) - if ch == '\n' as int then 1 else 0
      ensures old(CursorIn()) ==>
                && CursorIn()
                && (LineOffset() == old(LineOffset()) <==> sp == old(sp) || (ch == '\n' as int <==> text[sp] == '\n'))
    {
      hide Newlines, HashOf;
      if ch == EOF { return ch; }
      if sp <= 0 { return EOF; }
      if CursorIn() { NewlinesStep(text, sp - 1); }
      sp := sp - 1;
      if ch == '\n' as int { line := line - 1; }
      return ch;
    }

    static function SeekTarget(offset: int, whence: int, sp: int, len: int): int {
      var nsp := if whence == 0 then offset else if whence == 2 then len - offset else sp + offset;
      if nsp < 0 then 0 else if len > 0 && nsp > len then len else nsp
    }

    static function IsNewline(c: char): int {
      if c == '\n' then 1 else 0
    }

    /** A seek counts the newlines from behind the old cursor up to and with the new one, or back again from before
        the old cursor down to and with the new one.  So a backward seek keeps counter and cursor in step, a forward
        one exactly when the characters at the two ends are both newlines or both not.  In the empty string a
        forward seek is not held back: it runs through the buffer, and must not run out of it. */
    method Seek(offset: int, whence: int)
      requires Valid() && CursorIn() && SeekTarget(offset, whence, sp, len) < str.Length
      modifies this`sp, this`line
      ensures Valid() && sp == SeekTarget(offset, whence, old(sp), len) >= 0
      ensures CursorIn() <==> len > 0 || sp == 0
      ensures sp <= old(sp) ==> line == old(line) - Newlines(str[sp..old(sp)]) && LineOffset() == old(LineOffset())
      ensures sp > old(sp) ==> line == old(line) + Newlines(str[old(sp) + 1..sp + 1])
      ensures sp > old(sp) && len > 0 ==>
                LineOffset() == old(LineOffset()) + IsNewline(str[sp]) - IsNewline(str[old(sp)])
    {
      hide Newlines, HashOf;
      var pos, ofs;
      ofs := offset;
      if whence == SEEK_SET {
        pos := 0;
      } else if whence == SEEK_CUR {
        pos := sp;
      } else if whence == SEEK_END {
        pos, ofs := len, -offset;
      } else {
        pos := sp;
      }
      var nsp := pos + ofs;
      if nsp < 0 { nsp := 0; }
      if len > 0 && nsp > len { nsp := len; }
      if nsp > sp { CountUp(nsp); } else { CountDown(nsp); }
      if len > 0 || nsp <= sp { Window(if sp < nsp then sp else nsp, if sp < nsp then nsp else sp); }
      sp := nsp;
    }

    /** The newlines between two places of the text, and those one place further on. */
    lemma Window(a: nat, b: nat)
      requires Valid() && a <= b <= len
      ensures Newlines(text[..b]) == Newlines(text[..a]) + Newlines(str[a..b])
      ensures Newlines(str[a + 1..b + 1]) + IsNewline(str[a]) == Newlines(str[a..b]) + IsNewline(str[b])
    {
      hide Newlines, HashOf;
      ArraySlice(str, len, a, b);
      assert str[a..b] == str[..][a..b] && str[..][a + 1..b + 1] == str[a + 1..b + 1];
      WindowShift(str[..], a, b);
      NewlinesSplit(text, a, b);
    }

    method CountUp(nsp: int)
      requires 0 <= sp < nsp < str.Length
      modifies this`line
      ensures line == old(line) + Newlines(str[sp + 1..nsp + 1])
    {
      hide Newlines;
      var cur := sp;
      NoNewlines();
      assert str[sp + 1..cur + 1] == [];
      while cur != nsp
        invariant sp <= cur <= nsp < str.Length
        invariant line == old(line) + Newlines(str[sp + 1..cur + 1])
        decreases nsp - cur
      {
        WindowUp(str[..], sp + 1, cur + 1);
        assert str[..][sp + 1..cur + 1] == str[sp + 1..cur + 1] && str[..][sp + 1..cur + 2] == str[sp + 1..cur + 2];
        cur := cur + 1;
        if str[cur] == '\n' { line := line + 1; }
      }
    }

    method CountDown(nsp: int)
      requires 0 <= nsp <= sp < str.Length
      modifies this`line
      ensures line == old(line) - Newlines(str[nsp..sp])
    {
      hide Newlines;
      var cur := sp;
      NoNewlines();
      assert str[cur..sp] == [];
      while cur != nsp
        invariant 0 <= nsp <= cur <= sp
        invariant line == old(line) - Newlines(str[cur..sp])
        decreases cur - nsp
      {
        WindowDown(str[..], cur - 1, sp);
        assert str[..][cur - 1..sp] == str[cur - 1..sp] && str[..][cur..sp] == str[cur..sp];
        cur := cur - 1;
        if str[cur] == '\n' { line := line - 1; }
      }
    }

    /** Writing overwrites at the cursor, clamped to the end, and never touches the line counter. */
    method Write(data: string) returns (n: int)
      requires Valid() && Backed() && 0 <= sp
      modifies this, str
      ensures Valid() && Backed() && CursorIn() && (str == old(str) || fresh(str)) && old(maxsize) <= maxsize
      ensures n == |data| && line == old(line)
      ensures var p := if old(sp > len) then old(len) else old(sp);
              && sp == p + |data|
              && text == old(text)[..p] + data + if sp < old(len) then old(text)[sp..] else ""
      ensures old(CursorIn()) ==> LineOffset() == old(LineOffset()) - Newlines(data)
    {
      hide Newlines, HashOf;
      ghost var was := text;
      hashkey := -1;
      n := |data|;
      if sp > len { sp := len; }
      ghost var p := sp;
      len := WriteBuffer(sp, data);
      text := was[..p] + data + if p + n < |was| then was[p + n..] else "";
      assert text[..p + n] == was[..p] + data;
      NewlinesConcat(was[..p], data);
      sp := sp + n;
    }
  }
}
