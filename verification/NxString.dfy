/**
 Growable strings (`src/common/str.c`): a buffer with a NUL behind the text, appending up to a
 limit, and C-style escaping in place.
 */
module NxString {
  import opened Bytes

  // ----- What the operations do to the text

  /** Concatenation, cut off at one byte below the limit. */
  function Appended(q: seq<byte>, s: seq<byte>, limit: nat): (r: seq<byte>) {
    if |q| + |s| + 1 <= limit || s == [] then q + s
    else if |q| + 1 < limit then (q + s)[..limit - 1]
    else q
  }

  const BACKSLASH: byte := 92
  const QUOTE: byte := 39

  /** The letter that stands for a control character. */
  function Letter(b: byte): (r: byte) {
    if b == 10 then 110 else if b == 13 then 114 else if b == 9 then 116 else if b == 8 then 98 else 0
  }

  function Control(c: byte): (r: byte) {
    if c == 110 then 10 else if c == 114 then 13 else if c == 116 then 9 else if c == 98 then 8 else 0
  }

  /** NUL, backslash and the two quotes get a backslash in front. */
  predicate Quoted(b: byte) { b == 0 || b == BACKSLASH || b == QUOTE || b == 34 }

  function EscapeByte(b: byte): (r: seq<byte>)
    ensures 1 <= |r| <= 2
  {
    if Quoted(b) then [BACKSLASH, b]
    else if Letter(b) != 0 then [BACKSLASH, Letter(b)]
    else [b]
  }

  function Escaped(s: seq<byte>): (r: seq<byte>)
    ensures |r| >= |s|
  {
    if s == [] then [] else EscapeByte(s[0]) + Escaped(s[1..])
  }

  predicate Hex(c: byte) { 48 <= c <= 57 || 97 <= c <= 102 || 65 <= c <= 70 }

  function Digit(c: byte): (d: nat)
    ensures d < 16
  {
    if 48 <= c <= 57 then c - 48 else if 97 <= c <= 102 then c - 87 else if 65 <= c <= 70 then c - 55 else 0
  }

  /** A backslash, an x and two digits. */
  predicate HexEscape(s: seq<byte>) {
    |s| >= 4 && s[0] == BACKSLASH && (s[1] == 120 || s[1] == 88) && Hex(s[2]) && Hex(s[3])
  }

  /** A backslash and an x without two digits behind. */
  predicate Malformed(s: seq<byte>) {
    |s| >= 2 && s[0] == BACKSLASH && (s[1] == 120 || s[1] == 88) && !HexEscape(s)
  }

  /** How many bytes the first unit takes, and what it stands for; what is not recognized stands
      for itself. */
  function Unit(s: seq<byte>): (u: (nat, byte))
    requires s != []
    ensures 1 <= u.0 <= |s|
  {
    if s[0] != BACKSLASH || |s| == 1 then (1, s[0])
    else if s[1] == BACKSLASH || s[1] == 34 then (2, s[1])
    else if Control(s[1]) != 0 then (2, Control(s[1]))
    else if HexEscape(s) then (4, Digit(s[2]) * 16 + Digit(s[3]))
    else (1, s[0])
  }

  function Unescaped(s: seq<byte>): (r: seq<byte>)
    ensures |r| <= |s|
  {
    if s == [] then [] else [Unit(s).1] + Unescaped(s[Unit(s).0..])
  }

  /** How many malformed hexadecimal escapes the text has. */
  function BadEscapes(s: seq<byte>): (n: nat) {
    if s == [] then 0 else (if Malformed(s) then 1 else 0) + BadEscapes(s[Unit(s).0..])
  }

  /** Nothing in the text is recognized. */
  predicate Plain(s: seq<byte>) {
    s == [] || (Unit(s).0 == 1 && Plain(s[1..]))
  }

  /** Behind a malformed hexadecimal escape nothing is recognized any more. */
  predicate Tame(s: seq<byte>) {
    s == [] || if Malformed(s) then Plain(s[1..]) else Tame(s[Unit(s).0..])
  }

  lemma {:induction false} NoBadIsTame(s: seq<byte>)
    requires BadEscapes(s) == 0
    ensures Tame(s)
  {
    if s != [] {
      NoBadIsTame(s[Unit(s).0..]);
    }
  }

  // ----- Unescaping undoes escaping

  /** What is left of a NUL-free text after escaping and unescaping: an escaped single quote is not
      recognized. */
  function Requoted(s: seq<byte>): (r: seq<byte>)
    ensures |r| >= |s|
    ensures r == s <==> QUOTE !in s
  {
    if s == [] then [] else RequotedByte(s[0]) + Requoted(s[1..])
  }

  function RequotedByte(b: byte): (r: seq<byte>) {
    if b == QUOTE then [BACKSLASH, QUOTE] else [b]
  }

  lemma {:induction false} EscapedAppend(a: seq<byte>, b: seq<byte>)
    ensures Escaped(a + b) == Escaped(a) + Escaped(b)
  {
    if a == [] {
      assert a + b == b;
    } else {
      assert (a + b)[1..] == a[1..] + b;
      EscapedAppend(a[1..], b);
    }
  }

  lemma {:induction false} EscapedHasNoNul(a: seq<byte>)
    requires 0 !in a
    ensures 0 !in Escaped(a) && 0 !in Requoted(a)
  {
    if a != [] {
      EscapedHasNoNul(a[1..]);
      assert a[0] in a;
    }
  }

  lemma {:induction false} CStringEnds(s: seq<byte>)
    ensures var n := |CString(s)|; CString(s) == s[..n] && 0 !in CString(s) && (n < |s| ==> s[n] == 0)
  {
    if s != [] && s[0] != 0 {
      CStringEnds(s[1..]);
    }
  }

  lemma {:induction false} CStringIs(s: seq<byte>, n: nat)
    requires n <= |s| && 0 !in s[..n] && (n < |s| ==> s[n] == 0)
    ensures CString(s) == s[..n]
  {
    if n > 0 {
      assert s[0] == s[..n][0] && s[..n][1..] == s[1..][..n - 1];
      CStringIs(s[1..], n - 1);
    }
  }

  /** One unit read off the front. */
  lemma UnescapeUnit(u: seq<byte>, t: seq<byte>)
    requires u != [] && !Malformed(u + t) && Unit(u + t).0 == |u|
    ensures Unescaped(u + t) == [Unit(u + t).1] + Unescaped(t) && BadEscapes(u + t) == BadEscapes(t)
  {
    assert (u + t)[|u|..] == t;
  }

  lemma EscapedByteUndone(b: byte, t: seq<byte>)
    requires b != 0
    ensures Unescaped(EscapeByte(b) + t) == RequotedByte(b) + Unescaped(t)
    ensures BadEscapes(EscapeByte(b) + t) == BadEscapes(t)
  {
    hide BadEscapes, Unescaped;
    if b == QUOTE {
      UnescapeUnit([QUOTE], t);
      UnescapeUnit([BACKSLASH], [QUOTE] + t);
      assert EscapeByte(b) + t == [BACKSLASH] + ([QUOTE] + t);
    } else {
      UnescapeUnit(EscapeByte(b), t);
    }
  }

  lemma {:induction false} EscapeUndone(a: seq<byte>, t: seq<byte>)
    requires 0 !in a
    ensures BadEscapes(Escaped(a) + t) == BadEscapes(t)
    ensures Unescaped(Escaped(a) + t) == Requoted(a) + Unescaped(t)
    decreases |a|
  {
    hide BadEscapes, Unescaped, EscapeByte, RequotedByte;
    if a == [] {
      assert Escaped(a) + t == t;
    } else {
      var more := Escaped(a[1..]) + t;
      assert a[0] in a;
      EscapeUndone(a[1..], t);
      EscapedByteUndone(a[0], more);
      assert Escaped(a) + t == EscapeByte(a[0]) + more;
    }
  }

  /** The escaped form of a NUL ends a C string behind its backslash. */
  lemma EscapedNul(a: seq<byte>, more: seq<byte>)
    requires 0 !in a
    ensures CString(Escaped(a)) == Escaped(a)
    ensures CString(Escaped(a + [0] + more)) == Escaped(a) + [BACKSLASH]
  {
    hide CString;
    var e := Escaped(a);
    EscapedHasNoNul(a);
    CStringIs(e, |e|);
    assert a + [0] + more == a + ([0] + more);
    EscapedAppend(a, [0] + more);
    var full := e + Escaped([0] + more);
    assert Escaped([0] + more) == [BACKSLASH, 0] + Escaped(more);
    assert full[..|e| + 1] == e + [BACKSLASH];
    assert full[|e| + 1] == 0;
    CStringIs(full, |e| + 1);
  }

  /** Unescaping gives the text back exactly when it has no NUL and no single quote. */
  lemma RoundTrip(s: seq<byte>)
    ensures BadEscapes(CString(Escaped(s))) == 0
    ensures Unescaped(CString(Escaped(s))) == s <==> 0 !in s && QUOTE !in s
  {
    hide Escaped, Unescaped, Requoted, BadEscapes, CString;
    var a := CString(s);
    CStringEnds(s);
    EscapedHasNoNul(a);
    EscapedNul(a, if |a| < |s| then s[|a| + 1..] else []);
    Small();
    if |a| == |s| {
      assert a == s;
      EscapeUndone(s, []);
      assert Escaped(s) + [] == Escaped(s) && Requoted(s) + [] == Requoted(s);
    } else {
      assert s == a + [0] + s[|a| + 1..];
      EscapeUndone(a, [BACKSLASH]);
      assert s[|a|] == 0;
      assert 0 !in Requoted(a) + [BACKSLASH];
    }
  }

  lemma Small()
    ensures BadEscapes([]) == 0 && BadEscapes([BACKSLASH]) == 0
    ensures Unescaped([]) == [] && Unescaped([BACKSLASH]) == [BACKSLASH]
  {
  }

  // ----- What the escapes are

  /** The escapes of C for these characters: a backslash and the character, or its letter; nothing
      else is escaped. */
  lemma EscapesOfC(b: byte)
    ensures b in {'\\' as int, '\'' as int, '\"' as int, 0} ==> EscapeByte(b) == ['\\' as int, b]
    ensures EscapeByte('\n' as int) == ['\\' as int, 'n' as int]
    ensures EscapeByte('\r' as int) == ['\\' as int, 'r' as int]
    ensures EscapeByte('\t' as int) == ['\\' as int, 't' as int]
    ensures EscapeByte(8) == ['\\' as int, 'b' as int]
    ensures b !in {0, 8, '\n' as int, '\r' as int, '\t' as int, '\\' as int, '\'' as int, '\"' as int} ==>
              EscapeByte(b) == [b]
  {
  }

  const LOWER := "0123456789abcdef"
  const UPPER := "0123456789ABCDEF"

  /** A byte as a hexadecimal escape, in any of the ways to write one. */
  function HexForm(b: byte, capitalX: bool, upper: (bool, bool)): (r: seq<byte>)
    ensures |r| == 4
  {
    var high, low := b / 16, b % 16;
    ['\\' as int, if capitalX then 'X' as int else 'x' as int,
     (if upper.0 then UPPER[high] else LOWER[high]) as int,
     (if upper.1 then UPPER[low] else LOWER[low]) as int]
  }

  lemma DigitsAreHex(d: nat, upper: bool)
    requires d < 16
    ensures var c: int := (if upper then UPPER[d] else LOWER[d]) as int; c < 256 && Hex(c) && Digit(c) == d
  {
  }

  /** A hexadecimal escape stands for its byte, however it is written and whatever follows. */
  lemma HexFormMeans(b: byte, capitalX: bool, upper: (bool, bool), t: seq<byte>)
    ensures var u := HexForm(b, capitalX, upper);
            Unescaped(u + t) == [b] + Unescaped(t) && BadEscapes(u + t) == BadEscapes(t)
  {
    hide Unescaped, BadEscapes, Hex, Digit;
    DigitsAreHex(b / 16, upper.0);
    DigitsAreHex(b % 16, upper.1);
    var u := HexForm(b, capitalX, upper);
    assert HexEscape(u + t);
    UnescapeUnit(u, t);
  }

  // ----- The buffer

  class NxString {
    var buf: array<byte>
    var len: nat

    ghost predicate Valid()
      reads this, buf
    {
      len < buf.Length && buf[len] == 0
    }

    ghost function Text(): (t: seq<byte>)
      reads this, buf
      requires Valid()
    {
      buf[..len]
    }

    /** An empty text in a buffer of the given size. */
    constructor (size: nat)
      requires size > 0
      ensures Valid() && Text() == [] && fresh(buf) && buf.Length == size
    {
      buf := new byte[size](_ => 0);
      len := 0;
    }

    /** Room for more than `n` bytes; false, with nothing changed, beyond the limit. */
    method EnsureSize(n: nat, limit: nat) returns (ok: bool)
      requires len <= buf.Length
      modifies this`buf
      ensures ok == (old(buf.Length) > n || n <= limit)
      ensures ok ==> buf.Length > n || old(buf.Length) == 0
      ensures buf == old(buf) || (ok && fresh(buf) && buf.Length == old(buf.Length) + n && old(buf.Length) <= n)
      ensures buf[..old(buf.Length)] == old(buf[..])
    {
      if buf.Length > n {
        return true;
      }
      if n > limit {
        return false;
      }
      var b := new byte[buf.Length + n](_ => 0);
      Copy(b, 0, buf[..]);
      buf := b;
      return true;
    }

    /** Room for `n` bytes of a text to be stored; a large buffer is replaced by one of that size. */
    method SetLen(n: nat, limit: nat) returns (ok: bool)
      requires n > 0 && 0 < buf.Length && len <= buf.Length
      modifies this`buf
      ensures ok == (old(buf.Length) > n || n <= limit)
      ensures ok ==> buf.Length >= n
      ensures !ok ==> buf == old(buf)
      ensures buf == old(buf) || fresh(buf)
    {
      if buf.Length > 1024 && buf.Length > n {
        buf := new byte[n](_ => 0);
        return true;
      } else if buf.Length <= n {
        ok := EnsureSize(n, limit);
      } else {
        return true;
      }
    }

    /** Stores a text; fails, changing nothing, if the text with its NUL is over the limit and the
        buffer is too small for more than it. */
    method Set(src: seq<byte>, limit: nat) returns (ok: bool)
      requires Valid()
      modifies this, buf
      ensures Valid() && ok == (old(buf.Length) > |src| + 1 || |src| + 1 <= limit)
      ensures Text() == if ok then src else old(Text())
      ensures buf == old(buf) || fresh(buf)
    {
      ok := SetLen(|src| + 1, limit);
      if ok {
        Copy(buf, 0, src);
        len := |src|;
        buf[len] := 0;
      }
    }

    method Append(src: seq<byte>, limit: nat)
      requires Valid() && limit > 0
      modifies this, buf
      ensures Valid() && Text() == Appended(old(Text()), src, limit)
      ensures buf == old(buf) || fresh(buf)
    {
      ghost var t := Text();
      if |src| == 0 {
        return;
      }
      if len + |src| + 1 > limit {
        var n := limit - 1;
        if len < n {
          var _ := EnsureSize(n + 1, limit);
          assert buf[..len] == t;
          Store(src[..n - len]);
          assert t + src[..n - |t|] == (t + src)[..n];
        }
      } else {
        var _ := EnsureSize(len + |src| + 1, limit);
        assert buf[..len] == t;
        Store(src);
      }
    }

    /** Bytes behind the text, and a new NUL. */
    method Store(src: seq<byte>)
      requires len + |src| < buf.Length
      modifies this`len, buf
      ensures Valid() && len == old(len) + |src| && Text() == old(buf[..len]) + src
    {
      Copy(buf, len, src);
      len := len + |src|;
      buf[len] := 0;
    }

    /** Makes room for one byte at `at`; what follows moves up. */
    method Widen(at: nat, limit: nat) returns (ok: bool)
      requires Valid() && at <= len
      modifies this, buf
      ensures Valid() && ok == (old(buf.Length) > old(len) + 1 || old(len) + 2 <= limit)
      ensures ok ==> |Text()| == |old(Text())| + 1
      ensures ok ==> Text()[..at] == old(Text())[..at] && Text()[at + 1..] == old(Text())[at..]
      ensures ok ==> buf.Length == if old(buf.Length) > old(len) + 1 then old(buf.Length) else 2 * old(buf.Length) + 1
      ensures !ok ==> Text() == old(Text())
      ensures buf == old(buf) || fresh(buf)
    {
      ghost var t := Text();
      ok := true;
      if buf.Length <= len + 1 {
        ok := EnsureSize(len + 2, limit);
        assert buf[..len] == t;
      }
      if ok {
        Copy(buf, at + 1, buf[at..len]);
        len := len + 1;
        buf[len] := 0;
      }
    }

    method Put(i: nat, b: byte)
      requires Valid() && i < len
      modifies buf
      ensures Valid() && Text() == old(Text())[i := b]
    {
      buf[i] := b;
    }

    /** Puts an escape sequence in place of the byte at `i`. */
    method EscapeAt(i: nat, limit: nat) returns (ok: bool, n: nat)
      requires Valid() && i < len
      modifies this, buf
      ensures Valid() && n == |EscapeByte(old(Text())[i])|
      ensures ok == (|EscapeByte(old(Text())[i])| == 1 || old(buf.Length) > old(len) + 1 || old(len) + 2 <= limit)
      ensures Text() == if ok then Replaced(old(Text()), i) else old(Text())
      ensures ok && (n == 1 || old(buf.Length) > old(len) + 1) ==> buf.Length == old(buf.Length)
      ensures ok && n != 1 && old(buf.Length) <= old(len) + 1 ==> buf.Length == 2 * old(buf.Length) + 1
      ensures buf == old(buf) || fresh(buf)
    {
      ghost var t := Text();
      var b := buf[i];
      assert b == t[i];
      n := |EscapeByte(b)|;
      if Quoted(b) {
        ok := Widen(i, limit);
        if ok {
          ghost var wide := Text();
          Put(i, BACKSLASH);
          WideQuoted(t, i, wide);
        }
      } else if Letter(b) != 0 {
        ok := Widen(i + 1, limit);
        if ok {
          ghost var wide := Text();
          Put(i, BACKSLASH);
          Put(i + 1, Letter(b));
          WideControl(t, i, wide);
        }
      } else {
        assert t == Replaced(t, i);
        ok := true;
      }
    }

    /** One step of `Escape`, when the first `done` bytes of `t` are escaped. */
    method EscapeNext(i: nat, limit: nat, ghost t: seq<byte>, ghost done: nat) returns (ok: bool, n: nat)
      requires Valid() && done <= |t| && Text() == Escaped(t[..done]) + t[done..] && i == |Escaped(t[..done])| < len
      modifies this, buf
      ensures Valid() && done < |t|
      ensures ok ==> Text() == Escaped(t[..done + 1]) + t[done + 1..] && i + n == |Escaped(t[..done + 1])|
      ensures !ok ==> Text() == old(Text()) && !Reaches(|Escaped(t)|, old(buf.Length), limit)
      ensures ok ==> (Reaches(|Escaped(t)|, buf.Length, limit) <==> Reaches(|Escaped(t)|, old(buf.Length), limit))
      ensures buf == old(buf) || fresh(buf)
    {
      hide EscapeByte, Escaped, Replaced, Reaches;
      EscapedStep(t, done, Text());
      ReachesOn(|Escaped(t)|, buf.Length, limit);
      ok, n := EscapeAt(i, limit);
    }

    /** Escapes the text in place.  It fails exactly when the buffer cannot grow to the escaped
        text, leaving the first `done` bytes escaped. */
    method Escape(limit: nat) returns (ok: bool, ghost done: nat)
      requires Valid()
      modifies this, buf
      ensures Valid() && done <= |old(Text())|
      ensures Text() == Escaped(old(Text())[..done]) + old(Text())[done..]
      ensures ok ==> done == |old(Text())| && Text() == Escaped(old(Text()))
      ensures ok <==> Reaches(|Escaped(old(Text()))|, old(buf.Length), limit)
      ensures buf == old(buf) || fresh(buf)
    {
      hide EscapeByte, Escaped, Replaced, Reaches;
      ghost var t := Text();
      ghost var full, size := |Escaped(t)|, buf.Length;
      var i := 0;
      done := 0;
      EscapedNothing(t);
      while i < len
        invariant Valid() && done <= |t| && i == |Escaped(t[..done])|
        invariant Text() == Escaped(t[..done]) + t[done..]
        invariant Reaches(full, buf.Length, limit) <==> Reaches(full, size, limit)
        invariant buf == old(buf) || fresh(buf)
        decreases |t| - done
      {
        var n;
        ok, n := EscapeNext(i, limit, t, done);
        if !ok {
          return;
        }
        i, done := i + n, done + 1;
      }
      assert done == |t| && t[..done] == t && t[done..] == [];
      ReachesOn(full, buf.Length, limit);
      ok := true;
    }
  }

  /** A buffer of `size` bytes that doubles, and one more, as long as it stays within the limit gets
      room for `n` bytes and a NUL. */
  predicate Reaches(n: nat, size: nat, limit: nat)
    decreases if n < size then 0 else n + 1 - size
  {
    n < size || (size + 1 <= limit && Reaches(n, 2 * size + 1, limit))
  }

  lemma ReachesOn(n: nat, size: nat, limit: nat)
    ensures n < size ==> Reaches(n, size, limit)
    ensures n >= size ==> (Reaches(n, size, limit) <==> size + 1 <= limit && Reaches(n, 2 * size + 1, limit))
  {
  }

  /** Texts below the limit are always reached. */
  lemma {:induction false} BelowLimit(n: nat, size: nat, limit: nat)
    requires n < limit
    ensures Reaches(n, size, limit)
    decreases if n < size then 0 else n + 1 - size
  {
    if n >= size {
      BelowLimit(n, 2 * size + 1, limit);
    }
  }

  function Replaced(t: seq<byte>, i: nat): (r: seq<byte>)
    requires i < |t|
  {
    t[..i] + EscapeByte(t[i]) + t[i + 1..]
  }

  lemma WideQuoted(t: seq<byte>, i: nat, wide: seq<byte>)
    requires i < |t| && Quoted(t[i])
    requires |wide| == |t| + 1 && wide[..i] == t[..i] && wide[i + 1..] == t[i..]
    ensures wide[i := BACKSLASH] == Replaced(t, i)
  {
    assert t[i..] == [t[i]] + t[i + 1..];
    assert wide[i := BACKSLASH] == wide[..i] + [BACKSLASH] + wide[i + 1..];
  }

  lemma WideControl(t: seq<byte>, i: nat, wide: seq<byte>)
    requires i < |t| && !Quoted(t[i]) && Letter(t[i]) != 0
    requires |wide| == |t| + 1 && wide[..i + 1] == t[..i + 1] && wide[i + 2..] == t[i + 1..]
    ensures wide[i := BACKSLASH][i + 1 := Letter(t[i])] == Replaced(t, i)
  {
    assert wide[..i] == wide[..i + 1][..i] == t[..i + 1][..i] == t[..i];
    var c := Letter(t[i]);
    assert wide[i := BACKSLASH][i + 1 := c] == wide[..i] + [BACKSLASH, c] + wide[i + 2..];
  }

  lemma EscapedNothing(t: seq<byte>)
    ensures Escaped(t[..0]) == [] && t[0..] == t
  {
  }

  /** Replacing the next byte of a text escaped up to `k`. */
  lemma EscapedStep(t: seq<byte>, k: nat, now: seq<byte>)
    requires k <= |t| && now == Escaped(t[..k]) + t[k..] && |Escaped(t[..k])| < |now|
    ensures k < |t| && now[|Escaped(t[..k])|] == t[k]
    ensures Replaced(now, |Escaped(t[..k])|) == Escaped(t[..k + 1]) + t[k + 1..]
    ensures |Escaped(t[..k + 1])| == |Escaped(t[..k])| + |EscapeByte(t[k])|
    ensures |Escaped(t)| >= |now| - 1 + |EscapeByte(t[k])|
  {
    hide EscapeByte, Escaped;
    var e := Escaped(t[..k]);
    assert t[..k + 1] == t[..k] + [t[k]];
    EscapedAppend(t[..k], [t[k]]);
    EscapedOne(t[k]);
    assert t == t[..k + 1] + t[k + 1..];
    EscapedAppend(t[..k + 1], t[k + 1..]);
    assert now[..|e|] == e && now[|e| + 1..] == t[k + 1..];
  }

  lemma EscapedOne(b: byte)
    ensures Escaped([b]) == EscapeByte(b)
  {
    assert Escaped([b]) == EscapeByte(b) + [];
  }

  // ----- Unescaping a C string in place

  /** The C string in the array is `t`. */
  ghost predicate Holds(str: array<byte>, t: seq<byte>)
    reads str
  {
    |t| < str.Length && str[..|t|] == t && str[|t|] == 0
  }

  method StringLength(str: array<byte>, ghost t: seq<byte>) returns (n: nat)
    requires Holds(str, t) && 0 !in t
    ensures n == |t|
  {
    n := 0;
    At(str, t, n);
    while str[n] != 0
      invariant n <= |t| && n < str.Length && (str[n] == 0 <==> n == |t|)
      decreases |t| - n
    {
      n := n + 1;
      At(str, t, n);
    }
  }

  lemma At(str: array<byte>, t: seq<byte>, k: nat)
    requires Holds(str, t) && k <= |t|
    ensures k < str.Length && str[k] == if k < |t| then t[k] else 0
    ensures 0 !in t[k..] ==> (str[k] == 0 <==> k == |t|)
  {
    assert k < |t| ==> str[..|t|][k] == str[k] && t[k] == t[k..][0];
  }

  /** Takes `n` bytes out of the text at `at`; the rest and the NUL move down. */
  method Close(str: array<byte>, ghost t: seq<byte>, len: nat, at: nat, n: nat)
    requires Holds(str, t) && len == |t| && at + n <= len
    modifies str
    ensures Holds(str, t[..at] + t[at + n..])
  {
    ghost var all := str[..];
    Copy(str, at, str[at + n..len + 1]);
    assert all[at + n..len + 1] == t[at + n..] + [0];
    ghost var r := t[..at] + t[at + n..];
    assert str[..][..at] == t[..at];
    assert str[..][at..len + 1 - n] == t[at + n..] + [0];
    assert str[..len + 1 - n] == str[..][..at] + str[..][at..len + 1 - n] == r + [0];
    assert str[..len + 1 - n][len - n] == 0;
  }

  /** The byte at `i` becomes `b`, and the `n` bytes behind it go. */
  method Shrink(str: array<byte>, ghost t: seq<byte>, len: nat, i: nat, n: nat, b: byte)
    requires Holds(str, t) && len == |t| && i + n < len
    modifies str
    ensures Holds(str, t[..i] + [b] + t[i + 1 + n..])
  {
    str[i] := b;
    ghost var w := t[i := b];
    assert str[..|w|] == w;
    Close(str, w, len, i + 1, n);
    assert w[..i + 1] == t[..i] + [b] && w[i + 1 + n..] == t[i + 1 + n..];
  }

  /** The unit at `i`: how many bytes it takes, what it stands for, and whether it is a malformed
      hexadecimal escape. */
  method ReadUnit(str: array<byte>, ghost t: seq<byte>, i: nat) returns (n: nat, b: byte, bad: bool)
    requires Holds(str, t) && i < |t| && 0 !in t[i..]
    ensures (n, b) == Unit(t[i..]) && bad == Malformed(t[i..])
  {
    hide Holds, Digit, Control;
    ghost var u := t[i..];
    At(str, t, i);
    At(str, t, i + 1);
    var c := str[i + 1];
    ControlIsText();
    n, b, bad := 1, str[i], false;
    if str[i] == BACKSLASH {
      assert i + 1 < |t| ==> u[1] == c;
      if c == BACKSLASH || c == 34 {
        n, b := 2, c;
      } else if Control(c) != 0 {
        n, b := 2, Control(c);
      } else if c == 120 || c == 88 {
        bad := true;
        var ok := HexAt(str, t, i + 2);
        assert i + 2 < |t| ==> u[2] == t[i + 2];
        if ok {
          ok := HexAt(str, t, i + 3);
          assert i + 3 < |t| ==> u[3] == t[i + 3];
          if ok {
            n, b, bad := 4, Digit(str[i + 2]) * 16 + Digit(str[i + 3]), false;
          }
        }
      }
    }
  }

  /** Whether a hexadecimal digit stands at `k`; the NUL behind the text is none. */
  method HexAt(str: array<byte>, ghost t: seq<byte>, k: nat) returns (ok: bool)
    requires Holds(str, t) && k <= |t|
    ensures ok <==> k < |t| && Hex(t[k])
    ensures ok ==> k < str.Length && str[k] == t[k]
  {
    hide Holds;
    At(str, t, k);
    ok := Hex(str[k]);
  }

  lemma ControlIsText()
    ensures Control(0) == 0 && Control(120) == 0 && Control(88) == 0
  {
  }

  /** The length as an unsigned machine integer. */
  function SizeT(x: int): (r: nat) { x % TWO64 }

  lemma SizeTOfDifference(x: int, d: int)
    ensures (SizeT(x) - d) % TWO64 == SizeT(x - d)
    ensures 0 <= x < TWO64 ==> SizeT(x) == x
  {
  }

  /** Puts what the unit at `i`, the first of `rest`, stands for in its place, unless the length the
      move works with has been made too small by `seen` malformed escapes. */
  method UnescapeAt(str: array<byte>, ghost out: seq<byte>, ghost rest: seq<byte>, len: nat, seen: nat, i: nat)
    returns (ok: bool, len': nat, seen': nat)
    requires Holds(str, out + rest) && i == |out| && rest != [] && 0 !in rest
    requires |out + rest| < TWO64 && len == SizeT(|out + rest| - 3 * seen)
    modifies str
    ensures ok <==> Unit(rest).0 == 1 || seen == 0
    ensures !ok ==> Holds(str, out + rest) && len' == len && seen' == seen
    ensures ok ==> Holds(str, out + [Unit(rest).1] + rest[Unit(rest).0..])
    ensures ok ==> seen' == seen + (if Malformed(rest) then 1 else 0)
    ensures ok ==> len' == SizeT(|out| + 1 + |rest| - Unit(rest).0 - 3 * seen')
  {
    hide Holds, Unit, Malformed, SizeT;
    ghost var now := out + rest;
    assert now[i..] == rest && now[..i] == out;
    var n, b, bad := ReadUnit(str, now, i);
    OneByteUnit(rest);
    ok, len', seen' := true, len, seen;
    if n > 1 {
      if seen > 0 {
        ok := false;
        return;
      }
      SizeTOfDifference(|now|, n - 1);
      Shrink(str, now, len, i, n - 1, b);
      assert now[i + n..] == rest[n..];
      len' := (len + 1 - n) % TWO64;
    } else {
      assert now == out + [rest[0]] + rest[1..];
    }
    if bad {
      SizeTOfDifference(|now| - 3 * seen, 3);
      len', seen' := (len' - 3) % TWO64, seen + 1;
    }
  }

  /** Behind `seen` malformed escapes nothing goes wrong any more. */
  predicate Fine(s: seq<byte>, seen: nat) { if seen == 0 then Tame(s) else Plain(s) }

  /** `nx_string_unescape_c`: the C string `t` in the array is replaced by what it stands for.  For
      each malformed hexadecimal escape the length returned is 3 too small.  `ok` is false if a
      recognized escape follows a malformed one: then the move for it works with the length that is
      too small, and the array is shown as it was just before that move. */
  method Unescape(str: array<byte>, ghost t: seq<byte>)
    returns (ok: bool, len: nat, ghost out: seq<byte>, ghost rest: seq<byte>, seen: nat)
    requires Holds(str, t) && 0 !in t && |t| < TWO64
    modifies str
    ensures ok <==> Tame(t)
    ensures Holds(str, out + rest) && Unescaped(t) == out + Unescaped(rest) && BadEscapes(t) == seen + BadEscapes(rest)
    ensures len == SizeT(|out + rest| - 3 * seen)
    ensures ok ==> rest == []
    ensures !ok ==> rest != [] && Unit(rest).0 > 1 && seen > 0
  {
    hide Holds, Fine, Unescaped, BadEscapes, Unit, Malformed, SizeT;
    len := StringLength(str, t);
    var i := 0;
    seen := 0;
    out, rest := [], t;
    ok := true;
    ghost var now := t;
    assert now[i..] == rest;
    At(str, now, i);
    SizeTOfDifference(|t|, 0);
    FineOrTame(t);
    while str[i] != 0
      invariant now == out + rest && i == |out| && |now| < TWO64 && Holds(str, now)
      invariant len == SizeT(|now| - 3 * seen)
      invariant i < str.Length && (str[i] == 0 <==> rest == [])
      invariant 0 !in rest && Unescaped(t) == out + Unescaped(rest) && BadEscapes(t) == seen + BadEscapes(rest)
      invariant Tame(t) <==> Fine(rest, seen)
      decreases |rest|
    {
      UnescapeStep(rest, seen);
      ghost var unit := Unit(rest);
      ok, len, seen := UnescapeAt(str, out, rest, len, seen, i);
      if !ok {
        return;
      }
      out, rest := out + [unit.1], rest[unit.0..];
      now := out + rest;
      i := i + 1;
      assert now[i..] == rest;
      At(str, now, i);
    }
    FineOrTame(rest);
  }

  lemma FineOrTame(s: seq<byte>)
    ensures Fine(s, 0) == Tame(s)
    ensures s == [] ==> forall seen: nat :: Fine(s, seen)
  {
  }

  lemma UnescapeStep(s: seq<byte>, seen: nat)
    requires s != []
    ensures Unescaped(s) == [Unit(s).1] + Unescaped(s[Unit(s).0..])
    ensures BadEscapes(s) == (if Malformed(s) then 1 else 0) + BadEscapes(s[Unit(s).0..])
    ensures var more := seen + if Malformed(s) then 1 else 0;
            Fine(s, seen) <==> (Unit(s).0 == 1 || seen == 0) && Fine(s[Unit(s).0..], more)
  {
    OneByteUnit(s);
    hide Unit, Malformed;
  }

  /** How many bytes, the NUL included, the move for the recognized escape in front of `rest` has to
      take along. */
  function ToMove(rest: seq<byte>): (n: nat)
    requires rest != []
  {
    if |rest| > 1 && rest[1] == 34 then |rest| else |rest| + 1 - Unit(rest).0
  }

  /** The size the code computes for that move, with a length that is 3 too small for each of `seen`
      malformed escapes. */
  function MoveSize(out: seq<byte>, rest: seq<byte>, seen: nat): (n: nat)
    requires rest != []
  {
    var len := SizeT(|out + rest| - 3 * seen);
    var i := |out|;
    if |rest| > 1 && rest[1] == 34 then SizeT(len - i) else SizeT(len - i - (Unit(rest).0 - 1))
  }

  /** The move takes along what it has to if and only if no malformed escape was seen; it stays
      within the string if and only if it has at least 3 bytes to move for each of them. */
  lemma MoveIsRight(out: seq<byte>, rest: seq<byte>, seen: nat)
    requires rest != [] && Unit(rest).0 > 1 && |out + rest| + 3 * seen < TWO63
    ensures MoveSize(out, rest, seen) == ToMove(rest) <==> seen == 0
    ensures MoveSize(out, rest, seen) <= ToMove(rest) <==> 3 * seen <= ToMove(rest)
  {
    hide Unit;
    var x := |out + rest| - 3 * seen;
    var d := if |rest| > 1 && rest[1] == 34 then |out| else |out| + Unit(rest).0 - 1;
    SizeTOfDifference(x, d);
    assert MoveSize(out, rest, seen) == SizeT(x - d);
    assert x - d == ToMove(rest) - 3 * seen;
  }

  /** A malformed escape and a newline: the size of the second move wraps around.  A malformed escape
      alone returns the largest length there is. */
  lemma MalformedThenNewline()
    ensures var out, rest := [BACKSLASH, 120], [BACKSLASH, 110];
            !Tame(out + rest) && MoveSize(out, rest, 1) == TWO64 - 2 > ToMove(rest)
    ensures var t := [BACKSLASH, 120]; Tame(t) && SizeT(|Unescaped(t)| - 3 * BadEscapes(t)) == TWO64 - 1
  {
    var out: seq<byte>, rest: seq<byte> := [BACKSLASH, 120], [BACKSLASH, 110];
    assert Malformed(out + rest) && (out + rest)[1..] == [120] + rest;
    assert ([120] + rest)[1..] == rest && Unit(rest).0 == 2;
    assert !Plain([120] + rest);
    assert out[1..] == [120] && [120][1..] == [];
    assert BadEscapes([120]) == 0 && Unescaped([120]) == [120];
  }

  lemma OneByteUnit(s: seq<byte>)
    requires s != []
    ensures Unit(s).0 == 1 ==> Unit(s).1 == s[0]
    ensures Malformed(s) ==> Unit(s).0 == 1
  {
  }

  /** Unescaping what escaping made of `t` gives `t` back exactly if it has no NUL and no single
      quote. */
  method UnescapeBack(str: array<byte>, ghost t: seq<byte>) returns (len: nat)
    requires |Escaped(t)| < str.Length && str[..|Escaped(t)|] == Escaped(t) && str[|Escaped(t)|] == 0
    requires |Escaped(t)| < TWO64
    modifies str
    ensures len <= str.Length
    ensures str[..len] == t <==> 0 !in t && QUOTE !in t
  {
    hide Escaped, Unescaped, BadEscapes, CString, Tame, SizeT;
    ghost var c := CString(Escaped(t));
    CStringEnds(Escaped(t));
    RoundTrip(t);
    NoBadIsTame(c);
    assert Holds(str, c);
    var fine, seen;
    ghost var out, rest;
    fine, len, out, rest, seen := Unescape(str, c);
    UnescapedNothing();
    SizeTOfDifference(|out|, 0);
    assert out + rest == out == Unescaped(c);
  }

  lemma UnescapedNothing()
    ensures Unescaped([]) == [] && BadEscapes([]) == 0
  {
  }

  /** Escaped and unescaped in place: the buffer holds the text again exactly if the text has no
      NUL and no single quote. */
  method ThereAndBack(str: NxString, limit: nat) returns (ok: bool, len: nat)
    requires str.Valid() && |Escaped(str.Text())| < TWO64
    modifies str, str.buf
    ensures ok <==> Reaches(|Escaped(old(str.Text()))|, old(str.buf.Length), limit)
    ensures |Escaped(old(str.Text()))| < limit ==> ok
    ensures ok ==> len <= str.buf.Length
    ensures ok ==>
      (str.buf[..len] == old(str.Text()) <==> 0 !in old(str.Text()) && QUOTE !in old(str.Text()))
  {
    hide Escaped, Reaches;
    ghost var t := str.Text();
    ghost var done;
    if |Escaped(t)| < limit {
      BelowLimit(|Escaped(t)|, str.buf.Length, limit);
    }
    ok, done := str.Escape(limit);
    len := 0;
    if ok {
      len := UnescapeBack(str.buf, t);
    }
  }
}
