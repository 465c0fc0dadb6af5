/**
 The line reader (`nx_module_input_func_linereader` in `src/common/readerfuncs.c`): lines put
 together from whatever pieces the input arrives in.
 */
module LineReader {
  import opened Bytes
  import Codec
  import NxString
  import opened Options

  const LF: byte := 10
  const CR: byte := 13
  /** Position of the first LF, or the length when there is none. */
  function FindLF(p: seq<byte>): (i: nat)
    ensures i <= |p|
    ensures i < |p| ==> p[i] == LF
  {
    if p == [] || p[0] == LF then 0 else 1 + FindLF(p[1..])
  }

  // ----- What the lines of a stream are

  function StripCR(s: seq<byte>): (r: seq<byte>)
    ensures |r| <= |s|
  {
    if s != [] && s[|s| - 1] == CR then s[..|s| - 1] else s
  }

  /** The terminated lines, without LF and without one CR in front of it. */
  function Lines(s: seq<byte>): (r: seq<seq<byte>>)
    decreases |s|
  {
    var i := FindLF(s);
    if i == |s| then [] else [StripCR(s[..i])] + Lines(s[i + 1..])
  }

  /** What follows the last LF. */
  function Tail(s: seq<byte>): (r: seq<byte>)
    ensures FindLF(r) == |r|
    decreases |s|
  {
    var i := FindLF(s);
    if i == |s| then s else Tail(s[i + 1..])
  }

  /** Every stretch without LF is shorter than the string limit. */
  predicate Short(s: seq<byte>, limit: nat)
    decreases |s|
  {
    var i := FindLF(s);
    i < limit && (i < |s| ==> Short(s[i + 1..], limit))
  }

  /** A line as it is written: with or without a CR in front of its LF. */
  function WrittenLine(l: seq<byte>, crlf: bool): (r: seq<byte>) { l + if crlf then [CR, LF] else [LF] }

  function Written(ls: seq<seq<byte>>, crlf: seq<bool>): (s: seq<byte>)
    requires |crlf| == |ls|
  {
    if ls == [] then [] else WrittenLine(ls[0], crlf[0]) + Written(ls[1..], crlf[1..])
  }

  /** A line that can be told from its ending. */
  predicate Writable(l: seq<byte>, crlf: bool) {
    LF !in l && (!crlf ==> l == [] || l[|l| - 1] != CR)
  }

  lemma FirstWritten(l: seq<byte>, crlf: bool, more: seq<byte>)
    requires Writable(l, crlf)
    ensures Lines(WrittenLine(l, crlf) + more) == [l] + Lines(more)
    ensures Tail(WrittenLine(l, crlf) + more) == Tail(more)
  {
    var s := WrittenLine(l, crlf) + more;
    var i := |l| + if crlf then 1 else 0;
    FindIs(s, i);
    assert s[i + 1..] == more;
    assert StripCR(s[..i]) == l;
  }

  /** The lines of a text are the ones that were written, whatever the line ends, and its tail is what
      follows them. */
  lemma {:induction false} LinesAreThoseWritten(ls: seq<seq<byte>>, crlf: seq<bool>, tail: seq<byte>)
    requires |crlf| == |ls| && LF !in tail && forall i :: 0 <= i < |ls| ==> Writable(ls[i], crlf[i])
    ensures Lines(Written(ls, crlf) + tail) == ls && Tail(Written(ls, crlf) + tail) == tail
    decreases |ls|
  {
    hide Lines, Tail, WrittenLine, Writable;
    if ls == [] {
      assert [] + tail == tail;
      NoLines(tail);
    } else {
      var more := Written(ls[1..], crlf[1..]) + tail;
      LinesAreThoseWritten(ls[1..], crlf[1..], tail);
      FirstWritten(ls[0], crlf[0], more);
      assert Written(ls, crlf) + tail == WrittenLine(ls[0], crlf[0]) + more;
      assert [ls[0]] + ls[1..] == ls;
    }
  }

  lemma NoLines(tail: seq<byte>)
    requires LF !in tail
    ensures Lines(tail) == [] && Tail(tail) == tail
  {
    FindIs(tail, |tail|);
  }

  // ----- One call of the reader, on the bytes received and not yet consumed

  datatype Outcome = Line(line: seq<byte>) | Nothing | Thrown | Delegated

  /** Result, unfinished line and unread bytes after a call. */
  datatype Call = Call(outcome: Outcome, partial: Option<seq<byte>>, rest: seq<byte>)

  /** Bytes consumed when the LF is at `i`: a NUL right behind it goes with it. */
  function Consumed(p: seq<byte>, i: nat): (n: nat)
    requires i < |p|
    ensures i < n <= |p|
  {
    if i + 1 < |p| && p[i + 1] == 0 then i + 2 else i + 1
  }

  /** Length of the line text when the LF is at `i`: without a CR, or a CR NUL, in front. */
  function TextLength(p: seq<byte>, i: nat): (n: nat)
    requires i <= |p|
    ensures n <= i
  {
    if i > 0 && p[i - 1] == CR then i - 1
    else if i > 1 && p[i - 1] == 0 && p[i - 2] == CR then i - 2
    else i
  }

  /** The call when there is an LF, at `i`. */
  function TakeLine(partial: Option<seq<byte>>, p: seq<byte>, i: nat, limit: nat): (c: Call)
    requires i < |p|
    ensures c.outcome.Line? ==> |c.rest| < |p|
  {
    var text := p[..TextLength(p, i)];
    var rest := p[Consumed(p, i)..];
    match partial
    case None => if |text| > limit then Call(Thrown, None, p) else Call(Line(text), None, rest)
    case Some(q) => Call(Line(if text == [] then StripCR(q) else NxString.Appended(q, text, limit)), None, rest)
  }

  /** The call when there is none: everything goes to the unfinished line. */
  function KeepPart(partial: Option<seq<byte>>, p: seq<byte>, limit: nat): (c: Call)
    ensures !c.outcome.Line?
  {
    match partial
    case None => if |p| > limit then Call(Thrown, None, p) else Call(Nothing, Some(p), [])
    case Some(q) => Call(Nothing, Some(NxString.Appended(q, p, limit)), [])
  }

  function ReadLine(partial: Option<seq<byte>>, p: seq<byte>, limit: nat): (c: Call)
    ensures c.outcome.Line? ==> |c.rest| < |p|
  {
    if p == [] then Call(Nothing, partial, p)
    else if partial == None && Codec.HEADER <= p then Call(Delegated, None, p)
    else if FindLF(p) < |p| then TakeLine(partial, p, FindLF(p), limit)
    else KeepPart(partial, p, limit)
  }

  // ----- The reader on its buffer

  class LineInput {
    const buf: array<byte>
    var bufstart: nat
    var buflen: nat
    var partial: Option<seq<byte>>

    constructor (bufsize: nat)
      ensures buf.Length == bufsize && fresh(buf) && bufstart == 0 && buflen == 0 && partial == None
    {
      buf := new byte[bufsize];
      bufstart, buflen, partial := 0, 0, None;
    }

    ghost predicate Valid()
      reads this
    {
      bufstart + buflen <= buf.Length
    }

    ghost function Pending(): (p: seq<byte>)
      requires Valid()
      reads this, buf
      ensures |p| == buflen
    {
      buf[bufstart..bufstart + buflen]
    }

    /** Socket data into a buffer that has been read completely. */
    method Fill(data: seq<byte>)
      requires Valid() && buflen == 0 && |data| <= buf.Length
      modifies this, buf
      ensures Valid() && Pending() == data && partial == old(partial)
    {
      bufstart := 0;
      Copy(buf, 0, data);
      buflen := |data|;
    }

    method FindBreak() returns (i: nat)
      requires Valid()
      ensures i == FindLF(Pending())
    {
      i := 0;
      while i < buflen
        invariant i <= buflen
        invariant forall k :: 0 <= k < i ==> Pending()[k] != LF
      {
        if buf[bufstart + i] == LF {
          assert Pending()[i] == LF;
          break;
        }
        i := i + 1;
      }
      FindIs(Pending(), i);
    }

    /** The bytes to consume and the bytes of text for an LF at `at`.  The byte behind the LF is
        looked at even if it has not been received, or lies behind the buffer: then it is
        `stale`, and makes no difference. */
    method Measure(at: nat, stale: byte) returns (i: nat, len: nat)
      requires Valid() && at < buflen && Pending()[at] == LF
      ensures i == Consumed(Pending(), at) && len == TextLength(Pending(), at)
    {
      ghost var p := Pending();
      i, len := at, at;
      var behind := if at + 1 < buflen then buf[bufstart + at + 1] else stale;
      if behind == 0 {
        i := i + 1;
      }
      assert len > 0 ==> p[len - 1] == buf[bufstart + len - 1];
      assert len > 1 ==> p[len - 2] == buf[bufstart + len - 2];
      if len > 0 && buf[bufstart + len - 1] == CR {
        len := len - 1;
      } else if len > 1 && buf[bufstart + len - 1] == 0 && buf[bufstart + len - 2] == CR {
        len := len - 2;
      }
      if i < buflen {
        i := i + 1;
      }
    }

    method Take(at: nat, limit: nat, stale: byte) returns (r: Outcome)
      requires Valid() && at < buflen && Pending()[at] == LF
      modifies this
      ensures Valid()
      ensures Call(r, partial, Pending()) == TakeLine(old(partial), old(Pending()), at, limit)
    {
      hide Consumed, TextLength, NxString.Appended, StripCR;
      ghost var all := buf[..];
      ghost var p := Pending();
      var i, len := Measure(at, stale);
      var text := buf[bufstart..bufstart + len];
      assert text == p[..len];
      if partial == None {
        if len > limit {
          return Thrown;
        }
        r := Line(text);
      } else if len == 0 {
        r := Line(StripCR(partial.value));
      } else {
        r := Line(NxString.Appended(partial.value, text, limit));
      }
      partial := None;
      bufstart, buflen := bufstart + i, buflen - i;
      assert Pending() == p[i..];
    }

    method Keep(limit: nat) returns (r: Outcome)
      requires Valid()
      modifies this
      ensures Valid()
      ensures Call(r, partial, Pending()) == KeepPart(old(partial), old(Pending()), limit)
    {
      hide NxString.Appended;
      var text := buf[bufstart..bufstart + buflen];
      if partial == None {
        if buflen > limit {
          return Thrown;
        }
        partial := Some(text);
      } else {
        partial := Some(NxString.Appended(partial.value, text, limit));
      }
      bufstart, buflen := bufstart + buflen, 0;
      assert Pending() == [];
      r := Nothing;
    }

    method ReadNext(limit: nat, stale: byte) returns (r: Outcome)
      requires Valid()
      modifies this
      ensures Valid()
      ensures Call(r, partial, Pending()) == ReadLine(old(partial), old(Pending()), limit)
    {
      hide FindLF, TakeLine, KeepPart;
      ghost var p := Pending();
      if buflen == 0 {
        return Nothing;
      }
      if partial == None && buflen >= 4 && buf[bufstart..bufstart + 4] == Codec.HEADER {
        assert p[..4] == Codec.HEADER;
        return Delegated;
      }
      assert buflen >= 4 ==> p[..4] == buf[bufstart..bufstart + 4];
      var at := FindBreak();
      if at < buflen {
        r := Take(at, limit, stale);
      } else {
        r := Keep(limit);
      }
    }
  }

  /** `FindLF` is what a search from the left finds. */
  lemma {:induction false} FindIs(p: seq<byte>, i: nat)
    requires i <= |p| && (forall k :: 0 <= k < i ==> p[k] != LF) && (i < |p| ==> p[i] == LF)
    ensures FindLF(p) == i
  {
    if p != [] && p[0] != LF {
      FindIs(p[1..], i - 1);
    }
  }

  // ----- Calls on texts outside the line format

  /** The end of a line of two-byte characters, low byte first. */
  function WideEnd(crlf: bool): (r: seq<byte>) { if crlf then [CR, 0, LF, 0] else [LF, 0] }

  lemma WideMeasures(u: seq<byte>, crlf: bool, more: seq<byte>)
    requires LF !in u
    requires !crlf ==> !(|u| > 0 && u[|u| - 1] == CR) && !(|u| > 1 && u[|u| - 1] == 0 && u[|u| - 2] == CR)
    ensures var p, i := u + WideEnd(crlf) + more, |u| + if crlf then 2 else 0;
            i < |p| && FindLF(p) == i && Consumed(p, i) == i + 2 && TextLength(p, i) == |u|
  {
    var p, i := u + WideEnd(crlf) + more, |u| + if crlf then 2 else 0;
    FindIs(p, i);
  }

  /** With two bytes per character a line end is CR NUL LF NUL or LF NUL: all of it is taken and none of
      it is text. */
  lemma WideLine(u: seq<byte>, crlf: bool, more: seq<byte>, limit: nat)
    requires LF !in u && |u| <= limit && !(Codec.HEADER <= u + WideEnd(crlf) + more)
    requires !crlf ==> !(|u| > 0 && u[|u| - 1] == CR) && !(|u| > 1 && u[|u| - 1] == 0 && u[|u| - 2] == CR)
    ensures ReadLine(None, u + WideEnd(crlf) + more, limit) == Call(Line(u), None, more)
  {
    hide FindLF, Consumed, TextLength;
    var p, i := u + WideEnd(crlf) + more, |u| + if crlf then 2 else 0;
    WideMeasures(u, crlf, more);
    assert p[..|u|] == u && p[i + 2..] == more;
  }

  predicate NulFollows(more: seq<byte>) { more != [] && more[0] == 0 }

  /** A line that arrives whole is refused if and only if it is over the string limit, and then it stays
      in the buffer, so that the next call refuses it again. */
  lemma OverlongLine(l: seq<byte>, crlf: bool, more: seq<byte>, limit: nat)
    requires Writable(l, crlf) && 0 !in l && !NulFollows(more) && l != []
    ensures var p := WrittenLine(l, crlf) + more;
            ReadLine(None, p, limit) == if |l| > limit then Call(Thrown, None, p) else Call(Line(l), None, more)
  {
    var p := WrittenLine(l, crlf) + more;
    var i := |l| + if crlf then 1 else 0;
    assert p[0] == l[0] && l[0] in l && Codec.HEADER[0] == 0;
    FindIs(p, i);
    assert p[..|l|] == l && p[i + 1..] == more;
    assert i + 1 < |p| ==> p[i + 1] == more[0];
    assert !crlf && |l| > 0 ==> p[i - 1] == l[|l| - 1] && l[|l| - 1] in l;
  }

  /** A piece without a line end is kept for later; a first piece is refused if and only if it is over
      the limit, later ones are cut off one byte below it. */
  lemma PieceWithoutEnd(partial: Option<seq<byte>>, p: seq<byte>, limit: nat)
    requires p != [] && LF !in p && !(partial == None && Codec.HEADER <= p)
    ensures var c := ReadLine(partial, p, limit);
            && (partial == None ==> c == if |p| > limit then Call(Thrown, None, p) else Call(Nothing, Some(p), []))
            && (partial.Some? ==>
                  && c.outcome == Nothing && c.rest == [] && c.partial.Some? && c.partial.value <= partial.value + p
                  && var n, most := |partial.value|, |partial.value| + |p|;
                     |c.partial.value| == if most < limit then most else if n < limit then limit - 1 else n)
  {
    FindIs(p, |p|);
  }

  /** Data is handed to the binary reader if and only if it starts with the binary header and no line is
      unfinished; nothing is consumed then. */
  lemma BinaryIsHandedOver(partial: Option<seq<byte>>, p: seq<byte>, limit: nat)
    ensures ReadLine(partial, p, limit).outcome == Delegated <==> partial == None && Codec.HEADER <= p
    ensures ReadLine(partial, p, limit).outcome == Delegated ==> ReadLine(partial, p, limit).rest == p
  {
  }

  // ----- Whole runs

  /** The lines read, the unfinished line, and whether the reader kept going. */
  datatype Feed = Feed(lines: seq<seq<byte>>, partial: Option<seq<byte>>, ok: bool)

  /** All calls on one piece of input, until nothing complete is left. */
  function FeedChunk(partial: Option<seq<byte>>, p: seq<byte>, limit: nat): (f: Feed)
    decreases |p|
  {
    var c := ReadLine(partial, p, limit);
    match c.outcome
    case Line(l) => var f := FeedChunk(c.partial, c.rest, limit); Feed([l] + f.lines, f.partial, f.ok)
    case Nothing => Feed([], c.partial, true)
    case Thrown => Feed([], c.partial, false)
    case Delegated => Feed([], c.partial, false)
  }

  function FeedAll(partial: Option<seq<byte>>, chunks: seq<seq<byte>>, limit: nat): (f: Feed)
    decreases |chunks|
  {
    if chunks == [] then Feed([], partial, true)
    else
      var f := FeedChunk(partial, chunks[0], limit);
      if !f.ok then f
      else var g := FeedAll(f.partial, chunks[1..], limit); Feed(f.lines + g.lines, g.partial, g.ok)
  }

  function Flatten(chunks: seq<seq<byte>>): (s: seq<byte>)
    decreases |chunks|
  {
    if chunks == [] then [] else chunks[0] + Flatten(chunks[1..])
  }

  /** An unfinished line as the reader keeps it. */
  function Kept(t: seq<byte>): (r: Option<seq<byte>>) {
    if t == [] then None else Some(t)
  }

  /** The one cut that changes a line: between two CRs in front of an LF that arrives with the
      second CR. */
  predicate BadCut(t: seq<byte>, chunk: seq<byte>) {
    && t != [] && t[|t| - 1] == CR
    && |chunk| >= 2 && chunk[0] == CR && chunk[1] == LF
  }

  /** No NUL anywhere, and every line shorter than the string limit. */
  predicate Textual(s: seq<byte>, limit: nat) {
    0 !in s && Short(s, limit)
  }

  /** Some chunk is cut off badly, `t` being the unfinished line before the first. */
  predicate SomeBadCut(t: seq<byte>, chunks: seq<seq<byte>>)
    decreases |chunks|
  {
    chunks != [] && (BadCut(t, chunks[0]) || SomeBadCut(Tail(t + chunks[0]), chunks[1..]))
  }

  // ----- Lines of a stream given piece by piece

  lemma {:induction false} FindIsFirst(p: seq<byte>)
    ensures forall k :: 0 <= k < FindLF(p) ==> p[k] != LF
  {
    if p != [] && p[0] != LF {
      FindIsFirst(p[1..]);
      assert forall k :: 1 <= k < FindLF(p) ==> p[k] == p[1..][k - 1];
    }
  }

  lemma FindInFirst(s: seq<byte>, c: seq<byte>)
    requires FindLF(s) < |s|
    ensures FindLF(s + c) == FindLF(s)
  {
    FindIsFirst(s);
    FindIs(s + c, FindLF(s));
  }

  lemma FindInSecond(t: seq<byte>, c: seq<byte>)
    requires FindLF(t) == |t|
    ensures FindLF(t + c) == |t| + FindLF(c)
  {
    FindIsFirst(t);
    FindIsFirst(c);
    FindIs(t + c, |t| + FindLF(c));
  }

  /** Lines and tail of a stream cut in two: the second part continues the tail of the first. */
  lemma {:induction false} LinesOfCut(s: seq<byte>, c: seq<byte>)
    ensures Lines(s + c) == Lines(s) + Lines(Tail(s) + c)
    ensures Tail(s + c) == Tail(Tail(s) + c)
    decreases |s|
  {
    hide FindLF, StripCR, Lines, Tail;
    var i := FindLF(s);
    if i < |s| {
      FindInFirst(s, c);
      assert (s + c)[i + 1..] == s[i + 1..] + c;
      assert (s + c)[..i] == s[..i];
      FirstLine(s);
      FirstLine(s + c);
      LinesOfCut(s[i + 1..], c);
    } else {
      NothingYet(s);
    }
  }

  lemma FirstLine(s: seq<byte>)
    requires FindLF(s) < |s|
    ensures Lines(s) == [StripCR(s[..FindLF(s)])] + Lines(s[FindLF(s) + 1..])
    ensures Tail(s) == Tail(s[FindLF(s) + 1..])
  {
  }

  lemma NothingYet(s: seq<byte>)
    requires FindLF(s) == |s|
    ensures Lines(s) == [] && Tail(s) == s
  {
  }

  lemma {:induction false} ShortOfCut(s: seq<byte>, c: seq<byte>, limit: nat)
    requires Short(s + c, limit)
    ensures Short(s, limit) && Short(Tail(s) + c, limit)
    decreases |s|
  {
    hide FindLF;
    var i := FindLF(s);
    if i < |s| {
      FindInFirst(s, c);
      assert (s + c)[i + 1..] == s[i + 1..] + c;
      ShortOfCut(s[i + 1..], c, limit);
    } else {
      FindInSecond(s, c);
    }
  }

  lemma {:induction false} TailIsSuffix(s: seq<byte>) returns (k: nat)
    ensures k <= |s| && s[k..] == Tail(s)
    decreases |s|
  {
    hide FindLF;
    var i := FindLF(s);
    if i < |s| {
      k := TailIsSuffix(s[i + 1..]);
      assert s[i + 1..][k..] == s[i + 1 + k..];
      k := i + 1 + k;
    } else {
      k := 0;
    }
  }

  lemma TextualOfCut(s: seq<byte>, c: seq<byte>, limit: nat)
    requires Textual(s + c, limit)
    ensures Textual(s, limit) && Textual(Tail(s) + c, limit)
  {
    hide Short, FindLF, Tail;
    ShortOfCut(s, c, limit);
    var k := TailIsSuffix(s);
    assert s[k..] + c == (s + c)[k..];
    assert s == (s + c)[..|s|];
  }

  lemma AfterLine(s: seq<byte>, limit: nat)
    requires Textual(s, limit) && FindLF(s) < |s|
    ensures FindLF(s) < limit && Textual(s[FindLF(s) + 1..], limit)
    ensures FindLF([]) == 0
  {
  }

  // ----- One call

  lemma NoNul(t: seq<byte>, p: seq<byte>)
    requires 0 !in t + p
    ensures 0 !in p && !(Codec.HEADER <= p)
  {
    assert p == (t + p)[|t|..];
    assert p != [] ==> (t + p)[|t|] == p[0];
  }

  lemma PlainText(p: seq<byte>, i: nat)
    requires 0 !in p && i < |p|
    ensures Consumed(p, i) == i + 1
    ensures p[..TextLength(p, i)] == StripCR(p[..i])
  {
    assert i > 0 ==> p[i - 1] == p[..i][i - 1];
  }

  /** The unfinished line `t` and the text `x` in front of the LF put together. */
  lemma Joined(t: seq<byte>, x: seq<byte>)
    requires t != []
    ensures (if StripCR(x) == [] then StripCR(t) else t + StripCR(x)) ==
            if x == [CR] && t[|t| - 1] == CR then t[..|t| - 1] else StripCR(t + x)
  {
    if x == [] {
      assert t + x == t;
    } else if x[|x| - 1] == CR {
      assert (t + x)[..|t + x| - 1] == t + x[..|x| - 1];
    }
  }

  /** The line taken from a chunk is the first line of the stream, but for the bad cut: then one
      CR more is gone. */
  lemma TakenLine(t: seq<byte>, p: seq<byte>, limit: nat)
    requires FindLF(t) == |t| && Textual(t + p, limit) && FindLF(p) < |p|
    ensures ReadLine(Kept(t), p, limit) ==
            Call(Line(if BadCut(t, p) then t[..|t| - 1] else StripCR((t + p)[..|t| + FindLF(p)])),
                 None, p[FindLF(p) + 1..])
  {
    hide FindLF, ReadLine, TakeLine, Textual, StripCR, BadCut, Kept;
    NotDelegated(t, p, limit);
    TakenText(t, p, FindLF(p), limit);
    CutMeans(t, p);
  }

  lemma NotDelegated(t: seq<byte>, p: seq<byte>, limit: nat)
    requires FindLF(t) == |t| && Textual(t + p, limit) && FindLF(p) < |p|
    ensures ReadLine(Kept(t), p, limit) == TakeLine(Kept(t), p, FindLF(p), limit)
    ensures 0 !in p && |t| + FindLF(p) < limit
  {
    hide FindLF, TakeLine, Short;
    FindInSecond(t, p);
    AfterLine(t + p, limit);
    NoNul(t, p);
  }

  lemma TakenText(t: seq<byte>, p: seq<byte>, i: nat, limit: nat)
    requires i < |p| && 0 !in p && |t| + i < limit
    ensures TakeLine(Kept(t), p, i, limit) ==
            Call(Line(if t != [] && t[|t| - 1] == CR && p[..i] == [CR] then t[..|t| - 1]
                      else StripCR((t + p)[..|t| + i])),
                 None, p[i + 1..])
  {
    hide Consumed, TextLength, StripCR;
    PlainText(p, i);
    var x := p[..i];
    assert (t + p)[..|t| + i] == t + x;
    if t == [] {
      assert t + x == x;
    } else {
      Joined(t, x);
    }
  }

  lemma CutMeans(t: seq<byte>, p: seq<byte>)
    requires FindLF(p) < |p|
    ensures BadCut(t, p) <==> t != [] && t[|t| - 1] == CR && p[..FindLF(p)] == [CR]
  {
    if |p| >= 2 && p[0] == CR && p[1] == LF {
      FindIs(p, 1);
    }
  }

  lemma KeptPart(t: seq<byte>, p: seq<byte>, limit: nat)
    requires FindLF(t) == |t| && Textual(t + p, limit) && FindLF(p) == |p|
    ensures FeedChunk(Kept(t), p, limit) == Feed([], Kept(t + p), true)
    ensures Lines(t + p) == [] && Tail(t + p) == t + p
  {
    FindInSecond(t, p);
    NoNul(t, p);
    assert p == [] ==> t + p == t;
    assert t == [] ==> t + p == p;
  }

  // ----- One chunk

  lemma {:induction false} GoodChunk(t: seq<byte>, p: seq<byte>, limit: nat)
    requires FindLF(t) == |t| && Textual(t + p, limit) && !BadCut(t, p)
    ensures FeedChunk(Kept(t), p, limit) == Feed(Lines(t + p), Kept(Tail(t + p)), true)
    decreases |p|
  {
    hide FindLF, ReadLine, StripCR, Lines, Tail, FeedChunk, Textual;
    var i := FindLF(p);
    if i == |p| {
      KeptPart(t, p, limit);
    } else {
      FindInSecond(t, p);
      TakenLine(t, p, limit);
      AfterLine(t + p, limit);
      FirstLine(t + p);
      var rest := p[i + 1..];
      assert (t + p)[|t| + i + 1..] == rest == [] + rest;
      GoodChunk([], rest, limit);
      FeedMore(Kept(t), p, limit);
    }
  }

  lemma FeedMore(q: Option<seq<byte>>, p: seq<byte>, limit: nat)
    requires ReadLine(q, p, limit).outcome.Line?
    ensures var c := ReadLine(q, p, limit);
            var f := FeedChunk(c.partial, c.rest, limit);
            FeedChunk(q, p, limit) == Feed([c.outcome.line] + f.lines, f.partial, f.ok)
  {
  }

  /** After a bad cut the reader still hands out as many lines, and keeps the same unfinished line,
      but the first of them lacks its last CR. */
  lemma BadChunk(t: seq<byte>, p: seq<byte>, limit: nat)
    requires FindLF(t) == |t| && Textual(t + p, limit) && BadCut(t, p)
    ensures Lines(t + p) != [] && Lines(t + p)[0] == t
    ensures FeedChunk(Kept(t), p, limit) == Feed([t[..|t| - 1]] + Lines(t + p)[1..], Kept(Tail(t + p)), true)
  {
    hide FindLF, ReadLine, StripCR, Lines, Tail, FeedChunk, Textual;
    FindIs(p, 1);
    FindInSecond(t, p);
    TakenLine(t, p, limit);
    AfterLine(t + p, limit);
    FirstLine(t + p);
    var rest := p[2..];
    assert (t + p)[|t| + 2..] == rest == [] + rest;
    assert (t + p)[..|t| + 1] == t + [CR];
    StripOne(t);
    GoodChunk([], rest, limit);
    FeedMore(Kept(t), p, limit);
  }

  lemma StripOne(t: seq<byte>)
    ensures StripCR(t + [CR]) == t
  {
  }

  lemma ChunkCount(t: seq<byte>, p: seq<byte>, limit: nat)
    requires FindLF(t) == |t| && Textual(t + p, limit)
    ensures var f := FeedChunk(Kept(t), p, limit);
            f.ok && f.partial == Kept(Tail(t + p)) && |f.lines| == |Lines(t + p)|
            && (f.lines == Lines(t + p) <==> !BadCut(t, p))
  {
    hide FindLF, FeedChunk, Lines, Tail, Short;
    if BadCut(t, p) {
      BadChunk(t, p, limit);
      var f := FeedChunk(Kept(t), p, limit);
      assert f.lines[0] == t[..|t| - 1];
    } else {
      GoodChunk(t, p, limit);
    }
  }

  // ----- Whole streams

  lemma SplitEqual<T>(a: seq<T>, b: seq<T>, c: seq<T>, d: seq<T>)
    requires |a| == |c|
    ensures a + b == c + d <==> a == c && b == d
  {
    assert (a + b)[..|a|] == a && (a + b)[|a|..] == b;
    assert (c + d)[..|c|] == c && (c + d)[|c|..] == d;
  }

  /** For every text and every way to cut it up, the reader hands out as many lines as the text
      has and keeps its tail; the lines are those of the text exactly when no cut is bad. */
  lemma {:induction false} ReadsTheLines(t: seq<byte>, chunks: seq<seq<byte>>, limit: nat)
    requires FindLF(t) == |t| && Textual(t + Flatten(chunks), limit)
    ensures var f := FeedAll(Kept(t), chunks, limit);
            var s := t + Flatten(chunks);
            f.ok && f.partial == Kept(Tail(s)) && |f.lines| == |Lines(s)|
            && (f.lines == Lines(s) <==> !SomeBadCut(t, chunks))
    decreases |chunks|
  {
    hide FindLF, FeedChunk, Lines, Tail, Short, BadCut;
    if chunks == [] {
      assert t + Flatten(chunks) == t;
      NothingYet(t);
    } else {
      var c, later := chunks[0], Flatten(chunks[1..]);
      assert t + Flatten(chunks) == t + c + later;
      TextualOfCut(t + c, later, limit);
      ChunkCount(t, c, limit);
      ReadsTheLines(Tail(t + c), chunks[1..], limit);
      LinesOfCut(t + c, later);
      SplitEqual(FeedChunk(Kept(t), c, limit).lines, FeedAll(Kept(Tail(t + c)), chunks[1..], limit).lines,
                 Lines(t + c), Lines(Tail(t + c) + later));
    }
  }

  /** The text has a CR CR LF at `k`. */
  predicate DoubleAt(s: seq<byte>, k: nat) {
    k + 3 <= |s| && s[k] == CR && s[k + 1] == CR && s[k + 2] == LF
  }

  lemma {:induction false} BadCutIsDouble(t: seq<byte>, chunks: seq<seq<byte>>) returns (k: nat)
    requires SomeBadCut(t, chunks)
    ensures DoubleAt(t + Flatten(chunks), k)
    decreases |chunks|
  {
    hide FindLF, Tail;
    var c, later := chunks[0], Flatten(chunks[1..]);
    assert t + Flatten(chunks) == t + c + later;
    if BadCut(t, c) {
      k := |t| - 1;
    } else {
      k := BadCutIsDouble(Tail(t + c), chunks[1..]);
      var j := TailIsSuffix(t + c);
      assert (t + c)[j..] + later == (t + c + later)[j..];
      k := j + k;
    }
  }

  function Singles(s: seq<byte>): (r: seq<seq<byte>>)
    ensures |r| == |s|
    ensures forall i :: 0 <= i < |s| ==> r[i] == [s[i]]
  {
    if s == [] then [] else [[s[0]]] + Singles(s[1..])
  }

  lemma {:induction false} FlattenSingles(s: seq<byte>, chunks: seq<seq<byte>>)
    ensures Flatten(Singles(s) + chunks) == s + Flatten(chunks)
  {
    hide Singles;
    if s == [] {
      assert Singles(s) + chunks == chunks;
    } else {
      assert Singles(s) + chunks == [[s[0]]] + (Singles(s[1..]) + chunks);
      FlattenMore([s[0]], Singles(s[1..]) + chunks);
      FlattenSingles(s[1..], chunks);
      assert s == [s[0]] + s[1..];
    }
  }

  /** Byte by byte no cut is bad. */
  lemma {:induction false} SinglesAreGood(t: seq<byte>, s: seq<byte>, chunks: seq<seq<byte>>)
    requires FindLF(t) == |t|
    ensures SomeBadCut(t, Singles(s) + chunks) == SomeBadCut(Tail(t + s), chunks)
    decreases |s|
  {
    hide FindLF, Tail, Lines, Singles;
    if s == [] {
      assert Singles(s) + chunks == chunks;
      assert t + s == t;
      NothingYet(t);
    } else {
      var all := Singles(s) + chunks;
      assert all[0] == [s[0]] && all[1..] == Singles(s[1..]) + chunks;
      SinglesAreGood(Tail(t + [s[0]]), s[1..], chunks);
      assert t + s == t + [s[0]] + s[1..];
      LinesOfCut(t + [s[0]], s[1..]);
    }
  }

  /** A way to cut up a text with CR CR LF that does change a line. */
  function Halving(s: seq<byte>, k: nat): (chunks: seq<seq<byte>>)
    requires DoubleAt(s, k)
  {
    Singles(s[..k + 1]) + ([[CR, LF]] + Singles(s[k + 3..]))
  }

  lemma HalvingIsBad(s: seq<byte>, k: nat)
    requires DoubleAt(s, k)
    ensures Flatten(Halving(s, k)) == s
    ensures SomeBadCut([], Halving(s, k))
  {
    hide FindLF, Tail, Flatten, Singles;
    var u, rest := s[..k], Singles(s[k + 3..]);
    FlattenMore([CR, LF], rest);
    assert s[..k + 1] == u + [CR];
    FlattenSingles(s[k + 3..], []);
    assert rest + [] == rest && Flatten([]) == [] && s[k + 3..] + [] == s[k + 3..];
    FlattenSingles(s[..k + 1], [[CR, LF]] + rest);
    assert s == s[..k + 1] + ([CR, LF] + s[k + 3..]);
    SinglesAreGood([], s[..k + 1], [[CR, LF]] + rest);
    assert [] + s[..k + 1] == s[..k + 1];
    LinesOfCut(u, [CR]);
    FindInSecond(Tail(u), [CR]);
    NothingYet(Tail(u) + [CR]);
  }

  lemma FlattenMore(c: seq<byte>, chunks: seq<seq<byte>>)
    ensures Flatten([c] + chunks) == c + Flatten(chunks)
    ensures Flatten([]) == [] && FindLF([]) == 0 && FindLF([CR]) == 1
  {
    assert ([c] + chunks)[1..] == chunks;
  }

  predicate Fits(chunks: seq<seq<byte>>, bufsize: nat) {
    forall i :: 0 <= i < |chunks| ==> |chunks[i]| <= bufsize
  }

  /** How the text arrives makes no difference, whatever the pieces, exactly when it has no
      CR CR LF. */
  lemma CuttingIndependent(s: seq<byte>, bufsize: nat, limit: nat)
    requires Textual(s, limit) && bufsize >= 2
    ensures (forall chunks | Flatten(chunks) == s && Fits(chunks, bufsize) ::
               FeedAll(None, chunks, limit) == Feed(Lines(s), Kept(Tail(s)), true))
            <==> (forall k: nat :: !DoubleAt(s, k))
  {
    hide FindLF, FeedAll, Lines, Tail, Short;
    assert [] + s == s && Kept([]) == None && FindLF([]) == 0;
    if k: nat :| DoubleAt(s, k) {
      HalvingIsBad(s, k);
      assert Fits(Halving(s, k), bufsize);
      ReadsTheLines([], Halving(s, k), limit);
    } else {
      forall chunks | Flatten(chunks) == s && Fits(chunks, bufsize)
        ensures FeedAll(None, chunks, limit) == Feed(Lines(s), Kept(Tail(s)), true)
      {
        ReadsTheLines([], chunks, limit);
        if SomeBadCut([], chunks) {
          var k := BadCutIsDouble([], chunks);
          assert false;
        }
      }
    }
  }

  // ----- The connection's loop

  /** Fill, then read until nothing complete is left. */
  method ReadChunk(input: LineInput, data: seq<byte>, limit: nat, stale: byte)
    returns (lines: seq<seq<byte>>, ok: bool)
    requires input.Valid() && input.buflen == 0 && |data| <= input.buf.Length
    modifies input, input.buf
    ensures input.Valid()
    ensures Feed(lines, input.partial, ok) == FeedChunk(old(input.partial), data, limit)
    ensures ok ==> input.buflen == 0
  {
    hide ReadLine;
    input.Fill(data);
    lines := [];
    while true
      invariant input.Valid()
      invariant var f := FeedChunk(input.partial, input.Pending(), limit);
                FeedChunk(old(input.partial), data, limit) == Feed(lines + f.lines, f.partial, f.ok)
      decreases input.buflen
    {
      ghost var p := input.Pending();
      var r := input.ReadNext(limit, stale);
      match r {
        case Line(l) => lines := lines + [l];
        case Nothing =>
          NothingLeavesNothing(p, limit);
          return lines, true;
        case Thrown => return lines, false;
        case Delegated => return lines, false;
      }
    }
  }

  lemma NothingLeavesNothing(p: seq<byte>, limit: nat)
    ensures forall q :: ReadLine(q, p, limit).outcome == Nothing ==> ReadLine(q, p, limit).rest == []
  {
  }

  /** A text read from a connection that hands over `cut(n)` bytes, at least one and never more
      than fit, when `n` are left.  A text without CR CR LF comes out as its lines. */
  method ReadText(text: seq<byte>, bufsize: nat, limit: nat, cut: nat -> nat, stale: byte)
    returns (lines: seq<seq<byte>>, tail: Option<seq<byte>>)
    requires bufsize > 0 && Textual(text, limit) && forall k: nat :: !DoubleAt(text, k)
    ensures lines == Lines(text) && tail == Kept(Tail(text))
  {
    hide FindLF, Lines, Tail, Short, FeedChunk, Textual;
    var input := new LineInput(bufsize);
    lines := [];
    var at := 0;
    assert FindLF([]) == 0;
    NothingYet([]);
    while at < |text|
      invariant input.Valid() && input.buflen == 0 && fresh(input) && fresh(input.buf) && input.buf.Length == bufsize
      invariant at <= |text|
      invariant lines == Lines(text[..at]) && input.partial == Kept(Tail(text[..at]))
    {
      var n := cut(|text| - at);
      n := if n == 0 then 1 else if n > bufsize then bufsize else n;
      n := if n > |text| - at then |text| - at else n;
      var data := text[at..at + n];
      NextChunk(text, at, n, limit);
      var more, ok := ReadChunk(input, data, limit, stale);
      lines := lines + more;
      at := at + n;
    }
    assert text[..at] == text;
    tail := input.partial;
  }

  lemma BadCutHere(s: seq<byte>, c: seq<byte>, later: seq<byte>)
    requires BadCut(Tail(s), c)
    ensures s != [] && DoubleAt(s + c + later, |s| - 1)
  {
    hide FindLF, Tail;
    LastOfTail(s);
    DoubleHere(s, c, later);
  }

  lemma {:induction false} LastOfTail(s: seq<byte>)
    requires Tail(s) != []
    ensures s != [] && s[|s| - 1] == Tail(s)[|Tail(s)| - 1]
    decreases |s|
  {
    hide FindLF;
    var i := FindLF(s);
    if i < |s| {
      LastOfTail(s[i + 1..]);
    }
  }

  lemma DoubleHere(s: seq<byte>, c: seq<byte>, later: seq<byte>)
    requires s != [] && s[|s| - 1] == CR && |c| >= 2 && c[0] == CR && c[1] == LF
    ensures DoubleAt(s + c + later, |s| - 1)
  {
  }

  /** Each piece of a text without CR CR LF adds its share of the lines. */
  lemma NextChunk(text: seq<byte>, at: nat, n: nat, limit: nat)
    requires at + n <= |text| && Textual(text, limit) && forall k: nat :: !DoubleAt(text, k)
    ensures var f := FeedChunk(Kept(Tail(text[..at])), text[at..at + n], limit);
            f.ok && f.partial == Kept(Tail(text[..at + n]))
            && Lines(text[..at + n]) == Lines(text[..at]) + f.lines
  {
    hide FindLF, Lines, Tail, Short, FeedChunk;
    var s, c := text[..at], text[at..at + n];
    assert text[..at + n] == s + c;
    assert text == s + c + text[at + n..];
    TextualOfCut(s + c, text[at + n..], limit);
    TextualOfCut(s, c, limit);
    LinesOfCut(s, c);
    if BadCut(Tail(s), c) {
      BadCutHere(s, c, text[at + n..]);
      assert false;
    }
    GoodChunk(Tail(s), c, limit);
  }
}
