/**
 Records as frames on a byte stream: the binary writer (`src/common/writerfuncs.c`), the socket
 buffer (`src/common/module.c`) and the binary reader (`src/common/readerfuncs.c`).
 */
module BinaryFraming {
  import opened Bytes
  import opened Codec
  import opened CodecBuffers

  function Frame(r: Record): (b: seq<byte>)
    requires ValidRecord(r)
    ensures |b| == 8 + RecordSize(r)
  {
    HEADER + Little(RecordSize(r), 4) + EncodeRecord(r)
  }

  /** Fills the output buffer with one frame, or drops a record that does not fit. */
  method BinaryWriter(o: ByteOrder, r: Record, buf: array<byte>) returns (buflen: nat, dropped: bool)
    requires ValidRecord(r) && buf.Length < TWO32
    modifies buf
    ensures dropped <==> RecordSize(r) + 8 > buf.Length
    ensures dropped ==> buflen == 0 && buf[..] == old(buf[..])
    ensures !dropped ==> buflen == 8 + RecordSize(r) && buf[..] == Overwrite(old(buf[..]), 0, Frame(r))
  {
    hide RecordSize, EncodeRecord, Little, Overwrite, Power;
    var memsize := RecordSize(r);
    if memsize + 8 > buf.Length {
      return 0, true;
    }
    Powers();
    Copy(buf, 0, HEADER);
    PutInt(o, buf, 4, memsize, 4);
    OverwriteOn(old(buf[..]), 0, HEADER, Little(memsize, 4));
    var got := RecordToMembuf(o, r, buf, 8, memsize);
    OverwriteOn(old(buf[..]), 0, HEADER + Little(memsize, 4), EncodeRecord(r));
    return memsize + 8, false;
  }

  // ----- Reading, on the bytes received and not yet consumed

  /** `Lost`: the record could not be decoded, and the reader went on to the next header.
      `Overrun`: fewer than eight bytes are left and the length found behind them lets the reader
      take eight. */
  datatype Outcome = Got(record: Record) | NeedMore | Lost | Overrun

  predicate Headed(p: seq<byte>) { |p| >= 4 && p[..4] == HEADER }

  /** What is left from the first header on. */
  function Seek(p: seq<byte>): (q: seq<byte>)
    ensures q != [] ==> |q| >= 4
  {
    if p == [] then [] else if Headed(p) then p else Seek(p[1..])
  }

  /** The frame length the reader goes by.  With fewer than eight bytes received it takes in what is
      in memory behind them. */
  function Total(q: seq<byte>, behind: seq<byte>): (n: nat)
    requires |q| >= 4 && |behind| >= 4
    ensures n < TWO32
  {
    (Value((q + behind)[4..8]) + 8) % TWO32
  }

  /** The record at the front, or the search for the next header if there is none. */
  function Decoded(b: seq<byte>, limit: nat): (r: (Outcome, seq<byte>)) {
    match DecodeRecord(b, limit)
    case Err(_) => (Lost, Seek(b))
    case Ok(x) => (Got(x.0), b[x.1..])
  }

  /** Reading at a header. */
  function ReadAt(q: seq<byte>, behind: seq<byte>, bufsize: nat, limit: nat): (r: (Outcome, seq<byte>))
    requires |q| >= 4 && |behind| >= 4
  {
    var total := Total(q, behind);
    if total > bufsize then (NeedMore, [])
    else if total > |q| then (NeedMore, q)
    else if |q| < 8 then (Overrun, q)
    else Decoded(q[8..], limit)
  }

  /** One call of the reader: its result and what is left unread. */
  function ReadOne(p: seq<byte>, behind: seq<byte>, bufsize: nat, limit: nat): (r: (Outcome, seq<byte>))
    requires |behind| >= 4
  {
    if |p| < 8 then (NeedMore, p)
    else if Seek(p) == [] then (NeedMore, [])
    else ReadAt(Seek(p), behind, bufsize, limit)
  }

  class Input {
    const buf: array<byte>
    var bufstart: nat
    var buflen: nat

    constructor (bufsize: nat)
      ensures buf.Length == bufsize && fresh(buf) && bufstart == 0 && buflen == 0
    {
      buf := new byte[bufsize];
      bufstart, buflen := 0, 0;
    }

    ghost predicate Valid()
      reads this
    {
      bufstart + buflen <= buf.Length && buf.Length < 0x8000_0000
    }

    ghost function Pending(): (p: seq<byte>)
      requires Valid()
      reads this, buf
      ensures |p| == buflen
    {
      buf[bufstart..bufstart + buflen]
    }

    /** Bytes the next fill can take. */
    function Room(): (n: nat)
      requires bufstart + buflen <= buf.Length
      reads this
    {
      if buflen == 0 then buf.Length else buf.Length - (bufstart + buflen)
    }

    /** `data` is what the socket delivers, never more than there is room for. */
    method Fill(data: seq<byte>)
      requires Valid() && |data| <= Room()
      modifies this, buf
      ensures Valid() && Pending() == old(Pending()) + data
    {
      if bufstart == buf.Length {
        bufstart := 0;
        buflen := 0;
      }
      if buflen == 0 {
        bufstart := 0;
      }
      ghost var p := Pending();
      Copy(buf, bufstart + buflen, data);
      assert buf[bufstart..bufstart + buflen] == p;
      buflen := buflen + |data|;
      assert Pending() == p + data;
    }

    /** Moves the unread bytes to the front. */
    method MoveToFront()
      requires Valid()
      modifies this, buf
      ensures Valid() && bufstart == 0 && buflen == old(buflen) && Pending() == old(Pending())
    {
      var p := buf[bufstart..bufstart + buflen];
      Copy(buf, 0, p);
      bufstart := 0;
    }

    /** Memory from the end of the received bytes on. */
    ghost function Behind(beyond: seq<byte>): (b: seq<byte>)
      requires Valid()
      reads this, buf
      ensures |b| >= |beyond|
    {
      buf[bufstart + buflen..] + beyond
    }

    /** Whether the unread bytes begin with a header. */
    method AtHeader() returns (found: bool)
      requires Valid()
      ensures found <==> Headed(Pending())
    {
      found := false;
      if buflen >= 4 {
        SliceOfSlice(buf[..], bufstart, buflen, 0, 4);
        found := buf[bufstart..bufstart + 4] == HEADER;
      }
    }

    method Skip()
      requires Valid() && buflen > 0
      modifies this
      ensures Valid() && buflen == old(buflen) - 1 && bufstart + buflen == old(bufstart + buflen)
      ensures Pending() == old(Pending())[1..]
    {
      bufstart, buflen := bufstart + 1, buflen - 1;
    }

    /** Drops bytes until a header is in front or nothing is left. */
    method Search()
      requires Valid()
      modifies this
      ensures Valid() && Pending() == Seek(old(Pending()))
      ensures bufstart + buflen == old(bufstart + buflen)
    {
      hide Seek, Headed;
      while buflen > 0
        invariant Valid() && bufstart + buflen == old(bufstart + buflen)
        invariant Seek(Pending()) == Seek(old(Pending()))
        decreases buflen
      {
        SeekStep(Pending());
        var found := AtHeader();
        if found {
          return;
        }
        Skip();
      }
      SeekStep(Pending());
    }

    /** The search, if there is no header in front already. */
    method Resync()
      requires Valid()
      modifies this
      ensures Valid() && Pending() == Seek(old(Pending()))
      ensures bufstart + buflen == old(bufstart + buflen)
    {
      hide Seek, Headed;
      SeekStep(Pending());
      var found := AtHeader();
      if !found {
        Search();
      }
    }

    /** The length field, from the received bytes or from what is behind them; `beyond` is memory
        past the buffer. */
    method Length(o: ByteOrder, beyond: seq<byte>) returns (total: nat)
      requires Valid() && buflen >= 4 && |beyond| >= 4
      ensures total == Total(Pending(), Behind(beyond))
    {
      hide Value;
      ghost var mem := Pending() + Behind(beyond);
      assert mem == buf[bufstart..] + beyond;
      var datalen;
      if bufstart + 8 <= buf.Length {
        datalen := GetInt(o, buf, bufstart + 4, 4);
        assert mem[4..8] == buf[bufstart + 4..bufstart + 8];
      } else {
        datalen := Value((buf[bufstart + 4..] + beyond)[..4]);
        assert mem[4..8] == (buf[bufstart + 4..] + beyond)[..4];
      }
      total := (datalen + 8) % TWO32;
    }

    /** Decodes the record behind the eight header bytes and consumes both; behind a record that
        cannot be decoded goes on to the next header. */
    method TakeRecord(o: ByteOrder, limit: nat) returns (r: Outcome)
      requires Valid() && buflen >= 8
      modifies this
      ensures Valid() && (r.Got? || r.Lost?)
      ensures (r, Pending()) == Decoded(old(Pending())[8..], limit)
    {
      hide DecodeRecord, Seek;
      SliceOfSlice(buf[..], bufstart, buflen, 8, buflen);
      var rec := RecordFromMembuf(o, buf, bufstart + 8, buflen - 8, limit);
      bufstart, buflen := bufstart + 8, buflen - 8;
      assert Pending() == old(Pending())[8..];
      if rec.Err? {
        Search();
        return Lost;
      }
      var len := rec.value.1;
      SliceOfSlice(buf[..], old(bufstart), old(buflen), 8 + len, old(buflen));
      bufstart := bufstart + len;
      buflen := buflen - len;
      r := Got(rec.value.0);
    }

    /** Reads at the header in front. */
    method ReadFrame(o: ByteOrder, beyond: seq<byte>, limit: nat) returns (r: Outcome)
      requires Valid() && buflen >= 4 && |beyond| >= 4
      modifies this, buf
      ensures Valid()
      ensures (r, Pending()) == ReadAt(old(Pending()), old(Behind(beyond)), buf.Length, limit)
      ensures r == NeedMore ==> Room() > 0 || buf.Length == 0
    {
      hide DecodeRecord, Seek, Total;
      var total := Length(o, beyond);
      if total > buf.Length {
        bufstart, buflen := 0, 0;
        return NeedMore;
      }
      if total <= buflen {
        if buflen < 8 {
          return Overrun;
        }
        r := TakeRecord(o, limit);
        return;
      }
      if bufstart > 0 {
        MoveToFront();
      }
      return NeedMore;
    }

    /** The reader leaves its buffer as `ReadOne` says, within bounds; and when it asks for more
        data there is room for more. */
    method BinaryReader(o: ByteOrder, beyond: seq<byte>, limit: nat) returns (r: Outcome)
      requires Valid() && |beyond| >= 4
      modifies this, buf
      ensures Valid()
      ensures (r, Pending()) == ReadOne(old(Pending()), old(Behind(beyond)), buf.Length, limit)
      ensures r == NeedMore && buf.Length >= 8 ==> Room() > 0
    {
      hide Seek, ReadAt, Headed;
      if buflen < 8 {
        MakeRoom();
        return NeedMore;
      }
      Resync();
      if buflen == 0 {
        return NeedMore;
      }
      assert Behind(beyond) == old(Behind(beyond));
      r := ReadFrame(o, beyond, limit);
    }

    method MakeRoom()
      requires Valid() && buflen < 8
      modifies this, buf
      ensures Valid() && Pending() == old(Pending()) && (buf.Length >= 8 ==> Room() > 0)
    {
      if bufstart + buflen == buf.Length {
        MoveToFront();
      }
    }
  }

  lemma SeekStep(p: seq<byte>)
    ensures Seek(p) == if p == [] then [] else if Headed(p) then p else Seek(p[1..])
  {
  }

  // ----- Frames that cannot be read

  /** What is left of a call always is the end of what was there, and after an error it is at least
      eight bytes shorter and empty or at a header: the reader cannot hang on a bad frame. */
  lemma BadFramesPass(p: seq<byte>, behind: seq<byte>, bufsize: nat, limit: nat)
    requires |behind| >= 4
    ensures var (r, q) := ReadOne(p, behind, bufsize, limit);
            && |q| <= |p| && q == p[|p| - |q|..]
            && (r == Lost ==> |q| + 8 <= |p| && (q == [] || Headed(q)))
            && (r.Got? ==> |q| + 8 < |p|)
            && (r == Overrun ==> |q| < 8)
  {
    hide DecodeRecord, Seek, Total, Headed;
    SeekIsSuffix(p);
    var q := Seek(p);
    if |p| >= 8 && q != [] && |q| >= 8 {
      SeekIsSuffix(q[8..]);
      RecordsTakeBytes(q[8..], limit);
    }
  }

  lemma RecordsTakeBytes(b: seq<byte>, limit: nat)
    ensures DecodeRecord(b, limit).Ok? ==> 2 <= DecodeRecord(b, limit).value.1 <= |b|
  {
    hide DecodeFields;
  }

  lemma {:induction false} SeekIsSuffix(p: seq<byte>)
    ensures |Seek(p)| <= |p| && Seek(p) == p[|p| - |Seek(p)|..] && (Seek(p) == [] || Headed(Seek(p)))
    decreases |p|
  {
    if p != [] && !Headed(p) {
      SeekIsSuffix(p[1..]);
    }
  }

  /** A frame larger than the buffer throws away everything received; a length of at least 2^32 - 8
      wraps around and passes for a short one. */
  lemma Oversized(n: nat, more: seq<byte>, behind: seq<byte>, bufsize: nat, limit: nat)
    requires |behind| >= 4 && n < TWO32 && bufsize < 0x8000_0000
    ensures var p := HEADER + Little(n, 4) + more;
            && (bufsize < n + 8 < TWO32 ==> ReadOne(p, behind, bufsize, limit) == (NeedMore, []))
            && (n + 8 >= TWO32 && bufsize >= 8 ==> ReadOne(p, behind, bufsize, limit) == Decoded(more, limit))
  {
    hide DecodeRecord, Little, Value;
    var p := HEADER + Little(n, 4) + more;
    Powers();
    ValueOfLittle(n, 4);
    assert p[..4] == HEADER && p[8..] == more;
    assert (p + behind)[4..8] == Little(n, 4);
    SeekStep(p);
    if n + 8 >= TWO32 && bufsize >= 8 && DecodeRecord(more, limit).Ok? {
      var k := DecodeRecord(more, limit).value.1;
      assert p[8 + k..] == more[k..];
    }
  }

  // ----- Bytes that belong to no frame

  /** No header begins within `g` in front of `t`. */
  ghost predicate Quiet(g: seq<byte>, t: seq<byte>) {
    forall k :: 0 <= k < |g| ==> !(HEADER <= (g + t)[k..])
  }

  /** The search stops at a header exactly if none begins before it. */
  lemma {:induction false} SeekSkips(g: seq<byte>, t: seq<byte>)
    ensures Quiet(g, t) ==> Seek(g + t) == Seek(t)
    ensures HEADER <= t ==> (Seek(g + t) == t <==> Quiet(g, t))
    decreases |g|
  {
    hide Seek;
    SeekStep(g + t);
    if g == [] {
      assert g + t == t;
      SeekStep(t);
    } else {
      var h := g[1..];
      assert (g + t)[1..] == h + t;
      SeekSkips(h, t);
      QuietStep(g, t);
    }
  }

  lemma QuietStep(g: seq<byte>, t: seq<byte>)
    requires g != []
    ensures Quiet(g, t) <==> !Headed(g + t) && Quiet(g[1..], t)
  {
    var p, h := g + t, g[1..];
    assert p[0..] == p && (HEADER <= p <==> Headed(p));
    forall k | 1 <= k < |g|
      ensures p[k..] == (h + t)[k - 1..]
    {
    }
    assert Quiet(h, t) ==> forall k :: 1 <= k < |g| ==> !(HEADER <= p[k..]);
    forall k | 0 <= k < |h|
      ensures Quiet(g, t) ==> !(HEADER <= (h + t)[k..])
    {
      assert p[k + 1..] == (h + t)[k..];
    }
  }

  /** Bytes in front of a header do not matter to the call if eight bytes from the header on have
      arrived. */
  lemma GarbageIsSkipped(g: seq<byte>, p: seq<byte>, behind: seq<byte>, bufsize: nat, limit: nat)
    requires |behind| >= 4 && HEADER <= p && |p| >= 8 && Quiet(g, p)
    ensures ReadOne(g + p, behind, bufsize, limit) == ReadOne(p, behind, bufsize, limit)
  {
    hide ReadAt, Seek;
    SeekSkips(g, p);
    SeekStep(p);
  }

  /** With less of the header than that: a beginning of up to three bytes is dropped with what is in
      front, and one of four to seven bytes is kept if and only if memory behind it happens to hold a
      length that is neither too large for the buffer nor satisfied. */
  lemma CutBehindGarbage(g: seq<byte>, p: seq<byte>, behind: seq<byte>, bufsize: nat, limit: nat)
    requires |behind| >= 4 && p != [] && |p| < 8 <= |g + p| && Quiet(g, p)
    requires p <= HEADER || HEADER <= p
    ensures ReadOne(g + p, behind, bufsize, limit) == (NeedMore, p)
      <==> |p| >= 4 && |p| < Total(p, behind) <= bufsize
    ensures |p| < 4 ==> ReadOne(g + p, behind, bufsize, limit) == (NeedMore, [])
  {
    hide Seek, Total;
    SeekSkips(g, p);
    SeekStep(p);
    if |p| < 4 {
      SeekShort(p);
    }
  }

  lemma {:induction false} SeekShort(p: seq<byte>)
    requires |p| < 4
    ensures Seek(p) == []
    decreases |p|
  {
    if p != [] {
      SeekShort(p[1..]);
    }
  }

  // ----- Independence from the way the stream is cut

  predicate Sendable(r: Record, bufsize: nat, limit: nat) {
    && ValidRecord(r) && RecordSize(r) + 8 <= bufsize < TWO32
    && forall i :: 0 <= i < |r.fields| ==> Restorable(r.fields[i].value, limit)
  }

  predicate AllSendable(rs: seq<Record>, bufsize: nat, limit: nat) {
    forall i :: 0 <= i < |rs| ==> Sendable(rs[i], bufsize, limit)
  }

  function Frames(rs: seq<Record>, bufsize: nat, limit: nat): (b: seq<byte>)
    requires AllSendable(rs, bufsize, limit)
    decreases |rs|
  {
    if rs == [] then [] else Frame(rs[0]) + Frames(rs[1..], bufsize, limit)
  }

  /** A whole frame in front of anything is read and nothing more is taken. */
  lemma ReadWhole(r: Record, more: seq<byte>, behind: seq<byte>, bufsize: nat, limit: nat)
    requires Sendable(r, bufsize, limit) && |behind| >= 4
    ensures ReadOne(Frame(r) + more, behind, bufsize, limit) == (Got(r), more)
  {
    hide DecodeRecord, EncodeRecord, RecordSize, Little, Value, Restorable, ValidRecord;
    var p := Frame(r) + more;
    Powers();
    ValueOfLittle(RecordSize(r), 4);
    assert p[..4] == HEADER;
    assert (p + behind)[4..8] == Little(RecordSize(r), 4);
    assert p[8..] == EncodeRecord(r) + more;
    RecordRoundTrip(r, more, limit);
    assert p[8 + RecordSize(r)..] == more;
  }

  /** A proper beginning of a frame is left alone. */
  lemma ReadPart(r: Record, p: seq<byte>, behind: seq<byte>, bufsize: nat, limit: nat)
    requires Sendable(r, bufsize, limit) && p < Frame(r) && |behind| >= 4
    ensures ReadOne(p, behind, bufsize, limit) == (NeedMore, p)
  {
    hide DecodeRecord, EncodeRecord, RecordSize, Little, Value, Restorable, ValidRecord;
    if |p| >= 8 {
      var f := Frame(r);
      Powers();
      ValueOfLittle(RecordSize(r), 4);
      assert p[..4] == f[..4] == HEADER;
      assert (p + behind)[4..8] == f[4..8] == Little(RecordSize(r), 4);
    }
  }

  /** The next call, when the unread bytes and the bytes still to come are the frames `rs`. */
  lemma NextCall(p: seq<byte>, behind: seq<byte>, future: seq<byte>, rs: seq<Record>, bufsize: nat, limit: nat)
    requires |behind| >= 4 && AllSendable(rs, bufsize, limit) && p + future == Frames(rs, bufsize, limit)
    ensures var (r, q) := ReadOne(p, behind, bufsize, limit);
            if rs != [] && |p| >= |Frame(rs[0])|
            then r == Got(rs[0]) && q + future == Frames(rs[1..], bufsize, limit)
            else r == NeedMore && q == p
  {
    hide ReadOne, Frame, ValidRecord, RecordSize, Restorable;
    if rs == [] {
      assert p == [];
      ReadNothing(behind, bufsize, limit);
    } else {
      var f := Frame(rs[0]);
      assert (p + future)[..|f|] == f;
      if |p| >= |f| {
        assert p == f + p[|f|..];
        ReadWhole(rs[0], p[|f|..], behind, bufsize, limit);
        assert (p + future)[|f|..] == p[|f|..] + future;
      } else {
        assert p == f[..|p|];
        ReadPart(rs[0], p, behind, bufsize, limit);
      }
    }
  }

  lemma ReadNothing(behind: seq<byte>, bufsize: nat, limit: nat)
    requires |behind| >= 4
    ensures ReadOne([], behind, bufsize, limit) == (NeedMore, [])
  {
  }

  /** Reads until there is nothing complete left; `rs` are the frames in the stream from here. */
  method Drain(input: Input, o: ByteOrder, beyond: seq<byte>, limit: nat,
               ghost future: seq<byte>, ghost rs: seq<Record>) returns (out: seq<Record>)
    requires |beyond| >= 4 && input.Valid() && AllSendable(rs, input.buf.Length, limit)
    requires input.Pending() + future == Frames(rs, input.buf.Length, limit)
    modifies input, input.buf
    ensures input.Valid() && out <= rs
    ensures input.Pending() + future == Frames(rs[|out|..], input.buf.Length, limit)
    ensures |out| < |rs| ==> |input.Pending()| < |Frame(rs[|out|])| && input.Room() > 0
  {
    hide ReadOne, Frame, ValidRecord, RecordSize, Restorable;
    out := [];
    assert rs[0..] == rs;
    while true
      invariant input.Valid() && out <= rs
      invariant input.Pending() + future == Frames(rs[|out|..], input.buf.Length, limit)
      decreases |rs| - |out|
    {
      ghost var left := rs[|out|..];
      NextCall(input.Pending(), input.Behind(beyond), future, left, input.buf.Length, limit);
      var r := input.BinaryReader(o, beyond, limit);
      if !r.Got? {
        break;
      }
      assert left[1..] == rs[|out| + 1..];
      out := out + [r.record];
    }
  }

  /** One delivery: `chunk` arrives and everything complete is read. */
  method Deliver(input: Input, chunk: seq<byte>, o: ByteOrder, beyond: seq<byte>, limit: nat,
                 ghost future: seq<byte>, ghost rs: seq<Record>)
    returns (out: seq<Record>)
    requires |beyond| >= 4 && input.Valid() && AllSendable(rs, input.buf.Length, limit) && |chunk| <= input.Room()
    requires input.Pending() + (chunk + future) == Frames(rs, input.buf.Length, limit)
    modifies input, input.buf
    ensures input.Valid() && out <= rs
    ensures input.Pending() + future == Frames(rs[|out|..], input.buf.Length, limit)
    ensures |out| < |rs| ==> |input.Pending()| < |Frame(rs[|out|])| && input.Room() > 0
  {
    hide Frame, ValidRecord, RecordSize, Restorable, Frames;
    ghost var before := input.Pending();
    input.Fill(chunk);
    assert before + (chunk + future) == input.Pending() + future;
    out := Drain(input, o, beyond, limit, future, rs);
  }

  lemma CutFits(most: nat, k: nat)
    requires most > 0
    ensures 1 <= 1 + k % most <= most
  {
  }

  /** Where a reader stands: `left` are the records still to be read from the unread bytes and the
      bytes to come, and if there are any the next one is not complete. */
  ghost predicate Waiting(input: Input, future: seq<byte>, left: seq<Record>, limit: nat)
    reads input, input.buf
  {
    && input.Valid() && AllSendable(left, input.buf.Length, limit)
    && input.Pending() + future == Frames(left, input.buf.Length, limit)
    && (left != [] ==> |input.Pending()| < |Frame(left[0])| && input.Room() > 0)
  }

  lemma WaitingMeans(input: Input, future: seq<byte>, left: seq<Record>, limit: nat)
    requires Waiting(input, future, left, limit)
    ensures left == [] <==> future == []
    ensures input.Valid() && (future != [] ==> input.Room() > 0)
  {
    hide Frame, ValidRecord, RecordSize, Restorable, Frames;
    FramesBegin(left, input.buf.Length, limit);
  }

  /** Some of the bytes to come arrive: as many as `k` says, at least one, no more than fit. */
  method ReceiveSome(input: Input, future: seq<byte>, k: nat, o: ByteOrder, beyond: seq<byte>, limit: nat,
                     ghost left: seq<Record>) returns (n: nat, got: seq<Record>)
    requires |beyond| >= 4 && future != [] && Waiting(input, future, left, limit)
    modifies input, input.buf
    ensures 0 < n <= |future| && got <= left && Waiting(input, future[n..], left[|got|..], limit)
  {
    hide Frame, ValidRecord, RecordSize, Restorable, Frames, Sendable;
    WaitingMeans(input, future, left, limit);
    var most := if input.Room() < |future| then input.Room() else |future|;
    CutFits(most, k);
    n := 1 + k % most;
    assert future == future[..n] + future[n..];
    got := Deliver(input, future[..n], o, beyond, limit, future[n..], left);
    assert left[|got|..] != [] ==> left[|got|..][0] == left[|got|];
  }

  /** Every way the socket may cut the stream of frames -- `cut` chooses how many of the bytes that
      fit and are there arrive next -- delivers exactly the records sent, in order. */
  method Receive(stream: seq<byte>, ghost rs: seq<Record>, o: ByteOrder, beyond: seq<byte>, bufsize: nat, limit: nat,
                 cut: nat -> nat)
    returns (out: seq<Record>)
    requires |beyond| >= 4 && bufsize < 0x8000_0000 && AllSendable(rs, bufsize, limit)
    requires stream == Frames(rs, bufsize, limit)
    ensures out == rs
  {
    hide Waiting, Frame, Frames, ValidRecord, RecordSize, Restorable;
    var input := new Input(bufsize);
    var pos, fills := 0, 0;
    out := [];
    assert rs[0..] == rs && stream[0..] == stream;
    WaitingAtFirst(input, stream, rs, limit);
    while pos < |stream|
      invariant fresh(input) && fresh(input.buf) && pos <= |stream| && out <= rs
      invariant Waiting(input, stream[pos..], rs[|out|..], limit)
      decreases |stream| - pos
    {
      ghost var left := rs[|out|..];
      var n, got := ReceiveSome(input, stream[pos..], cut(fills), o, beyond, limit, left);
      assert left[|got|..] == rs[|out| + |got|..] && stream[pos..][n..] == stream[pos + n..];
      pos, fills, out := pos + n, fills + 1, out + got;
    }
    WaitingMeans(input, stream[pos..], rs[|out|..], limit);
  }

  lemma WaitingAtFirst(input: Input, stream: seq<byte>, rs: seq<Record>, limit: nat)
    requires input.buf.Length < 0x8000_0000 && input.bufstart == 0 && input.buflen == 0
    requires AllSendable(rs, input.buf.Length, limit) && stream == Frames(rs, input.buf.Length, limit)
    ensures Waiting(input, stream, rs, limit)
  {
    hide Frame, ValidRecord, RecordSize, Restorable, Frames;
    assert [] + stream == stream;
    FramesBegin(rs, input.buf.Length, limit);
  }

  lemma FramesBegin(rs: seq<Record>, bufsize: nat, limit: nat)
    requires AllSendable(rs, bufsize, limit)
    ensures rs == [] ==> Frames(rs, bufsize, limit) == []
    ensures rs != [] ==> bufsize >= 8 && |Frames(rs, bufsize, limit)| >= |Frame(rs[0])| > 0
  {
    if rs != [] { assert Sendable(rs[0], bufsize, limit); }
  }
}
