/**
 Values and records written to and read from byte buffers with moving offsets
 (`src/common/value-serialize.c`, `src/common/logdata-serialize.c`), on hosts of either byte order.
 */
module CodecBuffers {
  import opened Bytes
  import opened Codec

  /** The space the writer checks for; for a regexp that is one byte less than it writes. */
  function CheckedSize(v: Data): (n: nat) {
    if v.Regexp? then ValueSize(v) - 1 else ValueSize(v)
  }

  method PutBlock(o: ByteOrder, buf: array<byte>, at: nat, s: seq<byte>)
    requires |s| < TWO32 && at + 4 + |s| <= buf.Length
    modifies buf
    ensures buf[..] == Overwrite(old(buf[..]), at, Little(|s|, 4) + s)
  {
    Powers();
    PutInt(o, buf, at, |s|, 4);
    Copy(buf, at + 4, s);
    OverwriteOn(old(buf[..]), at, Little(|s|, 4), s);
  }

  method PutPayload(o: ByteOrder, v: Data, buf: array<byte>, at: nat)
    requires Representable(v) && at + |Payload(v)| <= buf.Length
    modifies buf
    ensures buf[..] == Overwrite(old(buf[..]), at, Payload(v))
  {
    hide Little, Power;
    Powers();
    match v {
      case Undef(_) => assert buf[..] == Overwrite(buf[..], at, []);
      case Integer(i) => PutInt(o, buf, at, Unsigned(i), 8);
      case Text(s) => PutBlock(o, buf, at, s);
      case Datetime(t) => PutInt(o, buf, at, Unsigned(t), 8);
      case Regexp(s, spill) =>
        PutBlock(o, buf, at, s);
        Copy(buf, at + 4 + |s|, [spill]);
        OverwriteOn(old(buf[..]), at, Little(|s|, 4) + s, [spill]);
      case Boolean(b) => Copy(buf, at, [if b then 1 else 0]);
      case Ip4(a) => Copy(buf, at, a);
      case Ip6(a) => Copy(buf, at, a);
      case Binary(s) => PutBlock(o, buf, at, s);
    }
  }

  /** Writes a value if the space allows, and returns the number of bytes written, 0 if not.
      The two header bytes are written as soon as there is room for them. */
  method ValueToMembuf(o: ByteOrder, v: Data, buf: array<byte>, at: nat, bufsize: nat) returns (n: nat)
    requires Representable(v) && at + bufsize <= buf.Length
    requires v.Regexp? ==> at + ValueSize(v) <= buf.Length
    modifies buf
    ensures n == if bufsize < CheckedSize(v) then 0 else ValueSize(v)
    ensures n > 0 ==> buf[..] == Overwrite(old(buf[..]), at, EncodeValue(v))
    ensures n == 0 && bufsize < 2 ==> buf[..] == old(buf[..])
    ensures n == 0 && bufsize >= 2 ==> buf[..] == Overwrite(old(buf[..]), at, EncodeValue(v)[..2])
  {
    if bufsize < 2 {
      return 0;
    }
    var header := [Code(v), if v.Undef? then 0 else 1];
    assert EncodeValue(v)[..2] == header;
    Copy(buf, at, header);
    if bufsize < CheckedSize(v) {
      return 0;
    }
    PutPayload(o, v, buf, at + 2);
    OverwriteOn(old(buf[..]), at, header, Payload(v));
    n := ValueSize(v);
  }

  lemma {:induction false} EncodeSnoc(fields: seq<Field>, f: Field)
    requires ValidFields(fields) && ValidField(f)
    ensures EncodeFields(fields + [f]) == EncodeFields(fields) + EncodeField(f)
    decreases |fields|
  {
    hide EncodeField;
    if fields == [] {
      assert ([] + [f])[1..] == [];
    } else {
      EncodeSnoc(fields[1..], f);
      assert (fields + [f])[1..] == fields[1..] + [f];
    }
  }

  method PutField(o: ByteOrder, f: Field, buf: array<byte>, at: nat, bufsize: nat) returns (n: nat)
    requires ValidField(f) && |EncodeField(f)| <= bufsize && at + bufsize <= buf.Length
    modifies buf
    ensures n == |EncodeField(f)|
    ensures buf[..] == Overwrite(old(buf[..]), at, EncodeField(f))
  {
    hide EncodeValue, Little, Power, Overwrite;
    Powers();
    PutInt(o, buf, at, |f.key|, 2);
    var ptr := at + 2;
    Copy(buf, ptr, f.key);
    ptr := ptr + |f.key|;
    OverwriteOn(old(buf[..]), at, Little(|f.key|, 2), f.key);
    var valsize := ValueToMembuf(o, f.value, buf, ptr, bufsize - (ptr - at));
    OverwriteOn(old(buf[..]), at, Little(|f.key|, 2) + f.key, EncodeValue(f.value));
    n := ptr + valsize - at;
  }

  /** Writes a record into a buffer with room for it.  The field count is written last, into the
      space left for it at the front. */
  method RecordToMembuf(o: ByteOrder, r: Record, buf: array<byte>, at: nat, bufsize: nat) returns (n: nat)
    requires ValidRecord(r) && RecordSize(r) <= bufsize && at + bufsize <= buf.Length
    modifies buf
    ensures n == RecordSize(r)
    ensures buf[..] == Overwrite(old(buf[..]), at, EncodeRecord(r))
  {
    hide EncodeField, EncodeFields, FieldsSize, Overwrite, Little, Power;
    var ptr := at + 2;
    var count := 0;
    EncodeNone(r.fields, buf[..], at + 2);
    for i := 0 to |r.fields|
      invariant count == i
      invariant ptr == at + 2 + |EncodeFields(r.fields[..i])|
      invariant FieldsSize(r.fields) == |EncodeFields(r.fields[..i])| + FieldsSize(r.fields[i..])
      invariant buf[..] == Overwrite(old(buf[..]), at + 2, EncodeFields(r.fields[..i]))
    {
      var f := r.fields[i];
      assert r.fields[..i] + [f] == r.fields[..i + 1];
      EncodeSnoc(r.fields[..i], f);
      SizeSplit(r.fields, i);
      var size := PutField(o, f, buf, ptr, at + bufsize - ptr);
      OverwriteOn(old(buf[..]), at + 2, EncodeFields(r.fields[..i]), EncodeField(f));
      ptr := ptr + size;
      count := count + 1;
    }
    Powers();
    assert r.fields[..|r.fields|] == r.fields;
    PutInt(o, buf, at, count, 2);
    OverwriteOn(old(buf[..]), at, Little(count, 2), EncodeFields(r.fields));
    n := ptr - at;
  }

  lemma EncodeNone(fields: seq<Field>, b: seq<byte>, at: nat)
    requires at <= |b|
    ensures EncodeFields(fields[..0]) == [] && fields[0..] == fields
    ensures b == Overwrite(b, at, [])
  {
  }

  lemma SizeSplit(fields: seq<Field>, i: nat)
    requires ValidFields(fields) && i < |fields|
    ensures FieldsSize(fields[i..]) == |EncodeField(fields[i])| + FieldsSize(fields[i + 1..])
  {
    assert fields[i..][1..] == fields[i + 1..];
  }

  // ----- Reading

  method ValueFromMembuf(o: ByteOrder, buf: array<byte>, at: nat, bufsize: nat, limit: nat)
    returns (r: Result<(Data, nat)>)
    requires at + bufsize <= buf.Length
    ensures r == DecodeValue(buf[at..at + bufsize], limit)
  {
    if 2 > bufsize {
      return Err(NotEnoughData);
    }
    var code, defined := buf[at], buf[at + 1];
    if defined != 1 {
      return Ok((Undef(code), 2));
    }
    ghost var b := buf[at + 2..at + bufsize];
    assert buf[at..at + bufsize][2..] == b;
    r := GetPayload(o, code, buf, at + 2, bufsize - 2, limit);
  }

  /** The data behind the header; `size` bytes are left in the buffer. */
  method GetPayload(o: ByteOrder, code: byte, buf: array<byte>, at: nat, size: nat, limit: nat)
    returns (r: Result<(Data, nat)>)
    requires at + size <= buf.Length
    ensures r == DecodePayload(code, buf[at..at + size], limit)
  {
    hide Value, Signed;
    if code == INTEGER || code == DATETIME {
      if size < 8 {
        return Err(NotEnoughData);
      }
      SliceOfSlice(buf[..], at, size, 0, 8);
      var v := GetInt(o, buf, at, 8);
      r := Ok((if code == INTEGER then Integer(Signed(v)) else Datetime(Signed(v)), 10));
    } else if code == STRING || code == BINARY {
      if size < 4 {
        return Err(NotEnoughData);
      }
      SliceOfSlice(buf[..], at, size, 0, 4);
      var len := GetInt(o, buf, at, 4);
      if 4 + len > size {
        return Err(NotEnoughData);
      }
      if code == BINARY {
        return Ok((Binary([]), 6 + len));
      }
      if len > limit {
        return Err(Oversized);
      }
      SliceOfSlice(buf[..], at, size, 4, 4 + len);
      r := Ok((Text(buf[at + 4..at + 4 + len]), 6 + len));
    } else if code == REGEXP {
      r := Err(NoRegexp);
    } else if code == BOOLEAN {
      r := if size < 1 then Err(NotEnoughData) else Ok((Boolean(buf[at] == 1), 3));
    } else if code == IP4ADDR {
      if size < 4 {
        return Err(NotEnoughData);
      }
      SliceOfSlice(buf[..], at, size, 0, 4);
      r := Ok((Ip4(buf[at..at + 4]), 6));
    } else if code == IP6ADDR {
      if size < 16 {
        return Err(NotEnoughData);
      }
      SliceOfSlice(buf[..], at, size, 0, 16);
      r := Ok((Ip6(buf[at..at + 16]), 18));
    } else {
      r := Err(BadType);
    }
  }

  /** One field, `size` bytes being left in the buffer. */
  method FieldFromMembuf(o: ByteOrder, buf: array<byte>, at: nat, size: nat, limit: nat)
    returns (r: Result<(Field, nat)>)
    requires at + size <= buf.Length
    ensures r == DecodeField(buf[at..at + size], limit)
  {
    hide DecodeValue, Value, CString;
    if size < 2 {
      return Err(NotEnoughData);
    }
    SliceOfSlice(buf[..], at, size, 0, 2);
    var keylen := GetInt(o, buf, at, 2);
    if keylen <= 0 {
      return Err(BadKeyLength);
    }
    if 2 + keylen >= size {
      return Err(NotEnoughData);
    }
    SliceOfSlice(buf[..], at, size, 2, 2 + keylen);
    var key := CString(buf[at + 2..at + 2 + keylen]);
    SliceOfSlice(buf[..], at, size, 2 + keylen, size);
    var val := ValueFromMembuf(o, buf, at + 2 + keylen, size - 2 - keylen, limit);
    r := Keyed(key, 2 + keylen, val);
  }

  /** Fields `fs`, of `n` bytes, in front of what `r` reads. */
  function Prepend(fs: seq<Field>, n: nat, r: Result<(seq<Field>, nat)>): (c: Result<(seq<Field>, nat)>) {
    match r
    case Err(e) => Err(e)
    case Ok(x) => Ok((fs + x.0, n + x.1))
  }

  lemma PrependNothing(r: Result<(seq<Field>, nat)>)
    ensures Prepend([], 0, r) == r
  {
    if r.Ok? { assert [] + r.value.0 == r.value.0; }
  }

  lemma PrependStep(fs: seq<Field>, n: nat, b: seq<byte>, count: nat, limit: nat)
    requires count > 0
    ensures match DecodeField(b, limit)
            case Err(e) => Prepend(fs, n, DecodeFields(b, count, limit)) == Err(e)
            case Ok(x) =>
              Prepend(fs, n, DecodeFields(b, count, limit)) ==
              Prepend(fs + [x.0], n + x.1, DecodeFields(b[x.1..], count - 1, limit))
  {
    hide DecodeField;
    if DecodeField(b, limit).Ok? {
      var x := DecodeField(b, limit).value;
      var rest := DecodeFields(b[x.1..], count - 1, limit);
      if rest.Ok? {
        assert fs + ([x.0] + rest.value.0) == fs + [x.0] + rest.value.0;
      }
    }
  }

  lemma PrependLast(fs: seq<Field>, n: nat, b: seq<byte>, limit: nat)
    ensures Prepend(fs, n, DecodeFields(b, 0, limit)) == Ok((fs, n))
  {
    assert fs + [] == fs;
  }

  method RecordFromMembuf(o: ByteOrder, buf: array<byte>, at: nat, bufsize: nat, limit: nat)
    returns (r: Result<(Record, nat)>)
    requires at + bufsize <= buf.Length
    ensures r == DecodeRecord(buf[at..at + bufsize], limit)
  {
    hide DecodeField, DecodeFields, Prepend;
    if bufsize <= 1 {
      return Err(NotEnoughData);
    }
    ghost var b := buf[at..at + bufsize];
    assert b[..2] == buf[at..at + 2];
    var count := GetInt(o, buf, at, 2);
    var bound := LoopBound(count, buf[at..at + bufsize]);
    var offs := 2;
    var fields: seq<Field> := [];
    var raw: seq<byte> := [];
    PrependNothing(DecodeFields(b[2..], bound, limit));
    for i := 0 to bound
      invariant 2 <= offs <= bufsize && raw == RawOf(fields)
      invariant DecodeFields(b[2..], bound, limit) ==
                Prepend(fields, offs - 2, DecodeFields(b[offs..], bound - i, limit))
    {
      assert b[offs..] == buf[at + offs..at + bufsize];
      PrependStep(fields, offs - 2, b[offs..], bound - i, limit);
      var f := FieldFromMembuf(o, buf, at + offs, bufsize - offs, limit);
      if f.Err? {
        return Err(f.error);
      }
      var (field, len) := f.value;
      assert b[offs..][len..] == b[offs + len..];
      offs := offs + len;
      assert (fields + [field])[..|fields|] == fields;
      if field.key == RAW_EVENT && Code(field.value) == STRING {
        raw := if field.value.Text? then field.value.s else [];
      }
      fields := fields + [field];
    }
    PrependLast(fields, offs - 2, b[offs..], limit);
    r := Ok((Record(fields, raw), offs));
  }

  /** Through real buffers, on any pair of hosts: what one writes the other reads back. */
  method WriteThenRead(w: ByteOrder, r: ByteOrder, rec: Record, limit: nat) returns (back: Result<(Record, nat)>)
    requires ValidRecord(rec)
    requires forall i :: 0 <= i < |rec.fields| ==> Restorable(rec.fields[i].value, limit)
    ensures back == Ok((rec, RecordSize(rec)))
  {
    hide DecodeRecord, EncodeRecord;
    var buf := new byte[RecordSize(rec)];
    var n := RecordToMembuf(w, rec, buf, 0, buf.Length);
    assert buf[0..n] == EncodeRecord(rec) + [];
    RecordRoundTrip(rec, [], limit);
    back := RecordFromMembuf(r, buf, 0, n, limit);
  }
}
