/**
 The binary form of values and records (`src/common/value-serialize.c`,
 `src/common/logdata-serialize.c`).

 `EncodeValue`, `DecodeValue`, `EncodeRecord` and `DecodeRecord` are the format on byte
 sequences.  The methods write into and read from byte buffers with moving offsets, as the
 program does, and are proved to produce and to accept exactly that format.
 */
module Codec {
  import opened Bytes

  /** `Undef` keeps the type code of an undefined value.  `spill` is the byte the writer adds
      after a regexp: the case falls through into the boolean one. */
  datatype Data =
    | Undef(code: byte)
    | Integer(i: int)
    | Text(s: seq<byte>)
    | Datetime(t: int)
    | Regexp(re: seq<byte>, spill: byte)
    | Boolean(b: bool)
    | Ip4(a4: seq<byte>)
    | Ip6(a6: seq<byte>)
    | Binary(bin: seq<byte>)

  datatype DecodeError = NotEnoughData | NoRegexp | BadType | Oversized | BadKeyLength

  datatype Result<+T> = Ok(value: T) | Err(error: DecodeError)

  /** In front of every record in a binary stream. */
  const HEADER: seq<byte> := [0, 78, 88, 0]

  const INTEGER: byte := 1
  const STRING: byte := 2
  const DATETIME: byte := 3
  const REGEXP: byte := 4
  const BOOLEAN: byte := 5
  const IP4ADDR: byte := 6
  const IP6ADDR: byte := 7
  const BINARY: byte := 8
  const UNKNOWN: byte := 9

  function Code(v: Data): (c: byte) {
    match v
    case Undef(c) => c
    case Integer(_) => INTEGER
    case Text(_) => STRING
    case Datetime(_) => DATETIME
    case Regexp(_, _) => REGEXP
    case Boolean(_) => BOOLEAN
    case Ip4(_) => IP4ADDR
    case Ip6(_) => IP6ADDR
    case Binary(_) => BINARY
  }

  /** The value fits the machine types that hold it. */
  predicate Representable(v: Data) {
    match v
    case Integer(i) => IsInt64(i)
    case Datetime(t) => IsInt64(t)
    case Text(s) => |s| < TWO32
    case Regexp(s, _) => |s| < TWO32
    case Binary(s) => |s| < TWO32
    case Ip4(a) => |a| == 4
    case Ip6(a) => |a| == 16
    case _ => true
  }

  function ValueSize(v: Data): (n: nat) {
    match v
    case Undef(_) => 2
    case Integer(_) => 10
    case Text(s) => 6 + |s|
    case Datetime(_) => 10
    case Regexp(s, _) => 7 + |s|
    case Boolean(_) => 3
    case Ip4(_) => 6
    case Ip6(_) => 18
    case Binary(s) => 6 + |s|
  }

  function Payload(v: Data): (r: seq<byte>)
    requires Representable(v)
  {
    match v
    case Undef(_) => []
    case Integer(i) => Little(Unsigned(i), 8)
    case Text(s) => Little(|s|, 4) + s
    case Datetime(t) => Little(Unsigned(t), 8)
    case Regexp(s, spill) => Little(|s|, 4) + s + [spill]
    case Boolean(b) => [if b then 1 else 0]
    case Ip4(a) => a
    case Ip6(a) => a
    case Binary(s) => Little(|s|, 4) + s
  }

  function EncodeValue(v: Data): (r: seq<byte>)
    requires Representable(v)
    ensures |r| == ValueSize(v)
  {
    [Code(v), if v.Undef? then 0 else 1] + Payload(v)
  }

  /** Reads a value from the front of `b`: the value and the number of bytes it took. */
  function DecodeValue(b: seq<byte>, limit: nat): (r: Result<(Data, nat)>)
    ensures r.Ok? ==> 2 <= r.value.1 <= |b|
  {
    if |b| < 2 then Err(NotEnoughData)
    else if b[1] != 1 then Ok((Undef(b[0]), 2))
    else DecodePayload(b[0], b[2..], limit)
  }

  function DecodePayload(code: byte, b: seq<byte>, limit: nat): (r: Result<(Data, nat)>)
    ensures r.Ok? ==> 2 <= r.value.1 <= |b| + 2
  {
    if code == INTEGER then
      if |b| < 8 then Err(NotEnoughData) else Ok((Integer(Signed(Value(b[..8]))), 10))
    else if code == STRING then
      if |b| < 4 then Err(NotEnoughData)
      else var n := Value(b[..4]);
           if 4 + n > |b| then Err(NotEnoughData)
           else if n > limit then Err(Oversized)
           else Ok((Text(b[4..4 + n]), 6 + n))
    else if code == DATETIME then
      if |b| < 8 then Err(NotEnoughData) else Ok((Datetime(Signed(Value(b[..8]))), 10))
    else if code == REGEXP then Err(NoRegexp)
    else if code == BOOLEAN then
      if |b| < 1 then Err(NotEnoughData) else Ok((Boolean(b[0] == 1), 3))
    else if code == IP4ADDR then
      if |b| < 4 then Err(NotEnoughData) else Ok((Ip4(b[..4]), 6))
    else if code == IP6ADDR then
      if |b| < 16 then Err(NotEnoughData) else Ok((Ip6(b[..16]), 18))
    else if code == BINARY then
      if |b| < 4 then Err(NotEnoughData)
      else var n := Value(b[..4]);
           if 4 + n > |b| then Err(NotEnoughData)
           else Ok((Binary([]), 6 + n))              // the length field of the new value stays 0
    else Err(BadType)
  }

  /** What reading back a written value gives. */
  function Restored(v: Data, limit: nat): (r: Result<Data>) {
    match v
    case Regexp(_, _) => Err(NoRegexp)
    case Binary(_) => Ok(Binary([]))
    case Text(s) => if |s| > limit then Err(Oversized) else Ok(v)
    case _ => Ok(v)
  }

  /** The values that survive: no regexps, no binary data, strings within the limit. */
  predicate Restorable(v: Data, limit: nat) {
    && !v.Regexp?
    && (v.Binary? ==> v.bin == [])
    && (v.Text? ==> |v.s| <= limit)
  }

  lemma PrefixedRead(s: seq<byte>, rest: seq<byte>)
    requires |s| < TWO32
    ensures var b := Little(|s|, 4) + s + rest;
            Value(b[..4]) == |s| && 4 + |s| <= |b| && b[4..4 + |s|] == s
  {
    Powers();
    ValueOfLittle(|s|, 4);
    assert (Little(|s|, 4) + s + rest)[..4] == Little(|s|, 4);
  }

  function Counted<T>(r: Result<T>, n: nat): (c: Result<(T, nat)>) {
    match r
    case Ok(x) => Ok((x, n))
    case Err(e) => Err(e)
  }

  lemma ReadPayload(v: Data, rest: seq<byte>, limit: nat)
    requires Representable(v) && !v.Undef?
    ensures DecodePayload(Code(v), Payload(v) + rest, limit) == Counted(Restored(v, limit), ValueSize(v))
  {
    var b := Payload(v) + rest;
    match v {
      case Integer(i) => Int64RoundTrip(i); assert b[..8] == Payload(v);
      case Datetime(t) => Int64RoundTrip(t); assert b[..8] == Payload(v);
      case Text(s) => PrefixedRead(s, rest);
      case Binary(s) => PrefixedRead(s, rest);
      case Ip4(a) => assert b[..4] == a;
      case Ip6(a) => assert b[..16] == a;
      case Boolean(x) =>
      case Regexp(s, x) =>
    }
  }

  lemma ReadHeader(code: byte, defined: byte, p: seq<byte>, rest: seq<byte>, limit: nat)
    ensures DecodeValue([code, defined] + p + rest, limit) ==
            if defined == 1 then DecodePayload(code, p + rest, limit) else Ok((Undef(code), 2))
  {
    assert ([code, defined] + p + rest)[2..] == p + rest;
  }

  /** Reading what was written, with anything behind it: the restored value, and exactly the
      bytes written are consumed. */
  lemma ReadWritten(v: Data, rest: seq<byte>, limit: nat)
    requires Representable(v)
    ensures DecodeValue(EncodeValue(v) + rest, limit) == Counted(Restored(v, limit), ValueSize(v))
  {
    ReadHeader(Code(v), if v.Undef? then 0 else 1, Payload(v), rest, limit);
    if !v.Undef? {
      ReadPayload(v, rest, limit);
    }
  }

  /** The round trip holds for exactly the restorable values. */
  lemma ValueRoundTrip(v: Data, rest: seq<byte>, limit: nat)
    requires Representable(v)
    ensures DecodeValue(EncodeValue(v) + rest, limit) == Ok((v, ValueSize(v))) <==> Restorable(v, limit)
  {
    ReadWritten(v, rest, limit);
  }

  // ----- Records

  datatype Field = Field(key: seq<byte>, value: Data)

  /** `raw` is the text of the raw-event shortcut. */
  datatype Record = Record(fields: seq<Field>, raw: seq<byte>)

  const RAW_EVENT: seq<byte> := [114, 97, 119, 95, 101, 118, 101, 110, 116]

  /** The shortcut left by the fields read in order: the last string field of that name, empty
      if there is none or it is undefined. */
  function RawOf(fields: seq<Field>): (r: seq<byte>)
    decreases |fields|
  {
    if fields == [] then []
    else var f := fields[|fields| - 1];
         if f.key == RAW_EVENT && Code(f.value) == STRING
         then if f.value.Text? then f.value.s else []
         else RawOf(fields[..|fields| - 1])
  }

  const MAX: nat := 32767

  predicate ValidField(f: Field) {
    1 <= |f.key| <= MAX && 0 !in f.key && Representable(f.value)
  }

  predicate ValidFields(fields: seq<Field>) {
    forall i :: 0 <= i < |fields| ==> ValidField(fields[i])
  }

  predicate ValidRecord(r: Record) {
    ValidFields(r.fields) && |r.fields| <= MAX && r.raw == RawOf(r.fields)
  }

  function FieldsSize(fields: seq<Field>): (n: nat)
    decreases |fields|
  {
    if fields == [] then 0 else 2 + |fields[0].key| + ValueSize(fields[0].value) + FieldsSize(fields[1..])
  }

  function RecordSize(r: Record): (n: nat) { 2 + FieldsSize(r.fields) }

  function EncodeField(f: Field): (r: seq<byte>)
    requires ValidField(f)
    ensures |r| == 2 + |f.key| + ValueSize(f.value)
  {
    Little(|f.key|, 2) + f.key + EncodeValue(f.value)
  }

  function EncodeFields(fields: seq<Field>): (r: seq<byte>)
    requires ValidFields(fields)
    ensures |r| == FieldsSize(fields)
    decreases |fields|
  {
    if fields == [] then [] else EncodeField(fields[0]) + EncodeFields(fields[1..])
  }

  function EncodeRecord(r: Record): (b: seq<byte>)
    requires ValidRecord(r)
    ensures |b| == RecordSize(r)
  {
    Little(|r.fields|, 2) + EncodeFields(r.fields)
  }

  /** The value read behind `n` bytes of key and key length. */
  function Keyed(key: seq<byte>, n: nat, r: Result<(Data, nat)>): (c: Result<(Field, nat)>) {
    match r
    case Err(e) => Err(e)
    case Ok(x) => Ok((Field(key, x.0), n + x.1))
  }

  /** The fields read behind a field of `n` bytes. */
  function Consed(f: Field, n: nat, r: Result<(seq<Field>, nat)>): (c: Result<(seq<Field>, nat)>) {
    match r
    case Err(e) => Err(e)
    case Ok(x) => Ok(([f] + x.0, n + x.1))
  }

  /** One field from the front of `b`. */
  function DecodeField(b: seq<byte>, limit: nat): (r: Result<(Field, nat)>)
    ensures r.Ok? ==> 5 <= r.value.1 <= |b|
  {
    if |b| < 2 then Err(NotEnoughData)
    else
      var n := Value(b[..2]);
      if n == 0 then Err(BadKeyLength)
      else if 2 + n >= |b| then Err(NotEnoughData)
      else Keyed(CString(b[2..2 + n]), 2 + n, DecodeValue(b[2 + n..], limit))
  }

  function DecodeFields(b: seq<byte>, count: nat, limit: nat): (r: Result<(seq<Field>, nat)>)
    ensures r.Ok? ==> r.value.1 <= |b| && |r.value.0| == count
    decreases count
  {
    if count == 0 then Ok(([], 0))
    else match DecodeField(b, limit)
         case Err(e) => Err(e)
         case Ok((f, k)) => Consed(f, k, DecodeFields(b[k..], count - 1, limit))
  }

  /** The loop counter is a signed 16-bit integer: a larger count is never reached, and the loop
      only ends when the data runs out. */
  function LoopBound(count: nat, b: seq<byte>): (n: nat) {
    if count <= MAX then count else |b|
  }

  /** The record of the fields read behind the field count. */
  function Whole(r: Result<(seq<Field>, nat)>): (c: Result<(Record, nat)>) {
    match r
    case Err(e) => Err(e)
    case Ok(x) => Ok((Record(x.0, RawOf(x.0)), 2 + x.1))
  }

  function DecodeRecord(b: seq<byte>, limit: nat): (r: Result<(Record, nat)>)
    ensures r.Ok? ==> r.value.1 <= |b|
  {
    if |b| <= 1 then Err(NotEnoughData)
    else Whole(DecodeFields(b[2..], LoopBound(Value(b[..2]), b), limit))
  }

  // ----- Record round trip

  /** Field values as they come back, or the first error. */
  function RestoredFields(fields: seq<Field>, limit: nat): (r: Result<seq<Field>>)
    ensures r.Ok? ==> |r.value| == |fields|
    decreases |fields|
  {
    if fields == [] then Ok([])
    else match Restored(fields[0].value, limit)
         case Err(e) => Err(e)
         case Ok(v) =>
           match RestoredFields(fields[1..], limit)
           case Err(e) => Err(e)
           case Ok(fs) => Ok([Field(fields[0].key, v)] + fs)
  }

  /** A length-prefixed key and an encoded value, in front of anything. */
  lemma ReadKey(key: seq<byte>, v: seq<byte>, limit: nat)
    requires 1 <= |key| <= MAX && 0 !in key && v != []
    ensures DecodeField(Little(|key|, 2) + key + v, limit) ==
            Keyed(key, 2 + |key|, DecodeValue(v, limit))
  {
    hide DecodeValue, Little, Value, CString;
    var b := Little(|key|, 2) + key + v;
    Powers();
    ValueOfLittle(|key|, 2);
    assert b[..2] == Little(|key|, 2);
    assert b[2..2 + |key|] == key;
    assert b[2 + |key|..] == v;
  }

  lemma ValueIsNotEmpty(v: Data)
    requires Representable(v)
    ensures |EncodeValue(v)| >= 2
  {
  }

  lemma ReadField(f: Field, rest: seq<byte>, limit: nat)
    requires ValidField(f)
    ensures DecodeField(EncodeField(f) + rest, limit) ==
            Keyed(f.key, 2 + |f.key|, Counted(Restored(f.value, limit), ValueSize(f.value)))
  {
    hide DecodeField, DecodeValue, EncodeValue, Restored, Little, Representable;
    var v := EncodeValue(f.value) + rest;
    ValueIsNotEmpty(f.value);
    ReadKey(f.key, v, limit);
    assert EncodeField(f) + rest == Little(|f.key|, 2) + f.key + v;
    ReadWritten(f.value, rest, limit);
  }

  /** Decoding continues behind a field that decodes. */
  lemma DecodeOn(b: seq<byte>, tail: seq<byte>, count: nat, f: Field, limit: nat)
    requires DecodeField(b + tail, limit) == Ok((f, |b|))
    ensures DecodeFields(b + tail, count + 1, limit) ==
            Consed(f, |b|, DecodeFields(tail, count, limit))
  {
    assert (b + tail)[|b|..] == tail;
  }

  lemma EncodeSplit(fields: seq<Field>, rest: seq<byte>)
    requires ValidFields(fields) && fields != []
    ensures EncodeFields(fields) + rest == EncodeField(fields[0]) + (EncodeFields(fields[1..]) + rest)
  {
  }

  /** One field of the induction below, with the bytes behind it kept abstract. */
  lemma ReadOn(f: Field, tail: seq<byte>, count: nat, limit: nat)
    requires ValidField(f)
    ensures DecodeFields(EncodeField(f) + tail, count + 1, limit) ==
            (match Restored(f.value, limit)
             case Err(e) => Err(e)
             case Ok(v) => Consed(Field(f.key, v), 2 + |f.key| + ValueSize(f.value), DecodeFields(tail, count, limit)))
  {
    hide DecodeField, EncodeField, Restored;
    ReadField(f, tail, limit);
    if Restored(f.value, limit).Ok? {
      DecodeOn(EncodeField(f), tail, count, Field(f.key, Restored(f.value, limit).value), limit);
    }
  }

  lemma {:induction false} ReadFields(fields: seq<Field>, rest: seq<byte>, limit: nat)
    requires ValidFields(fields)
    ensures DecodeFields(EncodeFields(fields) + rest, |fields|, limit) ==
            Counted(RestoredFields(fields, limit), FieldsSize(fields))
    decreases |fields|
  {
    hide DecodeField, EncodeField, Restored;
    if fields != [] {
      EncodeSplit(fields, rest);
      ReadOn(fields[0], EncodeFields(fields[1..]) + rest, |fields| - 1, limit);
      ReadFields(fields[1..], rest, limit);
    }
  }

  lemma {:induction false} RestoredIsSame(fields: seq<Field>, limit: nat)
    ensures RestoredFields(fields, limit) == Ok(fields) <==>
            forall i :: 0 <= i < |fields| ==> Restorable(fields[i].value, limit)
    decreases |fields|
  {
    if fields != [] {
      var f, rest := fields[0], fields[1..];
      RestoredIsSame(rest, limit);
      assert forall i :: 1 <= i < |fields| ==> fields[i] == rest[i - 1];
      assert forall i :: 0 <= i < |rest| ==> rest[i] == fields[i + 1];
      assert fields == [f] + rest;
      assert Restored(f.value, limit) == Ok(f.value) <==> Restorable(f.value, limit);
      if RestoredFields(fields, limit) == Ok(fields) {
        assert RestoredFields(fields, limit).value[0] == f;
        assert RestoredFields(fields, limit).value[1..] == rest;
      }
    }
  }

  lemma ReadCount(n: nat, body: seq<byte>, limit: nat)
    requires n <= MAX
    ensures DecodeRecord(Little(n, 2) + body, limit) == Whole(DecodeFields(body, n, limit))
  {
    hide DecodeFields, RawOf;
    Powers();
    ValueOfLittle(n, 2);
    assert (Little(n, 2) + body)[..2] == Little(n, 2);
    assert (Little(n, 2) + body)[2..] == body;
  }

  /** A record written and read back, with anything behind it, consumes exactly what was written
      and comes back equal if and only if all its values are restorable. */
  lemma RecordRoundTrip(r: Record, rest: seq<byte>, limit: nat)
    requires ValidRecord(r)
    ensures DecodeRecord(EncodeRecord(r) + rest, limit) == Ok((r, RecordSize(r))) <==>
            forall i :: 0 <= i < |r.fields| ==> Restorable(r.fields[i].value, limit)
  {
    hide DecodeRecord, EncodeFields, DecodeFields, RestoredFields, RawOf, Restorable;
    assert EncodeRecord(r) + rest == Little(|r.fields|, 2) + (EncodeFields(r.fields) + rest);
    ReadCount(|r.fields|, EncodeFields(r.fields) + rest, limit);
    ReadFields(r.fields, rest, limit);
    RestoredIsSame(r.fields, limit);
  }
}
