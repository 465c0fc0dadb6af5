/**
 The binary format (`src/common/value-serialize.c`, `src/common/logdata-serialize.c`) byte by byte,
 and on bytes that no writer has produced as they stand: cut short, or from anywhere.
 */
module CodecLaws {
  import opened Bytes
  import opened Codec

  // ----- Layout

  lemma {:induction false} ZerosAreZero(k: nat)
    ensures Value(seq(k, _ => 0)) == 0
  {
    if k > 0 {
      ZerosAreZero(k - 1);
      assert seq(k, _ => 0)[1..] == seq(k - 1, _ => 0);
    }
  }

  lemma {:induction false} ValuePadded(s: seq<byte>, k: nat)
    ensures Value(s + seq(k, _ => 0)) == Value(s)
  {
    if s == [] {
      ZerosAreZero(k);
      assert s + seq(k, _ => 0) == seq(k, _ => 0);
    } else {
      ValuePadded(s[1..], k);
      assert (s + seq(k, _ => 0))[1..] == s[1..] + seq(k, _ => 0);
    }
  }

  /** Small integers have zeros at the end. */
  lemma LittlePadded(s: seq<byte>, k: nat)
    ensures Little(Value(s), |s| + k) == s + seq(k, _ => 0)
  {
    hide Little, Value;
    ValuePadded(s, k);
    LittleOfValue(s + seq(k, _ => 0));
  }

  lemma OneByte(a: byte)
    ensures Little(a, 4) == [a, 0, 0, 0]
  {
    LittlePadded([a], 3);
    assert [a][1..] == [];
    assert [a] + seq(3, _ => 0) == [a, 0, 0, 0];
  }

  lemma TwoBytes(a: byte, b: byte)
    ensures Little(a + 256 * b, 8) == [a, b, 0, 0, 0, 0, 0, 0]
  {
    hide Little;
    LittlePadded([a, b], 6);
    assert [a, b][1..] == [b] && [b][1..] == [];
    assert Value([b]) == b + 256 * Value([b][1..]) && Value([]) == 0;
    assert Value([a, b]) == a + 256 * Value([a, b][1..]);
    assert [a, b] + seq(6, _ => 0) == [a, b, 0, 0, 0, 0, 0, 0];
  }

  /** The type codes and the layout of values. */
  lemma Layout(a: byte, b: byte, six: seq<byte>)
    requires |six| == 16
    ensures EncodeValue(Integer(a + 256 * b)) == [1, 1, a, b, 0, 0, 0, 0, 0, 0]
    ensures EncodeValue(Text([a, b])) == [2, 1, 2, 0, 0, 0, a, b]
    ensures EncodeValue(Datetime(a + 256 * b)) == [3, 1, a, b, 0, 0, 0, 0, 0, 0]
    ensures EncodeValue(Regexp([a], b)) == [4, 1, 1, 0, 0, 0, a, b]
    ensures EncodeValue(Boolean(true)) == [5, 1, 1] && EncodeValue(Boolean(false)) == [5, 1, 0]
    ensures EncodeValue(Ip4([a, b, a, b])) == [6, 1, a, b, a, b]
    ensures EncodeValue(Ip6(six)) == [7, 1] + six
    ensures EncodeValue(Binary([a])) == [8, 1, 1, 0, 0, 0, a]
    ensures EncodeValue(Undef(a)) == [a, 0]
    ensures HEADER == ['\0' as int, 'N' as int, 'X' as int, '\0' as int]
  {
    hide Little;
    TwoBytes(a, b);
    OneByte(1);
    OneByte(2);
  }

  /** Field `i` sets the raw event: it has that name and is a string, defined or not. */
  predicate SetsRaw(fields: seq<Field>, i: nat) {
    i < |fields| && fields[i].key == CharCodes("raw_event") && Code(fields[i].value) == 2
  }

  function CharCodes(s: string): (r: seq<byte>)
    requires forall i :: 0 <= i < |s| ==> s[i] < 256 as char
    ensures |r| == |s| && forall i :: 0 <= i < |s| ==> r[i] == s[i] as int
  {
    seq(|s|, i requires 0 <= i < |s| => s[i] as int)
  }

  /** The raw event of the fields is the text of the last field that sets it, and empty if none does or
      that one is undefined. */
  lemma {:induction false} RawIsTheLast(fields: seq<Field>, i: nat)
    ensures SetsRaw(fields, i) && (forall j: nat :: j > i ==> !SetsRaw(fields, j)) ==>
              RawOf(fields) == if fields[i].value.Text? then fields[i].value.s else []
    ensures (forall j: nat :: !SetsRaw(fields, j)) ==> RawOf(fields) == []
    decreases |fields|
  {
    assert CharCodes("raw_event") == RAW_EVENT;
    if fields != [] {
      var n := |fields| - 1;
      if !SetsRaw(fields, n) {
        RawIsTheLast(fields[..n], i);
        assert forall j: nat :: j < n ==> SetsRaw(fields[..n], j) == SetsRaw(fields, j);
      }
    }
  }

  /** A key of length 0 is an error of its own. */
  lemma EmptyKey(rest: seq<byte>, limit: nat)
    ensures DecodeField([0, 0] + rest, limit) == Err(BadKeyLength)
  {
    assert ([0, 0] + rest)[..2] == [0, 0] && [0, 0][1..] == [0] && [0][1..] == [];
    assert Value([0]) == 0 && Value([0, 0]) == 0;
  }

  // ----- Bytes cut short

  lemma PrefixTakes(p: seq<byte>, q: seq<byte>, k: nat)
    requires p <= q && k <= |p|
    ensures p[..k] == q[..k]
  {
  }

  lemma LengthOfPrefixed(s: seq<byte>, p: seq<byte>)
    requires |s| < TWO32 && p <= Little(|s|, 4) + s && |p| >= 4
    ensures Value(p[..4]) == |s|
  {
    hide Little, Value, Power;
    Powers();
    ValueOfLittle(|s|, 4);
    PrefixTakes(p, Little(|s|, 4) + s, 4);
  }

  /** A value that has been cut short is not mistaken for any other: there is not enough data, or the
      error every regexp gives. */
  lemma CutValue(v: Data, p: seq<byte>, limit: nat)
    requires Representable(v) && p < EncodeValue(v)
    ensures DecodeValue(p, limit) == Err(if v.Regexp? && |p| >= 2 then NoRegexp else NotEnoughData)
  {
    hide Little, Value;
    if |p| >= 2 {
      assert p[0] == Code(v) && p[1] == 1;
      assert p[2..] == EncodeValue(v)[2..][..|p| - 2] && EncodeValue(v)[2..] == Payload(v);
      if (v.Text? || v.Binary?) && |p[2..]| >= 4 {
        var s := if v.Text? then v.s else v.bin;
        LengthOfPrefixed(s, p[2..]);
      }
    }
  }

  lemma CutField(f: Field, p: seq<byte>, limit: nat)
    requires ValidField(f) && !f.value.Regexp? && p < EncodeField(f)
    ensures DecodeField(p, limit) == Err(NotEnoughData)
  {
    hide Little, Value, DecodeValue, EncodeValue, CString, Representable;
    if |p| >= 2 {
      Powers();
      var n := |f.key|;
      ValueOfLittle(n, 2);
      assert p[..2] == EncodeField(f)[..2] == Little(n, 2);
      if 2 + n < |p| {
        assert p[2 + n..] == EncodeField(f)[2 + n..][..|p| - 2 - n] && EncodeField(f)[2 + n..] == EncodeValue(f.value);
        CutValue(f.value, p[2 + n..], limit);
      }
    }
  }

  predicate AllRestorable(fields: seq<Field>, limit: nat) {
    forall i :: 0 <= i < |fields| ==> Restorable(fields[i].value, limit)
  }

  lemma {:induction false} CutFields(fields: seq<Field>, p: seq<byte>, limit: nat)
    requires ValidFields(fields) && AllRestorable(fields, limit) && p < EncodeFields(fields)
    ensures DecodeFields(p, |fields|, limit) == Err(NotEnoughData)
    decreases |fields|
  {
    hide DecodeField, EncodeField, ValidField;
    var f, e := fields[0], EncodeField(fields[0]);
    assert Restorable(f.value, limit);
    if |p| < |e| {
      assert p == EncodeFields(fields)[..|p|] == e[..|p|];
      CutField(f, p, limit);
    } else {
      var rest := p[|e|..];
      assert EncodeFields(fields)[|e|..] == EncodeFields(fields[1..]);
      assert p[..|e|] == EncodeFields(fields)[..|e|] == e && p == e + rest;
      assert rest == EncodeFields(fields)[|e|..][..|p| - |e|];
      CutFields(fields[1..], rest, limit);
      ReadOn(f, rest, |fields| - 1, limit);
    }
  }

  /** Nor is a record: no beginning of a record that can be read back is anything but too short. */
  lemma CutRecord(r: Record, p: seq<byte>, limit: nat)
    requires ValidRecord(r) && AllRestorable(r.fields, limit) && p < EncodeRecord(r)
    ensures DecodeRecord(p, limit) == Err(NotEnoughData)
  {
    hide DecodeFields, EncodeFields, Little, Value;
    if |p| >= 2 {
      Powers();
      ValueOfLittle(|r.fields|, 2);
      assert p[..2] == EncodeRecord(r)[..2] == Little(|r.fields|, 2);
      assert EncodeRecord(r)[2..] == EncodeFields(r.fields);
      assert p[2..] == EncodeRecord(r)[2..][..|p| - 2];
      CutFields(r.fields, p[2..], limit);
    }
  }

  // ----- Bytes from anywhere

  /** The bytes are what the writer would have written: 0 or 1 as the defined flag and as a boolean,
      and no binary data, which the reader forgets. */
  predicate Canonical(b: seq<byte>)
    requires |b| >= 2
  {
    && b[1] <= 1
    && (b[1] == 1 && b[0] == BOOLEAN && |b| > 2 ==> b[2] <= 1)
    && (b[1] == 1 && b[0] == BINARY && |b| >= 6 ==> Value(b[2..6]) == 0)
  }

  /** Bytes no writer produces: any flag but 1 means undefined, any boolean but 1 means false, and a
      type code outside the eight is an error. */
  lemma OddBytes(code: byte, flag: byte, x: byte, rest: seq<byte>, limit: nat)
    ensures flag != 1 ==> DecodeValue([code, flag] + rest, limit) == Ok((Undef(code), 2))
    ensures DecodeValue([5, 1, x] + rest, limit) == Ok((Boolean(x == 1), 3))
    ensures !(1 <= code <= 8) ==> DecodeValue([code, 1] + rest, limit) == Err(BadType)
  {
    assert ([5, 1, x] + rest)[2..] == [x] + rest;
  }

  /** What does not come back as it was written, and how. */
  lemma WhatIsLost(v: Data, rest: seq<byte>, limit: nat)
    requires Representable(v)
    ensures var r := DecodeValue(EncodeValue(v) + rest, limit);
            && (v.Regexp? ==> r == Err(NoRegexp))
            && (v.Text? && |v.s| > limit ==> r == Err(Oversized))
            && (v.Binary? ==> r == Ok((Binary([]), 6 + |v.bin|)))
  {
    hide DecodeValue, EncodeValue;
    ReadWritten(v, rest, limit);
  }

  lemma UnsignedSigned(v: nat)
    requires v < TWO64
    ensures IsInt64(Signed(v)) && Unsigned(Signed(v)) == v
  {
  }

  lemma EightRead(s: seq<byte>)
    requires |s| == 8
    ensures IsInt64(Signed(Value(s))) && Little(Unsigned(Signed(Value(s))), 8) == s
  {
    Powers();
    LittleOfValue(s);
    UnsignedSigned(Value(s));
  }

  lemma FourRead(s: seq<byte>)
    requires |s| == 4
    ensures Value(s) < TWO32 && Little(Value(s), 4) == s
  {
    Powers();
    LittleOfValue(s);
  }

  lemma ZeroLength(s: seq<byte>)
    requires |s| == 4
    ensures Little(0, 4) == s <==> Value(s) == 0
  {
    Powers();
    FourRead(s);
    ValueOfLittle(0, 4);
  }

  /** Whatever is read successfully, from any bytes, is a proper value; and writing it again gives the
      bytes that were read if and only if they are canonical. */
  lemma ReadThenWrite(b: seq<byte>, limit: nat)
    requires DecodeValue(b, limit).Ok?
    ensures var (v, n) := DecodeValue(b, limit).value;
            Representable(v) && (EncodeValue(v) == b[..n] <==> Canonical(b))
  {
    hide Little, Value, Power;
    var (v, n) := DecodeValue(b, limit).value;
    if b[1] == 1 {
      var c := b[2..];
      if b[0] == INTEGER || b[0] == DATETIME {
        EightRead(c[..8]);
        assert b[..10] == [b[0], b[1]] + c[..8];
      } else if b[0] == STRING || b[0] == BINARY {
        FourRead(c[..4]);
        assert c[..4] == b[2..6];
        ZeroLength(c[..4]);
        var k := Value(c[..4]);
        assert b[..6 + k] == [b[0], b[1]] + (c[..4] + c[4..4 + k]);
        assert b[..6 + k][2..6] == c[..4];
      } else {
        assert b[..n] == [b[0], b[1]] + c[..n - 2];
      }
    } else {
      assert b[..2] == [b[0], b[1]];
    }
  }
}
