/**
 Little-endian integers in memory (`src/common/serialize.h`), for hosts of either byte order.
 */
module Bytes {

  type byte = b: int | 0 <= b < 256

  datatype ByteOrder = LittleEndian | BigEndian

  function Reversed(s: seq<byte>): (r: seq<byte>)
    ensures |r| == |s|
    ensures forall i :: 0 <= i < |s| ==> r[i] == s[|s| - 1 - i]
  {
    seq(|s|, i requires 0 <= i < |s| => s[|s| - 1 - i])
  }

  function Power(k: nat): (p: nat)
    ensures p > 0
  {
    if k == 0 then 1 else 256 * Power(k - 1)
  }

  /** The `k` low bytes of `v`, least significant first. */
  function Little(v: nat, k: nat): (r: seq<byte>)
    ensures |r| == k
    decreases k
  {
    if k == 0 then [] else [v % 256] + Little(v / 256, k - 1)
  }

  function Value(s: seq<byte>): (v: nat) {
    if s == [] then 0 else s[0] + 256 * Value(s[1..])
  }

  lemma {:induction false} ValueOfLittle(v: nat, k: nat)
    requires v < Power(k)
    ensures Value(Little(v, k)) == v
    decreases k
  {
    if k > 0 {
      ValueOfLittle(v / 256, k - 1);
      assert Little(v, k)[1..] == Little(v / 256, k - 1);
    }
  }

  lemma {:induction false} LittleOfValue(s: seq<byte>)
    ensures Value(s) < Power(|s|)
    ensures Little(Value(s), |s|) == s
    decreases |s|
  {
    if s != [] {
      LittleOfValue(s[1..]);
      assert Value(s) / 256 == Value(s[1..]) && Value(s) % 256 == s[0];
      assert s == [s[0]] + s[1..];
    }
  }

  /** How a host stores a `k`-byte unsigned integer. */
  function Stored(o: ByteOrder, v: nat, k: nat): (r: seq<byte>)
    ensures |r| == k
  {
    if o == LittleEndian then Little(v, k) else Reversed(Little(v, k))
  }

  /** The integer a host reads from memory. */
  function Loaded(o: ByteOrder, m: seq<byte>): (v: nat) {
    if o == LittleEndian then Value(m) else Value(Reversed(m))
  }

  /** `b` with the bytes from `at` on replaced by `s`. */
  function Overwrite(b: seq<byte>, at: nat, s: seq<byte>): (r: seq<byte>)
    requires at + |s| <= |b|
    ensures |r| == |b|
  {
    b[..at] + s + b[at + |s|..]
  }

  /** The text in front of the first NUL. */
  function CString(s: seq<byte>): (r: seq<byte>)
    ensures |r| <= |s|
    ensures 0 !in s ==> r == s
  {
    if s == [] || s[0] == 0 then [] else [s[0]] + CString(s[1..])
  }

  lemma OverwriteOn(b: seq<byte>, at: nat, s: seq<byte>, t: seq<byte>)
    requires at + |s| + |t| <= |b|
    ensures Overwrite(Overwrite(b, at, s), at + |s|, t) == Overwrite(b, at, s + t)
    ensures Overwrite(Overwrite(b, at + |s|, t), at, s) == Overwrite(b, at, s + t)
  {
  }

  lemma SliceOfSlice(b: seq<byte>, at: nat, n: nat, i: nat, j: nat)
    requires at + n <= |b| && i <= j <= n
    ensures b[at..at + n][i..j] == b[at + i..at + j]
  {
    var s := b[at..at + n];
    assert forall k :: 0 <= k < j - i ==> s[i..j][k] == s[i + k] == b[at + (i + k)];
  }

  /** memcpy into a buffer. */
  method Copy(dst: array<byte>, at: nat, src: seq<byte>)
    requires at + |src| <= dst.Length
    modifies dst
    ensures dst[..] == Overwrite(old(dst[..]), at, src)
  {
    forall i | 0 <= i < |src| { dst[at + i] := src[i]; }
  }

  /** The `to_le` macros: copy on a little-endian host, swap on a big-endian one. */
  method PutLittle(o: ByteOrder, dst: array<byte>, at: nat, src: seq<byte>)
    requires at + |src| <= dst.Length
    modifies dst
    ensures dst[..] == Overwrite(old(dst[..]), at, if o == LittleEndian then src else Reversed(src))
  {
    if o == LittleEndian {
      forall i | 0 <= i < |src| { dst[at + i] := src[i]; }
    } else {
      forall i | 0 <= i < |src| { dst[at + i] := src[|src| - 1 - i]; }
    }
  }

  /** The `from_le` macros: the bytes of an integer in host memory. */
  function GetLittle(o: ByteOrder, m: seq<byte>): (r: seq<byte>)
    ensures |r| == |m|
  {
    if o == LittleEndian then m else Reversed(m)
  }

  /** Whatever the host, storing and then writing gives the little-endian bytes, and reading
      them gives the integer back. */
  lemma HostIndependent(o: ByteOrder, v: nat, k: nat)
    requires v < Power(k)
    ensures (if o == LittleEndian then Stored(o, v, k) else Reversed(Stored(o, v, k))) == Little(v, k)
    ensures Loaded(o, GetLittle(o, Little(v, k))) == v
  {
    ValueOfLittle(v, k);
    assert Reversed(Reversed(Little(v, k))) == Little(v, k);
  }

  lemma LoadedIsValue(o: ByteOrder, m: seq<byte>)
    ensures Loaded(o, GetLittle(o, m)) == Value(m)
  {
    assert Reversed(Reversed(m)) == m;
  }

  /** Write an unsigned integer held in host memory. */
  method PutInt(o: ByteOrder, dst: array<byte>, at: nat, v: nat, k: nat)
    requires at + k <= dst.Length && v < Power(k)
    modifies dst
    ensures dst[..] == Overwrite(old(dst[..]), at, Little(v, k))
  {
    HostIndependent(o, v, k);
    PutLittle(o, dst, at, Stored(o, v, k));
  }

  /** Read an unsigned integer into host memory. */
  method GetInt(o: ByteOrder, src: array<byte>, at: nat, k: nat) returns (v: nat)
    requires at + k <= src.Length
    ensures v == Value(src[at..at + k])
  {
    LoadedIsValue(o, src[at..at + k]);
    v := Loaded(o, GetLittle(o, src[at..at + k]));
  }

  // ----- Signed integers, two's complement

  const TWO63: int := 0x8000_0000_0000_0000
  const TWO64: int := 0x1_0000_0000_0000_0000
  const TWO32: int := 0x1_0000_0000

  predicate IsInt64(i: int) { -TWO63 <= i < TWO63 }

  function Unsigned(i: int): (v: nat)
    requires IsInt64(i)
    ensures v < TWO64
  {
    if i < 0 then i + TWO64 else i
  }

  function Signed(v: nat): (i: int) {
    if v < TWO63 then v else v - TWO64
  }

  lemma Powers()
    ensures Power(2) == 0x1_0000 && Power(4) == TWO32 && Power(8) == TWO64
  {
    assert Power(1) == 256 && Power(2) == 0x1_0000 && Power(3) == 0x100_0000 && Power(4) == TWO32;
    assert Power(5) == 256 * TWO32 && Power(6) == 0x1_0000 * TWO32;
    assert Power(7) == 0x100_0000 * TWO32 && Power(8) == TWO64;
  }

  lemma Int64RoundTrip(i: int)
    requires IsInt64(i)
    ensures Signed(Value(Little(Unsigned(i), 8))) == i
  {
    Powers();
    ValueOfLittle(Unsigned(i), 8);
  }
}
