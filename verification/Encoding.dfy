/** Little-endian integers in byte buffers, as encoding/binary lays them out. */
module Encoding {
  import opened Common

  type uint32 = x: int | 0 <= x < 0x1_0000_0000
  type uint64 = x: int | 0 <= x < 0x1_0000_0000_0000_0000
  type int64 = x: int | -0x8000_0000_0000_0000 <= x < 0x8000_0000_0000_0000

  /** Why a decoder gave up: one case for each message of the source. */
  datatype DecodeError =
    | ShortTransaction | ShortSignature | ShortPayloadLength | ShortPayload
    | ShortBlock | ShortValidatorID | ShortCounts | ShortFrameLength | ShortFrame
    | ShortFinalizedCount | ShortFinalizedBy

  const TWO64 := 0x1_0000_0000_0000_0000

  /** Go's conversion `uint64(x)` of a signed value, and back. */
  function ToUint64(x: int64): uint64 {
    if x < 0 then x + TWO64 else x
  }

  function ToInt64(x: uint64): int64 {
    if x >= 0x8000_0000_0000_0000 then x - TWO64 else x
  }

  function Pow256(n: nat): nat {
    if n == 0 then 1 else 0x100 * Pow256(n - 1)
  }

  /** The `n` low bytes of `x`, least significant first. */
  function LE(n: nat, x: nat): (r: Bytes)
    ensures |r| == n
  {
    if n == 0 then [] else [x % 0x100] + LE(n - 1, x / 0x100)
  }

  function FromLE(bytes: Bytes): (x: nat)
    ensures x < Pow256(|bytes|)
  {
    if bytes == [] then 0 else bytes[0] + 0x100 * FromLE(bytes[1..])
  }

  lemma {:induction false} FromLEOfLE(n: nat, x: nat)
    requires x < Pow256(n)
    ensures FromLE(LE(n, x)) == x
  {
    if n > 0 {
      assert LE(n, x)[1..] == LE(n - 1, x / 0x100);
      FromLEOfLE(n - 1, x / 0x100);
    }
  }

  lemma LowByte(b: nat, x: nat)
    requires b < 0x100
    ensures (b + 0x100 * x) % 0x100 == b && (b + 0x100 * x) / 0x100 == x
  {
  }

  lemma {:induction false} LEOfFromLE(bytes: Bytes)
    ensures LE(|bytes|, FromLE(bytes)) == bytes
  {
    if bytes != [] {
      LEOfFromLE(bytes[1..]);
      LowByte(bytes[0], FromLE(bytes[1..]));
      assert bytes == [bytes[0]] + bytes[1..];
    }
  }

  lemma ShiftProduct(k: nat, p: nat)
    ensures k * (0x100 * p) == 0x100 * (k * p)
  {
  }

  /** `h` is what stands above the low byte of a higher part. */
  lemma ShiftedParts(x: nat, h: nat)
    ensures (x + 0x100 * h) % 0x100 == x % 0x100 && (x + 0x100 * h) / 0x100 == x / 0x100 + h
  {
    LowByte(x % 0x100, x / 0x100 + h);
  }

  /** Only the low bytes count. */
  lemma {:induction false} LEIgnoresHigh(n: nat, x: nat, k: nat)
    ensures LE(n, x + k * Pow256(n)) == LE(n, x)
  {
    if n > 0 {
      var h := k * Pow256(n - 1);
      ShiftProduct(k, Pow256(n - 1));
      ShiftedParts(x, h);
      LEIgnoresHigh(n - 1, x / 0x100, k);
    }
  }

  /** The four bytes of a 32-bit integer, lowest first. */
  lemma Uint32Bytes(x: uint32)
    ensures LE(4, x) == [x % 0x100, x / 0x100 % 0x100, x / 0x1_0000 % 0x100, x / 0x100_0000]
  {
    assert x / 0x100 / 0x100 == x / 0x1_0000 && x / 0x1_0000 / 0x100 == x / 0x100_0000;
    assert LE(3, x / 0x100) == [x / 0x100 % 0x100] + LE(2, x / 0x1_0000);
    assert LE(1, x / 0x100_0000) == [x / 0x100_0000 % 0x100] + LE(0, x / 0x100_0000 / 0x100);
  }

  lemma Widths()
    ensures Pow256(4) == 0x1_0000_0000 && Pow256(8) == TWO64
  {
    assert Pow256(1) == 0x100 && Pow256(2) == 0x1_0000 && Pow256(3) == 0x100_0000;
    assert Pow256(5) == 0x100 * Pow256(4) && Pow256(6) == 0x100 * Pow256(5) && Pow256(7) == 0x100 * Pow256(6);
  }

  /** A uint32 and a uint64 are recovered from their bytes. */
  lemma Uint32RoundTrip(x: uint32)
    ensures FromLE(LE(4, x)) == x
  {
    Widths();
    FromLEOfLE(4, x);
  }

  lemma Uint64RoundTrip(x: uint64)
    ensures FromLE(LE(8, x)) == x
  {
    Widths();
    FromLEOfLE(8, x);
  }

  function ReadUint32(bytes: Bytes): uint32
    requires |bytes| == 4
  {
    Widths();
    FromLE(bytes)
  }

  function ReadUint64(bytes: Bytes): uint64
    requires |bytes| == 8
  {
    Widths();
    FromLE(bytes)
  }

  lemma Reencoded(bytes: Bytes)
    ensures |bytes| == 4 ==> LE(4, ReadUint32(bytes)) == bytes
    ensures |bytes| == 8 ==> LE(8, ReadUint64(bytes)) == bytes
    ensures |bytes| == 8 ==> LE(8, ToUint64(ToInt64(ReadUint64(bytes)))) == bytes
  {
    LEOfFromLE(bytes);
  }

  // ---------------------------------------------------------------------------
  // Parts of a buffer

  /** `part` stands in `data` at `offset`. */
  predicate At(data: Bytes, offset: nat, part: Bytes) {
    offset + |part| <= |data| && data[offset..offset + |part|] == part
  }

  lemma AtParts(data: Bytes, offset: nat, a: Bytes, b: Bytes)
    requires At(data, offset, a + b)
    ensures At(data, offset, a) && At(data, offset + |a|, b)
  {
    var part := a + b;
    assert data[offset..offset + |a|] == data[offset..offset + |part|][..|a|] == a;
    assert data[offset + |a|..offset + |a| + |b|] == data[offset..offset + |part|][|a|..] == b;
  }

  // ---------------------------------------------------------------------------
  // Writing at an offset

  /** binary.LittleEndian.PutUint32 and PutUint64. */
  method PutUint(buf: array<byte>, offset: nat, n: nat, x: nat)
    requires offset + n <= buf.Length
    modifies buf
    ensures buf[..offset + n] == old(buf[..offset]) + LE(n, x)
  {
    var i, rest := 0, x;
    ghost var before := buf[..offset];
    while i < n
      invariant 0 <= i <= n && rest >= 0
      invariant buf[..offset + i] + LE(n - i, rest) == before + LE(n, x)
    {
      ghost var sofar := buf[..offset + i];
      ghost var low := rest % 0x100;
      buf[offset + i] := rest % 0x100;
      assert buf[..offset + i + 1] == sofar + [low];
      assert LE(n - i, rest) == [low] + LE(n - i - 1, rest / 0x100);
      assert sofar + LE(n - i, rest) == (sofar + [low]) + LE(n - i - 1, rest / 0x100);
      rest := rest / 0x100;
      i := i + 1;
    }
    assert buf[..offset + n] + [] == buf[..offset + n];
  }

  /** `copy(buf[offset:], src)` where the source fits. */
  method CopyInto(buf: array<byte>, offset: nat, src: Bytes)
    requires offset + |src| <= buf.Length
    modifies buf
    ensures buf[..offset + |src|] == old(buf[..offset]) + src
  {
    var i := 0;
    ghost var before := buf[..offset];
    while i < |src|
      invariant 0 <= i <= |src|
      invariant buf[..offset + i] == before + src[..i]
    {
      ghost var sofar := buf[..offset + i];
      buf[offset + i] := src[i];
      assert buf[..offset + i + 1] == sofar + [src[i]];
      assert src[..i + 1] == src[..i] + [src[i]];
      i := i + 1;
    }
    assert src[..|src|] == src;
  }

  /** uint32(len(b)). */
  function Length32(b: Bytes): uint32 { |b| % 0x1_0000_0000 }

  lemma LengthBytes(b: Bytes)
    ensures LE(4, |b|) == LE(4, Length32(b))
  {
    Widths();
    LEIgnoresHigh(4, Length32(b), |b| / 0x1_0000_0000);
  }

  /** What a 32-bit length keeps of a byte string. */
  function Kept(b: Bytes): Bytes { b[..Length32(b)] }

  /** `copy(buf[offset:], src)` of a source whose kept part fits; bytes behind that part
      are written as far as there is room. */
  method CopyKept(buf: array<byte>, offset: nat, src: Bytes)
    requires offset + Length32(src) <= buf.Length
    modifies buf
    ensures buf[..offset + Length32(src)] == old(buf[..offset]) + Kept(src)
  {
    var n := if |src| <= buf.Length - offset then |src| else buf.Length - offset;
    ghost var before, kept := buf[..offset], Length32(src);
    CopyInto(buf, offset, src[..n]);
    assert buf[..offset + kept] == buf[..offset + n][..offset + kept];
    assert (before + src[..n])[..offset + kept] == before + src[..kept];
  }
}
