/** Fixed-width and checksum encodings shared by the file formats (util/coding.cc, util/crc32c.h). */
module Coding {
  import opened Keys

  type Bytes = seq<Byte>

  type U32 = x: int | 0 <= x < 0x1_0000_0000

  /** EncodeFixed32: little endian. */
  function Fixed32(v: U32): (b: Bytes)
    ensures |b| == 4
  {
    [v % 256, v / 256 % 256, v / 65536 % 256, v / 16777216]
  }

  function DecodeFixed32(b: Bytes): U32
    requires |b| >= 4
  {
    var b0: int, b1: int, b2: int, b3: int := b[0], b[1], b[2], b[3];
    b0 + 256 * b1 + 65536 * b2 + 16777216 * b3
  }

  /** The bytes of a fixed-width number, the low ones first. */
  lemma Fixed32Bytes(a: Byte, b: Byte, c: Byte, d: Byte)
    ensures Fixed32(a + 256 * b + 65536 * c + 16777216 * d) == [a, b, c, d]
  {
    var x: int, y: int, z: int, w: int := a, b, c, d;
    var v := x + 256 * (y + 256 * (z + 256 * w));
    assert v / 256 == y + 256 * (z + 256 * w) && v / 65536 == z + 256 * w && v / 16777216 == w;
  }

  lemma Fixed32RoundTrip(v: U32, tail: Bytes)
    ensures DecodeFixed32(Fixed32(v) + tail) == v
  {
    var q1, q2 := v / 256, v / 65536;
    assert q2 == q1 / 256 && v / 16777216 == q2 / 256;
    assert v == 256 * q1 + v % 256 && q1 == 256 * q2 + q1 % 256 && q2 == 256 * (v / 16777216) + q2 % 256;
  }

  const LIMIT: int := 0x1_0000_0000
  const LIMIT64: int := 0x1_0000_0000_0000_0000

  function FixedAll(v: seq<nat>): (b: Bytes)
    requires forall i :: 0 <= i < |v| ==> v[i] < LIMIT
    ensures |b| == 4 * |v|
  {
    if v == [] then [] else FixedAll(v[..|v| - 1]) + Fixed32(v[|v| - 1])
  }

  lemma {:induction false} FixedAllAt(v: seq<nat>, i: nat, tail: Bytes)
    requires i < |v| && forall k :: 0 <= k < |v| ==> v[k] < LIMIT
    ensures DecodeFixed32((FixedAll(v) + tail)[4 * i..]) == v[i]
  {
    var n := |v| - 1;
    var last := Fixed32(v[n]);
    assert FixedAll(v) + tail == FixedAll(v[..n]) + (last + tail);
    if i == n {
      assert (FixedAll(v[..n]) + (last + tail))[4 * n..] == last + tail;
      Fixed32RoundTrip(v[n], tail);
    } else {
      FixedAllAt(v[..n], i, last + tail);
    }
  }

  // ---------- varints ----------

  /** EncodeVarint32, EncodeVarint64: seven bits a byte, low bits first, the top bit set on all but the last. */
  function Varint(v: nat): (b: Bytes)
    ensures |b| > 0
  {
    if v < 128 then [v] else [v % 128 + 128] + Varint(v / 128)
  }

  /** Decodes a varint of at most n bytes: its value and the bytes it took. */
  function GetVarint(b: Bytes, n: nat): Option<(nat, nat)>
  {
    if n == 0 || b == [] then None
    else if b[0] < 128 then Some((b[0], 1))
    else
      var rest := GetVarint(b[1..], n - 1);
      if rest.None? then None else Some((b[0] - 128 + 128 * rest.value.0, 1 + rest.value.1))
  }

  lemma {:induction false} VarintWithin(b: Bytes, n: nat)
    ensures GetVarint(b, n).Some? ==> 0 < GetVarint(b, n).value.1 <= |b|
  {
    if n > 0 && b != [] && b[0] >= 128 { VarintWithin(b[1..], n - 1); }
  }

  function Pow128(n: nat): nat
  {
    if n == 0 then 1 else 128 * Pow128(n - 1)
  }

  lemma {:induction false} VarintRoundTrip(v: nat, n: nat, tail: Bytes)
    requires n > 0 && v < Pow128(n)
    ensures |Varint(v)| <= n && GetVarint(Varint(v) + tail, n) == Some((v, |Varint(v)|))
    decreases v
  {
    if v >= 128 {
      assert n > 1;
      VarintRoundTrip(v / 128, n - 1, tail);
      assert (Varint(v) + tail)[1..] == Varint(v / 128) + tail;
    } else {
      assert (Varint(v) + tail)[0] == v;
    }
  }

  /** A varint takes as few bytes as seven bits a byte allow. */
  lemma {:induction false} VarintLength(v: nat, n: nat)
    ensures |Varint(v)| <= n <==> n > 0 && v < Pow128(n)
    decreases v
  {
    if v >= 128 {
      if n > 0 {
        VarintLength(v / 128, n - 1);
        assert v / 128 < Pow128(n - 1) <==> v < 128 * Pow128(n - 1);
      }
      assert Pow128(0) == 1 && Pow128(1) == 128;
    } else if n > 0 {
      Pow128Grows(n);
    }
  }

  lemma {:induction false} Pow128Grows(n: nat)
    ensures Pow128(n) >= 1 && (n > 0 ==> Pow128(n) >= 128)
  {
    if n > 0 { Pow128Grows(n - 1); }
  }

  lemma Varint32(v: U32, tail: Bytes)
    ensures |Varint(v)| <= 5 && GetVarint(Varint(v) + tail, 5) == Some((v, |Varint(v)|))
  {
    assert Pow128(5) == 128 * 128 * 128 * 128 * 128;
    VarintRoundTrip(v, 5, tail);
  }

  // ---------- numbers and slices at the front of an input ----------

  predicate SliceOk(b: Bytes) { |b| < LIMIT }

  function PutSlice(b: Bytes): Bytes
  {
    Varint(|b|) + b
  }

  function GetNumber(b: Bytes, n: nat, limit: nat): (r: Option<(nat, Bytes)>)
    requires limit > 0
    ensures r.Some? ==> |r.value.1| < |b|
  {
    VarintWithin(b, n);
    var v := GetVarint(b, n);
    if v.None? then None else Some((v.value.0 % limit, b[v.value.1..]))
  }

  function Get32(b: Bytes): (r: Option<(nat, Bytes)>)
    ensures r.Some? ==> |r.value.1| < |b|
  {
    GetNumber(b, 5, LIMIT)
  }

  function Get64(b: Bytes): (r: Option<(nat, Bytes)>)
    ensures r.Some? ==> |r.value.1| < |b|
  {
    GetNumber(b, 10, LIMIT64)
  }

  function GetSlice(b: Bytes): (r: Option<(Bytes, Bytes)>)
    ensures r.Some? ==> |r.value.1| < |b|
  {
    var n := Get32(b);
    if n.None? || |n.value.1| < n.value.0 then None else Some((n.value.1[..n.value.0], n.value.1[n.value.0..]))
  }

  lemma Get32Back(v: nat, tail: Bytes)
    requires v < LIMIT
    ensures Get32(Varint(v) + tail) == Some((v, tail))
  {
    Varint32(v, tail);
    hide Varint, GetVarint;
    assert (Varint(v) + tail)[|Varint(v)|..] == tail;
  }

  lemma Get64Back(v: nat, tail: Bytes)
    requires v < LIMIT64
    ensures Get64(Varint(v) + tail) == Some((v, tail))
  {
    hide Varint, GetVarint;
    assert Pow128(5) == 0x8_0000_0000;
    assert Pow128(10) == 0x8_0000_0000 * 0x8_0000_0000;
    VarintRoundTrip(v, 10, tail);
    assert (Varint(v) + tail)[|Varint(v)|..] == tail;
  }

  lemma SliceBack(b: Bytes, tail: Bytes)
    requires SliceOk(b)
    ensures GetSlice(PutSlice(b) + tail) == Some((b, tail))
  {
    Get32Back(|b|, b + tail);
    assert PutSlice(b) + tail == Varint(|b|) + (b + tail);
    hide Get32;
  }

  /** GetVarint32Ptr, GetVarint64Ptr: the loop that shifts and adds. */
  method GetVarintPtr(b: Bytes, p: nat, limit: nat, n: nat) returns (r: Option<(nat, nat)>)
    requires p <= limit <= |b|
    ensures r == GetVarint(b[p..limit], n)
  {
    var result: nat, scale: nat, i: nat := 0, 1, 0;
    hide Scaled;
    ScaledStart(GetVarint(b[p..limit], n));
    while i < n && p + i < limit
      invariant i <= n && p + i <= limit
      invariant GetVarint(b[p..limit], n) == Scaled(GetVarint(b[p + i..limit], n - i), result, scale, i)
    {
      assert b[p + i..limit][1..] == b[p + i + 1..limit];
      var byte: int := b[p + i];
      if byte < 128 {
        ScaledLast(byte, result, scale, i);
        return Some((result + scale * byte, i + 1));
      }
      ScaledStep(GetVarint(b[p + i + 1..limit], n - i - 1), byte, result, scale, i);
      result, scale, i := result + scale * (byte - 128), scale * 128, i + 1;
    }
    ScaledNone(result, scale, i);
    return None;
  }

  lemma ScaledStart(rest: Option<(nat, nat)>)
    ensures Scaled(rest, 0, 1, 0) == rest
  {}

  lemma ScaledLast(byte: nat, result: nat, scale: nat, i: nat)
    ensures Scaled(Some((byte, 1)), result, scale, i) == Some((result + scale * byte, i + 1))
  {}

  lemma ScaledNone(result: nat, scale: nat, i: nat)
    ensures Scaled(None, result, scale, i) == None
  {}

  function Scaled(rest: Option<(nat, nat)>, result: nat, scale: nat, i: nat): Option<(nat, nat)>
  {
    if rest.None? then None else Some((result + scale * rest.value.0, i + rest.value.1))
  }

  lemma ScaledStep(rest: Option<(nat, nat)>, byte: Byte, result: nat, scale: nat, i: nat)
    requires byte >= 128
    ensures var more := if rest.None? then None else Some((byte - 128 + 128 * rest.value.0, 1 + rest.value.1));
      Scaled(more, result, scale, i) == Scaled(rest, result + scale * (byte - 128), scale * 128, i + 1)
  {}

  // ---------- checksums ----------

  /** One byte of a checksum, which is a left fold over the bytes. */
  type Crc = (U32, Byte) -> U32

  function Extend(step: Crc, crc: U32, data: Bytes): U32
  {
    if data == [] then crc else step(Extend(step, crc, data[..|data| - 1]), data[|data| - 1])
  }

  lemma {:induction false} ExtendConcat(step: Crc, crc: U32, a: Bytes, b: Bytes)
    ensures Extend(step, Extend(step, crc, a), b) == Extend(step, crc, a + b)
  {
    if b == [] {
      assert a + b == a;
    } else {
      ExtendConcat(step, crc, a, b[..|b| - 1]);
      assert (a + b)[..|a + b| - 1] == a + b[..|b| - 1];
    }
  }

  const MASK_DELTA: U32 := 0xa282ead8

  /** Rotate right by 15 bits and add a constant, modulo 2^32. */
  function Mask(crc: U32): U32
  {
    (crc / 0x8000 + crc % 0x8000 * 0x2_0000 + MASK_DELTA) % 0x1_0000_0000
  }

  function Unmask(masked: U32): U32
  {
    var rot := (masked - MASK_DELTA) % 0x1_0000_0000;
    rot / 0x2_0000 + rot % 0x2_0000 * 0x8000
  }

  /** Masking rotates by 15 bits: the low 15 bits go to the top, the others down; then it adds a constant. */
  lemma MaskRotates(crc: U32)
    ensures var rotated := (Mask(crc) - 0xa282ead8) % 0x1_0000_0000;
      rotated / 0x2_0000 == crc % 0x8000 && rotated % 0x2_0000 == crc / 0x8000
  {
    var high, low := crc / 0x8000, crc % 0x8000;
    assert 0 <= high < 0x2_0000 && 0 <= low < 0x8000;
    var rot := high + low * 0x2_0000;
    assert rot / 0x2_0000 == low && rot % 0x2_0000 == high && 0 <= rot < 0x1_0000_0000;
  }

  lemma MaskRoundTrip(crc: U32)
    ensures Unmask(Mask(crc)) == crc
  {
    var high, low := crc / 0x8000, crc % 0x8000;
    var rot := high + low * 0x2_0000;
    assert 0 <= high < 0x2_0000 && 0 <= low < 0x8000 && crc == high * 0x8000 + low;
    assert rot / 0x2_0000 == low && rot % 0x2_0000 == high;
    assert (Mask(crc) - MASK_DELTA) % 0x1_0000_0000 == rot;
  }
}
