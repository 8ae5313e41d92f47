/**
  Protocol Buffers base-128 varints and ZigZag signed integers, the encodings
  behind protobuf-c's `uint64_pack` and `sint64_pack`. The least significant
  7-bit group comes first; every byte but the last has its high bit set.
 */
module Varint {
  import opened Common

  /** `uint64_pack`: the varint bytes of `x`. */
  function Encode(x: nat): (r: bytes)
    ensures 1 <= |r|
    ensures forall i :: 0 <= i < |r| - 1 ==> r[i] >= 0x80
    ensures r[|r| - 1] < 0x80
    decreases x
  {
    if x < 0x80 then [x] else [x % 0x80 + 0x80] + Encode(x / 0x80)
  }

  /** Reads one varint from the front of `b`: its value and the number of bytes it took. */
  function Decode(b: bytes): (r: Option<(nat, nat)>)
    ensures r.Some? ==> 0 < r.value.1 <= |b|
  {
    if b == [] then None
    else if b[0] < 0x80 then Some((b[0], 1))
    else match Decode(b[1..])
      case None => None
      case Some((v, n)) => Some((b[0] - 0x80 + 0x80 * v, n + 1))
  }

  /** A varint reads back as the value written, whatever follows it. */
  lemma {:induction false} DecodeEncode(x: nat, rest: bytes)
    ensures Decode(Encode(x) + rest) == Some((x, |Encode(x)|))
    decreases x
  {
    if x >= 0x80 {
      DecodeEncode(x / 0x80, rest);
      assert (Encode(x) + rest)[1..] == Encode(x / 0x80) + rest;
    }
  }

  /** 128 to the power `k`. */
  function Pow128(k: nat): (p: nat)
    ensures p >= 1
  {
    if k == 0 then 1 else 0x80 * Pow128(k - 1)
  }

  /** A value below 128^k takes at most `k` bytes. */
  lemma {:induction false} EncodeSize(x: nat, k: nat)
    requires 1 <= k && x < Pow128(k)
    ensures |Encode(x)| <= k
    decreases k
  {
    if x >= 0x80 {
      assert k > 1;
      EncodeSize(x / 0x80, k - 1);
    }
  }

  /** Every 64-bit value, such as the length prefix `bd_write` packs with `uint64_pack`, takes between 1 and 10 bytes. */
  lemma EncodeU64Size(x: u64)
    ensures 1 <= |Encode(x)| <= 10
  {
    assert Pow128(10) == 0x40_0000_0000_0000_0000;
    EncodeSize(x, 10);
  }

  /** ZigZag: 0, -1, 1, -2, ... map to 0, 1, 2, 3, ... */
  function ZigZag(x: int): (z: nat)
    ensures (z % 2 == 0) == (x >= 0)
  {
    if x >= 0 then 2 * x else -2 * x - 1
  }

  function UnZigZag(z: nat): int
  {
    if z % 2 == 0 then z / 2 else -(z + 1) / 2
  }

  lemma UnZigZagZigZag(x: int)
    ensures UnZigZag(ZigZag(x)) == x
  {
  }

  lemma ZigZagUnZigZag(z: nat)
    ensures ZigZag(UnZigZag(z)) == z
  {
  }

  /** ZigZag takes the signed 64-bit range onto the unsigned one. */
  lemma ZigZagRange(x: i64)
    ensures ZigZag(x) < TWO_64
  {
  }

  /** `sint64_pack`. */
  function EncodeSigned(x: int): (r: bytes)
    ensures |r| >= 1
  {
    Encode(ZigZag(x))
  }

  lemma DecodeEncodeSigned(x: int, rest: bytes)
    ensures var d := Decode(EncodeSigned(x) + rest);
            d.Some? && UnZigZag(d.value.0) == x && d.value.1 == |EncodeSigned(x)|
  {
    DecodeEncode(ZigZag(x), rest);
  }
}
