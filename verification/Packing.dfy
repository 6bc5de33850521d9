/** Bit packing: bit `i` of a bit vector is bit `i % 8` of byte `i / 8` (mpc/circuit.go). */
module Packing {
  import opened Words

  function BitsOf(data: seq<Byte>): (bits: seq<bool>)
    ensures |bits| == 8 * |data|
    ensures forall i :: 0 <= i < |bits| ==> bits[i] == data[i / 8][i % 8]
  {
    seq(8 * |data|, i requires 0 <= i < 8 * |data| => data[i / 8][i % 8])
  }

  function Octet(bits: seq<bool>, k: nat): Byte
    requires 8 * k + 8 <= |bits|
  {
    bits[8 * k..8 * k + 8]
  }

  /** The one byte string that unpacks to `bits`. */
  function BytesOf(bits: seq<bool>): (data: seq<Byte>)
    requires |bits| % 8 == 0
    ensures |data| == |bits| / 8
    ensures BitsOf(data) == bits
  {
    seq(|bits| / 8, k requires 0 <= k < |bits| / 8 => Octet(bits, k))
  }

  const ZERO_BYTE: Byte := Fill(8, false)

  /** `bytesToBits` */
  method BytesToBits(data: seq<Byte>, dst: array<bool>)
    requires dst.Length == 8 * |data|
    modifies dst
    ensures dst[..] == BitsOf(data)
  {
    for i := 0 to |data|
      invariant forall k :: 0 <= k < 8 * i ==> dst[k] == BitsOf(data)[k]
    {
      for bit := 0 to 8
        invariant forall k :: 0 <= k < 8 * i + bit ==> dst[k] == BitsOf(data)[k]
      {
        assert (8 * i + bit) / 8 == i && (8 * i + bit) % 8 == bit;
        dst[8 * i + bit] := data[i][bit];
      }
    }
  }

  /** `bitsToBytes` */
  method BitsToBytes(bits: seq<bool>, dst: array<Byte>)
    requires |bits| == 8 * dst.Length
    modifies dst
    ensures dst[..] == BytesOf(bits)
  {
    for k := 0 to dst.Length
      invariant forall j :: 0 <= j < k ==> dst[j] == ZERO_BYTE
    {
      dst[k] := ZERO_BYTE;
    }
    for i := 0 to |bits|
      invariant forall k :: 0 <= k < |bits| ==> dst[k / 8][k % 8] == (k < i && bits[k])
    {
      if bits[i] {
        dst[i / 8] := dst[i / 8][i % 8 := true];
        forall k | 0 <= k < |bits|
          ensures k != i ==> k / 8 != i / 8 || k % 8 != i % 8
        {}
      }
    }
    assert BitsOf(dst[..]) == bits;
    BitsInjective(dst[..], BytesOf(bits));
  }

  /** Packed bytes are determined by their bits. */
  lemma {:induction false} BitsInjective(a: seq<Byte>, b: seq<Byte>)
    requires BitsOf(a) == BitsOf(b)
    ensures a == b
  {
    assert |BitsOf(a)| == |BitsOf(b)|;
    forall k | 0 <= k < |a|
      ensures a[k] == b[k]
    {
      forall j | 0 <= j < 8
        ensures a[k][j] == b[k][j]
      {
        assert (8 * k + j) / 8 == k && (8 * k + j) % 8 == j;
        assert BitsOf(a)[8 * k + j] == BitsOf(b)[8 * k + j];
      }
    }
  }
}
