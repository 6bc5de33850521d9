/**
 Bit strings: the bytes and machine words of the modelled code.

 A Go `byte` is the sequence of its 8 bits and a `uint64` the sequence of its 64 bits,
 least significant bit first, so index `i` is the bit that `x >> i & 1` reads.
 */
module Words {
  type Bits = seq<bool>
  type Byte = b: Bits | |b| == 8 witness seq(8, _ => false)
  type Word = w: Bits | |w| == 64 witness seq(64, _ => false)

  const ZERO: Word := Fill(64, false)

  /** `a ^ b` */
  function Xor(a: Bits, b: Bits): (r: Bits)
    requires |a| == |b|
    ensures |r| == |a|
    ensures forall i :: 0 <= i < |a| ==> r[i] == (a[i] != b[i])
  {
    seq(|a|, i requires 0 <= i < |a| => a[i] != b[i])
  }

  /** `a & b` */
  function And(a: Bits, b: Bits): (r: Bits)
    requires |a| == |b|
    ensures |r| == |a|
    ensures forall i :: 0 <= i < |a| ==> r[i] == (a[i] && b[i])
  {
    seq(|a|, i requires 0 <= i < |a| => a[i] && b[i])
  }

  /** `a << n` within the width of `a` */
  function ShiftLeft(a: Bits, n: nat): (r: Bits)
    ensures |r| == |a|
    ensures forall i :: 0 <= i < |a| ==> r[i] == (n <= i && a[i - n])
  {
    seq(|a|, i requires 0 <= i < |a| => n <= i && a[i - n])
  }

  /** `a >> n` */
  function ShiftRight(a: Bits, n: nat): (r: Bits)
    ensures |r| == |a|
    ensures forall i :: 0 <= i < |a| ==> r[i] == (i + n < |a| && a[i + n])
  {
    seq(|a|, i requires 0 <= i < |a| => i + n < |a| && a[i + n])
  }

  /** `bits.Reverse64` */
  function Reverse(a: Bits): (r: Bits)
    ensures |r| == |a|
    ensures forall i :: 0 <= i < |a| ==> r[i] == a[|a| - 1 - i]
  {
    seq(|a|, i requires 0 <= i < |a| => a[|a| - 1 - i])
  }

  /** All bits equal to `b`: what `uint64(0) - b` is for a bit `b`. */
  function Fill(n: nat, b: bool): (r: Bits)
    ensures |r| == n
    ensures forall i :: 0 <= i < n ==> r[i] == b
  {
    seq(n, _ => b)
  }

  /** The low `k` bits of the number `n`. */
  function FromNat(n: nat, k: nat): (r: Bits)
    ensures |r| == k
    decreases k
  {
    if k == 0 then [] else [n % 2 == 1] + FromNat(n / 2, k - 1)
  }

  /** The number a bit string denotes. */
  function ToNat(b: Bits): nat {
    if b == [] then 0 else (if b[0] then 1 else 0) + 2 * ToNat(b[1..])
  }

  function Pow2(k: nat): (p: nat)
    ensures p > 0
  {
    if k == 0 then 1 else 2 * Pow2(k - 1)
  }

  lemma {:induction false} ToNatBound(b: Bits)
    ensures ToNat(b) < Pow2(|b|)
  {
    if b != [] { ToNatBound(b[1..]); }
  }

  lemma {:induction false} ToNatFromNat(n: nat, k: nat)
    requires n < Pow2(k)
    ensures ToNat(FromNat(n, k)) == n
    decreases k
  {
    if k > 0 {
      ToNatFromNat(n / 2, k - 1);
      assert FromNat(n, k)[1..] == FromNat(n / 2, k - 1);
    }
  }

  lemma {:induction false} FromNatToNat(b: Bits)
    ensures FromNat(ToNat(b), |b|) == b
  {
    if b != [] {
      FromNatToNat(b[1..]);
      assert ToNat(b) / 2 == ToNat(b[1..]);
      assert b == [b[0]] + b[1..];
    }
  }
}
