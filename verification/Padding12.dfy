/**
 Branch-free TLS 1.2 padding removal (minitls/cbc12.go), against section 6.2.3.2 of
 RFC 5246: the last byte is p and the last p + 1 bytes all equal p.
 */
module Padding12 {
  import opened Words
  import opened BigEndian
  import opened Ots

  const ONES8: Byte := Fill(8, true)

  // What the standard says

  predicate PaddingOk(payload: Bytes) {
    && |payload| > 0
    && var last := payload[|payload| - 1];
       var p := NatOfByte(last);
       && p + 1 <= |payload|
       && forall i :: |payload| - 1 - p <= i < |payload| ==> payload[i] == last
  }

  /** Bytes to remove and the all-ones or all-zeros verdict. */
  function PaddingSpec(payload: Bytes): (nat, Byte) {
    if payload == [] then (0, ZERO8)
    else if PaddingOk(payload) then (NatOfByte(payload[|payload| - 1]) + 1, ONES8)
    else (1, ZERO8)
  }

  // What the code does

  /** The difference of two `uint` values. */
  function Sub64(a: nat, b: nat): nat
    requires a < UINT64 && b < UINT64
  {
    if a >= b then a - b else a + UINT64 - b
  }

  /** `byte(int32(^t) >> 31)`: all ones exactly when bit 31 of `t` is clear. */
  function SignMask(t: nat): (m: Byte) {
    if t / 0x8000_0000 % 2 == 0 then ONES8 else ZERO8
  }

  lemma {:induction false} SignMaskOfDifference(a: nat, b: nat)
    requires a < 0x8000_0000 && b < 0x8000_0000
    ensures SignMask(Sub64(a, b)) == if b <= a then ONES8 else ZERO8
  {
    if b <= a {
      assert (a - b) / 0x8000_0000 == 0;
    } else {
      var d := b - a;
      assert UINT64 - d == 0x8000_0000 * 0x1_FFFF_FFFF + (0x8000_0000 - d);
      assert (UINT64 - d) / 0x8000_0000 == 0x1_FFFF_FFFF;
    }
  }

  /** `good &^ x` */
  function AndNot(good: Byte, x: Byte): (r: Byte)
    ensures forall i :: 0 <= i < 8 ==> r[i] == (good[i] && !x[i])
  {
    seq(8, i requires 0 <= i < 8 => good[i] && !x[i])
  }

  /** The final folding shifts: all ones if every bit is set, else all zeros. */
  function Collapse(good: Byte): (r: Byte) {
    var g1 := And(good, ShiftLeft(good, 4));
    var g2 := And(g1, ShiftLeft(g1, 2));
    var g3 := And(g2, ShiftLeft(g2, 1));
    Fill(8, g3[7])
  }

  lemma {:induction false} CollapseIs(good: Byte)
    ensures Collapse(good) == if good == ONES8 then ONES8 else ZERO8
  {
    var g1 := And(good, ShiftLeft(good, 4));
    var g2 := And(g1, ShiftLeft(g1, 2));
    var g3 := And(g2, ShiftLeft(g2, 1));
    assert g3[7] == (g2[7] && g2[6]);
    assert g2[7] == (g1[7] && g1[5]) && g2[6] == (g1[6] && g1[4]);
    if g3[7] { assert good == ONES8; }
  }

  /** Bit `b` of the accumulated verdict after `n` bytes. */
  predicate BitGood(payload: Bytes, b: nat, n: nat)
    requires |payload| > 0 && b < 8 && n <= |payload|
  {
    var last := payload[|payload| - 1];
    var p := NatOfByte(last);
    && p <= |payload| - 1
    && forall i :: |payload| - n <= i < |payload| && |payload| - 1 - p <= i ==> payload[i][b] == last[b]
  }

  method ExtractTLS12Padding(payload: Bytes) returns (toRemove: nat, good: Byte)
    requires |payload| <= 0x8000_0000
    ensures (toRemove, good) == PaddingSpec(payload)
  {
    hide NatOfByte, SignMask, Sub64, Collapse;
    if |payload| < 1 {
      return 0, ZERO8;
    }
    var paddingLen := payload[|payload| - 1];
    var p := NatOfByte(paddingLen);
    SignMaskOfDifference(|payload| - 1, p);
    good := SignMask(Sub64(|payload| - 1, p));
    var toCheck := if 256 > |payload| then |payload| else 256;
    for i := 0 to toCheck
      invariant forall b :: 0 <= b < 8 ==> good[b] == BitGood(payload, b, i)
    {
      SignMaskOfDifference(p, i);
      var mask := SignMask(Sub64(p, i));
      var x := payload[|payload| - 1 - i];
      good := AndNot(good, Xor(And(mask, paddingLen), And(mask, x)));
    }
    VerdictIs(payload, good, toCheck);
    CollapseIs(good);
    good := Collapse(good);
    paddingLen := And(paddingLen, good);
    MaskedLength(payload[|payload| - 1], good);
    toRemove := NatOfByte(paddingLen) + 1;
  }

  lemma {:induction false} VerdictIs(payload: Bytes, good: Byte, toCheck: nat)
    requires |payload| > 0 && toCheck == if 256 > |payload| then |payload| else 256
    requires forall b :: 0 <= b < 8 ==> good[b] == BitGood(payload, b, toCheck)
    ensures good == ONES8 <==> PaddingOk(payload)
  {
    hide NatOfByte;
    var last := payload[|payload| - 1];
    var p := NatOfByte(last);
    if good == ONES8 {
      assert good[0];
      forall i | |payload| - 1 - p <= i < |payload|
        ensures payload[i] == last
      {
        forall b | 0 <= b < 8
          ensures payload[i][b] == last[b]
        {
          assert good[b];
        }
      }
    }
    if PaddingOk(payload) {
      forall b | 0 <= b < 8
        ensures good[b]
      {}
      assert good == ONES8;
    }
  }

  lemma {:induction false} MaskedLength(p: Byte, good: Byte)
    ensures good == ONES8 ==> And(p, good) == p
    ensures good == ZERO8 ==> NatOfByte(And(p, good)) == 0
  {
    if good == ZERO8 {
      assert And(p, good) == ZERO8;
      ZeroByte();
    }
  }
}
