/**
 What the fold of the consistency check catches (mpc/ot_extension.go): changing one block of a
 column moves its check by that change times the block's coefficient.
 */
module KosCheck {
  import opened Words
  import opened Labels
  import opened Results
  import opened BigEndian
  import opened Ots
  import opened Transpose
  import opened Field
  import opened Extension
  import opened ExtensionProtocol
  import opened ExtensionTheorems

  /** The two strings differ in 16-byte block `k` alone, by `d`. */
  ghost predicate OffBlock(a: Bytes, b: Bytes, k: nat, d: Label) {
    && |a| == |b| && 16 * k + 16 <= |a|
    && a[..16 * k] == b[..16 * k] && a[16 * k + 16..] == b[16 * k + 16..]
    && FromBytes(XorBytes(a[16 * k..16 * k + 16], b[16 * k..16 * k + 16])) == d
  }

  lemma {:induction false} SameBlock(a: Bytes, b: Bytes, k: nat, d: Label, j: nat)
    requires OffBlock(a, b, k, d) && j != k && 16 * j + 16 <= |a|
    ensures BlockLabel(a, j) == BlockLabel(b, j)
  {
    hide FromBytes, XorBytes;
    if j < k {
      InFront(a, 16 * k, 16 * j, 16 * j + 16);
      InFront(b, 16 * k, 16 * j, 16 * j + 16);
    } else {
      InTail(a, 16 * k + 16, 16 * j, 16 * j + 16);
      InTail(b, 16 * k + 16, 16 * j, 16 * j + 16);
    }
  }

  lemma {:induction false} InFront(s: Bytes, n: nat, i: nat, j: nat)
    requires i <= j <= n <= |s|
    ensures s[..n][i..j] == s[i..j]
  {}

  lemma {:induction false} InTail(s: Bytes, n: nat, i: nat, j: nat)
    requires n <= i <= j <= |s|
    ensures s[n..][i - n..j - n] == s[i..j]
  {}

  lemma {:induction false} ChangedBlock(a: Bytes, b: Bytes, k: nat, d: Label)
    requires OffBlock(a, b, k, d)
    ensures BlockLabel(a, k).Xor(BlockLabel(b, k)) == d
  {
    hide FromBytes, XorBytes, Label.Xor;
    FromBytesXor(a[16 * k..16 * k + 16], b[16 * k..16 * k + 16]);
  }

  lemma {:induction false} ChiSumOff(a: Bytes, b: Bytes, k: nat, d: Label, chi: seq<Label>, n: nat)
    requires OffBlock(a, b, k, d) && n <= |chi| && 16 * n <= |a|
    ensures ChiSum(a, chi, n).Xor(ChiSum(b, chi, n)) == if k < n then Mul(d, chi[k]) else NONE
    decreases n
  {
    hide OffBlock, BlockLabel, Mul, Label.Xor;
    if n == 0 {
      XorNone(NONE);
    } else {
      OffSizes(a, b, k, d);
      var x, y := BlockLabel(a, n - 1), BlockLabel(b, n - 1);
      var s, t := ChiSum(a, chi, n - 1), ChiSum(b, chi, n - 1);
      ChiSumOff(a, b, k, d, chi, n - 1);
      XorExchange(s, t, Mul(x, chi[n - 1]), Mul(y, chi[n - 1]));
      if n - 1 == k {
        ChangedBlock(a, b, k, d);
        MulXor(x, y, chi[k]);
        XorComm(NONE, Mul(d, chi[k]));
        XorNone(Mul(d, chi[k]));
      } else {
        SameBlock(a, b, k, d, n - 1);
        XorNone(Mul(x, chi[n - 1]));
        XorNone(s.Xor(t));
      }
    }
  }

  lemma {:induction false} OffSizes(a: Bytes, b: Bytes, k: nat, d: Label)
    requires OffBlock(a, b, k, d)
    ensures |a| == |b| && 16 * k + 16 <= |a|
  {
    hide FromBytes, XorBytes;
  }

  /** A change in one block moves the check by its product with that block's coefficient; the last block counts as it is. */
  lemma {:induction false} CheckOffBlock(a: Bytes, b: Bytes, k: nat, d: Label, chi: seq<Label>)
    requires |a| == 16 * |chi| + 16 && OffBlock(a, b, k, d)
    ensures |b| == |a| && k <= |chi|
    ensures Check(a, chi).Xor(Check(b, chi)) == if k < |chi| then Mul(d, chi[k]) else d
  {
    hide OffBlock, BlockLabel, ChiSum, Mul, Label.Xor;
    OffSizes(a, b, k, d);
    var x, y := BlockLabel(a, |chi|), BlockLabel(b, |chi|);
    ChiSumOff(a, b, k, d, chi, |chi|);
    XorExchange(x, y, ChiSum(a, chi, |chi|), ChiSum(b, chi, |chi|));
    if k < |chi| {
      SameBlock(a, b, k, d, |chi|);
      XorNone(x);
      XorComm(NONE, Mul(d, chi[k]));
      XorNone(Mul(d, chi[k]));
    } else {
      ChangedBlock(a, b, k, d);
      XorNone(d);
    }
  }

  /** The fold of a column of zeros is zero, so with the lemma above the fold is determined on every column. */
  lemma {:induction false} CheckOfZeros(chi: seq<Label>)
    ensures Check(Zeros(16 * |chi| + 16), chi) == NONE
  {
    hide Check, Label.Xor, XorByte;
    var z := Zeros(16 * |chi| + 16);
    assert XorBytes(z, z) == z by {
      forall i | 0 <= i < |z| ensures XorByte(z[i], z[i]) == z[i] { ZeroXor(); }
    }
    CheckXor(z, z, chi);
    XorNone(Check(z, chi));
  }

  lemma {:induction false} ZeroXor()
    ensures XorByte(ZERO8, ZERO8) == ZERO8
  {}

  /** The coefficient-weighted size of a change, zero only when the check cannot see it. */
  function Seen(d: Label, k: nat, chi: seq<Label>): Label {
    if k < |chi| then Mul(d, chi[k]) else d
  }

  /**
   A receiver that proves everything honestly for its choices, but whose matrix encodes other
   choices in one block of one column with its delta bit set, is refused whenever the
   change is seen.
   */
  lemma {:induction false} OffBlockRefused(o: Oracles, base: seq<SeedPair>, selected: seq<Label>, delta: Label,
                                           sessionId: Bytes32, u: Bytes, choices: Bytes, chi: seq<Label>, proof: Proof,
                                           c: nat, k: nat, d: Label)
    requires |base| == |selected| == BASE_OT_COUNT && FollowsDelta(selected, base, delta)
    requires |choices| == 16 * |chi| + 16 && |u| == BASE_OT_COUNT * |choices|
    requires proof.t == Checks(TColumns(o, base, sessionId, |choices|), |choices|, chi) && proof.x == Check(choices, chi)
    requires c < BASE_OT_COUNT && delta.Bit(c)
    requires OffBlock(Encoded(o, base[c], sessionId, c, Column(u, |choices|, c)), choices, k, d) && Seen(d, k, chi) != NONE
    ensures !ChecksPass(Checks(QColumns(o, selected, delta, sessionId, u, |choices|), |choices|, chi), delta, proof)
  {
    hide Check, Checks, QColumns, TColumns, Encoded, Column, Label.Xor, Label.Bit, ChecksPass, FollowsDelta, OffBlock, Mul;
    var e := Encoded(o, base[c], sessionId, c, Column(u, |choices|, c));
    OffSizes(e, choices, k, d);
    CheckOffBlock(e, choices, k, d, chi);
    XorNone(Check(choices, chi));
    HonestColumnsPassExactly(o, base, selected, delta, sessionId, u, chi, proof);
  }
}
