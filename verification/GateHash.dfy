/** The tweaked hash input of a gate separates labels and tweaks (mpc/circuit.go). */
module GateHash {
  import opened Words
  import opened Labels
  import opened Plan
  import opened Gates
  import opened Circuit
  import opened Field

  /** The gate hash keeps its high word first, the field its low word first. */
  function Flip(l: Label): Label {
    Label(l.d1, l.d0)
  }

  function TweakLabel(tweak: nat): Label {
    Label(ZERO, FromNat(tweak, 64))
  }

  /** The shifts and the mask are doubling in GF(2^128). */
  lemma {:induction false} HalfHashIsDoubling(x: Label, tweak: nat)
    ensures HalfHashInput(x, tweak) == Flip(MulX(Flip(x))).Xor(TweakLabel(tweak))
  {
    hide FromNat;
    var high := ShiftLeft(x.d0, 1)[0 := x.d1[63]];
    assert Words.Xor(high, ZERO) == high;
  }

  /** Doubling loses nothing: bit 0 tells whether the polynomial was added. */
  lemma {:induction false} MulXInjective(a: Label, b: Label)
    requires MulX(a) == MulX(b)
    ensures a == b
  {
    hide MulX, Label.Bit;
    MulXBit(a, 0);
    MulXBit(b, 0);
    forall i | 0 <= i < 127
      ensures a.Bit(i) == b.Bit(i)
    {
      MulXBit(a, i + 1);
      MulXBit(b, i + 1);
    }
    SameBits(a, b);
  }

  lemma {:induction false} SameTweak(x: Label, y: Label, tweak: nat)
    requires HalfHashInput(x, tweak) == HalfHashInput(y, tweak)
    ensures x == y
  {
    hide HalfHashInput, MulX, Label.Xor, TweakLabel;
    HalfHashIsDoubling(x, tweak);
    HalfHashIsDoubling(y, tweak);
    XorCancel(Flip(MulX(Flip(x))), TweakLabel(tweak));
    XorCancel(Flip(MulX(Flip(y))), TweakLabel(tweak));
    MulXInjective(Flip(x), Flip(y));
  }

  lemma {:induction false} SameLabel(x: Label, s: nat, t: nat)
    requires s < 0x1_0000_0000 && t < 0x1_0000_0000 && HalfHashInput(x, s) == HalfHashInput(x, t)
    ensures s == t
  {
    hide FromNat;
    var masked := Words.Xor(ShiftLeft(x.d1, 1), And(FromNat(0x87, 64), Fill(64, x.d0[63])));
    XorSame(masked, FromNat(s, 64), FromNat(t, 64));
    Bits64(s);
    Bits64(t);
  }

  lemma {:induction false} XorSame(m: Word, a: Word, b: Word)
    requires Words.Xor(m, a) == Words.Xor(m, b)
    ensures a == b
  {
    forall i | 0 <= i < 64
      ensures a[i] == b[i]
    {
      assert Words.Xor(m, a)[i] == Words.Xor(m, b)[i];
    }
  }

  lemma {:induction false} Bits64(n: nat)
    requires n < 0x1_0000_0000_0000_0000
    ensures ToNat(FromNat(n, 64)) == n
  {
    assert Pow2(4) == 16 && Pow2(8) == 256 && Pow2(12) == 4096 && Pow2(16) == 0x1_0000 && Pow2(20) == 0x10_0000;
    assert Pow2(24) == 0x100_0000 && Pow2(28) == 0x1000_0000 && Pow2(32) == 0x1_0000_0000;
    assert Pow2(36) == 0x10_0000_0000 && Pow2(40) == 0x100_0000_0000 && Pow2(44) == 0x1000_0000_0000;
    assert Pow2(48) == 0x1_0000_0000_0000 && Pow2(52) == 0x10_0000_0000_0000 && Pow2(56) == 0x100_0000_0000_0000;
    assert Pow2(60) == 0x1000_0000_0000_0000 && Pow2(64) == 0x1_0000_0000_0000_0000;
    ToNatFromNat(n, 64);
  }

  /** One label is never hashed to the same input under two tweaks, nor two labels under one. */
  lemma {:induction false} HashInputsDiffer(x: Label, y: Label, s: nat, t: nat)
    requires s < 0x1_0000_0000 && t < 0x1_0000_0000
    ensures x != y ==> HalfHashInput(x, s) != HalfHashInput(y, s)
    ensures s != t ==> HalfHashInput(x, s) != HalfHashInput(x, t)
  {
    hide HalfHashInput;
    if HalfHashInput(x, s) == HalfHashInput(y, s) { SameTweak(x, y, s); }
    if HalfHashInput(x, s) == HalfHashInput(x, t) { SameLabel(x, s, t); }
  }

  /** The tweak of a gate counts the table rows before it. */
  lemma {:induction false} TweakCountsRows(gates: seq<Gate>, s: Garbling, r: Label, enc: Label -> Label, n: nat)
    requires n <= |gates| && Fits(gates, |s.wires|, |s.tables|) && s.tweak == 0
    requires Offset(gates, n) < 0x1_0000_0000
    ensures GarbleRun(gates, s, r, enc, n).tweak == Offset(gates, n)
    decreases n
  {
    hide Fits, GarbleOp, WriteRows, GateFits;
    if n > 0 {
      TweakCountsRows(gates, s, r, enc, n - 1);
      FitsAt(gates, |s.wires|, |s.tables|, n - 1);
      StepTweak(GarbleRun(gates, s, r, enc, n - 1), gates[n - 1], r, enc);
    }
  }

  lemma {:induction false} StepTweak(s: Garbling, g: Gate, r: Label, enc: Label -> Label)
    requires GateFits(g, |s.wires|, |s.tables|) && s.tweak + Slots(g.op) < 0x1_0000_0000
    ensures GarbleStep(s, g, r, enc).tweak == s.tweak + Slots(g.op)
  {
    hide GarbleOp, WriteRows;
  }

  /** No tweak is used by two gates: the ranges of tweaks of any two hashing gates are apart. */
  lemma {:induction false} TweaksApart(gates: seq<Gate>, s: Garbling, r: Label, enc: Label -> Label, i: nat, j: nat)
    requires i < j < |gates| && Fits(gates, |s.wires|, |s.tables|) && s.tweak == 0
    requires Offset(gates, j) < 0x1_0000_0000
    ensures GarbleRun(gates, s, r, enc, i).tweak + Slots(gates[i].op) <= GarbleRun(gates, s, r, enc, j).tweak
  {
    hide Fits, GarbleRun;
    OffsetMonotone(gates, i + 1, j);
    TweakCountsRows(gates, s, r, enc, i);
    TweakCountsRows(gates, s, r, enc, j);
  }

  /** The cipher output of a label under a tweak, plus its input. */
  function Pad(enc: Label -> Label, x: Label, tweak: nat): Label {
    enc(HalfHashInput(x, tweak)).Xor(HalfHashInput(x, tweak))
  }

  /**
   An AND gate hashes the labels of its first wire under its tweak and those of its second under
   the next one, so that a wire that feeds both inputs is never hashed to one cipher input twice.
   */
  lemma {:induction false} AndTweaks(a: Wire, b: Wire, r: Label, tweak: nat, enc: Label -> Label)
    requires tweak + 1 < 0x1_0000_0000
    ensures var rows := GarbleOp(AND, a, b, r, tweak, enc).rows;
            && rows[0] == Pad(enc, a.l0, tweak).Xor(Pad(enc, a.l1, tweak)).Xor(if b.l0.PermutationBit() then r else NONE)
            && rows[1] == Pad(enc, b.l0, tweak + 1).Xor(Pad(enc, b.l1, tweak + 1)).Xor(a.l0)
    ensures forall x :: HalfHashInput(x, tweak) != HalfHashInput(x, tweak + 1)
  {
    hide HalfHashInput, Label.Xor;
    forall x ensures HalfHashInput(x, tweak) != HalfHashInput(x, tweak + 1) {
      HashInputsDiffer(x, x, tweak, tweak + 1);
    }
  }
}
