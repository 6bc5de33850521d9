/**
 Arithmetic in GF(2^128) modulo x^128 + x^7 + x^2 + x + 1 (mpc/ot_extension.go,
 mpc/gf128_amd64.go). Bit `i` of a label is the coefficient of x^i.
 */
module Field {
  import opened Words
  import opened Labels

  /** The coefficients of x^7 + x^2 + x + 1, to which x^128 reduces. */
  predicate Tap(i: int) {
    i == 0 || i == 1 || i == 2 || i == 7
  }

  const POLY: Word := FromNat(0x87, 64)

  lemma {:induction false} FromNatZero(k: nat)
    ensures FromNat(0, k) == Fill(k, false)
    decreases k
  {
    if k > 0 { FromNatZero(k - 1); }
  }

  lemma {:induction false} PolyBits()
    ensures forall i :: 0 <= i < 64 ==> POLY[i] == Tap(i)
  {
    FromNatZero(56);
    assert FromNat(1, 57) == [true] + FromNat(0, 56);
    assert FromNat(0x10, 61) == [false] + ([false] + ([false] + ([false] + FromNat(1, 57))));
    assert POLY == [true] + ([true] + ([true] + FromNat(0x10, 61)));
  }

  /** Multiplication by x, as the portable loop does it. */
  function MulX(v: Label): Label {
    var carry := v.d1[63];
    Label(Xor(ShiftLeft(v.d0, 1), And(POLY, Fill(64, carry))), ShiftLeft(v.d1, 1)[0 := v.d0[63]])
  }

  lemma {:induction false} MulXBit(v: Label, i: nat)
    requires i < 128
    ensures MulX(v).Bit(i) == ((i > 0 && v.Bit(i - 1)) != (v.Bit(127) && Tap(i)))
  {
    PolyBits();
  }

  lemma {:induction false} MulXXor(a: Label, b: Label)
    ensures MulX(a.Xor(b)) == MulX(a).Xor(MulX(b))
  {
    hide MulX, Tap;
    forall i | 0 <= i < 128
      ensures MulX(a.Xor(b)).Bit(i) == MulX(a).Xor(MulX(b)).Bit(i)
    {
      MulXBit(a, i);
      MulXBit(b, i);
      MulXBit(a.Xor(b), i);
    }
    SameBits(MulX(a.Xor(b)), MulX(a).Xor(MulX(b)));
  }

  lemma {:induction false} MulXNone()
    ensures MulX(NONE) == NONE
  {
    XorNone(MulX(NONE));
    MulXXor(NONE, NONE);
    XorNone(NONE);
  }

  /** Multiplication by x^n. */
  function MulXn(v: Label, n: nat): Label {
    if n == 0 then v else MulX(MulXn(v, n - 1))
  }

  lemma {:induction false} MulXnXor(a: Label, b: Label, n: nat)
    ensures MulXn(a.Xor(b), n) == MulXn(a, n).Xor(MulXn(b, n))
    decreases n
  {
    hide MulX, Label.Xor;
    if n > 0 {
      MulXnXor(a, b, n - 1);
      MulXXor(MulXn(a, n - 1), MulXn(b, n - 1));
    }
  }

  lemma {:induction false} MulXnInner(v: Label, n: nat)
    ensures MulXn(MulX(v), n) == MulX(MulXn(v, n))
    decreases n
  {
    hide MulX;
    if n > 0 { MulXnInner(v, n - 1); }
  }

  // Multiplication

  /** The product of `a` with the polynomial whose coefficients are `b`, by Horner's rule. */
  function Times(a: Label, b: Bits): Label {
    if b == [] then NONE else MulX(Times(a, b[1..])).Xor(a.When(b[0]))
  }

  function BitsOfLabel(l: Label): (b: Bits)
    ensures |b| == 128 && forall i :: 0 <= i < 128 ==> b[i] == l.Bit(i)
  {
    l.d0 + l.d1
  }

  function Mul(a: Label, b: Label): Label {
    Times(a, BitsOfLabel(b))
  }

  /** The portable shift-and-add loop computes the product. */
  method MulGeneric(a: Label, b: Label) returns (z: Label)
    ensures z == Mul(a, b)
  {
    hide MulX, Label.Xor;
    ghost var bits := BitsOfLabel(b);
    z := NONE;
    var v := a;
    XorNone(Times(a, bits));
    assert bits[0..] == bits;
    for i := 0 to 128
      invariant v == MulXn(a, i)
      invariant z.Xor(MulXn(Times(a, bits[i..]), i)) == Times(a, bits)
    {
      var bit := if i < 64 then b.d0[i] else b.d1[i - 64];
      ghost var rest := Times(a, bits[i + 1..]);
      assert bits[i..][1..] == bits[i + 1..];
      MulXnXor(MulX(rest), a.When(bit), i);
      MulXnInner(rest, i);
      WhenThrough(a, bit, i);
      XorRegroup(z, MulXn(rest, i + 1), v.When(bit));
      z := z.Xor(v.When(bit));
      v := MulX(v);
    }
    assert bits[128..] == [];
    MulXnNone(128);
    XorNone(z);
  }

  lemma {:induction false} MulXnNone(n: nat)
    ensures MulXn(NONE, n) == NONE
    decreases n
  {
    hide MulX;
    if n > 0 { MulXnNone(n - 1); MulXNone(); }
  }

  lemma {:induction false} WhenThrough(a: Label, bit: bool, n: nat)
    ensures MulXn(a.When(bit), n) == MulXn(a, n).When(bit)
  {
    MulXnNone(n);
  }

  lemma {:induction false} XorRegroup(a: Label, b: Label, c: Label)
    ensures a.Xor(b.Xor(c)) == a.Xor(c).Xor(b)
  {
    SameBits(a.Xor(b.Xor(c)), a.Xor(c).Xor(b));
  }

  lemma {:induction false} XorExchange(a: Label, b: Label, c: Label, d: Label)
    ensures a.Xor(b).Xor(c.Xor(d)) == a.Xor(c).Xor(b.Xor(d))
  {
    SameBits(a.Xor(b).Xor(c.Xor(d)), a.Xor(c).Xor(b.Xor(d)));
  }

  lemma {:induction false} TimesXor(a: Label, a': Label, b: Bits)
    ensures Times(a.Xor(a'), b) == Times(a, b).Xor(Times(a', b))
    decreases |b|
  {
    hide MulX, Label.Xor;
    if b == [] {
      XorNone(NONE);
    } else {
      TimesXor(a, a', b[1..]);
      MulXXor(Times(a, b[1..]), Times(a', b[1..]));
      XorNone(NONE);
      XorExchange(MulX(Times(a, b[1..])), MulX(Times(a', b[1..])), a.When(b[0]), a'.When(b[0]));
    }
  }

  /** The product distributes over exclusive or in its first argument. */
  lemma {:induction false} MulXor(a: Label, a': Label, b: Label)
    ensures Mul(a.Xor(a'), b) == Mul(a, b).Xor(Mul(a', b))
  {
    TimesXor(a, a', BitsOfLabel(b));
  }

  // Polynomials and their residues

  const ONE: Label := Label(ZERO[0 := true], ZERO)

  /** The residue of a polynomial of any degree, by Horner's rule. */
  function Residue(p: Bits): Label {
    Times(ONE, p)
  }

  lemma {:induction false} ResidueStep(p: Bits)
    requires p != []
    ensures Residue(p) == MulX(Residue(p[1..])).Xor(ONE.When(p[0]))
  {}

  /** A polynomial of degree below 128 is its own residue. */
  lemma {:induction false} ResidueSmall(p: Bits, i: nat)
    requires |p| <= 128 && i < 128
    ensures Residue(p).Bit(i) == (i < |p| && p[i])
    decreases |p|
  {
    hide MulX, Times;
    if p == [] {
      assert Residue(p) == NONE by { EmptyResidue(); }
    } else {
      ResidueStep(p);
      MulXBit(Residue(p[1..]), i);
      ResidueSmall(p[1..], 127);
      if i > 0 { ResidueSmall(p[1..], i - 1); }
    }
  }

  lemma {:induction false} EmptyResidue()
    ensures Residue([]) == NONE
  {}

  lemma {:induction false} ResidueOfLabel(l: Label)
    ensures Residue(BitsOfLabel(l)) == l
  {
    hide Residue, BitsOfLabel;
    forall i | 0 <= i < 128
      ensures Residue(BitsOfLabel(l)).Bit(i) == l.Bit(i)
    {
      ResidueSmall(BitsOfLabel(l), i);
    }
    SameBits(Residue(BitsOfLabel(l)), l);
  }

  /** Horner's rule may start at any coefficient. */
  lemma {:induction false} TimesConcat(a: Label, p: Bits, q: Bits)
    ensures Times(a, p + q) == Times(a, p).Xor(MulXn(Times(a, q), |p|))
    decreases |p|
  {
    hide MulX, Label.Xor;
    if p == [] {
      assert p + q == q;
      XorNone(Times(a, q));
    } else {
      var tail, high := Times(a, p[1..]), MulXn(Times(a, q), |p| - 1);
      TimesConcat(a, p[1..], q);
      assert (p + q)[1..] == p[1..] + q;
      MulXXor(tail, high);
      XorRegroup2(MulX(tail), MulX(high), a.When(p[0]));
    }
  }

  lemma {:induction false} ResidueConcat(p: Bits, q: Bits)
    ensures Residue(p + q) == Residue(p).Xor(MulXn(Residue(q), |p|))
  {
    TimesConcat(ONE, p, q);
  }

  lemma {:induction false} XorRegroup2(a: Label, b: Label, c: Label)
    ensures a.Xor(b).Xor(c) == a.Xor(c).Xor(b)
  {
    SameBits(a.Xor(b).Xor(c), a.Xor(c).Xor(b));
  }

  // The carry-less product and its two reductions

  /** Coefficient-wise sum of polynomials of equal length. */
  function Add(p: Bits, q: Bits): (r: Bits)
    requires |p| == |q|
    ensures |r| == |p|
  {
    Xor(p, q)
  }

  /** Schoolbook product of polynomials: what the PCLMULQDQ assembly computes. */
  function Carryless(a: Bits, b: Bits): (p: Bits)
    ensures |p| == |a| + |b|
    decreases |b|
  {
    if b == [] then Fill(|a|, false)
    else Add((if b[0] then a else Fill(|a|, false)) + Fill(|b|, false), [false] + Carryless(a, b[1..]))
  }

  lemma {:induction false} ResidueAdd(p: Bits, q: Bits)
    requires |p| == |q|
    ensures Residue(Add(p, q)) == Residue(p).Xor(Residue(q))
    decreases |p|
  {
    hide MulX, Times, Label.Xor;
    if p == [] {
      EmptyResidue();
      XorNone(NONE);
      assert Add(p, q) == [];
    } else {
      ResidueStep(p);
      ResidueStep(q);
      ResidueStep(Add(p, q));
      assert Add(p, q)[1..] == Add(p[1..], q[1..]);
      ResidueAdd(p[1..], q[1..]);
      MulXXor(Residue(p[1..]), Residue(q[1..]));
      XorExchange(MulX(Residue(p[1..])), MulX(Residue(q[1..])), ONE.When(p[0]), ONE.When(q[0]));
      XorNone(ONE);
      XorNone(NONE);
    }
  }

  lemma {:induction false} ResidueZeros(n: nat)
    ensures Residue(Fill(n, false)) == NONE
    decreases n
  {
    hide MulX, Times, Label.Xor;
    if n == 0 {
      EmptyResidue();
    } else {
      ResidueStep(Fill(n, false));
      assert Fill(n, false)[1..] == Fill(n - 1, false);
      ResidueZeros(n - 1);
      MulXNone();
      XorNone(NONE);
    }
  }

  /** Multiplying polynomials and then reducing is multiplying residues. */
  lemma {:induction false} ResidueCarryless(a: Bits, b: Bits)
    ensures Residue(Carryless(a, b)) == Times(Residue(a), b)
    decreases |b|
  {
    hide MulX, Residue, Label.Xor, MulXn;
    if b == [] {
      ResidueZeros(|a|);
    } else {
      var head := if b[0] then a else Fill(|a|, false);
      var rest := Carryless(a, b[1..]);
      ResidueAdd(head + Fill(|b|, false), [false] + rest);
      ResidueConcat(head, Fill(|b|, false));
      ResidueZeros(|b|);
      ResidueZeros(|a|);
      MulXnNone(|a|);
      XorNone(Residue(head));
      ResidueStep([false] + rest);
      assert ([false] + rest)[1..] == rest;
      XorNone(MulX(Residue(rest)));
      ResidueCarryless(a, b[1..]);
      XorComm(Residue(head), MulX(Residue(rest)));
    }
  }

  /** The portable product is the residue of the schoolbook product. */
  lemma {:induction false} MulIsResidue(a: Label, b: Label)
    ensures Mul(a, b) == Residue(Carryless(BitsOfLabel(a), BitsOfLabel(b)))
  {
    ResidueCarryless(BitsOfLabel(a), BitsOfLabel(b));
    ResidueOfLabel(a);
  }

  // The folding reduction of the accelerated path

  function Overflow(h: Label): Word {
    Xor(Xor(ShiftRight(h.d1, 63), ShiftRight(h.d1, 62)), ShiftRight(h.d1, 57))
  }

  /** `reduceGF128`: folds the high half back twice. */
  function ReduceGF128(lo: Label, hi: Label): Label {
    var overflow := Overflow(hi);
    var d0 := Xor(Xor(Xor(Xor(lo.d0, hi.d0), ShiftLeft(hi.d0, 1)), ShiftLeft(hi.d0, 2)), ShiftLeft(hi.d0, 7));
    var d1 := Xor(Xor(Xor(lo.d1, hi.d1), Xor(ShiftLeft(hi.d1, 1), ShiftRight(hi.d0, 63))),
                  Xor(Xor(ShiftLeft(hi.d1, 2), ShiftRight(hi.d0, 62)),
                      Xor(ShiftLeft(hi.d1, 7), ShiftRight(hi.d0, 57))));
    Label(Xor(Xor(Xor(Xor(d0, overflow), ShiftLeft(overflow, 1)), ShiftLeft(overflow, 2)), ShiftLeft(overflow, 7)), d1)
  }

  /** `h` times x^7 + x^2 + x + 1. */
  function Fold(h: Label): Label {
    h.Xor(MulXn(h, 1)).Xor(MulXn(h, 2)).Xor(MulXn(h, 7))
  }

  /** The contribution of the bits that `n` multiplications by x push past x^127. */
  predicate Over(h: Label, n: nat, i: int)
    requires n <= 8
  {
    n > 0 && ((i > 0 && Over(h, n - 1, i - 1)) != (h.Bit(128 - n) && Tap(i)))
  }

  lemma {:induction false} OverHigh(h: Label, n: nat, i: int)
    requires n <= 8 && i >= 8 + n
    ensures !Over(h, n, i)
    decreases n
  {
    if n > 0 { OverHigh(h, n - 1, i - 1); }
  }

  lemma {:induction false} MulXnBit(h: Label, n: nat, i: nat)
    requires n <= 8 && i < 128
    ensures MulXn(h, n).Bit(i) == ((i >= n && h.Bit(i - n)) != Over(h, n, i))
    decreases n
  {
    hide MulX, Tap;
    if n > 0 {
      MulXBit(MulXn(h, n - 1), i);
      MulXnBit(h, n - 1, 127);
      OverHigh(h, n - 1, 127);
      if i > 0 { MulXnBit(h, n - 1, i - 1); }
    }
  }

  /** What the four words of a fold put at bit `i`. */
  lemma {:induction false} FoldBit(h: Label, i: nat)
    requires i < 128
    ensures Fold(h).Bit(i)
            == (((h.Bit(i) != (i >= 1 && h.Bit(i - 1))) != ((i >= 2 && h.Bit(i - 2)) != (i >= 7 && h.Bit(i - 7))))
                != ((Over(h, 1, i) != Over(h, 2, i)) != Over(h, 7, i)))
  {
    hide MulXn, Over;
    MulXnBit(h, 1, i);
    MulXnBit(h, 2, i);
    MulXnBit(h, 7, i);
  }

  lemma {:induction false} ReduceHighBit(lo: Label, hi: Label, i: nat)
    requires 64 <= i < 128
    ensures ReduceGF128(lo, hi).Bit(i) == (lo.Bit(i) != Fold(hi).Bit(i))
  {
    hide Fold, Over;
    FoldBit(hi, i);
    OverHigh(hi, 1, i);
    OverHigh(hi, 2, i);
    OverHigh(hi, 7, i);
  }

  /** Bit `j` of the seven bits that a shift by 7 pushes out, and false elsewhere. */
  predicate Top7(h: Label, j: int) {
    0 <= j <= 6 && h.Bit(121 + j)
  }

  lemma {:induction false} Over7(h: Label, i: int)
    ensures Over(h, 7, i)
            == (((Top7(h, 0) && Tap(i)) != (Top7(h, 1) && Tap(i - 1)))
                != ((((Top7(h, 2) && Tap(i - 2)) != (Top7(h, 3) && Tap(i - 3)))
                     != ((Top7(h, 4) && Tap(i - 4)) != (Top7(h, 5) && Tap(i - 5))))
                    != (Top7(h, 6) && Tap(i - 6))))
  {
    hide Tap;
    TapNegative();
    assert Over(h, 1, i - 6) == (h.Bit(127) && Tap(i - 6));
    assert Over(h, 2, i - 5) == ((i - 5 > 0 && Over(h, 1, i - 6)) != (h.Bit(126) && Tap(i - 5)));
    assert Over(h, 3, i - 4) == ((i - 4 > 0 && Over(h, 2, i - 5)) != (h.Bit(125) && Tap(i - 4)));
    assert Over(h, 4, i - 3) == ((i - 3 > 0 && Over(h, 3, i - 4)) != (h.Bit(124) && Tap(i - 3)));
    assert Over(h, 5, i - 2) == ((i - 2 > 0 && Over(h, 4, i - 3)) != (h.Bit(123) && Tap(i - 2)));
    assert Over(h, 6, i - 1) == ((i - 1 > 0 && Over(h, 5, i - 2)) != (h.Bit(122) && Tap(i - 1)));
    assert Over(h, 7, i) == ((i > 0 && Over(h, 6, i - 1)) != (h.Bit(121) && Tap(i)));
  }

  lemma {:induction false} TapNegative()
    ensures forall i :: i < 0 ==> !Tap(i)
  {}

  /** The seven spilled bits times x^7 + x^2 + x + 1. */
  lemma {:induction false} Over7ByTap(h: Label, i: int)
    ensures Over(h, 7, i) == ((Top7(h, i) != Top7(h, i - 1)) != (Top7(h, i - 2) != Top7(h, i - 7)))
  {
    hide Over, Label.Bit;
    Over7(h, i);
    if i == 0 {} else if i == 1 {} else if i == 2 {} else if i == 3 {} else if i == 4 {}
    else if i == 5 {} else if i == 6 {} else if i == 7 {} else if i == 8 {} else if i == 9 {}
    else if i == 10 {} else if i == 11 {} else if i == 12 {} else if i == 13 {}
  }

  /** The bits that a shift by `n` pushes out, for the shifts by 1 and by 2. */
  predicate Top1(h: Label, j: int) {
    j == 0 && h.Bit(127)
  }

  predicate Top2(h: Label, j: int) {
    0 <= j <= 1 && h.Bit(126 + j)
  }

  lemma {:induction false} Over12ByTap(h: Label, i: int)
    ensures Over(h, 1, i) == ((Top1(h, i) != Top1(h, i - 1)) != (Top1(h, i - 2) != Top1(h, i - 7)))
    ensures Over(h, 2, i) == ((Top2(h, i) != Top2(h, i - 1)) != (Top2(h, i - 2) != Top2(h, i - 7)))
  {
    assert Over(h, 1, i) == (h.Bit(127) && Tap(i));
    assert Over(h, 1, i - 1) == (h.Bit(127) && Tap(i - 1));
    assert Over(h, 2, i) == ((i > 0 && Over(h, 1, i - 1)) != (h.Bit(126) && Tap(i)));
  }

  /** All spilled bits together: the word the source calls overflow. */
  predicate Spill(h: Label, j: int) {
    (Top1(h, j) != Top2(h, j)) != Top7(h, j)
  }

  lemma {:induction false} OverByTap(h: Label, i: int)
    ensures ((Over(h, 1, i) != Over(h, 2, i)) != Over(h, 7, i))
            == ((Spill(h, i) != Spill(h, i - 1)) != (Spill(h, i - 2) != Spill(h, i - 7)))
  {
    hide Over, Top1, Top2, Top7;
    Over7ByTap(h, i);
    Over12ByTap(h, i);
  }

  lemma {:induction false} OverflowWord(h: Label, j: nat)
    requires j < 64
    ensures Overflow(h)[j] == Spill(h, j)
  {}

  lemma {:induction false} ReduceLowBit(lo: Label, hi: Label, i: nat)
    requires i < 64
    ensures ReduceGF128(lo, hi).Bit(i) == (lo.Bit(i) != Fold(hi).Bit(i))
  {
    hide Fold, Over, Spill, Overflow;
    FoldBit(hi, i);
    OverByTap(hi, i);
    SpillNegative(hi);
    OverflowWord(hi, i);
    if i >= 1 { OverflowWord(hi, i - 1); }
    if i >= 2 { OverflowWord(hi, i - 2); }
    if i >= 7 { OverflowWord(hi, i - 7); }
  }

  lemma {:induction false} SpillNegative(h: Label)
    ensures forall j :: j < 0 ==> !Spill(h, j)
  {}

  lemma {:induction false} ReduceIsFold(lo: Label, hi: Label)
    ensures ReduceGF128(lo, hi) == lo.Xor(Fold(hi))
  {
    hide Fold, ReduceGF128;
    forall i | 0 <= i < 128
      ensures ReduceGF128(lo, hi).Bit(i) == lo.Xor(Fold(hi)).Bit(i)
    {
      if i < 64 { ReduceLowBit(lo, hi, i); } else { ReduceHighBit(lo, hi, i); }
    }
    SameBits(ReduceGF128(lo, hi), lo.Xor(Fold(hi)));
  }

  // x^128 is x^7 + x^2 + x + 1

  lemma {:induction false} PowerOfX(n: nat, i: nat)
    requires n < 128 && i < 128
    ensures MulXn(ONE, n).Bit(i) == (i == n)
    decreases n
  {
    hide MulX;
    if n > 0 {
      MulXBit(MulXn(ONE, n - 1), i);
      PowerOfX(n - 1, 127);
      if i > 0 { PowerOfX(n - 1, i - 1); }
    }
  }

  lemma {:induction false} X128()
    ensures MulXn(ONE, 128) == Fold(ONE)
  {
    hide MulXn, Over;
    forall i | 0 <= i < 128
      ensures MulXn(ONE, 128).Bit(i) == Fold(ONE).Bit(i)
    {
      assert MulXn(ONE, 128) == MulX(MulXn(ONE, 127)) by { MulXnStep(ONE, 127); }
      X128Bit(i);
    }
    SameBits(MulXn(ONE, 128), Fold(ONE));
  }

  lemma {:induction false} MulXnStep(v: Label, n: nat)
    ensures MulXn(v, n + 1) == MulX(MulXn(v, n))
  {}

  lemma {:induction false} X128Bit(i: nat)
    requires i < 128
    ensures MulX(MulXn(ONE, 127)).Bit(i) == Tap(i) == Fold(ONE).Bit(i)
  {
    hide MulX, MulXn;
    MulXBit(MulXn(ONE, 127), i);
    PowerOfX(127, 127);
    if i > 0 { PowerOfX(127, i - 1); }
    PowerOfX(1, i);
    PowerOfX(2, i);
    PowerOfX(7, i);
  }

  lemma {:induction false} FoldXor(a: Label, b: Label)
    ensures Fold(a.Xor(b)) == Fold(a).Xor(Fold(b))
  {
    hide MulXn, Label.Xor;
    MulXnXor(a, b, 1);
    MulXnXor(a, b, 2);
    MulXnXor(a, b, 7);
    XorExchange(a, b, MulXn(a, 1), MulXn(b, 1));
    XorExchange(a.Xor(MulXn(a, 1)), b.Xor(MulXn(b, 1)), MulXn(a, 2), MulXn(b, 2));
    XorExchange(a.Xor(MulXn(a, 1)).Xor(MulXn(a, 2)), b.Xor(MulXn(b, 1)).Xor(MulXn(b, 2)), MulXn(a, 7), MulXn(b, 7));
  }

  lemma {:induction false} FoldMulX(a: Label)
    ensures Fold(MulX(a)) == MulX(Fold(a))
  {
    hide MulXn, MulX, Label.Xor;
    MulXnInner(a, 1);
    MulXnInner(a, 2);
    MulXnInner(a, 7);
    MulXXor(a, MulXn(a, 1));
    MulXXor(a.Xor(MulXn(a, 1)), MulXn(a, 2));
    MulXXor(a.Xor(MulXn(a, 1)).Xor(MulXn(a, 2)), MulXn(a, 7));
  }

  /** Multiplying a residue by x^128 is folding it. */
  lemma {:induction false} FoldIsX128(p: Bits)
    ensures MulXn(Residue(p), 128) == Fold(Residue(p))
    decreases |p|
  {
    hide MulXn, MulX, Fold, Times, Label.Xor;
    MulXnNone(128);
    FoldNone();
    if p == [] {
      EmptyResidue();
    } else {
      var t, c := Residue(p[1..]), ONE.When(p[0]);
      ResidueStep(p);
      FoldIsX128(p[1..]);
      MulXnXor(MulX(t), c, 128);
      MulXnInner(t, 128);
      FoldXor(MulX(t), c);
      FoldMulX(t);
      X128();
    }
  }

  lemma {:induction false} FoldNone()
    ensures Fold(NONE) == NONE
  {
    hide MulXn, Label.Xor;
    MulXnNone(1);
    MulXnNone(2);
    MulXnNone(7);
    XorNone(NONE);
  }

  /** The fold of both halves is the residue of the whole product. */
  lemma {:induction false} ReduceIsResidue(lo: Label, hi: Label)
    ensures ReduceGF128(lo, hi) == Residue(BitsOfLabel(lo) + BitsOfLabel(hi))
  {
    hide ReduceGF128, Fold, Residue, BitsOfLabel, MulXn;
    ReduceIsFold(lo, hi);
    ResidueConcat(BitsOfLabel(lo), BitsOfLabel(hi));
    ResidueOfLabel(lo);
    ResidueOfLabel(hi);
    FoldIsX128(BitsOfLabel(hi));
  }

  function LabelOfBits(b: Bits): (l: Label)
    requires |b| == 128
    ensures BitsOfLabel(l) == b
  {
    Label(b[..64], b[64..])
  }

  /** `gf128Mul` with PCLMULQDQ: the two halves of the carry-less product, then the fold. */
  function MulAccelerated(a: Label, b: Label): Label {
    var p := Carryless(BitsOfLabel(a), BitsOfLabel(b));
    ReduceGF128(LabelOfBits(p[..128]), LabelOfBits(p[128..]))
  }

  /** The accelerated path computes what the portable loop computes. */
  lemma {:induction false} AcceleratedRefinesGeneric(a: Label, b: Label)
    ensures MulAccelerated(a, b) == Mul(a, b)
  {
    hide ReduceGF128, Residue, BitsOfLabel, LabelOfBits, Carryless, Mul;
    var p := Carryless(BitsOfLabel(a), BitsOfLabel(b));
    ReduceIsResidue(LabelOfBits(p[..128]), LabelOfBits(p[128..]));
    assert p[..128] + p[128..] == p;
    MulIsResidue(a, b);
  }
}
