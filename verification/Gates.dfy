/**
 One gate of the half-gates scheme (mpc/circuit.go).

 The source hashes with fixed-key AES. Here `enc` is any function on labels, so every
 statement holds for every block cipher and every key.
 */
module Gates {
  import opened Words
  import opened Labels
  import opened Plan

  // The tweaked hash

  /** Doubling in GF(2^128) with `d0` the high word, then the tweak on the low word. */
  function HalfHashInput(x: Label, tweak: nat): Label {
    var carry := x.d0[63];
    Label(ShiftLeft(x.d0, 1)[0 := x.d1[63]],
          Xor(Xor(ShiftLeft(x.d1, 1), And(FromNat(0x87, 64), Fill(64, carry))), FromNat(tweak, 64)))
  }

  function Hash(enc: Label -> Label, x: Label, tweak: nat): Label {
    var k := HalfHashInput(x, tweak);
    enc(k).Xor(k)
  }

  // One gate

  function XorWire(a: Wire, b: Wire, r: Label): Wire {
    var l0 := a.l0.Xor(b.l0);
    Wire(l0, l0.Xor(r))
  }

  function XnorWire(a: Wire, b: Wire, r: Label): Wire {
    var w := XorWire(a, b, r);
    Wire(w.l1, w.l0)
  }

  datatype AndRows = AndRows(out: Wire, tg: Label, te: Label)

  /** The two half gates, given the hashes of both labels of both input wires. */
  function GarbleAnd(a: Wire, b: Wire, ha: Wire, hb: Wire, r: Label): AndRows {
    var pa, pb := a.l0.PermutationBit(), b.l0.PermutationBit();
    var tg := ha.l0.Xor(ha.l1).Xor(r.When(pb));
    var wg0 := ha.l0.Xor(tg.When(pa));
    var te := hb.l0.Xor(hb.l1).Xor(a.l0);
    var we0 := hb.l0.Xor(te.Xor(a.l0).When(pb));
    var l0 := wg0.Xor(we0);
    AndRows(Wire(l0, l0.Xor(r)), tg, te)
  }

  function EvaluateAnd(a: Label, b: Label, ha: Label, hb: Label, tg: Label, te: Label): Label {
    ha.Xor(tg.When(a.PermutationBit())).Xor(hb.Xor(te.Xor(a).When(b.PermutationBit())))
  }

  datatype InvRow = InvRow(out: Wire, row: Label)

  /** Row reduction: the row whose permutation bit is clear is all zero and not sent. */
  function GarbleInv(a: Wire, h: Wire, r: Label): InvRow {
    if a.l0.PermutationBit() then
      InvRow(Wire(h.l1, h.l1.Xor(r)), h.l0.Xor(h.l1.Xor(r)))
    else
      InvRow(Wire(h.l0.Xor(r), h.l0), h.l1.Xor(h.l0.Xor(r)))
  }

  function EvaluateInv(a: Label, h: Label, row: Label): Label {
    h.Xor(row.When(a.PermutationBit()))
  }

  /** Both labels of a wire differ by the global offset. */
  predicate FreeXor(w: Wire, r: Label) {
    w.l1 == w.l0.Xor(r)
  }

  lemma {:induction false} XorGateCorrect(a: Wire, b: Wire, r: Label, va: bool, vb: bool)
    requires FreeXor(a, r) && FreeXor(b, r)
    ensures a.Select(va).Xor(b.Select(vb)) == XorWire(a, b, r).Select(va != vb)
    ensures a.Select(va).Xor(b.Select(vb)) == XnorWire(a, b, r).Select(va == vb)
    ensures FreeXor(XorWire(a, b, r), r) && FreeXor(XnorWire(a, b, r), r)
  {
    SameBits(a.Select(va).Xor(b.Select(vb)), XorWire(a, b, r).Select(va != vb));
    XorCancel(a.l0.Xor(b.l0), r);
  }

  /** The garbler's half gate yields the AND of `va` with the garbler's bit `pb`. */
  lemma {:induction false} GarblerHalfCorrect(a: Wire, ha: Wire, r: Label, va: bool, pb: bool)
    requires FreeXor(a, r) && r.PermutationBit()
    ensures var tg := ha.l0.Xor(ha.l1).Xor(r.When(pb));
            ha.Select(va).Xor(tg.When(a.Select(va).PermutationBit()))
            == ha.l0.Xor(tg.When(a.l0.PermutationBit())).Xor(r.When(va && pb))
  {
    var tg := ha.l0.Xor(ha.l1).Xor(r.When(pb));
    SameBits(ha.Select(va).Xor(tg.When(a.Select(va).PermutationBit())),
             ha.l0.Xor(tg.When(a.l0.PermutationBit())).Xor(r.When(va && pb)));
  }

  /** The evaluator's half gate yields the AND of `va` with the colour it sees on `b`. */
  lemma {:induction false} EvaluatorHalfCorrect(a: Wire, b: Wire, hb: Wire, r: Label, va: bool, vb: bool)
    requires FreeXor(a, r) && FreeXor(b, r) && r.PermutationBit()
    ensures var te := hb.l0.Xor(hb.l1).Xor(a.l0);
            var pb := b.l0.PermutationBit();
            hb.Select(vb).Xor(te.Xor(a.Select(va)).When(b.Select(vb).PermutationBit()))
            == hb.l0.Xor(te.Xor(a.l0).When(pb)).Xor(r.When(va && vb != pb))
  {
    var te := hb.l0.Xor(hb.l1).Xor(a.l0);
    var pb := b.l0.PermutationBit();
    assert b.Select(vb).PermutationBit() == (vb != pb);
    SameBits(hb.Select(vb).Xor(te.Xor(a.Select(va)).When(vb != pb)),
             hb.l0.Xor(te.Xor(a.l0).When(pb)).Xor(r.When(va && vb != pb)));
  }

  /** Two half gates add up to the whole gate. */
  lemma {:induction false} HalvesAddUp(wg0: Label, we0: Label, r: Label, va: bool, vb: bool, pb: bool)
    ensures wg0.Xor(r.When(va && pb)).Xor(we0.Xor(r.When(va && vb != pb)))
            == Wire(wg0.Xor(we0), wg0.Xor(we0).Xor(r)).Select(va && vb)
  {
    SameBits(wg0.Xor(r.When(va && pb)).Xor(we0.Xor(r.When(va && vb != pb))),
             Wire(wg0.Xor(we0), wg0.Xor(we0).Xor(r)).Select(va && vb));
  }

  lemma {:induction false} AndGateCorrect(a: Wire, b: Wire, ha: Wire, hb: Wire, r: Label, va: bool, vb: bool)
    requires FreeXor(a, r) && FreeXor(b, r) && r.PermutationBit()
    ensures var g := GarbleAnd(a, b, ha, hb, r);
            && FreeXor(g.out, r)
            && EvaluateAnd(a.Select(va), b.Select(vb), ha.Select(va), hb.Select(vb), g.tg, g.te)
               == g.out.Select(va && vb)
  {
    var pa, pb := a.l0.PermutationBit(), b.l0.PermutationBit();
    var g := GarbleAnd(a, b, ha, hb, r);
    GarblerHalfCorrect(a, ha, r, va, pb);
    EvaluatorHalfCorrect(a, b, hb, r, va, vb);
    HalvesAddUp(ha.l0.Xor(g.tg.When(pa)), hb.l0.Xor(g.te.Xor(a.l0).When(pb)), r, va, vb, pb);
  }

  lemma {:induction false} InvGateCorrect(a: Wire, h: Wire, r: Label, va: bool)
    requires FreeXor(a, r) && r.PermutationBit()
    ensures var g := GarbleInv(a, h, r);
            FreeXor(g.out, r) && EvaluateInv(a.Select(va), h.Select(va), g.row) == g.out.Select(!va)
  {
    var g := GarbleInv(a, h, r);
    SameBits(EvaluateInv(a.Select(va), h.Select(va), g.row), g.out.Select(!va));
    SameBits(g.out.l1, g.out.l0.Xor(r));
  }

  /** What a gate puts on its output wire and into its table slots. */
  datatype GarbledGate = GarbledGate(out: Wire, rows: seq<Label>)

  function HashWire(enc: Label -> Label, w: Wire, tweak: nat): Wire {
    Wire(Hash(enc, w.l0, tweak), Hash(enc, w.l1, tweak))
  }

  function GarbleOp(op: Op, a: Wire, b: Wire, r: Label, tweak: nat, enc: Label -> Label): (g: GarbledGate)
    requires op != Unsupported
    ensures |g.rows| == Slots(op)
  {
    match op
    case XOR => GarbledGate(XorWire(a, b, r), [])
    case XNOR => GarbledGate(XnorWire(a, b, r), [])
    case AND =>
      var g := GarbleAnd(a, b, HashWire(enc, a, tweak), HashWire(enc, b, Uint32(tweak + 1)), r);
      GarbledGate(g.out, [g.tg, g.te])
    case INV =>
      var g := GarbleInv(a, HashWire(enc, a, tweak), r);
      GarbledGate(g.out, [g.row])
  }

  function EvaluateOp(op: Op, a: Label, b: Label, rows: seq<Label>, tweak: nat, enc: Label -> Label): Label
    requires op != Unsupported && |rows| == Slots(op)
  {
    match op
    case XOR => a.Xor(b)
    case XNOR => a.Xor(b)
    case AND => EvaluateAnd(a, b, Hash(enc, a, tweak), Hash(enc, b, Uint32(tweak + 1)), rows[0], rows[1])
    case INV => EvaluateInv(a, Hash(enc, a, tweak), rows[0])
  }

  predicate PlainOp(op: Op, a: bool, b: bool) {
    match op
    case XOR => a != b
    case XNOR => a == b
    case AND => a && b
    case INV => !a
    case Unsupported => false
  }

  function NextTweak(op: Op, tweak: nat): nat {
    if Slots(op) == 0 then tweak else Uint32(tweak + Slots(op))
  }

  /** Every gate, garbled and evaluated on active labels, yields the active output label. */
  lemma {:induction false} GateCorrect(op: Op, a: Wire, b: Wire, r: Label, tweak: nat, enc: Label -> Label, va: bool, vb: bool)
    requires op != Unsupported
    requires FreeXor(a, r) && FreeXor(b, r) && r.PermutationBit()
    ensures var g := GarbleOp(op, a, b, r, tweak, enc);
            && FreeXor(g.out, r)
            && EvaluateOp(op, a.Select(va), b.Select(vb), g.rows, tweak, enc)
               == g.out.Select(PlainOp(op, va, vb))
  {
    hide Hash, GarbleAnd, EvaluateAnd, GarbleInv, EvaluateInv, XorWire, XnorWire, FreeXor, Uint32;
    match op {
      case XOR => XorGateCorrect(a, b, r, va, vb);
      case XNOR => XorGateCorrect(a, b, r, va, vb);
      case AND => AndGateCorrect(a, b, HashWire(enc, a, tweak), HashWire(enc, b, Uint32(tweak + 1)), r, va, vb);
      case INV => InvGateCorrect(a, HashWire(enc, a, tweak), r, va);
    }
  }
}
