/**
 The half-gates garbler and evaluator as loops over an execution plan (mpc/circuit.go).
 */
module Circuit {
  import opened Words
  import opened Labels
  import opened Results
  import opened Plan
  import opened Gates

  datatype Garbling = Garbling(wires: seq<Wire>, tables: seq<Label>, tweak: nat)

  datatype Evaluation = Evaluation(wires: seq<Label>, tweak: nat)

  function WriteRows(tables: seq<Label>, at: nat, rows: seq<Label>): (t: seq<Label>)
    requires rows != [] ==> at + |rows| <= |tables|
    ensures |t| == |tables|
  {
    if rows == [] then tables else tables[..at] + rows + tables[at + |rows|..]
  }

  /** The rows gate `g` reads back. */
  function ReadRows(tables: seq<Label>, g: Gate): (rows: seq<Label>)
    requires Slots(g.op) > 0 ==> g.table + Slots(g.op) <= |tables|
    ensures |rows| == Slots(g.op)
  {
    if Slots(g.op) == 0 then [] else tables[g.table..g.table + Slots(g.op)]
  }

  predicate GateFits(g: Gate, numWires: nat, tableCount: nat) {
    && g.op != Unsupported
    && g.in0 < numWires && Second(g) < numWires && g.out < numWires
    && (Slots(g.op) > 0 ==> g.table + Slots(g.op) <= tableCount)
  }

  function GarbleStep(s: Garbling, g: Gate, r: Label, enc: Label -> Label): (t: Garbling)
    requires GateFits(g, |s.wires|, |s.tables|)
    ensures |t.wires| == |s.wires| && |t.tables| == |s.tables|
  {
    var o := GarbleOp(g.op, s.wires[g.in0], s.wires[Second(g)], r, s.tweak, enc);
    Garbling(s.wires[g.out := o.out], WriteRows(s.tables, g.table, o.rows), NextTweak(g.op, s.tweak))
  }

  function EvaluateStep(s: Evaluation, g: Gate, tables: seq<Label>, enc: Label -> Label): (t: Evaluation)
    requires GateFits(g, |s.wires|, |tables|)
    ensures |t.wires| == |s.wires|
  {
    var o := EvaluateOp(g.op, s.wires[g.in0], s.wires[Second(g)], ReadRows(tables, g), s.tweak, enc);
    Evaluation(s.wires[g.out := o], NextTweak(g.op, s.tweak))
  }

  function PlainStep(v: seq<bool>, g: Gate): (u: seq<bool>)
    requires GateFits(g, |v|, g.table + Slots(g.op))
    ensures |u| == |v|
  {
    v[g.out := PlainOp(g.op, v[g.in0], v[Second(g)])]
  }

  predicate Fits(gates: seq<Gate>, numWires: nat, tableCount: nat) {
    forall i :: 0 <= i < |gates| ==> GateFits(gates[i], numWires, tableCount)
  }

  function GarbleRun(gates: seq<Gate>, s: Garbling, r: Label, enc: Label -> Label, n: nat): (t: Garbling)
    requires n <= |gates| && Fits(gates, |s.wires|, |s.tables|)
    ensures |t.wires| == |s.wires| && |t.tables| == |s.tables|
    decreases n
  {
    if n == 0 then s else GarbleStep(GarbleRun(gates, s, r, enc, n - 1), gates[n - 1], r, enc)
  }

  function EvaluateRun(gates: seq<Gate>, s: Evaluation, tables: seq<Label>, enc: Label -> Label, n: nat): (t: Evaluation)
    requires n <= |gates| && Fits(gates, |s.wires|, |tables|)
    ensures |t.wires| == |s.wires|
    decreases n
  {
    if n == 0 then s else EvaluateStep(EvaluateRun(gates, s, tables, enc, n - 1), gates[n - 1], tables, enc)
  }

  /** The circuit itself, on plain bits. */
  function PlainRun(gates: seq<Gate>, bits: seq<bool>, tableCount: nat, n: nat): (v: seq<bool>)
    requires n <= |gates| && Fits(gates, |bits|, tableCount)
    ensures |v| == |bits|
    decreases n
  {
    if n == 0 then bits else PlainStep(PlainRun(gates, bits, tableCount, n - 1), gates[n - 1])
  }

  lemma {:induction false} OffsetMonotone(gates: seq<Gate>, i: nat, j: nat)
    requires i <= j <= |gates|
    ensures Offset(gates, i) <= Offset(gates, j)
    decreases j
  {
    if i < j { OffsetMonotone(gates, i, j - 1); }
  }

  lemma {:induction false} RunnableFits(e: Engine)
    requires Runnable(e)
    ensures Fits(e.gates, e.numWires, e.tableCount)
  {
    forall i | 0 <= i < |e.gates|
      ensures GateFits(e.gates[i], e.numWires, e.tableCount)
    {
      OffsetMonotone(e.gates, i + 1, |e.gates|);
    }
  }

  lemma {:induction false} WriteKeepsPrefix(tables: seq<Label>, at: nat, rows: seq<Label>, k: nat)
    requires rows != [] ==> k <= at && at + |rows| <= |tables|
    requires k <= |tables|
    ensures WriteRows(tables, at, rows)[..k] == tables[..k]
  {}

  /** What `WriteRows` put down is what `ReadRows` finds. */
  lemma {:induction false} RowsReadBack(tables: seq<Label>, g: Gate, rows: seq<Label>)
    requires |rows| == Slots(g.op)
    requires rows != [] ==> g.table + |rows| <= |tables|
    ensures ReadRows(WriteRows(tables, g.table, rows), g) == rows
  {}

  /** A plan with the buffers it runs on. */
  ghost predicate Ready(e: Engine, s: Garbling) {
    Runnable(e) && Fits(e.gates, e.numWires, e.tableCount) && |s.wires| == e.numWires && |s.tables| == e.tableCount
  }

  lemma {:induction false} OneGateKeepsSlots(e: Engine, s: Garbling, r: Label, enc: Label -> Label, i: nat, n: nat)
    requires Ready(e, s) && i <= n < |e.gates|
    ensures Offset(e.gates, i) <= e.tableCount
    ensures GarbleStep(s, e.gates[n], r, enc).tables[..Offset(e.gates, i)] == s.tables[..Offset(e.gates, i)]
  {
    hide GarbleOp;
    OffsetMonotone(e.gates, i, n);
    OffsetMonotone(e.gates, n, |e.gates|);
    var g := e.gates[n];
    var o := GarbleOp(g.op, s.wires[g.in0], s.wires[Second(g)], r, s.tweak, enc);
    WriteKeepsPrefix(s.tables, g.table, o.rows, Offset(e.gates, i));
  }

  /** No later gate touches the table slots of the first `i` gates. */
  lemma {:induction false} SlotsKept(e: Engine, s: Garbling, r: Label, enc: Label -> Label, i: nat, n: nat)
    requires Ready(e, s) && i <= n <= |e.gates|
    ensures Offset(e.gates, i) <= e.tableCount
    ensures GarbleRun(e.gates, s, r, enc, n).tables[..Offset(e.gates, i)]
            == GarbleRun(e.gates, s, r, enc, i).tables[..Offset(e.gates, i)]
    decreases n
  {
    hide GarbleStep, Runnable, Offset;
    if i < n {
      SlotsKept(e, s, r, enc, i, n - 1);
      OneGateKeepsSlots(e, GarbleRun(e.gates, s, r, enc, n - 1), r, enc, i, n - 1);
    } else {
      OffsetBound(e, i);
    }
  }

  lemma {:induction false} OffsetBound(e: Engine, i: nat)
    requires Runnable(e) && i <= |e.gates|
    ensures Offset(e.gates, i) <= e.tableCount
    ensures i > 0 && Slots(e.gates[i - 1].op) > 0 ==>
              e.gates[i - 1].table + Slots(e.gates[i - 1].op) == Offset(e.gates, i)
  {
    OffsetMonotone(e.gates, i, |e.gates|);
  }

  /** The final tables hold the rows of gate `i`. */
  lemma {:induction false} RowsFound(e: Engine, s: Garbling, r: Label, enc: Label -> Label, i: nat)
    requires Ready(e, s) && i < |e.gates|
    ensures var g := GarbleRun(e.gates, s, r, enc, i);
            var gate := e.gates[i];
            ReadRows(GarbleRun(e.gates, s, r, enc, |e.gates|).tables, gate)
            == GarbleOp(gate.op, g.wires[gate.in0], g.wires[Second(gate)], r, g.tweak, enc).rows
  {
    hide GarbleOp, GarbleRun, ReadRows, WriteRows, Runnable, Offset;
    var g := GarbleRun(e.gates, s, r, enc, i);
    var u := GarbleRun(e.gates, s, r, enc, i + 1);
    var t := GarbleRun(e.gates, s, r, enc, |e.gates|);
    GarbleRunStep(e.gates, s, r, enc, i);
    SlotsKept(e, s, r, enc, i + 1, |e.gates|);
    var gate := e.gates[i];
    OffsetBound(e, i + 1);
    RowsReadBack(g.tables, gate, GarbleOp(gate.op, g.wires[gate.in0], g.wires[Second(gate)], r, g.tweak, enc).rows);
    SamePrefixRows(t.tables, u.tables, gate, Offset(e.gates, i + 1));
  }

  lemma {:induction false} SamePrefixRows(t: seq<Label>, u: seq<Label>, g: Gate, end: nat)
    requires end <= |t| == |u| && t[..end] == u[..end]
    requires Slots(g.op) > 0 ==> g.table + Slots(g.op) <= end
    ensures ReadRows(t, g) == ReadRows(u, g)
  {
    if Slots(g.op) > 0 {
      assert ReadRows(t, g) == t[..end][g.table..g.table + Slots(g.op)];
      assert ReadRows(u, g) == u[..end][g.table..g.table + Slots(g.op)];
    }
  }

  lemma {:induction false} GarbleRunStep(gates: seq<Gate>, s: Garbling, r: Label, enc: Label -> Label, n: nat)
    requires n < |gates| && Fits(gates, |s.wires|, |s.tables|)
    ensures GarbleRun(gates, s, r, enc, n + 1) == GarbleStep(GarbleRun(gates, s, r, enc, n), gates[n], r, enc)
  {}

  /** On every driven wire the evaluator holds the label of the plain value. */
  ghost predicate Agree(gates: seq<Gate>, n: nat, wires: seq<Wire>, active: seq<Label>, bits: seq<bool>, r: Label)
    requires n <= |gates|
  {
    && |wires| == |active| == |bits|
    && forall w: nat :: w < |wires| && Driven(gates, n, w) ==>
         FreeXor(wires[w], r) && active[w] == wires[w].Select(bits[w])
  }

  lemma {:induction false} StepAgrees(e: Engine, n: nat, s: Garbling, v: Evaluation, bits: seq<bool>,
                                      r: Label, tables: seq<Label>, enc: Label -> Label)
    requires Ready(e, s) && n < |e.gates| && r.PermutationBit() && |tables| == e.tableCount
    requires Agree(e.gates, n, s.wires, v.wires, bits, r) && v.tweak == s.tweak
    requires var g := e.gates[n];
             ReadRows(tables, g) == GarbleOp(g.op, s.wires[g.in0], s.wires[Second(g)], r, s.tweak, enc).rows
    ensures EvaluateStep(v, e.gates[n], tables, enc).tweak == GarbleStep(s, e.gates[n], r, enc).tweak
    ensures Agree(e.gates, n + 1, GarbleStep(s, e.gates[n], r, enc).wires,
                  EvaluateStep(v, e.gates[n], tables, enc).wires, PlainStep(bits, e.gates[n]), r)
  {
    hide GarbleOp, EvaluateOp, PlainOp, FreeXor, ReadRows, WriteRows, Runnable, Driven, Offset, Fits;
    var g := e.gates[n];
    GateInputs(e, n);
    FitsAt(e.gates, e.numWires, e.tableCount, n);
    GateCorrect(g.op, s.wires[g.in0], s.wires[Second(g)], r, s.tweak, enc, bits[g.in0], bits[Second(g)]);
    var wires := GarbleStep(s, g, r, enc).wires;
    forall w: nat | w < |wires| && Driven(e.gates, n + 1, w) && w != g.out
      ensures Driven(e.gates, n, w)
    {
      DrivenBefore(e.gates, n, w);
    }
  }

  lemma {:induction false} GateInputs(e: Engine, n: nat)
    requires Runnable(e) && n < |e.gates|
    ensures var g := e.gates[n];
            && g.op != Unsupported && g.in0 < e.numWires && Second(g) < e.numWires
            && Driven(e.gates, n, g.in0) && Driven(e.gates, n, Second(g))
  {
    hide Driven, Offset;
  }

  lemma {:induction false} DrivenBefore(gates: seq<Gate>, n: nat, w: nat)
    requires n < |gates| && Driven(gates, n + 1, w) && w != gates[n].out
    ensures Driven(gates, n, w)
  {}

  lemma {:induction false} RunAgrees(e: Engine, s: Garbling, r: Label, enc: Label -> Label,
                                     active: seq<Label>, bits: seq<bool>, n: nat)
    requires Ready(e, s) && n <= |e.gates| && r.PermutationBit()
    requires |active| == |bits| == e.numWires
    requires Agree(e.gates, 0, s.wires, active, bits, r)
    ensures var g := GarbleRun(e.gates, s, r, enc, n);
            var t := GarbleRun(e.gates, s, r, enc, |e.gates|).tables;
            var v := EvaluateRun(e.gates, Evaluation(active, s.tweak), t, enc, n);
            && v.tweak == g.tweak
            && Agree(e.gates, n, g.wires, v.wires, PlainRun(e.gates, bits, e.tableCount, n), r)
    decreases n
  {
    hide GarbleStep, EvaluateStep, PlainStep, GarbleOp, Agree, ReadRows, Runnable;
    if n > 0 {
      RunAgrees(e, s, r, enc, active, bits, n - 1);
      RowsFound(e, s, r, enc, n - 1);
      var t := GarbleRun(e.gates, s, r, enc, |e.gates|).tables;
      StepAgrees(e, n - 1, GarbleRun(e.gates, s, r, enc, n - 1),
                 EvaluateRun(e.gates, Evaluation(active, s.tweak), t, enc, n - 1),
                 PlainRun(e.gates, bits, e.tableCount, n - 1), r, t, enc);
    }
  }

  // The two loops

  const RANDOM_SIZE: nat := 16 + 2 * INPUT_BITS * 16

  const NO_WIRE := Wire(NONE, NONE)

  /** The global offset: random, with its permutation bit forced on. */
  function GlobalOffset(random: seq<Byte>): (r: Label)
    requires |random| == RANDOM_SIZE
    ensures r.PermutationBit()
  {
    FromBytes(random[..16]).WithPermutationBit(true)
  }

  function InputWire(random: seq<Byte>, i: nat): Wire
    requires |random| == RANDOM_SIZE && i < 2 * INPUT_BITS
  {
    var l0 := FromBytes(random[16 + 16 * i..32 + 16 * i]);
    Wire(l0, l0.Xor(GlobalOffset(random)))
  }

  /** Fresh input labels on cleared scratch buffers. */
  function Prepared(e: Engine, random: seq<Byte>): (s: Garbling)
    requires |random| == RANDOM_SIZE
    ensures |s.wires| == e.numWires && |s.tables| == e.tableCount && s.tweak == 0
  {
    Garbling(seq(e.numWires, i requires 0 <= i => if i < 2 * INPUT_BITS then InputWire(random, i) else NO_WIRE),
             seq(e.tableCount, _ => NONE), 0)
  }

  /** What garbling the whole plan leaves behind. */
  function Garbled(e: Engine, random: seq<Byte>, enc: Label -> Label): (g: Garbling)
    requires |random| == RANDOM_SIZE && Fits(e.gates, e.numWires, e.tableCount)
    ensures |g.wires| == e.numWires && |g.tables| == e.tableCount
  {
    GarbleRun(e.gates, Prepared(e, random), GlobalOffset(random), enc, |e.gates|)
  }

  /** The source reads its randomness from `rng`; a short read is an error. */
  method Garble(e: Engine, rng: seq<Byte>, enc: Label -> Label) returns (res: Result<Garbling>)
    requires Runnable(e)
    ensures Fits(e.gates, e.numWires, e.tableCount)
    ensures res.Ok? <==> |rng| >= RANDOM_SIZE
    ensures res.Ok? ==> res.value == Garbled(e, rng[..RANDOM_SIZE], enc)
  {
    hide Runnable, FromBytes, Label.Xor, Label.WithPermutationBit, GarbleStep, GarbleRun, Fits, InputWire, Prepared;
    RunnableFits(e);
    RunnableInputs(e);
    if |rng| < RANDOM_SIZE {
      return Err;
    }
    var random := rng[..RANDOM_SIZE];
    var r := FromBytes(random[..16]).WithPermutationBit(true);
    var wires := new Wire[e.numWires](_ => NO_WIRE);
    var tables := new Label[e.tableCount](_ => NONE);
    for i := 0 to 2 * INPUT_BITS
      invariant forall k :: 0 <= k < i ==> wires[k] == InputWire(random, k)
      invariant forall k :: i <= k < e.numWires ==> wires[k] == NO_WIRE
      invariant forall k :: 0 <= k < e.tableCount ==> tables[k] == NONE
    {
      InputWireIs(random, i);
      var l0 := FromBytes(random[16 + 16 * i..32 + 16 * i]);
      wires[i] := Wire(l0, l0.Xor(r));
    }
    ghost var start := Prepared(e, random);
    PreparedIs(e, random, wires[..], tables[..]);
    var tweak := 0;
    GarbleRunStart(e.gates, start, r, enc);
    for i := 0 to |e.gates|
      invariant Garbling(wires[..], tables[..], tweak) == GarbleRun(e.gates, start, r, enc, i)
    {
      FitsAt(e.gates, e.numWires, e.tableCount, i);
      GarbleRunStep(e.gates, start, r, enc, i);
      tweak := GarbleOne(e.gates[i], wires, tables, r, tweak, enc);
    }
    res := Ok(Garbling(wires[..], tables[..], tweak));
  }

  lemma {:induction false} InputWireIs(random: seq<Byte>, i: nat)
    requires |random| == RANDOM_SIZE && i < 2 * INPUT_BITS
    ensures InputWire(random, i).l0 == FromBytes(random[16 + 16 * i..32 + 16 * i])
    ensures InputWire(random, i).l1 == InputWire(random, i).l0.Xor(GlobalOffset(random))
  {}

  lemma {:induction false} PreparedIs(e: Engine, random: seq<Byte>, wires: seq<Wire>, tables: seq<Label>)
    requires |random| == RANDOM_SIZE && |wires| == e.numWires && |tables| == e.tableCount
    requires 2 * INPUT_BITS <= e.numWires
    requires forall k :: 0 <= k < 2 * INPUT_BITS ==> wires[k] == InputWire(random, k)
    requires forall k :: 2 * INPUT_BITS <= k < e.numWires ==> wires[k] == NO_WIRE
    requires forall k :: 0 <= k < e.tableCount ==> tables[k] == NONE
    ensures Garbling(wires, tables, 0) == Prepared(e, random)
  {
    hide InputWire;
    assert wires == Prepared(e, random).wires;
    assert tables == Prepared(e, random).tables;
  }

  lemma {:induction false} GarbleRunStart(gates: seq<Gate>, s: Garbling, r: Label, enc: Label -> Label)
    requires Fits(gates, |s.wires|, |s.tables|)
    ensures GarbleRun(gates, s, r, enc, 0) == s
  {}

  lemma {:induction false} FitsAt(gates: seq<Gate>, numWires: nat, tableCount: nat, i: nat)
    requires Fits(gates, numWires, tableCount) && i < |gates|
    ensures GateFits(gates[i], numWires, tableCount)
  {}

  lemma {:induction false} RunnableInputs(e: Engine)
    requires Runnable(e)
    ensures 2 * INPUT_BITS <= e.numWires && OUTPUT_BITS <= e.numWires
  {}

  /** The arithmetic of one AND gate, step by step. */
  method HalfGates(a: Wire, b: Wire, ha: Wire, hb: Wire, r: Label) returns (g: AndRows)
    ensures g == GarbleAnd(a, b, ha, hb, r)
  {
    hide Label.Xor;
    var pa, pb := a.l0.PermutationBit(), b.l0.PermutationBit();
    var tg := ha.l0.Xor(ha.l1);
    XorNone(tg);
    if pb { tg := tg.Xor(r); }
    var wg0 := ha.l0;
    if pa { wg0 := wg0.Xor(tg); }
    var te := hb.l0.Xor(hb.l1).Xor(a.l0);
    var we0 := hb.l0;
    if pb { we0 := we0.Xor(te).Xor(a.l0); }
    XorNone(ha.l0);
    XorNone(hb.l0);
    XorAssoc(hb.l0, te, a.l0);
    var l0 := wg0.Xor(we0);
    g := AndRows(Wire(l0, l0.Xor(r)), tg, te);
  }

  /** The arithmetic of one inverter, with both of its table rows. */
  method RowReducedInv(a: Wire, h0: Label, h1: Label, r: Label) returns (g: InvRow)
    ensures g == GarbleInv(a, Wire(h0, h1), r)
  {
    hide Label.Xor;
    var p0 := a.l0.PermutationBit();
    var table0, table1 := h0, h1;
    if p0 { table1, table0 := h0, h1; }
    var l0, l1 := table0, table0;
    if p0 { l1 := l1.Xor(r); } else { l0 := l0.Xor(r); }
    if p0 {
      table0, table1 := table0.Xor(l0), table1.Xor(l1);
    } else {
      table0, table1 := table0.Xor(l1), table1.Xor(l0);
    }
    g := InvRow(Wire(l0, l1), table1);
  }

  /** One iteration of the garbling loop. */
  method GarbleOne(g: Gate, wires: array<Wire>, tables: array<Label>, r: Label, tweak: nat, enc: Label -> Label)
    returns (next: nat)
    requires GateFits(g, wires.Length, tables.Length)
    modifies wires, tables
    ensures Garbling(wires[..], tables[..], next) == GarbleStep(old(Garbling(wires[..], tables[..], tweak)), g, r, enc)
  {
    hide Label.Xor, Hash, Uint32, GarbleAnd, GarbleInv;
    next := tweak;
    var a := wires[g.in0];
    match g.op {
      case XOR =>
        var l0 := a.l0.Xor(wires[g.in1].l0);
        wires[g.out] := Wire(l0, l0.Xor(r));
      case XNOR =>
        var l0 := a.l0.Xor(wires[g.in1].l0);
        wires[g.out] := Wire(l0.Xor(r), l0);
      case AND =>
        var b := wires[g.in1];
        var ha := Wire(Hash(enc, a.l0, tweak), Hash(enc, a.l1, tweak));
        var hb := Wire(Hash(enc, b.l0, Uint32(tweak + 1)), Hash(enc, b.l1, Uint32(tweak + 1)));
        next := Uint32(tweak + 2);
        var rows := HalfGates(a, b, ha, hb, r);
        wires[g.out] := rows.out;
        tables[g.table], tables[g.table + 1] := rows.tg, rows.te;
        assert tables[..] == WriteRows(old(tables[..]), g.table, [rows.tg, rows.te]);
      case INV =>
        var row := RowReducedInv(a, Hash(enc, a.l0, tweak), Hash(enc, a.l1, tweak), r);
        next := Uint32(tweak + 1);
        wires[g.out] := row.out;
        tables[g.table] := row.row;
        assert tables[..] == WriteRows(old(tables[..]), g.table, [row.row]);
    }
  }

  /** Evaluation on the active labels, in place; both length checks are the source's errors. */
  method Evaluate(e: Engine, wires: array<Label>, tables: seq<Label>, enc: Label -> Label) returns (ok: bool)
    requires Runnable(e)
    modifies wires
    ensures Fits(e.gates, e.numWires, e.tableCount)
    ensures ok <==> wires.Length == e.numWires && |tables| == e.tableCount
    ensures !ok ==> wires[..] == old(wires[..])
    ensures ok ==> wires[..] == EvaluateRun(e.gates, Evaluation(old(wires[..]), 0), tables, enc, |e.gates|).wires
  {
    hide Runnable, Label.Xor, EvaluateOp, EvaluateRun, Fits, EvaluateStep;
    RunnableFits(e);
    if wires.Length != e.numWires || |tables| != e.tableCount {
      return false;
    }
    ghost var start := Evaluation(wires[..], 0);
    var tweak := 0;
    EvaluateRunStart(e.gates, start, tables, enc);
    for i := 0 to |e.gates|
      invariant Evaluation(wires[..], tweak) == EvaluateRun(e.gates, start, tables, enc, i)
    {
      FitsAt(e.gates, e.numWires, e.tableCount, i);
      EvaluateRunStep(e.gates, start, tables, enc, i);
      tweak := EvaluateOne(e.gates[i], wires, tables, tweak, enc);
    }
    ok := true;
  }

  lemma {:induction false} EvaluateRunStart(gates: seq<Gate>, s: Evaluation, tables: seq<Label>, enc: Label -> Label)
    requires Fits(gates, |s.wires|, |tables|)
    ensures EvaluateRun(gates, s, tables, enc, 0) == s
  {}

  lemma {:induction false} EvaluateRunStep(gates: seq<Gate>, s: Evaluation, tables: seq<Label>, enc: Label -> Label, n: nat)
    requires n < |gates| && Fits(gates, |s.wires|, |tables|)
    ensures EvaluateRun(gates, s, tables, enc, n + 1)
            == EvaluateStep(EvaluateRun(gates, s, tables, enc, n), gates[n], tables, enc)
  {}

  /** One iteration of the evaluation loop. */
  method EvaluateOne(g: Gate, wires: array<Label>, tables: seq<Label>, tweak: nat, enc: Label -> Label)
    returns (next: nat)
    requires GateFits(g, wires.Length, |tables|)
    modifies wires
    ensures Evaluation(wires[..], next) == EvaluateStep(old(Evaluation(wires[..], tweak)), g, tables, enc)
  {
    hide Label.Xor, Hash, Uint32;
    next := tweak;
    var a := wires[g.in0];
    match g.op {
      case XOR => wires[g.out] := a.Xor(wires[g.in1]);
      case XNOR => wires[g.out] := a.Xor(wires[g.in1]);
      case AND =>
        var b := wires[g.in1];
        var wg, we := Hash(enc, a, tweak), Hash(enc, b, Uint32(tweak + 1));
        next := Uint32(tweak + 2);
        XorNone(wg);
        XorNone(we);
        XorAssoc(we, tables[g.table + 1], a);
        if a.PermutationBit() { wg := wg.Xor(tables[g.table]); }
        if b.PermutationBit() { we := we.Xor(tables[g.table + 1]).Xor(a); }
        wires[g.out] := wg.Xor(we);
      case INV =>
        var row := NONE;
        if a.PermutationBit() { row := tables[g.table]; }
        wires[g.out] := Hash(enc, a, tweak).Xor(row);
        next := Uint32(tweak + 1);
    }
  }

  // The theorem

  /** The plain circuit on one bit per input wire; the other wires start false. */
  function PlainOutputs(e: Engine, inputs: seq<bool>): (out: seq<bool>)
    requires |inputs| == 2 * INPUT_BITS <= e.numWires && OUTPUT_BITS <= e.numWires
    requires Fits(e.gates, e.numWires, e.tableCount)
    ensures |out| == OUTPUT_BITS
  {
    PlainRun(e.gates, inputs + Fill(e.numWires - |inputs|, false), e.tableCount, |e.gates|)[e.numWires - OUTPUT_BITS..]
  }

  /**
   Garble any runnable plan with any randomness and any hash, hand the evaluator the
   label of each input bit, and it ends up with the label of each plain output bit.
   Every driven wire keeps the free-XOR relation; scratch labels on the other wires do
   not matter.
   */
  lemma {:induction false} GarbledCircuitCorrect(e: Engine, random: seq<Byte>, enc: Label -> Label,
                                                 inputs: seq<bool>, active: seq<Label>)
    requires Runnable(e) && Fits(e.gates, e.numWires, e.tableCount)
    requires |random| == RANDOM_SIZE && |inputs| == 2 * INPUT_BITS && |active| == e.numWires
    requires forall i :: 0 <= i < 2 * INPUT_BITS ==> active[i] == InputWire(random, i).Select(inputs[i])
    ensures var g := Garbled(e, random, enc);
            var v := EvaluateRun(e.gates, Evaluation(active, 0), g.tables, enc, |e.gates|).wires;
            var first := e.numWires - OUTPUT_BITS;
            && (forall w: nat :: w < e.numWires && Driven(e.gates, |e.gates|, w) ==>
                  FreeXor(g.wires[w], GlobalOffset(random)))
            && (forall i :: 0 <= i < OUTPUT_BITS ==>
                  FreeXor(g.wires[first + i], GlobalOffset(random))
                  && v[first + i] == g.wires[first + i].Select(PlainOutputs(e, inputs)[i]))
  {
    hide GarbleRun, EvaluateRun, PlainRun, InputWire, FreeXor, Runnable, Fits, Driven, Prepared;
    RunnableInputs(e);
    var bits := inputs + Fill(e.numWires - |inputs|, false);
    StartAgrees(e, random, inputs, active);
    RunAgrees(e, Prepared(e, random), GlobalOffset(random), enc, active, bits, |e.gates|);
    forall w: nat | e.numWires - OUTPUT_BITS <= w < e.numWires
      ensures Driven(e.gates, |e.gates|, w)
    {
      OutputDriven(e, w);
    }
  }

  lemma {:induction false} OutputDriven(e: Engine, w: nat)
    requires Runnable(e) && e.numWires - OUTPUT_BITS <= w < e.numWires
    ensures Driven(e.gates, |e.gates|, w)
  {}

  lemma {:induction false} StartAgrees(e: Engine, random: seq<Byte>, inputs: seq<bool>, active: seq<Label>)
    requires |random| == RANDOM_SIZE && |inputs| == 2 * INPUT_BITS <= |active| == e.numWires
    requires forall i :: 0 <= i < 2 * INPUT_BITS ==> active[i] == InputWire(random, i).Select(inputs[i])
    ensures Agree(e.gates, 0, Prepared(e, random).wires, active, inputs + Fill(e.numWires - |inputs|, false),
                  GlobalOffset(random))
  {
    hide InputWire, FreeXor;
    forall w: nat | w < 2 * INPUT_BITS
      ensures FreeXor(InputWire(random, w), GlobalOffset(random))
    {
      InputWireFreeXor(random, w);
    }
  }

  lemma {:induction false} InputWireFreeXor(random: seq<Byte>, i: nat)
    requires |random| == RANDOM_SIZE && i < 2 * INPUT_BITS
    ensures FreeXor(InputWire(random, i), GlobalOffset(random))
  {}
}
