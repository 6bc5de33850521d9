/** The execution plan that `newEngine` lays out for a compiled circuit (mpc/circuit.go). */
module Plan {
  import opened Results

  const INPUT_BITS: nat := 640
  const OUTPUT_BITS: nat := 128

  /** Any other operation of the circuit compiler is `Unsupported`. */
  datatype Op = XOR | XNOR | AND | INV | Unsupported

  datatype CompiledGate = CompiledGate(op: Op, input0: nat, input1: nat, output: nat)

  datatype Compiled = Compiled(parties: nat, inputs: nat, outputs: nat, numWires: nat, gates: seq<CompiledGate>)

  datatype Gate = Gate(op: Op, in0: nat, in1: nat, out: nat, table: nat)

  datatype Engine = Engine(gates: seq<Gate>, numWires: nat, tableCount: nat)

  /** The conversion `uint32(n)`. */
  function Uint32(n: nat): nat {
    n % 0x1_0000_0000
  }

  lemma {:induction false} Uint32Small(n: nat)
    requires n < 0x1_0000_0000
    ensures Uint32(n) == n
  {}

  // The execution plan

  function Slots(op: Op): nat {
    match op
    case AND => 2
    case INV => 1
    case _ => 0
  }

  /** How many table entries the first `n` gates take. */
  function TableOffset(gates: seq<CompiledGate>, n: nat): nat
    requires n <= |gates|
  {
    if n == 0 then 0 else TableOffset(gates, n - 1) + Slots(gates[n - 1].op)
  }

  predicate ExpectedShape(c: Compiled) {
    c.parties == 2 && c.inputs == 2 * INPUT_BITS && c.outputs == OUTPUT_BITS
  }

  predicate Supported(c: Compiled) {
    forall i :: 0 <= i < |c.gates| ==> c.gates[i].op != Unsupported
  }

  /** What the plan keeps of compiled gate `i`; wire and table numbers are 32-bit. */
  function Planned(gates: seq<CompiledGate>, i: nat): Gate
    requires i < |gates|
  {
    var src := gates[i];
    Gate(src.op, Uint32(src.input0), Uint32(src.input1), Uint32(src.output),
         if Slots(src.op) == 0 then 0 else Uint32(TableOffset(gates, i)))
  }

  lemma {:induction false} PlanStart(gates: seq<CompiledGate>)
    ensures TableOffset(gates, 0) == 0
  {}

  lemma {:induction false} PlanStep(gates: seq<CompiledGate>, i: nat)
    requires i < |gates|
    ensures TableOffset(gates, i + 1) == TableOffset(gates, i) + Slots(gates[i].op)
    ensures Planned(gates, i) ==
            Gate(gates[i].op, Uint32(gates[i].input0), Uint32(gates[i].input1), Uint32(gates[i].output),
                 if Slots(gates[i].op) == 0 then 0 else Uint32(TableOffset(gates, i)))
  {}

  /** The plan copies every gate and gives each its own table offset. */
  ghost predicate PlanOf(e: Engine, c: Compiled) {
    && e.numWires == c.numWires && |e.gates| == |c.gates|
    && e.tableCount == TableOffset(c.gates, |c.gates|)
    && forall i :: 0 <= i < |c.gates| ==> e.gates[i] == Planned(c.gates, i)
  }

  method NewEngine(compiled: Option<Compiled>) returns (r: Result<Engine>)
    ensures r.Ok? <==> compiled.Some? && ExpectedShape(compiled.value) && Supported(compiled.value)
    ensures r.Ok? ==> PlanOf(r.value, compiled.value)
  {
    hide Uint32, TableOffset, Planned;
    if compiled.None? {
      return Err;
    }
    var c := compiled.value;
    if c.parties != 2 || c.inputs != 2 * INPUT_BITS || c.outputs != OUTPUT_BITS {
      return Err;
    }
    var gates: seq<Gate> := [];
    var tableCount := 0;
    PlanStart(c.gates);
    for i := 0 to |c.gates|
      invariant |gates| == i
      invariant tableCount == TableOffset(c.gates, i)
      invariant forall k :: 0 <= k < i ==> c.gates[k].op != Unsupported && gates[k] == Planned(c.gates, k)
    {
      PlanStep(c.gates, i);
      var src := c.gates[i];
      var dst := Gate(src.op, Uint32(src.input0), Uint32(src.input1), Uint32(src.output), 0);
      if src.op == Unsupported {
        return Err;
      }
      if src.op == AND {
        dst := dst.(table := Uint32(tableCount));
        tableCount := tableCount + 2;
      } else if src.op == INV {
        dst := dst.(table := Uint32(tableCount));
        tableCount := tableCount + 1;
      }
      gates := gates + [dst];
    }
    r := Ok(Engine(gates, c.numWires, tableCount));
  }

  /** Wire `w` is an input or the output of one of the first `n` gates. */
  ghost predicate Driven(gates: seq<Gate>, n: nat, w: nat)
    requires n <= |gates|
  {
    w < 2 * INPUT_BITS || exists j :: 0 <= j < n && gates[j].out == w
  }

  /** The second wire a gate reads; an inverter reads only its first. */
  function Second(g: Gate): nat {
    if g.op == INV then g.in0 else g.in1
  }

  /** Entries used by the first `n` gates of a plan. */
  function Offset(gates: seq<Gate>, n: nat): nat
    requires n <= |gates|
  {
    if n == 0 then 0 else Offset(gates, n - 1) + Slots(gates[n - 1].op)
  }

  ghost predicate GateRuns(e: Engine, i: nat)
    requires i < |e.gates|
  {
    var g := e.gates[i];
    && g.op != Unsupported
    && g.in0 < e.numWires && Second(g) < e.numWires && 2 * INPUT_BITS <= g.out < e.numWires
    && Driven(e.gates, i, g.in0) && Driven(e.gates, i, Second(g))
    && (Slots(g.op) > 0 ==> g.table == Offset(e.gates, i))
  }

  /**
   A plan that can be executed: wire numbers in range, inputs not overwritten, every wire
   read only after it is driven, the output wires driven, and each gate's table at its own offset.
   */
  ghost predicate Runnable(e: Engine) {
    && 2 * INPUT_BITS <= e.numWires && OUTPUT_BITS <= e.numWires
    && e.tableCount == Offset(e.gates, |e.gates|)
    && (forall i {:trigger e.gates[i]} {:trigger GateRuns(e, i)} :: 0 <= i < |e.gates| ==> GateRuns(e, i))
    && (forall w: nat :: e.numWires - OUTPUT_BITS <= w < e.numWires ==> Driven(e.gates, |e.gates|, w))
  }

  // Compiled circuits that yield a runnable plan

  ghost predicate Drives(gates: seq<CompiledGate>, n: nat, w: nat)
    requires n <= |gates|
  {
    w < 2 * INPUT_BITS || exists j :: 0 <= j < n && gates[j].output == w
  }

  /**
   Compiled output in topological order whose wire and table numbers fit in 32 bits.
   This is a property of the compiler's circuit alone: it mentions no plan.
   */
  ghost predicate WellFormed(c: Compiled) {
    && ExpectedShape(c) && Supported(c)
    && 2 * INPUT_BITS <= c.numWires <= 0x1_0000_0000
    && TableOffset(c.gates, |c.gates|) <= 0x1_0000_0000
    && (forall i :: 0 <= i < |c.gates| ==>
          && c.gates[i].input0 < c.numWires && 2 * INPUT_BITS <= c.gates[i].output < c.numWires
          && Drives(c.gates, i, c.gates[i].input0)
          && (c.gates[i].op != INV ==>
                c.gates[i].input1 < c.numWires && Drives(c.gates, i, c.gates[i].input1)))
    && (forall w: nat :: c.numWires - OUTPUT_BITS <= w < c.numWires ==> Drives(c.gates, |c.gates|, w))
  }

  lemma {:induction false} TableOffsetMonotone(gates: seq<CompiledGate>, i: nat, j: nat)
    requires i <= j <= |gates|
    ensures TableOffset(gates, i) <= TableOffset(gates, j)
    decreases j
  {
    if i < j { TableOffsetMonotone(gates, i, j - 1); }
  }

  lemma {:induction false} SameOffset(e: Engine, c: Compiled, n: nat)
    requires PlanOf(e, c) && n <= |c.gates|
    ensures Offset(e.gates, n) == TableOffset(c.gates, n)
    decreases n
  {
    if n > 0 { SameOffset(e, c, n - 1); }
  }

  lemma {:induction false} SameDriven(e: Engine, c: Compiled, n: nat, w: nat)
    requires PlanOf(e, c) && WellFormed(c) && n <= |c.gates| && Drives(c.gates, n, w)
    ensures Driven(e.gates, n, w)
  {
    if w >= 2 * INPUT_BITS {
      var j :| 0 <= j < n && c.gates[j].output == w;
      assert e.gates[j].out == w;
    }
  }

  lemma {:induction false} PlannedGateRuns(e: Engine, c: Compiled, i: nat)
    requires PlanOf(e, c) && WellFormed(c) && i < |c.gates|
    ensures GateRuns(e, i)
    ensures Slots(e.gates[i].op) > 0 ==> e.gates[i].table == TableOffset(c.gates, i)
    ensures TableOffset(c.gates, i + 1) == TableOffset(c.gates, i) + Slots(e.gates[i].op)
  {
    hide Driven, Uint32, Offset;
    SameOffset(e, c, i);
    TableOffsetMonotone(c.gates, i + 1, |c.gates|);
    Uint32Small(c.gates[i].input0);
    Uint32Small(c.gates[i].output);
    if c.gates[i].op != INV { Uint32Small(c.gates[i].input1); }
    if Slots(c.gates[i].op) > 0 { Uint32Small(TableOffset(c.gates, i)); }
    SameDriven(e, c, i, c.gates[i].input0);
    if c.gates[i].op != INV { SameDriven(e, c, i, c.gates[i].input1); }
  }

  /** The plan of a well-formed circuit runs: no index wraps and no table slots overlap. */
  lemma {:induction false} PlanIsRunnable(e: Engine, c: Compiled)
    requires PlanOf(e, c) && WellFormed(c)
    ensures Runnable(e)
    ensures forall i, j :: 0 <= i < j < |e.gates| && Slots(e.gates[i].op) > 0 && Slots(e.gates[j].op) > 0 ==>
              e.gates[i].table + Slots(e.gates[i].op) <= e.gates[j].table
  {
    hide Driven, Planned, Offset, TableOffset, GateRuns, Slots;
    SameOffset(e, c, |c.gates|);
    forall i | 0 <= i < |e.gates|
      ensures GateRuns(e, i)
    {
      PlannedGateRuns(e, c, i);
    }
    forall w: nat | e.numWires - OUTPUT_BITS <= w < e.numWires
      ensures Driven(e.gates, |e.gates|, w)
    {
      SameDriven(e, c, |c.gates|, w);
    }
    forall i, j | 0 <= i < j < |e.gates| && Slots(e.gates[i].op) > 0 && Slots(e.gates[j].op) > 0
      ensures e.gates[i].table + Slots(e.gates[i].op) <= e.gates[j].table
    {
      PlannedGateRuns(e, c, i);
      PlannedGateRuns(e, c, j);
      TableOffsetMonotone(c.gates, i + 1, j);
    }
  }
}
