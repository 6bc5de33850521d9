/** What the four online messages achieve together, and that each session is single-use. */
module OnlineTheorems {
  import opened Words
  import opened Labels
  import opened Results
  import opened Packing
  import opened Plan
  import opened Gates
  import opened Circuit
  import opened Ots
  import opened Online

  /** The evaluator ends up with exactly the labels of its own bits. */
  lemma {:induction false} RecoveredLabels(wires: seq<Wire>, s: seq<SenderOT>, r: seq<ReceiverOT>, bits: seq<bool>)
    requires |wires| == |bits| == |s| && AllMatch(s, r)
    ensures Recovered(bits, r, Masks(wires, s, Corrections(bits, r))) == SelectLabels(wires, bits)
  {
    hide MaskFor, Label.Xor;
    var masks := Masks(wires, s, Corrections(bits, r));
    forall i | 0 <= i < |bits|
      ensures Recovered(bits, r, masks)[i] == wires[i].Select(bits[i])
    {
      MaskOpensChosenLabel(wires[i], s[i], r[i], bits[i]);
    }
  }

  lemma {:induction false} InputsKept(e: Engine, s: Garbling, r: Label, enc: Label -> Label, n: nat)
    requires Ready(e, s) && n <= |e.gates|
    ensures forall i :: 0 <= i < 2 * INPUT_BITS ==> GarbleRun(e.gates, s, r, enc, n).wires[i] == s.wires[i]
    decreases n
  {
    hide GarbleOp, WriteRows, Driven;
    if n > 0 {
      InputsKept(e, s, r, enc, n - 1);
      assert GateRuns(e, n - 1);
    }
  }

  /** After garbling, the input wires still carry the labels drawn for them. */
  lemma {:induction false} GarbledInputs(e: Engine, random: seq<Byte>, enc: Label -> Label)
    requires Runnable(e) && Shaped(e) && |random| == RANDOM_SIZE
    ensures forall i :: 0 <= i < 2 * INPUT_BITS ==> Garbled(e, random, enc).wires[i] == InputWire(random, i)
  {
    hide GarbleRun, InputWire, Driven;
    InputsKept(e, Prepared(e, random), GlobalOffset(random), enc, |e.gates|);
  }

  /** Two labels of one wire differ in their permutation bit, so each label names its bit. */
  lemma {:induction false} LabelNamesBit(w: Wire, r: Label, bit: bool)
    requires FreeXor(w, r) && r.PermutationBit()
    ensures (w.Select(bit) != w.l0) == bit
    ensures (w.Select(bit).PermutationBit() != w.l0.PermutationBit()) == bit
  {}

  ghost predicate Offsets(wires: seq<Wire>, r: Label) {
    r.PermutationBit() && forall i :: 0 <= i < |wires| ==> FreeXor(wires[i], r)
  }

  /** Both ways of reading output labels give the plain bits back. */
  lemma {:induction false} OutputsDecoded(wires: seq<Wire>, r: Label, bits: seq<bool>)
    requires Offsets(wires, r) && |wires| == |bits| == OUTPUT_BITS
    ensures ValidLabels(wires, SelectLabels(wires, bits))
    ensures LabelBits(wires, SelectLabels(wires, bits)) == bits
    ensures Decoloured(SelectLabels(wires, bits), Translations(wires)) == bits
  {
    hide FreeXor, BytesOf;
    forall i | 0 <= i < OUTPUT_BITS
      ensures LabelBits(wires, SelectLabels(wires, bits))[i] == bits[i]
      ensures Decoloured(SelectLabels(wires, bits), Translations(wires))[i] == bits[i]
    {
      LabelNamesBit(wires[i], r, bits[i]);
      assert BitsOf(Translations(wires))[i] == wires[i].l0.PermutationBit();
    }
  }

  /** Verification accepts exactly the labels of the bits it returns. */
  lemma {:induction false} VerifyAcceptsExactly(s: GarblerState, r: Label, labels: seq<Label>, out: seq<Byte>)
    requires s.corrected && !s.verified && |s.outputWires| == OUTPUT_BITS && Offsets(s.outputWires, r)
    ensures VerifyStep(s, labels).1 == Ok(out)
            <==> |out| == OUTPUT_BITS / 8 && labels == SelectLabels(s.outputWires, BitsOf(out))
  {
    hide FreeXor, BytesOf;
    if |out| == OUTPUT_BITS / 8 && labels == SelectLabels(s.outputWires, BitsOf(out)) {
      OutputsDecoded(s.outputWires, r, BitsOf(out));
      BitsInjective(out, BytesOf(BitsOf(out)));
    }
    if VerifyStep(s, labels).1 == Ok(out) {
      assert OneOf(s.outputWires[0], labels[0]);
      assert BitsOf(out) == LabelBits(s.outputWires, labels);
      assert labels == SelectLabels(s.outputWires, BitsOf(out));
    }
  }

  ghost predicate Honest(e: Engine, rng: seq<Byte>, sots: seq<SenderOT>, rots: seq<ReceiverOT>) {
    Runnable(e) && Shaped(e) && EnoughRandomness(rng) && |sots| == INPUT_BITS && AllMatch(sots, rots)
  }

  /** The plain circuit on the two parties' bytes. */
  function PlainResult(e: Engine, gi: Input, ei: Input): (bits: seq<bool>)
    requires Shaped(e)
    ensures |bits| == OUTPUT_BITS
  {
    hide Fits, PlainRun;
    PlainOutputs(e, BitsOf(gi) + BitsOf(ei))
  }

  /** The labels of both parties' input bits. */
  function InputLabels(e: Engine, wires: seq<Wire>, gi: Input, ei: Input): (active: seq<Label>)
    requires Shaped(e) && |wires| == e.numWires
    ensures |active| == e.numWires
  {
    hide Fits;
    ActiveLabels(e, SelectLabels(wires[..INPUT_BITS], BitsOf(gi)),
                 SelectLabels(wires[INPUT_BITS..2 * INPUT_BITS], BitsOf(ei)))
  }

  lemma {:induction false} InputLabelsAre(e: Engine, wires: seq<Wire>, gi: Input, ei: Input, i: nat)
    requires Shaped(e) && |wires| == e.numWires && i < 2 * INPUT_BITS
    ensures InputLabels(e, wires, gi, ei)[i]
            == wires[i].Select(if i < INPUT_BITS then BitsOf(gi)[i] else BitsOf(ei)[i - INPUT_BITS])
  {
    hide Fits, BitsOf;
    if i >= INPUT_BITS {
      assert wires[INPUT_BITS..2 * INPUT_BITS][i - INPUT_BITS] == wires[i];
    }
  }

  /** Evaluation of an honest garbling yields the labels of the plain output. */
  lemma {:induction false} HonestOutputs(e: Engine, enc: Label -> Label, random: seq<Byte>, gi: Input, ei: Input)
    requires Runnable(e) && Shaped(e) && |random| == RANDOM_SIZE
    ensures var g := Garbled(e, random, enc);
            && Offsets(LastWires(g.wires), GlobalOffset(random))
            && OutputLabels(e, InputLabels(e, g.wires, gi, ei), g.tables, enc)
               == SelectLabels(LastWires(g.wires), PlainResult(e, gi, ei))
  {
    hide Runnable, Fits, Garbled, EvaluateRun, FreeXor, PlainOutputs, InputWire, BitsOf, InputLabels;
    var wires := Garbled(e, random, enc).wires;
    var active := InputLabels(e, wires, gi, ei);
    var inputs := BitsOf(gi) + BitsOf(ei);
    GarbledInputs(e, random, enc);
    forall i | 0 <= i < 2 * INPUT_BITS
      ensures active[i] == InputWire(random, i).Select(inputs[i])
    {
      InputLabelsAre(e, wires, gi, ei, i);
    }
    GarbledCircuitCorrect(e, random, enc, inputs, active);
    forall i | 0 <= i < OUTPUT_BITS
      ensures FreeXor(LastWires(wires)[i], GlobalOffset(random))
    {
      assert LastWires(wires)[i] == wires[e.numWires - OUTPUT_BITS + i];
      assert PlainResult(e, gi, ei)[i] == PlainOutputs(e, inputs)[i];
    }
  }

  /** The four messages in order; yields the evaluator's output and the garbler's. */
  function OnlineRun(e: Engine, aes: Key -> (Label -> Label), rng: seq<Byte>, gi: Input, ei: Input,
                     sots: seq<SenderOT>, rots: seq<ReceiverOT>, start: Index): Result<(seq<Byte>, seq<Byte>)>
    requires Shaped(e) && EnoughRandomness(rng) && |rots| == INPUT_BITS
  {
    hide Fits, SentPayload, NewGarbler, CorrectStep, EvaluateSession, VerifyStep;
    var payload := SentPayload(e, aes, rng, gi, start);
    var (garbler, masks) := CorrectStep(NewGarbler(e, aes, rng, sots), Corrections(BitsOf(ei), rots));
    if masks.Err? then Err else
    var (_, result) := EvaluateSession(e, aes, EvaluatorState(Some(payload), BitsOf(ei), rots, false), masks.value);
    if result.Err? then Err else
    var (_, trusted) := VerifyStep(garbler, result.value.outputLabels);
    if trusted.Err? then Err else Ok((result.value.cmac, trusted.value))
  }

  /**
   The online protocol end to end. Whatever the inputs, the randomness and the matching
   transfers, every step succeeds and both parties hold the plain circuit's output.
   */
  lemma {:induction false} OnlineCorrect(e: Engine, aes: Key -> (Label -> Label), rng: seq<Byte>, gi: Input, ei: Input,
                                         sots: seq<SenderOT>, rots: seq<ReceiverOT>, start: Index)
    requires Honest(e, rng, sots, rots)
    ensures OnlineRun(e, aes, rng, gi, ei, sots, rots, start)
            == Ok((BytesOf(PlainResult(e, gi, ei)), BytesOf(PlainResult(e, gi, ei))))
  {
    hide Runnable, Fits, Garbled, OutputLabels, ActiveLabels, FreeXor, PlainResult, BitsOf, BytesOf,
         Masks, Corrections, Recovered, ValidLabels, LabelBits, Decoloured, GlobalOffset, KeyOf, AllMatch;
    var enc := aes(KeyOf(rng));
    var random := GarblingBytes(rng);
    var g := Garbled(e, random, enc);
    assert |sots| == |rots| by { MatchLength(sots, rots); }
    RecoveredLabels(g.wires[INPUT_BITS..2 * INPUT_BITS], sots, rots, BitsOf(ei));
    HonestOutputs(e, enc, random, gi, ei);
    OutputsDecoded(LastWires(g.wires), GlobalOffset(random), PlainResult(e, gi, ei));
  }

  lemma {:induction false} MatchLength(s: seq<SenderOT>, r: seq<ReceiverOT>)
    requires AllMatch(s, r)
    ensures |s| == |r|
  {}

  // Single use

  datatype GarblerCall = Correct(corrections: seq<bool>) | Verify(labels: seq<Label>) | Destroy

  function GarblerCallStep(s: GarblerState, c: GarblerCall): (GarblerState, bool) {
    match c
    case Correct(corrections) => var (t, r) := CorrectStep(s, corrections); (t, r.Ok?)
    case Verify(labels) => var (t, r) := VerifyStep(s, labels); (t, r.Ok?)
    case Destroy => (GarblerState([], [], [], true, true), false)
  }

  /** How many correction vectors a run of calls gets accepted. */
  function CorrectionsAccepted(s: GarblerState, calls: seq<GarblerCall>): nat
    decreases |calls|
  {
    if calls == [] then 0 else
      var (t, ok) := GarblerCallStep(s, calls[0]);
      (if calls[0].Correct? && ok then 1 else 0) + CorrectionsAccepted(t, calls[1..])
  }

  function OutputsAccepted(s: GarblerState, calls: seq<GarblerCall>): nat
    decreases |calls|
  {
    if calls == [] then 0 else
      var (t, ok) := GarblerCallStep(s, calls[0]);
      (if calls[0].Verify? && ok then 1 else 0) + OutputsAccepted(t, calls[1..])
  }

  /** Any run of calls: at most one correction vector, at most one output, and no output first. */
  lemma {:induction false} GarblerSingleUse(s: GarblerState, calls: seq<GarblerCall>)
    ensures CorrectionsAccepted(s, calls) <= if s.corrected then 0 else 1
    ensures OutputsAccepted(s, calls) <= if s.verified then 0 else 1
    ensures !s.corrected ==> OutputsAccepted(s, calls) <= CorrectionsAccepted(s, calls)
    decreases |calls|
  {
    hide Masks, ValidLabels, LabelBits, BytesOf;
    if calls != [] {
      GarblerSingleUse(GarblerCallStep(s, calls[0]).0, calls[1..]);
    }
  }

  datatype EvaluatorCall = EvaluateCall(masks: seq<OTMask>) | DestroyCall


  function ResultsReturned(e: Engine, aes: Key -> (Label -> Label), s: EvaluatorState, calls: seq<EvaluatorCall>): nat
    requires Shaped(e) && |s.inputBits| == INPUT_BITS && (s.payload.Some? ==> GoodPayload(s.payload.value))
    decreases |calls|
  {
    if calls == [] then 0 else
      match calls[0]
      case EvaluateCall(masks) =>
        hide Evaluated, Recovered, Fits, GoodPayload;
        var (t, r) := EvaluateSession(e, aes, s, masks);
        (if r.Ok? then 1 else 0) + ResultsReturned(e, aes, t, calls[1..])
      case DestroyCall =>
        ResultsReturned(e, aes, EvaluatorState(None, Fill(INPUT_BITS, false), [], true), calls[1..])
  }

  /** Any run of calls evaluates at most once. */
  lemma {:induction false} EvaluatorSingleUse(e: Engine, aes: Key -> (Label -> Label), s: EvaluatorState, calls: seq<EvaluatorCall>)
    requires Shaped(e) && |s.inputBits| == INPUT_BITS && (s.payload.Some? ==> GoodPayload(s.payload.value))
    ensures ResultsReturned(e, aes, s, calls) <= if s.evaluated then 0 else 1
    decreases |calls|
  {
    hide Evaluated, Recovered, Fits, GoodPayload;
    if calls != [] {
      match calls[0]
      case EvaluateCall(masks) =>
        EvaluatorSingleUse(e, aes, EvaluateSession(e, aes, s, masks).0, calls[1..]);
      case DestroyCall =>
        EvaluatorSingleUse(e, aes, EvaluatorState(None, Fill(INPUT_BITS, false), [], true), calls[1..]);
    }
  }

  // Exactly which calls are served, and which calls use a session up

  lemma {:induction false} CorrectionsServed(s: GarblerState, corrections: seq<bool>)
    ensures var (t, r) := CorrectStep(s, corrections);
            && (r.Ok? <==> |corrections| == 640 && !s.corrected && |s.evaluatorWires| == 640 && |s.otPads| == 640)
            && (r.Err? ==> t == s)
            && (r.Ok? ==> t.corrected && t.evaluatorWires == [] && t.otPads == [] && t.outputWires == s.outputWires && t.verified == s.verified)
  {
    hide Masks;
  }

  /** Output labels before the corrections leave the session alone; afterwards the first call uses it up. */
  lemma {:induction false} OutputServed(s: GarblerState, labels: seq<Label>)
    ensures var (t, r) := VerifyStep(s, labels);
            && (!s.corrected || s.verified ==> r.Err? && t == s)
            && (s.corrected && !s.verified ==> t.verified && t.outputWires == [])
            && (r.Ok? <==> && s.corrected && !s.verified && |labels| == 128 && |s.outputWires| == 128
                           && forall i :: 0 <= i < 128 ==> labels[i] == s.outputWires[i].l0 || labels[i] == s.outputWires[i].l1)
  {
    hide LabelBits, BytesOf;
  }

  /** The first call with 640 masks uses the session up, served or not. */
  lemma {:induction false} EvaluationServed(e: Engine, aes: Key -> (Label -> Label), s: EvaluatorState, masks: seq<OTMask>)
    requires Shaped(e) && |s.inputBits| == 640 && (s.payload.Some? ==> GoodPayload(s.payload.value))
    ensures var (t, r) := EvaluateSession(e, aes, s, masks);
            && (|masks| != 640 || s.evaluated ==> r.Err? && t == s)
            && (|masks| == 640 && !s.evaluated ==> t == EvaluatorState(None, Fill(640, false), [], true))
            && (r.Ok? <==> |masks| == 640 && !s.evaluated && s.payload.Some? && |s.ots| == 640 && |s.payload.value.tables| == e.tableCount)
  {
    hide Shaped, Evaluated, Recovered;
  }
}
