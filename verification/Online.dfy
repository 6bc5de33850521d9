/**
 The online protocol (mpc/oprf.go): the garbler's payload, the evaluator's choice
 corrections, the correction-aware masks, evaluation, and output verification.

 Both sessions are objects whose fields are consumed in place. Each method is tied to a
 step function on the session's state, and the claims about whole runs are made there.
 AES under the payload key is the parameter `aes`.
 */
module Online {
  import opened Words
  import opened Labels
  import opened Results
  import opened Packing
  import opened Plan
  import opened Gates
  import opened Circuit
  import opened Ots

  type Key = k: seq<Byte> | |k| == 16 witness Fills(16)
  type Input = d: seq<Byte> | |d| == INPUT_BITS / 8 witness Fills(INPUT_BITS / 8)

  function Fills(n: nat): (d: seq<Byte>)
    ensures |d| == n
  {
    seq(n, _ => ZERO_BYTE)
  }

  datatype OTMask = OTMask(m0: Label, m1: Label) {
    function Select(bit: bool): Label {
      if bit then m1 else m0
    }
  }

  datatype Payload = Payload(sessionId: Word, key: Key, tables: seq<Label>, garblerInputs: seq<Label>,
                             translations: seq<Byte>, otStart: Index)

  datatype OnlineResult = OnlineResult(cmac: seq<Byte>, outputLabels: seq<Label>)

  datatype GarblerState = GarblerState(evaluatorWires: seq<Wire>, otPads: seq<SenderOT>, outputWires: seq<Wire>,
                                       corrected: bool, verified: bool)

  datatype EvaluatorState = EvaluatorState(payload: Option<Payload>, inputBits: seq<bool>, ots: seq<ReceiverOT>,
                                           evaluated: bool)

  // What the garbler sends first

  const HEADER_SIZE: nat := 24

  /** The randomness of one online session: session identifier, key, garbling bytes. */
  predicate EnoughRandomness(rng: seq<Byte>) {
    |rng| >= HEADER_SIZE + RANDOM_SIZE
  }

  function SessionIdOf(rng: seq<Byte>): Word
    requires EnoughRandomness(rng)
  {
    WordFromBytes(rng[..8])
  }

  function KeyOf(rng: seq<Byte>): Key
    requires EnoughRandomness(rng)
  {
    rng[8..24]
  }

  function GarblingBytes(rng: seq<Byte>): (b: seq<Byte>)
    requires EnoughRandomness(rng)
    ensures |b| == RANDOM_SIZE
  {
    rng[HEADER_SIZE..][..RANDOM_SIZE]
  }

  /** Every index of the plan is in range of the buffers. */
  predicate Shaped(e: Engine) {
    2 * INPUT_BITS <= e.numWires && Fits(e.gates, e.numWires, e.tableCount)
  }

  function SelectLabels(wires: seq<Wire>, bits: seq<bool>): (labels: seq<Label>)
    requires |wires| == |bits|
    ensures |labels| == |wires|
    ensures forall i :: 0 <= i < |wires| ==> labels[i] == wires[i].Select(bits[i])
  {
    seq(|wires|, i requires 0 <= i < |wires| => wires[i].Select(bits[i]))
  }

  /** The permutation bit of each wire's zero label. */
  function Colours(wires: seq<Wire>): (bits: seq<bool>)
    ensures |bits| == |wires|
    ensures forall i :: 0 <= i < |wires| ==> bits[i] == wires[i].l0.PermutationBit()
  {
    seq(|wires|, i requires 0 <= i < |wires| => wires[i].l0.PermutationBit())
  }

  /** The output wires are the last ones. */
  function LastWires<T>(wires: seq<T>): (out: seq<T>)
    requires OUTPUT_BITS <= |wires|
    ensures |out| == OUTPUT_BITS
  {
    wires[|wires| - OUTPUT_BITS..]
  }

  function Translations(outputs: seq<Wire>): (t: seq<Byte>)
    requires |outputs| == OUTPUT_BITS
    ensures |t| == OUTPUT_BITS / 8
  {
    BytesOf(Colours(outputs))
  }

  function SentPayload(e: Engine, aes: Key -> (Label -> Label), rng: seq<Byte>, input: Input, start: Index): (p: Payload)
    requires Shaped(e) && EnoughRandomness(rng)
    ensures GoodPayload(p) && |p.tables| == e.tableCount
  {
    hide Fits, Garbled, Translations, BitsOf, WordFromBytes;
    var g := Garbled(e, GarblingBytes(rng), aes(KeyOf(rng)));
    Payload(SessionIdOf(rng), KeyOf(rng), g.tables, SelectLabels(g.wires[..INPUT_BITS], BitsOf(input)),
            Translations(LastWires(g.wires)), start)
  }

  function NewGarbler(e: Engine, aes: Key -> (Label -> Label), rng: seq<Byte>, ots: seq<SenderOT>): GarblerState
    requires Shaped(e) && EnoughRandomness(rng)
  {
    hide Fits, Garbled;
    var g := Garbled(e, GarblingBytes(rng), aes(KeyOf(rng)));
    GarblerState(g.wires[INPUT_BITS..2 * INPUT_BITS], ots, LastWires(g.wires), false, false)
  }

  // Corrections and masks

  function Corrections(bits: seq<bool>, ots: seq<ReceiverOT>): (c: seq<bool>)
    requires |bits| == |ots|
    ensures |c| == |bits|
    ensures forall i :: 0 <= i < |bits| ==> c[i] == (ots[i].choice != bits[i])
  {
    seq(|bits|, i requires 0 <= i < |bits| => ots[i].choice != bits[i])
  }

  function MaskFor(w: Wire, pad: SenderOT, correction: bool): OTMask {
    if correction then OTMask(w.l0.Xor(pad.r1), w.l1.Xor(pad.r0))
    else OTMask(w.l0.Xor(pad.r0), w.l1.Xor(pad.r1))
  }

  function Masks(wires: seq<Wire>, pads: seq<SenderOT>, corrections: seq<bool>): (m: seq<OTMask>)
    requires |wires| == |pads| == |corrections|
    ensures |m| == |wires|
    ensures forall i :: 0 <= i < |wires| ==> m[i] == MaskFor(wires[i], pads[i], corrections[i])
  {
    seq(|wires|, i requires 0 <= i < |wires| => MaskFor(wires[i], pads[i], corrections[i]))
  }

  /**
   The mask of the evaluator's bit opens with its own pad to that bit's label; the other
   label stays under the pad of the choice the evaluator did not make.
   */
  lemma {:induction false} MaskOpensChosenLabel(w: Wire, s: SenderOT, r: ReceiverOT, bit: bool)
    requires Matches(s, r)
    ensures var m := MaskFor(w, s, r.choice != bit);
            && r.r.Xor(m.Select(bit)) == w.Select(bit)
            && m.Select(!bit) == w.Select(!bit).Xor(if r.choice then s.r0 else s.r1)
  {
    XorCancel(w.Select(bit), r.r);
  }

  function CorrectStep(s: GarblerState, corrections: seq<bool>): (GarblerState, Result<seq<OTMask>>) {
    if |corrections| != INPUT_BITS || s.corrected
       || |s.evaluatorWires| != INPUT_BITS || |s.otPads| != INPUT_BITS then (s, Err)
    else (s.(corrected := true, evaluatorWires := [], otPads := []),
          Ok(Masks(s.evaluatorWires, s.otPads, corrections)))
  }

  // Evaluation

  function Recovered(bits: seq<bool>, ots: seq<ReceiverOT>, masks: seq<OTMask>): (labels: seq<Label>)
    requires |bits| == |ots| == |masks|
    ensures |labels| == |bits|
    ensures forall i :: 0 <= i < |bits| ==> labels[i] == ots[i].r.Xor(masks[i].Select(bits[i]))
  {
    seq(|bits|, i requires 0 <= i < |bits| => ots[i].r.Xor(masks[i].Select(bits[i])))
  }

  /** The labels evaluation starts from; wires that are not inputs start cleared. */
  function ActiveLabels(e: Engine, garblerInputs: seq<Label>, recovered: seq<Label>): (a: seq<Label>)
    requires 2 * INPUT_BITS <= e.numWires && |garblerInputs| == |recovered| == INPUT_BITS
    ensures |a| == e.numWires
  {
    garblerInputs + recovered + seq(e.numWires - 2 * INPUT_BITS, _ => NONE)
  }

  function Decoloured(labels: seq<Label>, translations: seq<Byte>): (bits: seq<bool>)
    requires |labels| == 8 * |translations|
    ensures |bits| == |labels|
    ensures forall i :: 0 <= i < |labels| ==> bits[i] == (labels[i].PermutationBit() != BitsOf(translations)[i])
  {
    seq(|labels|, i requires 0 <= i < |labels| => labels[i].PermutationBit() != BitsOf(translations)[i])
  }

  function OutputLabels(e: Engine, active: seq<Label>, tables: seq<Label>, enc: Label -> Label): (labels: seq<Label>)
    requires Shaped(e) && |active| == e.numWires && |tables| == e.tableCount
    ensures |labels| == OUTPUT_BITS
  {
    LastWires(EvaluateRun(e.gates, Evaluation(active, 0), tables, enc, |e.gates|).wires)
  }

  function ResultOf(labels: seq<Label>, translations: seq<Byte>): OnlineResult
    requires |labels| == 8 * |translations|
  {
    OnlineResult(BytesOf(Decoloured(labels, translations)), labels)
  }

  predicate GoodPayload(p: Payload) {
    |p.garblerInputs| == INPUT_BITS && |p.translations| == OUTPUT_BITS / 8
  }

  function Evaluated(e: Engine, aes: Key -> (Label -> Label), p: Payload, recovered: seq<Label>): (r: OnlineResult)
    requires Shaped(e) && GoodPayload(p) && |recovered| == INPUT_BITS && |p.tables| == e.tableCount
  {
    hide Fits, OutputLabels, ActiveLabels, ResultOf;
    ResultOf(OutputLabels(e, ActiveLabels(e, p.garblerInputs, recovered), p.tables, aes(p.key)), p.translations)
  }

  function EvaluateSession(e: Engine, aes: Key -> (Label -> Label), s: EvaluatorState, masks: seq<OTMask>)
    : (EvaluatorState, Result<OnlineResult>)
    requires Shaped(e) && |s.inputBits| == INPUT_BITS && (s.payload.Some? ==> GoodPayload(s.payload.value))
  {
    if |masks| != INPUT_BITS || s.evaluated then (s, Err)
    else
      var spent := EvaluatorState(None, Fill(INPUT_BITS, false), [], true);
      if s.payload.None? || |s.ots| != INPUT_BITS || |s.payload.value.tables| != e.tableCount then (spent, Err)
      else (spent, Ok(Evaluated(e, aes, s.payload.value, Recovered(s.inputBits, s.ots, masks))))
  }

  // Verification

  predicate OneOf(w: Wire, l: Label) {
    l == w.l0 || l == w.l1
  }

  predicate ValidLabels(wires: seq<Wire>, labels: seq<Label>)
    requires |wires| == |labels|
  {
    forall i :: 0 <= i < |labels| ==> OneOf(wires[i], labels[i])
  }

  function LabelBits(wires: seq<Wire>, labels: seq<Label>): (bits: seq<bool>)
    requires |wires| == |labels|
    ensures |bits| == |labels|
    ensures forall i :: 0 <= i < |labels| ==> bits[i] == (labels[i] != wires[i].l0)
  {
    seq(|labels|, i requires 0 <= i < |labels| => labels[i] != wires[i].l0)
  }

  function VerifyStep(s: GarblerState, labels: seq<Label>): (GarblerState, Result<seq<Byte>>) {
    if !s.corrected || s.verified then (s, Err)
    else
      var spent := s.(verified := true, outputWires := []);
      if |labels| != OUTPUT_BITS || |s.outputWires| != OUTPUT_BITS || !ValidLabels(s.outputWires, labels)
      then (spent, Err)
      else (spent, Ok(BytesOf(LabelBits(s.outputWires, labels))))
  }

  // The sessions

  class GarblerSession {
    var sessionId: Word
    var evaluatorWires: seq<Wire>
    var otPads: seq<SenderOT>
    var outputWires: seq<Wire>
    var corrected: bool
    var verified: bool

    constructor (id: Word, wires: seq<Wire>, pads: seq<SenderOT>, outputs: seq<Wire>)
      ensures View() == GarblerState(wires, pads, outputs, false, false) && sessionId == id
    {
      sessionId, evaluatorWires, otPads, outputWires := id, wires, pads, outputs;
      corrected, verified := false, false;
    }

    ghost function View(): GarblerState
      reads this
    {
      GarblerState(evaluatorWires, otPads, outputWires, corrected, verified)
    }

    method Destroy()
      modifies this
      ensures View() == GarblerState([], [], [], true, true)
    {
      evaluatorWires, otPads, outputWires := [], [], [];
      corrected, verified := true, true;
    }

    method ApplyCorrections(corrections: seq<bool>) returns (r: Result<seq<OTMask>>)
      modifies this
      ensures (View(), r) == CorrectStep(old(View()), corrections)
    {
      if |corrections| != INPUT_BITS {
        return Err;
      }
      if corrected {
        return Err;
      }
      if |evaluatorWires| != INPUT_BITS || |otPads| != INPUT_BITS {
        return Err;
      }
      var masks: seq<OTMask> := [];
      for i := 0 to INPUT_BITS
        invariant |masks| == i
        invariant forall k :: 0 <= k < i ==> masks[k] == MaskFor(evaluatorWires[k], otPads[k], corrections[k])
      {
        var r0, r1 := otPads[i].r0, otPads[i].r1;
        if corrections[i] {
          r0, r1 := r1, r0;
        }
        var w := evaluatorWires[i];
        masks := masks + [OTMask(w.l0.Xor(r0), w.l1.Xor(r1))];
      }
      assert masks == Masks(evaluatorWires, otPads, corrections);
      corrected := true;
      evaluatorWires, otPads := [], [];
      r := Ok(masks);
    }

    method VerifyOutput(labels: seq<Label>) returns (r: Result<seq<Byte>>)
      modifies this
      ensures (View(), r) == VerifyStep(old(View()), labels)
    {
      if !corrected {
        return Err;
      }
      if verified {
        return Err;
      }
      verified := true;
      var wires := outputWires;
      outputWires := [];
      if |labels| != OUTPUT_BITS || |wires| != OUTPUT_BITS {
        return Err;
      }
      var bits := new bool[OUTPUT_BITS](_ => false);
      for i := 0 to OUTPUT_BITS
        invariant forall k :: 0 <= k < i ==> OneOf(wires[k], labels[k]) && bits[k] == (labels[k] != wires[k].l0)
        invariant forall k :: i <= k < OUTPUT_BITS ==> !bits[k]
        modifies bits
      {
        if labels[i] == wires[i].l0 {
        } else if labels[i] == wires[i].l1 {
          bits[i] := true;
        } else {
          assert !ValidLabels(wires, labels);
          return Err;
        }
      }
      assert bits[..] == LabelBits(wires, labels);
      var out := new Byte[OUTPUT_BITS / 8](_ => ZERO_BYTE);
      BitsToBytes(bits[..], out);
      r := Ok(out[..]);
    }
  }

  class EvaluatorSession {
    var sessionId: Word
    var payload: Option<Payload>
    var inputBits: seq<bool>
    var ots: seq<ReceiverOT>
    var evaluated: bool

    constructor (p: Payload, bits: seq<bool>, ots: seq<ReceiverOT>)
      ensures View() == EvaluatorState(Some(p), bits, ots, false) && sessionId == p.sessionId
    {
      sessionId, payload, inputBits := p.sessionId, Some(p), bits;
      this.ots, evaluated := ots, false;
    }

    ghost function View(): EvaluatorState
      reads this
    {
      EvaluatorState(payload, inputBits, ots, evaluated)
    }

    /** The array of input bits has a fixed size and a stored payload passed `EvaluatorPrepare`. */
    ghost predicate Valid()
      reads this
    {
      |inputBits| == INPUT_BITS && (payload.Some? ==> GoodPayload(payload.value))
    }

    method Destroy()
      modifies this
      ensures Valid() && View() == EvaluatorState(None, Fill(INPUT_BITS, false), [], true)
    {
      payload, inputBits, ots, evaluated := None, Fill(INPUT_BITS, false), [], true;
    }

    method EvaluatorOnline(e: Engine, aes: Key -> (Label -> Label), masks: seq<OTMask>) returns (r: Result<OnlineResult>)
      requires Valid() && Runnable(e) && Shaped(e)
      modifies this
      ensures Valid() && (View(), r) == EvaluateSession(e, aes, old(View()), masks)
    {
      hide Runnable, Fits, EvaluateRun, Label.Xor, BytesOf, BitsOf, Decoloured;
      if |masks| != INPUT_BITS {
        return Err;
      }
      if evaluated {
        return Err;
      }
      evaluated := true;
      var sessionPayload, bits, pads := payload, inputBits, ots;
      payload, inputBits, ots := None, Fill(INPUT_BITS, false), [];
      if sessionPayload.None? || |pads| != INPUT_BITS {
        return Err;
      }
      var p := sessionPayload.value;
      var wires := ActiveWires(e, p.garblerInputs, bits, pads, masks);
      var ok := Evaluate(e, wires, p.tables, aes(p.key));
      if !ok {
        return Err;
      }
      var result := ReadOutputs(LastWires(wires[..]), p.translations);
      r := Ok(result);
    }
  }

  /** The wire buffer: the garbler's labels, then one label opened per evaluator bit. */
  method ActiveWires(e: Engine, garblerInputs: seq<Label>, bits: seq<bool>, ots: seq<ReceiverOT>, masks: seq<OTMask>)
    returns (wires: array<Label>)
    requires 2 * INPUT_BITS <= e.numWires
    requires |garblerInputs| == |bits| == |ots| == |masks| == INPUT_BITS
    ensures fresh(wires)
    ensures wires[..] == ActiveLabels(e, garblerInputs, Recovered(bits, ots, masks))
  {
    hide Label.Xor;
    wires := new Label[e.numWires](_ => NONE);
    for i := 0 to INPUT_BITS
      invariant forall k :: 0 <= k < i ==> wires[k] == garblerInputs[k]
      invariant forall k :: i <= k < e.numWires ==> wires[k] == NONE
    {
      wires[i] := garblerInputs[i];
    }
    for i := 0 to INPUT_BITS
      invariant forall k :: 0 <= k < INPUT_BITS ==> wires[k] == garblerInputs[k]
      invariant forall k :: 0 <= k < i ==> wires[INPUT_BITS + k] == ots[k].r.Xor(masks[k].Select(bits[k]))
      invariant forall k :: INPUT_BITS + i <= k < e.numWires ==> wires[k] == NONE
    {
      var mask := masks[i].m0;
      if bits[i] {
        mask := masks[i].m1;
      }
      wires[INPUT_BITS + i] := ots[i].r.Xor(mask);
    }
    ghost var recovered := Recovered(bits, ots, masks);
    assert forall k {:trigger wires[k]} :: INPUT_BITS <= k < 2 * INPUT_BITS ==> wires[k] == recovered[k - INPUT_BITS] by {
      forall k {:trigger wires[k]} | INPUT_BITS <= k < 2 * INPUT_BITS
        ensures wires[k] == recovered[k - INPUT_BITS]
      {
        assert wires[INPUT_BITS + (k - INPUT_BITS)] == wires[k];
      }
    }
    assert wires[..] == ActiveLabels(e, garblerInputs, recovered);
  }

  method ReadOutputs(labels: seq<Label>, translations: seq<Byte>) returns (r: OnlineResult)
    requires |labels| == OUTPUT_BITS && |translations| == OUTPUT_BITS / 8
    ensures r == ResultOf(labels, translations)
  {
    hide BytesOf;
    var bits := new bool[OUTPUT_BITS](_ => false);
    for i := 0 to OUTPUT_BITS
      invariant forall k :: 0 <= k < i ==> bits[k] == Decoloured(labels, translations)[k]
    {
      var translation := translations[i / 8][i % 8];
      bits[i] := labels[i].PermutationBit() != translation;
    }
    assert bits[..] == Decoloured(labels, translations);
    var cmac := new Byte[OUTPUT_BITS / 8](_ => ZERO_BYTE);
    BitsToBytes(bits[..], cmac);
    r := OnlineResult(cmac[..], labels);
  }

  // The two entry points

  method GarblerOnline(e: Engine, aes: Key -> (Label -> Label), rng: seq<Byte>, garblerInput: Input,
                       ots: seq<SenderOT>, otStart: Index)
    returns (payload: Option<Payload>, session: GarblerSession?)
    requires Runnable(e) && Shaped(e)
    ensures payload.Some? <==> |ots| == INPUT_BITS && SenderIndicesFrom(ots, otStart) && EnoughRandomness(rng)
    ensures payload.Some? <==> session != null
    ensures payload.Some? ==> payload.value == SentPayload(e, aes, rng, garblerInput, otStart)
    ensures session != null ==> fresh(session) && session.View() == NewGarbler(e, aes, rng, ots)
                                && session.sessionId == payload.value.sessionId
  {
    hide Runnable, Fits, Garbled, BytesOf, BitsOf, WordFromBytes;
    if |ots| != INPUT_BITS {
      return None, null;
    }
    var valid := ValidateSenderOTIndices(ots, otStart);
    if !valid {
      return None, null;
    }
    if |rng| < HEADER_SIZE {
      return None, null;
    }
    var sessionId, key: Key := WordFromBytes(rng[..8]), rng[8..24];
    var garbled := Garble(e, rng[HEADER_SIZE..], aes(key));
    if garbled.Err? {
      return None, null;
    }
    var g := garbled.value;
    var bits := new bool[INPUT_BITS](_ => false);
    BytesToBits(garblerInput, bits);
    var inputs := PickLabels(g.wires[..INPUT_BITS], bits[..]);
    var evaluatorWires := g.wires[INPUT_BITS..2 * INPUT_BITS];
    var outputWires := g.wires[e.numWires - OUTPUT_BITS..];
    var translations := TranslationBytes(outputWires);
    payload := Some(Payload(sessionId, key, g.tables, inputs, translations, otStart));
    session := new GarblerSession(sessionId, evaluatorWires, ots, outputWires);
  }

  method PickLabels(wires: seq<Wire>, bits: seq<bool>) returns (labels: seq<Label>)
    requires |wires| == |bits|
    ensures labels == SelectLabels(wires, bits)
  {
    labels := [];
    for i := 0 to |bits|
      invariant |labels| == i
      invariant forall k :: 0 <= k < i ==> labels[k] == wires[k].Select(bits[k])
    {
      if bits[i] {
        labels := labels + [wires[i].l1];
      } else {
        labels := labels + [wires[i].l0];
      }
    }
  }

  method TranslationBytes(outputs: seq<Wire>) returns (t: seq<Byte>)
    requires |outputs| == OUTPUT_BITS
    ensures t == Translations(outputs)
  {
    var dst := new Byte[OUTPUT_BITS / 8](_ => ZERO_BYTE);
    var bits := Colours(outputs);
    BitsToBytes(bits, dst);
    t := dst[..];
  }

  method EvaluatorPrepare(payload: Option<Payload>, evaluatorInput: Input, ots: seq<ReceiverOT>)
    returns (session: EvaluatorSession?, corrections: seq<bool>)
    requires payload.Some? ==> |payload.value.translations| == OUTPUT_BITS / 8
    ensures session != null <==>
              && payload.Some? && |ots| == INPUT_BITS && |payload.value.garblerInputs| == INPUT_BITS
              && ReceiverIndicesFrom(ots, payload.value.otStart)
    ensures session != null ==>
              && fresh(session) && session.Valid()
              && session.View() == EvaluatorState(payload, BitsOf(evaluatorInput), ots, false)
              && session.sessionId == payload.value.sessionId
              && corrections == Corrections(BitsOf(evaluatorInput), ots)
  {
    hide BitsOf;
    corrections := [];
    if payload.None? {
      return null, corrections;
    }
    if |ots| != INPUT_BITS {
      return null, corrections;
    }
    if |payload.value.garblerInputs| != INPUT_BITS {
      return null, corrections;
    }
    var valid := ValidateReceiverOTIndices(ots, payload.value.otStart);
    if !valid {
      return null, corrections;
    }
    var bits := new bool[INPUT_BITS](_ => false);
    BytesToBits(evaluatorInput, bits);
    for i := 0 to INPUT_BITS
      invariant |corrections| == i
      invariant forall k :: 0 <= k < i ==> corrections[k] == (ots[k].choice != bits[k])
    {
      corrections := corrections + [ots[i].choice != bits[i]];
    }
    assert corrections == Corrections(bits[..], ots);
    session := new EvaluatorSession(payload.value, bits[..], ots);
  }
}
