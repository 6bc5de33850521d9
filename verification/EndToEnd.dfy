/**
 From base seeds to the result: extension, pools and online protocol composed
 (mpc/README.md, mpc/ot_extension.go, mpc/pool.go, mpc/oprf.go).
 */
module EndToEnd {
  import opened Words
  import opened Labels
  import opened Results
  import opened Packing
  import opened BigEndian
  import opened Plan
  import opened Circuit
  import opened Ots
  import opened Transpose
  import opened Extension
  import opened ExtensionProtocol
  import opened ExtensionTheorems
  import opened Pools
  import opened Online
  import opened OnlineTheorems
  import opened KosCheck

  /**
   For every circuit plan, base seeds, delta, choices and inputs: run the extension, take any
   640 consecutive transfers of the batch on both sides, run the online protocol with them,
   and both parties hold the plain circuit's output.
   */
  lemma {:induction false} SeedsToResult(o: Oracles, base: seq<SeedPair>, selected: seq<Label>, delta: Label,
                                         sessionId: Bytes32, choices: Bytes, start: Index, count: nat, k: nat,
                                         e: Engine, aes: Key -> (Label -> Label), rng: seq<Byte>, gi: Input, ei: Input)
    requires |base| == |selected| == BASE_OT_COUNT && FollowsDelta(selected, base, delta)
    requires k + INPUT_BITS <= count <= 8 * |choices| && start + count < UINT64
    requires Runnable(e) && Shaped(e) && EnoughRandomness(rng)
    ensures var n := |choices|;
            var u := Flat(UColumns(o, base, sessionId, choices));
            && |u| == BASE_OT_COUNT * n
            && var s := SenderBatch(o, Rows(QColumns(o, selected, delta, sessionId, u, n), n), delta, start, count);
               var r := ReceiverBatch(o, Rows(TColumns(o, base, sessionId, n), n), choices, start, count);
               OnlineRun(e, aes, rng, gi, ei, s[k..k + INPUT_BITS], r[k..k + INPUT_BITS], start + k)
               == Ok((BytesOf(PlainResult(e, gi, ei)), BytesOf(PlainResult(e, gi, ei))))
  {
    hide FollowsDelta, Flat, UColumns, QColumns, TColumns, Rows, SenderBatch, ReceiverBatch, Runnable, Shaped, OnlineRun,
         PlainResult, BytesOf, EnoughRandomness;
    ExtensionCorrect(o, base, selected, delta, sessionId, choices, start, count);
    var n := |choices|;
    var u := Flat(UColumns(o, base, sessionId, choices));
    var s := SenderBatch(o, Rows(QColumns(o, selected, delta, sessionId, u, n), n), delta, start, count);
    var r := ReceiverBatch(o, Rows(TColumns(o, base, sessionId, n), n), choices, start, count);
    assert AllMatch(s[k..k + INPUT_BITS], r[k..k + INPUT_BITS]);
    OnlineCorrect(e, aes, rng, gi, ei, s[k..k + INPUT_BITS], r[k..k + INPUT_BITS], start + k);
  }

  /** Both pools hold the same batches and the receiver has spent nothing the sender still has. */
  ghost predicate Paired(sender: SenderPool, receiver: ReceiverPool)
    reads sender, receiver
  {
    && sender.Valid() && receiver.Valid()
    && AllMatch(sender.table.added, receiver.table.added)
    && (forall i :: i in receiver.table.spent ==> i < sender.table.next)
  }

  lemma {:induction false} AllMatchAppend(s: seq<SenderOT>, r: seq<ReceiverOT>, s': seq<SenderOT>, r': seq<ReceiverOT>)
    requires AllMatch(s, r) && AllMatch(s', r')
    ensures AllMatch(s + s', r + r')
  {}

  /** Commitment and challenge between honest parties, and the states they leave. */
  method StartBoth(o: Oracles, rngR: Bytes, rngS: Bytes, base: seq<SeedPair>, selected: seq<Label>, delta: Label,
                   epoch: Bytes, cipher: Bytes, sessionId: Bytes32, start: Index, count: int)
    returns (rstate: ReceiverState, sstate: SenderState, challenge: Challenge, rots: seq<ReceiverOT>)
    requires |base| == |selected| == BASE_OT_COUNT && delta != NONE
    requires ReceiverStarts(o, rngR, epoch, cipher, sessionId, start, count)
    requires |rngS| >= 16 * ChallengeCount(PaddedCount(count).value)
    ensures fresh(rstate) && fresh(sstate) && rstate.Valid() && sstate.Valid() && !rstate.used && !sstate.used
    ensures rstate.commitment == sstate.commitment && rstate.commitment.sessionId == sessionId
    ensures rstate.commitment.startIndex == start && rstate.commitment.count == count
    ensures rstate.commitment.paddedCount == PaddedCount(count).value
    ensures ValidChallenge(o, rstate.commitment, challenge)
    ensures sstate.delta == delta && sstate.challengeTranscript == challenge.transcript
    ensures var choices := Choices(rngR, count);
            var n, u := |choices|, Flat(UColumns(o, base, sessionId, choices));
            && rstate.choices == choices && rstate.tMatrix == Flat(TColumns(o, base, sessionId, n))
            && rots == ReceiverBatch(o, Rows(TColumns(o, base, sessionId, n), n), choices, start, count)
            && |choices| == 16 * |challenge.chi| + 16 && |u| == BASE_OT_COUNT * n
            && var q := QColumns(o, selected, delta, sessionId, u, n);
               sstate.qChecks == Checks(q, n, challenge.chi) && sstate.rows == Rows(q, n)
  {
    hide ValidEpoch, ValidBaseCipher, Flat, UColumns, QColumns, TColumns, Rows, Checks, Check, ReceiverBatch,
         Transcript, EpochHash, ChallengeTranscript, ValidCommitment, ValidChallenge, Coefficients, Choices;
    var r, commitment, received := StartExtensionReceiver(o, rngR, base, epoch, cipher, sessionId, start, count);
    HonestCommitmentValid(o, rngR, base, epoch, cipher, sessionId, start, count);
    var s, sent := StartExtensionSender(o, rngS, selected, delta, epoch, cipher, commitment);
    HonestChallengeValid(o, rngS, commitment.value);
    ChallengeOmitsMatrix(o, commitment.value, sent.value);
    rstate, sstate, challenge, rots := r, s, sent.value, received;
  }

  /** The four extension messages between honest parties: they succeed and the transfers match. */
  method Extend(o: Oracles, rngR: Bytes, rngS: Bytes, base: seq<SeedPair>, selected: seq<Label>, delta: Label,
                epoch: Bytes, cipher: Bytes, sessionId: Bytes32, start: Index, count: int)
    returns (sots: seq<SenderOT>, rots: seq<ReceiverOT>)
    requires |base| == |selected| == BASE_OT_COUNT && FollowsDelta(selected, base, delta) && delta != NONE
    requires ReceiverStarts(o, rngR, epoch, cipher, sessionId, start, count)
    requires |rngS| >= 16 * ChallengeCount(PaddedCount(count).value)
    ensures |sots| == |rots| == count && AllMatch(sots, rots)
    ensures SenderIndicesFrom(sots, start) && ReceiverIndicesFrom(rots, start)
  {
    hide FollowsDelta, Flat, UColumns, QColumns, TColumns, Rows, Checks, Check, SenderBatch, ReceiverBatch, ColumnsOf,
         AllMatch, ValidChallenge, ChecksPass, Choices, SenderIndicesFrom, ReceiverIndicesFrom, ReceiverStarts, PaddedCount, ChallengeCount;
    StartsWithin(o, rngR, epoch, cipher, sessionId, start, count);
    var rstate, sstate, challenge, received :=
      StartBoth(o, rngR, rngS, base, selected, delta, epoch, cipher, sessionId, start, count);
    ghost var choices := Choices(rngR, count);
    ColumnsOfFlat(TColumns(o, base, sessionId, |choices|), |choices|);
    var proof := rstate.FinishExtensionReceiver(o, Some(challenge));
    HonestReceiverPasses(o, base, selected, delta, sessionId, choices, challenge.chi, proof.value);
    var sent := sstate.FinishExtensionSender(o, Some(proof.value));
    ExtensionCorrect(o, base, selected, delta, sessionId, choices, start, count);
    sots, rots := sent.value, received;
  }

  /**
   The sender releases nothing to a receiver whose matrix is off in one block of one column
   that its delta looks at, even if all its checks are honest for the choices it claims.
   */
  method RefuseOffBlock(o: Oracles, rng: Bytes, base: seq<SeedPair>, selected: seq<Label>, delta: Label, epoch: Bytes,
                        cipher: Bytes, c: Commitment, choices: Bytes, proof: Proof, col: nat, k: nat, d: Label)
    returns (r: Result<seq<SenderOT>>)
    requires |base| == |selected| == BASE_OT_COUNT && FollowsDelta(selected, base, delta)
    requires SenderStarts(o, rng, delta, epoch, cipher, c)
    requires var n := c.paddedCount / 8; |choices| == n && |c.u| == BASE_OT_COUNT * n
    requires var chi := Coefficients(rng, ChallengeCount(c.paddedCount));
             && |choices| == 16 * |chi| + 16 && proof.x == Check(choices, chi)
             && proof.t == Checks(TColumns(o, base, c.sessionId, |choices|), |choices|, chi)
             && col < BASE_OT_COUNT && delta.Bit(col) && Seen(d, k, chi) != NONE
             && OffBlock(Encoded(o, base[col], c.sessionId, col, Column(c.u, |choices|, col)), choices, k, d)
    ensures r.Err?
  {
    hide FollowsDelta, ValidCommitment, QColumns, TColumns, Rows, Checks, Check, SenderBatch, Encoded, Column, OffBlock,
         Seen, Coefficients, ChecksPass, ChallengeTranscript, Label.Bit;
    var state, challenge := StartExtensionSender(o, rng, selected, delta, epoch, cipher, Some(c));
    OffBlockRefused(o, base, selected, delta, c.sessionId, c.u, choices, challenge.value.chi, proof, col, k, d);
    r := state.FinishExtensionSender(o, Some(proof));
  }

  /** One precomputation: the extension, then both commits. It never fails between honest parties. */
  method Precompute(o: Oracles, rngR: Bytes, rngS: Bytes, base: seq<SeedPair>, selected: seq<Label>, delta: Label,
                    epoch: Bytes, cipher: Bytes, sessionId: Bytes32, count: int, sender: SenderPool, receiver: ReceiverPool)
    returns (ok: bool)
    requires Paired(sender, receiver)
    requires |base| == |selected| == BASE_OT_COUNT && FollowsDelta(selected, base, delta) && delta != NONE
    requires ReceiverStarts(o, rngR, epoch, cipher, sessionId, |receiver.table.added|, count)
    requires |rngS| >= 16 * ChallengeCount(PaddedCount(count).value)
    modifies sender, receiver
    ensures ok && Paired(sender, receiver)
    ensures |sender.table.added| == old(|sender.table.added|) + count
    ensures sender.table.next == old(sender.table.next) && receiver.table.spent == old(receiver.table.spent)
  {
    hide FollowsDelta, AllMatch, SlotsAgree, ReceiverStarts;
    var start := receiver.TotalCount();
    StartsWithin(o, rngR, epoch, cipher, sessionId, start, count);
    var sots, rots := Extend(o, rngR, rngS, base, selected, delta, epoch, cipher, sessionId, start, count);
    MatchLength(sender.table.added, receiver.table.added);
    var addedR := receiver.Add(rots);
    var addedS := sender.Add(sots);
    AllMatchAppend(old(sender.table.added), old(receiver.table.added), sots, rots);
    ok := addedR && addedS;
  }

  lemma {:induction false} StartsWithin(o: Oracles, rng: Bytes, epoch: Bytes, cipher: Bytes, sessionId: Bytes32, start: Index, count: int)
    requires ReceiverStarts(o, rng, epoch, cipher, sessionId, start, count)
    ensures PaddedCount(count).Ok? && CheckedIndexEnd(start, count).Ok? && |rng| >= PaddedCount(count).value / 8
  {}

  lemma {:induction false} ChallengeOmitsMatrix(o: Oracles, c: Commitment, ch: Challenge)
    requires c.paddedCount >= KOS_CHECK_OTS && ValidChallenge(o, c, ch)
    ensures ValidChallenge(o, c.(u := []), ch)
  {}

  /** One OPRF on paired pools: reserve, announce, consume, four online messages. */
  method Oprf(e: Engine, aes: Key -> (Label -> Label), rng: seq<Byte>, gi: Input, ei: Input,
              sender: SenderPool, receiver: ReceiverPool)
    returns (cmac: seq<Byte>, trusted: seq<Byte>)
    requires Paired(sender, receiver) && sender.table.next + INPUT_BITS <= |sender.table.added|
    requires Runnable(e) && Shaped(e) && EnoughRandomness(rng)
    modifies sender, receiver
    ensures Paired(sender, receiver) && sender.table.next == old(sender.table.next) + INPUT_BITS
    ensures cmac == trusted == BytesOf(PlainResult(e, gi, ei))
  {
    hide Runnable, Shaped, SlotsAgree, TableOk, PlainResult, BytesOf, BitsOf, SentPayload, NewGarbler, CorrectStep,
         EvaluateSession, VerifyStep, Corrections, GoodPayload, SenderIndicesFrom, ReceiverIndicesFrom;
    MatchLength(sender.table.added, receiver.table.added);
    var reserved := sender.Reserve(INPUT_BITS);
    var start, sots := reserved.value.0, reserved.value.1;
    var consumed := receiver.Consume(start, INPUT_BITS);
    var rots := consumed.value;
    SliceIndices(sender.table.added, receiver.table.added, start, INPUT_BITS);
    OnlineCorrect(e, aes, rng, gi, ei, sots, rots, start);
    var payload, garbler := GarblerOnline(e, aes, rng, gi, sots, start);
    SentPayloadStart(e, aes, rng, gi, start);
    var evaluator, corrections := EvaluatorPrepare(payload, ei, rots);
    var masks := garbler.ApplyCorrections(corrections);
    var result := evaluator.EvaluatorOnline(e, aes, masks.value);
    var verified := garbler.VerifyOutput(result.value.outputLabels);
    cmac, trusted := result.value.cmac, verified.value;
  }

  lemma {:induction false} SentPayloadStart(e: Engine, aes: Key -> (Label -> Label), rng: seq<Byte>, gi: Input, start: Index)
    requires Shaped(e) && EnoughRandomness(rng)
    ensures SentPayload(e, aes, rng, gi, start).otStart == start
    ensures GoodPayload(SentPayload(e, aes, rng, gi, start))
    ensures |SentPayload(e, aes, rng, gi, start).garblerInputs| == INPUT_BITS
    ensures |SentPayload(e, aes, rng, gi, start).translations| == OUTPUT_BITS / 8
  {}

  lemma {:induction false} SliceIndices(s: seq<SenderOT>, r: seq<ReceiverOT>, start: Index, count: nat)
    requires AllMatch(s, r) && SenderIndicesFrom(s, 0) && start + count <= |s| < UINT64
    ensures SenderIndicesFrom(s[start..start + count], start) && ReceiverIndicesFrom(r[start..start + count], start)
    ensures AllMatch(s[start..start + count], r[start..start + count])
  {
    forall j | start <= j < start + count
      ensures r[j].index == j
    {
      assert Matches(s[j], r[j]);
    }
  }
}
