# Reclaim TEE: a Dafny model of its protocol core

This project models the parts of reclaim-tee that compute or coordinate something subtle, and
proves what they promise. `dafny verify dfyconfig.toml` checks all of it.

**The two-party OPRF (`mpc/`).** Half-gates garbling and evaluation of an arbitrary well-formed
circuit (`Plan`, `Gates`, `Circuit`, `GateHash`), the four-message online protocol (`Online`,
`OnlineTheorems`), the oblivious-transfer extension with its bit-matrix transpose and its
consistency check over GF(2^128) (`Transpose`, `Field`, `Extension`, `ExtensionProtocol`,
`ExtensionTheorems`, `KosCheck`), the single-use pools of both sides (`Pools`, `PoolRuns`),
their wire frames, hash inputs and randomness (`Frames`, `OnlineFrames`, `Binding`,
`Randomness`), and the composition of it all (`EndToEnd`): from base seeds to both parties
holding the plain circuit's output.

**Record cryptography (`minitls/`).** Table-driven GHASH and split AES-GCM against NIST SP
800-38D (`Ghash`, `Gcm`), and the TLS 1.2 CBC record layer in both modes (`Padding12`, `Cbc12`,
`CbcAcceptance`).

**Client streams (`client/`, `minitls/client.go`).** Record and handshake reassembly (`Framing`,
`Handshake`, `HandshakeOutcome`), the map between HTTP content and TEE_T's consolidated stream
with the redactions made from it (`Coordinates`, `CoordinateTheorems`, `Positions`,
`Redaction`), and the choice of cipher blocks for a TOPRF proof (`Toprf`, `ToprfTheorems`,
`ProverKeystream`).

**Client lifecycle (`client/`).** Completion, connection epochs and reader generations as atomic
steps, and every interleaving of them (`Lifecycle`, `LifecycleRuns`, `LifecycleHistory`).

Bytes and machine words are bit sequences, least significant bit first, so every shift and mask
of the source is written out. AES, SHA-256, HMAC and the certificate, signature and UTF-8 checks
are function parameters; the statements hold for all of them (for CBC, decryption must invert
encryption). Randomness is a byte string passed in. Objects the source updates in place are
classes; each of their methods is tied to a function on its state, and the claims about whole
runs are made there.

Where code and comment differ, the model follows the code: `ExecuteCompleteProtocol` says the
core protocol ends in the last phase, while the code ends it on entering validation.

One expected property does not hold as first stated. A MAC-then-encrypt record need not decrypt
to plaintext, MAC and padding: when the padding length reaches back over the MAC, the code looks
for the MAC of the empty plaintext at the front. `CbcAcceptance.MteExactly` gives the exact
condition and `CbcAcceptance.OverlapHappens` an input; with a real HMAC it needs a forged tag.

## Model

| member | source | states |
|---|---|---|
| `Plan.NewEngine` | mpc/circuit.go:160-205 | accepts exactly the compiled circuits of the expected shape with known operations, and gives every gate the slot number of the table rows before it |
| `Plan.PlanIsRunnable` | mpc/circuit.go:173-204 | the plan of any well-formed gate list reads only driven wires, fits its table and gives no two gates overlapping table slots |
| `Gates.XorGateCorrect` | mpc/circuit.go:237-244 | XOR and XNOR of active labels are the active labels of the output wire, and the free-XOR offset is kept |
| `Gates.AndGateCorrect` | mpc/circuit.go:246-270 | for all hash values, evaluating the two half-gate rows on active labels yields the output label of the conjunction, and the offset is kept |
| `Gates.InvGateCorrect` | mpc/circuit.go:272-301 | the single row-reduced row opens the output label of the negation |
| `Gates.GateCorrect` | mpc/circuit.go:236-391 | garbling a gate and evaluating it under the same tweak gives the plain gate on labels, for every operation, hash key and input |
| `Circuit.HalfGates` | mpc/circuit.go:246-270 | the in-place half-gate arithmetic is the half-gate construction |
| `Circuit.RowReducedInv` | mpc/circuit.go:272-301 | the in-place inverter arithmetic is the row-reduced inverter |
| `Circuit.Garble` | mpc/circuit.go:207-308 | fails exactly when randomness runs short; otherwise wires and table are the gate-by-gate fold of the plan |
| `Circuit.Evaluate` | mpc/circuit.go:310-351 | refuses exactly the wrong wire or table count, leaving the wires alone; otherwise folds the plan over the labels in place |
| `Circuit.SlotsKept` | mpc/circuit.go:207-308 | later gates never overwrite the rows of earlier ones |
| `Circuit.RowsFound` | mpc/circuit.go:310-351 | the rows the evaluator reads for a gate are the rows the garbler wrote for it, under the tweak it used |
| `Circuit.RunAgrees` | mpc/circuit.go:207-351 | after any number of gates, tweaks agree and every driven wire holds the label of its plaintext bit, with labels one offset apart |
| `Circuit.GarbledCircuitCorrect` | mpc/circuit.go:207-351 | for every circuit, randomness, hash and input, the evaluated outputs are the labels of the plain circuit's outputs |
| `Packing.BytesToBits` | mpc/circuit.go:393-399 | bit i of the result is bit i mod 8 of byte i div 8 |
| `Packing.BitsToBytes` | mpc/circuit.go:401-408 | the result is the one byte string that unpacks to the bits |
| `Packing.BitsInjective` | mpc/circuit.go:393-408 | byte strings of one length that unpack alike are equal, so packing and unpacking are inverses |
| `Labels.LabelRoundTrip` | mpc/label.go:41-51 | label encoding and decoding are inverses, both ways |
| `GateHash.HalfHashIsDoubling` | mpc/circuit.go:353-359 | the shifts and the carry mask are doubling in GF(2^128), then the tweak |
| `GateHash.HashInputsDiffer` | mpc/circuit.go:353-359 | one label under two tweaks, or two labels under one tweak, never give the same cipher input |
| `GateHash.TweakCountsRows` | mpc/circuit.go:231-308 | the tweak of a gate is the number of table rows before it |
| `GateHash.TweaksApart` | mpc/circuit.go:231-308 | no tweak is used by two gates |
| `GateHash.AndTweaks` | mpc/circuit.go:246-270 | the two wires of an AND gate are hashed under its tweak and the next one, so one wire feeding both never gives one cipher input twice |
| `Ots.CheckedIndexEnd` | mpc/index.go:11-20 | succeeds exactly when the range ends within 64 bits, with its exact end |
| `Ots.ValidateSenderOTIndices` | mpc/oprf.go:373-383 | accepts exactly consecutive indices from the start that do not wrap |
| `Ots.ValidateReceiverOTIndices` | mpc/oprf.go:385-395 | accepts exactly consecutive indices from the start that do not wrap |
| `Online.GarblerOnline` | mpc/oprf.go:152-210 | the exact acceptance condition, and a payload and session that belong to one garbling |
| `Online.EvaluatorPrepare` | mpc/oprf.go:214-238 | the exact acceptance condition; corrections are the choice bits against the input bits |
| `Online.GarblerSession.ApplyCorrections` | mpc/oprf.go:242-273 | result and whole new session state: one correction vector, pads consumed |
| `Online.EvaluatorSession.EvaluatorOnline` | mpc/oprf.go:277-331 | result and whole new session state: evaluated once, secrets cleared on success and failure |
| `Online.GarblerSession.VerifyOutput` | mpc/oprf.go:335-371 | result and whole new session state: one verified output after one correction |
| `Online.GarblerSession.Destroy` | mpc/oprf.go:95-109 | afterwards the session accepts nothing and holds nothing |
| `Online.EvaluatorSession.Destroy` | mpc/oprf.go:113-127 | afterwards the session accepts nothing and holds nothing |
| `Online.MaskOpensChosenLabel` | mpc/oprf.go:242-331 | a corrected mask opens the label of the input bit, and the other label stays under the pad the evaluator lacks |
| `OnlineTheorems.VerifyAcceptsExactly` | mpc/oprf.go:335-371 | output bytes are returned exactly when the labels are the labels of those bytes |
| `OnlineTheorems.HonestOutputs` | mpc/oprf.go:277-331 | evaluating the garbled circuit on the chosen labels gives the labels of the plain result |
| `OnlineTheorems.OnlineCorrect` | mpc/oprf.go:152-371 | for every circuit, key, inputs and matching transfers, all four messages succeed and both parties hold the plain circuit's output |
| `OnlineTheorems.GarblerSingleUse` | mpc/oprf.go:242-371 | over any sequence of calls a session accepts at most one correction vector and one output, never an output without a correction |
| `OnlineTheorems.EvaluatorSingleUse` | mpc/oprf.go:277-331 | over any sequence of calls a session returns at most one result |
| `OnlineTheorems.CorrectionsServed` | mpc/oprf.go:242-273 | corrections are served exactly once, for 640 bits; a refusal changes nothing |
| `OnlineTheorems.OutputServed` | mpc/oprf.go:335-371 | labels are served exactly when each is one of its wire's two; the first call after the corrections uses the session up either way |
| `OnlineTheorems.EvaluationServed` | mpc/oprf.go:277-331 | the first call with 640 masks uses the session up, and is served exactly when payload, transfers and table fit |
| `Randomness.SessionBytes` | mpc/oprf.go:152-210 | session identifier, key and garbling bytes are the drawn bytes in order, none used twice |
| `Randomness.GarblingLabels` | mpc/circuit.go:207-230 | the offset and every input label are drawn bytes, but for the forced bit |
| `Transpose.DeltaSwap` | mpc/transpose.go:46-59 | one masked swap exchanges exactly the two off-diagonal bit groups |
| `Transpose.PassComposes` | mpc/transpose.go:46-59 | a pass of half width turns a matrix mirrored at block width into one mirrored at half of it |
| `Transpose.Transpose64` | mpc/transpose.go:46-59 | the network is the antitranspose of every 64 by 64 bit matrix, in place |
| `Transpose.ReadoutTransposes` | mpc/transpose.go:29-44 | reading four antitransposed quadrants backwards gives the transpose |
| `Transpose.Transpose128` | mpc/transpose.go:29-44 | bit c of row r becomes bit r of row c, for every matrix |
| `Transpose.TransposeColumns` | mpc/transpose.go:10-24 | bit c of output label r is bit r of column c, for every matrix and every multiple of 128 rows |
| `Field.MulGeneric` | mpc/ot_extension.go:577-592 | the loop is Horner multiplication by the bits of the first operand |
| `Field.MulXor` | mpc/ot_extension.go:577-592 | multiplication is additive in its first argument |
| `Field.MulIsResidue` | mpc/ot_extension.go:577-592 | the product is the carry-less product reduced by the field polynomial, one power of x at a time |
| `Field.ReduceIsResidue` | mpc/ot_extension.go:594-605 | the shift-and-fold reduction of any 256-bit value is its residue |
| `Field.AcceleratedRefinesGeneric` | mpc/gf128_amd64.go:10-17 | carry-less multiply and reduce equals the portable product for all operands |
| `Extension.PaddedCount` | mpc/ot_extension.go:544-550 | room for the check rows, rounded up by less than one block of 128; fails exactly outside 1 to 2^24 |
| `Extension.ExpandSeed` | mpc/ot_extension.go:552-573 | byte i of the buffer is byte i mod 16 of counter block i div 16, at every length |
| `Extension.ColumnCheck` | mpc/ot_extension.go:442-455 | the loop is the last block plus the chi-combination of the others |
| `Extension.RepetitionColumnChecks` | mpc/ot_extension.go:442-455 | one such check for each of the 128 columns |
| `Extension.HashReceiverOTs` | mpc/ot_extension.go:457-475 | fails exactly on index overflow; otherwise hashes row i under tweak i with index and choice i |
| `Extension.HashSenderOTs` | mpc/ot_extension.go:477-498 | fails exactly on index overflow; otherwise hashes row i and row i plus delta under tweak i |
| `ExtensionProtocol.StartExtensionReceiver` | mpc/ot_extension.go:115-190 | the exact acceptance condition, the commitment and the transfers as a function of seeds and choices |
| `ExtensionProtocol.StartExtensionSender` | mpc/ot_extension.go:194-255 | the exact acceptance condition; keeps the transposed rows and the checks of the corrected columns |
| `ExtensionProtocol.ReceiverState.FinishExtensionReceiver` | mpc/ot_extension.go:259-275 | answers one valid challenge with the folded choices and columns, and is then spent |
| `ExtensionProtocol.SenderState.FinishExtensionSender` | mpc/ot_extension.go:279-313 | releases transfers exactly when unused, bound to this transcript and passing the check, and is then spent |
| `ExtensionProtocol.VerifyChecks` | mpc/ot_extension.go:298-310 | the column-by-column comparison accepts exactly when every column passes |
| `ExtensionTheorems.QFollowsT` | mpc/ot_extension.go:215-229 | for every U, a sender column is the receiver column plus delta times what U encodes |
| `ExtensionTheorems.ExtensionCorrect` | mpc/ot_extension.go:115-255 | for every seeds following delta, choices and count, transfer i of the receiver is the one its choice names of the sender's two, with equal indices |
| `ExtensionTheorems.CheckXor` | mpc/ot_extension.go:442-455 | the check is additive in the column |
| `ExtensionTheorems.ChecksPassExactly` | mpc/ot_extension.go:279-313 | for every U and every proof, acceptance stated column by column on the encoded choices |
| `ExtensionTheorems.HonestColumnsPassExactly` | mpc/ot_extension.go:279-313 | with honest column checks, acceptance holds exactly when every column with its delta bit set folds to the claimed value |
| `ExtensionTheorems.HonestReceiverPasses` | mpc/ot_extension.go:431-440 | an honest receiver is always accepted |
| `ExtensionTheorems.HonestCommitmentValid` | mpc/ot_extension.go:315-348 | the commitment a receiver sends passes the sender's validation |
| `ExtensionTheorems.HonestChallengeValid` | mpc/ot_extension.go:390-407 | the challenge a sender sends passes the receiver's validation |
| `KosCheck.CheckOffBlock` | mpc/ot_extension.go:442-455 | a change in one block moves the check by its product with that block's coefficient, and by itself in the last block |
| `KosCheck.CheckOfZeros` | mpc/ot_extension.go:442-455 | the check of zeros is zero, so the lemma above determines it on every column |
| `KosCheck.OffBlockRefused` | mpc/ot_extension.go:279-313 | honest checks for claimed choices are refused when U encodes other choices in one block of a column with its delta bit set and the change is seen |
| `EndToEnd.RefuseOffBlock` | mpc/ot_extension.go:194-313 | the sender's two calls then end in a refusal and release no transfer |
| `Randomness.ChoiceBytes` | mpc/ot_extension.go:115-190 | the choices are drawn bytes, one bit for each padded row |
| `Randomness.CoefficientBytes` | mpc/ot_extension.go:231-241 | the coefficients are the drawn bytes |
| `Binding.TranscriptBinds` | mpc/ot_extension.go:360-376 | the commitment hash input determines every field of the commitment and the base ciphertexts |
| `Binding.ChallengeBinds` | mpc/ot_extension.go:409-425 | the challenge hash input determines session, commitment and every coefficient |
| `Binding.OneCommitmentPerTranscript` | mpc/ot_extension.go:315-388 | unless the hash collides, one transcript hash is accepted for one commitment, base message and epoch only |
| `Binding.OneChallengePerTranscript` | mpc/ot_extension.go:390-429 | unless the hash collides, one challenge hash is accepted for one challenge only, made for this commitment |
| `Binding.SeedBlocksDiffer` | mpc/ot_extension.go:552-573 | under any permutation no two counters of a seed give the same block |
| `Binding.SeedExpansionBinds` | mpc/ot_extension.go:552-573 | no two seeds, sessions or columns expand from the same hash input |
| `Binding.TransferTweaksDiffer` | mpc/ot_extension.go:607-614 | under any permutation one row is hashed to different pads under different tweaks |
| `Binding.PadsEqualExactly` | mpc/ot_extension.go:607-614 | exactly when two rows hash to one pad, in terms of the cipher alone |
| `Pools.SenderPool.Add` | mpc/pool.go:57-65 | accepts exactly consecutive batches at the end of the table; appends or changes nothing |
| `Pools.SenderPool.Reserve` | mpc/pool.go:92-119 | hands out exactly the next entries or changes nothing |
| `Pools.SenderPool.CompactConsumed` | mpc/pool.go:235-245 | compaction cannot be observed in the index table |
| `Pools.SenderPool.Available` | mpc/pool.go:148-156 | counts the entries never handed out |
| `Pools.SenderPool.Clear` | mpc/pool.go:121-146 | afterwards the table is empty and indices start again at 0 |
| `Pools.ReceiverPool.Add` | mpc/pool.go:271-288 | accepts exactly consecutive batches at the end of the table; appends or changes nothing |
| `Pools.ReceiverPool.ValidateConsumable` | mpc/pool.go:341-372 | true exactly for nonempty ranges fully added and wholly unused |
| `Pools.ReceiverPool.Consume` | mpc/pool.go:316-335 | returns the entries of the range exactly when it is nonempty, added and unused; a failure changes no field |
| `Pools.ReceiverPool.CompactConsumed` | mpc/pool.go:436-451 | compaction cannot be observed in the index table |
| `Pools.ReceiverPool.AdvanceTo` | mpc/pool.go:376-397 | marks exactly the unused indices below the frontier as spent, or changes nothing |
| `Pools.ReceiverPool.Available` | mpc/pool.go:411-418 | counts exactly the unused entries |
| `Pools.ReceiverPool.Clear` | mpc/pool.go:399-409 | afterwards the table is empty and indices start again at 0 |
| `Pools.ValidatePoolAgreement` | mpc/pool.go:453-461 | true exactly when totals agree and the frontiers meet |
| `PoolRuns.EveryRun` | mpc/pool.go:57-119 | in every interleaving of adds, reservations, deliveries in any order and resumes, pending and spent ranges partition what was reserved |
| `PoolRuns.DeliverExactly` | mpc/pool.go:316-335 | a reserved range is consumable exactly when the receiver has added it |
| `PoolRuns.RedeliverRefused` | mpc/pool.go:347-372 | a delivered range is never consumed again |
| `PoolRuns.ServedEntriesMatch` | mpc/pool.go:57-119 | both sides of a range hold matching transfers |
| `PoolRuns.ResumeAgrees` | mpc/pool.go:376-461 | once totals agree, advancing to the sender's frontier succeeds and the pools agree |
| `PoolRuns.ReservationsAreAPrefix` | mpc/pool.go:92-119 | all reservations of a run concatenate to a prefix of the added entries, so no index is issued twice |
| `EndToEnd.SeedsToResult` | mpc/oprf.go:152-371 | from base seeds through extension and any 640 consecutive transfers to both parties holding the plain circuit's output |
| `EndToEnd.Extend` | mpc/ot_extension.go:115-313 | the four extension messages between honest parties succeed and yield matching, consecutively numbered transfers |
| `EndToEnd.Precompute` | mpc/pool.go:57-89 | committing such a batch to paired pools never fails and keeps them paired |
| `EndToEnd.Oprf` | mpc/oprf.go:152-371 | one evaluation on paired pools: reserve, consume, four messages; both outputs are the plain result and the pools stay paired |
| `Frames.CommitmentRoundTrip` | mpc/ot_extension_serialize.go:16-79 | decoding undoes encoding of every accepted KOC2 commitment |
| `Frames.CommitmentRestored` | mpc/ot_extension_serialize.go:47-79 | encoding undoes decoding of every accepted byte string, so no two decode alike |
| `Frames.CommitmentTrailing` | mpc/ot_extension_serialize.go:66-69 | bytes after a commitment are refused |
| `Frames.MarshalExtensionChallenge` | mpc/ot_extension_serialize.go:82-100 | the filled buffer is the KCH2 frame; refuses exactly an empty or wrongly hashed challenge |
| `Frames.UnmarshalExtensionChallenge` | mpc/ot_extension_serialize.go:104-132 | the loop reads the frame's coefficients; all refusals as in the source |
| `Frames.ChallengeRoundTrip` | mpc/ot_extension_serialize.go:82-132 | decoding undoes encoding exactly when there are at most 131072 coefficients, and refuses otherwise |
| `Frames.ChallengeRestored` | mpc/ot_extension_serialize.go:104-132 | encoding undoes decoding of every accepted byte string |
| `Frames.MarshalExtensionProof` | mpc/ot_extension_serialize.go:135-148 | the filled buffer is the KPR2 frame |
| `Frames.UnmarshalExtensionProof` | mpc/ot_extension_serialize.go:151-162 | the loop reads the frame's 128 checks |
| `Frames.ProofRoundTrip` | mpc/ot_extension_serialize.go:135-162 | decoding undoes encoding |
| `Frames.ProofRestored` | mpc/ot_extension_serialize.go:151-162 | encoding undoes decoding |
| `Frames.BeginRoundTrip` | mpc/precompute_wire.go:84-127 | decoding undoes encoding of every accepted KOB2 request |
| `Frames.BeginRestored` | mpc/precompute_wire.go:104-127 | encoding undoes decoding of every accepted byte string |
| `Frames.BaseExact` | mpc/precompute_wire.go:129-171 | a KBS2 or KBC2 frame is accepted for a session exactly when it is that session's encoding of the message |
| `Frames.PrecomputeCommitmentRoundTrip` | mpc/precompute_wire.go:173-209 | decoding undoes encoding of every accepted KOF2 frame |
| `Frames.PrecomputeCommitmentRestored` | mpc/precompute_wire.go:192-209 | encoding undoes decoding of every accepted byte string |
| `Frames.PrecomputeCommitmentTrailing` | mpc/precompute_wire.go:192-209 | bytes after a KOF2 frame are refused |
| `Frames.RequestTrailing` | mpc/precompute_wire.go:104-112 | bytes after a KOB2, KCH2 or KPR2 frame are refused |
| `Frames.CommitmentSizeIs` | mpc/precompute_wire.go:289-295 | the declared commitment size is the encoded length |
| `Frames.ChallengeSizeIs` | mpc/precompute_wire.go:297-303 | the declared challenge size is the encoded length |
| `Frames.CommitmentForExact` | mpc/precompute_wire.go:214-245 | the early checks at frame offsets refuse nothing the full decoder accepts for this batch, and nothing else gets through |
| `Frames.ChallengeForExact` | mpc/precompute_wire.go:249-278 | as above for challenges, with the exact coefficient count |
| `Frames.ProofForExact` | mpc/precompute_wire.go:282-287 | as above for proofs |
| `Frames.PhaseFitsDecoder` | mpc/precompute_wire.go:68-82 | a request some decoder accepts is dispatched to that decoder |
| `Frames.CommitmentLayout` | mpc/ot_extension_serialize.go:16-44 | every field of a KOC2 frame at its offset |
| `Frames.ChallengeLayout` | mpc/ot_extension_serialize.go:82-100 | every field of a KCH2 frame at its offset |
| `Frames.ProofLayout` | mpc/ot_extension_serialize.go:135-148 | every field of a KPR2 frame at its offset |
| `Frames.BeginLayout` | mpc/precompute_wire.go:84-102 | every field of a KOB2 frame at its offset |
| `Frames.PrecomputeCommitmentLayout` | mpc/precompute_wire.go:173-190 | every field of a KOF2 frame at its offset |
| `OnlineFrames.CorrectionsExact` | mpc/wire.go:9-25 | encode and decode are inverse on corrections, in both directions |
| `OnlineFrames.OTMasksExact` | mpc/wire.go:27-57 | encode and decode are inverse on masks, in both directions |
| `OnlineFrames.OutputLabelsExact` | mpc/wire.go:59-88 | encode and decode are inverse on output labels, in both directions |
| `OnlineFrames.MarshalOnlinePayload` | mpc/serialize.go:16-49 | the buffer filled at a running offset is the MPC1 frame |
| `OnlineFrames.UnmarshalOnlinePayload` | mpc/serialize.go:52-90 | the loops read the frame; all refusals as in the source |
| `OnlineFrames.PayloadRoundTrip` | mpc/serialize.go:16-100 | decoding undoes encoding, and the declared size is the encoded length |
| `OnlineFrames.PayloadRestored` | mpc/serialize.go:52-90 | encoding undoes decoding of every accepted byte string |
| `OnlineFrames.PayloadLayout` | mpc/serialize.go:28-48 | every field of an MPC1 frame at its offset |
| `Ghash.ReverseBitsIs` | minitls/crypto.go:838-842 | the nibble trick reverses four bits |
| `Ghash.DoubleIsMulX` | minitls/crypto.go:848-858 | doubling is multiplication by x in GCM bit order |
| `Ghash.ReductionRow` | minitls/crypto.go:860-863 | each constant of the reduction table is the spill of its four bits reduced by the polynomial |
| `Ghash.ShiftFourIsMulX4` | minitls/crypto.go:865-887 | shift by four and table fold is multiplication by the fourth power of x |
| `Ghash.BuildTable` | minitls/crypto.go:808-823 | entry i of the table is the key times the reversed nibble i |
| `Ghash.TableLookup` | minitls/crypto.go:865-887 | a lookup is the product of the key with the nibble's polynomial |
| `Ghash.GhashMul` | minitls/crypto.go:865-887 | 32 table steps are the field product, for every operand |
| `Ghash.GhashUpdate` | minitls/crypto.go:889-908 | absorbs the data block by block with the last one zero-padded, for every length |
| `Ghash.Hash` | minitls/crypto.go:808-835 | table-driven GHASH is the bitwise definition over every key and list of slices, each padded on its own |
| `Gcm.SlicesAreOneString` | minitls/crypto.go:738-799 | padding the slices one by one is GHASH of the standard's padded concatenation (section 7.1 of NIST SP 800-38D) |
| `Gcm.CiphertextIsGcm` | minitls/crypto.go:397-461 | counter mode from 2 is GCM's ciphertext, with its 32-bit counter, up to the standard's limit |
| `Gcm.SecretsAreGcm` | minitls/crypto.go:519-533 | the tag secrets are the hash subkey and the encrypted pre-counter block |
| `Gcm.ComputeTagFromSecrets` | minitls/crypto.go:738-799 | fails exactly on secrets of the wrong length; otherwise the masked GHASH of data, ciphertext and lengths |
| `Gcm.SplitIsGcm` | minitls/crypto.go:397-799 | ciphertext and tag of the split computation are those of AES-GCM, for every key, nonce, data and plaintext |
| `Gcm.SplitAEAD.EncryptWithoutTag` | minitls/crypto.go:397-461 | fails exactly at the last sequence number or a bad key size, leaving the sequence; otherwise ciphertext, secrets and next sequence |
| `Gcm.NonceInjective` | minitls/crypto.go:475-515 | no two sequence numbers share a nonce, in TLS 1.2 or 1.3 |
| `Gcm.NonceExactly` | minitls/crypto.go:475-515 | every nonce byte by byte: in TLS 1.3 the IV plus the sequence number, the IV itself for record 0; in TLS 1.2 four IV bytes and the number |
| `ProverKeystream.CounterNamesBlock` | minitls/crypto.go:685-693 | the counter of block n names the keystream that block n was encrypted with |
| `Padding12.ExtractTLS12Padding` | minitls/cbc12.go:380-404 | the mask arithmetic is the plain padding rule of section 6.2.3.2 of RFC 5246 |
| `Cbc12.AppendTLSPadding` | minitls/cbc12.go:365-372 | the loop appends p+1 bytes of value p up to a whole block |
| `Cbc12.PaddingRoundTrip` | minitls/cbc12.go:365-404 | what was appended is recognised and removed, for every length |
| `Cbc12.CbcRoundTrip` | minitls/cbc12.go:224-353 | chaining undone by chaining, for every permutation, IV and whole number of blocks |
| `Cbc12.RecordRoundTrip` | minitls/cbc12.go:224-353 | in both modes a sealed record of up to 16384 bytes opens to its plaintext |
| `Cbc12.PayloadFits` | minitls/cbc12.go:266-268 | the payload-size error cannot occur for a legal plaintext |
| `Cbc12.HeaderIsValid` | minitls/cbc12.go:355-363 | the header written is accepted by the reader's header check |
| `Cbc12.Context.EncryptRecord` | minitls/cbc12.go:224-278 | the exact failure conditions, the record, and a sequence number that moves only on success |
| `Cbc12.Context.DecryptRecord` | minitls/cbc12.go:283-353 | the result, and a sequence number that moves only on success |
| `Cbc12.StreamRoundTrip` | minitls/cbc12.go:224-353 | any sequence of records, with rejected junk anywhere in between, is read back in order |
| `CbcAcceptance.EtmExactly` | minitls/cbc12.go:283-337 | encrypt-then-MAC accepts exactly a fragment followed by its MAC that decrypts to plaintext and well-formed padding |
| `CbcAcceptance.MteExactly` | minitls/cbc12.go:283-353 | MAC-then-encrypt accepts exactly plaintext, its MAC and well-formed padding, or padding reaching into the MAC of the empty plaintext |
| `CbcAcceptance.OverlapHappens` | minitls/cbc12.go:339-348 | a MAC function for which that overlap is accepted although no such split exists |
| `CbcAcceptance.PaddingExactly` | minitls/cbc12.go:380-404 | padding is good exactly when the removed bytes all hold their number less one |
| `CbcAcceptance.EncryptsBlockwise` | minitls/cbc12.go:224-278 | each ciphertext block is the cipher of its plaintext block plus the block before |
| `CbcAcceptance.DecryptsBlockwise` | minitls/cbc12.go:321-323 | each plaintext block is the inverse cipher of its block plus the block before |
| `CbcAcceptance.HeaderExactly` | minitls/cbc12.go:355-363 | accepted headers are exactly version 3.3 with the payload's length, up to 18432 |
| `CbcAcceptance.SealedShape` | minitls/cbc12.go:224-278 | a record begins with the explicit IV and has the least whole-block length |
| `Binding.MacBinds` | minitls/cbc12.go:421-454 | the MAC input determines sequence number, type, length and data |
| `Framing.RecordState.ProcessTLSRecordFromData` | client/tls.go:504-538 | emits the whole records at the front of what was buffered and keeps the rest |
| `Framing.FramePackets` | client/tcp.go:223-300 | the inner framing loop emits the same records and keeps the same rest |
| `Framing.SplitAppend` | client/tls.go:504-538 | framing in two steps is framing at once |
| `Framing.Conserved` | client/tls.go:504-538 | emitted records followed by the buffer are exactly the bytes received, and the buffer holds no whole record |
| `Framing.RecordsAreWhole` | client/tcp.go:223-300 | every emitted packet is one complete record |
| `Framing.FragmentationIndependent` | client/tls.go:504-538 | for every way of cutting the stream into reads, the emitted records and the buffer are the same |
| `Framing.FramersCompose` | client/tcp.go:223-300 | packets the first framer emits pass the second one unchanged |
| `Framing.EncodedIsWhole` | client/tls.go:504-538 | every fragment of less than 65536 bytes, laid out by the standard, is one record to the framer |
| `Handshake.MessagesHandledInOrder` | minitls/client.go:288-329 | a stream of well-formed messages is handled message by message, none split or joined |
| `Handshake.Client.ProcessHandshakeBuffer` | minitls/client.go:288-329 | the loop is the message-by-message fold over the buffer, with its three outcomes |
| `Handshake.AbsorbAppend` | minitls/client.go:288-329 | absorbing in two steps is absorbing at once |
| `Handshake.FragmentationIndependent` | minitls/client.go:288-329 | for every way of cutting the messages into records, outcome, flags and transcript up to Finished are the same |
| `Handshake.TranscriptConserved` | minitls/client.go:332-418 | unless the handshake fails, transcript and leftover are exactly what came in |
| `Handshake.DoneIsAuthenticated` | minitls/client.go:332-418 | a finished transcript holds an accepted certificate, then a signature accepted over all before it, then a Finished accepted over all before it |
| `HandshakeOutcome.OutcomeAt` | minitls/client.go:332-418 | the first refused or Finished message decides: failure, or completion with all bytes so far in the transcript and exact flags |
| `HandshakeOutcome.FailsExactly` | minitls/client.go:332-418 | the handshake fails exactly at a rejected certificate, an early or rejected signature, or an early or rejected Finished |
| `HandshakeOutcome.GoesOn` | minitls/client.go:336-414 | every other message is taken into the transcript and the handshake goes on |
| `HandshakeOutcome.CompletesWhenProper` | minitls/client.go:288-418 | accepted certificate, signature and Finished, with any other messages between and any cut into records, end in completion |
| `HandshakeOutcome.HeaderDecides` | minitls/client.go:290-312 | a length over 65536 is refused at the header; an incomplete message is waited for |
| `Coordinates.RemoveTLSPadding` | client/tls.go:444-493 | the backward scan finds the last non-zero byte; TLS 1.2 data passes unchanged |
| `Coordinates.StripRoundTrip` | client/tls.go:456-493 | content, type byte and any amount of zero padding come apart exactly |
| `Coordinates.Tls12TakenWhole` | client/tls.go:452-455 | TLS 1.2 data is taken whole as type 23 and fills the stream whole |
| `Coordinates.Tls13Fills` | client/verification.go:150-179 | an unpadded TLS 1.3 record fills its place in the stream with content alone |
| `Coordinates.Response.CollectRecord` | client/tls.go:312-335 | records are filed under fresh sequence numbers |
| `Coordinates.Response.ReceiveStream` | client/verification.go:123-191 | the new maps in every case; parsed records always fit the trimmed ciphertext they came from |
| `Coordinates.Analyzer.ProcessSingleTLSRecord` | client/redaction.go:122-203 | fails exactly on missing or mismatched records, changing nothing; otherwise the whole new result |
| `Coordinates.Analyzer.AnalyzeTLSRecords` | client/redaction.go:71-119 | succeeds exactly when every record is usable, with the fold over all of them |
| `CoordinateTheorems.AnalysisLaidOut` | client/redaction.go:71-203 | mappings tile the HTTP content; their ciphertext stands at increasing disjoint stream positions, apart from protocol redactions; together they account for every stream byte |
| `Positions.HttpPositionToTlsPosition` | client/verification_bundle.go:536-547 | the search is the first mapping that holds the position |
| `Positions.FindTLSPositions` | client/redaction.go:268-293 | the loop collects the overlaps with every mapping |
| `Positions.FindIsImage` | client/redaction.go:268-293 | for every range, in or out of bounds, the ranges found expand to the pointwise image of its positions, in order |
| `Positions.LengthConserved` | client/redaction.go:268-293 | a range inside the content keeps its total length |
| `Positions.AtIncreases` | client/verification_bundle.go:536-547 | later HTTP bytes map to later stream positions |
| `Positions.LocatedByte` | client/verification_bundle.go:536-547 | an HTTP byte is the plaintext of the stream byte it maps to |
| `Redaction.MapHTTPToTLSRedactions` | client/redaction.go:256-265 | the ranges of all HTTP redactions, in order |
| `Redaction.ConsolidateResponseRedactionRanges` | shared/types.go:414-451 | covers exactly the same positions for each hash kind; sorted, and neighbours of one kind never touch |
| `Redaction.CountCovered` | client/redaction.go:38-45 | the sum of consolidated lengths is the number of redacted positions |
| `Redaction.RedactsExactly` | client/redaction.go:16-58 | for every response and redaction list, an HTTP byte's stream position is redacted exactly when the byte was asked for |
| `Toprf.FindSegments` | client/verification_bundle.go:603-640 | the segments of exactly the overlapping packets |
| `Toprf.DataBlocks` | client/verification_bundle.go:659-683 | all blocks of all segments, in order |
| `Toprf.SelectBlocks` | client/verification_bundle.go:689-746 | the first required blocks, or the data padded in front and then behind |
| `Toprf.ExtractBlocks` | client/verification_bundle.go:748-778 | nonces, counters, boundaries and concatenated ciphertext of the blocks |
| `Toprf.GetIdealBlocksForTOPRF` | client/verification_bundle.go:550-811 | the whole choice with all refusals and 32-bit conversions |
| `Toprf.CalculateBlockAlignedStreamPosition` | client/verification_bundle.go:814-864 | the position computed from the first packet with the nonce and the counter |
| `ToprfTheorems.DataReaches` | client/verification_bundle.go:603-683 | the data blocks of contiguous packets form one gapless chain |
| `ToprfTheorems.ChoiceIsSlice` | client/verification_bundle.go:550-864 | every success has exactly the required blocks, their ciphertext is one slice of the stream, and its start is recovered from the first nonce and counter |
| `ToprfTheorems.BlocksDescribeInput` | client/verification_bundle.go:748-778 | cutting the input at the declared boundaries gives, block by block, the stream bytes that nonce and counter name |
| `ToprfTheorems.CoverageExact` | client/verification_bundle.go:689-785 | a success covers the whole range exactly when its data blocks number at most the required ones; the named location then shows the range's bytes |
| `ToprfTheorems.OnePacketCovered` | client/verification_bundle.go:550-811 | a range of 1 to 62 bytes in one packet is covered whole on success, and succeeds exactly when the packet has enough blocks |
| `ToprfTheorems.LeastBlocks` | client/oprf.go:489-507 | 5 blocks of 16 and 2 of 64 are the least that hold every range of up to 62 bytes |
| `ToprfTheorems.SixtyTwoBytes` | client/verification_bundle.go:580-584 | ranges over 62 bytes are refused; up to 62 bytes in a packet of 80 or 128 bytes are covered |
| `ToprfTheorems.FrontFirst` | client/verification_bundle.go:698-744 | blocks behind the data are used only when none is left in front |
| `ProverKeystream.BlockDecrypts` | client/verification_bundle.go:753-778 | each chosen block decrypts under the nonce and counter given for it |
| `Lifecycle.Client.AdvanceToPhase` | client/client.go:540-557 | the locked region: phases only rise, and crossing into validation claims completion |
| `Lifecycle.Client.ClaimProtocolCompletion` | client/client.go:594-596 | succeeds for the first caller only |
| `Lifecycle.Client.PublishProtocolCompletion` | client/client.go:605-613 | only the first call can put a value in the channel |
| `Lifecycle.Client.AcceptSignedMessage` | client/signed_message_validation.go:34-49 | records one valid message per role and refuses the second |
| `Lifecycle.Client.PublishConnection` | client/websocket.go:95-116 | publishes only in the epoch it was dialled in, while open and unconnected, under a new generation |
| `Lifecycle.Client.DetachConnections` | client/websocket.go:647-672 | one cleanup at a time: new epoch, both sockets detached |
| `Lifecycle.Client.HandleTEEReadFailure` | client/websocket.go:714-729 | acts only for the current socket and generation |
| `LifecycleRuns.EveryRun` | client/client.go:540-642 | the invariant of every reachable state of every interleaving |
| `LifecycleRuns.CompletionSafe` | client/client.go:582-613 | at most one completion is published, and success only after both signed messages were accepted |
| `LifecycleHistory.FlagsTellHistory` | client/signed_message_validation.go:34-49 | along every run a role's flag is set exactly by accepting that role's own message |
| `LifecycleHistory.SuccessAfterBoth` | client/client.go:582-592 | every run that publishes success contains the acceptance of both roles' messages |
| `LifecycleHistory.SuccessReached` | client/client.go:540-592 | with both accepted and nothing claimed, a check publishes success and enters phase 5 |
| `LifecycleRuns.ClaimNotLost` | client/websocket.go:756-762 | a claimed completion is published, or exactly one goroutine is left to publish it |
| `LifecycleHistory.ClaimerFinishes` | client/websocket.go:756-780 | whoever claimed completion can publish it in at most four steps of its own |
| `LifecycleHistory.FirstClaims` | client/client.go:594-642 | termination, Close and watchdog: the first claims, later ones do not |
| `LifecycleHistory.DialStartsExactly` | client/websocket.go:25-39 | dialling begins exactly in an open, unconnected client without a cleanup under way |
| `LifecycleHistory.DialPublishesExactly` | client/websocket.go:95-116 | a dial is published, under the next generation, exactly when its epoch is current and nothing forbids it |
| `LifecycleHistory.CleanupDetaches` | client/websocket.go:647-672 | a cleanup detaches both sockets and starts a new epoch |
| `LifecycleHistory.CurrentFailureTerminates` | client/websocket.go:714-735 | a read failure of the socket in use closes the client and starts termination |
| `LifecycleHistory.ClosingIsMarked` | client/websocket.go:609-612 | Close marks the client closing before it claims, a termination before it detaches |
| `LifecycleHistory.ClosedForGood` | client/websocket.go:95-105 | once a closing client is detached no run connects it again |
| `LifecycleRuns.NothingTakenBack` | client/client.go:540-613 | along every run phase, published value, epoch and closing flag never go back, and a closing client publishes no socket |
| `LifecycleRuns.OldDialNeverPublished` | client/websocket.go:21-123 | a socket dialled before a cleanup is in use at no time after it |
| `LifecycleRuns.CleanupOutdates` | client/websocket.go:647-672 | every cleanup outdates every dial under way |
| `LifecycleRuns.CleanupStales` | client/websocket.go:647-690 | every cleanup makes every reader stale |
| `LifecycleRuns.StaleStays` | client/websocket.go:714-729 | a stale reader stays stale in every continuation |
| `LifecycleRuns.StaleFailureIsSilent` | client/websocket.go:714-724 | a stale reader's failure changes nothing but that the reader ends |

## Left out

- Base oblivious transfers (`mpc/base_ot.go`): curve arithmetic of an outside library; that each selected seed follows its delta bit is a precondition of the extension.
- The compiled AES-CMAC circuit: any well-formed gate list of the same input and output widths is taken instead.
- Security of the hashes, masks and checks: only functional and algebraic facts are stated.
- Wiping of secrets beyond the fields shown, scratch pools, slice capacity and payload release.
- Pool extension claims and their thresholds (`mpc/pool.go:174-233`): flags without further state.
- The ChaCha20-Poly1305 branches of `minitls/crypto.go`: library calls.
- Key schedule, certificates, HelloRetryRequest and `readHandshakeMessage`, whose total cap depends on how records are cut.
- Network reads, acknowledgements and send failures around the framing loop of `client/tcp.go`.
- Checks on authenticated CBC responses before they are filed (`client/verification.go:15-86`); the analysis covers such responses once filed.
- HTTP parsing and provider rules that choose the redactions: the list of HTTP ranges is arbitrary.
- `oprfmpc/`, attestation, signatures, protobuf, proxies, native networking, exports and loggers.
- Padding12.ExtractTLS12Padding: payloads of up to 2^31 bytes, far above any record, because the mask is the sign of a 32-bit difference.
- Gcm.ComputeTagFromSecrets: lengths whose bit counts fit 64 bits, beyond which the length block wraps.
- Gcm.CiphertextIsGcm: plaintexts up to the limit of section 5.2.1.1 of NIST SP 800-38D, beyond which the 32-bit counter repeats.
- Handshake.Client.ProcessHandshakeBuffer: after a failure only the failure is modelled, not which fields had already changed.
- Toprf.GetIdealBlocksForTOPRF: packets lie inside the stream, since the source panics when it slices outside it; logging and the caller-filled TOPRF fields are not modelled.
- Redaction.ConsolidateResponseRedactionRanges: the library's sort is an argument, any arrangement of the ranges ordered by start.
- LifecycleRuns.EveryRun: phases after validation are entered only once a success has been received, as the one caller does; waiting for readers is dropped, which only adds interleavings.
- OnlineFrames.PayloadRoundTrip: table counts below 2^32, the width of the count field.
