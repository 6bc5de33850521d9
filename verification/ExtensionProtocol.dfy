/** The two parties of the OT extension, message by message (mpc/ot_extension.go). */
module ExtensionProtocol {
  import opened Words
  import opened Labels
  import opened Results
  import opened Packing
  import opened BigEndian
  import opened Ots
  import opened Transpose
  import opened Field
  import opened Extension

  // The matrices as functions of the seeds

  function TColumns(o: Oracles, base: seq<SeedPair>, sessionId: Bytes32, n: nat): (t: seq<Bytes>)
    requires |base| == BASE_OT_COUNT
    ensures IsColumns(t, n)
    ensures forall c :: 0 <= c < BASE_OT_COUNT ==> t[c] == Expand(o, base[c].zero, sessionId, c, n)
  {
    seq(BASE_OT_COUNT, c requires 0 <= c < BASE_OT_COUNT => Expand(o, base[c].zero, sessionId, c, n))
  }

  function UColumn(o: Oracles, pair: SeedPair, sessionId: Bytes32, c: nat, choices: Bytes): (u: Bytes)
    ensures |u| == |choices|
  {
    XorBytes(XorBytes(Expand(o, pair.zero, sessionId, c, |choices|), Expand(o, pair.one, sessionId, c, |choices|)), choices)
  }

  function UColumns(o: Oracles, base: seq<SeedPair>, sessionId: Bytes32, choices: Bytes): (u: seq<Bytes>)
    requires |base| == BASE_OT_COUNT
    ensures IsColumns(u, |choices|)
    ensures forall c :: 0 <= c < BASE_OT_COUNT ==> u[c] == UColumn(o, base[c], sessionId, c, choices)
  {
    seq(BASE_OT_COUNT, c requires 0 <= c < BASE_OT_COUNT => UColumn(o, base[c], sessionId, c, choices))
  }

  function QColumn(o: Oracles, seed: Label, bit: bool, sessionId: Bytes32, c: nat, u: Bytes): (q: Bytes)
    ensures |q| == |u|
  {
    var t := Expand(o, seed, sessionId, c, |u|);
    if bit then XorBytes(t, u) else t
  }

  function QColumns(o: Oracles, selected: seq<Label>, delta: Label, sessionId: Bytes32, u: Bytes, n: nat): (q: seq<Bytes>)
    requires |selected| == BASE_OT_COUNT && |u| == BASE_OT_COUNT * n
    ensures IsColumns(q, n)
    ensures forall c :: 0 <= c < BASE_OT_COUNT ==>
              q[c] == QColumn(o, selected[c], delta.Bit(c), sessionId, c, Column(u, n, c))
  {
    seq(BASE_OT_COUNT, c requires 0 <= c < BASE_OT_COUNT =>
      QColumn(o, selected[c], delta.Bit(c), sessionId, c, Column(u, n, c)))
  }

  function Rows(columns: seq<Bytes>, n: nat): (rows: seq<Label>)
    requires IsColumns(columns, n)
    ensures |rows| == 8 * n && forall r :: 0 <= r < 8 * n ==> rows[r] == Row(columns, n, r)
  {
    seq(8 * n, r requires 0 <= r < 8 * n => Row(columns, n, r))
  }

  /** `transposeColumns` into a fresh buffer. */
  method TransposeMatrix(matrix: Bytes, n: nat) returns (rows: seq<Label>)
    requires |matrix| == BASE_OT_COUNT * n && n % 16 == 0
    ensures IsColumns(ColumnsOf(matrix, n), n) && rows == Rows(ColumnsOf(matrix, n), n)
  {
    hide Row, Column, Transposed;
    var dst := new Label[8 * n](_ => NONE);
    TransposeColumns(matrix, n, dst);
    rows := dst[..];
    forall r | 0 <= r < 8 * n
      ensures rows[r] == Row(ColumnsOf(matrix, n), n, r)
    {
      TransposedRows(matrix, n, rows, r);
    }
  }

  // The receiver

  predicate ReceiverStarts(o: Oracles, rng: Bytes, epoch: Bytes, cipher: Bytes, sessionId: Bytes32, start: Index, count: int) {
    && ValidEpoch(o, epoch) && ValidBaseCipher(cipher, sessionId)
    && PaddedCount(count).Ok? && CheckedIndexEnd(start, count).Ok?
    && |rng| >= PaddedCount(count).value / 8
  }

  /** The receiver's choices are the first bytes of its randomness. */
  function Choices(rng: Bytes, count: int): (b: Bytes)
    requires PaddedCount(count).Ok? && |rng| >= PaddedCount(count).value / 8
    ensures |b| == PaddedCount(count).value / 8
  {
    rng[..PaddedCount(count).value / 8]
  }

  function SentCommitment(o: Oracles, base: seq<SeedPair>, choices: Bytes, epoch: Bytes, cipher: Bytes,
                          sessionId: Bytes32, start: Index, count: U32, padded: U32): Commitment
    requires |base| == BASE_OT_COUNT
  {
    var c := Commitment(sessionId, start, count, padded, EpochHash(o, epoch), Zeros(32),
                        Flat(UColumns(o, base, sessionId, choices)));
    c.(transcript := Transcript(o, cipher, c))
  }

  class ReceiverState {
    var commitment: Commitment
    var choices: Bytes
    var tMatrix: Bytes
    var used: bool

    constructor (c: Commitment, choices: Bytes, tMatrix: Bytes)
      ensures commitment == c.(u := []) && this.choices == choices && this.tMatrix == tMatrix && !used
    {
      commitment, this.choices, this.tMatrix, used := c.(u := []), choices, tMatrix, false;
    }

    /** Until it is used, the state holds matrices of the committed shape. */
    ghost predicate Valid()
      reads this
    {
      !used ==>
        && commitment.paddedCount >= KOS_CHECK_OTS && commitment.paddedCount % 128 == 0
        && |choices| == commitment.paddedCount / 8
        && |tMatrix| == BASE_OT_COUNT * (commitment.paddedCount / 8)
    }

    method Destroy()
      modifies this
      ensures used && Valid() && choices == [] && tMatrix == []
    {
      used, choices, tMatrix := true, [], [];
    }

    method FinishExtensionReceiver(o: Oracles, challenge: Option<Challenge>) returns (r: Result<Proof>)
      requires Valid()
      modifies this
      ensures used && Valid()
      ensures r.Ok? <==> !old(used) && challenge.Some? && ValidChallenge(o, old(commitment), challenge.value)
      ensures r.Ok? ==>
                var n := old(commitment).paddedCount / 8;
                var chi := challenge.value.chi;
                r.value == Proof(old(commitment).sessionId, challenge.value.transcript, Check(old(choices), chi),
                                 Checks(ColumnsOf(old(tMatrix), n), n, chi))
      ensures !old(used) ==> choices == [] && tMatrix == []
    {
      hide Check, Checks, Column, ChallengeTranscript;
      if used {
        return Err;
      }
      used := true;
      var c, bits, matrix := commitment, choices, tMatrix;
      choices, tMatrix := [], [];
      if challenge.None? || !ValidChallenge(o, c, challenge.value) {
        return Err;
      }
      var chi := challenge.value.chi;
      var x := ColumnCheck(bits, chi);
      var t := RepetitionColumnChecks(matrix, c.paddedCount, chi);
      r := Ok(Proof(c.sessionId, challenge.value.transcript, x, t));
    }
  }

  /** One column of T and U: expand both seeds, then add the choices. */
  method CommitColumn(o: Oracles, pair: SeedPair, sessionId: Bytes32, col: nat, choices: Bytes) returns (t: Bytes, u: Bytes)
    ensures t == Expand(o, pair.zero, sessionId, col, |choices|)
    ensures u == UColumn(o, pair, sessionId, col, choices)
  {
    hide Expand, XorByte;
    var t0 := new Byte[|choices|](_ => ZERO8);
    var tmp := new Byte[|choices|](_ => ZERO8);
    ExpandSeed(o, pair.zero, sessionId, col, t0);
    ExpandSeed(o, pair.one, sessionId, col, tmp);
    t := t0[..];
    u := AddThree(t, tmp[..], choices);
  }

  /** The byte loop `u[i] = a[i] ^ b[i] ^ c[i]`. */
  method AddThree(a: Bytes, b: Bytes, c: Bytes) returns (u: Bytes)
    requires |a| == |b| == |c|
    ensures u == XorBytes(XorBytes(a, b), c)
  {
    hide XorByte;
    u := [];
    for i := 0 to |a|
      invariant |u| == i
      invariant forall k :: 0 <= k < i ==> u[k] == XorByte(XorByte(a[k], b[k]), c[k])
    {
      u := u + [XorByte(XorByte(a[i], b[i]), c[i])];
    }
  }

  method StartExtensionReceiver(o: Oracles, rng: Bytes, base: seq<SeedPair>, epoch: Bytes, cipher: Bytes,
                                sessionId: Bytes32, start: Index, count: int)
    returns (state: ReceiverState?, commitment: Option<Commitment>, ots: seq<ReceiverOT>)
    requires |base| == BASE_OT_COUNT
    ensures state != null <==> ReceiverStarts(o, rng, epoch, cipher, sessionId, start, count)
    ensures commitment.Some? <==> state != null
    ensures state != null ==>
              var padded := PaddedCount(count).value;
              var choices := Choices(rng, count);
              var t := TColumns(o, base, sessionId, padded / 8);
              && commitment.value == SentCommitment(o, base, choices, epoch, cipher, sessionId, start, count, padded)
              && ots == ReceiverBatch(o, Rows(t, padded / 8), choices, start, count)
              && fresh(state) && state.Valid() && !state.used
              && state.commitment == commitment.value.(u := [])
              && state.choices == choices && state.tMatrix == Flat(t)
  {
    hide Expand, UColumn, Transcript, EpochHash, Row, Flat, Column, BitsOf, Tmmo;
    if !ValidEpoch(o, epoch) || !ValidBaseCipher(cipher, sessionId) {
      return null, None, [];
    }
    var p := PaddedCount(count);
    if p.Err? || CheckedIndexEnd(start, count).Err? {
      return null, None, [];
    }
    var padded := p.value;
    var byteRows := padded / 8;
    if |rng| < byteRows {
      return null, None, [];
    }
    var choices := rng[..byteRows];
    var t, u := CommitColumns(o, base, sessionId, choices);
    ColumnsOfFlat(TColumns(o, base, sessionId, byteRows), byteRows);
    var c := Commitment(sessionId, start, count, padded, EpochHash(o, epoch), Zeros(32), u);
    c := c.(transcript := Transcript(o, cipher, c));
    var raw := TransposeMatrix(t, byteRows);
    var hashed := HashReceiverOTs(o, raw, choices, start, count);
    state := new ReceiverState(c, choices, t);
    return state, Some(c), hashed.value;
  }

  method CommitColumns(o: Oracles, base: seq<SeedPair>, sessionId: Bytes32, choices: Bytes) returns (t: Bytes, u: Bytes)
    requires |base| == BASE_OT_COUNT
    ensures t == Flat(TColumns(o, base, sessionId, |choices|))
    ensures u == Flat(UColumns(o, base, sessionId, choices))
  {
    hide Expand, UColumn, Flat;
    ghost var ts, us := TColumns(o, base, sessionId, |choices|), UColumns(o, base, sessionId, choices);
    t, u := [], [];
    FlatEmpty();
    for col := 0 to BASE_OT_COUNT
      invariant t == Flat(ts[..col]) && u == Flat(us[..col])
    {
      var t0, u0 := CommitColumn(o, base[col], sessionId, col, choices);
      FlatAppend(ts, col);
      FlatAppend(us, col);
      t, u := t + t0, u + u0;
    }
    assert ts[..BASE_OT_COUNT] == ts && us[..BASE_OT_COUNT] == us;
  }

  lemma {:induction false} FlatEmpty()
    ensures Flat([]) == []
  {}

  lemma {:induction false} FlatAppend(columns: seq<Bytes>, c: nat)
    requires c < |columns|
    ensures Flat(columns[..0]) == []
    ensures Flat(columns[..c + 1]) == Flat(columns[..c]) + columns[c]
  {
    assert columns[..c + 1][..c] == columns[..c];
  }

  // The sender

  predicate SenderStarts(o: Oracles, rng: Bytes, delta: Label, epoch: Bytes, cipher: Bytes, c: Commitment) {
    && delta != NONE && ValidCommitment(o, epoch, cipher, c)
    && |rng| >= 16 * ChallengeCount(c.paddedCount)
  }

  /** The challenge: one coefficient per 16 random bytes. */
  function Coefficients(rng: Bytes, n: nat): (chi: seq<Label>)
    requires |rng| >= 16 * n
    ensures |chi| == n && forall i :: 0 <= i < n ==> chi[i] == FromBytes(rng[16 * i..16 * i + 16])
  {
    seq(n, i requires 0 <= i < n => FromBytes(rng[16 * i..16 * i + 16]))
  }

  function SentChallenge(o: Oracles, rng: Bytes, c: Commitment): Challenge
    requires c.paddedCount >= KOS_CHECK_OTS && |rng| >= 16 * ChallengeCount(c.paddedCount)
  {
    var ch := Challenge(c.sessionId, c.transcript, Zeros(32), Coefficients(rng, ChallengeCount(c.paddedCount)));
    ch.(transcript := ChallengeTranscript(o, ch))
  }

  /** Every one of the 128 repetition-code equations. */
  predicate ChecksPass(qChecks: seq<Label>, delta: Label, proof: Proof)
    requires |qChecks| == |proof.t| == BASE_OT_COUNT
  {
    forall c :: 0 <= c < BASE_OT_COUNT ==> qChecks[c] == proof.t[c].Xor(proof.x.When(delta.Bit(c)))
  }

  class SenderState {
    var commitment: Commitment
    var challengeTranscript: Bytes32
    var delta: Label
    var qChecks: seq<Label>
    var rows: seq<Label>
    var used: bool

    constructor (c: Commitment, challengeTranscript: Bytes32, delta: Label, qChecks: seq<Label>, rows: seq<Label>)
      ensures commitment == c.(u := []) && this.challengeTranscript == challengeTranscript && this.delta == delta
      ensures this.qChecks == qChecks && this.rows == rows && !used
    {
      commitment, this.challengeTranscript, this.delta := c.(u := []), challengeTranscript, delta;
      this.qChecks, this.rows, used := qChecks, rows, false;
    }

    ghost predicate Valid()
      reads this
    {
      |qChecks| == BASE_OT_COUNT
      && (!used ==> commitment.count <= commitment.paddedCount && commitment.startIndex + commitment.count < UINT64)
    }

    method Destroy()
      requires Valid()
      modifies this
      ensures used && Valid() && rows == [] && delta == NONE
    {
      used, rows, delta, challengeTranscript := true, [], NONE, Zeros(32);
      qChecks := seq(BASE_OT_COUNT, _ => NONE);
    }

    /** No entries are derived unless every equation holds, and the state is spent either way. */
    method FinishExtensionSender(o: Oracles, proof: Option<Proof>) returns (r: Result<seq<SenderOT>>)
      requires Valid() && (proof.Some? ==> |proof.value.t| == BASE_OT_COUNT)
      modifies this
      ensures used && Valid()
      ensures r.Ok? <==> && !old(used) && proof.Some?
                         && proof.value.sessionId == old(commitment).sessionId
                         && proof.value.transcript == old(challengeTranscript)
                         && |old(rows)| == old(commitment).paddedCount
                         && ChecksPass(old(qChecks), old(delta), proof.value)
      ensures r.Ok? ==> r.value == SenderBatch(o, old(rows), old(delta), old(commitment).startIndex, old(commitment).count)
      ensures !old(used) ==> rows == [] && delta == NONE
    {
      hide Label.Xor, Label.Bit, Tmmo;
      if used {
        return Err;
      }
      used := true;
      var c, expected, d, q, labels := commitment, challengeTranscript, delta, qChecks, rows;
      rows, delta, challengeTranscript := [], NONE, Zeros(32);
      qChecks := seq(BASE_OT_COUNT, _ => NONE);
      if proof.None? {
        return Err;
      }
      if proof.value.sessionId != c.sessionId || proof.value.transcript != expected {
        return Err;
      }
      if |labels| != c.paddedCount {
        return Err;
      }
      var pass := VerifyChecks(q, d, proof.value);
      if !pass {
        return Err;
      }
      r := HashSenderOTs(o, labels, d, c.startIndex, c.count);
    }
  }

  method VerifyChecks(qChecks: seq<Label>, delta: Label, proof: Proof) returns (ok: bool)
    requires |qChecks| == |proof.t| == BASE_OT_COUNT
    ensures ok <==> ChecksPass(qChecks, delta, proof)
  {
    hide Label.Xor, Label.Bit;
    for col := 0 to BASE_OT_COUNT
      invariant forall c :: 0 <= c < col ==> qChecks[c] == proof.t[c].Xor(proof.x.When(delta.Bit(c)))
    {
      var q := qChecks[col];
      var want := proof.t[col];
      XorNone(want);
      if delta.Bit(col) {
        want := want.Xor(proof.x);
      }
      if q != want {
        return false;
      }
    }
    ok := true;
  }

  method SelectedColumn(o: Oracles, seed: Label, bit: bool, sessionId: Bytes32, col: nat, u: Bytes) returns (q: Bytes)
    ensures q == QColumn(o, seed, bit, sessionId, col, u)
  {
    hide Expand, XorByte;
    var qcol := new Byte[|u|](_ => ZERO8);
    ExpandSeed(o, seed, sessionId, col, qcol);
    q := qcol[..];
    if bit {
      q := AddTwo(q, u);
    }
  }

  /** The byte loop `q[i] ^= u[i]`. */
  method AddTwo(a: Bytes, u: Bytes) returns (q: Bytes)
    requires |a| == |u|
    ensures q == XorBytes(a, u)
  {
    hide XorByte;
    q := [];
    for i := 0 to |u|
      invariant |q| == i
      invariant forall k :: 0 <= k < i ==> q[k] == XorByte(a[k], u[k])
    {
      q := q + [XorByte(a[i], u[i])];
    }
  }

  method SelectedMatrix(o: Oracles, selected: seq<Label>, delta: Label, sessionId: Bytes32, u: Bytes, n: nat) returns (q: Bytes)
    requires |selected| == BASE_OT_COUNT && |u| == BASE_OT_COUNT * n
    ensures q == Flat(QColumns(o, selected, delta, sessionId, u, n))
  {
    hide QColumn, Flat, Column, Label.Bit;
    ghost var qs := QColumns(o, selected, delta, sessionId, u, n);
    q := [];
    FlatEmpty();
    for col := 0 to BASE_OT_COUNT
      invariant q == Flat(qs[..col])
    {
      var qcol := SelectedColumn(o, selected[col], delta.Bit(col), sessionId, col, Column(u, n, col));
      FlatAppend(qs, col);
      q := q + qcol;
    }
    assert qs[..BASE_OT_COUNT] == qs;
  }

  method StartExtensionSender(o: Oracles, rng: Bytes, selected: seq<Label>, delta: Label, epoch: Bytes, cipher: Bytes,
                              commitment: Option<Commitment>)
    returns (state: SenderState?, challenge: Option<Challenge>)
    requires |selected| == BASE_OT_COUNT
    ensures state != null <==> commitment.Some? && SenderStarts(o, rng, delta, epoch, cipher, commitment.value)
    ensures challenge.Some? <==> state != null
    ensures state != null ==>
              var c := commitment.value;
              var n := c.paddedCount / 8;
              |c.u| == BASE_OT_COUNT * n &&
              var q := QColumns(o, selected, delta, c.sessionId, c.u, n);
              && challenge.value == SentChallenge(o, rng, c)
              && fresh(state) && state.Valid() && !state.used
              && state.commitment == c.(u := []) && state.delta == delta
              && state.challengeTranscript == challenge.value.transcript
              && state.qChecks == Checks(q, n, challenge.value.chi)
              && state.rows == Rows(q, n)
  {
    hide QColumns, Flat, ColumnsOf, Rows, Checks, ChallengeTranscript, Coefficients, ValidCommitment, ChallengeCount;
    if delta == NONE || commitment.None? || !ValidCommitment(o, epoch, cipher, commitment.value) {
      return null, None;
    }
    var c := commitment.value;
    var n := c.paddedCount / 8;
    CommitmentShape(o, epoch, cipher, c);
    ghost var qs := QColumns(o, selected, delta, c.sessionId, c.u, n);
    var q := SelectedMatrix(o, selected, delta, c.sessionId, c.u, n);
    var chiCount := ChallengeCount(c.paddedCount);
    if |rng| < 16 * chiCount {
      return null, None;
    }
    var chi := ReadCoefficients(rng, chiCount);
    var ch := Challenge(c.sessionId, c.transcript, Zeros(32), chi);
    ch := ch.(transcript := ChallengeTranscript(o, ch));
    var checks, rows := ChecksAndRows(q, c.paddedCount, chi, qs);
    state := new SenderState(c, ch.transcript, delta, checks, rows);
    challenge := Some(ch);
  }

  /** The checks and the rows of one matrix. */
  method ChecksAndRows(q: Bytes, padded: nat, chi: seq<Label>, ghost qs: seq<Bytes>) returns (checks: seq<Label>, rows: seq<Label>)
    requires padded % 128 == 0 && padded / 8 == 16 * |chi| + 16 && IsColumns(qs, padded / 8) && q == Flat(qs)
    ensures checks == Checks(qs, padded / 8, chi) && rows == Rows(qs, padded / 8)
  {
    hide Flat, ColumnsOf, Rows, Checks;
    ColumnsOfFlat(qs, padded / 8);
    checks := RepetitionColumnChecks(q, padded, chi);
    rows := TransposeMatrix(q, padded / 8);
  }

  lemma {:induction false} CommitmentShape(o: Oracles, epoch: Bytes, cipher: Bytes, c: Commitment)
    requires ValidCommitment(o, epoch, cipher, c)
    ensures c.paddedCount % 128 == 0 && c.count + KOS_CHECK_OTS <= c.paddedCount
    ensures c.startIndex + c.count < UINT64
    ensures |c.u| == BASE_OT_COUNT * (c.paddedCount / 8)
    ensures c.paddedCount / 8 == 16 * ChallengeCount(c.paddedCount) + 16
  {
    hide ValidEpoch, ValidBaseCipher, EpochHash, Transcript, PaddedCount;
    BlockArithmetic(c.paddedCount);
  }

  lemma {:induction false} BlockArithmetic(padded: nat)
    requires padded % 128 == 0
    ensures BASE_OT_COUNT * padded / 8 == BASE_OT_COUNT * (padded / 8)
  {
    var k := padded / 128;
    assert padded == 128 * k;
    assert padded / 8 == 16 * k;
  }

  method ReadCoefficients(rng: Bytes, n: nat) returns (chi: seq<Label>)
    requires |rng| >= 16 * n
    ensures chi == Coefficients(rng, n)
  {
    hide FromBytes;
    chi := [];
    for i := 0 to n
      invariant |chi| == i
      invariant forall k :: 0 <= k < i ==> chi[k] == FromBytes(rng[16 * k..16 * k + 16])
    {
      chi := chi + [FromBytes(rng[16 * i..16 * i + 16])];
    }
  }
}
