/**
 The IKNP/KOS extension that turns 128 base transfers into a batch of random transfers
 (mpc/ot_extension.go).

 AES under a key, SHA-256 and the UTF-8 test are the fields of `Oracles`, so every
 statement holds whatever they compute.
 */
module Extension {
  import opened Words
  import opened Labels
  import opened Results
  import opened Packing
  import opened BigEndian
  import opened Ots
  import opened Transpose
  import opened Field

  const KOS_CHECK_OTS: nat := 128
  const MAX_EXTENSION_OTS: nat := 0x100_0000
  const BASE_CIPHER_SIZE: nat := 4 + 32 + BASE_OT_COUNT * 32

  type U32 = n: nat | n < 0x1_0000_0000

  datatype Oracles = Oracles(aes: Bytes -> (Label -> Label), sha: Bytes -> Bytes32, utf8: Bytes -> bool)

  datatype SeedPair = SeedPair(zero: Label, one: Label)

  datatype Commitment = Commitment(sessionId: Bytes32, startIndex: Index, count: U32, paddedCount: U32,
                                   epochHash: Bytes32, transcript: Bytes32, u: Bytes)

  datatype Challenge = Challenge(sessionId: Bytes32, commitment: Bytes32, transcript: Bytes32, chi: seq<Label>)

  datatype Proof = Proof(sessionId: Bytes32, transcript: Bytes32, x: Label, t: seq<Label>)

  // Counts

  /** Room for the check rows, rounded up to whole 128-row blocks. */
  function PaddedCount(count: int): (r: Result<U32>)
    ensures r.Ok? <==> 0 < count <= MAX_EXTENSION_OTS
    ensures r.Ok? ==> r.value % 128 == 0 && count + KOS_CHECK_OTS <= r.value < count + KOS_CHECK_OTS + 128
  {
    if count <= 0 || count > MAX_EXTENSION_OTS then Err
    else
      var top := count + KOS_CHECK_OTS + BASE_OT_COUNT - 1;
      Ok(top - top % BASE_OT_COUNT)
  }

  function ChallengeCount(padded: nat): (n: nat)
    requires padded >= KOS_CHECK_OTS
    ensures padded % 128 == 0 ==> 16 * n + 16 == padded / 8
  {
    (padded - KOS_CHECK_OTS) / 128
  }

  // Seed expansion

  function PrgInput(seed: Label, sessionId: Bytes32, column: nat): Bytes {
    Ascii("reclaim-tee/mpc/iknp/prg/v1") + Zeros(5) + sessionId + [ByteOfNat(column)] + Put(seed)
  }

  function PrgKey(o: Oracles, seed: Label, sessionId: Bytes32, column: nat): Bytes {
    o.sha(PrgInput(seed, sessionId, column))[..16]
  }

  /** Block `j` of the counter-mode keystream of a seed. */
  function PrgBlock(o: Oracles, seed: Label, sessionId: Bytes32, column: nat, j: nat): (b: Bytes)
    ensures |b| == 16
  {
    Put(o.aes(PrgKey(o, seed, sessionId, column))(Label(ZERO, FromNat(j, 64))))
  }

  function Expand(o: Oracles, seed: Label, sessionId: Bytes32, column: nat, n: nat): (b: Bytes)
    ensures |b| == n
    ensures forall i :: 0 <= i < n ==> b[i] == PrgBlock(o, seed, sessionId, column, i / 16)[i % 16]
  {
    seq<Byte>(n, i requires 0 <= i < n => PrgBlock(o, seed, sessionId, column, i / 16)[i % 16])
  }

  method ExpandSeed(o: Oracles, seed: Label, sessionId: Bytes32, column: nat, dst: array<Byte>)
    modifies dst
    ensures dst[..] == Expand(o, seed, sessionId, column, dst.Length)
  {
    hide PrgBlock;
    var off, value := 0, 0;
    while off < dst.Length
      invariant off == 16 * value
      invariant forall i :: 0 <= i < dst.Length && i < off ==> dst[i] == PrgBlock(o, seed, sessionId, column, i / 16)[i % 16]
      decreases dst.Length - off
    {
      var block := PrgBlock(o, seed, sessionId, column, value);
      var k := 0;
      while k < 16 && off + k < dst.Length
        invariant 0 <= k <= 16
        invariant forall i :: 0 <= i < dst.Length && i < off + k ==> dst[i] == PrgBlock(o, seed, sessionId, column, i / 16)[i % 16]
      {
        assert (off + k) / 16 == value && (off + k) % 16 == k;
        dst[off + k] := block[k];
        k := k + 1;
      }
      off, value := off + 16, value + 1;
    }
  }

  // Columns of bytes

  lemma {:induction false} XorBytesBits(a: Bytes, b: Bytes, i: nat)
    requires |a| == |b| && i < 8 * |a|
    ensures BitsOf(XorBytes(a, b))[i] == (BitsOf(a)[i] != BitsOf(b)[i])
  {}

  ghost predicate IsColumns(columns: seq<Bytes>, n: nat) {
    |columns| == BASE_OT_COUNT && forall c :: 0 <= c < BASE_OT_COUNT ==> |columns[c]| == n
  }

  /** The column-major matrix. */
  function Flat(columns: seq<Bytes>): Bytes {
    if columns == [] then [] else Flat(columns[..|columns| - 1]) + columns[|columns| - 1]
  }

  lemma {:induction false} FlatLength(columns: seq<Bytes>, n: nat)
    requires forall c :: 0 <= c < |columns| ==> |columns[c]| == n
    ensures |Flat(columns)| == |columns| * n
    decreases |columns|
  {
    if columns != [] {
      FlatLength(columns[..|columns| - 1], n);
      NextMultiple(n, |columns| - 1);
    }
  }

  lemma {:induction false} FlatSlice(columns: seq<Bytes>, n: nat, c: nat)
    requires forall k :: 0 <= k < |columns| ==> |columns[k]| == n
    requires c < |columns|
    ensures 0 <= c * n <= (c + 1) * n <= |Flat(columns)|
    ensures Flat(columns)[c * n..(c + 1) * n] == columns[c]
    decreases |columns|
  {
    var init := columns[..|columns| - 1];
    NextMultiple(n, c);
    if c < |columns| - 1 {
      FlatSlice(init, n, c);
      SlicePrefix(Flat(init), columns[|columns| - 1], c * n, (c + 1) * n);
    } else {
      FlatLength(init, n);
      SliceSuffix(Flat(init), columns[c]);
    }
  }

  lemma {:induction false} SlicePrefix(a: Bytes, b: Bytes, i: nat, j: nat)
    requires i <= j <= |a|
    ensures (a + b)[i..j] == a[i..j]
  {}

  lemma {:induction false} SliceSuffix(a: Bytes, b: Bytes)
    ensures (a + b)[|a|..|a| + |b|] == b
  {}

  /** Column `c` of the flat matrix is the column that went in. */
  lemma {:induction false} FlatColumn(columns: seq<Bytes>, n: nat, c: nat)
    requires IsColumns(columns, n) && c < BASE_OT_COUNT
    ensures |Flat(columns)| == BASE_OT_COUNT * n
    ensures Column(Flat(columns), n, c) == columns[c]
  {
    FlatLength(columns, n);
    FlatSlice(columns, n, c);
  }

  function ColumnsOf(matrix: Bytes, n: nat): (columns: seq<Bytes>)
    requires |matrix| == BASE_OT_COUNT * n
    ensures |columns| == BASE_OT_COUNT
    ensures forall c :: 0 <= c < BASE_OT_COUNT ==> |columns[c]| == n && columns[c] == Column(matrix, n, c)
  {
    seq(BASE_OT_COUNT, c requires 0 <= c < BASE_OT_COUNT => Column(matrix, n, c))
  }

  lemma {:induction false} ColumnsOfFlat(columns: seq<Bytes>, n: nat)
    requires IsColumns(columns, n)
    ensures |Flat(columns)| == BASE_OT_COUNT * n
    ensures ColumnsOf(Flat(columns), n) == columns
  {
    hide Flat, Column;
    FlatColumn(columns, n, 0);
    forall c | 0 <= c < BASE_OT_COUNT
      ensures ColumnsOf(Flat(columns), n)[c] == columns[c]
    {
      FlatColumn(columns, n, c);
    }
  }

  /** Row `r`: one bit from every column. */
  function Row(columns: seq<Bytes>, n: nat, r: nat): (l: Label)
    requires IsColumns(columns, n) && r < 8 * n
    ensures forall c :: 0 <= c < BASE_OT_COUNT ==> l.Bit(c) == BitsOf(columns[c])[r]
  {
    Label(seq(64, c requires 0 <= c < 64 => BitsOf(columns[c])[r]),
          seq(64, c requires 0 <= c < 64 => BitsOf(columns[64 + c])[r]))
  }

  /** The transposed matrix is the sequence of rows. */
  lemma {:induction false} TransposedRows(matrix: Bytes, n: nat, rows: seq<Label>, r: nat)
    requires |matrix| == BASE_OT_COUNT * n && |rows| == 8 * n
    requires Transposed(matrix, n, rows) && r < 8 * n
    ensures rows[r] == Row(ColumnsOf(matrix, n), n, r)
  {
    hide Row, Column, BitsOf;
    SameBits(rows[r], Row(ColumnsOf(matrix, n), n, r));
  }

  // The column check

  function BlockLabel(column: Bytes, b: nat): Label
    requires 16 * b + 16 <= |column|
  {
    FromBytes(column[16 * b..16 * b + 16])
  }

  /** The chi-combination of the first `n` blocks of a column. */
  function ChiSum(column: Bytes, chi: seq<Label>, n: nat): Label
    requires n <= |chi| && 16 * n <= |column|
  {
    if n == 0 then NONE else ChiSum(column, chi, n - 1).Xor(Mul(BlockLabel(column, n - 1), chi[n - 1]))
  }

  /** A column folds to its last block plus the chi-combination of the others. */
  function Check(column: Bytes, chi: seq<Label>): Label
    requires |column| == 16 * |chi| + 16
  {
    BlockLabel(column, |chi|).Xor(ChiSum(column, chi, |chi|))
  }

  /** One column's iteration of the check loop. */
  method ColumnCheck(column: Bytes, chi: seq<Label>) returns (check: Label)
    requires |column| == 16 * |chi| + 16
    ensures check == Check(column, chi)
  {
    hide BlockLabel, Mul, Label.Xor;
    var mainBytes := |column| - 16;
    check := FromBytes(column[mainBytes..mainBytes + 16]);
    assert check == BlockLabel(column, |chi|) by { BlockLabelIs(column, |chi|); }
    ghost var last := check;
    XorNone(last);
    for block := 0 to |chi|
      invariant check == last.Xor(ChiSum(column, chi, block))
    {
      var off := block * 16;
      var l := FromBytes(column[off..off + 16]);
      BlockLabelIs(column, block);
      var product := MulGeneric(l, chi[block]);
      XorAssoc(last, ChiSum(column, chi, block), product);
      check := check.Xor(product);
    }
  }

  lemma {:induction false} BlockLabelIs(column: Bytes, b: nat)
    requires 16 * b + 16 <= |column|
    ensures BlockLabel(column, b) == FromBytes(column[16 * b..16 * b + 16])
  {}

  function Checks(columns: seq<Bytes>, n: nat, chi: seq<Label>): (checks: seq<Label>)
    requires IsColumns(columns, n) && n == 16 * |chi| + 16
    ensures |checks| == BASE_OT_COUNT
    ensures forall c :: 0 <= c < BASE_OT_COUNT ==> checks[c] == Check(columns[c], chi)
  {
    seq(BASE_OT_COUNT, c requires 0 <= c < BASE_OT_COUNT => Check(columns[c], chi))
  }

  /** `repetitionColumnChecks` */
  method RepetitionColumnChecks(matrix: Bytes, padded: nat, chi: seq<Label>) returns (checks: seq<Label>)
    requires padded % 128 == 0 && padded / 8 == 16 * |chi| + 16 && |matrix| == BASE_OT_COUNT * (padded / 8)
    ensures checks == Checks(ColumnsOf(matrix, padded / 8), padded / 8, chi)
  {
    hide Check, Column;
    var byteRows := padded / 8;
    checks := [];
    for col := 0 to BASE_OT_COUNT
      invariant |checks| == col
      invariant forall c :: 0 <= c < col ==> checks[c] == Check(Column(matrix, byteRows, c), chi)
    {
      var check := ColumnCheck(Column(matrix, byteRows, col), chi);
      checks := checks + [check];
    }
  }

  // Hashing rows to transfers

  /** The tweaked double-block hash of the source, under its fixed public key. */
  function Tmmo(o: Oracles, value: Label, tweak: nat): Label {
    var aes := o.aes(o.sha(Ascii("reclaim-tee/mpc/kos/tmmo/v1"))[..16]);
    var encrypted := aes(value);
    aes(Label(encrypted.d0, Xor(encrypted.d1, FromNat(tweak, 64)))).Xor(encrypted)
  }

  function ReceiverBatch(o: Oracles, rows: seq<Label>, choices: Bytes, start: Index, count: nat): (ots: seq<ReceiverOT>)
    requires count <= |rows| && count <= 8 * |choices| && start + count < UINT64
    ensures |ots| == count && ReceiverIndicesFrom(ots, start)
    ensures forall i :: 0 <= i < count ==> ots[i].r == Tmmo(o, rows[i], i) && ots[i].choice == BitsOf(choices)[i]
  {
    seq(count, i requires 0 <= i < count => ReceiverOT(Tmmo(o, rows[i], i), start + i, BitsOf(choices)[i]))
  }

  function SenderBatch(o: Oracles, rows: seq<Label>, delta: Label, start: Index, count: nat): (ots: seq<SenderOT>)
    requires count <= |rows| && start + count < UINT64
    ensures |ots| == count && SenderIndicesFrom(ots, start)
    ensures forall i :: 0 <= i < count ==>
              ots[i].r0 == Tmmo(o, rows[i], i) && ots[i].r1 == Tmmo(o, rows[i].Xor(delta), i)
  {
    seq(count, i requires 0 <= i < count =>
      SenderOT(Tmmo(o, rows[i], i), Tmmo(o, rows[i].Xor(delta), i), start + i))
  }

  method HashReceiverOTs(o: Oracles, raw: seq<Label>, choices: Bytes, start: Index, count: nat)
    returns (r: Result<seq<ReceiverOT>>)
    requires count <= |raw| && count <= 8 * |choices|
    ensures r.Ok? <==> start + count < UINT64
    ensures r.Ok? ==> r.value == ReceiverBatch(o, raw, choices, start, count)
  {
    hide Tmmo;
    if CheckedIndexEnd(start, count).Err? {
      return Err;
    }
    var receiver: seq<ReceiverOT> := [];
    for i := 0 to count
      invariant |receiver| == i
      invariant forall k :: 0 <= k < i ==>
                  receiver[k] == ReceiverOT(Tmmo(o, raw[k], k), start + k, BitsOf(choices)[k])
    {
      receiver := receiver + [ReceiverOT(Tmmo(o, raw[i], i), start + i, choices[i / 8][i % 8])];
    }
    assert receiver == ReceiverBatch(o, raw, choices, start, count);
    r := Ok(receiver);
  }

  method HashSenderOTs(o: Oracles, rows: seq<Label>, delta: Label, start: Index, count: nat)
    returns (r: Result<seq<SenderOT>>)
    requires count <= |rows|
    ensures r.Ok? <==> start + count < UINT64
    ensures r.Ok? ==> r.value == SenderBatch(o, rows, delta, start, count)
  {
    hide Tmmo, Label.Xor;
    if CheckedIndexEnd(start, count).Err? {
      return Err;
    }
    var sender: seq<SenderOT> := [];
    for i := 0 to count
      invariant |sender| == i
      invariant forall k :: 0 <= k < i ==>
                  sender[k] == SenderOT(Tmmo(o, rows[k], k), Tmmo(o, rows[k].Xor(delta), k), start + k)
    {
      var q0 := rows[i];
      var q1 := q0.Xor(delta);
      sender := sender + [SenderOT(Tmmo(o, q0, i), Tmmo(o, q1, i), start + i)];
    }
    assert sender == SenderBatch(o, rows, delta, start, count);
    r := Ok(sender);
  }

  // Transcripts and their checks

  predicate ValidEpoch(o: Oracles, epoch: Bytes) {
    5 < |epoch| <= 256 && o.utf8(epoch) && epoch[..5] == Ascii("kos2:")
  }

  predicate ValidBaseCipher(cipher: Bytes, sessionId: Bytes32) {
    |cipher| == BASE_CIPHER_SIZE && cipher[..4] == Ascii("BOT1") && cipher[4..36] == sessionId
  }

  function EpochInput(epoch: Bytes): Bytes {
    Ascii("reclaim-tee/mpc/kos/repetition/v2/epoch") + PutUint(|epoch|, 4) + epoch
  }

  function EpochHash(o: Oracles, epoch: Bytes): Bytes32 {
    o.sha(EpochInput(epoch))
  }

  function TranscriptInput(cipher: Bytes, c: Commitment): Bytes {
    Ascii("reclaim-tee/mpc/kos/repetition/v2/transcript") + Ascii("KOC2") + c.sessionId
    + PutUint(c.startIndex, 8) + PutUint(c.count, 4) + PutUint(c.paddedCount, 4)
    + c.epochHash + cipher + c.u
  }

  function Transcript(o: Oracles, cipher: Bytes, c: Commitment): Bytes32 {
    o.sha(TranscriptInput(cipher, c))
  }

  function PutLabels(labels: seq<Label>): (b: Bytes)
    ensures |b| == 16 * |labels|
  {
    if labels == [] then [] else Put(labels[0]) + PutLabels(labels[1..])
  }

  function ChallengeInput(c: Challenge): Bytes {
    Ascii("reclaim-tee/mpc/kos/repetition/v2/challenge") + c.sessionId + c.commitment
    + PutUint(|c.chi|, 4) + PutLabels(c.chi)
  }

  function ChallengeTranscript(o: Oracles, c: Challenge): Bytes32 {
    o.sha(ChallengeInput(c))
  }

  predicate ValidCommitment(o: Oracles, epoch: Bytes, cipher: Bytes, c: Commitment) {
    && ValidEpoch(o, epoch) && ValidBaseCipher(cipher, c.sessionId)
    && PaddedCount(c.count) == Ok(c.paddedCount)
    && CheckedIndexEnd(c.startIndex, c.count).Ok?
    && |c.u| == BASE_OT_COUNT * c.paddedCount / 8
    && c.epochHash == EpochHash(o, epoch)
    && c.transcript == Transcript(o, cipher, c)
  }

  predicate ValidChallenge(o: Oracles, c: Commitment, ch: Challenge)
    requires c.paddedCount >= KOS_CHECK_OTS
  {
    && ch.sessionId == c.sessionId && ch.commitment == c.transcript
    && |ch.chi| == ChallengeCount(c.paddedCount)
    && ch.transcript == ChallengeTranscript(o, ch)
  }
}
