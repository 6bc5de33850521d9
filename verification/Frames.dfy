/**
 Frames of the precomputation: KOB2, KBS2, KBC2, KOF2, KOC2, KCH2 and KPR2
 (mpc/precompute_wire.go, mpc/ot_extension_serialize.go).
 */
module Frames {
  import opened Words
  import opened Labels
  import opened Results
  import opened BigEndian
  import opened Ots
  import opened Transpose
  import opened Extension

  const COMMITMENT_HEADER: nat := 116
  const CHALLENGE_HEADER: nat := 104
  const PROOF_SIZE: nat := 84 + 16 * BASE_OT_COUNT
  const BASE_SETUP_SIZE: nat := 4 + 32 + 33
  const BASE_CHOICE_SIZE: nat := 4 + 32 + BASE_OT_COUNT * 33
  const MAX_CHI: nat := 0x2_0000

  // Cutting and joining

  /** The parts of a joined string are found at their offsets. */
  lemma {:induction false} Slices(a: Bytes, b: Bytes, c: Bytes, d: Bytes)
    ensures var s := a + b + c + d;
            && s[..|a|] == a && s[|a|..|a + b|] == b && s[|a + b|..|a + b + c|] == c && s[|a + b + c|..] == d
  {}

  lemma {:induction false} Slices8(a: Bytes, b: Bytes, c: Bytes, d: Bytes, e: Bytes, f: Bytes, g: Bytes, h: Bytes)
    ensures var x, s := a + b + c + d, a + b + c + d + e + f + g + h;
            && s[..|a|] == a && s[|a|..|a + b|] == b && s[|a + b|..|a + b + c|] == c && s[|a + b + c|..|x|] == d
            && s[|x|..|x + e|] == e && s[|x + e|..|x + e + f|] == f && s[|x + e + f|..|x + e + f + g|] == g
            && s[|x + e + f + g|..] == h
  {
    var x, y, s := a + b + c + d, e + f + g + h, a + b + c + d + e + f + g + h;
    assert s == x + y;
    Slices(a, b, c, d);
    Slices(e, f, g, h);
    SlicePrefix(x, y, 0, |a|);
    SlicePrefix(x, y, |a|, |a + b|);
    SlicePrefix(x, y, |a + b|, |a + b + c|);
    SlicePrefix(x, y, |a + b + c|, |x|);
    SliceAfter(x, y, 0, |e|);
    SliceAfter(x, y, |e|, |e + f|);
    SliceAfter(x, y, |e + f|, |e + f + g|);
    SliceAfter(x, y, |e + f + g|, |y|);
  }

  lemma {:induction false} SliceAfter(x: Bytes, y: Bytes, i: nat, j: nat)
    requires i <= j <= |y|
    ensures (x + y)[|x| + i..|x| + j] == y[i..j]
  {}

  lemma {:induction false} Cut(s: Bytes, i: nat, j: nat)
    requires i <= j <= |s|
    ensures s[..i] + s[i..j] == s[..j]
  {}

  // Fields

  function GetU32(b: Bytes): (n: U32)
    requires |b| == 4
    ensures PutUint(n, 4) == b
  {
    GetUintBound(b);
    Widths();
    PutGet(b);
    GetUint(b)
  }

  function GetIndex(b: Bytes): (n: Index)
    requires |b| == 8
    ensures PutUint(n, 8) == b
  {
    GetUintBound(b);
    Widths();
    PutGet(b);
    GetUint(b)
  }

  lemma {:induction false} U32RoundTrip(n: U32)
    ensures GetU32(PutUint(n, 4)) == n
  {
    Widths();
    GetPut(n, 4);
  }

  lemma {:induction false} IndexRoundTrip(n: Index)
    ensures GetIndex(PutUint(n, 8)) == n
  {
    Widths();
    GetPut(n, 8);
  }

  /** The labels in `n` groups of 16 bytes. */
  function GetLabels(b: Bytes, n: nat): (labels: seq<Label>)
    requires |b| == 16 * n
    ensures |labels| == n
    decreases n
  {
    if n == 0 then [] else [FromBytes(b[..16])] + GetLabels(b[16..], n - 1)
  }

  lemma {:induction false} LabelsRoundTrip(labels: seq<Label>)
    ensures GetLabels(PutLabels(labels), |labels|) == labels
    decreases |labels|
  {
    hide Put, FromBytes;
    if labels != [] {
      LabelBytes(labels[0]);
      LabelsRoundTrip(labels[1..]);
      var b := PutLabels(labels);
      assert b[..16] == Put(labels[0]) && b[16..] == PutLabels(labels[1..]);
    }
  }

  lemma {:induction false} LabelBytes(l: Label)
    ensures |Put(l)| == 16 && FromBytes(Put(l)) == l
  {
    LabelRoundTrip(l, Put(l));
  }

  lemma {:induction false} LabelsRestored(b: Bytes, n: nat)
    requires |b| == 16 * n
    ensures PutLabels(GetLabels(b, n)) == b
    decreases n
  {
    hide Put, FromBytes;
    if n > 0 {
      LabelsRestored(b[16..], n - 1);
      LabelRoundTrip(NONE, b[..16]);
      var labels := GetLabels(b, n);
      assert labels[0] == FromBytes(b[..16]) && labels[1..] == GetLabels(b[16..], n - 1);
      assert b == b[..16] + b[16..];
    }
  }

  // KOC2

  predicate CommitmentShape(startIndex: Index, count: U32, paddedCount: U32, length: nat) {
    && PaddedCount(count) == Ok(paddedCount)
    && CheckedIndexEnd(startIndex, count).Ok?
    && length == BASE_OT_COUNT * paddedCount / 8
  }

  function MarshalExtensionCommitment(c: Commitment): Result<Bytes> {
    if !CommitmentShape(c.startIndex, c.count, c.paddedCount, |c.u|) then Err
    else Ok(Ascii("KOC2") + c.sessionId + PutUint(c.startIndex, 8) + PutUint(c.count, 4) + PutUint(c.paddedCount, 4)
            + c.epochHash + c.transcript + c.u)
  }

  function UnmarshalExtensionCommitment(data: Bytes): Result<Commitment> {
    hide Ascii, CommitmentShape, PutUint, GetU32, GetIndex;
    if |data| < COMMITMENT_HEADER || data[..4] != Ascii("KOC2") then Err
    else
      var startIndex, count, padded := GetIndex(data[36..44]), GetU32(data[44..48]), GetU32(data[48..52]);
      if !CommitmentShape(startIndex, count, padded, |data| - COMMITMENT_HEADER) then Err
      else Ok(Commitment(data[4..36], startIndex, count, padded, data[52..84], data[84..116], data[116..]))
  }

  lemma {:induction false} CommitmentRoundTrip(c: Commitment)
    requires MarshalExtensionCommitment(c).Ok?
    ensures UnmarshalExtensionCommitment(MarshalExtensionCommitment(c).value) == Ok(c)
  {
    hide PutUint, GetU32, GetIndex, CommitmentShape, Ascii;
    Slices8(Ascii("KOC2"), c.sessionId, PutUint(c.startIndex, 8), PutUint(c.count, 4), PutUint(c.paddedCount, 4),
            c.epochHash, c.transcript, c.u);
    IndexRoundTrip(c.startIndex);
    U32RoundTrip(c.count);
    U32RoundTrip(c.paddedCount);
  }

  lemma {:induction false} CommitmentRestored(data: Bytes)
    requires UnmarshalExtensionCommitment(data).Ok?
    ensures MarshalExtensionCommitment(UnmarshalExtensionCommitment(data).value) == Ok(data)
  {
    hide PutUint, GetU32, GetIndex, CommitmentShape, Ascii;
    Cut(data, 4, 36);
    Cut(data, 36, 44);
    Cut(data, 44, 48);
    Cut(data, 48, 52);
    Cut(data, 52, 84);
    Cut(data, 84, 116);
    Cut(data, 116, |data|);
    assert data[116..|data|] == data[116..] && data[..|data|] == data;
  }

  // Buffers

  /** `copy(out[off:], src)`, used from left to right. */
  method CopyAt(out: array<Byte>, off: nat, src: Bytes)
    requires off + |src| <= out.Length
    modifies out
    ensures out[..off + |src|] == old(out[..off]) + src
  {
    for i := 0 to |src|
      invariant out[..off] == old(out[..off])
      invariant forall k :: 0 <= k < i ==> out[off + k] == src[k]
    {
      out[off + i] := src[i];
    }
  }

  lemma {:induction false} PutLabelsSnoc(labels: seq<Label>, l: Label)
    ensures PutLabels(labels + [l]) == PutLabels(labels) + Put(l)
    decreases |labels|
  {
    hide Put;
    if labels == [] {
      assert labels + [l] == [l] && [l][1..] == [];
    } else {
      PutLabelsSnoc(labels[1..], l);
      assert (labels + [l])[1..] == labels[1..] + [l];
    }
  }

  method PutLabelsAt(out: array<Byte>, off: nat, labels: seq<Label>)
    requires off + 16 * |labels| <= out.Length
    modifies out
    ensures out[..off + 16 * |labels|] == old(out[..off]) + PutLabels(labels)
  {
    hide Put;
    ghost var head := out[..off];
    for i := 0 to |labels|
      invariant out[..off + 16 * i] == head + PutLabels(labels[..i])
    {
      LabelBytes(labels[i]);
      CopyAt(out, off + 16 * i, Put(labels[i]));
      PutLabelsSnoc(labels[..i], labels[i]);
      assert labels[..i + 1] == labels[..i] + [labels[i]];
    }
    assert labels[..|labels|] == labels;
  }

  lemma {:induction false} GetLabelsSnoc(b: Bytes, n: nat, c: Bytes)
    requires |b| == 16 * n && |c| == 16
    ensures GetLabels(b + c, n + 1) == GetLabels(b, n) + [FromBytes(c)]
    decreases n
  {
    hide FromBytes;
    if n == 0 {
      assert b + c == c && c[..16] == c && c[16..] == [];
    } else {
      GetLabelsSnoc(b[16..], n - 1, c);
      assert (b + c)[..16] == b[..16] && (b + c)[16..] == b[16..] + c;
    }
  }

  method GetLabelsAt(data: Bytes, off: nat, n: nat) returns (labels: seq<Label>)
    requires off + 16 * n <= |data|
    ensures labels == GetLabels(data[off..off + 16 * n], n)
  {
    hide FromBytes;
    labels := [];
    for i := 0 to n
      invariant labels == GetLabels(data[off..off + 16 * i], i)
    {
      labels := labels + [FromBytes(data[off + 16 * i..off + 16 * (i + 1)])];
      GetLabelsSnoc(data[off..off + 16 * i], i, data[off + 16 * i..off + 16 * (i + 1)]);
      assert data[off..off + 16 * (i + 1)] == data[off..off + 16 * i] + data[off + 16 * i..off + 16 * (i + 1)];
    }
  }

  // KCH2

  /** The coefficients of the largest batch. */
  function MaxChi(): (n: nat)
    ensures n == MAX_CHI
  {
    ChallengeCount(PaddedCount(MAX_EXTENSION_OTS).value)
  }

  function ChallengeFrame(o: Oracles, c: Challenge): Result<Bytes> {
    if c.chi == [] || c.transcript != ChallengeTranscript(o, c) then Err
    else Ok(Ascii("KCH2") + c.sessionId + c.commitment + c.transcript + PutUint(|c.chi|, 4) + PutLabels(c.chi))
  }

  function ReadChallenge(o: Oracles, data: Bytes): Result<Challenge> {
    hide PutUint, Ascii, GetU32, GetLabels, ChallengeTranscript;
    if |data| < CHALLENGE_HEADER || data[..4] != Ascii("KCH2") then Err
    else
      var count := GetU32(data[100..104]);
      if count == 0 || count > MAX_CHI || |data| != CHALLENGE_HEADER + 16 * count then Err
      else
        var c := Challenge(data[4..36], data[36..68], data[68..100], GetLabels(data[104..], count));
        if c.transcript != ChallengeTranscript(o, c) then Err else Ok(c)
  }

  method MarshalExtensionChallenge(o: Oracles, c: Challenge) returns (r: Result<Bytes>)
    ensures r == ChallengeFrame(o, c)
  {
    hide Ascii, PutUint, PutLabels, ChallengeTranscript;
    if |c.chi| == 0 || c.transcript != ChallengeTranscript(o, c) {
      return Err;
    }
    var out := new Byte[CHALLENGE_HEADER + 16 * |c.chi|](_ => ZERO8);
    CopyAt(out, 0, Ascii("KCH2"));
    CopyAt(out, 4, c.sessionId);
    CopyAt(out, 36, c.commitment);
    CopyAt(out, 68, c.transcript);
    CopyAt(out, 100, PutUint(|c.chi|, 4));
    assert out[..104] == Ascii("KCH2") + c.sessionId + c.commitment + c.transcript + PutUint(|c.chi|, 4);
    PutLabelsAt(out, 104, c.chi);
    assert out[..104 + 16 * |c.chi|] == out[..];
    return Ok(out[..]);
  }

  method UnmarshalExtensionChallenge(o: Oracles, data: Bytes) returns (r: Result<Challenge>)
    ensures r == ReadChallenge(o, data)
  {
    hide PutUint, Ascii, GetU32, GetLabels, ChallengeTranscript, MaxChi;
    if |data| < CHALLENGE_HEADER || data[..4] != Ascii("KCH2") {
      return Err;
    }
    var count := GetU32(data[100..104]);
    if count <= 0 || count > MaxChi() {
      return Err;
    }
    if |data| != CHALLENGE_HEADER + 16 * count {
      return Err;
    }
    var chi := GetLabelsAt(data, 104, count);
    assert data[104..104 + 16 * count] == data[104..];
    var c := Challenge(data[4..36], data[36..68], data[68..100], chi);
    if c.transcript != ChallengeTranscript(o, c) {
      return Err;
    }
    return Ok(c);
  }

  /** Decoding undoes encoding exactly when the decoder's limit admits the coefficients. */
  lemma {:induction false} ChallengeRoundTrip(o: Oracles, c: Challenge)
    requires ChallengeFrame(o, c).Ok?
    ensures ReadChallenge(o, ChallengeFrame(o, c).value) == if |c.chi| <= MAX_CHI then Ok(c) else Err
  {
    hide Ascii, PutUint, GetU32, PutLabels, GetLabels, ChallengeTranscript;
    var data := ChallengeFrame(o, c).value;
    Slices8(Ascii("KCH2"), c.sessionId, c.commitment, c.transcript, PutUint(|c.chi|, 4), PutLabels(c.chi), [], []);
    assert data == data + [] + [] && data[104..|data|] == data[104..];
    if |c.chi| <= MAX_CHI {
      U32RoundTrip(|c.chi|);
      LabelsRoundTrip(c.chi);
    }
  }

  lemma {:induction false} ChallengeRestored(o: Oracles, data: Bytes)
    requires ReadChallenge(o, data).Ok?
    ensures ChallengeFrame(o, ReadChallenge(o, data).value) == Ok(data)
  {
    hide Ascii, PutUint, GetU32, PutLabels, GetLabels, ChallengeTranscript;
    LabelsRestored(data[104..], GetU32(data[100..104]));
    Cut(data, 4, 36);
    Cut(data, 36, 68);
    Cut(data, 68, 100);
    Cut(data, 100, 104);
    Cut(data, 104, |data|);
    assert data[104..|data|] == data[104..] && data[..|data|] == data;
  }

  // KPR2

  predicate ProofShape(p: Proof) {
    |p.t| == BASE_OT_COUNT
  }

  function ProofFrame(p: Proof): (b: Bytes)
    requires ProofShape(p)
    ensures |b| == PROOF_SIZE
  {
    hide Ascii, Put;
    LabelBytes(p.x);
    Ascii("KPR2") + p.sessionId + p.transcript + Put(p.x) + PutLabels(p.t)
  }

  function ReadProof(data: Bytes): Result<Proof> {
    if |data| != PROOF_SIZE || data[..4] != Ascii("KPR2") then Err
    else Ok(Proof(data[4..36], data[36..68], FromBytes(data[68..84]), GetLabels(data[84..], BASE_OT_COUNT)))
  }

  method MarshalExtensionProof(p: Proof) returns (r: Bytes)
    requires ProofShape(p)
    ensures r == ProofFrame(p)
  {
    hide Ascii, Put, PutLabels;
    LabelBytes(p.x);
    var out := new Byte[PROOF_SIZE](_ => ZERO8);
    CopyAt(out, 0, Ascii("KPR2"));
    CopyAt(out, 4, p.sessionId);
    CopyAt(out, 36, p.transcript);
    CopyAt(out, 68, Put(p.x));
    PutLabelsAt(out, 84, p.t);
    assert out[..] == out[..out.Length];
    return out[..];
  }

  method UnmarshalExtensionProof(data: Bytes) returns (r: Result<Proof>)
    ensures r == ReadProof(data)
  {
    hide Ascii, FromBytes, GetLabels;
    if |data| != PROOF_SIZE || data[..4] != Ascii("KPR2") {
      return Err;
    }
    var t := GetLabelsAt(data, 84, BASE_OT_COUNT);
    assert data[84..84 + 16 * BASE_OT_COUNT] == data[84..];
    return Ok(Proof(data[4..36], data[36..68], FromBytes(data[68..84]), t));
  }

  lemma {:induction false} ProofRoundTrip(p: Proof)
    requires ProofShape(p)
    ensures ReadProof(ProofFrame(p)) == Ok(p)
  {
    hide Ascii, Put, FromBytes, PutLabels, GetLabels;
    LabelBytes(p.x);
    Slices8(Ascii("KPR2"), p.sessionId, p.transcript, Put(p.x), PutLabels(p.t), [], [], []);
    var data := ProofFrame(p);
    assert data == data + [] + [] + [] && data[84..|data|] == data[84..];
    LabelsRoundTrip(p.t);
  }

  lemma {:induction false} ProofRestored(data: Bytes)
    requires ReadProof(data).Ok?
    ensures var p := ReadProof(data).value; ProofShape(p) && ProofFrame(p) == data
  {
    hide Ascii, Put, FromBytes, PutLabels, GetLabels;
    LabelRoundTrip(NONE, data[68..84]);
    LabelsRestored(data[84..], BASE_OT_COUNT);
    Cut(data, 4, 36);
    Cut(data, 36, 68);
    Cut(data, 68, 84);
    Cut(data, 84, |data|);
    assert data[84..|data|] == data[84..] && data[..|data|] == data;
  }

  // KOB2

  datatype Begin = Begin(sessionId: Bytes32, startIndex: Index, count: U32, epoch: Bytes)

  predicate BeginOk(o: Oracles, b: Begin) {
    PaddedCount(b.count).Ok? && CheckedIndexEnd(b.startIndex, b.count).Ok? && ValidEpoch(o, b.epoch)
  }

  function MarshalPrecomputeBegin(o: Oracles, b: Begin): Result<Bytes> {
    if !BeginOk(o, b) then Err
    else Ok(Ascii("KOB2") + b.sessionId + PutUint(b.startIndex, 8) + PutUint(b.count, 4) + PutUint(|b.epoch|, 2) + b.epoch)
  }

  function UnmarshalPrecomputeBegin(o: Oracles, data: Bytes): Result<Begin> {
    hide PutUint, Ascii, GetU32, GetIndex, GetUint, BeginOk;
    if |data| < 50 || data[..4] != Ascii("KOB2") then Err
    else
      var epochLen := GetUint(data[48..50]);
      if epochLen == 0 || |data| != 50 + epochLen then Err
      else
        var b := Begin(data[4..36], GetIndex(data[36..44]), GetU32(data[44..48]), data[50..]);
        if BeginOk(o, b) then Ok(b) else Err
  }

  lemma {:induction false} EpochLength(o: Oracles, b: Begin)
    requires BeginOk(o, b)
    ensures 0 < |b.epoch| < 0x1_0000
  {
    hide PaddedCount, Ascii;
  }

  lemma {:induction false} BeginRoundTrip(o: Oracles, b: Begin)
    requires MarshalPrecomputeBegin(o, b).Ok?
    ensures UnmarshalPrecomputeBegin(o, MarshalPrecomputeBegin(o, b).value) == Ok(b)
  {
    hide Ascii, PutUint, GetUint, GetU32, GetIndex, BeginOk, ValidEpoch;
    EpochLength(o, b);
    var data := MarshalPrecomputeBegin(o, b).value;
    Slices8(Ascii("KOB2"), b.sessionId, PutUint(b.startIndex, 8), PutUint(b.count, 4), PutUint(|b.epoch|, 2), b.epoch, [], []);
    assert data == data + [] + [] && data[50..|data|] == data[50..];
    IndexRoundTrip(b.startIndex);
    U32RoundTrip(b.count);
    Widths();
    GetPut(|b.epoch|, 2);
  }

  lemma {:induction false} BeginRestored(o: Oracles, data: Bytes)
    requires UnmarshalPrecomputeBegin(o, data).Ok?
    ensures MarshalPrecomputeBegin(o, UnmarshalPrecomputeBegin(o, data).value) == Ok(data)
  {
    hide Ascii, PutUint, GetUint, GetU32, GetIndex, BeginOk, ValidEpoch;
    PutGet(data[48..50]);
    Cut(data, 4, 36);
    Cut(data, 36, 44);
    Cut(data, 44, 48);
    Cut(data, 48, 50);
    Cut(data, 50, |data|);
    assert data[50..|data|] == data[50..] && data[..|data|] == data;
  }

  // KBS2 and KBC2: a base message inside a frame that repeats its session

  datatype BaseKind = Setup | Choices

  function OuterTag(k: BaseKind): (t: Bytes)
    ensures |t| == 4
  {
    if k == Setup then Ascii("KBS2") else Ascii("KBC2")
  }

  function InnerTag(k: BaseKind): (t: Bytes)
    ensures |t| == 4
  {
    if k == Setup then Ascii("BOS1") else Ascii("BOC1")
  }

  function BaseSize(k: BaseKind): nat {
    if k == Setup then BASE_SETUP_SIZE else BASE_CHOICE_SIZE
  }

  predicate BaseOk(k: BaseKind, session: Bytes32, message: Bytes) {
    |message| == BaseSize(k) && message[..4] == InnerTag(k) && message[4..36] == session
  }

  function MarshalPrecomputeBase(k: BaseKind, session: Bytes32, message: Bytes): Result<Bytes> {
    if BaseOk(k, session, message) then Ok(OuterTag(k) + session + message) else Err
  }

  function UnmarshalPrecomputeBase(k: BaseKind, data: Bytes, session: Bytes32): Result<Bytes> {
    if |data| != 36 + BaseSize(k) || data[..4] != OuterTag(k) || data[4..36] != session then Err
    else if BaseOk(k, session, data[36..]) then Ok(data[36..]) else Err
  }

  /** A frame is accepted for a session exactly when it is that session's encoding of a message. */
  lemma {:induction false} BaseExact(k: BaseKind, session: Bytes32, data: Bytes, message: Bytes)
    ensures UnmarshalPrecomputeBase(k, data, session) == Ok(message) <==> MarshalPrecomputeBase(k, session, message) == Ok(data)
  {
    hide OuterTag, InnerTag;
    if MarshalPrecomputeBase(k, session, message) == Ok(data) {
      Slices(OuterTag(k), session, message, []);
      assert data == data + [] && data[36..|data|] == data[36..];
    }
    if UnmarshalPrecomputeBase(k, data, session) == Ok(message) {
      Cut(data, 4, 36);
      Cut(data, 36, |data|);
      assert data[36..|data|] == data[36..] && data[..|data|] == data;
    }
  }

  // KOF2

  function MarshalPrecomputeCommitment(cipher: Bytes, c: Commitment): Result<Bytes> {
    if !ValidBaseCipher(cipher, c.sessionId) then Err
    else
      match MarshalExtensionCommitment(c)
      case Err => Err
      case Ok(extension) => Ok(Ascii("KOF2") + PutUint(|cipher|, 4) + cipher + extension)
  }

  function UnmarshalPrecomputeCommitment(data: Bytes): Result<(Bytes, Commitment)> {
    hide PutUint, Ascii, GetU32, ValidBaseCipher, UnmarshalExtensionCommitment;
    if |data| < 8 || data[..4] != Ascii("KOF2") then Err
    else
      var cipherLen := GetU32(data[4..8]);
      if cipherLen != BASE_CIPHER_SIZE || |data| < 8 + cipherLen then Err
      else
        match UnmarshalExtensionCommitment(data[8 + cipherLen..])
        case Err => Err
        case Ok(c) =>
          var cipher := data[8..8 + cipherLen];
          if ValidBaseCipher(cipher, c.sessionId) then Ok((cipher, c)) else Err
  }

  lemma {:induction false} CipherLength(cipher: Bytes, session: Bytes32)
    requires ValidBaseCipher(cipher, session)
    ensures |cipher| == BASE_CIPHER_SIZE
  {
    hide Ascii;
  }

  lemma {:induction false} PrecomputeCommitmentRoundTrip(cipher: Bytes, c: Commitment)
    requires MarshalPrecomputeCommitment(cipher, c).Ok?
    ensures UnmarshalPrecomputeCommitment(MarshalPrecomputeCommitment(cipher, c).value) == Ok((cipher, c))
  {
    hide Ascii, PutUint, GetU32, ValidBaseCipher, MarshalExtensionCommitment, UnmarshalExtensionCommitment;
    CipherLength(cipher, c.sessionId);
    var extension := MarshalExtensionCommitment(c).value;
    Slices(Ascii("KOF2"), PutUint(|cipher|, 4), cipher, extension);
    U32RoundTrip(|cipher|);
    CommitmentRoundTrip(c);
  }

  lemma {:induction false} PrecomputeCommitmentRestored(data: Bytes)
    requires UnmarshalPrecomputeCommitment(data).Ok?
    ensures var (cipher, c) := UnmarshalPrecomputeCommitment(data).value; MarshalPrecomputeCommitment(cipher, c) == Ok(data)
  {
    hide Ascii, PutUint, GetU32, ValidBaseCipher, MarshalExtensionCommitment, UnmarshalExtensionCommitment;
    CommitmentRestored(data[8 + BASE_CIPHER_SIZE..]);
    Cut(data, 4, 8);
    Cut(data, 8, 8 + BASE_CIPHER_SIZE);
    Cut(data, 8 + BASE_CIPHER_SIZE, |data|);
    assert data[8 + BASE_CIPHER_SIZE..|data|] == data[8 + BASE_CIPHER_SIZE..] && data[..|data|] == data;
  }

  // Declared sizes

  function PrecomputeCommitmentWireSize(count: int): Result<nat> {
    match PaddedCount(count)
    case Err => Err
    case Ok(padded) => Ok(8 + BASE_CIPHER_SIZE + COMMITMENT_HEADER + BASE_OT_COUNT * padded / 8)
  }

  function PrecomputeChallengeWireSize(count: int): Result<nat> {
    match PaddedCount(count)
    case Err => Err
    case Ok(padded) => Ok(CHALLENGE_HEADER + ChallengeCount(padded) * 16)
  }

  lemma {:induction false} CommitmentSizeIs(cipher: Bytes, c: Commitment)
    requires MarshalPrecomputeCommitment(cipher, c).Ok?
    ensures PrecomputeCommitmentWireSize(c.count) == Ok(|MarshalPrecomputeCommitment(cipher, c).value|)
  {
    hide Ascii, PutUint, PaddedCount, CheckedIndexEnd;
  }

  lemma {:induction false} ChallengeSizeIs(o: Oracles, c: Commitment, ch: Challenge)
    requires MarshalExtensionCommitment(c).Ok? && ChallengeFrame(o, ch).Ok? && c.paddedCount >= KOS_CHECK_OTS
    requires |ch.chi| == ChallengeCount(c.paddedCount)
    ensures PrecomputeChallengeWireSize(c.count) == Ok(|ChallengeFrame(o, ch).value|)
  {
    hide Ascii, PutUint, PaddedCount, ChallengeCount, CheckedIndexEnd, ChallengeTranscript, PutLabels;
  }

  // Decoders for a pending batch

  const MAX_PRECOMPUTE: nat := 100_000

  predicate ValidatePrecomputeCount(count: int) {
    0 < count <= MAX_PRECOMPUTE
  }

  /** The checks made before anything is copied, at offsets of the whole frame. */
  predicate CommitmentGlance(data: Bytes, expected: Begin) {
    hide PutUint, PaddedCount;
    var off := 8 + BASE_CIPHER_SIZE;
    && PrecomputeCommitmentWireSize(expected.count) == Ok(|data|)
    && data[..4] == Ascii("KOF2") && GetU32(data[4..8]) == BASE_CIPHER_SIZE && data[off..off + 4] == Ascii("KOC2")
    && data[off + 4..off + 36] == expected.sessionId
    && GetIndex(data[off + 36..off + 44]) == expected.startIndex && GetU32(data[off + 44..off + 48]) == expected.count
  }

  predicate Describes(expected: Begin, c: Commitment) {
    c.sessionId == expected.sessionId && c.startIndex == expected.startIndex && c.count == expected.count
  }

  lemma {:induction false} GlanceIs(data: Bytes, expected: Begin, off: nat)
    requires off == 8 + BASE_CIPHER_SIZE && |data| >= off + COMMITMENT_HEADER
    requires PrecomputeCommitmentWireSize(expected.count) == Ok(|data|)
    requires data[..4] == Ascii("KOF2") && GetU32(data[4..8]) == BASE_CIPHER_SIZE && data[off..off + 4] == Ascii("KOC2")
    requires data[off + 4..off + 36] == expected.sessionId
    requires GetIndex(data[off + 36..off + 44]) == expected.startIndex && GetU32(data[off + 44..off + 48]) == expected.count
    ensures CommitmentGlance(data, expected)
  {
    hide PutUint, Ascii, GetU32, GetIndex, PrecomputeCommitmentWireSize;
  }

  function UnmarshalPrecomputeCommitmentFor(data: Bytes, expected: Begin): Result<(Bytes, Commitment)> {
    if !ValidatePrecomputeCount(expected.count) || CheckedIndexEnd(expected.startIndex, expected.count).Err? then Err
    else if !CommitmentGlance(data, expected) then Err
    else
      match UnmarshalPrecomputeCommitment(data)
      case Err => Err
      case Ok((cipher, c)) => if Describes(expected, c) then Ok((cipher, c)) else Err
  }

  lemma {:induction false} SliceOfTail(data: Bytes, k: nat, i: nat, j: nat)
    requires k <= |data| && i <= j <= |data| - k
    ensures data[k..][i..j] == data[k + i..k + j]
  {}

  lemma {:induction false} TailFields(data: Bytes, off: nat)
    requires off + 48 <= |data|
    ensures var tail := data[off..];
            && data[off..off + 4] == tail[..4] && data[off + 4..off + 36] == tail[4..36]
            && data[off + 36..off + 44] == tail[36..44] && data[off + 44..off + 48] == tail[44..48]
  {
    SliceOfTail(data, off, 0, 4);
    SliceOfTail(data, off, 4, 36);
    SliceOfTail(data, off, 36, 44);
    SliceOfTail(data, off, 44, 48);
  }

  lemma {:induction false} OuterParts(data: Bytes)
    requires UnmarshalPrecomputeCommitment(data).Ok?
    ensures |data| >= 8 + BASE_CIPHER_SIZE && data[..4] == Ascii("KOF2") && GetU32(data[4..8]) == BASE_CIPHER_SIZE
    ensures UnmarshalExtensionCommitment(data[8 + BASE_CIPHER_SIZE..]) == Ok(UnmarshalPrecomputeCommitment(data).value.1)
  {
    hide PutUint, Ascii, GetU32, ValidBaseCipher, UnmarshalExtensionCommitment;
  }

  lemma {:induction false} InnerParts(tail: Bytes)
    requires UnmarshalExtensionCommitment(tail).Ok?
    ensures |tail| >= COMMITMENT_HEADER
    ensures var c := UnmarshalExtensionCommitment(tail).value;
            && tail[..4] == Ascii("KOC2") && tail[4..36] == c.sessionId && GetIndex(tail[36..44]) == c.startIndex
            && GetU32(tail[44..48]) == c.count
            && CommitmentShape(c.startIndex, c.count, c.paddedCount, |tail| - COMMITMENT_HEADER)
  {
    hide PutUint, Ascii, GetU32, GetIndex, CommitmentShape;
  }

  lemma {:induction false} ShapeSize(startIndex: Index, count: U32, padded: U32, length: nat)
    requires CommitmentShape(startIndex, count, padded, length)
    ensures PrecomputeCommitmentWireSize(count) == Ok(8 + BASE_CIPHER_SIZE + COMMITMENT_HEADER + length)
    ensures CheckedIndexEnd(startIndex, count).Ok?
  {}

  lemma {:induction false} GlancePasses(data: Bytes, expected: Begin)
    requires UnmarshalPrecomputeCommitment(data).Ok? && Describes(expected, UnmarshalPrecomputeCommitment(data).value.1)
    ensures CommitmentGlance(data, expected) && CheckedIndexEnd(expected.startIndex, expected.count).Ok?
  {
    hide PutUint, Ascii, GetU32, GetIndex, CommitmentShape, PrecomputeCommitmentWireSize, CommitmentGlance;
    hide UnmarshalPrecomputeCommitment, UnmarshalExtensionCommitment, CheckedIndexEnd;
    var off := 8 + BASE_CIPHER_SIZE;
    OuterParts(data);
    InnerParts(data[off..]);
    var c := UnmarshalExtensionCommitment(data[off..]).value;
    ShapeSize(c.startIndex, c.count, c.paddedCount, |data| - off - COMMITMENT_HEADER);
    TailFields(data, off);
    GlanceIs(data, expected, off);
  }

  /** The early checks refuse nothing that the full decoder would accept for this batch. */
  lemma {:induction false} CommitmentForExact(data: Bytes, expected: Begin)
    ensures UnmarshalPrecomputeCommitmentFor(data, expected) ==
            var full := UnmarshalPrecomputeCommitment(data);
            if 0 < expected.count <= 100_000 && full.Ok? && Describes(expected, full.value.1) then full else Err
  {
    hide UnmarshalPrecomputeCommitment, CommitmentGlance, CheckedIndexEnd;
    var full := UnmarshalPrecomputeCommitment(data);
    if full.Ok? && Describes(expected, full.value.1) {
      GlancePasses(data, expected);
    }
  }

  predicate ChallengeGlance(data: Bytes, session: Bytes32, count: int) {
    && PrecomputeChallengeWireSize(count) == Ok(|data|)
    && data[..4] == Ascii("KCH2") && data[4..36] == session
    && GetU32(data[100..104]) == ChallengeCount(PaddedCount(count).value)
  }

  function UnmarshalExtensionChallengeFor(o: Oracles, data: Bytes, session: Bytes32, count: int): Result<Challenge> {
    if !ValidatePrecomputeCount(count) || !ChallengeGlance(data, session, count) then Err
    else
      match ReadChallenge(o, data)
      case Err => Err
      case Ok(c) => if c.sessionId == session then Ok(c) else Err
  }

  lemma {:induction false} ChallengeForExact(o: Oracles, data: Bytes, session: Bytes32, count: int)
    ensures UnmarshalExtensionChallengeFor(o, data, session, count) ==
            var full := ReadChallenge(o, data);
            if 0 < count <= 100_000 && full.Ok? && full.value.sessionId == session
               && |full.value.chi| == ChallengeCount(PaddedCount(count).value) then full else Err
  {
    hide PutUint, Ascii, GetU32, GetLabels, ChallengeTranscript, PaddedCount, ChallengeCount;
  }

  function UnmarshalExtensionProofFor(data: Bytes, session: Bytes32): Result<Proof> {
    if |data| != PROOF_SIZE || data[..4] != Ascii("KPR2") || data[4..36] != session then Err else ReadProof(data)
  }

  lemma {:induction false} ProofForExact(data: Bytes, session: Bytes32)
    ensures UnmarshalExtensionProofFor(data, session) ==
            var full := ReadProof(data); if full.Ok? && full.value.sessionId == session then full else Err
  {
    hide Ascii, FromBytes, GetLabels;
  }

  // Phases

  datatype Phase = UnknownPhase | BeginPhase | BaseChoicesPhase | ChallengePhase

  function PrecomputeRequestPhase(data: Bytes): Phase {
    if |data| < 4 then UnknownPhase
    else if data[..4] == Ascii("KOB2") then BeginPhase
    else if data[..4] == Ascii("KBC2") then BaseChoicesPhase
    else if data[..4] == Ascii("KCH2") then ChallengePhase
    else UnknownPhase
  }

  lemma {:induction false} TagsDiffer(a: string, b: string, i: nat)
    requires i < |a| == |b| && a[i] as int < 256 && b[i] as int < 256 && a[i] != b[i]
    ensures Ascii(a) != Ascii(b)
  {
    ByteRoundTrip(a[i] as int, ZERO8);
    ByteRoundTrip(b[i] as int, ZERO8);
    assert Ascii(a)[i] != Ascii(b)[i];
  }

  /** A request that its own decoder accepts is sent to that decoder. */
  lemma {:induction false} PhaseFitsDecoder(o: Oracles, data: Bytes, session: Bytes32)
    ensures UnmarshalPrecomputeBegin(o, data).Ok? ==> PrecomputeRequestPhase(data) == BeginPhase
    ensures UnmarshalPrecomputeBase(Choices, data, session).Ok? ==> PrecomputeRequestPhase(data) == BaseChoicesPhase
    ensures ReadChallenge(o, data).Ok? ==> PrecomputeRequestPhase(data) == ChallengePhase
  {
    hide PutUint, Ascii, BeginOk, BaseOk, BaseSize, GetU32, GetIndex, GetUint, GetLabels, ChallengeTranscript;
    TagsDiffer("KOB2", "KBC2", 1);
    TagsDiffer("KOB2", "KCH2", 1);
    TagsDiffer("KBC2", "KCH2", 1);
  }

  // Trailing bytes

  lemma {:induction false} FieldsKept(data: Bytes, extra: Bytes, i: nat, j: nat)
    requires 4 <= i <= j <= |data|
    ensures (data + extra)[..4] == data[..4] && (data + extra)[i..j] == data[i..j]
  {}

  lemma {:induction false} CommitmentTrailing(data: Bytes, extra: Bytes)
    requires UnmarshalExtensionCommitment(data).Ok? && extra != []
    ensures UnmarshalExtensionCommitment(data + extra).Err?
  {
    hide Ascii, PutUint, GetU32, GetIndex, CommitmentShape;
    FieldsKept(data, extra, 36, 44);
    FieldsKept(data, extra, 44, 48);
    FieldsKept(data, extra, 48, 52);
    var startIndex, count, padded := GetIndex(data[36..44]), GetU32(data[44..48]), GetU32(data[48..52]);
    ShapeFixes(startIndex, count, padded, |data| - COMMITMENT_HEADER, |data + extra| - COMMITMENT_HEADER);
  }

  lemma {:induction false} ShapeFixes(startIndex: Index, count: U32, padded: U32, a: nat, b: nat)
    requires CommitmentShape(startIndex, count, padded, a) && a != b
    ensures !CommitmentShape(startIndex, count, padded, b)
  {}

  lemma {:induction false} PrecomputeCommitmentTrailing(data: Bytes, extra: Bytes)
    requires UnmarshalPrecomputeCommitment(data).Ok? && extra != []
    ensures UnmarshalPrecomputeCommitment(data + extra).Err?
  {
    hide Ascii, PutUint, GetU32, ValidBaseCipher, UnmarshalExtensionCommitment;
    var off := 8 + BASE_CIPHER_SIZE;
    FieldsKept(data, extra, 4, 8);
    CommitmentTrailing(data[off..], extra);
    assert (data + extra)[off..] == data[off..] + extra;
  }

  lemma {:induction false} RequestTrailing(o: Oracles, data: Bytes, extra: Bytes)
    requires extra != []
    ensures UnmarshalPrecomputeBegin(o, data).Ok? ==> UnmarshalPrecomputeBegin(o, data + extra).Err?
    ensures ReadChallenge(o, data).Ok? ==> ReadChallenge(o, data + extra).Err?
    ensures ReadProof(data).Ok? ==> ReadProof(data + extra).Err?
  {
    hide Ascii, PutUint, GetUint, GetU32, GetIndex, GetLabels, FromBytes, BeginOk, ChallengeTranscript;
    if |data| >= 50 { FieldsKept(data, extra, 48, 50); }
    if |data| >= CHALLENGE_HEADER { FieldsKept(data, extra, 100, 104); }
  }

  // Layouts: every field of an encoded frame at its offset

  lemma {:induction false} CommitmentLayout(c: Commitment)
    requires MarshalExtensionCommitment(c).Ok?
    ensures var b := MarshalExtensionCommitment(c).value;
            && |b| == 116 + |c.u| && b[..4] == Ascii("KOC2") && b[4..36] == c.sessionId
            && GetUint(b[36..44]) == c.startIndex && GetUint(b[44..48]) == c.count && GetUint(b[48..52]) == c.paddedCount
            && b[52..84] == c.epochHash && b[84..116] == c.transcript && b[116..] == c.u
  {
    hide PutUint, GetUint, CommitmentShape, Ascii;
    Slices8(Ascii("KOC2"), c.sessionId, PutUint(c.startIndex, 8), PutUint(c.count, 4), PutUint(c.paddedCount, 4),
            c.epochHash, c.transcript, c.u);
    Widths();
    GetPut(c.startIndex, 8);
    GetPut(c.count, 4);
    GetPut(c.paddedCount, 4);
  }

  lemma {:induction false} ChallengeLayout(o: Oracles, c: Challenge)
    requires ChallengeFrame(o, c).Ok? && |c.chi| < 0x1_0000_0000
    ensures var b := ChallengeFrame(o, c).value;
            && |b| == 104 + 16 * |c.chi| && b[..4] == Ascii("KCH2") && b[4..36] == c.sessionId && b[36..68] == c.commitment
            && b[68..100] == c.transcript && GetUint(b[100..104]) == |c.chi| && b[104..] == PutLabels(c.chi)
  {
    hide PutUint, GetUint, Ascii, PutLabels, ChallengeTranscript;
    var b := ChallengeFrame(o, c).value;
    Slices8(Ascii("KCH2"), c.sessionId, c.commitment, c.transcript, PutUint(|c.chi|, 4), PutLabels(c.chi), [], []);
    assert b == b + [] + [] && b[104..|b|] == b[104..];
    Widths();
    GetPut(|c.chi|, 4);
  }

  lemma {:induction false} ProofLayout(p: Proof)
    requires ProofShape(p)
    ensures var b := ProofFrame(p);
            && |b| == 2132 && b[..4] == Ascii("KPR2") && b[4..36] == p.sessionId && b[36..68] == p.transcript
            && b[68..84] == Put(p.x) && b[84..] == PutLabels(p.t)
  {
    hide Ascii, Put, PutLabels;
    LabelBytes(p.x);
    var b := ProofFrame(p);
    Slices8(Ascii("KPR2"), p.sessionId, p.transcript, Put(p.x), PutLabels(p.t), [], [], []);
    assert b == b + [] + [] + [] && b[84..|b|] == b[84..];
  }

  lemma {:induction false} BeginLayout(o: Oracles, b: Begin)
    requires MarshalPrecomputeBegin(o, b).Ok?
    ensures var s := MarshalPrecomputeBegin(o, b).value;
            && |s| == 50 + |b.epoch| && s[..4] == Ascii("KOB2") && s[4..36] == b.sessionId && GetUint(s[36..44]) == b.startIndex
            && GetUint(s[44..48]) == b.count && GetUint(s[48..50]) == |b.epoch| && s[50..] == b.epoch
  {
    hide Ascii, PutUint, GetUint, BeginOk;
    EpochLength(o, b);
    var s := MarshalPrecomputeBegin(o, b).value;
    Slices8(Ascii("KOB2"), b.sessionId, PutUint(b.startIndex, 8), PutUint(b.count, 4), PutUint(|b.epoch|, 2), b.epoch, [], []);
    assert s == s + [] + [] && s[50..|s|] == s[50..];
    Widths();
    GetPut(b.startIndex, 8);
    GetPut(b.count, 4);
    GetPut(|b.epoch|, 2);
  }

  lemma {:induction false} PrecomputeCommitmentLayout(cipher: Bytes, c: Commitment)
    requires MarshalPrecomputeCommitment(cipher, c).Ok?
    ensures var b := MarshalPrecomputeCommitment(cipher, c).value;
            && |b| >= 4140 && b[..4] == Ascii("KOF2") && GetUint(b[4..8]) == 4132 && b[8..4140] == cipher
            && Ok(b[4140..]) == MarshalExtensionCommitment(c)
  {
    hide Ascii, PutUint, GetUint, ValidBaseCipher, MarshalExtensionCommitment;
    CipherLength(cipher, c.sessionId);
    var extension := MarshalExtensionCommitment(c).value;
    Slices(Ascii("KOF2"), PutUint(|cipher|, 4), cipher, extension);
    Widths();
    GetPut(|cipher|, 4);
  }
}
