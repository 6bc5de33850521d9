/** Frames of the online protocol (mpc/serialize.go, mpc/wire.go). */
module OnlineFrames {
  import opened Words
  import opened Labels
  import opened Results
  import opened Packing
  import opened BigEndian
  import opened Ots
  import opened Gates
  import opened Circuit
  import opened Online
  import opened Plan
  import opened Extension
  import opened Frames

  const PAYLOAD_HEADER: nat := 40

  // Choice corrections

  function MarshalChoiceCorrections(corrections: seq<bool>): Result<Bytes> {
    if |corrections| != INPUT_BITS then Err else Ok(BytesOf(corrections))
  }

  function UnmarshalChoiceCorrections(data: Bytes): Result<seq<bool>> {
    if |data| != INPUT_BITS / 8 then Err else Ok(BitsOf(data))
  }

  lemma {:induction false} CorrectionsExact(corrections: seq<bool>, data: Bytes)
    ensures MarshalChoiceCorrections(corrections) == Ok(data) <==> UnmarshalChoiceCorrections(data) == Ok(corrections)
  {
    if |data| == INPUT_BITS / 8 && BitsOf(data) == corrections {
      BitsInjective(data, BytesOf(corrections));
    }
  }

  // Counted labels: output labels, and masks as two labels each

  function CountedLabels(labels: seq<Label>, count: nat): Bytes {
    PutUint(count, 4) + PutLabels(labels)
  }

  function MarshalOutputLabels(labels: seq<Label>): Result<Bytes> {
    if |labels| != OUTPUT_BITS then Err else Ok(CountedLabels(labels, OUTPUT_BITS))
  }

  function UnmarshalOutputLabels(data: Bytes): Result<seq<Label>> {
    hide PutUint, GetU32, GetLabels;
    if |data| < 4 then Err
    else if GetU32(data[..4]) != OUTPUT_BITS || |data| != 4 + OUTPUT_BITS * 16 then Err
    else Ok(GetLabels(data[4..], OUTPUT_BITS))
  }

  lemma {:induction false} CountedParts(labels: seq<Label>, count: nat)
    requires count < 0x1_0000_0000
    ensures var data := CountedLabels(labels, count);
            && |data| == 4 + 16 * |labels| && GetU32(data[..4]) == count
            && data[4..] == PutLabels(labels) && GetLabels(data[4..], |labels|) == labels
  {
    hide PutUint, GetU32, PutLabels, GetLabels;
    var data := CountedLabels(labels, count);
    assert data[..4] == PutUint(count, 4) && data[4..] == PutLabels(labels);
    U32RoundTrip(count);
    LabelsRoundTrip(labels);
  }

  lemma {:induction false} CountedRestored(data: Bytes, n: nat)
    requires |data| == 4 + 16 * n
    ensures CountedLabels(GetLabels(data[4..], n), GetU32(data[..4])) == data
  {
    hide PutUint, GetU32, PutLabels, GetLabels;
    LabelsRestored(data[4..], n);
    assert data == data[..4] + data[4..];
  }

  lemma {:induction false} OutputLabelsExact(labels: seq<Label>, data: Bytes)
    ensures MarshalOutputLabels(labels) == Ok(data) <==> UnmarshalOutputLabels(data) == Ok(labels)
  {
    hide CountedLabels, PutUint, GetU32, PutLabels, GetLabels;
    if MarshalOutputLabels(labels) == Ok(data) { CountedParts(labels, OUTPUT_BITS); }
    if UnmarshalOutputLabels(data) == Ok(labels) { CountedRestored(data, OUTPUT_BITS); }
  }

  /** A mask is sent as its two labels. */
  function MaskLabels(masks: seq<OTMask>): (labels: seq<Label>)
    ensures |labels| == 2 * |masks|
  {
    if masks == [] then [] else [masks[0].m0, masks[0].m1] + MaskLabels(masks[1..])
  }

  function LabelMasks(labels: seq<Label>, n: nat): (masks: seq<OTMask>)
    requires |labels| == 2 * n
    ensures |masks| == n
    decreases n
  {
    if n == 0 then [] else [OTMask(labels[0], labels[1])] + LabelMasks(labels[2..], n - 1)
  }

  lemma {:induction false} MasksRoundTrip(masks: seq<OTMask>)
    ensures LabelMasks(MaskLabels(masks), |masks|) == masks
    decreases |masks|
  {
    if masks != [] {
      MasksRoundTrip(masks[1..]);
      assert MaskLabels(masks)[2..] == MaskLabels(masks[1..]);
    }
  }

  lemma {:induction false} MasksRestored(labels: seq<Label>, n: nat)
    requires |labels| == 2 * n
    ensures MaskLabels(LabelMasks(labels, n)) == labels
    decreases n
  {
    if n > 0 {
      MasksRestored(labels[2..], n - 1);
      assert LabelMasks(labels, n)[1..] == LabelMasks(labels[2..], n - 1);
      assert labels == [labels[0], labels[1]] + labels[2..];
    }
  }

  function MarshalOTMasks(masks: seq<OTMask>): Result<Bytes> {
    if |masks| != INPUT_BITS then Err else Ok(CountedLabels(MaskLabels(masks), INPUT_BITS))
  }

  function UnmarshalOTMasks(data: Bytes): Result<seq<OTMask>> {
    hide PutUint, GetU32, GetLabels;
    if |data| < 4 then Err
    else if GetU32(data[..4]) != INPUT_BITS || |data| != 4 + INPUT_BITS * 32 then Err
    else Ok(LabelMasks(GetLabels(data[4..], 2 * INPUT_BITS), INPUT_BITS))
  }

  lemma {:induction false} OTMasksExact(masks: seq<OTMask>, data: Bytes)
    ensures MarshalOTMasks(masks) == Ok(data) <==> UnmarshalOTMasks(data) == Ok(masks)
  {
    hide CountedLabels, PutUint, GetU32, PutLabels, GetLabels, MaskLabels, LabelMasks;
    if MarshalOTMasks(masks) == Ok(data) {
      CountedParts(MaskLabels(masks), INPUT_BITS);
      MasksRoundTrip(masks);
    }
    if UnmarshalOTMasks(data) == Ok(masks) {
      CountedRestored(data, 2 * INPUT_BITS);
      MasksRestored(GetLabels(data[4..], 2 * INPUT_BITS), INPUT_BITS);
    }
  }

  // MPC1

  function PayloadSize(tableCount: nat): nat {
    PAYLOAD_HEADER + tableCount * 16 + INPUT_BITS * 16 + OUTPUT_BITS / 8
  }

  predicate PayloadShape(tableCount: nat, p: Payload) {
    |p.tables| == tableCount && |p.garblerInputs| == INPUT_BITS && |p.translations| == OUTPUT_BITS / 8
  }

  function Header(p: Payload): (b: Bytes)
    ensures |b| == PAYLOAD_HEADER
  {
    hide Ascii, PutUint, PutWord;
    Ascii("MPC1") + PutWord(p.sessionId) + p.key + PutUint(p.otStart, 8) + PutUint(|p.tables|, 4)
  }

  /** The payload as bytes; `tableCount` is the engine's. */
  function PayloadFrame(tableCount: nat, p: Payload): Result<Bytes> {
    if |p.tables| != tableCount || |p.garblerInputs| != INPUT_BITS then Err
    else Ok(Header(p) + PutLabels(p.tables) + PutLabels(p.garblerInputs) + p.translations)
  }

  function ReadPayload(tableCount: nat, data: Bytes): Result<Payload> {
    hide Ascii, PutUint, GetU32, GetIndex, GetLabels, WordFromBytes;
    if |data| < PAYLOAD_HEADER || data[..4] != Ascii("MPC1") then Err
    else if GetU32(data[36..40]) != tableCount || |data| != PayloadSize(tableCount) then Err
    else
      var a, b := PAYLOAD_HEADER + 16 * tableCount, PAYLOAD_HEADER + 16 * tableCount + 16 * INPUT_BITS;
      Ok(Payload(WordFromBytes(data[4..12]), data[12..28], GetLabels(data[40..a], tableCount),
                 GetLabels(data[a..b], INPUT_BITS), data[b..], GetIndex(data[28..36])))
  }

  method MarshalOnlinePayload(tableCount: nat, p: Payload) returns (r: Result<Bytes>)
    requires |p.translations| == OUTPUT_BITS / 8
    ensures r == PayloadFrame(tableCount, p)
  {
    hide Ascii, PutUint, PutWord, PutLabels;
    if |p.tables| != tableCount || |p.garblerInputs| != INPUT_BITS {
      return Err;
    }
    var out := new Byte[PAYLOAD_HEADER + |p.tables| * 16 + INPUT_BITS * 16 + |p.translations|](_ => ZERO8);
    CopyAt(out, 0, Ascii("MPC1"));
    CopyAt(out, 4, PutWord(p.sessionId));
    CopyAt(out, 12, p.key);
    CopyAt(out, 28, PutUint(p.otStart, 8));
    CopyAt(out, 36, PutUint(|p.tables|, 4));
    assert out[..40] == Header(p);
    var off := PAYLOAD_HEADER;
    PutLabelsAt(out, off, p.tables);
    off := off + 16 * |p.tables|;
    PutLabelsAt(out, off, p.garblerInputs);
    off := off + 16 * |p.garblerInputs|;
    CopyAt(out, off, p.translations);
    assert out[..off + |p.translations|] == out[..];
    return Ok(out[..]);
  }

  method UnmarshalOnlinePayload(tableCount: nat, data: Bytes) returns (r: Result<Payload>)
    ensures r == ReadPayload(tableCount, data)
  {
    hide Ascii, PutUint, GetU32, GetIndex, GetLabels, WordFromBytes;
    if |data| < PAYLOAD_HEADER || data[..4] != Ascii("MPC1") {
      return Err;
    }
    if GetU32(data[36..40]) != tableCount || |data| != PAYLOAD_HEADER + tableCount * 16 + INPUT_BITS * 16 + OUTPUT_BITS / 8 {
      return Err;
    }
    var off := PAYLOAD_HEADER;
    var tables := GetLabelsAt(data, off, tableCount);
    off := off + 16 * tableCount;
    var inputs := GetLabelsAt(data, off, INPUT_BITS);
    off := off + 16 * INPUT_BITS;
    return Ok(Payload(WordFromBytes(data[4..12]), data[12..28], tables, inputs, data[off..], GetIndex(data[28..36])));
  }

  lemma {:induction false} HeaderFields(p: Payload, rest: Bytes)
    requires |p.tables| < 0x1_0000_0000
    ensures var data := Header(p) + rest;
            && data[..4] == Ascii("MPC1") && WordFromBytes(data[4..12]) == p.sessionId && data[12..28] == p.key
            && GetIndex(data[28..36]) == p.otStart && GetU32(data[36..40]) == |p.tables|
  {
    hide Ascii, PutUint, GetU32, GetIndex, PutWord, WordFromBytes;
    Slices8(Ascii("MPC1"), PutWord(p.sessionId), p.key, PutUint(p.otStart, 8), PutUint(|p.tables|, 4), rest, [], []);
    var data := Header(p) + rest;
    assert data == data + [] + [];
    WordRoundTrip(p.sessionId, PutWord(p.sessionId));
    IndexRoundTrip(p.otStart);
    U32RoundTrip(|p.tables|);
  }

  /** The payload an engine sends is the payload its peer reads, and is as long as declared. */
  lemma {:induction false} PayloadRoundTrip(tableCount: nat, p: Payload)
    requires PayloadShape(tableCount, p) && tableCount < 0x1_0000_0000
    ensures var r := PayloadFrame(tableCount, p);
            r.Ok? && |r.value| == PayloadSize(tableCount) && ReadPayload(tableCount, r.value) == Ok(p)
  {
    hide Ascii, PutUint, GetU32, GetIndex, GetLabels, PutLabels, WordFromBytes, Header;
    var t, g := PutLabels(p.tables), PutLabels(p.garblerInputs);
    var data := PayloadFrame(tableCount, p).value;
    assert data == Header(p) + (t + g + p.translations);
    HeaderFields(p, t + g + p.translations);
    Slices(Header(p), t, g, p.translations);
    LabelsRoundTrip(p.tables);
    LabelsRoundTrip(p.garblerInputs);
  }

  lemma {:induction false} PayloadRestored(tableCount: nat, data: Bytes)
    requires ReadPayload(tableCount, data).Ok?
    ensures PayloadFrame(tableCount, ReadPayload(tableCount, data).value) == Ok(data)
  {
    hide Ascii, PutUint, GetU32, GetIndex, GetLabels, PutLabels, PutWord, WordFromBytes;
    var a, b := PAYLOAD_HEADER + 16 * tableCount, PAYLOAD_HEADER + 16 * tableCount + 16 * INPUT_BITS;
    WordRoundTrip(ZERO, data[4..12]);
    LabelsRestored(data[40..a], tableCount);
    LabelsRestored(data[a..b], INPUT_BITS);
    Cut(data, 4, 12);
    Cut(data, 12, 28);
    Cut(data, 28, 36);
    Cut(data, 36, 40);
    Cut(data, 40, a);
    Cut(data, a, b);
    Cut(data, b, |data|);
    assert data[b..|data|] == data[b..] && data[..|data|] == data;
  }

  /** Every field of the payload at its offset, for 640 input and 128 output bits. */
  lemma {:induction false} PayloadLayout(tableCount: nat, p: Payload)
    requires PayloadShape(tableCount, p) && tableCount < 0x1_0000_0000
    ensures var b, end := PayloadFrame(tableCount, p).value, 40 + 16 * tableCount + 10240;
            && |b| == end + 16 && b[..4] == Ascii("MPC1") && WordFromBytes(b[4..12]) == p.sessionId && b[12..28] == p.key
            && GetIndex(b[28..36]) == p.otStart && GetU32(b[36..40]) == tableCount
            && b[40..40 + 16 * tableCount] == PutLabels(p.tables)
            && b[40 + 16 * tableCount..end] == PutLabels(p.garblerInputs) && b[end..] == p.translations
  {
    hide Ascii, PutUint, GetU32, GetIndex, PutLabels, WordFromBytes, Header;
    var t, g := PutLabels(p.tables), PutLabels(p.garblerInputs);
    assert PayloadFrame(tableCount, p).value == Header(p) + (t + g + p.translations);
    HeaderFields(p, t + g + p.translations);
    Slices(Header(p), t, g, p.translations);
  }
}
