/**
 The TLS 1.2 CBC record layer in both modes (minitls/cbc12.go): MAC-then-encrypt as in
 section 6.2.3.2 of RFC 5246 and encrypt-then-MAC as in section 3 of RFC 7366.

 AES is a pair of functions that undo each other, HMAC a function with a fixed output
 length; both are fields of `Primitives`. The explicit IV is an argument.
 */
module Cbc12 {
  import opened Words
  import opened Labels
  import opened Results
  import opened BigEndian
  import opened Ots
  import opened Padding12

  const MAX_PLAINTEXT: nat := 16384
  const MAX_PAYLOAD: nat := MAX_PLAINTEXT + 2048
  const BLOCK: nat := 16

  datatype Mode = MacThenEncrypt | EncryptThenMac

  datatype Primitives = Primitives(enc: Bytes -> (Label -> Label), dec: Bytes -> (Label -> Label), hmac: (Bytes, Bytes) -> Bytes)

  /** Decryption undoes encryption and the MAC has the suite's length. */
  ghost predicate Sound(p: Primitives, macSize: nat) {
    && (forall k, x :: p.dec(k)(p.enc(k)(x)) == x)
    && (forall k, m :: |p.hmac(k, m)| == macSize)
  }

  /** The MAC lengths of the CBC suites: SHA-1, SHA-256 and SHA-384. */
  predicate MacSize(n: nat) {
    n == 20 || n == 32 || n == 48
  }

  predicate AesKeyLength(n: nat) {
    n == 16 || n == 24 || n == 32
  }

  // CBC

  function CbcEncrypt(enc: Label -> Label, iv: Label, data: Bytes): (c: Bytes)
    requires |data| % 16 == 0
    ensures |c| == |data|
    decreases |data|
  {
    if data == [] then []
    else
      var block := enc(FromBytes(data[..16]).Xor(iv));
      Put(block) + CbcEncrypt(enc, block, data[16..])
  }

  function CbcDecrypt(dec: Label -> Label, iv: Label, data: Bytes): (p: Bytes)
    requires |data| % 16 == 0
    ensures |p| == |data|
    decreases |data|
  {
    if data == [] then []
    else
      var block := FromBytes(data[..16]);
      Put(dec(block).Xor(iv)) + CbcDecrypt(dec, block, data[16..])
  }

  lemma {:induction false} CbcRoundTrip(enc: Label -> Label, dec: Label -> Label, iv: Label, data: Bytes)
    requires |data| % 16 == 0 && forall x :: dec(enc(x)) == x
    ensures CbcDecrypt(dec, iv, CbcEncrypt(enc, iv, data)) == data
    decreases |data|
  {
    hide Put, FromBytes, Label.Xor;
    if data != [] {
      var p := FromBytes(data[..16]);
      var block := enc(p.Xor(iv));
      var c := CbcEncrypt(enc, iv, data);
      assert c[..16] == Put(block) && c[16..] == CbcEncrypt(enc, block, data[16..]);
      LabelRoundTrip(block, data[..16]);
      XorCancel(p, iv);
      CbcRoundTrip(enc, dec, block, data[16..]);
      assert data == data[..16] + data[16..];
    }
  }

  // Padding

  function PadBytes(n: nat): nat {
    BLOCK - n % BLOCK
  }

  function Padded(data: Bytes): (r: Bytes)
    ensures |r| % 16 == 0 && |data| < |r| <= |data| + 16
  {
    data + seq<Byte>(PadBytes(|data|), _ => ByteOfNat(PadBytes(|data|) - 1))
  }

  /** `appendTLSPadding` with the AES block size. */
  method AppendTLSPadding(data: Bytes) returns (r: Bytes)
    ensures r == Padded(data)
  {
    hide ByteOfNat;
    var paddingBytes := BLOCK - |data| % BLOCK;
    var paddingValue := ByteOfNat(paddingBytes - 1);
    r := data;
    for i := 0 to paddingBytes
      invariant r == data + seq<Byte>(i, _ => paddingValue)
    {
      r := r + [paddingValue];
    }
  }

  /** What was appended is what extraction removes. */
  lemma {:induction false} PaddingRoundTrip(data: Bytes)
    ensures PaddingSpec(Padded(data)) == (PadBytes(|data|), ONES8)
  {
    hide NatOfByte, ByteOfNat;
    var n := PadBytes(|data|);
    var r := Padded(data);
    ByteRoundTrip(n - 1, r[|r| - 1]);
    assert r[|r| - 1] == ByteOfNat(n - 1);
  }

  function RoundUp(value: nat, multiple: nat): nat
    requires multiple > 0
  {
    value + (multiple - value % multiple) % multiple
  }

  // One record, as functions of the key and the sequence number

  datatype Keys = Keys(key: Bytes, macKey: Bytes)

  function MacInput(seqNum: Index, contentType: Byte, length: nat, data: Bytes): Bytes {
    PutUint(seqNum, 8) + [contentType] + PutUint(0x0303, 2) + PutUint(length, 2) + data
  }

  function Mac(p: Primitives, macKey: Bytes, seqNum: Index, contentType: Byte, length: nat, data: Bytes): Bytes {
    p.hmac(macKey, MacInput(seqNum, contentType, length, data))
  }

  function Fragment(p: Primitives, key: Bytes, iv: Bytes, body: Bytes): (f: Bytes)
    requires |iv| == 16
    ensures |f| == 16 + |Padded(body)|
  {
    iv + CbcEncrypt(p.enc(key), FromBytes(iv), Padded(body))
  }

  function SealedPayload(p: Primitives, k: Keys, mode: Mode, seqNum: Index, contentType: Byte, plaintext: Bytes, iv: Bytes): Bytes
    requires |iv| == 16
  {
    match mode
    case MacThenEncrypt =>
      Fragment(p, k.key, iv, plaintext + Mac(p, k.macKey, seqNum, contentType, |plaintext|, plaintext))
    case EncryptThenMac =>
      var f := Fragment(p, k.key, iv, plaintext);
      f + Mac(p, k.macKey, seqNum, contentType, |f|, f)
  }

  function Header(contentType: Byte, length: nat): (h: Bytes)
    ensures |h| == 5
  {
    [contentType] + PutUint(0x0303, 2) + PutUint(length, 2)
  }

  predicate ValidHeader(header: Bytes, payload: Bytes) {
    && |header| == 5 && |payload| <= MAX_PAYLOAD
    && GetUint(header[1..3]) == 0x0303
    && GetUint(header[3..5]) == |payload|
  }

  /** The decrypted body of a fragment of acceptable shape. */
  function OpenFragment(p: Primitives, key: Bytes, f: Bytes, minimum: nat): Result<Bytes> {
    if |f| < BLOCK + minimum || (|f| - BLOCK) % BLOCK != 0 then Err
    else Ok(CbcDecrypt(p.dec(key), FromBytes(f[..16]), f[16..]))
  }

  /** MAC-then-encrypt: where the code looks for the MAC, clamped at the front. */
  function MacAt(body: Bytes, macSize: nat): nat {
    var n := |body| - macSize - PaddingSpec(body).0;
    if n < 0 then 0 else n
  }

  function OpenPayload(p: Primitives, k: Keys, mode: Mode, macSize: nat, seqNum: Index, contentType: Byte, payload: Bytes)
    : Result<Bytes>
  {
    match mode
    case EncryptThenMac =>
      if |payload| < macSize then Err else
      var f := payload[..|payload| - macSize];
      if Mac(p, k.macKey, seqNum, contentType, |f|, f) != payload[|payload| - macSize..] then Err else
      var body := OpenFragment(p, k.key, f, BLOCK);
      if body.Err? then Err else
      var (remove, good) := PaddingSpec(body.value);
      if good != ONES8 || remove > |body.value| then Err else
      var plaintext := body.value[..|body.value| - remove];
      if |plaintext| > MAX_PLAINTEXT then Err else Ok(plaintext)
    case MacThenEncrypt =>
      var body := OpenFragment(p, k.key, payload, RoundUp(macSize + 1, BLOCK));
      if body.Err? then Err else
      var n := MacAt(body.value, macSize);
      if n + macSize > |body.value| then Err else
      var plaintext := body.value[..n];
      if Mac(p, k.macKey, seqNum, contentType, n, plaintext) != body.value[n..n + macSize]
         || PaddingSpec(body.value).1 != ONES8 || n > MAX_PLAINTEXT then Err
      else Ok(plaintext)
  }

  // Writing and then reading

  lemma {:induction false} FragmentRoundTrip(p: Primitives, macSize: nat, key: Bytes, iv: Bytes, body: Bytes, minimum: nat)
    requires Sound(p, macSize) && |iv| == 16 && minimum <= |Padded(body)|
    ensures OpenFragment(p, key, Fragment(p, key, iv, body), minimum) == Ok(Padded(body))
  {
    hide CbcEncrypt, CbcDecrypt, FromBytes, Padded;
    var f := Fragment(p, key, iv, body);
    assert f[..16] == iv && f[16..] == CbcEncrypt(p.enc(key), FromBytes(iv), Padded(body));
    CbcRoundTrip(p.enc(key), p.dec(key), FromBytes(iv), Padded(body));
  }

  lemma {:induction false} EtmRoundTrip(p: Primitives, macSize: nat, k: Keys, seqNum: Index, contentType: Byte, plaintext: Bytes, iv: Bytes)
    requires Sound(p, macSize) && |iv| == 16 && |plaintext| <= MAX_PLAINTEXT
    ensures OpenPayload(p, k, EncryptThenMac, macSize, seqNum, contentType,
                        SealedPayload(p, k, EncryptThenMac, seqNum, contentType, plaintext, iv)) == Ok(plaintext)
  {
    hide Fragment, OpenFragment, Padded, PaddingSpec, PutUint;
    var f := Fragment(p, k.key, iv, plaintext);
    var m := Mac(p, k.macKey, seqNum, contentType, |f|, f);
    assert (f + m)[..|f|] == f && (f + m)[|f|..] == m;
    FragmentRoundTrip(p, macSize, k.key, iv, plaintext, BLOCK);
    PaddingRoundTrip(plaintext);
    PaddedPrefix(plaintext);
  }

  lemma {:induction false} PaddedPrefix(data: Bytes)
    ensures |Padded(data)| == |data| + PadBytes(|data|)
    ensures Padded(data)[..|data|] == data
    ensures forall i, j :: 0 <= i <= j <= |data| ==> Padded(data)[i..j] == data[i..j]
  {}

  lemma {:induction false} MteRoundTrip(p: Primitives, macSize: nat, k: Keys, seqNum: Index, contentType: Byte, plaintext: Bytes, iv: Bytes)
    requires Sound(p, macSize) && |iv| == 16 && |plaintext| <= MAX_PLAINTEXT
    ensures OpenPayload(p, k, MacThenEncrypt, macSize, seqNum, contentType,
                        SealedPayload(p, k, MacThenEncrypt, seqNum, contentType, plaintext, iv)) == Ok(plaintext)
  {
    hide Fragment, OpenFragment, Padded, PaddingSpec, PutUint, Mac, RoundUp;
    var m := Mac(p, k.macKey, seqNum, contentType, |plaintext|, plaintext);
    MacLength(p, macSize, k.macKey, seqNum, contentType, |plaintext|, plaintext);
    var body := plaintext + m;
    var n := |plaintext|;
    PaddedAtLeast(body, macSize + 1);
    FragmentRoundTrip(p, macSize, k.key, iv, body, RoundUp(macSize + 1, BLOCK));
    PaddingRoundTrip(body);
    PaddedPrefix(body);
    assert body[..n] == plaintext && body[n..n + macSize] == m;
    assert MacAt(Padded(body), macSize) == n;
    assert Padded(body)[..n] == Padded(body)[0..n] == body[0..n];
  }

  lemma {:induction false} MacLength(p: Primitives, macSize: nat, macKey: Bytes, seqNum: Index, contentType: Byte, length: nat, data: Bytes)
    requires Sound(p, macSize)
    ensures |Mac(p, macKey, seqNum, contentType, length, data)| == macSize
  {
    hide PutUint;
  }

  lemma {:induction false} PaddedAtLeast(body: Bytes, n: nat)
    requires n <= |body| + 1
    ensures RoundUp(n, BLOCK) <= |Padded(body)|
  {
    hide Padded;
    RoundUpLeast(n, |Padded(body)|);
  }

  lemma {:induction false} RoundUpLeast(n: nat, r: nat)
    requires r % 16 == 0 && n <= r
    ensures RoundUp(n, BLOCK) <= r
  {
    var q, e, s := n / 16, n % 16, r / 16;
    assert n == 16 * q + e && r == 16 * s;
    if e == 0 {
      assert RoundUp(n, BLOCK) == n;
    } else {
      assert RoundUp(n, BLOCK) == 16 * q + 16;
      assert s >= q + 1;
    }
  }

  /** A record opens to what was sealed, in both modes, for every plaintext length, content type and IV. */
  lemma {:induction false} RecordRoundTrip(p: Primitives, macSize: nat, k: Keys, mode: Mode, seqNum: Index, contentType: Byte,
                                           plaintext: Bytes, iv: Bytes)
    requires Sound(p, macSize) && |iv| == 16 && |plaintext| <= MAX_PLAINTEXT
    ensures OpenPayload(p, k, mode, macSize, seqNum, contentType,
                        SealedPayload(p, k, mode, seqNum, contentType, plaintext, iv)) == Ok(plaintext)
  {
    hide OpenPayload, SealedPayload;
    match mode
    case EncryptThenMac => EtmRoundTrip(p, macSize, k, seqNum, contentType, plaintext, iv);
    case MacThenEncrypt => MteRoundTrip(p, macSize, k, seqNum, contentType, plaintext, iv);
  }

  /** The size check that follows sealing never fires. */
  lemma {:induction false} PayloadFits(p: Primitives, macSize: nat, k: Keys, mode: Mode, seqNum: Index, contentType: Byte,
                                       plaintext: Bytes, iv: Bytes)
    requires Sound(p, macSize) && MacSize(macSize) && |iv| == 16 && |plaintext| <= MAX_PLAINTEXT
    ensures |SealedPayload(p, k, mode, seqNum, contentType, plaintext, iv)| <= MAX_PAYLOAD
  {
    hide Fragment, Padded, Mac;
    MacLength(p, macSize, k.macKey, seqNum, contentType, |plaintext|, plaintext);
    var f := Fragment(p, k.key, iv, plaintext);
    MacLength(p, macSize, k.macKey, seqNum, contentType, |f|, f);
  }

  lemma {:induction false} HeaderIsValid(contentType: Byte, payload: Bytes)
    requires |payload| <= MAX_PAYLOAD
    ensures ValidHeader(Header(contentType, |payload|), payload) && Header(contentType, |payload|)[0] == contentType
  {
    hide PutUint, GetUint;
    var h := Header(contentType, |payload|);
    assert h[1..3] == PutUint(0x0303, 2) && h[3..5] == PutUint(|payload|, 2);
    Widths();
    GetPut(0x0303, 2);
    GetPut(|payload|, 2);
  }

  // The context object

  class Context {
    const primitives: Primitives
    const writeKeys: Keys
    const readKeys: Keys
    const mode: Mode
    const macSize: nat
    var writeSeq: Index
    var readSeq: Index

    constructor (primitives: Primitives, writeKeys: Keys, readKeys: Keys, mode: Mode, macSize: nat, readSeq: Index)
      ensures this.primitives == primitives && this.writeKeys == writeKeys && this.readKeys == readKeys
      ensures this.mode == mode && this.macSize == macSize && writeSeq == 0 && this.readSeq == readSeq
    {
      this.primitives, this.writeKeys, this.readKeys := primitives, writeKeys, readKeys;
      this.mode, this.macSize, writeSeq, this.readSeq := mode, macSize, 0, readSeq;
    }

    /** The suite's key lengths; a read-only context has no write key. */
    ghost predicate Valid() {
      && Sound(primitives, macSize) && MacSize(macSize)
      && (|writeKeys.key| == 0 || AesKeyLength(|writeKeys.key|)) && AesKeyLength(|readKeys.key|)
    }

    /** `rng` is what the IV is read from; only its length can make the read fail. */
    method EncryptRecord(contentType: Byte, plaintext: Bytes, rng: Bytes) returns (r: Result<Bytes>)
      requires Valid()
      modifies this`writeSeq
      ensures r.Ok? <==> old(writeSeq) != UINT64 - 1 && |plaintext| <= MAX_PLAINTEXT && |writeKeys.key| > 0 && |rng| >= 16
      ensures r.Ok? ==>
                var payload := SealedPayload(primitives, writeKeys, mode, old(writeSeq), contentType, plaintext, rng[..16]);
                writeSeq == old(writeSeq) + 1 && |payload| <= MAX_PAYLOAD && r.value == Header(contentType, |payload|) + payload
      ensures r.Err? ==> writeSeq == old(writeSeq)
    {
      hide CbcEncrypt, Mac, Padded, Sound;
      if writeSeq == UINT64 - 1 || |plaintext| > MAX_PLAINTEXT || |writeKeys.key| == 0 {
        return Err;
      }
      if !AesKeyLength(|writeKeys.key|) {
        return Err;
      }
      if |rng| < 16 {
        return Err;
      }
      var explicitIV := rng[..16];
      var body := plaintext;
      if mode == MacThenEncrypt {
        body := plaintext + Mac(primitives, writeKeys.macKey, writeSeq, contentType, |plaintext|, plaintext);
      }
      var padded := AppendTLSPadding(body);
      var ciphertext := CbcEncrypt(primitives.enc(writeKeys.key), FromBytes(explicitIV), padded);
      var payload := explicitIV + ciphertext;
      if mode == EncryptThenMac {
        payload := payload + Mac(primitives, writeKeys.macKey, writeSeq, contentType, |payload|, payload);
      }
      PayloadFits(primitives, macSize, writeKeys, mode, writeSeq, contentType, plaintext, explicitIV);
      if |payload| > MAX_PAYLOAD {
        return Err;
      }
      writeSeq := writeSeq + 1;
      r := Ok(Header(contentType, |payload|) + payload);
    }

    method DecryptRecord(header: Bytes, payload: Bytes) returns (r: Result<Bytes>)
      requires Valid()
      modifies this`readSeq
      ensures r == if old(readSeq) != UINT64 - 1 && ValidHeader(header, payload)
                   then OpenPayload(primitives, readKeys, mode, macSize, old(readSeq), header[0], payload) else Err
      ensures readSeq == old(readSeq) + if r.Ok? then 1 else 0
    {
      hide CbcDecrypt, Mac, Sound, GetUint, PaddingSpec, FromBytes;
      if readSeq == UINT64 - 1 {
        return Err;
      }
      if !ValidHeader(header, payload) {
        return Err;
      }
      var contentType := header[0];
      var fragment := payload;
      if mode == EncryptThenMac {
        if |payload| < macSize {
          return Err;
        }
        fragment := payload[..|payload| - macSize];
        var remoteMAC := payload[|payload| - macSize..];
        var localMAC := Mac(primitives, readKeys.macKey, readSeq, contentType, |fragment|, fragment);
        if localMAC != remoteMAC {
          return Err;
        }
      }
      var minimum := if mode == MacThenEncrypt then RoundUp(macSize + 1, BLOCK) else BLOCK;
      if |fragment| < BLOCK + minimum || (|fragment| - BLOCK) % BLOCK != 0 {
        return Err;
      }
      var body := CbcDecrypt(primitives.dec(readKeys.key), FromBytes(fragment[..16]), fragment[16..]);
      var toRemove, good := ExtractTLS12Padding(body);
      if mode == EncryptThenMac {
        if good != ONES8 || toRemove > |body| {
          return Err;
        }
        var plaintext := body[..|body| - toRemove];
        if |plaintext| > MAX_PLAINTEXT {
          return Err;
        }
        readSeq := readSeq + 1;
        return Ok(plaintext);
      }
      var n := |body| - macSize - toRemove;
      if n < 0 {
        n := 0;
      }
      if n + macSize > |body| {
        return Err;
      }
      var remote := body[n..n + macSize];
      var local := Mac(primitives, readKeys.macKey, readSeq, contentType, n, body[..n]);
      if local != remote || good != ONES8 || n > MAX_PLAINTEXT {
        return Err;
      }
      readSeq := readSeq + 1;
      r := Ok(body[..n]);
    }
  }

  // Streams

  datatype Record = Record(contentType: Byte, plaintext: Bytes, iv: Bytes)

  /** What arrives: the writer's next record, or bytes the reader rejects. */
  datatype Arrival = Genuine(record: Record) | Junk(header: Bytes, payload: Bytes)

  function Plaintexts(arrivals: seq<Arrival>): seq<Bytes> {
    if arrivals == [] then []
    else (if arrivals[0].Genuine? then [arrivals[0].record.plaintext] else []) + Plaintexts(arrivals[1..])
  }

  function Genuines(arrivals: seq<Arrival>): nat {
    if arrivals == [] then 0 else (if arrivals[0].Genuine? then 1 else 0) + Genuines(arrivals[1..])
  }

  /** What the reader does with one header and payload at a given sequence number. */
  function Read(p: Primitives, k: Keys, mode: Mode, macSize: nat, seqNum: nat, header: Bytes, payload: Bytes): Result<Bytes> {
    if seqNum < UINT64 - 1 && ValidHeader(header, payload)
    then OpenPayload(p, k, mode, macSize, seqNum, header[0], payload) else Err
  }

  /** The header and payload an arrival puts on the wire. */
  function Wire(p: Primitives, k: Keys, mode: Mode, writeSeq: Index, a: Arrival): (Bytes, Bytes)
    requires a.Genuine? ==> |a.record.iv| == 16
  {
    match a
    case Genuine(record) =>
      var sealed := SealedPayload(p, k, mode, writeSeq, record.contentType, record.plaintext, record.iv);
      (Header(record.contentType, |sealed|), sealed)
    case Junk(header, payload) => (header, payload)
  }

  /** The writer seals genuine records with consecutive numbers; the reader counts only what it accepts. */
  function ReadAll(p: Primitives, k: Keys, mode: Mode, macSize: nat, writeSeq: nat, readSeq: nat, arrivals: seq<Arrival>): (seq<Bytes>, nat)
    requires writeSeq + Genuines(arrivals) < UINT64
    requires forall i :: 0 <= i < |arrivals| && arrivals[i].Genuine? ==> |arrivals[i].record.iv| == 16
    decreases |arrivals|
  {
    if arrivals == [] then ([], readSeq) else
      hide Read, Wire;
      var a := arrivals[0];
      var r := Read(p, k, mode, macSize, readSeq, Wire(p, k, mode, writeSeq, a).0, Wire(p, k, mode, writeSeq, a).1);
      var (rest, last) := ReadAll(p, k, mode, macSize, if a.Genuine? then writeSeq + 1 else writeSeq,
                                  if r.Ok? then readSeq + 1 else readSeq, arrivals[1..]);
      (if r.Ok? then [r.value] + rest else rest, last)
  }

  /** Junk that is rejected at the sequence number it meets. */
  ghost predicate JunkRejected(p: Primitives, k: Keys, mode: Mode, macSize: nat, seqNum: nat, arrivals: seq<Arrival>)
    decreases |arrivals|
  {
    arrivals == [] ||
    (&& (arrivals[0].Junk? ==> Read(p, k, mode, macSize, seqNum, arrivals[0].header, arrivals[0].payload).Err?)
     && JunkRejected(p, k, mode, macSize, if arrivals[0].Genuine? then seqNum + 1 else seqNum, arrivals[1..]))
  }

  lemma {:induction false} GenuineIsRead(p: Primitives, k: Keys, mode: Mode, macSize: nat, seqNum: nat, a: Arrival)
    requires Sound(p, macSize) && MacSize(macSize) && seqNum + 1 < UINT64
    requires a.Genuine? && |a.record.iv| == 16 && |a.record.plaintext| <= MAX_PLAINTEXT
    ensures var (header, payload) := Wire(p, k, mode, seqNum, a);
            Read(p, k, mode, macSize, seqNum, header, payload) == Ok(a.record.plaintext)
  {
    hide Sound, SealedPayload, OpenPayload, ValidHeader, Header;
    var r := a.record;
    PayloadFits(p, macSize, k, mode, seqNum, r.contentType, r.plaintext, r.iv);
    HeaderIsValid(r.contentType, SealedPayload(p, k, mode, seqNum, r.contentType, r.plaintext, r.iv));
    RecordRoundTrip(p, macSize, k, mode, seqNum, r.contentType, r.plaintext, r.iv);
  }

  /**
   Every stream: the reader outputs the writer's plaintexts, all of them, in order, whatever
   rejected bytes arrive in between, and ends at the writer's sequence number.
   */
  lemma {:induction false} StreamRoundTrip(p: Primitives, k: Keys, mode: Mode, macSize: nat, seqNum: nat, arrivals: seq<Arrival>)
    requires Sound(p, macSize) && MacSize(macSize) && seqNum + Genuines(arrivals) < UINT64
    requires forall i :: 0 <= i < |arrivals| && arrivals[i].Genuine? ==>
               |arrivals[i].record.iv| == 16 && |arrivals[i].record.plaintext| <= MAX_PLAINTEXT
    requires JunkRejected(p, k, mode, macSize, seqNum, arrivals)
    ensures ReadAll(p, k, mode, macSize, seqNum, seqNum, arrivals) == (Plaintexts(arrivals), seqNum + Genuines(arrivals))
    decreases |arrivals|
  {
    hide Sound, MacSize, Read, Wire;
    if arrivals != [] {
      var a := arrivals[0];
      if a.Genuine? {
        GenuineIsRead(p, k, mode, macSize, seqNum, a);
        StreamRoundTrip(p, k, mode, macSize, seqNum + 1, arrivals[1..]);
      } else {
        JunkWire(p, k, mode, seqNum, a);
        StreamRoundTrip(p, k, mode, macSize, seqNum, arrivals[1..]);
        assert Plaintexts(arrivals) == Plaintexts(arrivals[1..]);
      }
    }
  }

  lemma {:induction false} JunkWire(p: Primitives, k: Keys, mode: Mode, writeSeq: Index, a: Arrival)
    requires a.Junk?
    ensures Wire(p, k, mode, writeSeq, a) == (a.header, a.payload)
  {
    hide SealedPayload, Header;
  }
}
