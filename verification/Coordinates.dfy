/**
 Where response bytes live (client/redaction.go, client/tls.go, client/verification.go): the
 HTTP content is the application data of the decrypted records, and TEE_T's consolidated
 stream is the trimmed ciphertext of all of them.
 */
module Coordinates {
  import opened Results
  import opened Words
  import opened BigEndian

  const APPLICATION_DATA: nat := 23

  /** What the client can tell from its cipher suite; `Other` is an unknown one. */
  datatype Suite = Tls13 | Tls12 | Tls12Cbc | Other

  datatype Parsed = Parsed(content: Bytes, contentType: nat, originalLen: nat)

  datatype Mapping = Mapping(seqNum: nat, httpPos: nat, tlsPos: nat, length: nat, ciphertext: Bytes)

  datatype Range = Range(start: int, length: int, hash: string)

  datatype Analysis = Analysis(redactions: seq<Range>, mappings: seq<Mapping>, content: Bytes, offset: nat)

  /** The response as the client holds it, by sequence number. */
  datatype Held = Held(suite: Suite, parsed: map<nat, Parsed>, cipher: map<nat, Bytes>)

  /** Length of a record in the consolidated stream: TLS 1.3 drops the last byte. */
  function StreamLength(suite: Suite, originalLen: nat): int {
    if suite == Tls13 then originalLen - 1 else originalLen
  }

  // Taking records apart

  /** Inner plaintext of TLS 1.3: content, a non-zero type byte, zero padding. */
  function Strip(data: Bytes): (Bytes, nat) {
    if data == [] then ([], 0)
    else if data[|data| - 1] == ZERO8 then Strip(data[..|data| - 1])
    else (data[..|data| - 1], NatOfByte(data[|data| - 1]))
  }

  function RemoveSpec(suite: Suite, data: Bytes): (Bytes, nat) {
    if data == [] then ([], 0)
    else if suite == Tls12 || suite == Tls12Cbc then (data, APPLICATION_DATA)
    else Strip(data)
  }

  method RemoveTLSPadding(suite: Suite, data: Bytes) returns (content: Bytes, contentType: nat)
    ensures (content, contentType) == RemoveSpec(suite, data)
  {
    if |data| == 0 {
      return [], 0;
    }
    if suite == Tls12 || suite == Tls12Cbc {
      return data, APPLICATION_DATA;
    }
    var lastNonZero := |data| - 1;
    assert data[..|data|] == data;
    while lastNonZero >= 0 && data[lastNonZero] == ZERO8
      invariant -1 <= lastNonZero < |data|
      invariant Strip(data) == Strip(data[..lastNonZero + 1])
    {
      assert data[..lastNonZero + 1][..lastNonZero] == data[..lastNonZero];
      lastNonZero := lastNonZero - 1;
    }
    if lastNonZero < 0 {
      return [], 0;
    }
    assert data[..lastNonZero + 1][..lastNonZero] == data[..lastNonZero];
    return data[..lastNonZero], NatOfByte(data[lastNonZero]);
  }

  /** Padding of any length is removed exactly. */
  lemma {:induction false} StripRoundTrip(content: Bytes, kind: Byte, n: nat)
    requires kind != ZERO8
    ensures Strip(content + [kind] + Zeros(n)) == (content, NatOfByte(kind))
    decreases n
  {
    var data := content + [kind] + Zeros(n);
    if n == 0 {
      assert data == content + [kind];
      assert data[..|data| - 1] == content;
    } else {
      assert data[..|data| - 1] == content + [kind] + Zeros(n - 1);
      StripRoundTrip(content, kind, n - 1);
    }
  }

  /** TLS 1.2 data is taken whole, as application data (type 23); only an empty record has no type. */
  lemma {:induction false} Tls12TakenWhole(suite: Suite, data: Bytes)
    requires suite == Tls12 || suite == Tls12Cbc
    ensures RemoveSpec(suite, data) == (data, if data == [] then 0 else 23)
    ensures StreamLength(suite, |data|) == |data|
  {}

  /** A TLS 1.3 record without padding fills its place in the stream with content alone. */
  lemma {:induction false} Tls13Fills(content: Bytes, kind: Byte)
    requires kind != ZERO8
    ensures RemoveSpec(Tls13, content + [kind]) == (content, NatOfByte(kind))
    ensures StreamLength(Tls13, |content + [kind]|) == |content|
  {
    hide NatOfByte;
    StripRoundTrip(content, kind, 0);
    assert content + [kind] + Zeros(0) == content + [kind];
  }

  /** The content is a front part of the data, and shorter than it unless the data is empty. */
  lemma {:induction false} StripIsPrefix(data: Bytes)
    ensures Strip(data).0 <= data
    ensures data != [] ==> |Strip(data).0| < |data|
    decreases |data|
  {
    if data != [] && data[|data| - 1] == ZERO8 {
      StripIsPrefix(data[..|data| - 1]);
    }
  }

  // The records held

  /** A parsed record fits its place in the stream and its content is what was decrypted there. */
  ghost predicate Sound(suite: Suite, p: Parsed, ciphertext: Bytes, plain: Bytes) {
    && |plain| == p.originalLen
    && |ciphertext| == StreamLength(suite, p.originalLen)
    && p.content <= plain
    && |p.content| <= |ciphertext|
  }

  lemma {:induction false} RemoveIsSound(suite: Suite, plain: Bytes, ciphertext: Bytes)
    requires |ciphertext| == StreamLength(suite, |plain|)
    ensures var (content, kind) := RemoveSpec(suite, plain);
            Sound(suite, Parsed(content, kind, |plain|), ciphertext, plain)
  {
    StripIsPrefix(plain);
  }

  ghost predicate Decrypted(held: Held, plain: map<nat, Bytes>) {
    forall n <- held.parsed :: n in held.cipher && n in plain && Sound(held.suite, held.parsed[n], held.cipher[n], plain[n])
  }

  class Response {
    const suite: Suite
    var responseSeqNum: nat
    var ciphertextBySeq: map<nat, Bytes>
    var parsedResponseBySeq: map<nat, Parsed>
    ghost var plain: map<nat, Bytes>

    ghost predicate Valid()
      reads this
    {
      && Decrypted(Held(suite, parsedResponseBySeq, ciphertextBySeq), plain)
      && (forall n <- ciphertextBySeq :: n < responseSeqNum)
    }

    constructor (suite: Suite, first: nat)
      ensures Valid() && ciphertextBySeq == map[] && parsedResponseBySeq == map[]
    {
      this.suite := suite;
      responseSeqNum, ciphertextBySeq, parsedResponseBySeq, plain := first, map[], map[], map[];
    }

    /** A record from the server is filed under the next sequence number. */
    method CollectRecord(encryptedData: Bytes)
      requires Valid()
      modifies this
      ensures Valid()
      ensures responseSeqNum == old(responseSeqNum) + 1
      ensures ciphertextBySeq == old(ciphertextBySeq)[old(responseSeqNum) := encryptedData]
      ensures old(responseSeqNum) !in old(ciphertextBySeq)
      ensures parsedResponseBySeq == old(parsedResponseBySeq)
    {
      assert responseSeqNum !in ciphertextBySeq;
      ciphertextBySeq := ciphertextBySeq[responseSeqNum := encryptedData];
      responseSeqNum := responseSeqNum + 1;
    }

    /** One decryption stream; `false` ends the session. A short or unknown stream is ignored. */
    method ReceiveStream(seqNum: nat, stream: Bytes) returns (ok: bool)
      requires Valid()
      modifies this
      ensures Valid() && responseSeqNum == old(responseSeqNum)
      ensures var usable := seqNum in old(ciphertextBySeq) && |stream| >= |old(ciphertextBySeq)[seqNum]|;
              && ok == !(usable && suite == Tls13 && old(ciphertextBySeq)[seqNum] == [])
              && (!usable || !ok ==> ciphertextBySeq == old(ciphertextBySeq) && parsedResponseBySeq == old(parsedResponseBySeq))
              && (usable && ok ==>
                    var ct := old(ciphertextBySeq)[seqNum];
                    var opened' := XorBytes(ct, stream[..|ct|]);
                    var (content, kind) := RemoveSpec(suite, opened');
                    && StreamLength(suite, |ct|) >= 0
                    && ciphertextBySeq == old(ciphertextBySeq)[seqNum := ct[..StreamLength(suite, |ct|)]]
                    && parsedResponseBySeq == old(parsedResponseBySeq)[seqNum := Parsed(content, kind, |ct|)])
    {
      if seqNum !in ciphertextBySeq {
        return true;
      }
      var ciphertext := ciphertextBySeq[seqNum];
      if |stream| < |ciphertext| {
        return true;
      }
      var plaintext := XorBytes(ciphertext, stream[..|ciphertext|]);
      var content, contentType := RemoveTLSPadding(suite, plaintext);
      var streamLen := StreamLength(suite, |plaintext|);
      if streamLen < 0 || streamLen > |ciphertext| {
        return false;
      }
      RemoveIsSound(suite, plaintext, ciphertext[..streamLen]);
      ciphertextBySeq := ciphertextBySeq[seqNum := ciphertext[..streamLen]];
      parsedResponseBySeq := parsedResponseBySeq[seqNum := Parsed(content, contentType, |plaintext|)];
      plain := plain[seqNum := plaintext];
      return true;
    }
  }

  // The analysis

  const START := Analysis([], [], [], 0)

  /** Does the consolidated stream carry this record? Alerts of a CBC session are left out. */
  predicate Carried(held: Held, n: nat)
    requires n in held.parsed
  {
    held.suite != Tls12Cbc || held.parsed[n].contentType == APPLICATION_DATA
  }

  predicate Usable(held: Held, n: nat) {
    && n in held.parsed && n in held.cipher
    && |held.cipher[n]| == StreamLength(held.suite, held.parsed[n].originalLen)
  }

  predicate AllUsable(held: Held, seqs: seq<nat>) {
    forall i :: 0 <= i < |seqs| ==> Usable(held, seqs[i])
  }

  function Process(held: Held, n: nat, a: Analysis): Analysis
    requires Usable(held, n)
  {
    var p, ct := held.parsed[n], held.cipher[n];
    if p.contentType == APPLICATION_DATA then
      Analysis(a.redactions, a.mappings + [Mapping(n, |a.content|, a.offset, |p.content|, ct)],
               a.content + p.content, a.offset + |ct|)
    else if held.suite == Tls12Cbc then a
    else Analysis(a.redactions + [Range(a.offset, |ct|, "")], a.mappings, a.content, a.offset + |ct|)
  }

  function Analyze(held: Held, seqs: seq<nat>): Analysis
    requires AllUsable(held, seqs)
  {
    if seqs == [] then START else Process(held, seqs[|seqs| - 1], Analyze(held, seqs[..|seqs| - 1]))
  }

  class Analyzer {
    var protocolRedactions: seq<Range>
    var httpMappings: seq<Mapping>
    var allHTTPContent: Bytes
    var totalTLSOffset: nat

    function Value(): Analysis
      reads this
    {
      Analysis(protocolRedactions, httpMappings, allHTTPContent, totalTLSOffset)
    }

    constructor ()
      ensures Value() == START
    {
      protocolRedactions, httpMappings, allHTTPContent, totalTLSOffset := [], [], [], 0;
    }

    method ProcessSingleTLSRecord(held: Held, seqNum: nat) returns (ok: bool)
      modifies this
      ensures ok == Usable(held, seqNum)
      ensures Value() == if ok then Process(held, seqNum, old(Value())) else old(Value())
    {
      if seqNum !in held.parsed || seqNum !in held.cipher {
        return false;
      }
      var parsed, ciphertext := held.parsed[seqNum], held.cipher[seqNum];
      var tlsStreamLength := StreamLength(held.suite, parsed.originalLen);
      if |ciphertext| != tlsStreamLength {
        return false;
      }
      if parsed.contentType == APPLICATION_DATA {
        var mapping := Mapping(seqNum, |allHTTPContent|, totalTLSOffset, |parsed.content|, ciphertext);
        httpMappings := httpMappings + [mapping];
        allHTTPContent := allHTTPContent + parsed.content;
      } else if held.suite != Tls12Cbc {
        protocolRedactions := protocolRedactions + [Range(totalTLSOffset, tlsStreamLength, "")];
      }
      if held.suite != Tls12Cbc || parsed.contentType == APPLICATION_DATA {
        totalTLSOffset := totalTLSOffset + tlsStreamLength;
      }
      return true;
    }

    method AnalyzeTLSRecords(held: Held, seqNums: seq<nat>) returns (ok: bool)
      requires Value() == START
      modifies this
      ensures ok <==> AllUsable(held, seqNums)
      ensures ok ==> Value() == Analyze(held, seqNums)
    {
      hide Usable, Process;
      for i := 0 to |seqNums|
        invariant AllUsable(held, seqNums[..i])
        invariant Value() == Analyze(held, seqNums[..i])
      {
        var one := ProcessSingleTLSRecord(held, seqNums[i]);
        if !one {
          return false;
        }
        assert seqNums[..i + 1][..i] == seqNums[..i];
      }
      assert seqNums[..|seqNums|] == seqNums;
      return true;
    }
  }
}
