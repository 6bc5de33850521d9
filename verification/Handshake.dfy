/**
 Reassembly of encrypted TLS 1.3 handshake messages (minitls/client.go). Certificate,
 signature and Finished checks are the fields of `Checks`, given the transcript so far.
 */
module Handshake {
  import opened Words
  import opened BigEndian
  import opened Framing

  const MAX_MESSAGE: nat := 65536

  const CERTIFICATE: nat := 11
  const CERTIFICATE_REQUEST: nat := 13
  const CERTIFICATE_VERIFY: nat := 15
  const FINISHED: nat := 20

  datatype Checks = Checks(certificate: Bytes -> bool, verify: (Bytes, Bytes) -> bool, finish: (Bytes, Bytes) -> bool)

  datatype Status = Running | Done | Failed

  datatype Progress = Progress(transcript: Bytes, certificate: bool, verified: bool, requested: bool, status: Status)

  /** One whole message; every accepted message joins the transcript. */
  function Handle(ck: Checks, p: Progress, msg: Bytes): Progress
    requires |msg| >= 4
  {
    var kind := NatOfByte(msg[0]);
    var grown := p.(transcript := p.transcript + msg);
    if kind == CERTIFICATE_VERIFY then
      if !p.certificate || !ck.verify(p.transcript, msg) then p.(status := Failed) else grown.(verified := true)
    else if kind == CERTIFICATE_REQUEST then grown.(requested := true)
    else if kind == CERTIFICATE then
      if !ck.certificate(msg) then p.(status := Failed) else grown.(certificate := true)
    else if kind == FINISHED then
      if !p.certificate || !p.verified || !ck.finish(p.transcript, msg) then p.(status := Failed)
      else grown.(status := Done)
    else grown
  }

  function MessageLength(s: Bytes): nat
    requires |s| >= 4
  {
    0x1_0000 * NatOfByte(s[1]) + 256 * NatOfByte(s[2]) + NatOfByte(s[3])
  }

  /** Process messages from the front until more bytes are needed or the handshake ends. */
  function Absorb(ck: Checks, p: Progress, s: Bytes): (Progress, Bytes)
    decreases |s|
  {
    if p.status != Running || |s| < 4 then (p, s)
    else if MessageLength(s) > MAX_MESSAGE then (p.(status := Failed), s)
    else if |s| < 4 + MessageLength(s) then (p, s)
    else
      var next := Handle(ck, p, s[..4 + MessageLength(s)]);
      if next.status == Failed then (next, s) else Absorb(ck, next, s[4 + MessageLength(s)..])
  }

  /** The buffer loop of the client. */
  class Client {
    var handshakeBuffer: Bytes
    var progress: Progress

    constructor (transcript: Bytes)
      ensures handshakeBuffer == [] && progress == Progress(transcript, false, false, false, Running)
    {
      handshakeBuffer, progress := [], Progress(transcript, false, false, false, Running);
    }

    method ProcessHandshakeBuffer(ck: Checks) returns (done: bool, failed: bool)
      requires progress.status == Running
      modifies this
      ensures (progress, handshakeBuffer) == Absorb(ck, old(progress), old(handshakeBuffer))
      ensures done <==> progress.status == Done
      ensures failed <==> progress.status == Failed
    {
      hide MessageLength, Handle;
      while true
        invariant progress.status == Running
        invariant Absorb(ck, progress, handshakeBuffer) == Absorb(ck, old(progress), old(handshakeBuffer))
        decreases |handshakeBuffer|
      {
        if |handshakeBuffer| < 4 {
          return false, false;
        }
        var msgLen := MessageLength(handshakeBuffer);
        if msgLen > MAX_MESSAGE {
          progress := progress.(status := Failed);
          return false, true;
        }
        var totalMsgLen := 4 + msgLen;
        if |handshakeBuffer| < totalMsgLen {
          return false, false;
        }
        var next := Handle(ck, progress, handshakeBuffer[..totalMsgLen]);
        progress := next;
        if next.status == Failed {
          return false, true;
        }
        handshakeBuffer := handshakeBuffer[totalMsgLen..];
        if next.status == Done {
          return true, false;
        }
      }
    }
  }

  // Independence of the cuts

  lemma {:induction false} LengthKept(a: Bytes, b: Bytes)
    requires |a| >= 4
    ensures MessageLength(a + b) == MessageLength(a)
    ensures |a| >= 4 + MessageLength(a) ==> (a + b)[..4 + MessageLength(a)] == a[..4 + MessageLength(a)]
    ensures |a| >= 4 + MessageLength(a) ==> (a + b)[4 + MessageLength(a)..] == a[4 + MessageLength(a)..] + b
  {}

  /** Absorbing in two steps is absorbing at once, for as long as the handshake runs. */
  lemma {:induction false} AbsorbAppend(ck: Checks, p: Progress, a: Bytes, b: Bytes)
    ensures var (q, rest) := Absorb(ck, p, a);
            Absorb(ck, p, a + b) == Absorb(ck, q, rest + b)
    decreases |a|
  {
    hide MessageLength, Handle;
    if p.status == Running && |a| >= 4 {
      LengthKept(a, b);
      var n := 4 + MessageLength(a);
      if MessageLength(a) <= MAX_MESSAGE && |a| >= n {
        var next := Handle(ck, p, a[..n]);
        if next.status != Failed {
          AbsorbAppend(ck, next, a[n..], b);
        }
      }
    }
  }

  /** Feeding decrypted fragments; reading stops once the handshake is over. */
  function Fed(ck: Checks, p: Progress, rest: Bytes, chunks: seq<Bytes>): Progress
    decreases |chunks|
  {
    if chunks == [] || p.status != Running then p else
      var (q, left) := Absorb(ck, p, rest + chunks[0]);
      Fed(ck, q, left, chunks[1..])
  }

  /** However the messages are cut into records, the outcome and the transcript are the same. */
  lemma {:induction false} FragmentationIndependent(ck: Checks, p: Progress, rest: Bytes, chunks: seq<Bytes>)
    requires Absorb(ck, p, rest) == (p, rest)
    ensures Fed(ck, p, rest, chunks) == Absorb(ck, p, rest + Join(chunks)).0
    decreases |chunks|
  {
    hide MessageLength, Handle;
    if p.status != Running {
    } else if chunks == [] {
      assert rest + Join(chunks) == rest;
    } else {
      var now := rest + chunks[0];
      var (q, left) := Absorb(ck, p, now);
      AbsorbIdempotent(ck, p, now);
      FragmentationIndependent(ck, q, left, chunks[1..]);
      AbsorbAppend(ck, p, now, Join(chunks[1..]));
      assert rest + Join(chunks) == now + Join(chunks[1..]);
    }
  }

  lemma {:induction false} AbsorbIdempotent(ck: Checks, p: Progress, s: Bytes)
    ensures var (q, rest) := Absorb(ck, p, s); Absorb(ck, q, rest) == (q, rest)
    decreases |s|
  {
    hide MessageLength, Handle;
    if p.status == Running && |s| >= 4 {
      var n := 4 + MessageLength(s);
      if MessageLength(s) <= MAX_MESSAGE && |s| >= n {
        var next := Handle(ck, p, s[..n]);
        if next.status != Failed { AbsorbIdempotent(ck, next, s[n..]); }
      }
    }
  }

  lemma {:induction false} HandleGrows(ck: Checks, p: Progress, msg: Bytes)
    requires |msg| >= 4
    ensures var next := Handle(ck, p, msg); next.status != Failed ==> next.transcript == p.transcript + msg
  {}

  /** Unless the handshake fails, transcript and leftover together are exactly what came in. */
  lemma {:induction false} TranscriptConserved(ck: Checks, p: Progress, s: Bytes)
    ensures var (q, rest) := Absorb(ck, p, s); q.status != Failed ==> q.transcript + rest == p.transcript + s
    decreases |s|
  {
    hide MessageLength, Handle;
    if p.status == Running && |s| >= 4 {
      var n := 4 + MessageLength(s);
      if MessageLength(s) <= MAX_MESSAGE && |s| >= n {
        var next := Handle(ck, p, s[..n]);
        if next.status != Failed {
          HandleGrows(ck, p, s[..n]);
          TranscriptConserved(ck, next, s[n..]);
          Regroup(p.transcript, s, n);
        }
      }
    }
  }

  lemma {:induction false} Regroup(t: Bytes, s: Bytes, n: nat)
    requires n <= |s|
    ensures (t + s[..n]) + s[n..] == t + s
  {}

  // Well-formed messages

  /** A message as the TLS standard lays it out: type, 24-bit length, body. */
  function Message(kind: Byte, body: Bytes): Bytes {
    [kind] + PutUint(|body|, 3) + body
  }

  ghost predicate IsMessage(m: Bytes) {
    |m| >= 4 && m == Message(m[0], m[4..]) && |m[4..]| <= MAX_MESSAGE
  }

  lemma {:induction false} MessageLengthIs(kind: Byte, body: Bytes, rest: Bytes)
    requires |body| <= MAX_MESSAGE
    ensures MessageLength(Message(kind, body) + rest) == |body|
  {
    hide NatOfByte, ByteOfNat;
    var n := |body|;
    var s := Message(kind, body) + rest;
    assert PutUint(n / 256 / 256, 1) == PutUint(0, 0) + [ByteOfNat(n / 256 / 256)];
    assert PutUint(n / 256, 2) == PutUint(n / 256 / 256, 1) + [ByteOfNat(n / 256 % 256)];
    assert s[1] == ByteOfNat(n / 256 / 256) && s[2] == ByteOfNat(n / 256 % 256) && s[3] == ByteOfNat(n % 256);
    ByteRoundTrip(n / 256 / 256, ZERO8);
    ByteRoundTrip(n / 256 % 256, ZERO8);
    ByteRoundTrip(n % 256, ZERO8);
  }

  /** Messages handled one by one until the handshake is over. */
  function HandleAll(ck: Checks, p: Progress, msgs: seq<Bytes>): Progress
    requires forall i :: 0 <= i < |msgs| ==> |msgs[i]| >= 4
    decreases |msgs|
  {
    if msgs == [] || p.status != Running then p else HandleAll(ck, Handle(ck, p, msgs[0]), msgs[1..])
  }

  /** A stream of well-formed messages is handled message by message, none split or joined. */
  lemma {:induction false} MessagesHandledInOrder(ck: Checks, p: Progress, msgs: seq<Bytes>)
    requires forall i :: 0 <= i < |msgs| ==> |msgs[i]| >= 4 && IsMessage(msgs[i])
    ensures Absorb(ck, p, Join(msgs)).0 == HandleAll(ck, p, msgs)
    decreases |msgs|
  {
    hide MessageLength, Handle, Message;
    if msgs != [] && p.status == Running {
      var m, rest, s := msgs[0], Join(msgs[1..]), Join(msgs);
      assert IsMessage(m) && s == m + rest;
      MessageLengthIs(m[0], m[4..], rest);
      assert s[..|m|] == m && s[|m|..] == rest;
      MessagesHandledInOrder(ck, Handle(ck, p, m), msgs[1..]);
    }
  }

  // Order of the messages

  ghost predicate Kind(msg: Bytes, kind: nat) {
    |msg| >= 4 && NatOfByte(msg[0]) == kind
  }

  ghost predicate CertificateAt(ck: Checks, t: Bytes, i: nat, j: nat) {
    i <= j <= |t| && Kind(t[i..j], CERTIFICATE) && ck.certificate(t[i..j])
  }

  ghost predicate HasCertificate(ck: Checks, t: Bytes) {
    exists i: nat, j: nat :: CertificateAt(ck, t, i, j)
  }

  /** A signature accepted over exactly the bytes before it, which hold a certificate. */
  ghost predicate SignatureAt(ck: Checks, t: Bytes, i: nat, j: nat) {
    i <= j <= |t| && Kind(t[i..j], CERTIFICATE_VERIFY) && ck.verify(t[..i], t[i..j]) && HasCertificate(ck, t[..i])
  }

  ghost predicate HasSignature(ck: Checks, t: Bytes) {
    exists i: nat, j: nat :: SignatureAt(ck, t, i, j)
  }

  /** The transcript ends in a Finished message accepted over everything before it. */
  ghost predicate FinishedAt(ck: Checks, t: Bytes, i: nat) {
    i <= |t| && Kind(t[i..], FINISHED) && ck.finish(t[..i], t[i..]) && HasSignature(ck, t[..i])
  }

  ghost predicate Authenticated(ck: Checks, t: Bytes) {
    exists i: nat :: FinishedAt(ck, t, i)
  }

  ghost predicate FlagsTrue(ck: Checks, p: Progress) {
    && (p.certificate ==> HasCertificate(ck, p.transcript))
    && (p.verified ==> HasSignature(ck, p.transcript))
    && (p.status == Done ==> Authenticated(ck, p.transcript))
  }

  lemma {:induction false} Prefixed(t: Bytes, msg: Bytes)
    ensures (t + msg)[..|t|] == t && (t + msg)[|t|..] == msg && (t + msg)[|t|..|t + msg|] == msg
  {}

  lemma {:induction false} SliceKept(t: Bytes, msg: Bytes, i: nat, j: nat)
    requires i <= j <= |t|
    ensures (t + msg)[i..j] == t[i..j] && (t + msg)[..i] == t[..i]
  {}

  lemma {:induction false} CertificateKept(ck: Checks, t: Bytes, msg: Bytes)
    requires HasCertificate(ck, t)
    ensures HasCertificate(ck, t + msg)
  {
    hide Kind;
    var i: nat, j: nat :| CertificateAt(ck, t, i, j);
    SliceKept(t, msg, i, j);
    assert CertificateAt(ck, t + msg, i, j);
  }

  lemma {:induction false} SignatureKept(ck: Checks, t: Bytes, msg: Bytes)
    requires HasSignature(ck, t)
    ensures HasSignature(ck, t + msg)
  {
    hide Kind, HasCertificate;
    var i: nat, j: nat :| SignatureAt(ck, t, i, j);
    SliceKept(t, msg, i, j);
    assert SignatureAt(ck, t + msg, i, j);
  }

  lemma {:induction false} CertificateAdded(ck: Checks, t: Bytes, msg: Bytes)
    requires Kind(msg, CERTIFICATE) && ck.certificate(msg)
    ensures HasCertificate(ck, t + msg)
  {
    hide Kind;
    Prefixed(t, msg);
    assert CertificateAt(ck, t + msg, |t|, |t + msg|);
  }

  lemma {:induction false} SignatureAdded(ck: Checks, t: Bytes, msg: Bytes)
    requires Kind(msg, CERTIFICATE_VERIFY) && ck.verify(t, msg) && HasCertificate(ck, t)
    ensures HasSignature(ck, t + msg)
  {
    hide Kind, HasCertificate;
    Prefixed(t, msg);
    assert SignatureAt(ck, t + msg, |t|, |t + msg|);
  }

  lemma {:induction false} FinishedAdded(ck: Checks, t: Bytes, msg: Bytes)
    requires Kind(msg, FINISHED) && ck.finish(t, msg) && HasSignature(ck, t)
    ensures Authenticated(ck, t + msg)
  {
    hide Kind, HasSignature;
    Prefixed(t, msg);
    assert FinishedAt(ck, t + msg, |t|);
  }

  lemma {:induction false} HandleKeepsFlags(ck: Checks, p: Progress, msg: Bytes)
    requires |msg| >= 4 && p.status == Running && FlagsTrue(ck, p)
    ensures var next := Handle(ck, p, msg); next.status != Failed ==> FlagsTrue(ck, next)
  {
    hide HasCertificate, HasSignature, Authenticated;
    if p.certificate { CertificateKept(ck, p.transcript, msg); }
    if p.verified { SignatureKept(ck, p.transcript, msg); }
    if Kind(msg, CERTIFICATE) && ck.certificate(msg) { CertificateAdded(ck, p.transcript, msg); }
    if Kind(msg, CERTIFICATE_VERIFY) && p.certificate && ck.verify(p.transcript, msg) {
      SignatureAdded(ck, p.transcript, msg);
    }
    if Kind(msg, FINISHED) && p.verified && ck.finish(p.transcript, msg) {
      FinishedAdded(ck, p.transcript, msg);
    }
  }

  /**
   A handshake that finishes has a transcript with an accepted certificate, then a signature
   accepted over all that precedes it, then a Finished accepted over all that precedes it.
   */
  lemma {:induction false} DoneIsAuthenticated(ck: Checks, p: Progress, s: Bytes)
    requires p.status == Running && FlagsTrue(ck, p)
    ensures var q := Absorb(ck, p, s).0; q.status == Done ==> Authenticated(ck, q.transcript)
    decreases |s|
  {
    hide MessageLength, Handle, HasCertificate, HasSignature, Authenticated;
    if |s| >= 4 {
      var n := 4 + MessageLength(s);
      if MessageLength(s) <= MAX_MESSAGE && |s| >= n {
        var next := Handle(ck, p, s[..n]);
        HandleKeepsFlags(ck, p, s[..n]);
        if next.status == Running { DoneIsAuthenticated(ck, next, s[n..]); }
      }
    }
  }
}
