/**
 How a list of handshake messages ends (minitls/client.go): which message is refused, what a
 completed handshake needs, and what is recorded. Message types are the numbers of section 4
 of RFC 8446: 11 Certificate, 13 CertificateRequest, 15 CertificateVerify, 20 Finished.
 */
module HandshakeOutcome {
  import opened Words
  import opened BigEndian
  import Framing
  import opened Handshake

  ghost predicate Messages(msgs: seq<Bytes>) {
    forall i :: 0 <= i < |msgs| ==> |msgs[i]| >= 4
  }

  ghost predicate Has(msgs: seq<Bytes>, kind: nat) {
    exists i :: 0 <= i < |msgs| && Kind(msgs[i], kind)
  }

  /** The transcript when message `i` arrives, if all before it were taken. */
  function Before(p: Progress, msgs: seq<Bytes>, i: nat): Bytes
    requires i <= |msgs|
  {
    p.transcript + Framing.Join(msgs[..i])
  }

  ghost predicate CertificateBefore(p: Progress, msgs: seq<Bytes>, i: nat)
    requires i <= |msgs|
  {
    p.certificate || Has(msgs[..i], 11)
  }

  ghost predicate SignatureBefore(p: Progress, msgs: seq<Bytes>, i: nat)
    requires i <= |msgs|
  {
    p.verified || Has(msgs[..i], 15)
  }

  /** A rejected certificate, an early or rejected signature, an early or rejected Finished. */
  ghost predicate Refused(ck: Checks, p: Progress, msgs: seq<Bytes>, i: nat)
    requires i < |msgs|
  {
    var m := msgs[i];
    || (Kind(m, 11) && !ck.certificate(m))
    || (Kind(m, 15) && !(CertificateBefore(p, msgs, i) && ck.verify(Before(p, msgs, i), m)))
    || (Kind(m, 20) && !(CertificateBefore(p, msgs, i) && SignatureBefore(p, msgs, i) && ck.finish(Before(p, msgs, i), m)))
  }

  ghost predicate Stops(ck: Checks, p: Progress, msgs: seq<Bytes>, i: nat)
    requires i < |msgs|
  {
    Refused(ck, p, msgs, i) || Kind(msgs[i], 20)
  }

  ghost predicate FirstStop(ck: Checks, p: Progress, msgs: seq<Bytes>, i: nat) {
    i < |msgs| && Stops(ck, p, msgs, i) && forall j: nat :: j < i ==> !Stops(ck, p, msgs, j)
  }

  /** Everything taken: the bytes are in the transcript and each flag tells whether its message came. */
  ghost predicate Taken(p: Progress, msgs: seq<Bytes>, q: Progress) {
    && q.transcript == p.transcript + Framing.Join(msgs)
    && (q.certificate <==> p.certificate || Has(msgs, 11))
    && (q.verified <==> p.verified || Has(msgs, 15))
    && (q.requested <==> p.requested || Has(msgs, 13))
  }

  // One message more

  lemma {:induction false} HandleAllAppend(ck: Checks, p: Progress, a: seq<Bytes>, b: seq<Bytes>)
    requires Messages(a) && Messages(b)
    ensures Messages(a + b) && HandleAll(ck, p, a + b) == HandleAll(ck, HandleAll(ck, p, a), b)
    decreases |a|
  {
    hide Handle;
    if a == [] {
      assert a + b == b;
    } else if p.status == Running {
      HandleAllAppend(ck, Handle(ck, p, a[0]), a[1..], b);
      assert (a + b)[1..] == a[1..] + b;
    }
  }

  lemma {:induction false} JoinSnoc(msgs: seq<Bytes>, m: Bytes)
    ensures Framing.Join(msgs + [m]) == Framing.Join(msgs) + m
    decreases |msgs|
  {
    if msgs == [] {
      assert msgs + [m] == [m] && [m][1..] == [];
    } else {
      JoinSnoc(msgs[1..], m);
      assert (msgs + [m])[1..] == msgs[1..] + [m];
    }
  }

  lemma {:induction false} HasSnoc(msgs: seq<Bytes>, m: Bytes, kind: nat)
    ensures Has(msgs + [m], kind) <==> Has(msgs, kind) || Kind(m, kind)
  {
    hide Kind;
    var w := msgs + [m];
    if Has(msgs, kind) {
      var i :| 0 <= i < |msgs| && Kind(msgs[i], kind);
      assert Kind(w[i], kind);
    }
    if Kind(m, kind) { assert Kind(w[|msgs|], kind); }
  }

  lemma {:induction false} HandleAllSnoc(ck: Checks, p: Progress, msgs: seq<Bytes>, m: Bytes)
    requires Messages(msgs) && |m| >= 4 && HandleAll(ck, p, msgs).status == Running
    ensures Messages(msgs + [m]) && HandleAll(ck, p, msgs + [m]) == Handle(ck, HandleAll(ck, p, msgs), m)
  {
    hide Handle;
    HandleAllAppend(ck, p, msgs, [m]);
    assert [m][1..] == [];
  }

  /** One message, handled after all of `msgs` were taken. */
  lemma {:induction false} HandleTaken(ck: Checks, p: Progress, msgs: seq<Bytes>, q: Progress, m: Bytes)
    requires |m| >= 4 && q.status == Running && Taken(p, msgs, q)
    ensures var w, next := msgs + [m], Handle(ck, q, m);
            if Refused(ck, p, w, |msgs|) then next.status == Failed
            else Taken(p, w, next) && next.status == if Kind(m, 20) then Done else Running
  {
    var w := msgs + [m];
    assert w[..|msgs|] == msgs && w[|msgs|] == m;
    hide Has, Framing.Join;
    JoinSnoc(msgs, m);
    HasSnoc(msgs, m, 11);
    HasSnoc(msgs, m, 15);
    HasSnoc(msgs, m, 13);
    assert q.transcript + m == p.transcript + Framing.Join(w);
  }

  lemma {:induction false} PrefixStops(ck: Checks, p: Progress, msgs: seq<Bytes>, n: nat, i: nat)
    requires i < n <= |msgs|
    ensures Refused(ck, p, msgs[..n], i) == Refused(ck, p, msgs, i) && Stops(ck, p, msgs[..n], i) == Stops(ck, p, msgs, i)
  {
    hide Has, Framing.Join, Kind;
    assert msgs[..n][..i] == msgs[..i] && msgs[..n][i] == msgs[i];
  }

  /** While nothing stops it the handshake goes on, whatever other messages come. */
  lemma {:induction false} GoesOn(ck: Checks, p: Progress, msgs: seq<Bytes>)
    requires Messages(msgs) && p.status == Running && forall i: nat :: i < |msgs| ==> !Stops(ck, p, msgs, i)
    ensures HandleAll(ck, p, msgs).status == Running && Taken(p, msgs, HandleAll(ck, p, msgs))
    decreases |msgs|
  {
    hide Handle, Refused, Kind;
    if msgs == [] {
      assert p.transcript + Framing.Join(msgs) == p.transcript;
    } else {
      hide Taken, Has, Framing.Join;
      var n := |msgs| - 1;
      var front, m := msgs[..n], msgs[n];
      forall i: nat | i < n ensures !Stops(ck, p, front, i) { PrefixStops(ck, p, msgs, n, i); }
      GoesOn(ck, p, front);
      assert msgs == front + [m];
      HandleAllSnoc(ck, p, front, m);
      HandleTaken(ck, p, front, HandleAll(ck, p, front), m);
      assert !Stops(ck, p, msgs, n);
    }
  }

  /** The outcome is decided by the first message that stops it. */
  lemma {:induction false} OutcomeAt(ck: Checks, p: Progress, msgs: seq<Bytes>, i: nat)
    requires Messages(msgs) && p.status == Running && FirstStop(ck, p, msgs, i)
    ensures var q := HandleAll(ck, p, msgs);
            if Refused(ck, p, msgs, i) then q.status == Failed else q.status == Done && Taken(p, msgs[..i + 1], q)
  {
    hide Handle, Refused, Kind, Taken, Has, Framing.Join;
    var front, m := msgs[..i], msgs[i];
    forall j: nat | j < i ensures !Stops(ck, p, front, j) { PrefixStops(ck, p, msgs, i, j); }
    GoesOn(ck, p, front);
    assert msgs[..i + 1] == front + [m];
    HandleAllSnoc(ck, p, front, m);
    HandleTaken(ck, p, front, HandleAll(ck, p, front), m);
    PrefixStops(ck, p, msgs, i + 1, i);
    assert msgs == msgs[..i + 1] + msgs[i + 1..];
    HandleAllAppend(ck, p, msgs[..i + 1], msgs[i + 1..]);
  }

  lemma {:induction false} FirstStopExists(ck: Checks, p: Progress, msgs: seq<Bytes>, n: nat) returns (i: nat)
    requires n < |msgs| && Stops(ck, p, msgs, n)
    ensures FirstStop(ck, p, msgs, i)
    decreases n
  {
    hide Stops;
    if j: nat :| j < n && Stops(ck, p, msgs, j) {
      i := FirstStopExists(ck, p, msgs, j);
    } else {
      i := n;
    }
  }

  // Main results

  /** The handshake fails exactly when the first message that stops it is a refused one. */
  lemma {:induction false} FailsExactly(ck: Checks, p: Progress, msgs: seq<Bytes>)
    requires Messages(msgs) && p.status == Running
    ensures HandleAll(ck, p, msgs).status == Failed <==> exists i: nat :: FirstStop(ck, p, msgs, i) && Refused(ck, p, msgs, i)
  {
    hide Handle, Refused, Kind, Taken, HandleAll;
    if i: nat :| FirstStop(ck, p, msgs, i) && Refused(ck, p, msgs, i) {
      OutcomeAt(ck, p, msgs, i);
    }
    if HandleAll(ck, p, msgs).status == Failed {
      if n: nat :| n < |msgs| && Stops(ck, p, msgs, n) {
        var i := FirstStopExists(ck, p, msgs, n);
        OutcomeAt(ck, p, msgs, i);
      } else {
        GoesOn(ck, p, msgs);
      }
    }
  }

  ghost predicate Plain(m: Bytes) {
    !Kind(m, 11) && !Kind(m, 15) && !Kind(m, 20)
  }

  /** A certificate at `c`, a signature over what precedes it at `v`, a Finished over what precedes it at the end. */
  ghost predicate Proper(ck: Checks, p: Progress, msgs: seq<Bytes>, c: nat, v: nat) {
    && c < v < |msgs| - 1
    && Kind(msgs[c], 11) && ck.certificate(msgs[c])
    && Kind(msgs[v], 15) && ck.verify(Before(p, msgs, v), msgs[v])
    && Kind(msgs[|msgs| - 1], 20) && ck.finish(Before(p, msgs, |msgs| - 1), msgs[|msgs| - 1])
    && forall i :: 0 <= i < |msgs| - 1 && i != c && i != v ==> Plain(msgs[i])
  }

  lemma {:induction false} HasAt(msgs: seq<Bytes>, i: nat, n: nat, kind: nat)
    requires i < n <= |msgs| && Kind(msgs[i], kind)
    ensures Has(msgs[..n], kind)
  {
    hide Kind;
    assert Kind(msgs[..n][i], kind);
  }

  lemma {:induction false} OneKind(m: Bytes)
    ensures Kind(m, 11) ==> !Kind(m, 15) && !Kind(m, 20)
    ensures Kind(m, 15) ==> !Kind(m, 20)
  {}

  lemma {:induction false} ProperStops(ck: Checks, p: Progress, msgs: seq<Bytes>, c: nat, v: nat)
    requires Proper(ck, p, msgs, c, v)
    ensures FirstStop(ck, p, msgs, |msgs| - 1) && !Refused(ck, p, msgs, |msgs| - 1)
  {
    hide Kind, Before, Has;
    HasAt(msgs, c, v, 11);
    HasAt(msgs, c, |msgs| - 1, 11);
    HasAt(msgs, v, |msgs| - 1, 15);
    forall i: nat | i < |msgs|
      ensures i < |msgs| - 1 ==> !Stops(ck, p, msgs, i)
      ensures i == |msgs| - 1 ==> !Refused(ck, p, msgs, i)
    {
      OneKind(msgs[i]);
    }
  }

  /**
   A complete message list ends the handshake: whatever other messages come in between, in
   whatever records it is cut, the transcript is the start followed by all of its bytes.
   */
  lemma {:induction false} CompletesWhenProper(ck: Checks, p: Progress, msgs: seq<Bytes>, c: nat, v: nat, chunks: seq<Bytes>)
    requires p.status == Running && forall i :: 0 <= i < |msgs| ==> |msgs[i]| >= 4 && IsMessage(msgs[i])
    requires Proper(ck, p, msgs, c, v) && Framing.Join(chunks) == Framing.Join(msgs)
    ensures var q := Fed(ck, p, [], chunks);
            && q.status == Done && q.transcript == p.transcript + Framing.Join(msgs) && q.certificate && q.verified
            && (q.requested <==> p.requested || Has(msgs, 13))
  {
    hide Absorb, Handle, HandleAll, IsMessage, Framing.Join, Kind, Stops, Refused, Fed;
    var n := |msgs| - 1;
    ProperStops(ck, p, msgs, c, v);
    OutcomeAt(ck, p, msgs, n);
    assert msgs[..n + 1] == msgs;
    HasAt(msgs, c, n + 1, 11);
    HasAt(msgs, v, n + 1, 15);
    MessagesHandledInOrder(ck, p, msgs);
    EmptyAbsorbed(ck, p);
    FragmentationIndependent(ck, p, [], chunks);
    assert [] + Framing.Join(chunks) == Framing.Join(chunks);
  }

  lemma {:induction false} EmptyAbsorbed(ck: Checks, p: Progress)
    ensures Absorb(ck, p, []) == (p, [])
  {}

  /** A message that claims more than 65536 bytes is refused at its header, and a shorter one is waited for. */
  lemma {:induction false} HeaderDecides(ck: Checks, p: Progress, s: Bytes)
    requires p.status == Running && |s| >= 4
    ensures var n := 0x1_0000 * NatOfByte(s[1]) + 256 * NatOfByte(s[2]) + NatOfByte(s[3]);
            && (n > 65536 ==> Absorb(ck, p, s) == (p.(status := Failed), s))
            && (n <= 65536 && |s| < 4 + n ==> Absorb(ck, p, s) == (p, s))
  {
    hide Handle, NatOfByte;
  }
}
