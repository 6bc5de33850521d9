/**
 What is hashed determines what it was made from: transcripts, seed expansion and record MACs
 (mpc/ot_extension.go, minitls/cbc12.go).
 */
module Binding {
  import opened Words
  import opened Labels
  import opened BigEndian
  import opened Ots
  import opened Extension
  import opened Frames
  import opened GateHash
  import Cbc12

  /** Parts of equal length are found again in a joined string. */
  lemma {:induction false} SameParts(a: Bytes, b: Bytes, c: Bytes, d: Bytes, a': Bytes, b': Bytes, c': Bytes, d': Bytes)
    requires |a| == |a'| && |b| == |b'| && |c| == |c'| && a + b + c + d == a' + b' + c' + d'
    ensures a == a' && b == b' && c == c' && d == d'
  {
    Slices(a, b, c, d);
    Slices(a', b', c', d');
  }

  lemma {:induction false} SameIndex(m: Index, n: Index)
    requires PutUint(m, 8) == PutUint(n, 8)
    ensures m == n
  {
    hide PutUint, GetIndex;
    IndexRoundTrip(m);
    IndexRoundTrip(n);
  }

  lemma {:induction false} SameU32(m: U32, n: U32)
    requires PutUint(m, 4) == PutUint(n, 4)
    ensures m == n
  {
    hide PutUint, GetU32;
    U32RoundTrip(m);
    U32RoundTrip(n);
  }

  /** The commitment hash covers every field of the commitment and the base ciphertexts. */
  lemma {:induction false} TranscriptBinds(x: Bytes, c: Commitment, y: Bytes, d: Commitment)
    requires |x| == |y| == BASE_CIPHER_SIZE && TranscriptInput(x, c) == TranscriptInput(y, d)
    ensures x == y && c.(transcript := d.transcript) == d
  {
    hide PutUint, Ascii;
    var tag, magic := Ascii("reclaim-tee/mpc/kos/repetition/v2/transcript"), Ascii("KOC2");
    var p, q := tag + magic + c.sessionId + PutUint(c.startIndex, 8), tag + magic + d.sessionId + PutUint(d.startIndex, 8);
    var r, s := PutUint(c.count, 4) + PutUint(c.paddedCount, 4) + c.epochHash, PutUint(d.count, 4) + PutUint(d.paddedCount, 4) + d.epochHash;
    assert TranscriptInput(x, c) == p + r + x + c.u && TranscriptInput(y, d) == q + s + y + d.u;
    SameParts(p, r, x, c.u, q, s, y, d.u);
    SameParts(tag, magic, c.sessionId, PutUint(c.startIndex, 8), tag, magic, d.sessionId, PutUint(d.startIndex, 8));
    assert r + [] == r && s + [] == s;
    SameParts(PutUint(c.count, 4), PutUint(c.paddedCount, 4), c.epochHash, [], PutUint(d.count, 4), PutUint(d.paddedCount, 4), d.epochHash, []);
    SameIndex(c.startIndex, d.startIndex);
    SameU32(c.count, d.count);
    SameU32(c.paddedCount, d.paddedCount);
  }

  /** The challenge hash covers session, commitment and every coefficient. */
  lemma {:induction false} ChallengeBinds(c: Challenge, d: Challenge)
    requires ChallengeInput(c) == ChallengeInput(d)
    ensures c.(transcript := d.transcript) == d
  {
    hide PutUint, Ascii, PutLabels, GetLabels;
    var tag := Ascii("reclaim-tee/mpc/kos/repetition/v2/challenge");
    var v, w := PutUint(|c.chi|, 4) + PutLabels(c.chi), PutUint(|d.chi|, 4) + PutLabels(d.chi);
    assert ChallengeInput(c) == tag + c.sessionId + c.commitment + v && ChallengeInput(d) == tag + d.sessionId + d.commitment + w;
    SameParts(tag, c.sessionId, c.commitment, v, tag, d.sessionId, d.commitment, w);
    assert v[4..] == PutLabels(c.chi) && w[4..] == PutLabels(d.chi);
    LabelsRoundTrip(c.chi);
    LabelsRoundTrip(d.chi);
  }

  lemma {:induction false} EpochBinds(x: Bytes, y: Bytes)
    requires EpochInput(x) == EpochInput(y)
    ensures x == y
  {
    hide PutUint, Ascii;
    var tag := Ascii("reclaim-tee/mpc/kos/repetition/v2/epoch");
    assert EpochInput(x) == tag + PutUint(|x|, 4) + [] + x && EpochInput(y) == tag + PutUint(|y|, 4) + [] + y;
    SameParts(tag, PutUint(|x|, 4), [], x, tag, PutUint(|y|, 4), [], y);
  }

  /**
   A sender accepts at most one commitment, base message and epoch for one transcript hash,
   unless the hash collides on what they are made from.
   */
  lemma {:induction false} OneCommitmentPerTranscript(o: Oracles, e: Bytes, x: Bytes, c: Commitment, f: Bytes, y: Bytes, d: Commitment)
    requires ValidCommitment(o, e, x, c) && ValidCommitment(o, f, y, d) && c.transcript == d.transcript
    requires o.sha(TranscriptInput(x, c)) == o.sha(TranscriptInput(y, d)) ==> TranscriptInput(x, c) == TranscriptInput(y, d)
    requires o.sha(EpochInput(e)) == o.sha(EpochInput(f)) ==> EpochInput(e) == EpochInput(f)
    ensures e == f && x == y && c == d
    ensures 5 < |e| <= 256 && o.utf8(e) && e[..5] == Ascii("kos2:") && x[..4] == Ascii("BOT1") && x[4..36] == c.sessionId && |c.u| == 16 * c.paddedCount
  {
    hide TranscriptInput, EpochInput, Ascii;
    TranscriptBinds(x, c, y, d);
    EpochBinds(e, f);
  }

  /** A receiver answers at most one challenge for one challenge hash, made for its own commitment, with one coefficient per 128 rows. */
  lemma {:induction false} OneChallengePerTranscript(o: Oracles, c: Commitment, x: Challenge, y: Challenge)
    requires c.paddedCount >= 128 && ValidChallenge(o, c, x) && ValidChallenge(o, c, y) && x.transcript == y.transcript
    requires o.sha(ChallengeInput(x)) == o.sha(ChallengeInput(y)) ==> ChallengeInput(x) == ChallengeInput(y)
    ensures x == y && x.sessionId == c.sessionId && x.commitment == c.transcript && |x.chi| == (c.paddedCount - 128) / 128
  {
    hide ChallengeInput;
    ChallengeBinds(x, y);
  }

  /** Under a permutation, no two counters of one seed give the same keystream block. */
  lemma {:induction false} SeedBlocksDiffer(o: Oracles, seed: Label, session: Bytes32, column: nat, i: Index, j: Index)
    requires forall key, x, y :: o.aes(key)(x) == o.aes(key)(y) ==> x == y
    requires PrgBlock(o, seed, session, column, i) == PrgBlock(o, seed, session, column, j)
    ensures i == j
  {
    hide FromNat, Put, FromBytes, PrgKey;
    var aes := o.aes(PrgKey(o, seed, session, column));
    LabelBytes(aes(Label(ZERO, FromNat(i, 64))));
    LabelBytes(aes(Label(ZERO, FromNat(j, 64))));
    Bits64(i);
    Bits64(j);
  }

  /** No two seeds, sessions or columns expand from the same hash input. */
  lemma {:induction false} SeedExpansionBinds(a: Label, b: Label, s: Bytes32, t: Bytes32, i: nat, j: nat)
    requires i < 256 && j < 256 && PrgInput(a, s, i) == PrgInput(b, t, j)
    ensures a == b && s == t && i == j
  {
    hide Ascii, Put, FromBytes, ByteOfNat, NatOfByte;
    var tag := Ascii("reclaim-tee/mpc/iknp/prg/v1") + Zeros(5);
    SameParts(tag, s, [ByteOfNat(i)], Put(a), tag, t, [ByteOfNat(j)], Put(b));
    assert [ByteOfNat(i)][0] == [ByteOfNat(j)][0];
    ByteRoundTrip(i, ZERO8);
    ByteRoundTrip(j, ZERO8);
    LabelBytes(a);
    LabelBytes(b);
  }

  /** The record MAC covers sequence number, type, length and data. */
  lemma {:induction false} MacBinds(m: Index, n: Index, k: Byte, l: Byte, x: Bytes, y: Bytes)
    requires Cbc12.MacInput(m, k, |x|, x) == Cbc12.MacInput(n, l, |y|, y)
    ensures m == n && k == l && x == y
  {
    hide PutUint;
    var v, w := PutUint(|x|, 2) + x, PutUint(|y|, 2) + y;
    var version := PutUint(0x0303, 2);
    assert Cbc12.MacInput(m, k, |x|, x) == PutUint(m, 8) + [k] + version + v;
    assert Cbc12.MacInput(n, l, |y|, y) == PutUint(n, 8) + [l] + version + w;
    SameParts(PutUint(m, 8), [k], version, v, PutUint(n, 8), [l], version, w);
    SameIndex(m, n);
    assert [k][0] == [l][0];
    assert v[2..] == x && w[2..] == y;
  }

  /** Under a permutation, one value is hashed to different transfers under different tweaks. */
  lemma {:induction false} TransferTweaksDiffer(o: Oracles, v: Label, i: Index, j: Index)
    requires forall key, x, y :: o.aes(key)(x) == o.aes(key)(y) ==> x == y
    requires Tmmo(o, v, i) == Tmmo(o, v, j)
    ensures i == j
  {
    hide FromNat, Ascii;
    var aes := o.aes(o.sha(Ascii("reclaim-tee/mpc/kos/tmmo/v1"))[..16]);
    var e := aes(v);
    var a, b := Label(e.d0, Words.Xor(e.d1, FromNat(i, 64))), Label(e.d0, Words.Xor(e.d1, FromNat(j, 64)));
    XorCancel(aes(a), e);
    XorCancel(aes(b), e);
    assert aes(a) == aes(b);
    XorSame(e.d1, FromNat(i, 64), FromNat(j, 64));
    Bits64(i);
    Bits64(j);
  }

  function AddTweak(x: Label, i: nat): Label {
    Label(x.d0, Words.Xor(x.d1, FromNat(i, 64)))
  }

  /** Two rows give the same pad under one tweak exactly when the cipher maps them so: no row is ignored. */
  lemma {:induction false} PadsEqualExactly(o: Oracles, v: Label, w: Label, i: nat)
    ensures var aes := o.aes(o.sha(Ascii("reclaim-tee/mpc/kos/tmmo/v1"))[..16]);
            Tmmo(o, v, i) == Tmmo(o, w, i) <==>
            aes(AddTweak(aes(v), i)).Xor(aes(AddTweak(aes(w), i))) == aes(v).Xor(aes(w))
  {
    hide FromNat, Ascii;
    var aes := o.aes(o.sha(Ascii("reclaim-tee/mpc/kos/tmmo/v1"))[..16]);
    XorBalance(aes(AddTweak(aes(v), i)), aes(v), aes(AddTweak(aes(w), i)), aes(w));
  }

  lemma {:induction false} XorBalance(p: Label, a: Label, q: Label, b: Label)
    ensures p.Xor(a) == q.Xor(b) <==> p.Xor(q) == a.Xor(b)
  {
    if p.Xor(a) == q.Xor(b) {
      assert forall i :: 0 <= i < 128 ==> p.Xor(a).Bit(i) == q.Xor(b).Bit(i);
      SameBits(p.Xor(q), a.Xor(b));
    }
    if p.Xor(q) == a.Xor(b) {
      assert forall i :: 0 <= i < 128 ==> p.Xor(q).Bit(i) == a.Xor(b).Bit(i);
      SameBits(p.Xor(a), q.Xor(b));
    }
  }
}
