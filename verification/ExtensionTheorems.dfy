/** What the OT extension achieves, and exactly when its consistency check accepts. */
module ExtensionTheorems {
  import opened Words
  import opened Labels
  import opened Results
  import opened Packing
  import opened BigEndian
  import opened Ots
  import opened Transpose
  import opened Field
  import opened Extension
  import opened ExtensionProtocol

  /** The base transfers gave the sender one seed of each pair, by the bits of delta. */
  predicate FollowsDelta(selected: seq<Label>, base: seq<SeedPair>, delta: Label)
    requires |selected| == |base| == BASE_OT_COUNT
  {
    forall c :: 0 <= c < BASE_OT_COUNT ==> selected[c] == if delta.Bit(c) then base[c].one else base[c].zero
  }

  // What a column of U commits its sender to

  /** The choice vector that column `c` of any matrix U encodes. */
  function Encoded(o: Oracles, pair: SeedPair, sessionId: Bytes32, c: nat, u: Bytes): (x: Bytes)
    ensures |x| == |u|
  {
    XorBytes(XorBytes(u, Expand(o, pair.zero, sessionId, c, |u|)), Expand(o, pair.one, sessionId, c, |u|))
  }

  lemma {:induction false} ByteCancel(a: Byte, b: Byte, x: Byte)
    ensures XorByte(b, x) == XorByte(a, XorByte(XorByte(x, a), b))
    ensures XorByte(XorByte(XorByte(XorByte(a, b), x), a), b) == x
  {}

  /** An honest column encodes the receiver's choices. */
  lemma {:induction false} HonestEncodes(o: Oracles, pair: SeedPair, sessionId: Bytes32, c: nat, choices: Bytes)
    ensures Encoded(o, pair, sessionId, c, UColumn(o, pair, sessionId, c, choices)) == choices
  {
    hide Expand, XorByte;
    var a, b := Expand(o, pair.zero, sessionId, c, |choices|), Expand(o, pair.one, sessionId, c, |choices|);
    var x := Encoded(o, pair, sessionId, c, UColumn(o, pair, sessionId, c, choices));
    forall i | 0 <= i < |choices|
      ensures x[i] == choices[i]
    {
      ByteCancel(a[i], b[i], choices[i]);
    }
  }

  /** The sender's column is the receiver's, shifted by what U encodes where delta is set. */
  lemma {:induction false} QFollowsT(o: Oracles, pair: SeedPair, bit: bool, sessionId: Bytes32, c: nat, u: Bytes)
    ensures QColumn(o, if bit then pair.one else pair.zero, bit, sessionId, c, u)
            == var t := Expand(o, pair.zero, sessionId, c, |u|);
               if bit then XorBytes(t, Encoded(o, pair, sessionId, c, u)) else t
  {
    hide Expand, XorByte;
    if bit {
      var a, b := Expand(o, pair.zero, sessionId, c, |u|), Expand(o, pair.one, sessionId, c, |u|);
      forall i | 0 <= i < |u|
        ensures XorBytes(b, u)[i] == XorBytes(a, Encoded(o, pair, sessionId, c, u))[i]
      {
        ByteCancel(a[i], b[i], u[i]);
      }
    }
  }

  // Correctness of the transfers

  /** Bit `c` of a sender row is the receiver's, flipped where delta and the choice are set. */
  lemma {:induction false} HonestRowBit(o: Oracles, base: seq<SeedPair>, selected: seq<Label>, delta: Label,
                                        sessionId: Bytes32, choices: Bytes, r: nat, c: nat)
    requires |base| == |selected| == BASE_OT_COUNT && FollowsDelta(selected, base, delta)
    requires r < 8 * |choices| && c < BASE_OT_COUNT
    ensures var u := Flat(UColumns(o, base, sessionId, choices));
            && |u| == BASE_OT_COUNT * |choices|
            && Row(QColumns(o, selected, delta, sessionId, u, |choices|), |choices|, r).Bit(c)
               == (Row(TColumns(o, base, sessionId, |choices|), |choices|, r).Bit(c) != (delta.Bit(c) && BitsOf(choices)[r]))
  {
    hide Expand, Row, BitsOf, UColumn, QColumn, Flat, Column, Encoded;
    var n := |choices|;
    var us := UColumns(o, base, sessionId, choices);
    FlatColumn(us, n, c);
    var t := Expand(o, base[c].zero, sessionId, c, n);
    QFollowsT(o, base[c], delta.Bit(c), sessionId, c, us[c]);
    HonestEncodes(o, base[c], sessionId, c, choices);
    if delta.Bit(c) { XorBytesBits(t, choices, r); }
  }

  lemma {:induction false} HonestRow(o: Oracles, base: seq<SeedPair>, selected: seq<Label>, delta: Label,
                                     sessionId: Bytes32, choices: Bytes, r: nat)
    requires |base| == |selected| == BASE_OT_COUNT && FollowsDelta(selected, base, delta) && r < 8 * |choices|
    ensures var u := Flat(UColumns(o, base, sessionId, choices));
            && |u| == BASE_OT_COUNT * |choices|
            && Row(QColumns(o, selected, delta, sessionId, u, |choices|), |choices|, r)
               == Row(TColumns(o, base, sessionId, |choices|), |choices|, r).Xor(delta.When(BitsOf(choices)[r]))
  {
    hide Row, BitsOf, UColumns, QColumns, TColumns, Flat;
    HonestRowBit(o, base, selected, delta, sessionId, choices, r, 0);
    var n := |choices|;
    var u := Flat(UColumns(o, base, sessionId, choices));
    var q := Row(QColumns(o, selected, delta, sessionId, u, n), n, r);
    var t := Row(TColumns(o, base, sessionId, n), n, r);
    forall c | 0 <= c < 128
      ensures q.Bit(c) == t.Xor(delta.When(BitsOf(choices)[r])).Bit(c)
    {
      HonestRowBit(o, base, selected, delta, sessionId, choices, r, c);
    }
    SameBits(q, t.Xor(delta.When(BitsOf(choices)[r])));
  }

  /** Rows that differ by delta where the choice is set hash to matching transfers. */
  lemma {:induction false} BatchesMatch(o: Oracles, q: seq<Label>, t: seq<Label>, choices: Bytes, delta: Label, start: Index, count: nat)
    requires count <= |q| == |t| == 8 * |choices| && start + count < UINT64
    requires forall r :: 0 <= r < |t| ==> q[r] == t[r].Xor(delta.When(BitsOf(choices)[r]))
    ensures AllMatch(SenderBatch(o, q, delta, start, count), ReceiverBatch(o, t, choices, start, count))
  {
    hide Tmmo, Label.Xor, BitsOf;
    var s, r := SenderBatch(o, q, delta, start, count), ReceiverBatch(o, t, choices, start, count);
    forall i | 0 <= i < count
      ensures Matches(s[i], r[i])
    {
      XorNone(t[i]);
      XorCancel(t[i], delta);
    }
  }

  /**
   Base seeds to random transfers: for every choice vector and every delta, the two
   batches match entry by entry, with equal indices.
   */
  lemma {:induction false} ExtensionCorrect(o: Oracles, base: seq<SeedPair>, selected: seq<Label>, delta: Label,
                                            sessionId: Bytes32, choices: Bytes, start: Index, count: nat)
    requires |base| == |selected| == BASE_OT_COUNT && FollowsDelta(selected, base, delta)
    requires count <= 8 * |choices| && start + count < UINT64
    ensures var u := Flat(UColumns(o, base, sessionId, choices));
            var n := |choices|;
            && |u| == BASE_OT_COUNT * n
            && AllMatch(SenderBatch(o, Rows(QColumns(o, selected, delta, sessionId, u, n), n), delta, start, count),
                        ReceiverBatch(o, Rows(TColumns(o, base, sessionId, n), n), choices, start, count))
  {
    hide Row, BitsOf, UColumns, QColumns, TColumns, Flat, FollowsDelta, AllMatch, SenderBatch, ReceiverBatch, Label.Xor;
    var n := |choices|;
    ColumnsOfFlat(UColumns(o, base, sessionId, choices), n);
    var u := Flat(UColumns(o, base, sessionId, choices));
    var q, t := Rows(QColumns(o, selected, delta, sessionId, u, n), n), Rows(TColumns(o, base, sessionId, n), n);
    forall r | 0 <= r < 8 * n
      ensures q[r] == t[r].Xor(delta.When(BitsOf(choices)[r]))
    {
      HonestRow(o, base, selected, delta, sessionId, choices, r);
    }
    BatchesMatch(o, q, t, choices, delta, start, count);
  }

  // The column check is additive

  lemma {:induction false} FromBytesXor(a: Bytes, b: Bytes)
    requires |a| == |b| == 16
    ensures FromBytes(XorBytes(a, b)) == FromBytes(a).Xor(FromBytes(b))
  {
    var l, r := FromBytes(XorBytes(a, b)), FromBytes(a).Xor(FromBytes(b));
    forall i | 0 <= i < 128
      ensures l.Bit(i) == r.Bit(i)
    {
      FromBytesBit(a, i);
      FromBytesBit(b, i);
      FromBytesBit(XorBytes(a, b), i);
    }
    SameBits(l, r);
  }

  lemma {:induction false} FromBytesBit(b: Bytes, i: nat)
    requires |b| == 16 && i < 128
    ensures FromBytes(b).Bit(i) == (if i < 64 then b[7 - i / 8][i % 8] else b[15 - (i - 64) / 8][(i - 64) % 8])
  {}

  lemma {:induction false} BlockXor(a: Bytes, b: Bytes, k: nat)
    requires |a| == |b| && 16 * k + 16 <= |a|
    ensures BlockLabel(XorBytes(a, b), k) == BlockLabel(a, k).Xor(BlockLabel(b, k))
  {
    hide FromBytes, XorByte, Label.Xor;
    assert XorBytes(a, b)[16 * k..16 * k + 16] == XorBytes(a[16 * k..16 * k + 16], b[16 * k..16 * k + 16]);
    FromBytesXor(a[16 * k..16 * k + 16], b[16 * k..16 * k + 16]);
  }

  lemma {:induction false} ChiSumXor(a: Bytes, b: Bytes, chi: seq<Label>, n: nat)
    requires |a| == |b| && n <= |chi| && 16 * n <= |a|
    ensures ChiSum(XorBytes(a, b), chi, n) == ChiSum(a, chi, n).Xor(ChiSum(b, chi, n))
    decreases n
  {
    hide BlockLabel, Mul, XorBytes, Label.Xor;
    if n == 0 {
      XorNone(NONE);
    } else {
      var x, y := BlockLabel(a, n - 1), BlockLabel(b, n - 1);
      ChiSumXor(a, b, chi, n - 1);
      BlockXor(a, b, n - 1);
      MulXor(x, y, chi[n - 1]);
      XorExchange(ChiSum(a, chi, n - 1), ChiSum(b, chi, n - 1), Mul(x, chi[n - 1]), Mul(y, chi[n - 1]));
    }
  }

  lemma {:induction false} CheckXor(a: Bytes, b: Bytes, chi: seq<Label>)
    requires |a| == |b| == 16 * |chi| + 16
    ensures Check(XorBytes(a, b), chi) == Check(a, chi).Xor(Check(b, chi))
  {
    hide BlockLabel, ChiSum, XorBytes, Label.Xor;
    BlockXor(a, b, |chi|);
    ChiSumXor(a, b, chi, |chi|);
    XorExchange(BlockLabel(a, |chi|), BlockLabel(b, |chi|), ChiSum(a, chi, |chi|), ChiSum(b, chi, |chi|));
  }

  // When the check accepts

  /**
   The exact condition, for every matrix U and every claimed x and t. With e_c the choice
   vector that column c of U encodes, the 128 equations hold if and only if each claimed
   t_c is off the true column check by fold(e_c) + x where delta is set and by nothing
   where it is not.
   */
  lemma {:induction false} ChecksPassExactly(o: Oracles, base: seq<SeedPair>, selected: seq<Label>, delta: Label,
                                             sessionId: Bytes32, u: Bytes, chi: seq<Label>, proof: Proof)
    requires |base| == |selected| == BASE_OT_COUNT && FollowsDelta(selected, base, delta)
    requires |u| == BASE_OT_COUNT * (16 * |chi| + 16) && |proof.t| == BASE_OT_COUNT
    ensures var n := 16 * |chi| + 16;
            ChecksPass(Checks(QColumns(o, selected, delta, sessionId, u, n), n, chi), delta, proof)
            <==> forall c :: 0 <= c < BASE_OT_COUNT ==>
                   proof.t[c].Xor(Check(TColumns(o, base, sessionId, n)[c], chi))
                   == Check(Encoded(o, base[c], sessionId, c, Column(u, n, c)), chi).Xor(proof.x).When(delta.Bit(c))
  {
    hide Check, Checks, Expand, QColumn, Encoded, Column, Label.Xor, Label.Bit;
    var n := 16 * |chi| + 16;
    var q, t := QColumns(o, selected, delta, sessionId, u, n), TColumns(o, base, sessionId, n);
    forall c | 0 <= c < BASE_OT_COUNT
      ensures Check(q[c], chi) == proof.t[c].Xor(proof.x.When(delta.Bit(c)))
              <==> proof.t[c].Xor(Check(t[c], chi))
                   == Check(Encoded(o, base[c], sessionId, c, Column(u, n, c)), chi).Xor(proof.x).When(delta.Bit(c))
    {
      var e := Encoded(o, base[c], sessionId, c, Column(u, n, c));
      QFollowsT(o, base[c], delta.Bit(c), sessionId, c, Column(u, n, c));
      if delta.Bit(c) { CheckXor(t[c], e, chi); }
      Rearrange(Check(t[c], chi), Check(e, chi), proof.t[c], proof.x, delta.Bit(c));
    }
  }

  lemma {:induction false} Rearrange(t: Label, e: Label, claimed: Label, x: Label, bit: bool)
    ensures t.Xor(e.When(bit)) == claimed.Xor(x.When(bit)) <==> claimed.Xor(t) == e.Xor(x).When(bit)
    ensures t.Xor(NONE) == t
  {
    XorNone(t);
    XorNone(claimed);
    if t.Xor(e.When(bit)) == claimed.Xor(x.When(bit)) {
      assert forall i :: 0 <= i < 128 ==>
               t.Xor(e.When(bit)).Bit(i) == claimed.Xor(x.When(bit)).Bit(i);
      SameBits(claimed.Xor(t), e.Xor(x).When(bit));
    }
    if claimed.Xor(t) == e.Xor(x).When(bit) {
      assert forall i :: 0 <= i < 128 ==> claimed.Xor(t).Bit(i) == e.Xor(x).When(bit).Bit(i);
      SameBits(t.Xor(e.When(bit)), claimed.Xor(x.When(bit)));
    }
  }

  /** With honest column values, acceptance says: where delta is set, U encodes vectors that fold to x. */
  lemma {:induction false} HonestColumnsPassExactly(o: Oracles, base: seq<SeedPair>, selected: seq<Label>, delta: Label,
                                                    sessionId: Bytes32, u: Bytes, chi: seq<Label>, proof: Proof)
    requires |base| == |selected| == BASE_OT_COUNT && FollowsDelta(selected, base, delta)
    requires |u| == BASE_OT_COUNT * (16 * |chi| + 16)
    requires proof.t == Checks(TColumns(o, base, sessionId, 16 * |chi| + 16), 16 * |chi| + 16, chi)
    ensures var n := 16 * |chi| + 16;
            ChecksPass(Checks(QColumns(o, selected, delta, sessionId, u, n), n, chi), delta, proof)
            <==> forall c :: 0 <= c < BASE_OT_COUNT && delta.Bit(c) ==>
                   Check(Encoded(o, base[c], sessionId, c, Column(u, n, c)), chi) == proof.x
  {
    hide Check, Checks, QColumns, TColumns, Encoded, Column, Label.Xor, Label.Bit, ChecksPass, FollowsDelta;
    ChecksPassExactly(o, base, selected, delta, sessionId, u, chi, proof);
    var n := 16 * |chi| + 16;
    forall c | 0 <= c < BASE_OT_COUNT
      ensures proof.t[c].Xor(Check(TColumns(o, base, sessionId, n)[c], chi)) == NONE
      ensures var e := Check(Encoded(o, base[c], sessionId, c, Column(u, n, c)), chi);
              e.Xor(proof.x) == NONE <==> e == proof.x
    {
      XorNone(proof.t[c]);
      XorZeroIsEqual(Check(Encoded(o, base[c], sessionId, c, Column(u, n, c)), chi), proof.x);
    }
  }

  lemma {:induction false} XorZeroIsEqual(a: Label, b: Label)
    ensures a.Xor(b) == NONE <==> a == b
  {
    XorNone(a);
    if a.Xor(b) == NONE {
      assert forall i :: 0 <= i < 128 ==> a.Xor(b).Bit(i) == NONE.Bit(i);
      SameBits(a, b);
    }
  }

  /** An honest receiver passes, whatever its choices, delta and the challenge. */
  lemma {:induction false} HonestReceiverPasses(o: Oracles, base: seq<SeedPair>, selected: seq<Label>, delta: Label,
                                                sessionId: Bytes32, choices: Bytes, chi: seq<Label>, proof: Proof)
    requires |base| == |selected| == BASE_OT_COUNT && FollowsDelta(selected, base, delta)
    requires |choices| == 16 * |chi| + 16
    requires proof.t == Checks(TColumns(o, base, sessionId, |choices|), |choices|, chi) && proof.x == Check(choices, chi)
    ensures var u := Flat(UColumns(o, base, sessionId, choices));
            && |u| == BASE_OT_COUNT * |choices|
            && ChecksPass(Checks(QColumns(o, selected, delta, sessionId, u, |choices|), |choices|, chi), delta, proof)
  {
    hide Check, Checks, QColumns, TColumns, Encoded, Column, Label.Xor, Label.Bit, ChecksPass, FollowsDelta, Flat, UColumn;
    var n := |choices|;
    var us := UColumns(o, base, sessionId, choices);
    ColumnsOfFlat(us, n);
    forall c | 0 <= c < BASE_OT_COUNT
      ensures Encoded(o, base[c], sessionId, c, Column(Flat(us), n, c)) == choices
    {
      FlatColumn(us, n, c);
      HonestEncodes(o, base[c], sessionId, c, choices);
    }
    HonestColumnsPassExactly(o, base, selected, delta, sessionId, Flat(us), chi, proof);
  }

  // The transcript checks of honest messages

  lemma {:induction false} HonestCommitmentValid(o: Oracles, rng: Bytes, base: seq<SeedPair>, epoch: Bytes, cipher: Bytes,
                                                 sessionId: Bytes32, start: Index, count: int)
    requires |base| == BASE_OT_COUNT && ReceiverStarts(o, rng, epoch, cipher, sessionId, start, count)
    ensures ValidCommitment(o, epoch, cipher,
                            SentCommitment(o, base, Choices(rng, count), epoch, cipher, sessionId, start, count,
                                           PaddedCount(count).value))
  {
    hide ValidEpoch, ValidBaseCipher, EpochHash, Flat, UColumns, Transcript, PaddedCount;
    var choices := Choices(rng, count);
    ColumnsOfFlat(UColumns(o, base, sessionId, choices), |choices|);
    var c := SentCommitment(o, base, choices, epoch, cipher, sessionId, start, count, PaddedCount(count).value);
    BlockArithmetic(c.paddedCount);
    TranscriptOmitsItself(o, cipher, c, Zeros(32));
  }

  lemma {:induction false} TranscriptOmitsItself(o: Oracles, cipher: Bytes, c: Commitment, t: Bytes32)
    ensures Transcript(o, cipher, c.(transcript := t)) == Transcript(o, cipher, c)
  {}

  lemma {:induction false} HonestChallengeValid(o: Oracles, rng: Bytes, c: Commitment)
    requires c.paddedCount >= KOS_CHECK_OTS && |rng| >= 16 * ChallengeCount(c.paddedCount)
    ensures ValidChallenge(o, c, SentChallenge(o, rng, c))
  {}
}
