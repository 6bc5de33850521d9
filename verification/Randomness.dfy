/** Every random byte drawn is used, once, where it belongs (mpc/oprf.go, mpc/circuit.go, mpc/ot_extension.go). */
module Randomness {
  import opened Words
  import opened Labels
  import opened BigEndian
  import opened Plan
  import opened Circuit
  import opened Online
  import opened Extension
  import opened ExtensionProtocol
  import opened Frames

  /** Session identifier, key and garbling bytes are the drawn bytes, in this order, without overlap. */
  lemma {:induction false} SessionBytes(rng: seq<Byte>)
    requires EnoughRandomness(rng)
    ensures PutWord(SessionIdOf(rng)) + KeyOf(rng) + GarblingBytes(rng) == rng[..24 + RANDOM_SIZE]
  {
    hide PutWord, WordFromBytes;
    WordRoundTrip(ZERO, rng[..8]);
    assert rng[24..][..RANDOM_SIZE] == rng[24..24 + RANDOM_SIZE];
  }

  /** The offset is the first 16 bytes but for its forced bit; input label i is the i-th 16 after them. */
  lemma {:induction false} GarblingLabels(random: seq<Byte>, i: nat, bit: nat)
    requires |random| == RANDOM_SIZE && i < 2 * INPUT_BITS && bit < 128
    ensures Put(InputWire(random, i).l0) == random[16 + 16 * i..32 + 16 * i]
    ensures GlobalOffset(random).Bit(bit) == (bit == 63 || FromBytes(random[..16]).Bit(bit))
  {
    hide Put, FromBytes;
    LabelRoundTrip(NONE, random[16 + 16 * i..32 + 16 * i]);
    OffsetBit(FromBytes(random[..16]), bit);
  }

  lemma {:induction false} OffsetBit(l: Label, bit: nat)
    requires bit < 128
    ensures l.WithPermutationBit(true).Bit(bit) == (bit == 63 || l.Bit(bit))
  {}

  /** The receiver's choices are the drawn bytes, one bit for every padded row. */
  lemma {:induction false} ChoiceBytes(rng: Bytes, count: int)
    requires PaddedCount(count).Ok? && |rng| >= PaddedCount(count).value / 8
    ensures ExtensionProtocol.Choices(rng, count) <= rng && 8 * |ExtensionProtocol.Choices(rng, count)| == PaddedCount(count).value
  {
    var padded := PaddedCount(count).value;
    EightFold(padded / 128, padded);
  }

  lemma {:induction false} EightFold(k: nat, n: nat)
    requires n % 128 == 0 && k == n / 128
    ensures 8 * (n / 8) == n
  {
    assert n == 128 * k;
    assert n / 8 == 16 * k;
  }

  /** The challenge coefficients are the drawn bytes. */
  lemma {:induction false} CoefficientBytes(rng: Bytes, n: nat)
    requires |rng| >= 16 * n
    ensures PutLabels(Coefficients(rng, n)) == rng[..16 * n]
    decreases n
  {
    hide Put, FromBytes, PutLabels;
    if n == 0 {
      NoLabels();
      assert Coefficients(rng, 0) == [] && rng[..0] == [];
    } else {
      var last := FromBytes(rng[16 * (n - 1)..16 * n]);
      CoefficientBytes(rng, n - 1);
      assert Coefficients(rng, n) == Coefficients(rng, n - 1) + [last];
      PutLabelsSnoc(Coefficients(rng, n - 1), last);
      LabelRoundTrip(NONE, rng[16 * (n - 1)..16 * n]);
      assert rng[..16 * n] == rng[..16 * (n - 1)] + rng[16 * (n - 1)..16 * n];
    }
  }

  lemma {:induction false} NoLabels()
    ensures PutLabels([]) == []
  {}
}
