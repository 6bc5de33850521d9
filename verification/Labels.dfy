/**
 128-bit labels (mpc/label.go): two machine words, exclusive or, the permutation bit
 and the 16-byte big-endian wire encoding.
 */
module Labels {
  import opened Words

  datatype Label = Label(d0: Word, d1: Word) {
    /** Bit `i` in the numbering of the extension matrix: `d0` holds bits 0 to 63. */
    predicate Bit(i: int)
      requires 0 <= i < 128
    {
      if i < 64 then d0[i] else d1[i - 64]
    }

    function Xor(r: Label): (x: Label)
      ensures forall i :: 0 <= i < 128 ==> x.Bit(i) == (Bit(i) != r.Bit(i))
    {
      Label(Words.Xor(d0, r.d0), Words.Xor(d1, r.d1))
    }

    predicate PermutationBit() {
      d0[63]
    }

    function WithPermutationBit(on: bool): (l: Label)
      ensures l.PermutationBit() == on
      ensures forall i :: 0 <= i < 128 && i != 63 ==> l.Bit(i) == Bit(i)
    {
      Label(d0[63 := on], d1)
    }

    /** The label itself when `b` holds and the zero label otherwise. */
    function When(b: bool): Label {
      if b then this else NONE
    }
  }

  const NONE: Label := Label(ZERO, ZERO)

  /** A wire carries one label per truth value. */
  datatype Wire = Wire(l0: Label, l1: Label) {
    function Select(bit: bool): Label {
      if bit then l1 else l0
    }
  }

  lemma {:induction false} SameBits(a: Label, b: Label)
    requires forall i :: 0 <= i < 128 ==> a.Bit(i) == b.Bit(i)
    ensures a == b
  {
    forall i | 0 <= i < 64
      ensures a.d0[i] == b.d0[i] && a.d1[i] == b.d1[i]
    {
      assert a.Bit(i) == b.Bit(i);
      assert a.Bit(i + 64) == b.Bit(i + 64);
    }
    assert a.d0 == b.d0 && a.d1 == b.d1;
  }

  lemma {:induction false} XorCancel(a: Label, b: Label)
    ensures a.Xor(b).Xor(b) == a
    ensures b.Xor(a.Xor(b)) == a
  {
    SameBits(a.Xor(b).Xor(b), a);
    SameBits(b.Xor(a.Xor(b)), a);
  }

  lemma {:induction false} XorNone(a: Label)
    ensures a.Xor(NONE) == a
    ensures NONE.Xor(a) == a
    ensures a.Xor(a) == NONE
  {
    SameBits(a.Xor(NONE), a);
    SameBits(NONE.Xor(a), a);
    SameBits(a.Xor(a), NONE);
  }

  lemma {:induction false} XorAssoc(a: Label, b: Label, c: Label)
    ensures a.Xor(b).Xor(c) == a.Xor(b.Xor(c))
  {
    SameBits(a.Xor(b).Xor(c), a.Xor(b.Xor(c)));
  }

  lemma {:induction false} XorComm(a: Label, b: Label)
    ensures a.Xor(b) == b.Xor(a)
  {
    SameBits(a.Xor(b), b.Xor(a));
  }

  // Wire encoding

  /** Byte `k` of a word, counting from the least significant one. */
  function ByteOf(w: Word, k: nat): Byte
    requires k < 8
  {
    w[8 * k..8 * k + 8]
  }

  /** `binary.BigEndian.PutUint64` */
  function PutWord(w: Word): (b: seq<Byte>)
    ensures |b| == 8
  {
    seq(8, k requires 0 <= k < 8 => ByteOf(w, 7 - k))
  }

  /** `binary.BigEndian.Uint64` */
  function WordFromBytes(b: seq<Byte>): (w: Word)
    requires |b| == 8
  {
    seq(64, i requires 0 <= i < 64 => b[7 - i / 8][i % 8])
  }

  function Put(l: Label): (b: seq<Byte>)
    ensures |b| == 16
  {
    PutWord(l.d0) + PutWord(l.d1)
  }

  function FromBytes(b: seq<Byte>): (l: Label)
    requires |b| == 16
  {
    Label(WordFromBytes(b[..8]), WordFromBytes(b[8..]))
  }

  lemma {:induction false} WordRoundTrip(w: Word, b: seq<Byte>)
    requires |b| == 8
    ensures WordFromBytes(PutWord(w)) == w
    ensures PutWord(WordFromBytes(b)) == b
  {
    assert WordFromBytes(PutWord(w)) == w;
    var b' := PutWord(WordFromBytes(b));
    forall k | 0 <= k < 8
      ensures b'[k] == b[k]
    {
      forall j | 0 <= j < 8
        ensures b'[k][j] == b[k][j]
      {
        assert (8 * (7 - k) + j) / 8 == 7 - k && (8 * (7 - k) + j) % 8 == j;
      }
    }
  }

  /** A label survives its 16-byte encoding, and the encoding has no second preimage. */
  lemma {:induction false} LabelRoundTrip(l: Label, b: seq<Byte>)
    requires |b| == 16
    ensures FromBytes(Put(l)) == l
    ensures Put(FromBytes(b)) == b
  {
    WordRoundTrip(l.d0, b[..8]);
    WordRoundTrip(l.d1, b[8..]);
    assert Put(l)[..8] == PutWord(l.d0) && Put(l)[8..] == PutWord(l.d1);
    assert b == b[..8] + b[8..];
  }
}
