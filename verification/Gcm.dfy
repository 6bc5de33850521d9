/**
 AES-GCM split between two parties (minitls/crypto.go): one encrypts in counter mode and
 exports the tag secrets, the other computes the tag. Stated against sections 6.4, 6.5 and
 7.1 of NIST SP 800-38D. `enc` is AES under the record key.
 */
module Gcm {
  import opened Words
  import opened Labels
  import opened Results
  import opened BigEndian
  import opened Ots
  import opened Ghash

  type Nonce = n: Bytes | |n| == 12 witness Zeros(12)

  const TWO32: nat := 0x1_0000_0000

  // The standard

  /** Zero padding to a whole number of blocks. */
  function Pad16(data: Bytes): (r: Bytes)
    ensures |r| % 16 == 0 && |data| <= |r| < |data| + 16
  {
    data + Zeros((16 - |data| % 16) % 16)
  }

  /** GHASH of one string of whole blocks. */
  function GhashString(h: Label, x: Bytes): Label {
    Chain(h, NONE, x, BlockCount(x))
  }

  /** The counter block for a 96-bit nonce; only its last 32 bits count, modulo 2^32. */
  function CounterBlock(nonce: Nonce, n: nat): Label {
    FromBytes(nonce + PutUint(n % TWO32, 4))
  }

  function GcmCiphertext(enc: Label -> Label, nonce: Nonce, p: Bytes): (c: Bytes)
    ensures |c| == |p|
  {
    seq<Byte>(|p|, i requires 0 <= i < |p| => XorByte(p[i], Put(enc(CounterBlock(nonce, 2 + i / 16)))[i % 16]))
  }

  function GcmTag(enc: Label -> Label, nonce: Nonce, aad: Bytes, c: Bytes): Bytes {
    var s := GhashString(enc(NONE), Pad16(aad) + Pad16(c) + (PutUint(8 * |aad|, 8) + PutUint(8 * |c|, 8)));
    Put(s.Xor(enc(CounterBlock(nonce, 1))))
  }

  /** The longest plaintext the standard admits, in bytes: 2^39 - 256 bits. */
  const MAX_PLAINTEXT: nat := 16 * (TWO32 - 2)

  // The encrypting party

  /** Go's counter mode steps the whole 16-byte block as one big-endian number. */
  function CtrBlock(iv: Bytes, i: nat): Label
    requires |iv| == 16
  {
    FromBytes(PutUint(GetUint(iv) + i, 16))
  }

  function CtrStream(enc: Label -> Label, iv: Bytes, p: Bytes): (c: Bytes)
    requires |iv| == 16
    ensures |c| == |p|
  {
    seq<Byte>(|p|, i requires 0 <= i < |p| => XorByte(p[i], Put(enc(CtrBlock(iv, i / 16)))[i % 16]))
  }

  /** The hash key, then the encrypted counter block for the tag. */
  function TagSecrets(enc: Label -> Label, nonce: Nonce): (s: Bytes)
    ensures |s| == 32
  {
    Put(enc(FromBytes(Zeros(16)))) + Put(enc(FromBytes(nonce + Zeros(3) + [ByteOfNat(1)])))
  }

  /** The last block that is hashed: both lengths in bits. */
  function LengthBlock(aad: Bytes, c: Bytes): (b: Bytes)
    ensures |b| == 16
  {
    PutUint(8 * |aad|, 8) + PutUint(8 * |c|, 8)
  }

  /** The counter block that encryption starts from. */
  function FirstCounter(nonce: Nonce): (iv: Bytes)
    ensures |iv| == 16
  {
    nonce + Zeros(3) + [ByteOfNat(2)]
  }

  lemma {:induction false} SmallCounter(n: nat)
    requires n < 256
    ensures PutUint(n, 4) == Zeros(3) + [ByteOfNat(n)]
  {
    hide ByteOfNat, PutUint;
    Put4(n);
    assert n / 0x100_0000 == 0 && n / 0x1_0000 == 0 && n / 256 == 0;
    ZeroByte();
  }

  /** Within the standard's length limit, stepping 128 bits is stepping the last 32. */
  lemma {:induction false} CounterStep(nonce: Nonce, i: nat)
    requires 2 + i < TWO32
    ensures CtrBlock(FirstCounter(nonce), i) == CounterBlock(nonce, 2 + i)
  {
    hide FromBytes, GetUint, PutUint;
    SmallCounter(2);
    assert FirstCounter(nonce) == nonce + PutUint(2, 4);
    GetConcat4(nonce, PutUint(2, 4));
    Widths();
    GetPut(2, 4);
    var q := GetUint(nonce);
    PutConcat4(q, 2 + i, 12);
    PutGet(nonce);
  }

  lemma {:induction false} CiphertextIsGcm(enc: Label -> Label, nonce: Nonce, p: Bytes)
    requires |p| <= MAX_PLAINTEXT
    ensures CtrStream(enc, FirstCounter(nonce), p) == GcmCiphertext(enc, nonce, p)
  {
    hide CtrBlock, CounterBlock, XorByte, Put;
    forall i | 0 <= i < |p|
      ensures CtrBlock(FirstCounter(nonce), i / 16) == CounterBlock(nonce, 2 + i / 16)
    {
      CounterStep(nonce, i / 16);
    }
  }

  lemma {:induction false} SecretsAreGcm(enc: Label -> Label, nonce: Nonce)
    ensures FromBytes(TagSecrets(enc, nonce)[..16]) == enc(NONE)
    ensures FromBytes(TagSecrets(enc, nonce)[16..]) == enc(CounterBlock(nonce, 1))
  {
    hide FromBytes, Put;
    SmallCounter(1);
    assert nonce + Zeros(3) + [ByteOfNat(1)] == nonce + PutUint(1, 4);
    ZeroBlock();
    LabelRoundTrip(enc(NONE), Zeros(16));
    LabelRoundTrip(enc(CounterBlock(nonce, 1)), Zeros(16));
    var s := TagSecrets(enc, nonce);
    assert s[..16] == Put(enc(FromBytes(Zeros(16))));
    assert s[16..] == Put(enc(FromBytes(nonce + Zeros(3) + [ByteOfNat(1)])));
  }

  lemma {:induction false} ZeroBlock()
    ensures FromBytes(Zeros(16)) == NONE
  {
    SameBits(FromBytes(Zeros(16)), NONE);
  }

  // Padding slices separately is hashing one padded string

  lemma {:induction false} BlockOfConcat(a: Bytes, b: Bytes, k: nat)
    requires |a| % 16 == 0 && 16 * k < |a| + |b|
    ensures Block(a + b, k) == if 16 * k < |a| then Block(a, k) else Block(b, k - |a| / 16)
  {
    hide FromBytes;
    if 16 * k < |a| {
      assert (a + b)[16 * k..][..16] == a[16 * k..][..16];
    } else {
      assert 16 * (k - |a| / 16) == 16 * k - |a|;
      assert (a + b)[16 * k..] == b[16 * (k - |a| / 16)..];
    }
  }

  lemma {:induction false} ChainPrefix(h: Label, y: Label, a: Bytes, b: Bytes, n: nat)
    requires |a| % 16 == 0 && n <= |a| / 16
    ensures Chain(h, y, a + b, n) == Chain(h, y, a, n)
    decreases n
  {
    hide Dot, Block, Label.Xor;
    if n > 0 {
      ChainPrefix(h, y, a, b, n - 1);
      BlockOfConcat(a, b, n - 1);
    }
  }

  lemma {:induction false} ChainConcat(h: Label, y: Label, a: Bytes, b: Bytes, m: nat)
    requires |a| % 16 == 0 && m <= BlockCount(b)
    ensures Chain(h, y, a + b, |a| / 16 + m) == Chain(h, Chain(h, y, a, |a| / 16), b, m)
    decreases m
  {
    hide Dot, Block, Label.Xor;
    if m == 0 {
      ChainPrefix(h, y, a, b, |a| / 16);
    } else {
      ChainConcat(h, y, a, b, m - 1);
      BlockOfConcat(a, b, |a| / 16 + (m - 1));
    }
  }

  lemma {:induction false} BlockOfPad(d: Bytes, k: nat)
    requires 16 * k < |d|
    ensures 16 * k < |Pad16(d)| && Block(Pad16(d), k) == Block(d, k)
  {
    hide FromBytes;
    var z := (16 - |d| % 16) % 16;
    assert |d| + z == |Pad16(d)|;
    var rest := d[16 * k..];
    assert Pad16(d)[16 * k..] == rest + Zeros(z);
    if |rest| >= 16 {
      assert (rest + Zeros(z))[..16] == rest[..16];
    } else {
      assert z == 16 - |rest|;
      assert (rest + Zeros(z))[..16] == rest + Zeros(z);
    }
  }

  lemma {:induction false} PadCount(d: Bytes)
    ensures BlockCount(Pad16(d)) == BlockCount(d) == |Pad16(d)| / 16
  {}

  lemma {:induction false} ChainPad(h: Label, y: Label, d: Bytes, n: nat)
    requires n <= BlockCount(d)
    ensures n <= BlockCount(Pad16(d)) && Chain(h, y, Pad16(d), n) == Chain(h, y, d, n)
    decreases n
  {
    hide Dot, Block, Label.Xor, Pad16;
    PadCount(d);
    if n > 0 {
      ChainPad(h, y, d, n - 1);
      BlockOfPad(d, n - 1);
    }
  }

  /** Three slices, each padded on its own, hash like their padded concatenation. */
  lemma {:induction false} SlicesAreOneString(h: Label, a: Bytes, c: Bytes, l: Bytes)
    requires |l| == 16
    ensures GhashSpec(h, [a, c, l]) == GhashString(h, Pad16(a) + Pad16(c) + l)
  {
    hide Chain, Pad16;
    var ya := Chain(h, NONE, a, BlockCount(a));
    var yc := Chain(h, ya, c, BlockCount(c));
    SliceFold(h, a, c, l);
    PadCount(a);
    PadCount(c);
    ChainPad(h, NONE, a, BlockCount(a));
    ChainPad(h, ya, c, BlockCount(c));
    ChainConcat(h, NONE, Pad16(a), Pad16(c), BlockCount(c));
    assert (|Pad16(a)| + |Pad16(c)|) / 16 == BlockCount(a) + BlockCount(c);
    ChainConcat(h, NONE, Pad16(a) + Pad16(c), l, BlockCount(l));
  }

  lemma {:induction false} SliceFold(h: Label, a: Bytes, c: Bytes, l: Bytes)
    ensures var ya := Chain(h, NONE, a, BlockCount(a));
            var yc := Chain(h, ya, c, BlockCount(c));
            GhashSpec(h, [a, c, l]) == Chain(h, yc, l, BlockCount(l))
  {
    hide Chain;
    assert [a, c, l][..2] == [a, c] && [a, c][..1] == [a] && [a][..0] == [];
    assert GhashSpec(h, []) == NONE;
    assert GhashSpec(h, [a]) == Chain(h, NONE, a, BlockCount(a));
    assert GhashSpec(h, [a, c]) == Chain(h, GhashSpec(h, [a]), c, BlockCount(c));
  }

  // The tag-computing party

  lemma {:induction false} ByteOfXor(a: Word, b: Word, k: nat)
    requires k < 8
    ensures ByteOf(Xor(a, b), k) == XorByte(ByteOf(a, k), ByteOf(b, k))
  {
    assert Xor(a, b)[8 * k..8 * k + 8] == Xor(a[8 * k..8 * k + 8], b[8 * k..8 * k + 8]);
  }

  lemma {:induction false} PutXor(a: Label, b: Label)
    ensures Put(a.Xor(b)) == XorBytes(Put(a), Put(b))
  {
    hide ByteOf, XorByte;
    forall k | 0 <= k < 16
      ensures Put(a.Xor(b))[k] == XorByte(Put(a)[k], Put(b)[k])
    {
      if k < 8 { ByteOfXor(a.d0, b.d0, 7 - k); } else { ByteOfXor(a.d1, b.d1, 15 - k); }
    }
  }

  /** `ComputeTagFromSecrets` for the GCM suites. */
  method ComputeTagFromSecrets(ciphertext: Bytes, tagSecrets: Bytes, aad: Bytes) returns (r: Result<Bytes>)
    requires 8 * |ciphertext| < UINT64 && 8 * |aad| < UINT64
    ensures r.Ok? <==> |tagSecrets| == 32
    ensures r.Ok? ==> r.value == XorBytes(Put(GhashSpec(FromBytes(tagSecrets[..16]), [aad, ciphertext, LengthBlock(aad, ciphertext)])),
                                          tagSecrets[16..])
  {
    hide GhashSpec, FromBytes, XorByte, PutUint, Put;
    if |tagSecrets| != 32 {
      return Err;
    }
    var encryptedCounter := tagSecrets[16..];
    var lengthBlock := PutUint(8 * |aad|, 8) + PutUint(8 * |ciphertext|, 8);
    var hash := Hash(tagSecrets[..16], [aad, ciphertext, lengthBlock]);
    var tag: Bytes := [];
    for i := 0 to 16
      invariant |tag| == i && forall k :: 0 <= k < i ==> tag[k] == XorByte(hash[k], encryptedCounter[k])
    {
      tag := tag + [XorByte(hash[i], encryptedCounter[i])];
    }
    r := Ok(tag);
  }

  /**
   The two halves make AES-GCM: for every nonce, associated data and plaintext within the
   standard's limit, the ciphertext and the tag from the exported secrets are the standard's.
   */
  lemma {:induction false} SplitIsGcm(enc: Label -> Label, nonce: Nonce, aad: Bytes, p: Bytes)
    requires |p| <= MAX_PLAINTEXT
    ensures var c := CtrStream(enc, FirstCounter(nonce), p);
            var secrets := TagSecrets(enc, nonce);
            && c == GcmCiphertext(enc, nonce, p)
            && XorBytes(Put(GhashSpec(FromBytes(secrets[..16]), [aad, c, LengthBlock(aad, c)])), secrets[16..])
               == GcmTag(enc, nonce, aad, c)
  {
    hide CtrStream, GcmCiphertext, TagSecrets, GhashSpec, GhashString, FromBytes, Put, XorBytes, CounterBlock, Pad16, LengthBlock, Label.Xor;
    CiphertextIsGcm(enc, nonce, p);
    SecretsAreGcm(enc, nonce);
    var c, secrets := CtrStream(enc, FirstCounter(nonce), p), TagSecrets(enc, nonce);
    var l := LengthBlock(aad, c);
    LengthBlockIs(aad, c);
    SlicesAreOneString(enc(NONE), aad, c, l);
    LabelRoundTrip(NONE, secrets[16..]);
    PutXor(GhashSpec(enc(NONE), [aad, c, l]), enc(CounterBlock(nonce, 1)));
  }

  lemma {:induction false} LengthBlockIs(aad: Bytes, c: Bytes)
    ensures LengthBlock(aad, c) == PutUint(8 * |aad|, 8) + PutUint(8 * |c|, 8)
  {}

  // Nonces and the sequence number

  /** TLS 1.3: the sequence number is added into the last eight bytes of the IV. */
  function Nonce13(iv: Nonce, seqNum: Index): Nonce {
    hide PutUint;
    iv[..4] + XorBytes(iv[4..], PutUint(seqNum, 8))
  }

  /** TLS 1.2: four implicit bytes, then the sequence number as the explicit nonce. */
  function Nonce12(iv: Bytes, seqNum: Index): Nonce {
    hide PutUint;
    (if |iv| >= 4 then iv[..4] else iv + Zeros(4 - |iv|)) + PutUint(seqNum, 8)
  }

  /** No two sequence numbers share a nonce. */
  lemma {:induction false} NonceInjective(iv13: Nonce, iv12: Bytes, s: Index, t: Index)
    ensures Nonce13(iv13, s) == Nonce13(iv13, t) ==> s == t
    ensures Nonce12(iv12, s) == Nonce12(iv12, t) ==> s == t
  {
    hide PutUint, XorByte, GetUint;
    var ps, pt := PutUint(s, 8), PutUint(t, 8);
    Widths();
    GetPut(s, 8);
    GetPut(t, 8);
    if Nonce13(iv13, s) == Nonce13(iv13, t) {
      var v := iv13[4..];
      assert XorBytes(v, ps) == Nonce13(iv13, s)[4..] == Nonce13(iv13, t)[4..] == XorBytes(v, pt);
      forall k | 0 <= k < 8
        ensures ps[k] == pt[k]
      {
        assert XorBytes(v, ps)[k] == XorBytes(v, pt)[k];
        XorByteInjective(v[k], ps[k], pt[k]);
      }
      assert ps == pt;
    }
    if Nonce12(iv12, s) == Nonce12(iv12, t) {
      assert ps == Nonce12(iv12, s)[4..] == Nonce12(iv12, t)[4..] == pt;
    }
  }

  lemma {:induction false} XorByteInjective(v: Byte, a: Byte, b: Byte)
    requires XorByte(v, a) == XorByte(v, b)
    ensures a == b
  {
    forall i | 0 <= i < 8
      ensures a[i] == b[i]
    {
      assert XorByte(v, a)[i] == XorByte(v, b)[i];
    }
  }

  datatype GcmSuite = Tls13 | Tls12

  predicate AesKeyLength(n: nat) {
    n == 16 || n == 24 || n == 32
  }

  class SplitAEAD {
    const key: Bytes
    const iv: Bytes
    const suite: GcmSuite
    var seqNum: Index

    constructor (key: Bytes, iv: Bytes, suite: GcmSuite)
      ensures this.key == key && this.iv == iv && this.suite == suite && seqNum == 0
    {
      this.key, this.iv, this.suite, seqNum := key, iv, suite, 0;
    }

    function NonceFor(n: Index): Nonce
      requires suite.Tls13? ==> |iv| == 12
    {
      if suite.Tls13? then Nonce13(iv, n) else Nonce12(iv, n)
    }

    /** Ciphertext and tag secrets under the next nonce; a refused call keeps the sequence number. */
    method EncryptWithoutTag(aes: Bytes -> (Label -> Label), plaintext: Bytes) returns (r: Result<(Bytes, Bytes)>)
      requires suite.Tls13? ==> |iv| == 12
      modifies this
      ensures r.Ok? <==> old(seqNum) != UINT64 - 1 && AesKeyLength(|key|)
      ensures r.Ok? ==>
                var nonce := NonceFor(old(seqNum));
                && seqNum == old(seqNum) + 1
                && r.value.0 == CtrStream(aes(key), FirstCounter(nonce), plaintext)
                && r.value.1 == TagSecrets(aes(key), nonce)
      ensures r.Err? ==> seqNum == old(seqNum)
    {
      hide CtrBlock, XorByte, Put, Nonce13, Nonce12, TagSecrets, FirstCounter;
      if seqNum == UINT64 - 1 {
        return Err;
      }
      var nonce := NonceFor(seqNum);
      if !AesKeyLength(|key|) {
        return Err;
      }
      var enc := aes(key);
      var ctr := FirstCounter(nonce);
      var ciphertext: Bytes := [];
      for i := 0 to |plaintext|
        invariant |ciphertext| == i
        invariant forall k :: 0 <= k < i ==>
                    ciphertext[k] == XorByte(plaintext[k], Put(enc(CtrBlock(ctr, k / 16)))[k % 16])
      {
        ciphertext := ciphertext + [XorByte(plaintext[i], Put(enc(CtrBlock(ctr, i / 16)))[i % 16])];
      }
      assert ciphertext == CtrStream(enc, ctr, plaintext);
      seqNum := seqNum + 1;
      r := Ok((ciphertext, TagSecrets(enc, nonce)));
    }
  }

  lemma {:induction false} XorByteTwice(a: Byte, b: Byte)
    ensures XorByte(XorByte(a, b), a) == b && XorByte(a, a) == ZERO8 && XorByte(a, ZERO8) == a
  {
    assert forall i :: 0 <= i < 8 ==> XorByte(XorByte(a, b), a)[i] == b[i];
  }

  /**
   The nonce of every record, byte by byte. TLS 1.3 (section 5.3 of RFC 8446): the IV with the
   sequence number added into its last eight bytes. TLS 1.2 (section 3 of RFC 5288): four bytes
   of the IV, then the sequence number.
   */
  lemma {:induction false} NonceExactly(a: SplitAEAD, n: Index)
    requires a.suite.Tls13? ==> |a.iv| == 12
    ensures var nonce := a.NonceFor(n);
            && (a.suite.Tls13? ==>
                  && (forall i :: 0 <= i < 4 ==> nonce[i] == a.iv[i])
                  && GetUint(XorBytes(nonce[4..], a.iv[4..])) == n
                  && (n == 0 ==> nonce == a.iv))
            && (a.suite.Tls12? ==>
                  && (forall i :: 0 <= i < 4 ==> nonce[i] == if i < |a.iv| then a.iv[i] else ZERO8)
                  && GetUint(nonce[4..]) == n)
  {
    hide PutUint, GetUint, XorByte;
    var nonce, s := a.NonceFor(n), PutUint(n, 8);
    Widths();
    GetPut(n, 8);
    if a.suite.Tls13? {
      var v := a.iv[4..];
      assert nonce[4..] == XorBytes(v, s);
      forall i | 0 <= i < 8
        ensures XorBytes(nonce[4..], v)[i] == s[i]
      {
        XorByteTwice(v[i], s[i]);
      }
      assert XorBytes(nonce[4..], v) == s;
      if n == 0 {
        ZeroIndex();
        forall i | 4 <= i < 12
          ensures nonce[i] == a.iv[i]
        {
          XorByteTwice(v[i - 4], s[i - 4]);
          assert s[i - 4] == ZERO8 && nonce[4..][i - 4] == XorByte(v[i - 4], ZERO8);
        }
      }
    } else {
      assert nonce[4..] == s;
    }
  }

  lemma {:induction false} ZeroIndex()
    ensures PutUint(0, 8) == Zeros(8)
  {
    hide PutUint;
    SmallCounter(0);
    ZeroByte();
    assert Zeros(3) + [ByteOfNat(0)] == Zeros(4);
    PutConcat4(0, 0, 4);
    assert Zeros(4) + Zeros(4) == Zeros(8);
  }
}
