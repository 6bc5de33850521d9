/**
 Exactly which TLS 1.2 CBC records are accepted (minitls/cbc12.go), in terms of the MAC, the
 block cipher and the bytes alone.
 */
module CbcAcceptance {
  import opened Words
  import opened Labels
  import opened Results
  import opened BigEndian
  import opened Ots
  import opened Padding12
  import opened Cbc12

  // Padding and chaining, without the code's terms

  /** Section 6.2.3.2 of RFC 5246: every padding byte holds the number of those before the last. */
  ghost predicate WellPadded(pad: Bytes) {
    0 < |pad| <= 256 && forall i :: 0 <= i < |pad| ==> pad[i] == ByteOfNat(|pad| - 1)
  }

  lemma {:induction false} OnesAreNotZeros()
    ensures ONES8 != ZERO8
  {
    assert ONES8[0] != ZERO8[0];
  }

  lemma {:induction false} PaddingExactly(body: Bytes, remove: nat)
    ensures PaddingSpec(body) == (remove, ONES8) <==> 0 < remove <= |body| && WellPadded(body[|body| - remove..])
  {
    hide NatOfByte, ByteOfNat;
    OnesAreNotZeros();
    if PaddingSpec(body) == (remove, ONES8) {
      ByteRoundTrip(0, body[|body| - 1]);
    }
    if 0 < remove <= |body| && WellPadded(body[|body| - remove..]) {
      var pad := body[|body| - remove..];
      assert forall i :: |body| - remove <= i < |body| ==> body[i] == pad[i - (|body| - remove)];
      ByteRoundTrip(remove - 1, body[|body| - 1]);
    }
  }

  /** The ciphertext block before block `i`. */
  function Previous(iv: Label, c: Bytes, i: nat): Label
    requires 16 * i <= |c|
  {
    if i == 0 then iv else FromBytes(c[16 * (i - 1)..16 * i])
  }

  lemma {:induction false} Shifted(s: Bytes, i: nat, j: nat)
    requires 16 <= |s| && i <= j <= |s| - 16
    ensures s[16..][i..j] == s[16 + i..16 + j]
  {}

  /** Every ciphertext block is the encryption of its plaintext block plus the block before. */
  lemma {:induction false} EncryptsBlockwise(enc: Label -> Label, iv: Label, data: Bytes, i: nat)
    requires |data| % 16 == 0 && 16 * i + 16 <= |data|
    ensures var c := CbcEncrypt(enc, iv, data);
            FromBytes(c[16 * i..16 * i + 16]) == enc(FromBytes(data[16 * i..16 * i + 16]).Xor(Previous(iv, c, i)))
    decreases i
  {
    hide FromBytes, Put, Label.Xor;
    var c := CbcEncrypt(enc, iv, data);
    var block := enc(FromBytes(data[..16]).Xor(iv));
    LabelRoundTrip(block, data[..16]);
    assert c[..16] == Put(block) && c[16..] == CbcEncrypt(enc, block, data[16..]);
    if i > 0 {
      EncryptsBlockwise(enc, block, data[16..], i - 1);
      Shifted(c, 16 * (i - 1), 16 * i);
      Shifted(data, 16 * (i - 1), 16 * i);
      if i > 1 { Shifted(c, 16 * (i - 2), 16 * (i - 1)); }
    }
  }

  /** Every plaintext block is the decryption of its ciphertext block plus the block before. */
  lemma {:induction false} DecryptsBlockwise(dec: Label -> Label, iv: Label, data: Bytes, i: nat)
    requires |data| % 16 == 0 && 16 * i + 16 <= |data|
    ensures FromBytes(CbcDecrypt(dec, iv, data)[16 * i..16 * i + 16])
            == dec(FromBytes(data[16 * i..16 * i + 16])).Xor(Previous(iv, data, i))
    decreases i
  {
    hide FromBytes, Put, Label.Xor;
    var p := CbcDecrypt(dec, iv, data);
    var block := FromBytes(data[..16]);
    LabelRoundTrip(dec(block).Xor(iv), data[..16]);
    assert p[..16] == Put(dec(block).Xor(iv)) && p[16..] == CbcDecrypt(dec, block, data[16..]);
    if i > 0 {
      DecryptsBlockwise(dec, block, data[16..], i - 1);
      Shifted(p, 16 * (i - 1), 16 * i);
      Shifted(data, 16 * (i - 1), 16 * i);
      if i > 1 { Shifted(data, 16 * (i - 2), 16 * (i - 1)); }
    }
  }

  // Headers

  lemma {:induction false} TwoBytes(b: Bytes)
    requires |b| == 2
    ensures GetUint(b) == 256 * NatOfByte(b[0]) + NatOfByte(b[1])
  {
    hide NatOfByte;
    assert b[..1][..0] == [] && GetUint(b[..1]) == 256 * GetUint([]) + NatOfByte(b[0]);
  }

  /** Version 3.3, the payload's length in two bytes, and no more than 16384 + 2048 bytes. */
  lemma {:induction false} HeaderExactly(h: Bytes, payload: Bytes)
    ensures ValidHeader(h, payload) <==>
            && |h| == 5 && NatOfByte(h[1]) == 3 && NatOfByte(h[2]) == 3
            && 256 * NatOfByte(h[3]) + NatOfByte(h[4]) == |payload| <= 18432
  {
    hide NatOfByte, GetUint;
    if |h| == 5 {
      TwoBytes(h[1..3]);
      TwoBytes(h[3..5]);
    }
  }

  // Records

  /** What section 6.2.3.1 of RFC 5246 puts under the MAC: number, type, version 3.3, length, data. */
  function Authenticated(seqNum: Index, contentType: Byte, data: Bytes): Bytes {
    PutUint(seqNum, 8) + [contentType, ByteOfNat(3), ByteOfNat(3)] + PutUint(|data|, 2) + data
  }

  lemma {:induction false} MacInputIs(seqNum: Index, contentType: Byte, data: Bytes)
    ensures MacInput(seqNum, contentType, |data|, data) == Authenticated(seqNum, contentType, data)
  {
    hide ByteOfNat;
    assert PutUint(3, 1) == PutUint(0, 0) + [ByteOfNat(3)];
    assert PutUint(0x0303, 2) == PutUint(3, 1) + [ByteOfNat(3)];
    assert [contentType] + PutUint(0x0303, 2) == [contentType, ByteOfNat(3), ByteOfNat(3)];
    hide PutUint;
    var n, l := PutUint(seqNum, 8), PutUint(|data|, 2);
    assert MacInput(seqNum, contentType, |data|, data) == n + ([contentType] + PutUint(0x0303, 2)) + l + data;
  }

  ghost predicate MacLengthOk(p: Primitives, macSize: nat) {
    forall k, m :: |p.hmac(k, m)| == macSize
  }

  function Decrypted(p: Primitives, key: Bytes, f: Bytes): Bytes
    requires 16 <= |f| && |f| % 16 == 0
  {
    CbcDecrypt(p.dec(key), FromBytes(f[..16]), f[16..])
  }

  /** Encrypt-then-MAC: a fragment and its MAC; the fragment decrypts to plaintext and padding. */
  ghost predicate EtmForm(p: Primitives, k: Keys, seqNum: Index, contentType: Byte, payload: Bytes, x: Bytes, f: Bytes, pad: Bytes) {
    && payload == f + p.hmac(k.macKey, Authenticated(seqNum, contentType, f))
    && 16 <= |f| && |f| % 16 == 0
    && Decrypted(p, k.key, f) == x + pad && WellPadded(pad) && |x| <= 16384
  }

  /** MAC-then-encrypt: the payload decrypts to plaintext, its MAC and padding. */
  ghost predicate MteForm(p: Primitives, k: Keys, seqNum: Index, contentType: Byte, payload: Bytes, x: Bytes, pad: Bytes) {
    && 16 <= |payload| && |payload| % 16 == 0
    && Decrypted(p, k.key, payload) == x + p.hmac(k.macKey, Authenticated(seqNum, contentType, x)) + pad
    && WellPadded(pad) && |x| <= 16384
  }

  /**
   The one other shape that MAC-then-encrypt accepts: the padding reaches back into the first
   bytes, which are the MAC of the empty plaintext.
   */
  ghost predicate OverlapForm(p: Primitives, k: Keys, macSize: nat, seqNum: Index, contentType: Byte, payload: Bytes, r: nat) {
    && 16 <= |payload| && |payload| % 16 == 0
    && var body := Decrypted(p, k.key, payload);
       && macSize < |body| && body[..macSize] == p.hmac(k.macKey, Authenticated(seqNum, contentType, []))
       && |body| - macSize < r <= |body| && WellPadded(body[|body| - r..])
  }

  lemma {:induction false} FragmentOpens(p: Primitives, key: Bytes, f: Bytes, minimum: nat)
    ensures OpenFragment(p, key, f, minimum) ==
            if 16 <= |f| && |f| % 16 == 0 && 16 + minimum <= |f| then Ok(Decrypted(p, key, f)) else Err
  {
    hide CbcDecrypt, FromBytes;
    assert |f| >= 16 ==> (|f| - 16) % 16 == |f| % 16;
  }

  lemma {:induction false} WholeBlocks(n: nat)
    requires n > 0 && n % 16 == 0
    ensures n >= 16
  {}

  /** Encrypt-then-MAC accepts exactly the records of that form. */
  lemma {:induction false} EtmExactly(p: Primitives, k: Keys, macSize: nat, seqNum: Index, contentType: Byte, payload: Bytes, x: Bytes)
    requires MacLengthOk(p, macSize)
    ensures OpenPayload(p, k, EncryptThenMac, macSize, seqNum, contentType, payload) == Ok(x)
            <==> exists f, pad :: EtmForm(p, k, seqNum, contentType, payload, x, f, pad)
  {
    hide OpenPayload, EtmForm;
    if OpenPayload(p, k, EncryptThenMac, macSize, seqNum, contentType, payload) == Ok(x) {
      EtmOpened(p, k, macSize, seqNum, contentType, payload, x);
    }
    if exists f, pad :: EtmForm(p, k, seqNum, contentType, payload, x, f, pad) {
      var f, pad :| EtmForm(p, k, seqNum, contentType, payload, x, f, pad);
      EtmOpens(p, k, macSize, seqNum, contentType, payload, x, f, pad);
    }
  }

  lemma {:induction false} EtmOpened(p: Primitives, k: Keys, macSize: nat, seqNum: Index, contentType: Byte, payload: Bytes, x: Bytes)
    requires MacLengthOk(p, macSize)
    requires OpenPayload(p, k, EncryptThenMac, macSize, seqNum, contentType, payload) == Ok(x)
    ensures exists f, pad :: EtmForm(p, k, seqNum, contentType, payload, x, f, pad)
  {
    hide OpenFragment, PaddingSpec, MacInput, Authenticated, Decrypted, WellPadded;
    var f := payload[..|payload| - macSize];
    MacInputIs(seqNum, contentType, f);
    FragmentOpens(p, k.key, f, BLOCK);
    var body := Decrypted(p, k.key, f);
    var r := PaddingSpec(body).0;
    PaddingExactly(body, r);
    var pad := body[|body| - r..];
    assert body == x + pad && payload == f + payload[|payload| - macSize..];
    assert EtmForm(p, k, seqNum, contentType, payload, x, f, pad);
  }

  lemma {:induction false} EtmOpens(p: Primitives, k: Keys, macSize: nat, seqNum: Index, contentType: Byte, payload: Bytes, x: Bytes,
                                    f: Bytes, pad: Bytes)
    requires MacLengthOk(p, macSize) && EtmForm(p, k, seqNum, contentType, payload, x, f, pad)
    ensures OpenPayload(p, k, EncryptThenMac, macSize, seqNum, contentType, payload) == Ok(x)
  {
    hide OpenFragment, PaddingSpec, MacInput, Authenticated, Decrypted;
    MacInputIs(seqNum, contentType, f);
    var mac := p.hmac(k.macKey, Authenticated(seqNum, contentType, f));
    assert (f + mac)[..|f|] == f && (f + mac)[|f|..] == mac;
    DecryptedSize(p, k.key, f);
    WholeBlocks(|f| - 16);
    FragmentOpens(p, k.key, f, BLOCK);
    var body := Decrypted(p, k.key, f);
    assert body[|body| - |pad|..] == pad && body[..|x|] == x;
    PaddingExactly(body, |pad|);
  }

  lemma {:induction false} DecryptedSize(p: Primitives, key: Bytes, f: Bytes)
    requires 16 <= |f| && |f| % 16 == 0
    ensures |Decrypted(p, key, f)| == |f| - 16 && (|f| - 16) % 16 == 0
  {
    hide CbcDecrypt, FromBytes;
  }

  /** MAC-then-encrypt accepts exactly the records of its form, and the overlap for the empty plaintext. */
  lemma {:induction false} MteExactly(p: Primitives, k: Keys, macSize: nat, seqNum: Index, contentType: Byte, payload: Bytes, x: Bytes)
    requires MacLengthOk(p, macSize)
    ensures OpenPayload(p, k, MacThenEncrypt, macSize, seqNum, contentType, payload) == Ok(x)
            <==> || (exists pad :: MteForm(p, k, seqNum, contentType, payload, x, pad))
                 || (x == [] && exists r :: OverlapForm(p, k, macSize, seqNum, contentType, payload, r))
  {
    hide OpenPayload, MteForm, OverlapForm;
    if OpenPayload(p, k, MacThenEncrypt, macSize, seqNum, contentType, payload) == Ok(x) {
      MteOpened(p, k, macSize, seqNum, contentType, payload, x);
    }
    if exists pad :: MteForm(p, k, seqNum, contentType, payload, x, pad) {
      var pad :| MteForm(p, k, seqNum, contentType, payload, x, pad);
      MteOpens(p, k, macSize, seqNum, contentType, payload, x, pad);
    }
    if x == [] && exists r :: OverlapForm(p, k, macSize, seqNum, contentType, payload, r) {
      var r :| OverlapForm(p, k, macSize, seqNum, contentType, payload, r);
      OverlapOpens(p, k, macSize, seqNum, contentType, payload, r);
    }
  }

  lemma {:induction false} MteOpened(p: Primitives, k: Keys, macSize: nat, seqNum: Index, contentType: Byte, payload: Bytes, x: Bytes)
    requires MacLengthOk(p, macSize)
    requires OpenPayload(p, k, MacThenEncrypt, macSize, seqNum, contentType, payload) == Ok(x)
    ensures || (exists pad :: MteForm(p, k, seqNum, contentType, payload, x, pad))
            || (x == [] && exists r :: OverlapForm(p, k, macSize, seqNum, contentType, payload, r))
  {
    hide OpenFragment, PaddingSpec, MacInput, Authenticated, Decrypted, WellPadded, RoundUp;
    MacInputIs(seqNum, contentType, x);
    FragmentOpens(p, k.key, payload, RoundUp(macSize + 1, BLOCK));
    RoundUpAtLeast(macSize + 1);
    DecryptedSize(p, k.key, payload);
    var body := Decrypted(p, k.key, payload);
    var r := PaddingSpec(body).0;
    PaddingExactly(body, r);
    var pad := body[|body| - r..];
    if macSize + r <= |body| {
      var n := |body| - macSize - r;
      assert body == body[..n] + body[n..n + macSize] + body[n + macSize..];
      assert MteForm(p, k, seqNum, contentType, payload, x, pad);
    } else {
      assert body[..0] == [] && body[0..macSize] == body[..macSize];
      assert OverlapForm(p, k, macSize, seqNum, contentType, payload, r);
    }
  }

  lemma {:induction false} RoundUpAtLeast(n: nat)
    ensures RoundUp(n, BLOCK) >= n && RoundUp(n, BLOCK) % 16 == 0
  {
    var q, e := n / 16, n % 16;
    assert n == 16 * q + e;
    if e == 0 {
      assert RoundUp(n, BLOCK) == n;
    } else {
      assert RoundUp(n, BLOCK) == 16 * (q + 1);
    }
  }

  lemma {:induction false} MteOpens(p: Primitives, k: Keys, macSize: nat, seqNum: Index, contentType: Byte, payload: Bytes, x: Bytes, pad: Bytes)
    requires MacLengthOk(p, macSize) && MteForm(p, k, seqNum, contentType, payload, x, pad)
    ensures OpenPayload(p, k, MacThenEncrypt, macSize, seqNum, contentType, payload) == Ok(x)
  {
    hide OpenFragment, PaddingSpec, MacInput, Authenticated, Decrypted, RoundUp;
    MacInputIs(seqNum, contentType, x);
    var mac := p.hmac(k.macKey, Authenticated(seqNum, contentType, x));
    var body := Decrypted(p, k.key, payload);
    DecryptedSize(p, k.key, payload);
    RoundUpLeast(macSize + 1, |body|);
    FragmentOpens(p, k.key, payload, RoundUp(macSize + 1, BLOCK));
    assert body[|body| - |pad|..] == pad && body[..|x|] == x && body[|x|..|x| + macSize] == mac;
    PaddingExactly(body, |pad|);
  }

  lemma {:induction false} OverlapOpens(p: Primitives, k: Keys, macSize: nat, seqNum: Index, contentType: Byte, payload: Bytes, r: nat)
    requires MacLengthOk(p, macSize) && OverlapForm(p, k, macSize, seqNum, contentType, payload, r)
    ensures OpenPayload(p, k, MacThenEncrypt, macSize, seqNum, contentType, payload) == Ok([])
  {
    hide OpenFragment, PaddingSpec, MacInput, Authenticated, Decrypted, RoundUp, WellPadded;
    MacInputIs(seqNum, contentType, []);
    var body := Decrypted(p, k.key, payload);
    DecryptedSize(p, k.key, payload);
    RoundUpLeast(macSize + 1, |body|);
    FragmentOpens(p, k.key, payload, RoundUp(macSize + 1, BLOCK));
    PaddingExactly(body, r);
    assert body[..0] == [] && body[0..macSize] == body[..macSize];
  }

  function Repeated(b: Byte, n: nat): (r: Bytes)
    ensures |r| == n
  {
    seq<Byte>(n, _ => b)
  }

  /**
   The overlap does happen for some MAC function: 32 bytes of value 31 are both a 20-byte MAC of
   the empty plaintext and its padding, but not a MAC followed by padding.
   */
  lemma {:induction false} OverlapHappens(seqNum: Index, contentType: Byte) returns (p: Primitives, k: Keys, payload: Bytes)
    ensures MacLengthOk(p, 20)
    ensures OpenPayload(p, k, MacThenEncrypt, 20, seqNum, contentType, payload) == Ok([])
    ensures forall pad :: !MteForm(p, k, seqNum, contentType, payload, [], pad)
  {
    hide OpenPayload, CbcEncrypt, CbcDecrypt, FromBytes, ByteOfNat, NatOfByte, Authenticated;
    var b := ByteOfNat(31);
    p := Primitives(_ => x => x, _ => x => x, (_, _) => Repeated(b, 20));
    k := Keys([], []);
    var body, iv := Repeated(b, 32), Zeros(16);
    var c := CbcEncrypt(p.enc(k.key), FromBytes(iv), body);
    payload := iv + c;
    assert payload[..16] == iv && payload[16..] == c;
    CbcRoundTrip(p.enc(k.key), p.dec(k.key), FromBytes(iv), body);
    assert Decrypted(p, k.key, payload) == body;
    assert body[..20] == Repeated(b, 20) && body[0..] == body;
    assert WellPadded(body[|body| - 32..]);
    assert OverlapForm(p, k, 20, seqNum, contentType, payload, 32);
    OverlapOpens(p, k, 20, seqNum, contentType, payload, 32);
    NotPadding();
    forall pad
      ensures !MteForm(p, k, seqNum, contentType, payload, [], pad)
    {
      RestOf(b, pad);
    }
  }

  lemma {:induction false} NotPadding()
    ensures !WellPadded(Repeated(ByteOfNat(31), 12))
  {
    hide ByteOfNat, NatOfByte;
    ByteRoundTrip(31, ZERO8);
    ByteRoundTrip(11, ZERO8);
    assert Repeated(ByteOfNat(31), 12)[0] != ByteOfNat(11);
  }

  lemma {:induction false} RestOf(b: Byte, pad: Bytes)
    ensures Repeated(b, 32) == [] + Repeated(b, 20) + pad ==> pad == Repeated(b, 12)
  {
    var s := [] + Repeated(b, 20) + pad;
    assert s[20..] == pad && Repeated(b, 32)[20..] == Repeated(b, 12);
  }

  /** What is written begins with the explicit IV and is no longer than padding to a whole block needs. */
  lemma {:induction false} SealedShape(p: Primitives, macSize: nat, k: Keys, mode: Mode, seqNum: Index, contentType: Byte, x: Bytes, iv: Bytes)
    requires MacLengthOk(p, macSize) && |iv| == 16
    ensures var payload := SealedPayload(p, k, mode, seqNum, contentType, x, iv);
            && |payload| >= 16 && payload[..16] == iv
            && |payload| == if mode == EncryptThenMac then 32 + 16 * (|x| / 16) + macSize else 32 + 16 * ((|x| + macSize) / 16)
  {
    hide CbcEncrypt, FromBytes, MacInput, ByteOfNat;
    var body := if mode == EncryptThenMac then x else x + Mac(p, k.macKey, seqNum, contentType, |x|, x);
    PaddedPrefix(body);
    assert Fragment(p, k.key, iv, body)[..16] == iv;
  }
}
