/** The nonce and counter told to the prover are those the record was encrypted under. */
module ProverKeystream {
  import opened Words
  import opened Labels
  import opened BigEndian
  import opened Gcm
  import opened Toprf
  import opened ToprfTheorems

  /** Counter n + 2 names the keystream of block n of an AES-GCM record (minitls/crypto.go:685-693). */
  lemma {:induction false} CounterNamesBlock(enc: Label -> Label, nonce: Nonce, p: Bytes, n: nat, j: nat)
    requires j < 16 && 16 * n + j < |p| && n + 2 < TWO32
    ensures GcmCiphertext(enc, nonce, p)[16 * n + j]
            == XorByte(p[16 * n + j], Put(enc(CounterBlock(nonce, Counter(Aes, n))))[j])
  {
    hide CounterBlock, XorByte, Put;
    assert (16 * n + j) / 16 == n && (16 * n + j) % 16 == j;
  }

  /**
   If a packet of the stream is the GCM ciphertext of a plaintext under the packet's nonce, the
   bytes of every chosen block of it decrypt under the nonce and counter given for that block.
   */
  lemma {:induction false} BlockDecrypts(enc: Label -> Label, packets: seq<Packet>, b: Block, stream: Bytes, plain: Bytes, j: nat)
    requires Origin(Aes, packets, b) && b.packet.position + b.packet.length <= |stream| && b.packet.length < UINT32
    requires |b.packet.nonce| == 12 && |plain| >= b.packet.length
    requires stream[b.packet.position..b.packet.position + b.packet.length]
             == GcmCiphertext(enc, b.packet.nonce, plain)[..b.packet.length]
    requires b.start <= b.end && b.start + j < b.end
    ensures var told := Proving(Aes, b);
            && j < 16 && 16 * b.num + j < |plain|
            && stream[b.start + j] == XorByte(plain[16 * b.num + j], Put(enc(CounterBlock(told.nonce, told.counter)))[j])
  {
    hide CounterBlock, XorByte, Put, GcmCiphertext;
    var s := stream[b.packet.position..b.packet.position + b.packet.length];
    assert stream[b.start + j] == s[16 * b.num + j];
    CounterNamesBlock(enc, b.packet.nonce, plain, b.num, j);
  }
}
