/** Fixed-width big-endian integers and ASCII tags, as the wire formats use them. */
module BigEndian {
  import opened Words

  type Bytes = seq<Byte>

  function ByteOfNat(n: nat): Byte {
    FromNat(n, 8)
  }

  function NatOfByte(b: Byte): (n: nat)
    ensures n < 256
  {
    ToNatBound(b);
    assert Pow2(4) == 16 && Pow2(8) == 256;
    ToNat(b)
  }

  lemma {:induction false} ByteRoundTrip(n: nat, b: Byte)
    requires n < 256
    ensures NatOfByte(ByteOfNat(n)) == n
    ensures ByteOfNat(NatOfByte(b)) == b
  {
    assert Pow2(4) == 16 && Pow2(8) == 256;
    ToNatFromNat(n, 8);
    FromNatToNat(b);
  }

  function Pow256(k: nat): (p: nat)
    ensures p > 0
  {
    if k == 0 then 1 else 256 * Pow256(k - 1)
  }

  /** The `k` low bytes of `n`, most significant first. */
  function PutUint(n: nat, k: nat): (b: Bytes)
    ensures |b| == k
    decreases k
  {
    if k == 0 then [] else PutUint(n / 256, k - 1) + [ByteOfNat(n % 256)]
  }

  function GetUint(b: Bytes): nat
    decreases |b|
  {
    if b == [] then 0 else 256 * GetUint(b[..|b| - 1]) + NatOfByte(b[|b| - 1])
  }

  lemma {:induction false} GetUintBound(b: Bytes)
    ensures GetUint(b) < Pow256(|b|)
    decreases |b|
  {
    if b != [] { GetUintBound(b[..|b| - 1]); }
  }

  lemma {:induction false} GetPut(n: nat, k: nat)
    requires n < Pow256(k)
    ensures GetUint(PutUint(n, k)) == n
    decreases k
  {
    hide NatOfByte, ByteOfNat;
    if k > 0 {
      var q := n / 256;
      assert n == 256 * q + n % 256 && q < Pow256(k - 1);
      GetPut(q, k - 1);
      ByteRoundTrip(n % 256, ByteOfNat(n % 256));
      GetAppend(PutUint(q, k - 1), ByteOfNat(n % 256));
    }
  }

  lemma {:induction false} PutUintStep(q: nat, e: nat, k: nat)
    requires k > 0 && e < 256
    ensures PutUint(256 * q + e, k) == PutUint(q, k - 1) + [ByteOfNat(e)]
  {
    assert (256 * q + e) / 256 == q && (256 * q + e) % 256 == e;
  }

  lemma {:induction false} PutGet(b: Bytes)
    ensures PutUint(GetUint(b), |b|) == b
    decreases |b|
  {
    hide NatOfByte, ByteOfNat, PutUint;
    if b == [] {
      assert PutUint(0, 0) == [];
    } else {
      var init, last := b[..|b| - 1], b[|b| - 1];
      PutGet(init);
      ByteRoundTrip(0, last);
      PutUintStep(GetUint(init), NatOfByte(last), |b|);
      assert b == init + [last];
    }
  }

  lemma {:induction false} Put4(e: nat)
    requires e < 0x1_0000_0000
    ensures PutUint(e, 4) == [ByteOfNat(e / 0x100_0000), ByteOfNat(e / 0x1_0000 % 256), ByteOfNat(e / 256 % 256), ByteOfNat(e % 256)]
  {
    hide ByteOfNat;
    var e1, e2, e3 := e / 256, e / 256 / 256, e / 256 / 256 / 256;
    assert e2 == e / 0x1_0000 && e3 == e / 0x100_0000;
    assert PutUint(e3, 1) == PutUint(0, 0) + [ByteOfNat(e3)];
    assert PutUint(e2, 2) == PutUint(e3, 1) + [ByteOfNat(e2 % 256)];
    assert PutUint(e1, 3) == PutUint(e2, 2) + [ByteOfNat(e1 % 256)];
  }

  /** A number splits into its high bytes and its low four. */
  lemma {:induction false} PutConcat4(q: nat, e: nat, m: nat)
    requires e < 0x1_0000_0000
    ensures PutUint(0x1_0000_0000 * q + e, m + 4) == PutUint(q, m) + PutUint(e, 4)
  {
    hide ByteOfNat, PutUint;
    var e1, e2, e3 := e / 256, e / 0x1_0000, e / 0x100_0000;
    PutUintStep(q, e3, m + 1);
    PutUintStep(256 * q + e3, e2 % 256, m + 2);
    PutUintStep(0x1_0000 * q + e2, e1 % 256, m + 3);
    PutUintStep(0x100_0000 * q + e1, e % 256, m + 4);
    assert 256 * (256 * q + e3) + e2 % 256 == 0x1_0000 * q + e2;
    assert 256 * (0x1_0000 * q + e2) + e1 % 256 == 0x100_0000 * q + e1;
    assert 256 * (0x100_0000 * q + e1) + e % 256 == 0x1_0000_0000 * q + e;
    Put4(e);
  }

  lemma {:induction false} Get4(a: Bytes, w: Byte, x: Byte, y: Byte, z: Byte)
    ensures GetUint(a + [w] + [x] + [y] + [z])
            == 0x1_0000_0000 * GetUint(a)
               + (0x100_0000 * NatOfByte(w) + 0x1_0000 * NatOfByte(x) + 256 * NatOfByte(y) + NatOfByte(z))
  {
    hide NatOfByte, GetUint;
    GetAppend(a, w);
    GetAppend(a + [w], x);
    GetAppend(a + [w] + [x], y);
    GetAppend(a + [w] + [x] + [y], z);
  }

  lemma {:induction false} GetConcat4(a: Bytes, b: Bytes)
    requires |b| == 4
    ensures GetUint(a + b) == 0x1_0000_0000 * GetUint(a) + GetUint(b)
  {
    assert GetUint([]) == 0;
    hide NatOfByte, GetUint;
    Get4(a, b[0], b[1], b[2], b[3]);
    Get4([], b[0], b[1], b[2], b[3]);
    assert a + b == a + [b[0]] + [b[1]] + [b[2]] + [b[3]];
    assert b == [] + [b[0]] + [b[1]] + [b[2]] + [b[3]];
  }

  lemma {:induction false} GetAppend(a: Bytes, x: Byte)
    ensures GetUint(a + [x]) == 256 * GetUint(a) + NatOfByte(x)
  {
    assert (a + [x])[..|a|] == a;
  }

  lemma {:induction false} Widths()
    ensures Pow256(2) == 0x1_0000 && Pow256(4) == 0x1_0000_0000 && Pow256(8) == 0x1_0000_0000_0000_0000
  {
    assert Pow256(1) == 256 && Pow256(3) == 256 * Pow256(2) && Pow256(5) == 256 * Pow256(4);
    assert Pow256(6) == 256 * Pow256(5) && Pow256(7) == 256 * Pow256(6);
  }

  function Ascii(s: string): (b: Bytes)
    ensures |b| == |s|
  {
    seq<Byte>(|s|, i requires 0 <= i < |s| => ByteOfNat(s[i] as int))
  }

  const ZERO8: Byte := Fill(8, false)

  lemma {:induction false} ZeroByte()
    ensures ByteOfNat(0) == ZERO8 && NatOfByte(ZERO8) == 0
  {
    assert FromNat(0, 4) == [false] + ([false] + ([false] + ([false] + FromNat(0, 0))));
    assert FromNat(0, 8) == [false] + ([false] + ([false] + ([false] + FromNat(0, 4))));
    ByteRoundTrip(0, ZERO8);
  }

  function Zeros(n: nat): (b: Bytes)
    ensures |b| == n
  {
    seq<Byte>(n, _ => ZERO8)
  }

  type Bytes32 = b: Bytes | |b| == 32 witness Zeros(32)

  function XorBytes(a: Bytes, b: Bytes): (r: Bytes)
    requires |a| == |b|
    ensures |r| == |a|
    ensures forall i :: 0 <= i < |a| ==> r[i] == XorByte(a[i], b[i])
  {
    seq<Byte>(|a|, i requires 0 <= i < |a| => XorByte(a[i], b[i]))
  }

  function XorByte(a: Byte, b: Byte): Byte {
    Xor(a, b)
  }
}
