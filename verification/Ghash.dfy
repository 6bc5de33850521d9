/**
 GHASH with a 16-entry product table (minitls/crypto.go), against the field definition of
 section 6.3 of NIST SP 800-38D.

 A block is kept as two big-endian words, so a `Label` read by `FromBytes`: `d0` is the
 source's `low`, `d1` its `high`. GCM numbers bits from the other end: the coefficient of
 x^i is bit 63 - i of the first word, or bit 127 - i of the second.
 */
module Ghash {
  import opened Words
  import opened Labels
  import opened BigEndian
  import opened Field

  /** The field element a block denotes, coefficient of x^i at bit `i`. */
  function ToField(e: Label): (f: Label)
    ensures forall i :: 0 <= i < 128 ==> f.Bit(i) == (if i < 64 then e.d0[63 - i] else e.d1[127 - i])
  {
    Label(Reverse(e.d0), Reverse(e.d1))
  }

  lemma {:induction false} ToFieldXor(a: Label, b: Label)
    ensures ToField(a.Xor(b)) == ToField(a).Xor(ToField(b))
  {
    SameBits(ToField(a.Xor(b)), ToField(a).Xor(ToField(b)));
  }

  lemma {:induction false} ToFieldInvolution(a: Label)
    ensures ToField(ToField(a)) == a
  {
    SameBits(ToField(ToField(a)), a);
  }

  lemma {:induction false} ToFieldNone()
    ensures ToField(NONE) == NONE
  {
    SameBits(ToField(NONE), NONE);
  }

  // The definition: blocks multiply as field elements, section 6.3

  function Dot(x: Label, y: Label): Label {
    ToField(Mul(ToField(y), ToField(x)))
  }

  /** Zero-padded block `k` of a slice. */
  function Block(data: Bytes, k: nat): Label
    requires 16 * k < |data|
  {
    var rest := data[16 * k..];
    if |rest| >= 16 then FromBytes(rest[..16]) else FromBytes(rest + Zeros(16 - |rest|))
  }

  function BlockCount(data: Bytes): nat {
    (|data| + 15) / 16
  }

  /** The hash chain over the first `n` blocks of one slice, section 6.4. */
  function Chain(h: Label, y: Label, data: Bytes, n: nat): Label
    requires n <= BlockCount(data)
    decreases n
  {
    if n == 0 then y else Dot(Chain(h, y, data, n - 1).Xor(Block(data, n - 1)), h)
  }

  /** Each slice is padded on its own. */
  function GhashSpec(h: Label, slices: seq<Bytes>): Label {
    if slices == [] then NONE
    else Chain(h, GhashSpec(h, slices[..|slices| - 1]), slices[|slices| - 1], BlockCount(slices[|slices| - 1]))
  }

  // Nibbles

  function Value4(b: Bits): (n: nat)
    requires |b| == 4
    ensures n < 16
  {
    (if b[0] then 1 else 0) + (if b[1] then 2 else 0) + (if b[2] then 4 else 0) + (if b[3] then 8 else 0)
  }

  function Bits4(n: nat): (b: Bits)
    requires n < 16
    ensures |b| == 4
  {
    [n % 2 == 1, n / 2 % 2 == 1, n / 4 % 2 == 1, n / 8 == 1]
  }

  lemma {:induction false} NibbleRoundTrip(n: nat, b: Bits)
    requires n < 16 && |b| == 4
    ensures Value4(Bits4(n)) == n
    ensures Bits4(Value4(b)) == b
  {}

  function Or(a: Bits, b: Bits): (r: Bits)
    requires |a| == |b|
    ensures |r| == |a| && forall i :: 0 <= i < |a| ==> r[i] == (a[i] || b[i])
  {
    seq(|a|, i requires 0 <= i < |a| => a[i] || b[i])
  }

  /** Two rounds of masked shifts on four bits. */
  function ReverseNibble(i: Bits): (r: Bits)
    requires |i| == 4
    ensures |r| == 4
  {
    var j := Or(And(ShiftLeft(i, 2), Bits4(0xc)), And(ShiftRight(i, 2), Bits4(0x3)));
    Or(And(ShiftLeft(j, 1), Bits4(0xa)), And(ShiftRight(j, 1), Bits4(0x5)))
  }

  lemma {:induction false} ReverseNibbleIs(i: Bits)
    requires |i| == 4
    ensures ReverseNibble(i) == Reverse(i)
  {
    assert Bits4(0xc) == [false, false, true, true] && Bits4(0x3) == [true, true, false, false];
    assert Bits4(0xa) == [false, true, false, true] && Bits4(0x5) == [true, false, true, false];
    var j := Or(And(ShiftLeft(i, 2), Bits4(0xc)), And(ShiftRight(i, 2), Bits4(0x3)));
    assert j == [i[2], i[3], i[0], i[1]];
  }

  /** `reverseBits` */
  function ReverseBits(n: nat): (r: nat)
    requires n < 16
    ensures r < 16
  {
    Value4(ReverseNibble(Bits4(n)))
  }

  lemma {:induction false} ReverseBitsIs(n: nat)
    requires n < 16
    ensures Bits4(ReverseBits(n)) == Reverse(Bits4(n))
  {
    hide Value4, Bits4, ReverseNibble;
    ReverseNibbleIs(Bits4(n));
    NibbleRoundTrip(0, ReverseNibble(Bits4(n)));
  }

  lemma {:induction false} ReverseBitsInjective(m: nat, n: nat)
    requires m < 16 && n < 16 && ReverseBits(m) == ReverseBits(n)
    ensures m == n
  {
    ReverseBitsIs(m);
    ReverseBitsIs(n);
    assert Reverse(Reverse(Bits4(m))) == Bits4(m) && Reverse(Reverse(Bits4(n))) == Bits4(n);
    NibbleRoundTrip(m, Bits4(m));
    NibbleRoundTrip(n, Bits4(n));
  }

  // Doubling and shifting by four

  function Double(x: Label): Label {
    var high := ShiftRight(x.d1, 1)[63 := x.d0[0]];
    var low := ShiftRight(x.d0, 1);
    if x.d1[0] then Label(Xor(low, E1), high) else Label(low, high)
  }

  /** 0xe1 in the top byte. */
  const E1: Word := Reverse(POLY)

  lemma {:induction false} DoubleBit(x: Label, i: nat)
    requires i < 128
    ensures ToField(Double(x)).Bit(i) == ((i > 0 && ToField(x).Bit(i - 1)) != (ToField(x).Bit(127) && Tap(i)))
  {
    PolyBits();
  }

  lemma {:induction false} DoubleIsMulX(x: Label)
    ensures ToField(Double(x)) == MulX(ToField(x))
  {
    hide Double, ToField, MulX, Tap;
    forall i | 0 <= i < 128
      ensures ToField(Double(x)).Bit(i) == MulX(ToField(x)).Bit(i)
    {
      MulXBit(ToField(x), i);
      DoubleBit(x, i);
    }
    SameBits(ToField(Double(x)), MulX(ToField(x)));
  }

  function Hex4(d3: nat, d2: nat, d1: nat, d0: nat): (b: Bits)
    requires d3 < 16 && d2 < 16 && d1 < 16 && d0 < 16
    ensures |b| == 16
  {
    [d0 % 2 == 1, d0 / 2 % 2 == 1, d0 / 4 % 2 == 1, d0 / 8 == 1,
     d1 % 2 == 1, d1 / 2 % 2 == 1, d1 / 4 % 2 == 1, d1 / 8 == 1,
     d2 % 2 == 1, d2 / 2 % 2 == 1, d2 / 4 % 2 == 1, d2 / 8 == 1,
     d3 % 2 == 1, d3 / 2 % 2 == 1, d3 / 4 % 2 == 1, d3 / 8 == 1]
  }

  /** `ghashReductionTable`, entry by entry. */
  function ReductionTable(n: nat): (b: Bits)
    requires n < 16
    ensures |b| == 16
  {
    match n
    case 0 => Hex4(0x0, 0x0, 0x0, 0x0)
    case 1 => Hex4(0x1, 0xc, 0x2, 0x0)
    case 2 => Hex4(0x3, 0x8, 0x4, 0x0)
    case 3 => Hex4(0x2, 0x4, 0x6, 0x0)
    case 4 => Hex4(0x7, 0x0, 0x8, 0x0)
    case 5 => Hex4(0x6, 0xc, 0xa, 0x0)
    case 6 => Hex4(0x4, 0x8, 0xc, 0x0)
    case 7 => Hex4(0x5, 0x4, 0xe, 0x0)
    case 8 => Hex4(0xe, 0x1, 0x0, 0x0)
    case 9 => Hex4(0xf, 0xd, 0x2, 0x0)
    case 10 => Hex4(0xd, 0x9, 0x4, 0x0)
    case 11 => Hex4(0xc, 0x5, 0x6, 0x0)
    case 12 => Hex4(0x9, 0x1, 0x8, 0x0)
    case 13 => Hex4(0x8, 0xd, 0xa, 0x0)
    case 14 => Hex4(0xa, 0x9, 0xc, 0x0)
    case 15 => Hex4(0xb, 0x5, 0xe, 0x0)
  }

  /** What four pushed-out coefficients leave at coefficient `i`. */
  predicate Reduced(n: Bits, i: int)
    requires |n| == 4
  {
    ((n[3] && Tap(i)) != (n[2] && Tap(i - 1))) != ((n[1] && Tap(i - 2)) != (n[0] && Tap(i - 3)))
  }

  /** The same, coefficient 15 first, so that it lines up with a table entry. */
  function ReducedRow(n: Bits): (b: Bits)
    requires |n| == 4
    ensures |b| == 16
  {
    [false, false, false, false, false, n[0], n[1], n[2], n[3], false,
     n[0], n[1] != n[0], (n[2] != n[1]) != n[0], (n[3] != n[2]) != n[1], n[3] != n[2], n[3]]
  }

  lemma {:induction false} ReducedRowIs(n: Bits, i: nat)
    requires |n| == 4 && i < 16
    ensures ReducedRow(n)[15 - i] == Reduced(n, i)
  {}

  lemma {:induction false} ReductionRow(n: nat)
    requires n < 16
    ensures ReductionTable(n) == ReducedRow(Bits4(n))
  {}

  /** The shift by four positions inside `ghashMul`, with its table-driven reduction. */
  function ShiftFour(z: Label): Label {
    var msw := Value4(z.d1[..4]);
    var high := Or(ShiftRight(z.d1, 4), ShiftLeft(z.d0, 60));
    var low := Xor(ShiftRight(z.d0, 4), ShiftLeft(ReductionTable(msw) + Fill(48, false), 48));
    Label(low, high)
  }

  lemma {:induction false} Over4(f: Label, i: int)
    ensures Over(f, 4, i)
            == (((f.Bit(124) && Tap(i)) != (f.Bit(125) && Tap(i - 1)))
                != ((f.Bit(126) && Tap(i - 2)) != (f.Bit(127) && Tap(i - 3))))
  {
    assert Over(f, 1, i - 3) == (f.Bit(127) && Tap(i - 3));
    assert Over(f, 2, i - 2) == ((i - 2 > 0 && Over(f, 1, i - 3)) != (f.Bit(126) && Tap(i - 2)));
    assert Over(f, 3, i - 1) == ((i - 1 > 0 && Over(f, 2, i - 2)) != (f.Bit(125) && Tap(i - 1)));
    assert Over(f, 4, i) == ((i > 0 && Over(f, 3, i - 1)) != (f.Bit(124) && Tap(i)));
  }

  lemma {:induction false} ShiftFourBit(z: Label, i: nat)
    requires i < 128
    ensures ToField(ShiftFour(z)).Bit(i)
            == ((i >= 4 && ToField(z).Bit(i - 4)) != (i < 16 && ReductionTable(Value4(z.d1[..4]))[15 - i]))
  {
    hide ReductionTable, Value4;
  }

  lemma {:induction false} ShiftFourIsMulX4(z: Label)
    ensures ToField(ShiftFour(z)) == MulXn(ToField(z), 4)
  {
    hide ShiftFour, MulXn, Over, ReductionTable, ReducedRow, Tap, Value4, Bits4;
    var f, n := ToField(z), z.d1[..4];
    assert f.Bit(127) == n[0] && f.Bit(126) == n[1] && f.Bit(125) == n[2] && f.Bit(124) == n[3];
    NibbleRoundTrip(0, n);
    ReductionRow(Value4(n));
    forall i | 0 <= i < 128
      ensures ToField(ShiftFour(z)).Bit(i) == MulXn(f, 4).Bit(i)
    {
      ShiftFourBit(z, i);
      MulXnBit(f, 4, i);
      Over4(f, i);
      if i < 16 {
        ReducedRowIs(n, i);
      } else {
        OverHigh(f, 4, i);
      }
    }
    SameBits(ToField(ShiftFour(z)), MulXn(f, 4));
  }

  // The product table

  /** Entry `i` holds the key times the polynomial with coefficients `Bits4(i)`. */
  function Product(h: Label, i: nat): Label
    requires i < 16
  {
    Times(ToField(h), Bits4(i))
  }

  lemma {:induction false} ProductDoubles(h: Label, k: nat)
    requires 0 < k < 8
    ensures Product(h, 2 * k) == MulX(Product(h, k))
    ensures Product(h, 2 * k + 1) == Product(h, 2 * k).Xor(ToField(h))
  {
    hide MulX, ToField, Label.Xor, Bits4, MulXn;
    var f := ToField(h);
    var low := Bits4(k)[..3];
    DoubledBits(k);
    TimesConcat(f, low, [false]);
    ZeroTail(f);
    MulXnNone(3);
    XorNone(Times(f, low));
    assert ([false] + low)[1..] == low && ([true] + low)[1..] == low;
    XorNone(MulX(Times(f, low)));
  }

  lemma {:induction false} DoubledBits(k: nat)
    requires 0 < k < 8
    ensures var low := Bits4(k)[..3];
            Bits4(2 * k) == [false] + low && Bits4(2 * k + 1) == [true] + low && Bits4(k) == low + [false]
  {
    assert 2 * k % 2 == 0 && 2 * k / 2 == k && 2 * k / 4 == k / 2 && 2 * k / 8 == k / 4;
    assert (2 * k + 1) % 2 == 1 && (2 * k + 1) / 2 == k && (2 * k + 1) / 4 == k / 2 && (2 * k + 1) / 8 == k / 4;
    assert k / 4 < 2 && k / 8 == 0;
  }

  lemma {:induction false} ZeroTail(f: Label)
    ensures Times(f, [false]) == NONE
  {
    hide MulX, Label.Xor;
    MulXNone();
    XorNone(NONE);
    assert [false][1..] == [];
    assert Times(f, [false][1..]) == NONE;
  }

  lemma {:induction false} FirstProducts(h: Label)
    ensures Product(h, 0) == NONE && Product(h, 1) == ToField(h)
  {
    hide MulX, ToField, Label.Xor;
    var f := ToField(h);
    ZeroTail(f);
    MulXNone();
    XorNone(NONE);
    XorNone(f);
    assert Bits4(0) == [false] + ([false] + ([false] + [false]));
    assert Bits4(1) == [true] + ([false] + ([false] + [false]));
    TimesZero(f, [false]);
    TimesZero(f, [false] + [false]);
    TimesZero(f, [false] + ([false] + [false]));
    assert ([true] + ([false] + ([false] + [false])))[1..] == [false] + ([false] + [false]);
  }

  lemma {:induction false} TimesZero(f: Label, b: Bits)
    requires Times(f, b) == NONE
    ensures Times(f, [false] + b) == NONE
  {
    hide MulX, Label.Xor;
    assert ([false] + b)[1..] == b;
    MulXNone();
    XorNone(NONE);
  }

  /** The filled table, read through the bit reversal. */
  ghost predicate IsTable(table: seq<Label>, h: Label) {
    |table| == 16 && forall i :: 0 <= i < 16 ==> ToField(table[ReverseBits(i)]) == Product(h, i)
  }

  method BuildTable(h: Label) returns (table: array<Label>)
    ensures fresh(table) && IsTable(table[..], h)
  {
    hide ReverseBits, Product, ToField, Double, MulX, Label.Xor;
    table := new Label[16](_ => NONE);
    FirstProducts(h);
    ToFieldNone();
    table[ReverseBits(1)] := h;
    Distinct();
    for k := 1 to 8
      invariant forall j :: 0 <= j < 2 * k ==> ToField(table[ReverseBits(j)]) == Product(h, j)
    {
      var half := table[ReverseBits(k)];
      table[ReverseBits(2 * k)] := Double(half);
      table[ReverseBits(2 * k + 1)] := table[ReverseBits(2 * k)].Xor(h);
      DoubleIsMulX(half);
      ToFieldXor(Double(half), h);
      ProductDoubles(h, k);
    }
  }

  lemma {:induction false} Distinct()
    ensures forall m, n :: 0 <= m < 16 && 0 <= n < 16 && m != n ==> ReverseBits(m) != ReverseBits(n)
  {
    hide ReverseBits;
    forall m, n | 0 <= m < 16 && 0 <= n < 16 && ReverseBits(m) == ReverseBits(n)
      ensures m == n
    {
      ReverseBitsInjective(m, n);
    }
  }

  /** Looking up a nibble multiplies the key by the nibble's coefficients, highest bit first. */
  lemma {:induction false} TableLookup(table: seq<Label>, h: Label, nibble: Bits)
    requires IsTable(table, h) && |nibble| == 4
    ensures ToField(table[Value4(nibble)]) == Times(ToField(h), Reverse(nibble))
  {
    hide Value4, Bits4, ReverseBits, ToField, Times;
    var i := Value4(Reverse(nibble));
    NibbleRoundTrip(0, Reverse(nibble));
    NibbleRoundTrip(0, nibble);
    ReverseBitsIs(i);
    assert Reverse(Reverse(nibble)) == nibble;
    NibbleRoundTrip(ReverseBits(i), nibble);
    assert ToField(table[ReverseBits(i)]) == Product(h, i);
  }

  // Multiplication by table

  /** Four more coefficients, taken from above. */
  lemma {:induction false} NibbleStep(table: seq<Label>, h: Label, z: Label, nibble: Bits, rest: Bits)
    requires |table| == 16 && IsTable(table, h) && |nibble| == 4 && ToField(z) == Times(ToField(h), rest)
    ensures ToField(ShiftFour(z).Xor(table[Value4(nibble)])) == Times(ToField(h), Reverse(nibble) + rest)
  {
    hide ShiftFour, ToField, Times, MulXn, IsTable, Value4, Label.Xor;
    ToFieldXor(ShiftFour(z), table[Value4(nibble)]);
    ShiftFourIsMulX4(z);
    TableLookup(table, h, nibble);
    TimesConcat(ToField(h), Reverse(nibble), rest);
    XorComm(MulXn(ToField(z), 4), Times(ToField(h), Reverse(nibble)));
  }

  /** The word after `j` shifts by four. */
  predicate Shifted(y: Word, word: Word, j: nat) {
    forall b :: 0 <= b < 64 ==> word[b] == (b + 4 * j < 64 && y[b + 4 * j])
  }

  lemma {:induction false} ShiftedStep(y: Word, word: Word, j: nat)
    requires Shifted(y, word, j)
    ensures Shifted(y, ShiftRight(word, 4), j + 1)
  {}

  lemma {:induction false} NibbleOf(y: Word, word: Word, j: nat, rest: Bits)
    requires j < 16 && Shifted(y, word, j)
    ensures Reverse(word[..4]) + (Reverse(y)[64 - 4 * j..] + rest) == Reverse(y)[64 - 4 * (j + 1)..] + rest
  {
    assert Reverse(word[..4]) == Reverse(y)[60 - 4 * j..64 - 4 * j];
    assert Reverse(y)[60 - 4 * j..64 - 4 * j] + Reverse(y)[64 - 4 * j..] == Reverse(y)[60 - 4 * j..];
  }

  /** One word of the multiplicand: 16 nibbles from its low end. */
  method MulWord(table: seq<Label>, ghost h: Label, z0: Label, y: Word, ghost rest: Bits) returns (z: Label)
    requires IsTable(table, h) && ToField(z0) == Times(ToField(h), rest)
    ensures ToField(z) == Times(ToField(h), Reverse(y) + rest)
  {
    hide ShiftFour, ToField, Times, IsTable, Value4, Label.Xor, Reverse, ShiftRight;
    TableSize(table, h);
    z := z0;
    var word: Word := y;
    assert Reverse(y)[64..] + rest == rest;
    for j := 0 to 16
      invariant Shifted(y, word, j)
      invariant ToField(z) == Times(ToField(h), Reverse(y)[64 - 4 * j..] + rest)
    {
      var nibble := word[..4];
      NibbleStep(table, h, z, nibble, Reverse(y)[64 - 4 * j..] + rest);
      NibbleOf(y, word, j, rest);
      z := ShiftFour(z);
      z := z.Xor(table[Value4(nibble)]);
      ShiftedStep(y, word, j);
      word := ShiftRight(word, 4);
    }
    assert Reverse(y)[0..] == Reverse(y);
  }

  lemma {:induction false} TableSize(table: seq<Label>, h: Label)
    requires IsTable(table, h)
    ensures |table| == 16
  {}

  /** `ghashMul`: the high word first, then the low one. */
  method GhashMul(table: seq<Label>, ghost h: Label, y: Label) returns (z: Label)
    requires IsTable(table, h)
    ensures z == Dot(y, h)
  {
    hide IsTable, Times;
    ToFieldNone();
    EmptyTimes(ToField(h));
    z := MulWord(table, h, NONE, y.d1, []);
    assert Reverse(y.d1) + [] == Reverse(y.d1);
    z := MulWord(table, h, z, y.d0, Reverse(y.d1));
    assert Reverse(y.d0) + Reverse(y.d1) == BitsOfLabel(ToField(y));
    ToFieldInvolution(z);
  }

  lemma {:induction false} EmptyTimes(f: Label)
    ensures Times(f, []) == NONE
  {}

  /** `ghashUpdate`: whole blocks, then the zero-padded rest. */
  method GhashUpdate(table: seq<Label>, ghost h: Label, y0: Label, data0: Bytes) returns (y: Label)
    requires IsTable(table, h)
    ensures y == Chain(h, y0, data0, BlockCount(data0))
  {
    hide IsTable, Dot, FromBytes, Label.Xor;
    y := y0;
    var data := data0;
    ghost var n := 0;
    while |data| >= 16
      invariant 16 * n <= |data0| && data == data0[16 * n..]
      invariant y == Chain(h, y0, data0, n)
      decreases |data|
    {
      y := y.Xor(FromBytes(data[..16]));
      y := GhashMul(table, h, y);
      data := data[16..];
      n := n + 1;
    }
    if |data| > 0 {
      var block := data + Zeros(16 - |data|);
      y := y.Xor(FromBytes(block));
      y := GhashMul(table, h, y);
    }
  }

  /** The table-driven hash is GHASH on separately padded slices. */
  method Hash(key: Bytes, slices: seq<Bytes>) returns (out: Bytes)
    requires |key| == 16
    ensures out == Put(GhashSpec(FromBytes(key), slices))
  {
    hide IsTable, Dot, FromBytes, Chain;
    var x := FromBytes(key);
    var table := BuildTable(x);
    var t := table[..];
    var y := NONE;
    assert slices[..0] == [];
    for i := 0 to |slices|
      invariant y == GhashSpec(x, slices[..i])
    {
      y := GhashUpdate(t, x, y, slices[i]);
      assert slices[..i + 1][..i] == slices[..i];
    }
    assert slices[..|slices|] == slices;
    out := Put(y);
  }
}
