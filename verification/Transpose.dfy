/**
 The bit-matrix transpose (mpc/transpose.go): six passes of delta swaps over 64 words,
 four such quadrants per 128-by-128 block, blocks over a column-major matrix.
 */
module Transpose {
  import opened Words
  import opened Labels
  import opened Packing

  const BASE_OT_COUNT: nat := 128

  // Indices modulo a power of two

  /** `x` modulo `g`. */
  function Low(x: nat, g: nat): (l: nat)
    requires g > 0
    ensures l < g && l <= x
  {
    if x < g then x else Low(x - g, g)
  }

  lemma {:induction false} LowAdd(x: nat, d: nat, g: nat)
    requires g > 0 && Low(x, g) + d < g
    ensures Low(x + d, g) == Low(x, g) + d
    decreases x
  {
    if x >= g { LowAdd(x - g, d, g); }
  }

  lemma {:induction false} LowWrap(x: nat, g: nat)
    requires g > 0 && Low(x, g) == g - 1
    ensures Low(x + 1, g) == 0
    decreases x
  {
    if x >= g { LowWrap(x - g, g); }
  }

  lemma {:induction false} LowHalf(x: nat, w: nat)
    requires w > 0
    ensures Low(x, w) == if Low(x, 2 * w) >= w then Low(x, 2 * w) - w else Low(x, 2 * w)
    decreases x
  {
    if x >= 2 * w { LowHalf(x - 2 * w, w); }
  }

  /** The rest of a block of length `g` fits below a multiple of `g`. */
  lemma {:induction false} LowRoom(x: nat, n: nat, g: nat)
    requires g > 0 && x < n && Low(n, g) == 0
    ensures x + (g - Low(x, g)) <= n
    decreases x
  {
    if x >= g { LowRoom(x - g, n - g, g); }
  }

  /** The width of a pass: a positive number twice of which divides 64. */
  predicate IsWidth(w: nat) {
    w > 0 && Low(64, 2 * w) == 0
  }

  /** The bit of weight `w` is set in `x`. */
  predicate Has(x: nat, w: nat)
    requires IsWidth(w)
  {
    Low(x, 2 * w) >= w
  }

  /** `x &^ w` */
  function Clear(x: nat, w: nat): nat
    requires IsWidth(w)
  {
    if Has(x, w) then x - w else x
  }

  // One delta swap on a pair of rows

  /** The mask of a pass keeps the columns whose bit of weight `w` is clear. */
  predicate IsMask(mask: Word, w: nat)
    requires IsWidth(w)
  {
    forall b :: 0 <= b < 64 ==> mask[b] == !Has(b, w)
  }

  lemma {:induction false} WidthStep(b: nat, w: nat)
    requires IsWidth(w)
    ensures !Has(b, w) ==> Has(b + w, w)
    ensures !Has(b, w) && b < 64 ==> b + w < 64
    ensures Has(b, w) ==> w <= b && !Has(b - w, w)
    ensures !Has(b, w) && w <= b ==> Has(b - w, w)
  {
    var l := Low(b, 2 * w);
    if l < w {
      LowAdd(b, w, 2 * w);
      if b < 64 { LowRoom(b, 64, 2 * w); }
      if w <= b { LowAdd(b - 2 * w, w, 2 * w); }
    } else {
      LowSub(b, w, 2 * w);
    }
  }

  lemma {:induction false} LowSub(x: nat, d: nat, g: nat)
    requires g > 0 && d <= Low(x, g)
    ensures Low(x - d, g) == Low(x, g) - d
    decreases x
  {
    if x >= g { LowSub(x - g, d, g); }
  }

  function DeltaBits(x: Word, y: Word, w: nat, mask: Word): Word {
    And(Xor(x, ShiftRight(y, w)), mask)
  }

  /** Low row, column without the bit, trades places with high row, column with it. */
  lemma {:induction false} DeltaSwap(x: Word, y: Word, w: nat, mask: Word, b: nat)
    requires IsWidth(w) && IsMask(mask, w) && b < 64
    ensures var t := DeltaBits(x, y, w, mask);
            && Xor(x, t)[b] == (if Has(b, w) then x[b] else b + w < 64 && y[b + w])
            && Xor(y, ShiftLeft(t, w))[b] == (if Has(b, w) then w <= b && x[b - w] else y[b])
  {
    WidthStep(b, w);
  }

  // One pass

  /** Where the bit that a pass puts at row `r`, column `b` comes from. */
  function SourceRow(r: nat, b: nat, w: nat): nat
    requires IsWidth(w)
  {
    if Has(r, w) != Has(b, w) then r else if Has(r, w) && w <= r then r - w else r + w
  }

  function SourceColumn(r: nat, b: nat, w: nat): nat
    requires IsWidth(w)
  {
    if Has(r, w) != Has(b, w) then b else if Has(b, w) && w <= b then b - w else b + w
  }

  predicate Matrix(m: seq<Word>) {
    |m| == 64
  }

  /** Bit `b` of row `r`, and false outside the matrix. */
  predicate At(m: seq<Word>, r: int, b: int)
    requires Matrix(m)
  {
    0 <= r < 64 && 0 <= b < 64 && m[r][b]
  }

  /** `row` is what a pass of width `w` makes of row `r`. */
  predicate RowPassed(row: Word, was: seq<Word>, w: nat, r: nat)
    requires Matrix(was) && IsWidth(w)
  {
    forall b :: 0 <= b < 64 ==> row[b] == At(was, SourceRow(r, b, w), SourceColumn(r, b, w))
  }

  lemma {:induction false} SwappedRows(was: seq<Word>, w: nat, mask: Word, k: nat)
    requires Matrix(was) && IsWidth(w) && IsMask(mask, w) && k + w < 64 && !Has(k, w)
    ensures var t := DeltaBits(was[k], was[k + w], w, mask);
            && RowPassed(Xor(was[k], t), was, w, k)
            && RowPassed(Xor(was[k + w], ShiftLeft(t, w)), was, w, k + w)
  {
    hide IsMask, IsWidth, Has, Low, Xor, ShiftLeft, DeltaBits;
    var t := DeltaBits(was[k], was[k + w], w, mask);
    var x: Word, y: Word := Xor(was[k], t), Xor(was[k + w], ShiftLeft(t, w));
    WidthStep(k, w);
    forall b | 0 <= b < 64
      ensures x[b] == At(was, SourceRow(k, b, w), SourceColumn(k, b, w))
      ensures y[b] == At(was, SourceRow(k + w, b, w), SourceColumn(k + w, b, w))
    {
      DeltaSwap(was[k], was[k + w], w, mask, b);
      WidthStep(b, w);
    }
  }

  /** From one row without the bit to the next. */
  lemma {:induction false} NextRow(k: nat, w: nat)
    requires IsWidth(w) && k < 64 && !Has(k, w)
    ensures var next := Clear(k + w + 1, w);
            k < next <= 64 && !Has(next, w) && forall r :: k < r < next ==> Has(r, w)
  {
    var l := Low(k, 2 * w);
    LowRoom(k, 64, 2 * w);
    if l + 1 < w {
      LowAdd(k, w + 1, 2 * w);
      LowAdd(k, 1, 2 * w);
    } else {
      LowAdd(k, w, 2 * w);
      LowWrap(k + w, 2 * w);
      forall r | k < r < k + w + 1
        ensures Has(r, w)
      {
        LowAdd(k, r - k, 2 * w);
      }
    }
  }

  /** Between one visited row and the next, only that row and its partner are touched. */
  lemma {:induction false} Visited(k: nat, w: nat, r: nat)
    requires IsWidth(w) && k < 64 && !Has(k, w)
    ensures Clear(k, w) == k && Clear(k + w, w) == k
    ensures Clear(r, w) < Clear(k + w + 1, w) ==> Clear(r, w) < k || r == k || r == k + w
    ensures Clear(r, w) < k ==> Clear(r, w) < Clear(k + w + 1, w)
  {
    hide Low, IsWidth;
    NextRow(k, w);
    WidthStep(k, w);
    WidthStep(r, w);
  }

  /** The inner loop of `transpose64`. */
  method Pass(data: array<Word>, w: nat, mask: Word)
    requires data.Length == 64 && IsWidth(w) && IsMask(mask, w)
    modifies data
    ensures forall r :: 0 <= r < 64 ==> RowPassed(data[r], old(data[..]), w, r)
  {
    hide IsMask, IsWidth, Has, Low, Clear, Xor, ShiftLeft, DeltaBits, RowPassed;
    ghost var was := data[..];
    var k := 0;
    ZeroClear(w);
    while k < 64
      invariant 0 <= k <= 64 && !Has(k, w)
      invariant forall r :: 0 <= r < 64 ==>
                  if Clear(r, w) < k then RowPassed(data[r], was, w, r) else data[r] == was[r]
      decreases 64 - k
    {
      NextRow(k, w);
      WidthStep(k, w);
      SwappedRows(was, w, mask, k);
      forall r | 0 <= r < 64
        ensures Clear(k, w) == k && Clear(k + w, w) == k
        ensures Clear(r, w) < Clear(k + w + 1, w) ==> Clear(r, w) < k || r == k || r == k + w
        ensures Clear(r, w) < k ==> Clear(r, w) < Clear(k + w + 1, w)
      {
        Visited(k, w, r);
      }
      var t := DeltaBits(data[k], data[k + w], w, mask);
      data[k] := Xor(data[k], t);
      data[k + w] := Xor(data[k + w], ShiftLeft(t, w));
      k := Clear(k + w + 1, w);
    }
    forall r | 0 <= r < 64
      ensures Clear(r, w) < 64
    {
      ClearSmall(r, w);
    }
  }

  lemma {:induction false} ZeroClear(w: nat)
    requires IsWidth(w)
    ensures !Has(0, w) && forall r: nat :: Clear(r, w) >= 0
  {}

  lemma {:induction false} ClearSmall(r: nat, w: nat)
    requires IsWidth(w)
    ensures Clear(r, w) <= r
  {}

  // All passes

  /** Where a bit comes from once the passes of width `g` and above are done. */
  function FromRow(r: nat, b: nat, g: nat): int
    requires g > 0
  {
    64 - g - (b - Low(b, g)) + Low(r, g)
  }

  function FromColumn(r: nat, b: nat, g: nat): int
    requires g > 0
  {
    64 - g - (r - Low(r, g)) + Low(b, g)
  }

  predicate Mirrored(now: seq<Word>, was: seq<Word>, g: nat)
    requires Matrix(now) && Matrix(was) && g > 0
  {
    forall r, b :: 0 <= r < 64 && 0 <= b < 64 ==> now[r][b] == At(was, FromRow(r, b, g), FromColumn(r, b, g))
  }

  lemma {:induction false} SourceComposes(r: nat, b: nat, w: nat)
    requires IsWidth(w) && r < 64 && b < 64
    ensures var sr, sc := SourceRow(r, b, w), SourceColumn(r, b, w);
            && sr < 64 && sc < 64
            && FromRow(sr, sc, 2 * w) == FromRow(r, b, w)
            && FromColumn(sr, sc, 2 * w) == FromColumn(r, b, w)
  {
    hide Low;
    WidthStep(r, w);
    WidthStep(b, w);
    LowHalf(r, w);
    LowHalf(b, w);
    if Has(r, w) == Has(b, w) {
      if Has(r, w) {
        LowSub(r, w, 2 * w);
        LowSub(b, w, 2 * w);
      } else {
        LowAdd(r, w, 2 * w);
        LowAdd(b, w, 2 * w);
      }
    }
  }

  lemma {:induction false} PassComposes(now: seq<Word>, mid: seq<Word>, was: seq<Word>, w: nat)
    requires Matrix(now) && Matrix(mid) && Matrix(was) && IsWidth(w)
    requires Mirrored(mid, was, 2 * w)
    requires forall r :: 0 <= r < 64 ==> RowPassed(now[r], mid, w, r)
    ensures Mirrored(now, was, w)
  {
    hide Has, Low, SourceRow, SourceColumn, FromRow, FromColumn;
    forall r, b | 0 <= r < 64 && 0 <= b < 64
      ensures now[r][b] == At(was, FromRow(r, b, w), FromColumn(r, b, w))
    {
      SourceComposes(r, b, w);
      var sr, sc := SourceRow(r, b, w), SourceColumn(r, b, w);
      assert RowPassed(now[r], mid, w, r);
      assert mid[sr][sc] == At(was, FromRow(sr, sc, 2 * w), FromColumn(sr, sc, 2 * w));
    }
  }

  /** `mask ^= mask << width` turns the mask of one pass into that of the next. */
  lemma {:induction false} NextMask(mask: Word, w: nat)
    requires IsWidth(w) && IsWidth(2 * w) && IsMask(mask, 2 * w)
    ensures IsMask(Xor(mask, ShiftLeft(mask, w)), w)
  {
    hide Low;
    var next: Word := Xor(mask, ShiftLeft(mask, w));
    forall b | 0 <= b < 64
      ensures next[b] == !Has(b, w)
    {
      LowHalf(b, 2 * w);
      if Low(b, 4 * w) >= w {
        LowSub(b, w, 4 * w);
      } else if w <= b {
        LowBefore(b, w, 4 * w);
      }
    }
  }

  /** Stepping back across a block boundary. */
  lemma {:induction false} LowBefore(x: nat, d: nat, g: nat)
    requires g > 0 && Low(x, g) < d <= x && d <= g
    ensures Low(x - d, g) == Low(x, g) + g - d
  {
    LowAdd(x - g, g - d, g);
  }

  /** `(uint64(1) << n) - 1` */
  function LowOnes(n: nat): (m: Word)
    ensures forall b :: 0 <= b < 64 ==> m[b] == (b < n)
  {
    seq(64, b => b < n)
  }

  lemma {:induction false} FirstPass(m: seq<Word>)
    requires Matrix(m)
    ensures IsWidth(32) && IsMask(LowOnes(32), 32) && Mirrored(m, m, 64)
  {
    assert Low(64, 64) == Low(0, 64);
    forall x: nat | x < 64
      ensures Low(x, 64) == x
    {}
  }

  lemma {:induction false} LastPass(now: seq<Word>, was: seq<Word>)
    requires Matrix(now) && Matrix(was) && Mirrored(now, was, 1)
    ensures forall r, b :: 0 <= r < 64 && 0 <= b < 64 ==> now[r][b] == was[63 - b][63 - r]
  {}

  /** The six passes mirror the matrix at its antidiagonal. */
  method Transpose64(data: array<Word>)
    requires data.Length == 64
    modifies data
    ensures forall r, b :: 0 <= r < 64 && 0 <= b < 64 ==> data[r][b] == old(data[63 - b])[63 - r]
  {
    hide IsMask, Low, Mirrored, RowPassed, LowOnes;
    ghost var was := data[..];
    ghost var k: nat := 5;
    assert Pow2(1) == 2 && Pow2(3) == 8 && Pow2(5) == 32;
    var mask: Word := LowOnes(32);
    var width: nat := 32;
    FirstPass(was);
    while width != 0
      invariant width == 0 ==> Mirrored(data[..], was, 1)
      invariant width != 0 ==>
                  width == Pow2(k) && IsWidth(width) && IsMask(mask, width) && Mirrored(data[..], was, 2 * width)
      decreases width
    {
      ghost var mid := data[..];
      Pass(data, width, mask);
      PassComposes(data[..], mid, was, width);
      ghost var done := width;
      width := width / 2;
      if width != 0 {
        assert Pow2(k) == 2 * Pow2(k - 1);
        k := k - 1;
        HalfWidth(done);
        NextMask(mask, width);
        mask := Xor(mask, ShiftLeft(mask, width));
      }
    }
    LastPass(data[..], was);
  }

  lemma {:induction false} HalfWidth(w: nat)
    requires IsWidth(w) && w % 2 == 0
    ensures IsWidth(w / 2)
  {
    LowHalf(64, w);
  }

  // 128-by-128 blocks

  /** One quadrant, mirrored in place. */
  method Quadrant(words: seq<Word>) returns (q: seq<Word>)
    requires Matrix(words)
    ensures Matrix(q) && Antitransposed(q, words)
  {
    var data := new Word[64](_ => ZERO);
    for i := 0 to 64
      invariant forall k :: 0 <= k < i ==> data[k] == words[k]
    {
      data[i] := words[i];
    }
    assert data[..] == words;
    Transpose64(data);
    q := data[..];
  }

  predicate Antitransposed(q: seq<Word>, words: seq<Word>)
    requires Matrix(q) && Matrix(words)
  {
    forall r, b :: 0 <= r < 64 && 0 <= b < 64 ==> q[r][b] == words[63 - b][63 - r]
  }

  /** Row `r` of the result: quadrants a and c above, b and d below, read out in reverse. */
  function Readout(a: seq<Word>, b: seq<Word>, c: seq<Word>, d: seq<Word>, r: nat): Label
    requires Matrix(a) && Matrix(b) && Matrix(c) && Matrix(d) && r < 128
  {
    if r < 64 then Label(Reverse(a[63 - r]), Reverse(c[63 - r]))
    else Label(Reverse(b[127 - r]), Reverse(d[127 - r]))
  }

  function Words0(data: seq<Label>, from: nat): (w: seq<Word>)
    requires |data| == 128 && from <= 64
    ensures Matrix(w) && forall i :: 0 <= i < 64 ==> w[i] == data[from + i].d0
  {
    seq<Word>(64, i requires 0 <= i < 64 => data[from + i].d0)
  }

  function Words1(data: seq<Label>, from: nat): (w: seq<Word>)
    requires |data| == 128 && from <= 64
    ensures Matrix(w) && forall i :: 0 <= i < 64 ==> w[i] == data[from + i].d1
  {
    seq<Word>(64, i requires 0 <= i < 64 => data[from + i].d1)
  }

  /** The reversed readout of mirrored quadrants is the true transpose. */
  lemma {:induction false} ReadoutTransposes(data: seq<Label>, a: seq<Word>, b: seq<Word>, c: seq<Word>, d: seq<Word>,
                                             r: nat, col: nat)
    requires |data| == 128 && Matrix(a) && Matrix(b) && Matrix(c) && Matrix(d) && r < 128 && col < 128
    requires Antitransposed(a, Words0(data, 0)) && Antitransposed(b, Words1(data, 0))
    requires Antitransposed(c, Words0(data, 64)) && Antitransposed(d, Words1(data, 64))
    ensures Readout(a, b, c, d, r).Bit(col) == data[col].Bit(r)
  {
    hide Words0, Words1;
  }

  method Transpose128(data: array<Label>)
    requires data.Length == BASE_OT_COUNT
    modifies data
    ensures forall r, c :: 0 <= r < 128 && 0 <= c < 128 ==> data[r].Bit(c) == old(data[c]).Bit(r)
  {
    hide Antitransposed, Readout, Words0, Words1, Reverse, Label.Bit;
    ghost var was := data[..];
    var a := Quadrant(Words0(data[..], 0));
    var b := Quadrant(Words1(data[..], 0));
    var c := Quadrant(Words0(data[..], 64));
    var d := Quadrant(Words1(data[..], 64));
    for i := 0 to 64
      invariant forall k :: 0 <= k < 128 && (k < i || 64 <= k < 64 + i) ==> data[k] == Readout(a, b, c, d, k)
    {
      ReadoutRows(a, b, c, d, i);
      var j := 63 - i;
      data[i] := Label(Reverse(a[j]), Reverse(c[j]));
      data[64 + i] := Label(Reverse(b[j]), Reverse(d[j]));
    }
    forall r, col | 0 <= r < 128 && 0 <= col < 128
      ensures data[r].Bit(col) == was[col].Bit(r)
    {
      ReadoutTransposes(was, a, b, c, d, r, col);
    }
  }

  lemma {:induction false} ReadoutRows(a: seq<Word>, b: seq<Word>, c: seq<Word>, d: seq<Word>, i: nat)
    requires Matrix(a) && Matrix(b) && Matrix(c) && Matrix(d) && i < 64
    ensures Readout(a, b, c, d, i) == Label(Reverse(a[63 - i]), Reverse(c[63 - i]))
    ensures Readout(a, b, c, d, 64 + i) == Label(Reverse(b[63 - i]), Reverse(d[63 - i]))
  {}

  // A column-major matrix of any height

  lemma {:induction false} ColumnInside(byteRows: nat, c: nat)
    requires c < BASE_OT_COUNT
    ensures 0 <= c * byteRows <= (c + 1) * byteRows <= BASE_OT_COUNT * byteRows
    ensures (c + 1) * byteRows - c * byteRows == byteRows
    decreases BASE_OT_COUNT - c
  {
    NextMultiple(byteRows, c);
    if c + 1 < BASE_OT_COUNT { ColumnInside(byteRows, c + 1); }
  }

  lemma {:induction false} NextMultiple(n: nat, c: nat)
    ensures (c + 1) * n == c * n + n && c * n >= 0
  {}

  function Column(matrix: seq<Byte>, byteRows: nat, c: nat): (column: seq<Byte>)
    requires |matrix| == BASE_OT_COUNT * byteRows && c < BASE_OT_COUNT
    ensures |column| == byteRows
  {
    ColumnInside(byteRows, c);
    matrix[c * byteRows..(c + 1) * byteRows]
  }

  /** Two little-endian words of a column, starting at byte `at`. */
  function LoadLabel(column: seq<Byte>, at: nat): (l: Label)
    requires at + 16 <= |column|
    ensures forall j :: 0 <= j < 128 ==> l.Bit(j) == BitsOf(column)[8 * at + j]
  {
    var l := Label(BitsOf(column[at..at + 8]), BitsOf(column[at + 8..at + 16]));
    assert forall j :: 0 <= j < 128 ==> l.Bit(j) == BitsOf(column)[8 * at + j] by {
      forall j | 0 <= j < 128
        ensures l.Bit(j) == BitsOf(column)[8 * at + j]
      {
        assert (8 * at + j) / 8 == at + j / 8 && (8 * at + j) % 8 == j % 8;
      }
    }
    l
  }

  /** Row `r` of the result collects bit `r` of every column. */
  ghost predicate Transposed(matrix: seq<Byte>, byteRows: nat, rows: seq<Label>)
    requires |matrix| == BASE_OT_COUNT * byteRows && |rows| == 8 * byteRows
  {
    forall r, c :: 0 <= r < |rows| && 0 <= c < BASE_OT_COUNT ==>
      rows[r].Bit(c) == BitsOf(Column(matrix, byteRows, c))[r]
  }

  /** Rows `row` to `row + 127`. */
  method TransposeBlock(matrix: seq<Byte>, byteRows: nat, row: nat) returns (block: array<Label>)
    requires |matrix| == BASE_OT_COUNT * byteRows && row % 128 == 0 && row + 128 <= 8 * byteRows
    ensures fresh(block) && block.Length == BASE_OT_COUNT
    ensures forall k, c :: 0 <= k < 128 && 0 <= c < BASE_OT_COUNT ==>
              block[k].Bit(c) == BitsOf(Column(matrix, byteRows, c))[row + k]
  {
    hide BitsOf, Column, LoadLabel;
    block := new Label[BASE_OT_COUNT](_ => NONE);
    var byteOffset := row / 8;
    assert 8 * byteOffset == row;
    for col := 0 to BASE_OT_COUNT
      invariant forall c :: 0 <= c < col ==> block[c] == LoadLabel(Column(matrix, byteRows, c), byteOffset)
    {
      block[col] := LoadLabel(Column(matrix, byteRows, col), byteOffset);
    }
    ghost var loaded := block[..];
    Transpose128(block);
    forall k, c | 0 <= k < 128 && 0 <= c < BASE_OT_COUNT
      ensures block[k].Bit(c) == BitsOf(Column(matrix, byteRows, c))[row + k]
    {
      assert block[k].Bit(c) == loaded[c].Bit(k);
    }
  }

  method TransposeColumns(matrix: seq<Byte>, byteRows: nat, dst: array<Label>)
    requires |matrix| == BASE_OT_COUNT * byteRows && dst.Length == 8 * byteRows && dst.Length % 128 == 0
    modifies dst
    ensures Transposed(matrix, byteRows, dst[..])
  {
    hide BitsOf, Column, Label.Bit;
    var row := 0;
    while row < dst.Length
      invariant 0 <= row <= dst.Length && row % 128 == 0
      invariant forall r, c :: 0 <= r < row && 0 <= c < BASE_OT_COUNT ==>
                  dst[r].Bit(c) == BitsOf(Column(matrix, byteRows, c))[r]
    {
      var block := TransposeBlock(matrix, byteRows, row);
      for i := 0 to BASE_OT_COUNT
        invariant forall r, c :: 0 <= r < row + i && 0 <= c < BASE_OT_COUNT ==>
                    dst[r].Bit(c) == BitsOf(Column(matrix, byteRows, c))[r]
        modifies dst
      {
        dst[row + i] := block[i];
      }
      row := row + BASE_OT_COUNT;
    }
  }
}
