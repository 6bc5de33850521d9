/** The chosen blocks are one slice of the stream, findable from the first nonce and counter. */
module ToprfTheorems {
  import opened Results
  import opened BigEndian
  import opened Toprf

  /** Response packets as TEE_K reports them: non-empty, 32-bit fields, back to back. */
  ghost predicate Contiguous(packets: seq<Packet>) {
    && (forall i :: 0 <= i < |packets| ==> 0 < packets[i].length < UINT32 && packets[i].position < UINT32)
    && (forall i, j :: 0 <= i < |packets| && j == i + 1 && j < |packets| ==> packets[j].position == packets[i].position + packets[i].length)
  }

  ghost predicate DistinctNonces(packets: seq<Packet>) {
    forall i, j :: 0 <= i < j < |packets| ==> packets[i].nonce != packets[j].nonce
  }

  function End(p: Packet): nat {
    p.position + p.length
  }

  /** Stream position where block `n` of a packet begins, or the packet's end. */
  function Edge(c: Cipher, p: Packet, n: nat): nat {
    p.position + Min(Size(c, n), p.length)
  }

  /** The blocks lead from one stream position to another without gap or overlap. */
  ghost predicate Chain(b: seq<Block>, from: nat, to: nat) {
    if b == [] then from == to
    else b[|b| - 1].end == to && Chain(b[..|b| - 1], from, b[|b| - 1].start)
  }

  lemma {:induction false} ChainConcat(a: seq<Block>, b: seq<Block>, x: nat, y: nat, z: nat)
    requires Chain(a, x, y) && Chain(b, y, z)
    ensures Chain(a + b, x, z)
    decreases |b|
  {
    if b == [] {
      assert a + b == a;
    } else {
      ChainConcat(a, b[..|b| - 1], x, y, b[|b| - 1].start);
      assert (a + b)[..|a + b| - 1] == a + b[..|b| - 1];
    }
  }

  lemma {:induction false} ChainFront(b: seq<Block>, x: nat, z: nat, k: nat)
    requires Chain(b, x, z) && k <= |b|
    ensures Chain(b[..k], x, if k < |b| then b[k].start else z)
    decreases |b|
  {
    if k == |b| {
      assert b[..k] == b;
    } else {
      ChainFront(b[..|b| - 1], x, b[|b| - 1].start, k);
      assert b[..|b| - 1][..k] == b[..k];
    }
  }

  lemma {:induction false} ChainEnds(b: seq<Block>, x: nat, z: nat)
    requires Chain(b, x, z) && b != []
    ensures b[0].start == x && b[|b| - 1].end == z
    decreases |b|
  {
    if |b| > 1 { ChainEnds(b[..|b| - 1], x, b[|b| - 1].start); }
  }

  lemma {:induction false} InsideAt(b: seq<Block>, total: nat, i: nat)
    requires AllInside(b, total) && i < |b|
    ensures b[i].start <= b[i].end <= total
  {
    assert Inside(b[i], total);
  }

  lemma {:induction false} ChainText(b: seq<Block>, x: nat, z: nat, stream: Bytes)
    requires Chain(b, x, z) && AllInside(b, |stream|) && b != []
    ensures x <= z <= |stream| && Text(b, stream) == stream[x..z]
    decreases |b|
  {
    hide Inside;
    var last := b[|b| - 1];
    assert last.start <= last.end <= |stream| by { InsideAt(b, |stream|, |b| - 1); }
    if |b| == 1 {
      assert b[..0] == [];
    } else {
      ChainText(b[..|b| - 1], x, last.start, stream);
    }
  }

  lemma {:induction false} SpanChain(c: Cipher, p: Packet, a: nat, b: nat)
    requires a <= b && (a < b ==> Size(c, b - 1) <= p.length)
    ensures Chain(Span(c, p, a, b), Edge(c, p, a), Edge(c, p, b))
    decreases b
  {
    if a < b { SpanChain(c, p, a, b - 1); }
  }

  // One packet

  lemma {:induction false} SegmentFacts(c: Cipher, p: Packet, start: int, end: int)
    requires start <= end && p.length > 0 && Overlaps(p, start, end)
    ensures var s := SegmentOf(c, p, start, end);
            && s.first <= s.last + 1 && s.last >= 0
            && Size(c, s.first) < p.length && Size(c, s.last) < p.length
            && (start <= p.position ==> s.first == 0)
            && (end >= End(p) ==> Edge(c, p, s.last + 1) == End(p))
            && (p.position <= start ==> p.position + Size(c, s.first) <= start)
            && (end <= End(p) ==> p.position + Size(c, s.last) < end <= Edge(c, p, s.last + 1))
            && (start < end ==> s.first <= s.last)
  {
    var from, to := Max(start, p.position), Min(end, End(p));
    DivBounds(c, from - p.position);
    DivBounds(c, to - p.position - 1);
    DivMono(c, from - p.position, to - p.position);
  }

  lemma {:induction false} DivBounds(c: Cipher, x: nat)
    ensures Size(c, Div(c, x)) <= x < Size(c, Div(c, x) + 1)
  {}

  lemma {:induction false} DivMono(c: Cipher, x: nat, y: nat)
    requires x <= y && 0 < y
    ensures Div(c, x) <= Div(c, y - 1) + 1
    ensures x < y ==> Div(c, x) <= Div(c, y - 1)
  {}

  // All packets

  ghost predicate SegmentsFrom(c: Cipher, packets: seq<Packet>, segs: seq<Segment>) {
    forall i :: 0 <= i < |segs| ==>
      && segs[i].packet in packets && segs[i].first <= segs[i].last + 1 && segs[i].last >= 0
      && Size(c, segs[i].first) < segs[i].packet.length && Size(c, segs[i].last) < segs[i].packet.length
  }

  /** The data blocks of the packets read so far form a chain that reaches as far as they do. */
  ghost predicate Reach(c: Cipher, segs: seq<Segment>, start: int, end: int, upTo: nat) {
    segs != [] ==>
      var f, l := segs[0], segs[|segs| - 1];
      && l.last >= -1
      && Chain(Data(c, segs), Edge(c, f.packet, f.first), Edge(c, l.packet, l.last + 1))
      && start < upTo && (end > upTo ==> Edge(c, l.packet, l.last + 1) == upTo)
      && (end <= upTo ==> l.packet.position + Size(c, l.last) < end <= Edge(c, l.packet, l.last + 1))
      && (f.packet.position <= start ==> f.packet.position + Size(c, f.first) <= start)
  }

  lemma {:induction false} DataSnoc(c: Cipher, segs: seq<Segment>, s: Segment)
    ensures Data(c, segs + [s]) == Data(c, segs) + Span(c, s.packet, s.first, s.last + 1)
  {
    assert (segs + [s])[..|segs|] == segs;
  }

  lemma {:induction false} ReachStep(c: Cipher, segs: seq<Segment>, p: Packet, start: int, end: int)
    requires start <= end && p.length > 0 && Reach(c, segs, start, end, p.position)
    ensures Reach(c, segs + if Overlaps(p, start, end) then [SegmentOf(c, p, start, end)] else [], start, end, End(p))
  {
    hide Chain, Data, SegmentOf;
    if Overlaps(p, start, end) {
      var s := SegmentOf(c, p, start, end);
      SegmentOfPacket(c, p, start, end);
      SegmentFacts(c, p, start, end);
      SpanChain(c, p, s.first, s.last + 1);
      DataSnoc(c, segs, s);
      if segs == [] {
        DataNone(c);
        assert segs + [s] == [s];
        assert [] + Span(c, s.packet, s.first, s.last + 1) == Span(c, s.packet, s.first, s.last + 1);
      } else {
        var f, l := segs[0], segs[|segs| - 1];
        ChainConcat(Data(c, segs), Span(c, p, s.first, s.last + 1), Edge(c, f.packet, f.first), p.position, Edge(c, p, s.last + 1));
      }
    } else {
      assert segs + [] == segs;
    }
  }

  lemma {:induction false} DataNone(c: Cipher)
    ensures Data(c, []) == []
  {}

  lemma {:induction false} SegmentOfPacket(c: Cipher, p: Packet, start: int, end: int)
    requires Overlaps(p, start, end)
    ensures SegmentOf(c, p, start, end).packet == p
  {}

  function UpTo(packets: seq<Packet>): nat
  {
    if packets == [] then 0 else End(packets[|packets| - 1])
  }

  lemma {:induction false} ContiguousFront(packets: seq<Packet>)
    requires Contiguous(packets) && packets != []
    ensures var front := packets[..|packets| - 1];
            && Contiguous(front) && packets[|packets| - 1].length > 0
            && (front != [] ==> UpTo(front) == packets[|packets| - 1].position)
  {
    var front := packets[..|packets| - 1];
    forall i, j | 0 <= i < |front| && j == i + 1 && j < |front|
      ensures front[j].position == front[i].position + front[i].length
    {
      assert packets[j].position == packets[i].position + packets[i].length;
    }
  }

  lemma {:induction false} DataReaches(c: Cipher, packets: seq<Packet>, start: int, end: int)
    requires Contiguous(packets) && start <= end
    ensures Reach(c, Segments(c, packets, start, end), start, end, UpTo(packets))
    decreases |packets|
  {
    hide Reach, Overlaps, SegmentOf, Contiguous;
    if packets == [] {
      ReachNothing(c, start, end, 0);
    } else {
      var p, front := packets[|packets| - 1], packets[..|packets| - 1];
      ContiguousFront(packets);
      DataReaches(c, front, start, end);
      if front == [] {
        ReachNothing(c, start, end, p.position);
      }
      ReachStep(c, Segments(c, front, start, end), p, start, end);
    }
  }

  lemma {:induction false} ReachNothing(c: Cipher, start: int, end: int, upTo: nat)
    ensures Reach(c, [], start, end, upTo)
  {}

  lemma {:induction false} SegmentsAreFrom(c: Cipher, packets: seq<Packet>, start: int, end: int)
    requires start <= end && forall i :: 0 <= i < |packets| ==> packets[i].length > 0
    ensures SegmentsFrom(c, packets, Segments(c, packets, start, end))
    decreases |packets|
  {
    hide SegmentOf, Overlaps;
    if packets != [] {
      var p := packets[|packets| - 1];
      SegmentsAreFrom(c, packets[..|packets| - 1], start, end);
      if Overlaps(p, start, end) {
        SegmentOfPacket(c, p, start, end);
        SegmentFacts(c, p, start, end);
      }
    }
  }

  // The selection

  /** Every chosen block is a non-empty block of some packet. */
  ghost predicate Origin(c: Cipher, packets: seq<Packet>, b: Block) {
    b.packet in packets && b == BlockAt(c, b.packet, b.num) && Size(c, b.num) < b.packet.length
  }

  ghost predicate Origins(c: Cipher, packets: seq<Packet>, blocks: seq<Block>) {
    forall i :: 0 <= i < |blocks| ==> Origin(c, packets, blocks[i])
  }

  lemma {:induction false} SpanOrigins(c: Cipher, packets: seq<Packet>, p: Packet, a: nat, b: int)
    requires p in packets && (a < b ==> Size(c, b - 1) < p.length)
    ensures Origins(c, packets, Span(c, p, a, b))
    decreases b
  {
    if a < b { SpanOrigins(c, packets, p, a, b - 1); }
  }

  lemma {:induction false} DataOrigins(c: Cipher, packets: seq<Packet>, segs: seq<Segment>)
    requires SegmentsFrom(c, packets, segs)
    ensures Origins(c, packets, Data(c, segs))
    decreases |segs|
  {
    hide Origin, Span;
    if segs != [] {
      var s := segs[|segs| - 1];
      DataOrigins(c, packets, segs[..|segs| - 1]);
      SpanOrigins(c, packets, s.packet, s.first, s.last + 1);
    }
  }

  lemma {:induction false} SelectOrigins(c: Cipher, packets: seq<Packet>, segs: seq<Segment>)
    requires SegmentsFrom(c, packets, segs) && segs != []
    ensures segs[|segs| - 1].last >= -1 && Origins(c, packets, Select(c, segs))
  {
    hide Origin, Span, Data, PacketBlocks, Before, Behind;
    DataOrigins(c, packets, segs);
    PaddingBounds(c, segs);
    var f, l := segs[0], segs[|segs| - 1];
    SpanOrigins(c, packets, f.packet, f.first - Before(c, segs), f.first);
    if Behind(c, segs) > 0 { PacketBlocksBound(c, l.packet, l.last + Behind(c, segs)); }
    SpanOrigins(c, packets, l.packet, l.last + 1, l.last + 1 + Behind(c, segs));
  }

  /** Where the chosen blocks begin and end. */
  ghost predicate Bracket(c: Cipher, segs: seq<Segment>, from: nat, to: nat)
    requires segs != [] && segs[|segs| - 1].last >= -1
  {
    var data, f, l := Data(c, segs), segs[0], segs[|segs| - 1];
    && Chain(Select(c, segs), from, to)
    && from <= Edge(c, f.packet, f.first)
    && (if |data| > RequiredBlocks(c) then to == data[RequiredBlocks(c)].start else Edge(c, l.packet, l.last + 1) <= to)
  }

  lemma {:induction false} EdgeMono(c: Cipher, p: Packet, a: nat, b: nat)
    requires a <= b
    ensures Edge(c, p, a) <= Edge(c, p, b)
  {}

  lemma {:induction false} PaddedChain(c: Cipher, packets: seq<Packet>, segs: seq<Segment>, data: seq<Block>, before: nat, behind: nat)
    requires segs != [] && SegmentsFrom(c, packets, segs)
    requires var f, l := segs[0], segs[|segs| - 1];
             && Chain(data, Edge(c, f.packet, f.first), Edge(c, l.packet, l.last + 1))
             && before <= f.first && (behind > 0 ==> l.last + behind < PacketBlocks(c, l.packet))
    ensures var f, l := segs[0], segs[|segs| - 1];
            var a, b := f.first - before, l.last + 1 + behind;
            && Chain(Span(c, f.packet, a, f.first) + data + Span(c, l.packet, l.last + 1, b), Edge(c, f.packet, a), Edge(c, l.packet, b))
            && Edge(c, f.packet, a) <= Edge(c, f.packet, f.first) && Edge(c, l.packet, l.last + 1) <= Edge(c, l.packet, b)
  {
    hide Span, Chain, PacketBlocks, Edge;
    var f, l := segs[0], segs[|segs| - 1];
    var a, b := f.first - before, l.last + 1 + behind;
    var front, back := Span(c, f.packet, a, f.first), Span(c, l.packet, l.last + 1, b);
    SpanChain(c, f.packet, a, f.first);
    if behind > 0 { PacketBlocksBound(c, l.packet, b - 1); }
    SpanChain(c, l.packet, l.last + 1, b);
    ChainConcat(front, data, Edge(c, f.packet, a), Edge(c, f.packet, f.first), Edge(c, l.packet, l.last + 1));
    ChainConcat(front + data, back, Edge(c, f.packet, a), Edge(c, l.packet, l.last + 1), Edge(c, l.packet, b));
    EdgeMono(c, f.packet, a, f.first);
    EdgeMono(c, l.packet, l.last + 1, b);
  }

  lemma {:induction false} SelectChain(c: Cipher, packets: seq<Packet>, segs: seq<Segment>) returns (from: nat, to: nat)
    requires segs != [] && SegmentsFrom(c, packets, segs)
    requires Chain(Data(c, segs), Edge(c, segs[0].packet, segs[0].first), Edge(c, segs[|segs| - 1].packet, segs[|segs| - 1].last + 1))
    ensures Bracket(c, segs, from, to)
  {
    hide Data, Span, Chain, PacketBlocks, Before, Behind, Edge;
    PaddingBounds(c, segs);
    var data, f, l := Data(c, segs), segs[0], segs[|segs| - 1];
    var x, z := Edge(c, f.packet, f.first), Edge(c, l.packet, l.last + 1);
    if |data| >= RequiredBlocks(c) {
      ChainFront(data, x, z, RequiredBlocks(c));
      from, to := x, if RequiredBlocks(c) < |data| then data[RequiredBlocks(c)].start else z;
    } else {
      PaddedChain(c, packets, segs, data, Before(c, segs), Behind(c, segs));
      from, to := Edge(c, f.packet, f.first - Before(c, segs)), Edge(c, l.packet, l.last + 1 + Behind(c, segs));
    }
  }

  // Recovering the position

  lemma {:induction false} FirstWithNonce(packets: seq<Packet>, i: nat)
    requires DistinctNonces(packets) && i < |packets|
    ensures FirstWith(packets, packets[i].nonce) == Some(packets[i])
    decreases |packets|
  {
    if i > 0 {
      assert packets[0].nonce != packets[i].nonce;
      assert packets[1..][i - 1] == packets[i];
      FirstWithNonce(packets[1..], i - 1);
    }
  }

  lemma {:induction false} CounterInverts(c: Cipher, p: Packet, n: nat)
    requires Size(c, n) < p.length < UINT32
    ensures Counter(c, n) - (if c == ChaCha then 1 else 2) == n
  {}

  lemma {:induction false} AlignedRecovers(c: Cipher, packets: seq<Packet>, blocks: seq<Block>, total: nat)
    requires Contiguous(packets) && DistinctNonces(packets) && blocks != []
    requires Origins(c, packets, blocks) && AllInside(blocks, total)
    ensures Aligned(c, ProvingAll(c, blocks, total), packets) == Ok(blocks[0].start % UINT32)
  {
    hide DistinctNonces, FirstWith, Counter;
    var b := blocks[0];
    assert Origin(c, packets, b) && Inside(b, total);
    var i :| 0 <= i < |packets| && packets[i] == b.packet;
    FirstWithNonce(packets, i);
    CounterInverts(c, b.packet, b.num);
  }

  // What the prover is told about each block

  /** The ciphertext bytes a prover block stands for. */
  function BlockBytes(c: Cipher, b: ProverBlock): int {
    if b.boundary.Some? then b.boundary.value else Size(c, 1)
  }

  /** Where block `i` begins in the prover's input. */
  function InputOffset(c: Cipher, blocks: seq<ProverBlock>, i: nat): int
    requires i <= |blocks|
  {
    if i == 0 then 0 else InputOffset(c, blocks, i - 1) + BlockBytes(c, blocks[i - 1])
  }

  lemma {:induction false} BlockLength(c: Cipher, packets: seq<Packet>, b: Block)
    requires Origin(c, packets, b) && b.start <= b.end
    ensures BlockBytes(c, Proving(c, b)) == b.end - b.start
  {}

  lemma {:induction false} TextLength(c: Cipher, packets: seq<Packet>, blocks: seq<Block>, stream: Bytes, i: nat)
    requires Origins(c, packets, blocks) && AllInside(blocks, |stream|) && i <= |blocks|
    ensures |Text(blocks[..i], stream)| == InputOffset(c, ProvingAll(c, blocks, |stream|), i)
    decreases i
  {
    hide Origin, BlockBytes, Proving;
    if i > 0 {
      TextLength(c, packets, blocks, stream, i - 1);
      assert Inside(blocks[i - 1], |stream|);
      BlockLength(c, packets, blocks[i - 1]);
      assert blocks[..i][..i - 1] == blocks[..i - 1];
    }
  }

  lemma {:induction false} TextFront(blocks: seq<Block>, stream: Bytes, i: nat)
    requires AllInside(blocks, |stream|) && i <= |blocks|
    ensures Text(blocks[..i], stream) <= Text(blocks, stream)
    decreases |blocks|
  {
    if i == |blocks| {
      assert blocks[..i] == blocks;
    } else {
      TextFront(blocks[..|blocks| - 1], stream, i);
      assert blocks[..|blocks| - 1][..i] == blocks[..i];
    }
  }

  /**
   Cutting the input at the declared block sizes gives, for each block, the stream bytes at its
   packet's position plus the block number that its counter encodes.
   */
  lemma {:induction false} BlocksDescribeInput(c: Cipher, packets: seq<Packet>, blocks: seq<Block>, stream: Bytes, i: nat)
    requires Contiguous(packets) && Origins(c, packets, blocks) && AllInside(blocks, |stream|) && i < |blocks|
    ensures var told := ProvingAll(c, blocks, |stream|);
            var off, len := InputOffset(c, told, i), BlockBytes(c, told[i]);
            var num := told[i].counter - if c == ChaCha then 1 else 2;
            && blocks[i].packet in packets && told[i].nonce == blocks[i].packet.nonce
            && num >= 0 && blocks[i].start == blocks[i].packet.position + Size(c, num)
            && 0 <= off <= off + len <= |Text(blocks, stream)| && blocks[i].start + len <= |stream|
            && Text(blocks, stream)[off..off + len] == stream[blocks[i].start..blocks[i].start + len]
  {
    hide Contiguous, BlockBytes, Counter, Origins, AllInside, Text, InputOffset, Size, BlockAt;
    var b := blocks[i];
    OriginAt(c, packets, blocks, |stream|, i);
    BlockLength(c, packets, b);
    TextAt(blocks, stream, i);
    TextLength(c, packets, blocks, stream, i);
    SmallPacket(packets, b.packet);
    CounterInverts(c, b.packet, b.num);
    BlockStart(c, packets, b);
  }

  lemma {:induction false} OriginAt(c: Cipher, packets: seq<Packet>, blocks: seq<Block>, total: nat, i: nat)
    requires Origins(c, packets, blocks) && AllInside(blocks, total) && i < |blocks|
    ensures Origin(c, packets, blocks[i]) && Inside(blocks[i], total)
    ensures ProvingAll(c, blocks, total)[i] == Proving(c, blocks[i])
  {}

  lemma {:induction false} BlockStart(c: Cipher, packets: seq<Packet>, b: Block)
    requires Origin(c, packets, b)
    ensures b.start == b.packet.position + Size(c, b.num)
  {}

  /** The text of block `i` follows the text of the blocks before it. */
  lemma {:induction false} TextAt(blocks: seq<Block>, stream: Bytes, i: nat)
    requires AllInside(blocks, |stream|) && i < |blocks|
    ensures var b, off := blocks[i], |Text(blocks[..i], stream)|;
            && b.start <= b.end <= |stream| && off + (b.end - b.start) <= |Text(blocks, stream)|
            && Text(blocks, stream)[off..off + (b.end - b.start)] == stream[b.start..b.end]
  {
    var b := blocks[i];
    assert Inside(b, |stream|);
    TextFront(blocks, stream, i + 1);
    assert blocks[..i + 1][..i] == blocks[..i];
    assert Text(blocks[..i + 1], stream) == Text(blocks[..i], stream) + stream[b.start..b.end];
    PrefixSlice(Text(blocks[..i], stream), stream[b.start..b.end], Text(blocks, stream));
  }

  lemma {:induction false} SmallPacket(packets: seq<Packet>, p: Packet)
    requires Contiguous(packets) && p in packets
    ensures p.length < UINT32
  {}

  lemma {:induction false} PrefixSlice(a: Bytes, b: Bytes, s: Bytes)
    requires a + b <= s
    ensures s[|a|..|a| + |b|] == b
  {
    assert s[..|a| + |b|] == a + b;
    assert s[|a|..|a| + |b|] == s[..|a| + |b|][|a|..];
  }

  // Main results

  /** What a successful choice is: `from..to` is the slice handed to the prover. */
  ghost predicate Slice(c: Cipher, packets: seq<Packet>, stream: Bytes, start: int, r: Params, from: nat, to: nat) {
    && from <= to <= |stream| && r.input == stream[from..to]
    && |r.blocks| == RequiredBlocks(c)
    && Aligned(c, r.blocks, packets) == Ok(from % UINT32)
    && r.pos == (start - from) % UINT32
  }

  lemma {:induction false} SelectSize(c: Cipher, segs: seq<Segment>)
    requires segs != [] && segs[|segs| - 1].last >= -1
    ensures |Select(c, segs)| <= RequiredBlocks(c)
  {
    hide Data, PacketBlocks, Before, Behind;
    PaddingBounds(c, segs);
    var f, l := segs[0], segs[|segs| - 1];
    SpanSize(c, f.packet, f.first - Before(c, segs), f.first);
    SpanSize(c, l.packet, l.last + 1, l.last + 1 + Behind(c, segs));
  }

  /**
   For every contiguous packet list with distinct nonces, a success has exactly the required
   number of blocks; their ciphertext is one slice of the stream, whose start the first nonce
   and counter give back.
   */
  lemma {:induction false} ChoiceIsSlice(c: Cipher, start: int, end: int, packets: seq<Packet>, stream: Bytes)
    returns (from: nat, to: nat)
    requires InStream(packets, |stream|) && Contiguous(packets) && DistinctNonces(packets) && start <= end
    requires Ideal(c, start, end, packets, stream).Ok?
    ensures Slice(c, packets, stream, start, Ideal(c, start, end, packets, stream).value, from, to)
    ensures var segs := Segments(c, packets, start, end);
            segs != [] && segs[|segs| - 1].last >= -1 && Bracket(c, segs, from, to)
  {
    hide Chain, Data, Select, Segments, Contiguous, DistinctNonces, AllInside, Text, ProvingAll, Aligned, SegmentOk, Edge;
    var segs := Segments(c, packets, start, end);
    SegmentsAreOk(c, packets, start, end, |stream|);
    DataReaches(c, packets, start, end);
    NonEmpty(packets);
    SegmentsAreFrom(c, packets, start, end);
    SelectOrigins(c, packets, segs);
    from, to := SelectChain(c, packets, segs);
    var selected := Select(c, segs);
    SelectInside(c, segs, |stream|);
    SelectSize(c, segs);
    ProvingSize(c, selected, |stream|);
    ChainEnds(selected, from, to);
    ChainText(selected, from, to, stream);
    AlignedRecovers(c, packets, selected, |stream|);
  }

  lemma {:induction false} ProvingSize(c: Cipher, blocks: seq<Block>, total: nat)
    requires AllInside(blocks, total)
    ensures |ProvingAll(c, blocks, total)| == |blocks|
  {}

  lemma {:induction false} NonEmpty(packets: seq<Packet>)
    requires Contiguous(packets)
    ensures forall i :: 0 <= i < |packets| ==> packets[i].length > 0
  {}

  // Coverage

  lemma {:induction false} DataEndsBefore(c: Cipher, packets: seq<Packet>, segs: seq<Segment>, k: nat)
    requires SegmentsFrom(c, packets, segs) && segs != [] && k < |Data(c, segs)|
    requires Chain(Data(c, segs), Edge(c, segs[0].packet, segs[0].first), Edge(c, segs[|segs| - 1].packet, segs[|segs| - 1].last + 1))
    requires segs[|segs| - 1].first <= segs[|segs| - 1].last
    ensures Data(c, segs)[k].start <= segs[|segs| - 1].packet.position + Size(c, segs[|segs| - 1].last)
  {
    hide Chain;
    var data, l := Data(c, segs), segs[|segs| - 1];
    DataOrigins(c, packets, segs);
    assert data[|data| - 1] == BlockAt(c, l.packet, l.last);
    StartsRise(c, packets, data, Edge(c, segs[0].packet, segs[0].first), Edge(c, l.packet, l.last + 1), k, |data| - 1);
  }

  lemma {:induction false} StartsRise(c: Cipher, packets: seq<Packet>, b: seq<Block>, x: nat, z: nat, i: nat, j: nat)
    requires Origins(c, packets, b) && Chain(b, x, z) && i <= j < |b|
    ensures b[i].start <= b[j].start <= z
    decreases |b|
  {
    assert Origin(c, packets, b[|b| - 1]);
    if j < |b| - 1 {
      StartsRise(c, packets, b[..|b| - 1], x, b[|b| - 1].start, i, j);
    } else if i < j {
      StartsRise(c, packets, b[..|b| - 1], x, b[|b| - 1].start, i, |b| - 2);
    }
  }

  /** The first segment's packet holds the start of the range. */
  lemma {:induction false} FirstHolds(c: Cipher, packets: seq<Packet>, start: int, end: int)
    requires Contiguous(packets) && packets != [] && packets[0].position <= start < end
    ensures var segs := Segments(c, packets, start, end);
            if segs == [] then start >= UpTo(packets) else segs[0].packet.position <= start
    decreases |packets|
  {
    hide Contiguous, SegmentOf;
    var p, front := packets[|packets| - 1], packets[..|packets| - 1];
    ContiguousFront(packets);
    if front == [] {
      assert Segments(c, front, start, end) == [];
    } else {
      FirstHolds(c, front, start, end);
    }
    if Overlaps(p, start, end) { SegmentOfPacket(c, p, start, end); }
  }

  lemma {:induction false} LastHasData(c: Cipher, packets: seq<Packet>, start: int, end: int)
    requires start < end && Segments(c, packets, start, end) != []
    requires forall i :: 0 <= i < |packets| ==> packets[i].length > 0
    ensures var segs := Segments(c, packets, start, end); segs[|segs| - 1].first <= segs[|segs| - 1].last
    decreases |packets|
  {
    hide SegmentOf;
    var p := packets[|packets| - 1];
    if Overlaps(p, start, end) {
      SegmentFacts(c, p, start, end);
    } else {
      LastHasData(c, packets[..|packets| - 1], start, end);
    }
  }

  /** The prover's window shows the bytes of the range. */
  lemma {:induction false} WindowShows(stream: Bytes, from: nat, to: nat, start: nat, end: nat)
    requires from <= start <= end <= to <= |stream|
    ensures stream[from..to][start - from..end - from] == stream[start..end]
  {
    var a, b := stream[from..to][start - from..end - from], stream[start..end];
    forall i | 0 <= i < end - start
      ensures a[i] == b[i]
    {
      assert a[i] == stream[from..to][start - from + i];
    }
  }

  /**
   For every range inside the packets, a success covers all of it exactly when its data blocks
   number at most the required ones, and the location it names then shows the range's bytes.
   */
  lemma {:induction false} CoverageExact(c: Cipher, start: nat, end: nat, packets: seq<Packet>, stream: Bytes)
    returns (from: nat, to: nat)
    requires InStream(packets, |stream|) && Contiguous(packets) && DistinctNonces(packets)
    requires packets != [] && packets[0].position <= start < end <= UpTo(packets)
    requires Ideal(c, start, end, packets, stream).Ok?
    ensures Slice(c, packets, stream, start, Ideal(c, start, end, packets, stream).value, from, to)
    ensures from <= start && (end <= to <==> |Data(c, Segments(c, packets, start, end))| <= RequiredBlocks(c))
    ensures var r := Ideal(c, start, end, packets, stream).value;
            end <= to ==>
              r.pos + r.len <= |r.input| && r.input[r.pos..r.pos + r.len] == stream[start..end]
  {
    hide Chain, Data, Select, Segments, Contiguous, DistinctNonces, InStream, Text, ProvingAll, Aligned;
    from, to := ChoiceIsSlice(c, start, end, packets, stream);
    var segs := Segments(c, packets, start, end);
    DataReaches(c, packets, start, end);
    FirstHolds(c, packets, start, end);
    NonEmpty(packets);
    LastHasData(c, packets, start, end);
    SegmentsAreFrom(c, packets, start, end);
    if |Data(c, segs)| > RequiredBlocks(c) {
      DataEndsBefore(c, packets, segs, RequiredBlocks(c));
    }
    IdealLength(c, start, end, packets, stream);
    if end <= to {
      WindowSize(c, packets, segs, from, to);
      SmallMod(start - from);
      SmallMod(end - start);
      WindowShows(stream, from, to, start, end);
      var r := Ideal(c, start, end, packets, stream).value;
      assert r.pos == start - from && r.len == end - start && r.pos + r.len == end - from;
    }
  }

  lemma {:induction false} ChainSize(c: Cipher, packets: seq<Packet>, b: seq<Block>, x: nat, z: nat)
    requires Origins(c, packets, b) && Chain(b, x, z)
    ensures z - x <= Size(c, |b|)
    decreases |b|
  {
    if b != [] {
      assert Origin(c, packets, b[|b| - 1]);
      ChainSize(c, packets, b[..|b| - 1], x, b[|b| - 1].start);
    }
  }

  lemma {:induction false} WindowSize(c: Cipher, packets: seq<Packet>, segs: seq<Segment>, from: nat, to: nat)
    requires segs != [] && SegmentsFrom(c, packets, segs) && segs[|segs| - 1].last >= -1 && Bracket(c, segs, from, to)
    ensures to - from <= 128
  {
    hide Chain, Data, Select, Origins;
    SelectOrigins(c, packets, segs);
    SelectSize(c, segs);
    ChainSize(c, packets, Select(c, segs), from, to);
  }

  lemma {:induction false} SmallMod(x: nat)
    requires x < UINT32
    ensures x % UINT32 == x
  {}

  lemma {:induction false} IdealLength(c: Cipher, start: int, end: int, packets: seq<Packet>, stream: Bytes)
    requires InStream(packets, |stream|) && Ideal(c, start, end, packets, stream).Ok?
    ensures Ideal(c, start, end, packets, stream).value.len == (end - start) % UINT32
    ensures end - start <= MAX_DATA
  {
    hide Segments, Select, InStream, Text, ProvingAll, SegmentOk;
  }

  // A range inside one packet

  lemma {:induction false} NoSegments(c: Cipher, packets: seq<Packet>, start: int, end: int)
    requires forall i :: 0 <= i < |packets| ==> !Overlaps(packets[i], start, end)
    ensures Segments(c, packets, start, end) == []
    decreases |packets|
  {
    if packets != [] { NoSegments(c, packets[..|packets| - 1], start, end); }
  }

  lemma {:induction false} OneSegment(c: Cipher, packets: seq<Packet>, k: nat, start: int, end: int)
    requires Contiguous(packets) && k < |packets| && packets[k].position <= start < end <= End(packets[k])
    ensures Segments(c, packets, start, end) == [SegmentOf(c, packets[k], start, end)]
    decreases |packets|
  {
    hide SegmentOf, Contiguous, Overlaps, Segments;
    var p, front := packets[|packets| - 1], packets[..|packets| - 1];
    ContiguousFront(packets);
    if k == |packets| - 1 {
      forall i | 0 <= i < |front|
        ensures !Overlaps(front[i], start, end)
      {
        PacketsRise(packets, i, k);
        OverlapsWhen(front[i], start, end);
      }
      NoSegments(c, front, start, end);
    } else {
      OneSegment(c, front, k, start, end);
      PacketsRise(packets, k, |packets| - 1);
    }
    OverlapsWhen(p, start, end);
    SegmentsLast(c, packets, start, end);
  }

  lemma {:induction false} SegmentsLast(c: Cipher, packets: seq<Packet>, start: int, end: int)
    requires packets != []
    ensures var p, before := packets[|packets| - 1], Segments(c, packets[..|packets| - 1], start, end);
            Segments(c, packets, start, end) == if Overlaps(p, start, end) then before + [SegmentOf(c, p, start, end)] else before
  {
    hide Overlaps, SegmentOf;
  }

  lemma {:induction false} OverlapsWhen(p: Packet, start: int, end: int)
    requires start < end
    ensures End(p) <= start || end <= p.position ==> !Overlaps(p, start, end)
    ensures p.position <= start < end <= End(p) ==> Overlaps(p, start, end)
  {}

  lemma {:induction false} PacketsRise(packets: seq<Packet>, i: nat, j: nat)
    requires Contiguous(packets) && i < j < |packets|
    ensures End(packets[i]) <= packets[j].position
    decreases j
  {
    assert packets[j].position == packets[j - 1].position + packets[j - 1].length;
    if i < j - 1 { PacketsRise(packets, i, j - 1); }
  }

  lemma {:induction false} FewBlocks(c: Cipher, p: Packet, start: int, end: int)
    requires p.position <= start < end <= End(p) && end - start <= MAX_DATA
    ensures var s := SegmentOf(c, p, start, end);
            s.packet == p && s.first <= s.last && s.last - s.first + 1 <= RequiredBlocks(c)
  {}

  lemma {:induction false} OneSegmentData(c: Cipher, s: Segment)
    requires s.first <= s.last
    ensures |Data(c, [s])| == s.last - s.first + 1
  {
    assert [s][..0] == [];
    SpanSize(c, s.packet, s.first, s.last + 1);
  }

  lemma {:induction false} LastBelow(c: Cipher, p: Packet, start: int, end: int)
    requires p.position <= start < end <= End(p) && p.length + Size(c, 1) <= UINT32
    ensures SegmentOf(c, p, start, end).last < PacketBlocks(c, p)
  {
    SegmentFacts(c, p, start, end);
  }

  lemma {:induction false} OneSegmentSize(c: Cipher, s: Segment)
    requires s.first <= s.last < PacketBlocks(c, s.packet) && s.last - s.first + 1 <= RequiredBlocks(c)
    ensures |Select(c, [s])| == Min(RequiredBlocks(c), PacketBlocks(c, s.packet))
  {
    hide PacketBlocks, Data, Span, BlockAt;
    OneSegmentData(c, s);
    SpanSize(c, s.packet, s.first - Before(c, [s]), s.first);
    SpanSize(c, s.packet, s.last + 1, s.last + 1 + Behind(c, [s]));
  }

  /**
   A range of 1 to 62 bytes inside one packet, when it succeeds, is covered whole. It succeeds
   exactly when the packet has the required number of blocks, if counting them does not wrap.
   */
  lemma {:induction false} OnePacketCovered(c: Cipher, start: nat, end: nat, packets: seq<Packet>, k: nat, stream: Bytes)
    requires InStream(packets, |stream|) && Contiguous(packets) && DistinctNonces(packets)
    requires k < |packets| && packets[k].position <= start < end <= End(packets[k]) && end - start <= MAX_DATA
    ensures packets[k].length + Size(c, 1) <= UINT32 ==>
              (Ideal(c, start, end, packets, stream).Ok? <==> PacketBlocks(c, packets[k]) >= RequiredBlocks(c))
    ensures Ideal(c, start, end, packets, stream).Ok? ==>
              var r := Ideal(c, start, end, packets, stream).value;
              r.pos + r.len <= |r.input| && r.input[r.pos..r.pos + r.len] == stream[start..end]
  {
    hide Data, Select, Segments, Contiguous, DistinctNonces, InStream, Text, ProvingAll, SegmentOf, PacketBlocks, SegmentOk;
    OneSegment(c, packets, k, start, end);
    var s := SegmentOf(c, packets[k], start, end);
    FewBlocks(c, packets[k], start, end);
    OneSegmentData(c, s);
    if packets[k].length + Size(c, 1) <= UINT32 {
      LastBelow(c, packets[k], start, end);
      OneSegmentSize(c, s);
    }
    if Ideal(c, start, end, packets, stream).Ok? {
      Surround(packets, k);
      var from, to := CoverageExact(c, start, end, packets, stream);
    }
  }

  lemma {:induction false} Surround(packets: seq<Packet>, k: nat)
    requires Contiguous(packets) && k < |packets|
    ensures packets[0].position <= packets[k].position && End(packets[k]) <= UpTo(packets)
  {
    if k > 0 { PacketsRise(packets, 0, k); }
    if k < |packets| - 1 { PacketsRise(packets, k, |packets| - 1); }
  }

  /** 5 blocks of 16 and 2 of 64 are the least that hold every range of up to 62 bytes. */
  lemma {:induction false} LeastBlocks(o: nat, n: nat)
    requires 1 <= n <= 62
    ensures (o + n - 1) / 16 - o / 16 + 1 <= RequiredBlocks(Aes) && (o + n - 1) / 64 - o / 64 + 1 <= RequiredBlocks(ChaCha)
    ensures (15 + 62 - 1) / 16 - 15 / 16 + 1 == RequiredBlocks(Aes) && (63 + 62 - 1) / 64 - 63 / 64 + 1 == RequiredBlocks(ChaCha)
  {}

  /** Ranges over 62 bytes are refused; a shorter one in a packet of 80 AES or 128 ChaCha20 bytes is covered. */
  lemma {:induction false} SixtyTwoBytes(c: Cipher, start: nat, end: nat, packets: seq<Packet>, k: nat, stream: Bytes)
    requires InStream(packets, |stream|) && Contiguous(packets) && DistinctNonces(packets)
    requires k < |packets| && packets[k].position <= start < end <= End(packets[k])
    ensures end - start > 62 ==> Ideal(c, start, end, packets, stream).Err?
    ensures end - start <= 62 && (if c == Aes then 80 else 128) <= packets[k].length <= 0xFFFF_0000 ==>
              var r := Ideal(c, start, end, packets, stream);
              && r.Ok? && r.value.pos + r.value.len <= |r.value.input|
              && r.value.input[r.value.pos..r.value.pos + r.value.len] == stream[start..end]
  {
    hide Segments, Select, InStream, Text, ProvingAll, SegmentOk, Contiguous, DistinctNonces;
    if end - start <= 62 && (if c == Aes then 80 else 128) <= packets[k].length <= 0xFFFF_0000 {
      EnoughBlocks(c, packets[k]);
      OnePacketCovered(c, start, end, packets, k, stream);
    }
  }

  lemma {:induction false} EnoughBlocks(c: Cipher, p: Packet)
    requires (if c == Aes then 80 else 128) <= p.length <= 0xFFFF_0000
    ensures PacketBlocks(c, p) >= RequiredBlocks(c)
  {}

  /** Blocks behind the data are used only when there is none left in front of it. */
  lemma {:induction false} FrontFirst(c: Cipher, segs: seq<Segment>)
    requires segs != [] && segs[|segs| - 1].last >= -1
    ensures Behind(c, segs) > 0 ==> Before(c, segs) == segs[0].first
    ensures Before(c, segs) > 0 ==> Select(c, segs)[0] == BlockAt(c, segs[0].packet, segs[0].first - Before(c, segs))
  {
    hide Data, PacketBlocks, BlockAt;
    var f := segs[0];
    PaddingBounds(c, segs);
    if Before(c, segs) > 0 { SpanFront(c, f.packet, f.first - Before(c, segs), f.first); }
  }
}
