/**
 Choice of the cipher blocks a TOPRF proof is made over (client/verification_bundle.go).
 `Aes` and `ChaCha` stand for the suites with blocks of 16 and of 64 bytes.
 */
module Toprf {
  import opened Results
  import opened BigEndian

  const UINT32: nat := 0x1_0000_0000

  const MAX_DATA := 62

  datatype Cipher = Aes | ChaCha

  datatype Packet = Packet(position: nat, length: nat, nonce: Bytes)

  /** The data blocks of one packet, `first` to `last`. */
  datatype Segment = Segment(packet: Packet, first: nat, last: int)

  datatype Block = Block(packet: Packet, num: nat, start: nat, end: nat)

  datatype ProverBlock = ProverBlock(nonce: Bytes, counter: nat, boundary: Option<nat>)

  datatype Params = Params(blocks: seq<ProverBlock>, input: Bytes, pos: nat, len: nat)

  /** The bytes of `n` blocks. */
  function Size(c: Cipher, n: int): int {
    if c == Aes then 16 * n else 64 * n
  }

  /** Division by the block size, rounding towards zero. */
  function Div(c: Cipher, x: int): int {
    if x < 0 then -(if c == Aes then -x / 16 else -x / 64)
    else if c == Aes then x / 16 else x / 64
  }

  function RequiredBlocks(c: Cipher): nat {
    if c == Aes then 5 else 2
  }

  function Counter(c: Cipher, num: int): nat {
    (num + if c == Aes then 2 else 1) % UINT32
  }

  function Max(a: int, b: int): int { if a < b then b else a }

  function Min(a: int, b: int): int { if a < b then a else b }

  // The specification

  predicate Overlaps(p: Packet, start: int, end: int) {
    end > p.position && start < p.position + p.length
  }

  function SegmentOf(c: Cipher, p: Packet, start: int, end: int): Segment {
    var from, to := Max(start, p.position), Min(end, p.position + p.length);
    Segment(p, Div(c, from - p.position), Div(c, (from - p.position) + (to - from) - 1))
  }

  function Segments(c: Cipher, packets: seq<Packet>, start: int, end: int): seq<Segment> {
    if packets == [] then [] else
      var p := packets[|packets| - 1];
      Segments(c, packets[..|packets| - 1], start, end) +
      if Overlaps(p, start, end) then [SegmentOf(c, p, start, end)] else []
  }

  function BlockAt(c: Cipher, p: Packet, n: nat): Block {
    Block(p, n, p.position + Size(c, n), Min(p.position + Size(c, n) + Size(c, 1), p.position + p.length))
  }

  /** Blocks `a` up to `b` of a packet. */
  function Span(c: Cipher, p: Packet, a: nat, b: int): seq<Block>
    decreases b
  {
    if b <= a then [] else Span(c, p, a, b - 1) + [BlockAt(c, p, b - 1)]
  }

  function Data(c: Cipher, segs: seq<Segment>): seq<Block> {
    if segs == [] then [] else
      var s := segs[|segs| - 1];
      Data(c, segs[..|segs| - 1]) + Span(c, s.packet, s.first, s.last + 1)
  }

  /** Number of blocks of a packet, as computed in 32 bits. */
  function PacketBlocks(c: Cipher, p: Packet): nat {
    Div(c, (p.length + Size(c, 1) - 1) % UINT32)
  }

  /** How many blocks go in front of and behind the data. */
  function Before(c: Cipher, segs: seq<Segment>): nat
    requires segs != []
  {
    Max(0, Min(RequiredBlocks(c) - |Data(c, segs)|, segs[0].first))
  }

  function Behind(c: Cipher, segs: seq<Segment>): nat
    requires segs != []
  {
    var l := segs[|segs| - 1];
    Max(0, Min(RequiredBlocks(c) - |Data(c, segs)| - Before(c, segs), PacketBlocks(c, l.packet) - (l.last + 1)))
  }

  function Select(c: Cipher, segs: seq<Segment>): seq<Block>
    requires segs != [] && segs[|segs| - 1].last >= -1
  {
    var data, f, l := Data(c, segs), segs[0], segs[|segs| - 1];
    if |data| >= RequiredBlocks(c) then data[..RequiredBlocks(c)] else
      Span(c, f.packet, f.first - Before(c, segs), f.first) + data +
      Span(c, l.packet, l.last + 1, l.last + 1 + Behind(c, segs))
  }

  predicate Inside(b: Block, total: nat) {
    b.start <= b.end <= total
  }

  predicate AllInside(blocks: seq<Block>, total: nat) {
    forall i :: 0 <= i < |blocks| ==> Inside(blocks[i], total)
  }

  function Text(blocks: seq<Block>, stream: Bytes): Bytes
    requires AllInside(blocks, |stream|)
  {
    if blocks == [] then [] else
      var b := blocks[|blocks| - 1];
      Text(blocks[..|blocks| - 1], stream) + stream[b.start..b.end]
  }

  function Proving(c: Cipher, b: Block): ProverBlock
    requires b.start <= b.end
  {
    ProverBlock(b.packet.nonce, Counter(c, b.num), if b.end - b.start < Size(c, 1) then Some(b.end - b.start) else None)
  }

  // Blocks lie inside their packets

  predicate InStream(packets: seq<Packet>, total: nat) {
    forall i :: 0 <= i < |packets| ==> packets[i].position + packets[i].length <= total
  }

  /** A segment of a packet in the stream; `last` may precede `first` when there is no data. */
  predicate SegmentOk(c: Cipher, s: Segment, total: nat) {
    && s.packet.position + s.packet.length <= total
    && s.last >= -1
    && Size(c, s.first) <= s.packet.length && Size(c, s.last) <= s.packet.length
  }

  predicate SegmentsOk(c: Cipher, segs: seq<Segment>, total: nat) {
    forall i :: 0 <= i < |segs| ==> SegmentOk(c, segs[i], total)
  }

  lemma {:induction false} SegmentIsOk(c: Cipher, p: Packet, start: int, end: int, total: nat)
    requires Overlaps(p, start, end) && p.position + p.length <= total
    ensures SegmentOk(c, SegmentOf(c, p, start, end), total)
  {}

  lemma {:induction false} SegmentsAreOk(c: Cipher, packets: seq<Packet>, start: int, end: int, total: nat)
    requires InStream(packets, total)
    ensures SegmentsOk(c, Segments(c, packets, start, end), total)
    decreases |packets|
  {
    hide SegmentOk, SegmentOf;
    if packets != [] {
      var p := packets[|packets| - 1];
      SegmentsAreOk(c, packets[..|packets| - 1], start, end, total);
      if Overlaps(p, start, end) { SegmentIsOk(c, p, start, end, total); }
    }
  }

  lemma {:induction false} SpanInside(c: Cipher, p: Packet, a: nat, b: int, total: nat)
    requires p.position + p.length <= total && Size(c, b - 1) <= p.length
    ensures AllInside(Span(c, p, a, b), total)
    decreases b
  {
    if b > a { SpanInside(c, p, a, b - 1, total); }
  }

  lemma {:induction false} DataInside(c: Cipher, segs: seq<Segment>, total: nat)
    requires SegmentsOk(c, segs, total)
    ensures AllInside(Data(c, segs), total)
    decreases |segs|
  {
    if segs != [] {
      var s := segs[|segs| - 1];
      assert SegmentOk(c, s, total);
      DataInside(c, segs[..|segs| - 1], total);
      SpanInside(c, s.packet, s.first, s.last + 1, total);
    }
  }

  /** What the padding counts may be when the data is short of blocks. */
  lemma {:induction false} PaddingBounds(c: Cipher, segs: seq<Segment>)
    requires segs != []
    ensures var missing, l := RequiredBlocks(c) - |Data(c, segs)|, segs[|segs| - 1];
            && Before(c, segs) <= segs[0].first
            && (missing >= 0 ==> Before(c, segs) + Behind(c, segs) <= missing)
            && (Behind(c, segs) > 0 ==> l.last + Behind(c, segs) < PacketBlocks(c, l.packet))
  {
    hide Data, PacketBlocks;
  }

  lemma {:induction false} PacketBlocksBound(c: Cipher, p: Packet, n: nat)
    requires n < PacketBlocks(c, p)
    ensures Size(c, n) < p.length
  {}

  lemma {:induction false} SelectInside(c: Cipher, segs: seq<Segment>, total: nat)
    requires segs != [] && SegmentsOk(c, segs, total) && segs[|segs| - 1].last >= -1
    ensures AllInside(Select(c, segs), total)
  {
    hide Data, Span, Inside, Before, Behind, PacketBlocks;
    DataInside(c, segs, total);
    var f, l := segs[0], segs[|segs| - 1];
    assert SegmentOk(c, f, total) && SegmentOk(c, l, total);
    PaddingBounds(c, segs);
    if Behind(c, segs) > 0 && l.last + Behind(c, segs) >= 0 { PacketBlocksBound(c, l.packet, l.last + Behind(c, segs)); }
    SpanInside(c, f.packet, f.first - Before(c, segs), f.first, total);
    SpanInside(c, l.packet, l.last + 1, l.last + 1 + Behind(c, segs), total);
  }

  // The source's function

  method FindSegments(c: Cipher, packets: seq<Packet>, rangeStart: int, rangeEnd: int) returns (segments: seq<Segment>)
    ensures segments == Segments(c, packets, rangeStart, rangeEnd)
  {
    hide SegmentOf, Overlaps;
    segments := [];
    for i := 0 to |packets|
      invariant segments == Segments(c, packets[..i], rangeStart, rangeEnd)
    {
      if Overlaps(packets[i], rangeStart, rangeEnd) {
        segments := segments + [SegmentOf(c, packets[i], rangeStart, rangeEnd)];
      }
      assert packets[..i + 1][..i] == packets[..i];
    }
    assert packets[..|packets|] == packets;
  }

  method DataBlocks(c: Cipher, segments: seq<Segment>) returns (all: seq<Block>)
    requires forall i :: 0 <= i < |segments| ==> segments[i].last >= -1
    ensures all == Data(c, segments)
  {
    all := [];
    for i := 0 to |segments|
      invariant all == Data(c, segments[..i])
    {
      var seg := segments[i];
      var before := all;
      var num := seg.first;
      assert before + [] == before;
      while num <= seg.last
        invariant seg.first <= num && (num <= seg.last + 1 || num == seg.first)
        invariant all == before + Span(c, seg.packet, seg.first, num)
      {
        all := all + [BlockAt(c, seg.packet, num)];
        num := num + 1;
      }
      assert Span(c, seg.packet, seg.first, num) == Span(c, seg.packet, seg.first, seg.last + 1);
      assert segments[..i + 1][..i] == segments[..i];
    }
    assert segments[..|segments|] == segments;
  }

  lemma {:induction false} SpanFront(c: Cipher, p: Packet, a: nat, b: int)
    requires a < b
    ensures Span(c, p, a, b) == [BlockAt(c, p, a)] + Span(c, p, a + 1, b)
    decreases b
  {
    hide BlockAt;
    if a < b - 1 {
      SpanFront(c, p, a, b - 1);
    }
  }

  lemma {:induction false} PrependNone(c: Cipher, p: Packet, a: nat, all: seq<Block>)
    ensures Span(c, p, a, a) + all == all
  {}

  lemma {:induction false} PrependStep(c: Cipher, p: Packet, a: nat, b: int, all: seq<Block>)
    requires a < b
    ensures [BlockAt(c, p, a)] + (Span(c, p, a + 1, b) + all) == Span(c, p, a, b) + all
  {
    hide BlockAt, Span;
    SpanFront(c, p, a, b);
  }

  /** Blocks before the data, nearest first. */
  method Prepend(c: Cipher, seg: Segment, all: seq<Block>, needed: nat) returns (selected: seq<Block>)
    ensures var n := Min(needed, seg.first);
            selected == Span(c, seg.packet, seg.first - n, seg.first) + all && |selected| == n + |all|
  {
    hide BlockAt, Span;
    selected := all;
    var i := 0;
    PrependNone(c, seg.packet, seg.first, all);
    while i < needed && seg.first - i - 1 >= 0
      invariant 0 <= i <= needed && i <= seg.first
      invariant selected == Span(c, seg.packet, seg.first - i, seg.first) + all
    {
      PrependStep(c, seg.packet, seg.first - i - 1, seg.first, all);
      selected := [BlockAt(c, seg.packet, seg.first - i - 1)] + selected;
      i := i + 1;
    }
    SpanSize(c, seg.packet, seg.first - i, seg.first);
  }

  /** Blocks behind the data, as long as the packet has any. */
  method Append(c: Cipher, seg: Segment, front: seq<Block>, needed: nat) returns (selected: seq<Block>)
    requires seg.last >= -1
    ensures var n := Max(0, Min(needed, PacketBlocks(c, seg.packet) - (seg.last + 1)));
            selected == front + Span(c, seg.packet, seg.last + 1, seg.last + 1 + n)
  {
    hide BlockAt, PacketBlocks;
    selected := front;
    var packetBlocks := PacketBlocks(c, seg.packet);
    var j := 0;
    assert front + [] == front;
    while j < needed && seg.last + j + 1 < packetBlocks
      invariant 0 <= j <= needed && (j == 0 || seg.last + j + 1 <= packetBlocks)
      invariant selected == front + Span(c, seg.packet, seg.last + 1, seg.last + 1 + j)
    {
      selected := selected + [BlockAt(c, seg.packet, seg.last + j + 1)];
      j := j + 1;
    }
  }

  method SelectBlocks(c: Cipher, segments: seq<Segment>, all: seq<Block>) returns (selected: seq<Block>)
    requires segments != [] && segments[|segments| - 1].last >= -1
    requires all == Data(c, segments)
    ensures selected == Select(c, segments)
  {
    hide Data, Span, PacketBlocks;
    var required := RequiredBlocks(c);
    if |all| >= required {
      return all[..required];
    }
    selected := Prepend(c, segments[0], all, required - |all|);
    selected := Append(c, segments[|segments| - 1], selected, required - |selected|);
  }

  lemma {:induction false} SpanSize(c: Cipher, p: Packet, a: nat, b: int)
    requires a <= b
    ensures |Span(c, p, a, b)| == b - a
    decreases b
  {
    if a < b { SpanSize(c, p, a, b - 1); }
  }

  function ProvingAll(c: Cipher, blocks: seq<Block>, total: nat): seq<ProverBlock>
    requires AllInside(blocks, total)
  {
    seq(|blocks|, i requires 0 <= i < |blocks| => Proving(c, blocks[i]))
  }

  method ExtractBlocks(c: Cipher, selected: seq<Block>, stream: Bytes) returns (blocks: seq<ProverBlock>, input: Bytes)
    requires AllInside(selected, |stream|)
    ensures blocks == ProvingAll(c, selected, |stream|) && input == Text(selected, stream)
  {
    blocks, input := [], [];
    for i := 0 to |selected|
      invariant |blocks| == i && forall k :: 0 <= k < i ==> blocks[k] == Proving(c, selected[k])
      invariant input == Text(selected[..i], stream)
    {
      var b := selected[i];
      var text := stream[b.start..b.end];
      input := input + text;
      var boundary := if |text| < Size(c, 1) then Some(|text|) else None;
      blocks := blocks + [ProverBlock(b.packet.nonce, Counter(c, b.num), boundary)];
      assert selected[..i + 1][..i] == selected[..i];
    }
    assert selected[..|selected|] == selected;
  }

  /** The whole choice; the packets' bytes must be in the stream, or slicing it panics. */
  function Ideal(c: Cipher, start: int, end: int, packets: seq<Packet>, stream: Bytes): (r: Result<Params>)
    requires InStream(packets, |stream|)
  {
    if end - start > MAX_DATA then Err else
      var segs := Segments(c, packets, start, end);
      if segs == [] then Err else
        SegmentsAreOk(c, packets, start, end, |stream|);
        assert SegmentOk(c, segs[|segs| - 1], |stream|);
        var selected := Select(c, segs);
        if |selected| < RequiredBlocks(c) then Err else
          SelectInside(c, segs, |stream|);
          Ok(Params(ProvingAll(c, selected, |stream|), Text(selected, stream),
                    (start - selected[0].start) % UINT32, (end - start) % UINT32))
  }

  method GetIdealBlocksForTOPRF(c: Cipher, rangeStart: int, rangeEnd: int, packets: seq<Packet>, stream: Bytes)
    returns (r: Result<Params>)
    requires InStream(packets, |stream|)
    ensures r == Ideal(c, rangeStart, rangeEnd, packets, stream)
  {
    hide Segments, Select, Data, AllInside, ProvingAll, Text, SegmentOk;
    var dataLength := rangeEnd - rangeStart;
    if dataLength > MAX_DATA {
      return Err;
    }
    var segments := FindSegments(c, packets, rangeStart, rangeEnd);
    if |segments| == 0 {
      return Err;
    }
    SegmentsAreOk(c, packets, rangeStart, rangeEnd, |stream|);
    LastsOk(c, segments, |stream|);
    var all := DataBlocks(c, segments);
    var selected := SelectBlocks(c, segments, all);
    if |selected| < RequiredBlocks(c) {
      return Err;
    }
    SelectInside(c, segments, |stream|);
    var blocks, input := ExtractBlocks(c, selected, stream);
    return Ok(Params(blocks, input, (rangeStart - selected[0].start) % UINT32, dataLength % UINT32));
  }

  lemma {:induction false} LastsOk(c: Cipher, segs: seq<Segment>, total: nat)
    requires SegmentsOk(c, segs, total)
    ensures forall i :: 0 <= i < |segs| ==> segs[i].last >= -1
  {}

  /** The stream position of the first block, from its nonce and counter. */
  function Aligned(c: Cipher, blocks: seq<ProverBlock>, packets: seq<Packet>): Result<nat>
  {
    if blocks == [] then Err else
      match FirstWith(packets, blocks[0].nonce)
      case None => Err
      case Some(p) => Ok((p.position + Size(c, blocks[0].counter - if c == ChaCha then 1 else 2)) % UINT32)
  }

  function FirstWith(packets: seq<Packet>, nonce: Bytes): Option<Packet> {
    if packets == [] then None
    else if packets[0].nonce == nonce then Some(packets[0])
    else FirstWith(packets[1..], nonce)
  }

  method CalculateBlockAlignedStreamPosition(c: Cipher, blocks: seq<ProverBlock>, packets: seq<Packet>)
    returns (r: Result<nat>)
    ensures r == Aligned(c, blocks, packets)
  {
    if |blocks| == 0 {
      return Err;
    }
    var target: Option<Packet> := None;
    var i := 0;
    while i < |packets|
      invariant i <= |packets| && FirstWith(packets, blocks[0].nonce) == FirstWith(packets[i..], blocks[0].nonce)
    {
      if packets[i].nonce == blocks[0].nonce {
        target := Some(packets[i]);
        break;
      }
      i := i + 1;
    }
    if target == None {
      return Err;
    }
    var firstBlockIndex := blocks[0].counter - if c == ChaCha then 1 else 2;
    return Ok((target.value.position + Size(c, firstBlockIndex)) % UINT32);
  }
}
