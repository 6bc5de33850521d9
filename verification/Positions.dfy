/**
 From HTTP ranges to stream ranges (client/redaction.go, client/verification_bundle.go) and
 their consolidation (shared/types.go).
 */
module Positions {
  import opened Results
  import opened BigEndian
  import opened Coordinates
  import opened CoordinateTheorems

  predicate Holds(m: Mapping, p: int) {
    m.httpPos <= p < m.httpPos + m.length
  }

  /** The stream position of an HTTP position, by the first mapping that holds it. */
  function Locate(m: seq<Mapping>, p: int): Option<int> {
    if m == [] then None
    else if Holds(m[0], p) then Some(m[0].tlsPos + (p - m[0].httpPos))
    else Locate(m[1..], p)
  }

  method HttpPositionToTlsPosition(mappings: seq<Mapping>, httpPos: int) returns (r: Option<int>)
    ensures r == Locate(mappings, httpPos)
  {
    for i := 0 to |mappings|
      invariant Locate(mappings, httpPos) == Locate(mappings[i..], httpPos)
    {
      var mapping := mappings[i];
      if httpPos >= mapping.httpPos && httpPos < mapping.httpPos + mapping.length {
        return Some(mapping.tlsPos + (httpPos - mapping.httpPos));
      }
    }
    return None;
  }

  function Max(a: int, b: int): int { if a < b then b else a }

  function Min(a: int, b: int): int { if a < b then a else b }

  /** The part of one mapping inside an HTTP range, in stream positions. */
  function Overlap(m: Mapping, start: int, end: int): seq<Range> {
    if m.httpPos < end && m.httpPos + m.length > start then
      var from, to := Max(m.httpPos, start), Min(m.httpPos + m.length, end);
      [Range(m.tlsPos + (from - m.httpPos), to - from, "")]
    else []
  }

  function Find(m: seq<Mapping>, start: int, end: int): seq<Range> {
    if m == [] then [] else Find(m[..|m| - 1], start, end) + Overlap(m[|m| - 1], start, end)
  }

  method FindTLSPositions(httpStart: int, httpLength: int, mappings: seq<Mapping>) returns (ranges: seq<Range>)
    ensures ranges == Find(mappings, httpStart, httpStart + httpLength)
  {
    ranges := [];
    var httpEnd := httpStart + httpLength;
    for i := 0 to |mappings|
      invariant ranges == Find(mappings[..i], httpStart, httpEnd)
    {
      var mapping := mappings[i];
      var mappingEnd := mapping.httpPos + mapping.length;
      if mapping.httpPos < httpEnd && mappingEnd > httpStart {
        var overlapStart, overlapEnd := Max(mapping.httpPos, httpStart), Min(mappingEnd, httpEnd);
        ranges := ranges + [Range(mapping.tlsPos + (overlapStart - mapping.httpPos), overlapEnd - overlapStart, "")];
      }
      assert mappings[..i + 1][..i] == mappings[..i];
    }
    assert mappings[..|mappings|] == mappings;
  }

  // The positions a list of ranges names, in order

  function Run(start: int, n: int): (r: seq<int>)
    decreases n
  {
    if n <= 0 then [] else Run(start, n - 1) + [start + n - 1]
  }

  function Expand(ranges: seq<Range>): seq<int> {
    if ranges == [] then []
    else Expand(ranges[..|ranges| - 1]) + Run(ranges[|ranges| - 1].start, ranges[|ranges| - 1].length)
  }

  function At(m: seq<Mapping>, p: int): int {
    match Locate(m, p) case None => -1 case Some(x) => x
  }

  /** The stream positions of the HTTP positions `lo` up to `hi`, one by one. */
  function Image(m: seq<Mapping>, lo: int, hi: int): seq<int>
    decreases hi - lo
  {
    if hi <= lo then [] else Image(m, lo, hi - 1) + [At(m, hi - 1)]
  }

  // Positions in a tiled content

  lemma {:induction false} TileEnd(m: seq<Mapping>, total: nat, i: nat)
    requires Tiles(m, total) && i < |m|
    ensures m[i].httpPos + m[i].length == HttpAt(m, i + 1, total)
  {
    hide HttpAt;
  }

  lemma {:induction false} TilesInOrder(m: seq<Mapping>, total: nat, i: nat, j: nat)
    requires Tiles(m, total) && i <= j <= |m|
    ensures HttpAt(m, i, total) <= HttpAt(m, j, total)
    ensures i < j ==> m[i].httpPos + m[i].length <= HttpAt(m, j, total)
    decreases j
  {
    hide Tiles;
    if i < j {
      TilesInOrder(m, total, i, j - 1);
      TileEnd(m, total, j - 1);
    }
  }

  lemma {:induction false} LocateSkip(m: seq<Mapping>, k: nat, p: int)
    requires k <= |m| && forall i :: 0 <= i < k ==> !Holds(m[i], p)
    ensures Locate(m, p) == Locate(m[k..], p)
    decreases k
  {
    if k > 0 {
      LocateSkip(m, k - 1, p);
      assert m[k - 1..][1..] == m[k..];
    }
  }

  lemma {:induction false} LocateTiled(m: seq<Mapping>, total: nat, i: nat, p: int)
    requires Tiles(m, total) && i < |m| && Holds(m[i], p)
    ensures Locate(m, p) == Some(m[i].tlsPos + (p - m[i].httpPos))
  {
    hide Tiles;
    forall j | 0 <= j < i
      ensures !Holds(m[j], p)
    {
      TilesInOrder(m, total, j, i);
    }
    LocateSkip(m, i, p);
  }

  /** Every position of the content belongs to a mapping. */
  lemma {:induction false} TileOf(m: seq<Mapping>, total: nat, p: int, k: nat) returns (i: nat)
    requires Tiles(m, total) && k <= |m| && 0 <= p < HttpAt(m, k, total)
    ensures i < k && Holds(m[i], p)
    decreases k
  {
    hide Tiles;
    if k == 0 {
      TilesStart(m, total);
      assert false;
    } else {
      TileEnd(m, total, k - 1);
      if p >= m[k - 1].httpPos {
        i := k - 1;
      } else {
        i := TileOf(m, total, p, k - 1);
      }
    }
  }

  // FindTLSPositions is the pointwise image

  lemma {:induction false} ImageRun(m: seq<Mapping>, total: nat, i: nat, lo: int, a: int, b: int)
    requires Tiles(m, total) && i < |m| && lo <= a <= b
    requires m[i].httpPos <= a && b <= m[i].httpPos + m[i].length
    ensures Image(m, lo, b) == Image(m, lo, a) + Run(m[i].tlsPos + (a - m[i].httpPos), b - a)
    decreases b
  {
    hide Tiles;
    if a < b {
      ImageRun(m, total, i, lo, a, b - 1);
      LocateTiled(m, total, i, b - 1);
    }
  }

  lemma {:induction false} ImageEmpty(m: seq<Mapping>, lo: int, hi: int)
    requires hi <= lo
    ensures Image(m, lo, hi) == []
  {}

  lemma {:induction false} ExpandAppend(a: seq<Range>, x: seq<Range>)
    requires |x| <= 1
    ensures Expand(a + x) == Expand(a) + if x == [] then [] else Run(x[0].start, x[0].length)
  {
    if x == [] {
      assert a + x == a;
    } else {
      assert (a + x)[..|a|] == a;
    }
  }

  lemma {:induction false} OverlapIsImage(m: seq<Mapping>, total: nat, i: nat, start: int, end: int)
    requires Tiles(m, total) && i < |m|
    ensures var lo, x := Max(start, 0), Overlap(m[i], start, end);
            Image(m, lo, Min(end, HttpAt(m, i + 1, total))) ==
            Image(m, lo, Min(end, HttpAt(m, i, total))) + if x == [] then [] else Run(x[0].start, x[0].length)
  {
    hide Tiles;
    var lo := Max(start, 0);
    var a, b := m[i].httpPos, m[i].httpPos + m[i].length;
    TileEnd(m, total, i);
    if a < end && b > start {
      var from, to := Max(a, start), Min(b, end);
      if from <= to {
        ImageRun(m, total, i, lo, Max(a, lo), to);
      }
    } else if a < end {
      ImageEmpty(m, lo, Min(end, a));
      ImageEmpty(m, lo, Min(end, b));
    }
  }

  lemma {:induction false} FindPrefix(m: seq<Mapping>, total: nat, start: int, end: int, k: nat)
    requires Tiles(m, total) && k <= |m|
    ensures Expand(Find(m[..k], start, end)) == Image(m, Max(start, 0), Min(end, HttpAt(m, k, total)))
    decreases k
  {
    hide Tiles, Image, Overlap;
    if k == 0 {
      assert HttpAt(m, 0, total) == 0 by { TilesStart(m, total); }
      ImageEmpty(m, Max(start, 0), Min(end, 0));
    } else {
      FindPrefix(m, total, start, end, k - 1);
      assert m[..k][..k - 1] == m[..k - 1];
      OverlapIsImage(m, total, k - 1, start, end);
      OverlapShort(m[k - 1], start, end);
      ExpandAppend(Find(m[..k - 1], start, end), Overlap(m[k - 1], start, end));
    }
  }

  lemma {:induction false} TilesStart(m: seq<Mapping>, total: nat)
    requires Tiles(m, total)
    ensures HttpAt(m, 0, total) == 0
  {}

  lemma {:induction false} OverlapShort(m: Mapping, start: int, end: int)
    ensures |Overlap(m, start, end)| <= 1
  {}

  /** For every HTTP range, in or out of bounds. */
  lemma {:induction false} FindIsImage(m: seq<Mapping>, total: nat, start: int, length: int)
    requires Tiles(m, total)
    ensures Expand(Find(m, start, start + length)) == Image(m, Max(start, 0), Min(start + length, total))
  {
    hide Tiles, Find, Expand, Image;
    assert m[..|m|] == m;
    FindPrefix(m, total, start, start + length, |m|);
  }

  lemma {:induction false} FindLengths(m: seq<Mapping>, start: int, end: int)
    requires start <= end
    ensures TotalLength(Find(m, start, end)) == |Expand(Find(m, start, end))|
    decreases |m|
  {
    if m != [] {
      var was, x := Find(m[..|m| - 1], start, end), Overlap(m[|m| - 1], start, end);
      FindLengths(m[..|m| - 1], start, end);
      ExpandAppend(was, x);
      if x == [] {
        assert was + x == was;
      } else {
        TotalGrow(was, x[0]);
        RunLength(x[0].start, x[0].length);
      }
    }
  }

  lemma {:induction false} RunLength(start: int, n: int)
    requires n >= 0
    ensures |Run(start, n)| == n
    decreases n
  {
    if n > 0 { RunLength(start, n - 1); }
  }

  lemma {:induction false} ImageLength(m: seq<Mapping>, lo: int, hi: int)
    requires lo <= hi
    ensures |Image(m, lo, hi)| == hi - lo
    decreases hi - lo
  {
    if lo < hi { ImageLength(m, lo, hi - 1); }
  }

  /** The ranges of an HTTP range inside the content have the same total length. */
  lemma {:induction false} LengthConserved(m: seq<Mapping>, total: nat, start: nat, length: nat)
    requires Tiles(m, total) && start + length <= total
    ensures TotalLength(Find(m, start, start + length)) == length
  {
    hide Tiles, Find, Expand, Image, TotalLength;
    FindIsImage(m, total, start, length);
    FindLengths(m, start, start + length);
    ImageLength(m, start, start + length);
  }

  // What a position means

  ghost predicate MapsUp(m: seq<Mapping>, total: nat) {
    forall p, q :: 0 <= p < q < total ==> At(m, p) < At(m, q)
  }

  /** Later HTTP bytes stand later in the stream. */
  lemma {:induction false} AtIncreases(m: seq<Mapping>, total: nat)
    requires Tiles(m, total) && Increasing(m) && forall i :: 0 <= i < |m| ==> m[i].length <= |m[i].ciphertext|
    ensures MapsUp(m, total)
  {
    hide Tiles, Locate;
    forall p, q | 0 <= p < q < total
      ensures At(m, p) < At(m, q)
    {
      var i := TileOf(m, total, p, |m|);
      var j := TileOf(m, total, q, |m|);
      LocateTiled(m, total, i, p);
      LocateTiled(m, total, j, q);
      if j < i {
        TilesInOrder(m, total, j, i);
        assert false;
      }
    }
  }

  /** An HTTP byte is the plaintext of the stream byte it is mapped to. */
  lemma {:induction false} LocatedByte(held: Held, plain: map<nat, Bytes>, seqs: seq<nat>, p: int)
    requires Decrypted(held, plain) && AllUsable(held, seqs)
    requires 0 <= p < |Contents(held, seqs)|
    ensures var x, opened' := Locate(Analyze(held, seqs).mappings, p), Stream(held, Opened(held, plain), seqs);
            x.Some? && 0 <= x.value < |opened'| && opened'[x.value] == Contents(held, seqs)[p]
  {
    hide Tiles, Increasing, Redacted, Analyze, Contents, Stream, Opened, Decrypted, AllUsable, Locate;
    AnalysisLaidOut(held, plain, seqs);
    var a := Analyze(held, seqs);
    var i := TileOf(a.mappings, |a.content|, p, |a.mappings|);
    LocateTiled(a.mappings, |a.content|, i, p);
    assert Decodes(a.mappings[i], a.content, Stream(held, Opened(held, plain), seqs));
    SlicesAt(a.content, Stream(held, Opened(held, plain), seqs), a.mappings[i], p);
  }

  lemma {:induction false} SlicesAt(content: Bytes, opened': Bytes, m: Mapping, p: int)
    requires Decodes(m, content, opened') && Holds(m, p)
    ensures opened'[m.tlsPos + (p - m.httpPos)] == content[p]
  {
    var k := p - m.httpPos;
    assert content[m.httpPos..m.httpPos + m.length][k] == content[p];
    assert opened'[m.tlsPos..m.tlsPos + m.length][k] == opened'[m.tlsPos + k];
  }
}
