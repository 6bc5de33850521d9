/** The redaction specification of a response (client/redaction.go, shared/types.go). */
module Redaction {
  import opened Results
  import opened BigEndian
  import opened Coordinates
  import opened CoordinateTheorems
  import opened Positions

  predicate Inside(r: Range, x: int) {
    r.start <= x < r.start + r.length
  }

  function Interval(r: Range): set<int> {
    set x | r.start <= x < r.start + r.length && Inside(r, x)
  }

  /** The positions that ranges with one hash kind cover. */
  function Cover(r: seq<Range>, hash: string): set<int> {
    if r == [] then {}
    else Cover(r[..|r| - 1], hash) + if r[|r| - 1].hash == hash then Interval(r[|r| - 1]) else {}
  }

  function MapAll(http: seq<Range>, m: seq<Mapping>): seq<Range> {
    if http == [] then [] else
      var r := http[|http| - 1];
      MapAll(http[..|http| - 1], m) + Find(m, r.start, r.start + r.length)
  }

  method MapHTTPToTLSRedactions(httpRanges: seq<Range>, mappings: seq<Mapping>) returns (tlsRanges: seq<Range>)
    ensures tlsRanges == MapAll(httpRanges, mappings)
  {
    tlsRanges := [];
    for i := 0 to |httpRanges|
      invariant tlsRanges == MapAll(httpRanges[..i], mappings)
    {
      var positions := FindTLSPositions(httpRanges[i].start, httpRanges[i].length, mappings);
      tlsRanges := tlsRanges + positions;
      assert httpRanges[..i + 1][..i] == httpRanges[..i];
    }
    assert httpRanges[..|httpRanges|] == httpRanges;
  }

  // Consolidation

  ghost predicate ByStart(r: seq<Range>) {
    forall i, j :: 0 <= i < j < |r| ==> r[i].start <= r[j].start
  }

  /** The second range begins beyond the first, unless they differ in hash kind. */
  predicate Gap(a: Range, b: Range) {
    a.hash == b.hash ==> a.start + a.length < b.start
  }

  /** Neighbours of one hash kind neither overlap nor touch. */
  ghost predicate Separated(r: seq<Range>) {
    forall i, j :: 0 <= i < |r| && j == i + 1 && j < |r| ==> Gap(r[i], r[j])
  }

  lemma {:induction false} SeparatedSnoc(r: seq<Range>, x: Range)
    ensures Separated(r + [x]) <==> Separated(r) && (r == [] || Gap(r[|r| - 1], x))
  {
    hide Gap;
    var w := r + [x];
    if Separated(w) {
      forall i, j | 0 <= i < |r| && j == i + 1 && j < |r|
        ensures Gap(r[i], r[j])
      {
        assert Gap(w[i], w[j]);
      }
      if r != [] { assert Gap(w[|r| - 1], w[|r|]); }
    }
  }

  lemma {:induction false} CoverSnoc(r: seq<Range>, x: Range, hash: string)
    ensures Cover(r + [x], hash) == Cover(r, hash) + if x.hash == hash then Interval(x) else {}
  {
    assert (r + [x])[..|r|] == r;
  }

  /** Joining overlapping neighbours covers the same positions. */
  lemma {:induction false} JoinCovers(r: seq<Range>, a: Range, b: Range, hash: string)
    requires a.hash == b.hash && a.start <= b.start <= a.start + a.length
    ensures var joined := Range(a.start, Max(a.start + a.length, b.start + b.length) - a.start, a.hash);
            Cover(r + [joined], hash) == Cover(r + [a] + [b], hash)
  {
    hide Cover;
    var joined := Range(a.start, Max(a.start + a.length, b.start + b.length) - a.start, a.hash);
    CoverSnoc(r, joined, hash);
    CoverSnoc(r, a, hash);
    CoverSnoc(r + [a], b, hash);
    assert Interval(joined) == Interval(a) + Interval(b);
  }

  lemma {:induction false} CoverStep(w: seq<Range>, v: seq<Range>, x: Range, hash: string)
    requires Cover(w, hash) == Cover(v, hash)
    ensures Cover(w + [x], hash) == Cover(v + [x], hash)
  {
    CoverSnoc(w, x, hash);
    CoverSnoc(v, x, hash);
  }

  lemma {:induction false} CoverMember(r: seq<Range>, hash: string, x: int)
    ensures x in Cover(r, hash) <==> exists e <- r :: e.hash == hash && x in Interval(e)
    decreases |r|
  {
    if r != [] {
      var last := r[|r| - 1];
      CoverMember(r[..|r| - 1], hash, x);
      assert r == r[..|r| - 1] + [last];
    }
  }

  lemma {:induction false} CoverOfMultiset(a: seq<Range>, b: seq<Range>, hash: string)
    requires multiset(a) == multiset(b)
    ensures Cover(a, hash) == Cover(b, hash)
  {
    hide Cover, Interval;
    forall x
      ensures x in Cover(a, hash) <==> x in Cover(b, hash)
    {
      CoverMember(a, hash, x);
      CoverMember(b, hash, x);
      assert forall e :: e in a <==> e in multiset(a);
      assert forall e :: e in b <==> e in multiset(b);
    }
  }

  ghost predicate SameCover(a: seq<Range>, b: seq<Range>) {
    forall hash: string :: Cover(a, hash) == Cover(b, hash)
  }

  /** The loop's invariant: what is built so far stands for what was read so far. */
  ghost predicate Building(consolidated: seq<Range>, current: Range, sorted: seq<Range>, i: nat)
    requires i <= |sorted|
  {
    && SameCover(consolidated + [current], sorted[..i])
    && ByStart(consolidated + [current]) && Separated(consolidated + [current])
    && (forall j :: i <= j < |sorted| ==> current.start <= sorted[j].start)
  }

  /** The shape of the list depends only on the start and the kind of its last range. */
  lemma {:induction false} LastMayGrow(r: seq<Range>, a: Range, b: Range)
    requires ByStart(r + [a]) && Separated(r + [a]) && a.start == b.start && a.hash == b.hash
    ensures ByStart(r + [b]) && Separated(r + [b])
  {
    hide Separated;
    SeparatedSnoc(r, a);
    SeparatedSnoc(r, b);
    var was, now := r + [a], r + [b];
    forall i, j | 0 <= i < j < |now|
      ensures now[i].start <= now[j].start
    {
      assert was[i].start <= was[j].start;
    }
  }

  lemma {:induction false} BuildJoin(consolidated: seq<Range>, current: Range, sorted: seq<Range>, i: nat)
    requires i < |sorted| && ByStart(sorted) && Building(consolidated, current, sorted, i)
    requires current.hash == sorted[i].hash && current.start + current.length >= sorted[i].start
    ensures var next := sorted[i];
            var joined := current.(length := Max(current.start + current.length, next.start + next.length) - current.start);
            Building(consolidated, joined, sorted, i + 1)
  {
    hide ByStart, Separated;
    assert forall j :: i <= j < |sorted| ==> current.start <= sorted[j].start;
    var next := sorted[i];
    var joined := current.(length := Max(current.start + current.length, next.start + next.length) - current.start);
    assert SameCover(consolidated + [joined], sorted[..i + 1]) by {
      hide Cover;
      assert sorted[..i + 1] == sorted[..i] + [next];
      forall hash: string
        ensures Cover(consolidated + [joined], hash) == Cover(sorted[..i + 1], hash)
      {
        JoinCovers(consolidated, current, next, hash);
        CoverStep(consolidated + [current], sorted[..i], next, hash);
      }
    }
    LastMayGrow(consolidated, current, joined);
  }

  lemma {:induction false} BuildNext(consolidated: seq<Range>, current: Range, sorted: seq<Range>, i: nat)
    requires i < |sorted| && ByStart(sorted) && Building(consolidated, current, sorted, i)
    requires !(current.hash == sorted[i].hash && current.start + current.length >= sorted[i].start)
    ensures Building(consolidated + [current], sorted[i], sorted, i + 1)
  {
    var was, next := consolidated + [current], sorted[i];
    assert SameCover(was + [next], sorted[..i + 1]) by {
      hide Cover;
      assert sorted[..i + 1] == sorted[..i] + [next];
      forall hash: string
        ensures Cover(was + [next], hash) == Cover(sorted[..i + 1], hash)
      {
        CoverStep(was, sorted[..i], next, hash);
      }
    }
    assert was[|was| - 1] == current;
  }

  /** `sorted` is the argument after the standard library has sorted it by start. */
  method ConsolidateResponseRedactionRanges(ranges: seq<Range>, sorted: seq<Range>) returns (consolidated: seq<Range>)
    requires multiset(sorted) == multiset(ranges) && ByStart(sorted)
    ensures SameCover(consolidated, ranges)
    ensures ByStart(consolidated) && Separated(consolidated)
    ensures ranges != [] ==> consolidated != []
  {
    hide Cover, ByStart, Separated, SameCover, Building;
    assert |sorted| == |ranges| by {
      assert |multiset(sorted)| == |multiset(ranges)|;
    }
    if |sorted| == 0 {
      Nothing();
      return [];
    }
    consolidated := [];
    var current := sorted[0];
    BuildStart(sorted);
    for i := 1 to |sorted|
      invariant Building(consolidated, current, sorted, i)
    {
      var next := sorted[i];
      if current.hash == next.hash && current.start + current.length >= next.start {
        BuildJoin(consolidated, current, sorted, i);
        current := current.(length := Max(current.start + current.length, next.start + next.length) - current.start);
      } else {
        BuildNext(consolidated, current, sorted, i);
        consolidated := consolidated + [current];
        current := next;
      }
    }
    BuildEnd(consolidated, current, sorted, ranges);
    consolidated := consolidated + [current];
  }

  lemma {:induction false} Nothing()
    ensures SameCover([], []) && ByStart([]) && Separated([])
  {}

  lemma {:induction false} BuildStart(sorted: seq<Range>)
    requires sorted != [] && ByStart(sorted)
    ensures Building([], sorted[0], sorted, 1)
  {
    assert [] + [sorted[0]] == sorted[..1];
  }

  lemma {:induction false} BuildEnd(consolidated: seq<Range>, current: Range, sorted: seq<Range>, ranges: seq<Range>)
    requires multiset(sorted) == multiset(ranges) && Building(consolidated, current, sorted, |sorted|)
    ensures var out := consolidated + [current]; SameCover(out, ranges) && ByStart(out) && Separated(out)
  {
    hide Cover;
    assert sorted[..|sorted|] == sorted;
    forall hash: string
      ensures Cover(consolidated + [current], hash) == Cover(ranges, hash)
    {
      CoverOfMultiset(sorted, ranges, hash);
    }
  }

  // The bytes reported as redacted are counted once each

  lemma {:induction false} IntervalSize(r: Range, n: nat)
    requires n <= r.length
    ensures |Interval(Range(r.start, n, r.hash))| == n
    decreases n
  {
    if n > 0 {
      IntervalSize(r, n - 1);
      assert Interval(Range(r.start, n, r.hash)) == Interval(Range(r.start, n - 1, r.hash)) + {r.start + n - 1};
    }
  }

  lemma {:induction false} CoverBelow(r: seq<Range>, hash: string, bound: int)
    requires Separated(r) && (forall i :: 0 <= i < |r| ==> r[i].length >= 0 && r[i].hash == hash)
    requires r != [] ==> r[|r| - 1].start + r[|r| - 1].length < bound
    ensures forall x <- Cover(r, hash) :: x < bound
    decreases |r|
  {
    if r != [] {
      var last := r[|r| - 1];
      if |r| > 1 { assert r[|r| - 2].hash == r[|r| - 1].hash; }
      CoverBelow(r[..|r| - 1], hash, last.start);
    }
  }

  /** So the byte counts that are logged are counts of distinct stream positions. */
  lemma {:induction false} CountCovered(r: seq<Range>, hash: string)
    requires Separated(r) && forall i :: 0 <= i < |r| ==> r[i].length >= 0 && r[i].hash == hash
    ensures |Cover(r, hash)| == TotalLength(r)
    decreases |r|
  {
    if r != [] {
      var last := r[|r| - 1];
      var before := r[..|r| - 1];
      CountCovered(before, hash);
      if |r| > 1 { assert r[|r| - 2].hash == r[|r| - 1].hash; }
      CoverBelow(before, hash, last.start);
      assert Cover(before, hash) !! Interval(last);
      IntervalSize(last, last.length);
    }
  }

  // Exactly the requested bytes are redacted

  ghost predicate Asked(http: seq<Range>, p: int) {
    exists i :: 0 <= i < |http| && http[i].start <= p < http[i].start + http[i].length
  }

  lemma {:induction false} RunMember(start: int, n: int, x: int)
    ensures x in Run(start, n) <==> start <= x < start + n
    decreases n
  {
    if n > 0 { RunMember(start, n - 1, x); }
  }

  lemma {:induction false} CoverIsExpand(r: seq<Range>, x: int)
    requires forall i :: 0 <= i < |r| ==> r[i].hash == ""
    ensures x in Cover(r, "") <==> x in Expand(r)
    decreases |r|
  {
    if r != [] {
      CoverIsExpand(r[..|r| - 1], x);
      RunMember(r[|r| - 1].start, r[|r| - 1].length, x);
    }
  }

  lemma {:induction false} ImageMember(m: seq<Mapping>, total: nat, lo: int, hi: int, p: int)
    requires MapsUp(m, total) && 0 <= lo && hi <= total && 0 <= p < total
    ensures At(m, p) in Image(m, lo, hi) <==> lo <= p < hi
    decreases hi - lo
  {
    if lo < hi {
      ImageMember(m, total, lo, hi - 1, p);
      if p < hi - 1 { assert At(m, p) < At(m, hi - 1); }
      if hi - 1 < p { assert At(m, hi - 1) < At(m, p); }
    }
  }

  lemma {:induction false} FindPlain(m: seq<Mapping>, start: int, end: int)
    ensures forall i :: 0 <= i < |Find(m, start, end)| ==> Find(m, start, end)[i].hash == ""
    decreases |m|
  {
    if m != [] { FindPlain(m[..|m| - 1], start, end); }
  }

  lemma {:induction false} CoverAppend(a: seq<Range>, b: seq<Range>, hash: string)
    ensures Cover(a + b, hash) == Cover(a, hash) + Cover(b, hash)
    decreases |b|
  {
    if b == [] {
      assert a + b == a;
    } else {
      var last := b[|b| - 1];
      CoverAppend(a, b[..|b| - 1], hash);
      assert a + b == (a + b[..|b| - 1]) + [last];
      CoverSnoc(a + b[..|b| - 1], last, hash);
    }
  }

  lemma {:induction false} MappedCover(http: seq<Range>, m: seq<Mapping>, total: nat, p: int)
    requires Tiles(m, total) && MapsUp(m, total) && 0 <= p < total
    ensures At(m, p) in Cover(MapAll(http, m), "") <==> Asked(http, p)
    decreases |http|
  {
    hide Tiles, MapsUp, Find, Cover, Expand, Image, At;
    if http == [] {
      CoverNone();
    } else {
      var r, rest := http[|http| - 1], http[..|http| - 1];
      var found := Find(m, r.start, r.start + r.length);
      MappedCover(rest, m, total, p);
      CoverAppend(MapAll(rest, m), found, "");
      FindPlain(m, r.start, r.start + r.length);
      CoverIsExpand(found, At(m, p));
      FindIsImage(m, total, r.start, r.length);
      ImageMember(m, total, Max(r.start, 0), Min(r.start + r.length, total), p);
      AskedStep(http, p);
    }
  }

  lemma {:induction false} CoverNone()
    ensures Cover([], "") == {}
  {}

  lemma {:induction false} AskedStep(http: seq<Range>, p: int)
    requires http != []
    ensures var r := http[|http| - 1];
            Asked(http, p) <==> Asked(http[..|http| - 1], p) || r.start <= p < r.start + r.length
  {
    var rest := http[..|http| - 1];
    forall i | 0 <= i < |rest| ensures rest[i] == http[i] {}
    if Asked(http, p) {
      var i :| 0 <= i < |http| && http[i].start <= p < http[i].start + http[i].length;
      if i < |rest| { assert rest[i].start <= p < rest[i].start + rest[i].length; }
    }
  }

  lemma {:induction false} ProtocolElsewhere(a: Analysis, stream: Bytes, i: nat, p: int)
    requires Redacted(a) && Tiles(a.mappings, |a.content|) && i < |a.mappings| && Holds(a.mappings[i], p)
    requires Placed(a.mappings[i], stream)
    ensures At(a.mappings, p) !in Cover(a.redactions, "")
  {
    hide Cover, Tiles, Locate;
    LocateTiled(a.mappings, |a.content|, i, p);
    var x := At(a.mappings, p);
    forall e <- a.redactions
      ensures x !in Interval(e)
    {
      var k :| 0 <= k < |a.redactions| && a.redactions[k] == e;
      assert Apart(a.redactions[k], a.mappings[i]);
    }
    CoverMember(a.redactions, "", x);
  }

  /**
   For every response and every list of HTTP redactions, an HTTP byte's place in the stream is
   redacted by the consolidated specification exactly when the byte was asked for.
   */
  lemma {:induction false} RedactsExactly(held: Held, plain: map<nat, Bytes>, seqs: seq<nat>, http: seq<Range>,
                                          spec: seq<Range>, p: int)
    requires Decrypted(held, plain) && AllUsable(held, seqs)
    requires var a := Analyze(held, seqs); SameCover(spec, a.redactions + MapAll(http, a.mappings))
    requires 0 <= p < |Contents(held, seqs)|
    ensures At(Analyze(held, seqs).mappings, p) in Cover(spec, "") <==> Asked(http, p)
  {
    hide Tiles, Increasing, Redacted, Placed, Decodes, Analyze, Contents, Stream, Opened, Sound, Usable, Cover, Asked, MapAll, MapsUp, At, Holds;
    AnalysisLaidOut(held, plain, seqs);
    var a := Analyze(held, seqs);
    var stream := Stream(held, held.cipher, seqs);
    var i := TileOf(a.mappings, |a.content|, p, |a.mappings|);
    assert a.mappings[i] in a.mappings;
    ProtocolElsewhere(a, stream, i, p);
    MappingsShort(a.mappings, stream);
    AtIncreases(a.mappings, |a.content|);
    MappedCover(http, a.mappings, |a.content|, p);
    CoverAppend(a.redactions, MapAll(http, a.mappings), "");
  }

  lemma {:induction false} MappingsShort(m: seq<Mapping>, stream: Bytes)
    requires forall x <- m :: Placed(x, stream)
    ensures forall i :: 0 <= i < |m| ==> m[i].length <= |m[i].ciphertext|
  {
    forall i | 0 <= i < |m| ensures m[i].length <= |m[i].ciphertext| {
      assert m[i] in m;
    }
  }
}
