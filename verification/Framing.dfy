/**
 Cutting a byte stream into TLS records (client/tls.go, client/tcp.go). A record is five
 header bytes, of which the last two give the length of what follows.
 */
module Framing {
  import opened Words
  import opened BigEndian

  function RecordSize(s: Bytes): (n: nat)
    requires |s| >= 5
    ensures n >= 5
  {
    5 + 256 * NatOfByte(s[3]) + NatOfByte(s[4])
  }

  /** A whole record stands at the front. */
  predicate Complete(s: Bytes) {
    |s| >= 5 && |s| >= RecordSize(s)
  }

  /** All whole records from the front. */
  function Records(s: Bytes): seq<Bytes>
    decreases |s|
  {
    if Complete(s) then [s[..RecordSize(s)]] + Records(s[RecordSize(s)..]) else []
  }

  /** What is left over. */
  function Rest(s: Bytes): Bytes
    decreases |s|
  {
    if Complete(s) then Rest(s[RecordSize(s)..]) else s
  }

  function Join(parts: seq<Bytes>): Bytes {
    if parts == [] then [] else parts[0] + Join(parts[1..])
  }

  // The stream does not depend on how it is cut

  lemma {:induction false} SizeKept(a: Bytes, b: Bytes)
    requires |a| >= 5
    ensures RecordSize(a + b) == RecordSize(a)
  {}

  lemma {:induction false} CompleteAppend(a: Bytes, b: Bytes)
    requires Complete(a)
    ensures Complete(a + b) && RecordSize(a + b) == RecordSize(a)
    ensures (a + b)[..RecordSize(a)] == a[..RecordSize(a)]
    ensures (a + b)[RecordSize(a)..] == a[RecordSize(a)..] + b
  {}

  /** Parsing in two steps is parsing at once. */
  lemma {:induction false} SplitAppend(a: Bytes, b: Bytes)
    ensures Records(a + b) == Records(a) + Records(Rest(a) + b)
    ensures Rest(a + b) == Rest(Rest(a) + b)
    decreases |a|
  {
    hide RecordSize;
    if Complete(a) {
      CompleteAppend(a, b);
      var n := RecordSize(a);
      SplitAppend(a[n..], b);
    }
  }

  /** No byte is lost, invented or reordered. */
  lemma {:induction false} Conserved(s: Bytes)
    ensures Join(Records(s)) + Rest(s) == s
    ensures !Complete(Rest(s))
    decreases |s|
  {
    hide RecordSize;
    if Complete(s) {
      var n := RecordSize(s);
      Conserved(s[n..]);
      JoinCons(s[..n], Records(s[n..]));
      assert s == s[..n] + s[n..];
    }
  }

  lemma {:induction false} JoinCons(x: Bytes, rest: seq<Bytes>)
    ensures Join([x] + rest) == x + Join(rest)
  {
    assert ([x] + rest)[1..] == rest;
  }

  /** Everything emitted is one whole record. */
  lemma {:induction false} RecordsAreWhole(s: Bytes)
    ensures forall i :: 0 <= i < |Records(s)| ==> Whole(Records(s)[i])
    decreases |s|
  {
    hide RecordSize, Whole;
    if Complete(s) {
      RecordsAreWhole(s[RecordSize(s)..]);
      FrontIsWhole(s);
    }
  }

  predicate Whole(r: Bytes) {
    Complete(r) && |r| == RecordSize(r)
  }

  lemma {:induction false} FrontIsWhole(s: Bytes)
    requires Complete(s)
    ensures Whole(s[..RecordSize(s)])
  {}

  lemma {:induction false} FrontStep(s: Bytes)
    requires Complete(s)
    ensures RecordSize(s) <= |s|
    ensures Records(s) == [s[..RecordSize(s)]] + Records(s[RecordSize(s)..]) && Rest(s) == Rest(s[RecordSize(s)..])
  {}

  // The buffering framer of tls.go

  class RecordState {
    var buffer: Bytes
    var expectedSize: nat

    constructor ()
      ensures Valid() && buffer == []
    {
      buffer, expectedSize := [], 0;
    }

    /** A remembered size belongs to the record at the front. */
    ghost predicate Valid()
      reads this
    {
      expectedSize != 0 ==> |buffer| >= 5 && expectedSize == RecordSize(buffer)
    }

    method ProcessTLSRecordFromData(data: Bytes) returns (records: seq<Bytes>)
      requires Valid()
      modifies this
      ensures Valid()
      ensures records == Records(old(buffer) + data) && buffer == Rest(old(buffer) + data)
    {
      hide RecordSize, Records, Rest;
      if |buffer| >= 5 { SizeKept(buffer, data); }
      buffer := buffer + data;
      ghost var all := buffer;
      records := [];
      while |buffer| >= 5
        invariant Valid()
        invariant records + Records(buffer) == Records(all) && Rest(buffer) == Rest(all)
        decreases |buffer|
      {
        assert expectedSize == 0 || expectedSize == RecordSize(buffer);
        if expectedSize == 0 {
          expectedSize := SizeOfHeader(buffer);
        }
        if |buffer| >= expectedSize {
          var record := buffer[..expectedSize];
          FrontStep(buffer);
          buffer := buffer[expectedSize..];
          expectedSize := 0;
          records := records + [record];
        } else {
          break;
        }
      }
      Unfinished(buffer);
    }
  }

  method SizeOfHeader(buffer: Bytes) returns (n: nat)
    requires |buffer| >= 5
    ensures n == RecordSize(buffer)
  {
    n := 5 + (256 * NatOfByte(buffer[3]) + NatOfByte(buffer[4]));
  }

  // The framing loop of tcp.go

  method FramePackets(pending: Bytes, chunk: Bytes) returns (packets: seq<Bytes>, rest: Bytes)
    ensures packets == Records(pending + chunk) && rest == Rest(pending + chunk)
  {
    hide RecordSize, Records, Rest;
    var data := pending + chunk;
    packets, rest := [], [];
    Unfinished([]);
    var offset := 0;
    assert data[0..] == data && [] + Records(data) == Records(data);
    while offset < |data|
      invariant 0 <= offset <= |data|
      invariant packets + Records(data[offset..]) == Records(data) && Rest(data[offset..]) == Rest(data)
      decreases |data| - offset
    {
      ghost var tail := data[offset..];
      if offset + 5 > |data| {
        rest := data[offset..];
        Unfinished(tail);
        assert packets + [] == packets;
        return;
      }
      var fullLength := SizeOfHeader(data[offset..]);
      if offset + fullLength > |data| {
        rest := data[offset..];
        Unfinished(tail);
        assert packets + [] == packets;
        return;
      }
      FrontStep(tail);
      assert tail[..fullLength] == data[offset..offset + fullLength];
      assert tail[fullLength..] == data[offset + fullLength..];
      packets := packets + [data[offset..offset + fullLength]];
      offset := offset + fullLength;
    }
    assert data[offset..] == [] && packets + [] == packets;
  }

  // Whole runs

  /** Feeding chunks one after another, each on top of what the last one left. */
  function Fed(rest: Bytes, chunks: seq<Bytes>): (seq<Bytes>, Bytes)
    decreases |chunks|
  {
    if chunks == [] then ([], rest) else
      var (records, last) := Fed(Rest(rest + chunks[0]), chunks[1..]);
      (Records(rest + chunks[0]) + records, last)
  }

  /** However a stream is cut into reads, the same records come out and the same bytes stay. */
  lemma {:induction false} FragmentationIndependent(rest: Bytes, chunks: seq<Bytes>)
    requires !Complete(rest)
    ensures Fed(rest, chunks) == (Records(rest + Join(chunks)), Rest(rest + Join(chunks)))
    decreases |chunks|
  {
    hide Complete, Records, Rest;
    if chunks == [] {
      assert rest + Join(chunks) == rest;
      Unfinished(rest);
    } else {
      var now := rest + chunks[0];
      Conserved(now);
      FragmentationIndependent(Rest(now), chunks[1..]);
      SplitAppend(now, Join(chunks[1..]));
      assert rest + Join(chunks) == now + Join(chunks[1..]);
    }
  }

  lemma {:induction false} Unfinished(s: Bytes)
    requires !Complete(s)
    ensures Records(s) == [] && Rest(s) == s
  {}

  lemma {:induction false} WholeRecord(p: Bytes)
    requires Whole(p)
    ensures Records(p) == [p] && Rest(p) == []
  {
    assert p[..|p|] == p && p[|p|..] == [];
    Unfinished(p[|p|..]);
  }

  /** After the handshake the packets pass through the second framer unchanged. */
  lemma {:induction false} FramersCompose(packets: seq<Bytes>)
    requires forall i :: 0 <= i < |packets| ==> Whole(packets[i])
    ensures Fed([], packets) == (packets, [])
    decreases |packets|
  {
    hide Whole, Records, Rest;
    if packets != [] {
      var p := packets[0];
      WholeRecord(p);
      assert [] + p == p;
      FramersCompose(packets[1..]);
      assert packets == [p] + packets[1..];
    }
  }

  /** A record as the TLS standard lays it out: type, version, two length bytes, fragment. */
  function Encoded(kind: Byte, version: Bytes, body: Bytes): Bytes
    requires |version| == 2
  {
    [kind] + version + PutUint(|body|, 2) + body
  }

  lemma {:induction false} EncodedIsWhole(kind: Byte, version: Bytes, body: Bytes)
    requires |version| == 2 && |body| < 0x1_0000
    ensures Whole(Encoded(kind, version, body))
  {
    hide NatOfByte, ByteOfNat;
    var s := Encoded(kind, version, body);
    assert PutUint(|body| / 256, 1) == PutUint(0, 0) + [ByteOfNat(|body| / 256)];
    assert s[3] == ByteOfNat(|body| / 256) && s[4] == ByteOfNat(|body| % 256);
    ByteRoundTrip(|body| / 256, ZERO8);
    ByteRoundTrip(|body| % 256, ZERO8);
  }
}
