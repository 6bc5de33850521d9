/** HTTP content and consolidated stream are laid out as the redaction code assumes. */
module CoordinateTheorems {
  import opened Results
  import opened Words
  import opened BigEndian
  import opened Coordinates

  // Reference layouts

  /** The HTTP content: application data of the records, in order. */
  function Contents(held: Held, seqs: seq<nat>): Bytes
    requires AllUsable(held, seqs)
  {
    if seqs == [] then [] else
      var n := seqs[|seqs| - 1];
      Contents(held, seqs[..|seqs| - 1]) +
      if held.parsed[n].contentType == APPLICATION_DATA then held.parsed[n].content else []
  }

  /** The consolidated stream: one byte string per carried record, in order. */
  function Stream(held: Held, bytes: map<nat, Bytes>, seqs: seq<nat>): Bytes
    requires AllUsable(held, seqs) && held.parsed.Keys <= bytes.Keys
  {
    if seqs == [] then [] else
      var n := seqs[|seqs| - 1];
      Stream(held, bytes, seqs[..|seqs| - 1]) + if Carried(held, n) then bytes[n] else []
  }

  /** What the carried ciphertext decrypts to. */
  function Opened(held: Held, plain: map<nat, Bytes>): (o: map<nat, Bytes>)
    requires Decrypted(held, plain)
    ensures held.parsed.Keys <= o.Keys
  {
    map n | n in held.parsed :: plain[n][..|held.cipher[n]|]
  }

  // What the analysis promises

  function HttpAt(m: seq<Mapping>, i: nat, total: nat): nat {
    if i < |m| then m[i].httpPos else total
  }

  /** The mappings cut the HTTP content into adjacent pieces, leaving nothing out. */
  ghost predicate Tiles(m: seq<Mapping>, total: nat) {
    HttpAt(m, 0, total) == 0 && forall i {:trigger m[i]} :: 0 <= i < |m| ==> m[i].httpPos + m[i].length == HttpAt(m, i + 1, total)
  }

  /** Each mapping's ciphertext stands at its stream position and covers the mapped bytes. */
  ghost predicate Placed(m: Mapping, stream: Bytes) {
    m.tlsPos + |m.ciphertext| <= |stream| && m.length <= |m.ciphertext| &&
    stream[m.tlsPos..m.tlsPos + |m.ciphertext|] == m.ciphertext
  }

  /** The mapped HTTP bytes are the plaintext of the mapped stream bytes. */
  ghost predicate Decodes(m: Mapping, content: Bytes, opened': Bytes) {
    m.httpPos + m.length <= |content| && m.tlsPos + m.length <= |opened'| &&
    content[m.httpPos..m.httpPos + m.length] == opened'[m.tlsPos..m.tlsPos + m.length]
  }

  ghost predicate Increasing(m: seq<Mapping>) {
    forall i, j :: 0 <= i < j < |m| ==> m[i].tlsPos + |m[i].ciphertext| <= m[j].tlsPos
  }

  ghost predicate Apart(r: Range, m: Mapping) {
    r.start + r.length <= m.tlsPos || m.tlsPos + |m.ciphertext| <= r.start
  }

  ghost predicate Redacted(a: Analysis) {
    && (forall i | 0 <= i < |a.redactions| :: 0 <= a.redactions[i].start && 0 <= a.redactions[i].length &&
         a.redactions[i].start + a.redactions[i].length <= a.offset)
    && (forall i, j :: 0 <= i < j < |a.redactions| ==> a.redactions[i].start + a.redactions[i].length <= a.redactions[j].start)
    && (forall i, j :: 0 <= i < |a.redactions| && 0 <= j < |a.mappings| ==> Apart(a.redactions[i], a.mappings[j]))
  }

  function MappedBytes(m: seq<Mapping>): nat {
    if m == [] then 0 else MappedBytes(m[..|m| - 1]) + |m[|m| - 1].ciphertext|
  }

  function TotalLength(r: seq<Range>): int {
    if r == [] then 0 else TotalLength(r[..|r| - 1]) + r[|r| - 1].length
  }

  ghost predicate LaidOut(held: Held, plain: map<nat, Bytes>, seqs: seq<nat>, a: Analysis)
    requires Decrypted(held, plain) && AllUsable(held, seqs)
  {
    var stream, opened' := Stream(held, held.cipher, seqs), Stream(held, Opened(held, plain), seqs);
    && a.content == Contents(held, seqs) && a.offset == |stream| == |opened'|
    && Tiles(a.mappings, |a.content|) && Increasing(a.mappings) && Redacted(a)
    && (forall m <- a.mappings :: Placed(m, stream) && Decodes(m, a.content, opened'))
    && MappedBytes(a.mappings) + TotalLength(a.redactions) == a.offset
  }

  // Proof: one record at a time

  lemma {:induction false} PlacedKept(m: Mapping, stream: Bytes, more: Bytes)
    requires Placed(m, stream)
    ensures Placed(m, stream + more)
  {
    assert (stream + more)[m.tlsPos..m.tlsPos + |m.ciphertext|] == stream[m.tlsPos..m.tlsPos + |m.ciphertext|];
  }

  lemma {:induction false} SliceOfSum(s: Bytes, more: Bytes, i: nat, j: nat)
    requires i <= j <= |s|
    ensures (s + more)[i..j] == s[i..j]
  {}

  lemma {:induction false} DecodesKept(m: Mapping, content: Bytes, opened': Bytes, c: Bytes, o: Bytes)
    requires Decodes(m, content, opened')
    ensures Decodes(m, content + c, opened' + o)
  {
    SliceOfSum(content, c, m.httpPos, m.httpPos + m.length);
    SliceOfSum(opened', o, m.tlsPos, m.tlsPos + m.length);
  }

  lemma {:induction false} NewMapping(content: Bytes, stream: Bytes, opened': Bytes, n: nat, c: Bytes, ct: Bytes, o: Bytes)
    requires |c| <= |ct| == |o| && |stream| == |opened'| && c == o[..|c|]
    ensures var m := Mapping(n, |content|, |stream|, |c|, ct);
            Placed(m, stream + ct) && Decodes(m, content + c, opened' + o)
  {
    assert (stream + ct)[|stream|..|stream| + |ct|] == ct;
    assert (content + c)[|content|..|content| + |c|] == c;
    assert (opened' + o)[|stream|..|stream| + |c|] == o[..|c|];
  }

  lemma {:induction false} TilesGrow(m: seq<Mapping>, total: nat, x: Mapping)
    requires Tiles(m, total) && x.httpPos == total
    ensures Tiles(m + [x], total + x.length)
  {
    var w := m + [x];
    forall i | 0 <= i < |w|
      ensures w[i].httpPos + w[i].length == HttpAt(w, i + 1, total + x.length)
    {
      if i < |m| { assert w[i] == m[i]; }
    }
  }

  lemma {:induction false} IncreasingGrow(m: seq<Mapping>, stream: Bytes, x: Mapping)
    requires Increasing(m) && x.tlsPos == |stream| && forall y <- m :: Placed(y, stream)
    ensures Increasing(m + [x])
  {
    var w := m + [x];
    forall i, j | 0 <= i < j < |w|
      ensures w[i].tlsPos + |w[i].ciphertext| <= w[j].tlsPos
    {
      if j == |m| { assert m[i] in m; }
    }
  }

  lemma {:induction false} RedactedMapping(a: Analysis, x: Mapping, c: Bytes)
    requires Redacted(a) && x.tlsPos == a.offset
    ensures Redacted(Analysis(a.redactions, a.mappings + [x], c, a.offset + |x.ciphertext|))
  {}

  lemma {:induction false} RedactedRange(a: Analysis, stream: Bytes, len: nat)
    requires Redacted(a) && |stream| == a.offset && forall y <- a.mappings :: Placed(y, stream)
    ensures Redacted(Analysis(a.redactions + [Range(a.offset, len, "")], a.mappings, a.content, a.offset + len))
  {
    var r := a.redactions + [Range(a.offset, len, "")];
    forall i, j | 0 <= i < |r| && 0 <= j < |a.mappings|
      ensures Apart(r[i], a.mappings[j])
    {
      assert a.mappings[j] in a.mappings;
    }
  }

  lemma {:induction false} MappedGrow(m: seq<Mapping>, x: Mapping)
    ensures MappedBytes(m + [x]) == MappedBytes(m) + |x.ciphertext|
  {
    assert (m + [x])[..|m|] == m;
  }

  lemma {:induction false} TotalGrow(r: seq<Range>, x: Range)
    ensures TotalLength(r + [x]) == TotalLength(r) + x.length
  {
    assert (r + [x])[..|r|] == r;
  }

  lemma {:induction false} PiecesKept(ms: seq<Mapping>, content: Bytes, stream: Bytes, opened': Bytes, c: Bytes, ct: Bytes, o: Bytes)
    requires forall m <- ms :: Placed(m, stream) && Decodes(m, content, opened')
    ensures forall m <- ms :: Placed(m, stream + ct) && Decodes(m, content + c, opened' + o)
  {
    hide Placed, Decodes;
    forall m <- ms
      ensures Placed(m, stream + ct) && Decodes(m, content + c, opened' + o)
    {
      PlacedKept(m, stream, ct);
      DecodesKept(m, content, opened', c, o);
    }
  }

  lemma {:induction false} ProcessKeeps(held: Held, plain: map<nat, Bytes>, seqs: seq<nat>, a: Analysis)
    requires seqs != [] && Decrypted(held, plain) && AllUsable(held, seqs)
    requires LaidOut(held, plain, seqs[..|seqs| - 1], a)
    ensures LaidOut(held, plain, seqs, Process(held, seqs[|seqs| - 1], a))
  {
    hide Placed, Decodes, Tiles, Increasing, Redacted, MappedBytes, TotalLength, Sound;
    var n := seqs[|seqs| - 1];
    var was := seqs[..|seqs| - 1];
    var p, ct, o := held.parsed[n], held.cipher[n], Opened(held, plain)[n];
    var stream, opened' := Stream(held, held.cipher, was), Stream(held, Opened(held, plain), was);
    SoundPiece(held, plain, n);
    if p.contentType == APPLICATION_DATA {
      var x := Mapping(n, |a.content|, a.offset, |p.content|, ct);
      TilesGrow(a.mappings, |a.content|, x);
      IncreasingGrow(a.mappings, stream, x);
      RedactedMapping(a, x, a.content + p.content);
      PiecesKept(a.mappings, a.content, stream, opened', p.content, ct, o);
      NewMapping(a.content, stream, opened', n, p.content, ct, o);
      MappedGrow(a.mappings, x);
    } else if held.suite != Tls12Cbc {
      RedactedRange(a, stream, |ct|);
      PiecesKept(a.mappings, a.content, stream, opened', [], ct, o);
      assert a.content + [] == a.content;
      TotalGrow(a.redactions, Range(a.offset, |ct|, ""));
    } else {
      assert a.content + [] == a.content && stream + [] == stream && opened' + [] == opened';
    }
  }

  lemma {:induction false} SoundPiece(held: Held, plain: map<nat, Bytes>, n: nat)
    requires Decrypted(held, plain) && Usable(held, n)
    ensures var o := Opened(held, plain)[n];
            |held.parsed[n].content| <= |held.cipher[n]| == |o| && held.parsed[n].content == o[..|held.parsed[n].content|]
  {
    assert Sound(held.suite, held.parsed[n], held.cipher[n], plain[n]);
  }

  /** For every response, the analysis lays it out as promised. */
  lemma {:induction false} AnalysisLaidOut(held: Held, plain: map<nat, Bytes>, seqs: seq<nat>)
    requires Decrypted(held, plain) && AllUsable(held, seqs)
    ensures LaidOut(held, plain, seqs, Analyze(held, seqs))
    decreases |seqs|
  {
    if seqs != [] {
      AnalysisLaidOut(held, plain, seqs[..|seqs| - 1]);
      ProcessKeeps(held, plain, seqs, Analyze(held, seqs[..|seqs| - 1]));
    }
  }
}
