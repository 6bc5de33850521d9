/** Random oblivious transfers and their absolute indices (mpc/oprf.go, mpc/index.go). */
module Ots {
  import opened Labels
  import opened Results

  const UINT64: nat := 0x1_0000_0000_0000_0000

  type Index = n: nat | n < UINT64

  datatype SenderOT = SenderOT(r0: Label, r1: Label, index: Index)

  datatype ReceiverOT = ReceiverOT(r: Label, index: Index, choice: bool)

  /** The receiver's label is the sender's label for the receiver's choice. */
  predicate Matches(s: SenderOT, r: ReceiverOT) {
    s.index == r.index && r.r == if r.choice then s.r1 else s.r0
  }

  predicate AllMatch(s: seq<SenderOT>, r: seq<ReceiverOT>) {
    |s| == |r| && forall i :: 0 <= i < |s| ==> Matches(s[i], r[i])
  }

  /** The exclusive end of an index range, unless it would pass the last uint64. */
  function CheckedIndexEnd(start: Index, count: int): (r: Result<Index>)
    ensures r.Ok? <==> 0 <= count && start + count < UINT64
    ensures r.Ok? ==> r.value == start + count
  {
    if count < 0 then Err
    else if count > UINT64 - 1 - start then Err
    else Ok(start + count)
  }

  predicate SenderIndicesFrom(ots: seq<SenderOT>, start: Index) {
    start + |ots| < UINT64 && forall i :: 0 <= i < |ots| ==> ots[i].index == start + i
  }

  predicate ReceiverIndicesFrom(ots: seq<ReceiverOT>, start: Index) {
    start + |ots| < UINT64 && forall i :: 0 <= i < |ots| ==> ots[i].index == start + i
  }

  method ValidateSenderOTIndices(ots: seq<SenderOT>, start: Index) returns (ok: bool)
    ensures ok <==> SenderIndicesFrom(ots, start)
  {
    if CheckedIndexEnd(start, |ots|).Err? {
      return false;
    }
    for i := 0 to |ots|
      invariant forall k :: 0 <= k < i ==> ots[k].index == start + k
    {
      if ots[i].index != start + i {
        return false;
      }
    }
    ok := true;
  }

  method ValidateReceiverOTIndices(ots: seq<ReceiverOT>, start: Index) returns (ok: bool)
    ensures ok <==> ReceiverIndicesFrom(ots, start)
  {
    if CheckedIndexEnd(start, |ots|).Err? {
      return false;
    }
    for i := 0 to |ots|
      invariant forall k :: 0 <= k < i ==> ots[k].index == start + k
    {
      if ots[i].index != start + i {
        return false;
      }
    }
    ok := true;
  }
}
