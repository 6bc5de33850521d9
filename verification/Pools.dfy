/**
 The single-use OT pools of the two parties (mpc/pool.go).

 Each pool is an object that drops consumed entries from its front. Its ghost table is
 what a caller may think the pool is: every entry added since the last clear, never
 moved, and which of them are spent. Compaction never shows in the table.
 */
module Pools {
  import opened Labels
  import opened Results
  import opened Ots

  const OT_POOL_WATERMARK: nat := 50_000

  const NO_SENDER_OT := SenderOT(NONE, NONE, 0)
  const NO_RECEIVER_OT := ReceiverOT(NONE, 0, false)

  // The tables

  datatype SenderTable = SenderTable(added: seq<SenderOT>, next: nat)

  datatype ReceiverTable = ReceiverTable(added: seq<ReceiverOT>, spent: set<nat>, highWater: nat)

  /** The indices from `start` up to `end`. */
  function Range(start: nat, end: nat): (r: set<nat>)
    ensures forall i: nat :: i in r <==> start <= i < end
    decreases end
  {
    if start >= end then {} else Range(start, end - 1) + {end - 1}
  }

  /** `clear(s[from:to])` */
  function Wipe<T>(s: seq<T>, from: nat, to: nat, zero: T): (r: seq<T>)
    requires from <= to <= |s|
    ensures |r| == |s|
    ensures forall k :: 0 <= k < |s| ==> r[k] == if from <= k < to then zero else s[k]
  {
    seq(|s|, k requires 0 <= k < |s| => if from <= k < to then zero else s[k])
  }

  ghost predicate SenderAddOk(t: SenderTable, entries: seq<SenderOT>) {
    |t.added| < UINT64 && SenderIndicesFrom(entries, |t.added|)
  }

  ghost predicate ReserveOk(t: SenderTable, count: int) {
    count > 0 && t.next + count <= |t.added|
  }

  ghost predicate ReceiverAddOk(t: ReceiverTable, entries: seq<ReceiverOT>) {
    |t.added| < UINT64 && ReceiverIndicesFrom(entries, |t.added|)
  }

  /** A range can be consumed when it is nonempty, wholly added and wholly unspent. */
  ghost predicate ConsumeOk(t: ReceiverTable, start: nat, count: int) {
    count > 0 && start + count <= |t.added| && Range(start, start + count) !! t.spent
  }

  ghost predicate AdvanceOk(t: ReceiverTable, next: nat) {
    t.highWater <= next <= |t.added|
  }

  function Max(a: nat, b: nat): nat {
    if a < b then b else a
  }

  ghost function AfterConsume(t: ReceiverTable, start: nat, count: nat): ReceiverTable {
    t.(spent := t.spent + Range(start, start + count), highWater := Max(t.highWater, start + count))
  }

  ghost function AfterAdvance(t: ReceiverTable, next: nat): ReceiverTable {
    t.(spent := t.spent + Range(0, next), highWater := next)
  }

  lemma {:induction false} RangeSize(start: nat, end: nat)
    requires start <= end
    ensures |Range(start, end)| == end - start
    decreases end
  {
    if start < end {
      RangeSize(start, end - 1);
      OneMore(Range(start, end - 1), end - 1);
    }
  }

  lemma {:induction false} OneMore(s: set<nat>, x: nat)
    requires x !in s
    ensures |s + {x}| == |s| + 1
  {}

  // The garbler's pool

  class SenderPool {
    var entries: seq<SenderOT>
    var baseIndex: Index
    var nextIndex: Index
    ghost var table: SenderTable

    constructor ()
      ensures Valid() && table == SenderTable([], 0)
    {
      entries, baseIndex, nextIndex, table := [], 0, 0, SenderTable([], 0);
    }

    ghost predicate Valid()
      reads this
    {
      && baseIndex + |entries| == |table.added| < UINT64
      && baseIndex <= nextIndex == table.next <= |table.added|
      && SenderIndicesFrom(table.added, 0)
      && (forall k :: 0 <= k < |entries| && baseIndex + k >= nextIndex ==> entries[k] == table.added[baseIndex + k])
    }

    method TotalLocked() returns (r: Result<Index>)
      requires Valid()
      ensures r == Ok(|table.added|)
    {
      var total := CheckedIndexEnd(baseIndex, |entries|);
      if total.Err? || nextIndex < baseIndex || nextIndex > total.value {
        return Err;
      }
      r := total;
    }

    method Add(batch: seq<SenderOT>) returns (ok: bool)
      requires Valid()
      modifies this
      ensures Valid()
      ensures ok <==> old(SenderAddOk(table, batch))
      ensures table == if ok then old(table).(added := old(table).added + batch) else old(table)
    {
      var start := TotalLocked();
      if start.Err? || CheckedIndexEnd(start.value, |batch|).Err? {
        return false;
      }
      ok := ValidateSenderOTIndices(batch, start.value);
      if ok {
        entries := entries + batch;
        table := table.(added := table.added + batch);
      }
    }

    /** Takes the next `count` entries, in index order, and compacts. */
    method Reserve(count: int) returns (r: Result<(Index, seq<SenderOT>)>)
      requires Valid()
      modifies this
      ensures Valid()
      ensures r.Ok? <==> old(ReserveOk(table, count))
      ensures r.Ok? ==>
                && r.value.0 == old(table).next
                && r.value.1 == old(table).added[old(table).next..old(table).next + count]
                && table == old(table).(next := old(table).next + count)
      ensures r.Err? ==> table == old(table)
    {
      if count <= 0 {
        return Err;
      }
      if nextIndex < baseIndex {
        return Err;
      }
      var total := TotalLocked();
      var end := CheckedIndexEnd(nextIndex, count);
      if total.Err? || end.Err? {
        return Err;
      }
      if end.value > total.value {
        return Err;
      }
      var start := nextIndex;
      var offset := start - baseIndex;
      var result := entries[offset..offset + count];
      assert result == table.added[start..start + count];
      entries := Wipe(entries, offset, offset + count, NO_SENDER_OT);
      nextIndex := end.value;
      table := table.(next := end.value);
      CompactConsumed();
      r := Ok((start, result));
    }

    method CompactConsumed()
      requires Valid()
      modifies this
      ensures Valid() && table == old(table)
    {
      var consumed := nextIndex - baseIndex;
      if consumed < OT_POOL_WATERMARK && consumed < |entries| / 2 {
        return;
      }
      entries := entries[consumed..];
      baseIndex := nextIndex;
    }

    method Clear()
      modifies this
      ensures Valid() && table == SenderTable([], 0)
    {
      entries, baseIndex, nextIndex := [], 0, 0;
      table := SenderTable([], 0);
    }

    method Available() returns (n: nat)
      requires Valid()
      ensures n == |table.added| - table.next
    {
      var total := TotalLocked();
      n := total.value - nextIndex;
    }

    method TotalCount() returns (n: nat)
      requires Valid()
      ensures n == |table.added|
    {
      var total := TotalLocked();
      n := total.value;
    }

    method NextIndex() returns (n: nat)
      requires Valid()
      ensures n == table.next
    {
      n := nextIndex;
    }
  }

  // The evaluator's pool

  /** Retained slots agree with the table; everything before them is spent. */
  ghost predicate SlotsAgree(entries: seq<ReceiverOT>, used: seq<bool>, base: nat, t: ReceiverTable) {
    && |used| == |entries| && base + |entries| == |t.added|
    && (forall k :: 0 <= k < |used| ==> (used[k] <==> base + k in t.spent))
    && (forall k :: 0 <= k < |used| && !used[k] ==> entries[k] == t.added[base + k])
    && (forall i: nat :: i < base ==> i in t.spent)
  }

  ghost predicate TableOk(t: ReceiverTable) {
    && t.highWater <= |t.added| < UINT64
    && (forall i :: i in t.spent ==> i < t.highWater)
    && ReceiverIndicesFrom(t.added, 0)
  }

  lemma {:induction false} AddKeeps(entries: seq<ReceiverOT>, used: seq<bool>, base: nat, t: ReceiverTable, batch: seq<ReceiverOT>)
    requires SlotsAgree(entries, used, base, t) && TableOk(t) && ReceiverAddOk(t, batch)
    ensures var t' := t.(added := t.added + batch);
            SlotsAgree(entries + batch, used + seq(|batch|, _ => false), base, t') && TableOk(t')
  {
    var t' := t.(added := t.added + batch);
    var used' := used + seq(|batch|, _ => false);
    forall k | 0 <= k < |used'|
      ensures used'[k] <==> base + k in t'.spent
      ensures !used'[k] ==> (entries + batch)[k] == t'.added[base + k]
    {
      assert k >= |used| ==> base + k >= t.highWater;
    }
  }

  lemma {:induction false} ConsumeKeeps(t: ReceiverTable, start: nat, count: nat)
    requires TableOk(t) && ConsumeOk(t, start, count)
    ensures TableOk(AfterConsume(t, start, count))
    ensures |AfterConsume(t, start, count).spent| == |t.spent| + count
  {
    RangeSize(start, start + count);
  }

  lemma {:induction false} ConsumeSlots(entries: seq<ReceiverOT>, used: seq<bool>, entries': seq<ReceiverOT>, used': seq<bool>,
                                        base: nat, t: ReceiverTable, start: nat, count: nat)
    requires SlotsAgree(entries, used, base, t) && |used'| == |entries'| == |entries|
    requires forall k :: 0 <= k < |used| ==> used'[k] == (used[k] || start <= base + k < start + count)
    requires forall k :: 0 <= k < |used| && !used'[k] ==> entries'[k] == entries[k]
    ensures SlotsAgree(entries', used', base, AfterConsume(t, start, count))
  {}

  lemma {:induction false} AdvanceKeeps(t: ReceiverTable, next: nat)
    requires TableOk(t) && AdvanceOk(t, next)
    ensures TableOk(AfterAdvance(t, next)) && AfterAdvance(t, next).spent == Range(0, next)
  {
    assert t.spent + Range(0, next) == Range(0, next);
  }

  lemma {:induction false} AdvanceSlots(entries: seq<ReceiverOT>, used: seq<bool>, entries': seq<ReceiverOT>, used': seq<bool>,
                                        base: nat, t: ReceiverTable, next: nat)
    requires SlotsAgree(entries, used, base, t) && |used'| == |entries'| == |entries| && base <= next
    requires forall k :: 0 <= k < |used| ==> used'[k] == (used[k] || base + k < next)
    requires forall k :: 0 <= k < |used| && !used'[k] ==> entries'[k] == entries[k]
    ensures SlotsAgree(entries', used', base, AfterAdvance(t, next))
  {}

  lemma {:induction false} CompactKeeps(entries: seq<ReceiverOT>, used: seq<bool>, base: nat, t: ReceiverTable, consumed: nat)
    requires SlotsAgree(entries, used, base, t) && TableOk(t) && consumed <= |used| && base <= t.highWater
    requires forall k :: 0 <= k < consumed ==> used[k]
    ensures SlotsAgree(entries[consumed..], used[consumed..], base + consumed, t)
    ensures base + consumed <= t.highWater
  {
    forall i: nat | i < base + consumed
      ensures i in t.spent
    {
      if i >= base { assert used[i - base]; }
    }
    if consumed > 0 { assert base + (consumed - 1) in t.spent; }
  }

  class ReceiverPool {
    var entries: seq<ReceiverOT>
    var used: seq<bool>
    var baseIndex: Index
    var highWater: Index
    var availableCount: int
    ghost var table: ReceiverTable

    constructor ()
      ensures Valid() && table == ReceiverTable([], {}, 0)
    {
      entries, used, baseIndex, highWater, availableCount := [], [], 0, 0, 0;
      table := ReceiverTable([], {}, 0);
    }

    ghost predicate Valid()
      reads this
    {
      && SlotsAgree(entries, used, baseIndex, table) && TableOk(table)
      && baseIndex <= highWater == table.highWater
      && availableCount == |table.added| - |table.spent|
    }

    method TotalLocked() returns (r: Result<Index>)
      requires Valid()
      ensures r == Ok(|table.added|)
    {
      AvailableBound();
      var total := CheckedIndexEnd(baseIndex, |entries|);
      if total.Err? || |used| != |entries| || availableCount < 0 || availableCount > |entries|
         || highWater < baseIndex || highWater > total.value {
        return Err;
      }
      r := total;
    }

    /** No more entries are available than are retained. */
    lemma {:induction false} AvailableBound()
      requires Valid()
      ensures 0 <= availableCount <= |entries|
    {
      RangeSize(0, baseIndex);
      assert Range(0, baseIndex) <= table.spent;
      SubsetSize(Range(0, baseIndex), table.spent);
      RangeSize(0, |table.added|);
      SubsetSize(table.spent, Range(0, |table.added|));
    }

    method Add(batch: seq<ReceiverOT>) returns (ok: bool)
      requires Valid()
      modifies this
      ensures Valid()
      ensures ok <==> old(ReceiverAddOk(table, batch))
      ensures table == if ok then old(table).(added := old(table).added + batch) else old(table)
    {
      var start := TotalLocked();
      if start.Err? || CheckedIndexEnd(start.value, |batch|).Err? {
        return false;
      }
      ok := ValidateReceiverOTIndices(batch, start.value);
      if ok {
        AddKeeps(entries, used, baseIndex, table, batch);
        entries := entries + batch;
        used := used + seq(|batch|, _ => false);
        availableCount := availableCount + |batch|;
        table := table.(added := table.added + batch);
      }
    }

    method ValidateConsumable(start: Index, count: int) returns (ok: bool)
      requires Valid()
      ensures ok <==> ConsumeOk(table, start, count)
      ensures ok ==> baseIndex <= start
    {
      if count <= 0 {
        return false;
      }
      if start < baseIndex {
        assert start in Range(start, start + count) && start in table.spent;
        return false;
      }
      var total := TotalLocked();
      var end := CheckedIndexEnd(start, count);
      if total.Err? || end.Err? || end.value > total.value {
        return false;
      }
      var offset := start - baseIndex;
      for i := offset to offset + count
        invariant forall k :: offset <= k < i ==> !used[k]
      {
        if used[i] {
          assert baseIndex + i in Range(start, start + count) && baseIndex + i in table.spent;
          return false;
        }
      }
      forall i | i in Range(start, start + count)
        ensures i !in table.spent
      {
        assert !used[i - baseIndex];
      }
      ok := true;
    }

    method Consume(start: Index, count: int) returns (r: Result<seq<ReceiverOT>>)
      requires Valid()
      modifies this
      ensures Valid()
      ensures r.Ok? <==> old(ConsumeOk(table, start, count))
      ensures r.Ok? ==> r.value == old(table).added[start..start + count] && table == old(AfterConsume(table, start, count))
      ensures r.Err? ==> unchanged(this)
    {
      hide SlotsAgree, TableOk, ConsumeOk;
      var ok := ValidateConsumable(start, count);
      if !ok {
        return Err;
      }
      ConsumeBounds(table, start, count);
      var end := start + count;
      var result := TakeSlots(start, count);
      ConsumeKeeps(table, start, count);
      ConsumeSlots(old(entries), old(used), entries, used, baseIndex, table, start, count);
      availableCount := availableCount - count;
      if end > highWater {
        highWater := end;
      }
      table := AfterConsume(table, start, count);
      CompactConsumed();
      r := Ok(result);
    }

    /** Reads out the range, marks it and wipes it. */
    method TakeSlots(start: Index, count: nat) returns (result: seq<ReceiverOT>)
      requires Valid() && ConsumeOk(table, start, count) && baseIndex <= start
      modifies this`used, this`entries
      ensures result == table.added[start..start + count]
      ensures |used| == |entries| == |old(entries)| == |old(used)|
      ensures forall k :: 0 <= k < |used| ==>
                used[k] == (old(used)[k] || start <= baseIndex + k < start + count)
      ensures forall k :: 0 <= k < |used| && !used[k] ==> entries[k] == old(entries)[k]
    {
      var offset := start - baseIndex;
      forall k | offset <= k < offset + count
        ensures !used[k]
      {
        assert baseIndex + k in Range(start, start + count);
      }
      result := entries[offset..offset + count];
      assert result == table.added[start..start + count];
      for i := offset to offset + count
        invariant |used| == |old(used)|
        invariant forall k :: 0 <= k < |used| ==> used[k] == (old(used)[k] || offset <= k < i)
        modifies this`used
      {
        used := used[i := true];
      }
      entries := Wipe(entries, offset, offset + count, NO_RECEIVER_OT);
    }

    /** Drops the consumed prefix once it is long enough. */
    method CompactConsumed()
      requires Valid()
      modifies this
      ensures Valid() && table == old(table)
    {
      var consumed := 0;
      while consumed < |used| && used[consumed]
        invariant 0 <= consumed <= |used|
        invariant forall k :: 0 <= k < consumed ==> used[k]
      {
        consumed := consumed + 1;
      }
      if consumed < OT_POOL_WATERMARK && consumed < |entries| / 2 {
        return;
      }
      CompactKeeps(entries, used, baseIndex, table, consumed);
      entries := entries[consumed..];
      used := used[consumed..];
      baseIndex := baseIndex + consumed;
    }

    /** Discards everything below the sender's frontier after a reconnect. */
    method AdvanceTo(next: Index) returns (ok: bool)
      requires Valid()
      modifies this
      ensures Valid()
      ensures ok <==> old(AdvanceOk(table, next))
      ensures table == if ok then old(AfterAdvance(table, next)) else old(table)
    {
      var total := TotalLocked();
      if total.Err? || next < highWater || next > total.value {
        return false;
      }
      var end := next - baseIndex;
      DiscardSlots(end);
      entries := Wipe(entries, 0, end, NO_RECEIVER_OT);
      AdvanceKeeps(table, next);
      AdvanceSlots(old(entries), old(used), entries, used, baseIndex, table, next);
      RangeSize(0, next);
      highWater := next;
      table := AfterAdvance(table, next);
      CompactConsumed();
      ok := true;
    }

    /** Marks the first `end` slots, uncounting those that were still available. */
    method DiscardSlots(end: nat)
      requires Valid() && end <= |used| && highWater <= baseIndex + end
      modifies this`used, this`availableCount
      ensures |used| == |old(used)|
      ensures forall k :: 0 <= k < |used| ==> used[k] == (k < end || old(used)[k])
      ensures availableCount == |table.added| - (baseIndex + end)
    {
      hide TableOk, SlotsAgree, Range;
      SpentBelow(entries, used, baseIndex, table, end);
      SpentIsBelow(table, baseIndex + end);
      for i := 0 to end
        invariant |used| == |old(used)|
        invariant forall k :: 0 <= k < |used| ==> used[k] == (k < i || old(used)[k])
        invariant availableCount == old(availableCount) - Free(old(used), i)
      {
        if !used[i] {
          used := used[i := true];
          availableCount := availableCount - 1;
        }
      }
    }

    method Clear()
      modifies this
      ensures Valid() && table == ReceiverTable([], {}, 0)
    {
      entries, used, baseIndex, highWater, availableCount := [], [], 0, 0, 0;
      table := ReceiverTable([], {}, 0);
    }

    method Available() returns (n: nat)
      requires Valid()
      ensures n == |table.added| - |table.spent|
    {
      AvailableBound();
      n := availableCount;
    }

    method TotalCount() returns (n: nat)
      requires Valid()
      ensures n == |table.added|
    {
      var total := TotalLocked();
      n := total.value;
    }

    method NextIndex() returns (n: nat)
      requires Valid()
      ensures n == table.highWater
    {
      n := highWater;
    }
  }

  method ValidatePoolAgreement(sender: SenderPool?, receiver: ReceiverPool?) returns (ok: bool)
    requires (sender != null ==> sender.Valid()) && (receiver != null ==> receiver.Valid())
    ensures ok <==> && sender != null && receiver != null
                    && |sender.table.added| == |receiver.table.added|
                    && sender.table.next == receiver.table.highWater
  {
    if sender == null || receiver == null {
      return false;
    }
    var st := sender.TotalCount();
    var rt := receiver.TotalCount();
    var sn := sender.NextIndex();
    var rn := receiver.NextIndex();
    ok := st == rt && sn == rn;
  }

  /** How many of the first `n` slots are unused. */
  function Free(used: seq<bool>, n: nat): nat
    requires n <= |used|
  {
    if n == 0 then 0 else Free(used, n - 1) + if used[n - 1] then 0 else 1
  }

  /** Below slot `n`, every index is either spent or free. */
  lemma {:induction false} SpentBelow(entries: seq<ReceiverOT>, used: seq<bool>, base: nat, t: ReceiverTable, n: nat)
    requires SlotsAgree(entries, used, base, t) && n <= |used|
    ensures |t.spent * Range(0, base + n)| + Free(used, n) == base + n
    decreases n
  {
    hide Range;
    if n == 0 {
      assert t.spent * Range(0, base) == Range(0, base);
      RangeSize(0, base);
    } else {
      SpentBelow(entries, used, base, t, n - 1);
      assert used[n - 1] <==> base + (n - 1) in t.spent;
      SpentStep(t.spent, base + (n - 1));
    }
  }

  lemma {:induction false} SpentStep(spent: set<nat>, x: nat)
    ensures |spent * Range(0, x + 1)| == |spent * Range(0, x)| + if x in spent then 1 else 0
  {
    var below := spent * Range(0, x);
    assert spent * Range(0, x + 1) == if x in spent then below + {x} else below;
  }

  lemma {:induction false} SpentIsBelow(t: ReceiverTable, end: nat)
    requires TableOk(t) && t.highWater <= end
    ensures t.spent * Range(0, end) == t.spent
  {}

  lemma {:induction false} ConsumeBounds(t: ReceiverTable, start: nat, count: int)
    requires TableOk(t) && ConsumeOk(t, start, count)
    ensures 0 < count && start + count <= |t.added| < UINT64
  {}

  lemma {:induction false} SubsetSize(a: set<nat>, b: set<nat>)
    requires a <= b
    ensures |a| <= |b|
  {
    assert b == a + (b - a);
  }
}
