/**
 Paired pools over whole runs (mpc/pool.go).

 Both parties add the same batches, each at its own pace. The garbler reserves ranges and
 announces them; the evaluator consumes announced ranges in whatever order they arrive,
 may see an announcement again, and resumes at the garbler's frontier after a reconnect.
 */
module PoolRuns {
  import opened Results
  import opened Ots
  import opened Pools

  datatype Announcement = Announcement(start: nat, count: nat)

  datatype State = State(sender: SenderTable, receiver: ReceiverTable, pending: seq<Announcement>, done: seq<Announcement>)

  datatype Action =
    | AddSender(n: nat)
    | AddReceiver(n: nat)
    | Reserve(count: int)
    | Deliver(j: nat)
    | Redeliver(j: nat)
    | Resume

  const INITIAL := State(SenderTable([], 0), ReceiverTable([], {}, 0), [], [])

  /** The batches of one run: matching entries, numbered from 0. */
  ghost predicate Batches(s: seq<SenderOT>, r: seq<ReceiverOT>) {
    AllMatch(s, r) && SenderIndicesFrom(s, 0)
  }

  function Without<T>(s: seq<T>, j: nat): (r: seq<T>)
    requires j < |s|
    ensures |r| == |s| - 1
    ensures forall k :: 0 <= k < |r| ==> r[k] == s[if k < j then k else k + 1]
  {
    s[..j] + s[j + 1..]
  }

  ghost function TryConsume(s: State, a: Announcement): State {
    if ConsumeOk(s.receiver, a.start, a.count) then s.(receiver := AfterConsume(s.receiver, a.start, a.count)) else s
  }

  /** One action. A request that a pool refuses changes nothing. */
  ghost function Step(all: seq<SenderOT>, allR: seq<ReceiverOT>, s: State, a: Action): State {
    match a
    case AddSender(n) =>
      if |s.sender.added| + n <= |all| then s.(sender := s.sender.(added := all[..|s.sender.added| + n])) else s
    case AddReceiver(n) =>
      if |s.receiver.added| + n <= |allR| then s.(receiver := s.receiver.(added := allR[..|s.receiver.added| + n])) else s
    case Reserve(count) =>
      if ReserveOk(s.sender, count) then
        s.(sender := s.sender.(next := s.sender.next + count), pending := s.pending + [Announcement(s.sender.next, count)])
      else s
    case Deliver(j) =>
      if j < |s.pending| && ConsumeOk(s.receiver, s.pending[j].start, s.pending[j].count) then
        TryConsume(s, s.pending[j]).(pending := Without(s.pending, j), done := s.done + [s.pending[j]])
      else s
    case Redeliver(j) =>
      if j < |s.done| then TryConsume(s, s.done[j]) else s
    case Resume =>
      if AdvanceOk(s.receiver, s.sender.next) then
        s.(receiver := AfterAdvance(s.receiver, s.sender.next), pending := [], done := s.done + s.pending)
      else s
  }

  ghost function Run(all: seq<SenderOT>, allR: seq<ReceiverOT>, actions: seq<Action>): State {
    if actions == [] then INITIAL
    else Step(all, allR, Run(all, allR, actions[..|actions| - 1]), actions[|actions| - 1])
  }

  // The invariant

  predicate Covers(a: Announcement, i: nat) {
    a.start <= i < a.start + a.count
  }

  ghost predicate Pending(pending: seq<Announcement>, i: nat) {
    exists j :: 0 <= j < |pending| && Covers(pending[j], i)
  }

  ghost predicate Disjoint(pending: seq<Announcement>) {
    forall j, k, i: nat :: 0 <= j < k < |pending| && Covers(pending[j], i) ==> !Covers(pending[k], i)
  }

  /** Of the reserved indices, exactly those not pending are spent. */
  ghost predicate Accounted(spent: set<nat>, next: nat, pending: seq<Announcement>) {
    forall i: nat :: i in spent <==> i < next && !Pending(pending, i)
  }

  ghost predicate Inv(all: seq<SenderOT>, allR: seq<ReceiverOT>, s: State) {
    && s.sender.added <= all && s.receiver.added <= allR
    && s.sender.next <= |s.sender.added| && s.receiver.highWater <= s.sender.next
    && TableOk(s.receiver)
    && Accounted(s.receiver.spent, s.sender.next, s.pending) && Disjoint(s.pending)
    && (forall j :: 0 <= j < |s.pending| ==> s.pending[j].count > 0 && s.pending[j].start + s.pending[j].count <= s.sender.next)
    && (forall j :: 0 <= j < |s.done| ==> s.done[j].count > 0 && s.done[j].start in s.receiver.spent)
  }

  /** A pending range is consumable as soon as the receiver has added it, and not before. */
  lemma {:induction false} DeliverExactly(all: seq<SenderOT>, allR: seq<ReceiverOT>, s: State, j: nat)
    requires Batches(all, allR) && Inv(all, allR, s) && j < |s.pending|
    ensures var a := s.pending[j];
            ConsumeOk(s.receiver, a.start, a.count) <==> a.start + a.count <= |s.receiver.added|
  {
    var a := s.pending[j];
    forall i | i in Range(a.start, a.start + a.count)
      ensures i !in s.receiver.spent
    {
      assert Covers(s.pending[j], i);
    }
  }

  /** An announcement that was served or skipped is refused when it arrives again. */
  lemma {:induction false} RedeliverRefused(all: seq<SenderOT>, allR: seq<ReceiverOT>, s: State, j: nat)
    requires Inv(all, allR, s) && j < |s.done|
    ensures !ConsumeOk(s.receiver, s.done[j].start, s.done[j].count)
  {
    assert s.done[j].start in Range(s.done[j].start, s.done[j].start + s.done[j].count);
  }

  /** The served entries are the sender's reserved entries, label for label. */
  lemma {:induction false} ServedEntriesMatch(all: seq<SenderOT>, allR: seq<ReceiverOT>, s: State, a: Announcement)
    requires Batches(all, allR) && Inv(all, allR, s)
    requires a.start + a.count <= |s.receiver.added| && a.start + a.count <= |s.sender.added|
    ensures AllMatch(s.sender.added[a.start..a.start + a.count], s.receiver.added[a.start..a.start + a.count])
  {}

  /** Once the receiver has caught up, resuming succeeds and the pools agree. */
  lemma {:induction false} ResumeAgrees(all: seq<SenderOT>, allR: seq<ReceiverOT>, s: State)
    requires Inv(all, allR, s) && |s.sender.added| == |s.receiver.added|
    ensures AdvanceOk(s.receiver, s.sender.next)
    ensures var t := Step(all, allR, s, Resume);
            && |t.sender.added| == |t.receiver.added| && t.sender.next == t.receiver.highWater
            && t.receiver.spent == Range(0, t.sender.next)
  {
    AdvanceKeeps(s.receiver, s.sender.next);
  }

  // Every action keeps the invariant

  lemma {:induction false} AddsKeep(all: seq<SenderOT>, allR: seq<ReceiverOT>, s: State, n: nat)
    requires Batches(all, allR) && Inv(all, allR, s)
    ensures Inv(all, allR, Step(all, allR, s, AddSender(n))) && Inv(all, allR, Step(all, allR, s, AddReceiver(n)))
    ensures |s.sender.added| + n <= |all| ==> SenderAddOk(s.sender, all[|s.sender.added|..|s.sender.added| + n])
    ensures |s.receiver.added| + n <= |allR| ==> ReceiverAddOk(s.receiver, allR[|s.receiver.added|..|s.receiver.added| + n])
  {
    hide Pending, Covers;
    forall i | 0 <= i < |allR|
      ensures allR[i].index == i
    {
      assert Matches(all[i], allR[i]);
    }
    if |s.receiver.added| + n <= |allR| {
      var t := s.receiver.(added := allR[..|s.receiver.added| + n]);
      assert TableOk(t);
    }
  }

  lemma {:induction false} ReserveKeeps(all: seq<SenderOT>, allR: seq<ReceiverOT>, s: State, count: int)
    requires Inv(all, allR, s)
    ensures Inv(all, allR, Step(all, allR, s, Reserve(count)))
  {
    if ReserveOk(s.sender, count) {
      var a := Announcement(s.sender.next, count);
      var t := Step(all, allR, s, Reserve(count));
      forall i: nat
        ensures i in t.receiver.spent <==> i < t.sender.next && !Pending(t.pending, i)
      {
        PendingAppend(s.pending, a, i);
      }
      forall j, k, i: nat | 0 <= j < k < |t.pending| && Covers(t.pending[j], i)
        ensures !Covers(t.pending[k], i)
      {}
    }
  }

  lemma {:induction false} PendingAppend(pending: seq<Announcement>, a: Announcement, i: nat)
    ensures Pending(pending + [a], i) <==> Pending(pending, i) || Covers(a, i)
  {
    if Pending(pending, i) {
      var j :| 0 <= j < |pending| && Covers(pending[j], i);
      assert Covers((pending + [a])[j], i);
    }
    if Covers(a, i) { assert Covers((pending + [a])[|pending|], i); }
  }

  lemma {:induction false} PendingWithout(pending: seq<Announcement>, j: nat, i: nat)
    requires j < |pending| && Disjoint(pending)
    ensures Pending(Without(pending, j), i) <==> Pending(pending, i) && !Covers(pending[j], i)
  {
    var rest := Without(pending, j);
    if Pending(rest, i) {
      var k :| 0 <= k < |rest| && Covers(rest[k], i);
      assert Covers(pending[if k < j then k else k + 1], i);
    }
    if Pending(pending, i) && !Covers(pending[j], i) {
      var k :| 0 <= k < |pending| && Covers(pending[k], i);
      assert Covers(rest[if k < j then k else k - 1], i);
    }
  }

  lemma {:induction false} WithoutDisjoint(pending: seq<Announcement>, j: nat)
    requires j < |pending| && Disjoint(pending)
    ensures Disjoint(Without(pending, j))
  {}

  lemma {:induction false} DeliveryAccounted(spent: set<nat>, next: nat, pending: seq<Announcement>, j: nat)
    requires Accounted(spent, next, pending) && Disjoint(pending) && j < |pending|
    requires pending[j].start + pending[j].count <= next
    ensures Accounted(spent + Range(pending[j].start, pending[j].start + pending[j].count), next, Without(pending, j))
  {
    hide Disjoint, Pending;
    var a := pending[j];
    var after := spent + Range(a.start, a.start + a.count);
    forall i: nat
      ensures i in after <==> i < next && !Pending(Without(pending, j), i)
    {
      PendingWithout(pending, j, i);
      if Covers(a, i) { CoveredIsPending(pending, j, i); }
    }
  }

  lemma {:induction false} DeliverKeeps(all: seq<SenderOT>, allR: seq<ReceiverOT>, s: State, j: nat)
    requires Inv(all, allR, s)
    ensures Inv(all, allR, Step(all, allR, s, Deliver(j)))
  {
    hide Disjoint, Accounted, TableOk, Range;
    if j < |s.pending| && ConsumeOk(s.receiver, s.pending[j].start, s.pending[j].count) {
      var a := s.pending[j];
      ConsumeKeeps(s.receiver, a.start, a.count);
      WithoutDisjoint(s.pending, j);
      DeliveryAccounted(s.receiver.spent, s.sender.next, s.pending, j);
      assert a.start in Range(a.start, a.start + a.count);
    }
  }

  lemma {:induction false} CoveredIsPending(pending: seq<Announcement>, j: nat, i: nat)
    requires j < |pending| && Covers(pending[j], i)
    ensures Pending(pending, i)
  {}

  lemma {:induction false} ResumeKeeps(all: seq<SenderOT>, allR: seq<ReceiverOT>, s: State)
    requires Inv(all, allR, s)
    ensures Inv(all, allR, Step(all, allR, s, Resume))
  {
    if AdvanceOk(s.receiver, s.sender.next) {
      AdvanceKeeps(s.receiver, s.sender.next);
      hide TableOk;
      var t := Step(all, allR, s, Resume);
      assert Accounted(t.receiver.spent, t.sender.next, t.pending);
    }
  }

  lemma {:induction false} StepKeeps(all: seq<SenderOT>, allR: seq<ReceiverOT>, s: State, a: Action)
    requires Batches(all, allR) && Inv(all, allR, s)
    ensures Inv(all, allR, Step(all, allR, s, a))
  {
    match a
    case AddSender(n) => AddsKeep(all, allR, s, n);
    case AddReceiver(n) => AddsKeep(all, allR, s, n);
    case Reserve(count) => ReserveKeeps(all, allR, s, count);
    case Deliver(j) => DeliverKeeps(all, allR, s, j);
    case Redeliver(j) => if j < |s.done| { RedeliverRefused(all, allR, s, j); }
    case Resume => ResumeKeeps(all, allR, s);
  }

  /** The invariant holds after every run, so the four statements above do too. */
  lemma {:induction false} EveryRun(all: seq<SenderOT>, allR: seq<ReceiverOT>, actions: seq<Action>)
    requires Batches(all, allR)
    ensures Inv(all, allR, Run(all, allR, actions))
    decreases |actions|
  {
    hide Inv, Step;
    if actions == [] {
      InitialInv(all, allR);
    } else {
      EveryRun(all, allR, actions[..|actions| - 1]);
      StepKeeps(all, allR, Run(all, allR, actions[..|actions| - 1]), actions[|actions| - 1]);
    }
  }

  lemma {:induction false} InitialInv(all: seq<SenderOT>, allR: seq<ReceiverOT>)
    ensures Inv(all, allR, INITIAL)
  {}

  // What the garbler hands out

  /** Everything the successful reservations of a run returned, in order. */
  ghost function Reserved(all: seq<SenderOT>, allR: seq<ReceiverOT>, actions: seq<Action>): seq<SenderOT>
    requires Batches(all, allR)
    decreases |actions|
  {
    if actions == [] then [] else
      var before := Run(all, allR, actions[..|actions| - 1]);
      var a := actions[|actions| - 1];
      EveryRun(all, allR, actions[..|actions| - 1]);
      Reserved(all, allR, actions[..|actions| - 1])
      + if a.Reserve? && ReserveOk(before.sender, a.count)
        then before.sender.added[before.sender.next..before.sender.next + a.count] else []
  }

  /** The reservations of any run concatenate to a prefix of the entries: no index twice, none skipped. */
  lemma {:induction false} ReservationsAreAPrefix(all: seq<SenderOT>, allR: seq<ReceiverOT>, actions: seq<Action>)
    requires Batches(all, allR)
    ensures var s := Run(all, allR, actions);
            && s.sender.next <= |all| && Reserved(all, allR, actions) == all[..s.sender.next]
            && forall i :: 0 <= i < |Reserved(all, allR, actions)| ==> Reserved(all, allR, actions)[i].index == i
    decreases |actions|
  {
    hide Inv, Step;
    EveryRun(all, allR, actions);
    if actions == [] {
      assert Run(all, allR, actions) == INITIAL;
    } else {
      var init := actions[..|actions| - 1];
      ReservationsAreAPrefix(all, allR, init);
      EveryRun(all, allR, init);
      FrontierStep(all, allR, Run(all, allR, init), actions[|actions| - 1]);
    }
  }

  /** Only a successful reservation moves the frontier, and it returns what the frontier passes over. */
  lemma {:induction false} FrontierStep(all: seq<SenderOT>, allR: seq<ReceiverOT>, s: State, a: Action)
    requires Inv(all, allR, s)
    ensures var t := Step(all, allR, s, a);
            && s.sender.next <= |s.sender.added| <= |all|
            && if a.Reserve? && ReserveOk(s.sender, a.count)
               then t.sender.next == s.sender.next + a.count <= |all|
                    && all[..s.sender.next] + s.sender.added[s.sender.next..s.sender.next + a.count] == all[..t.sender.next]
               else t.sender.next == s.sender.next
  {
    hide TableOk, Accounted, Disjoint, AdvanceOk, ConsumeOk;
  }
}
