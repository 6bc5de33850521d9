/** Every interleaving of connects, readers, advances, the watchdog, Close and termination. */
module LifecycleRuns {
  import opened Results
  import opened Lifecycle

  /** Where a goroutine stands between two regions; `owner` says it claimed completion. */
  datatype Pc =
    | Dialing(role: Role, epoch: nat)
    | Reading(role: Role, conn: Conn, generation: nat)
    | Failing
    | Advancing(to: nat)
    | Closing
    | Marking(owner: bool)
    | Detaching(owner: bool)
    | Reopening(owner: bool)
    | Finishing
    | Publishing

  datatype Machine = Machine(s: Shared, threads: map<nat, Pc>)

  const INITIAL := Machine(FRESH, map[])

  datatype Action =
    | StartDial(role: Role)
    | DialFailed
    | FinishDial(socket: nat)
    | FailRead
    | AcceptMessage(role: Role)
    | StartCheck
    | AdvanceEarly(to: nat)
    | AdvanceLate(to: nat)
    | RunAdvance
    | StartTerminate
    | ClaimTermination
    | WatchdogFires
    | StartClose
    | ClaimClose
    | StartReset
    | MarkClosing
    | RunCleanup
    | RunPublish

  /** After a cleanup the claimer still has to publish; anyone else is done. */
  function AfterCleanup(owner: bool): Option<Pc> {
    if owner then Some(Finishing) else None
  }

  /** The regions of a cleanup: mark the client closing, detach the sockets, allow connects again. */
  function CleanupStep(s: Shared, pc: Pc): Option<(Shared, Option<Pc>)> {
    match pc
    case Marking(owner) => Some((s.(isClosing := true), Some(Detaching(owner))))
    case Detaching(owner) =>
      var (s', mine) := Detach(s);
      Some((s', if mine then Some(Reopening(owner)) else AfterCleanup(owner)))
    case Reopening(owner) => Some((s.(connectionsClosing := false), AfterCleanup(owner)))
    case _ => None
  }

  function ConnectStep(s: Shared, pc: Option<Pc>, a: Action): Option<(Shared, Option<Pc>)> {
    match (a, pc)
    case (StartDial(role), None) =>
      if BeginDial(s, role).None? then None else Some((s, Some(Dialing(role, BeginDial(s, role).value))))
    case (DialFailed, Some(Dialing(role, epoch))) => Some((s, None))
    case (FinishDial(socket), Some(Dialing(role, epoch))) =>
      var (s', generation) := PublishConn(s, role, Conn(socket, epoch));
      Some((s', if generation.None? then None else Some(Reading(role, Conn(socket, epoch), generation.value))))
    case (FailRead, Some(Reading(role, conn, generation))) =>
      var (s', terminate) := ReadFailed(s, role, conn, generation);
      Some((s', if terminate then Some(Failing) else None))
    case _ => None
  }

  /**
   Phases before validation are entered by message handlers. Later ones are reported by the
   caller, once it has received a successful completion.
   */
  function CompleteStep(s: Shared, pc: Option<Pc>, a: Action): Option<(Shared, Option<Pc>)> {
    match (a, pc)
    case (AcceptMessage(role), _) => Some((Accept(s, role).0, pc))
    case (StartCheck, None) => Some((s, if Complete(s) then Some(Advancing(VALIDATING)) else None))
    case (AdvanceEarly(to), _) => if to < VALIDATING then Some((Advance(s, to).0, pc)) else None
    case (AdvanceLate(to), _) =>
      if Success in s.published && to <= LAST_PHASE then Some((Advance(s, to).0, pc)) else None
    case (RunAdvance, Some(Advancing(to))) =>
      var (s', mine) := Advance(s, to);
      Some((s', if mine then Some(Publishing) else None))
    case (RunPublish, Some(Publishing)) => Some((PublishCompletion(s, Success), None))
    case (RunPublish, Some(Finishing)) => Some((PublishCompletion(s, Failure), None))
    case _ => None
  }

  function StopStep(s: Shared, pc: Option<Pc>, a: Action): Option<(Shared, Option<Pc>)> {
    match (a, pc)
    case (StartTerminate, None) => Some((s, Some(Failing)))
    case (ClaimTermination, Some(Failing)) =>
      var (s', mine) := Claim(s);
      Some((s', Some(Marking(mine))))
    case (WatchdogFires, None) =>
      var (s', mine) := Claim(s);
      Some((s', if mine then Some(Marking(true)) else None))
    case (StartClose, None) => Some((s.(isClosing := true), Some(Closing)))
    case (ClaimClose, Some(Closing)) =>
      var (s', mine) := Claim(s);
      Some((s', Some(Detaching(mine))))
    case (StartReset, None) => Some((s, Some(Detaching(false))))
    case (MarkClosing, _) => Some((s.(isClosing := true), pc))
    case (RunCleanup, Some(at)) => CleanupStep(s, at)
    case _ => None
  }

  /** One region of one goroutine; `None` when it is not the goroutine's turn to take it. */
  function ThreadStep(s: Shared, pc: Option<Pc>, a: Action): Option<(Shared, Option<Pc>)> {
    if a.StartDial? || a.DialFailed? || a.FinishDial? || a.FailRead? then ConnectStep(s, pc, a)
    else if a.AcceptMessage? || a.StartCheck? || a.AdvanceEarly? || a.AdvanceLate? || a.RunAdvance? || a.RunPublish? then
      CompleteStep(s, pc, a)
    else StopStep(s, pc, a)
  }

  function PcOf(m: Machine, id: nat): Option<Pc> {
    if id in m.threads then Some(m.threads[id]) else None
  }

  function Next(m: Machine, id: nat, a: Action): Option<Machine> {
    match ThreadStep(m.s, PcOf(m, id), a)
    case None => None
    case Some((s, pc)) => Some(Machine(s, if pc.Some? then m.threads[id := pc.value] else m.threads - {id}))
  }

  /** A run: any goroutine may take the next step. */
  function Run(m: Machine, steps: seq<(nat, Action)>): Option<Machine>
    decreases |steps|
  {
    if steps == [] then Some(m) else
      match Next(m, steps[0].0, steps[0].1)
      case None => None
      case Some(n) => Run(n, steps[1..])
  }

  // The invariant

  predicate Owns(pc: Option<Pc>) {
    match pc
    case Some(Marking(owner)) => owner
    case Some(Detaching(owner)) => owner
    case Some(Reopening(owner)) => owner
    case Some(Finishing) => true
    case Some(Publishing) => true
    case _ => false
  }

  /** `owned` says some goroutine holds a claim it has yet to publish. */
  ghost predicate SharedOk(s: Shared, owned: bool) {
    && (s.claimed <==> owned || s.published != [])
    && !(owned && s.published != []) && |s.published| <= 1
    && (s.once <==> s.published != [])
    && (Success in s.published ==> Complete(s) && s.phase >= VALIDATING)
    && (s.k.conn.Some? ==> s.k.conn.value.dialEpoch == s.epoch)
    && (s.t.conn.Some? ==> s.t.conn.value.dialEpoch == s.epoch)
  }

  ghost predicate ThreadOk(s: Shared, pc: Option<Pc>) {
    match pc
    case Some(Dialing(role, epoch)) => epoch <= s.epoch
    case Some(Reading(role, conn, generation)) =>
      var l := LinkOf(s, role);
      generation <= l.generation && (l.conn.Some? && generation == l.generation ==> l.conn.value == conn)
    case Some(Advancing(to)) => Complete(s)
    case Some(Publishing) => Complete(s) && s.phase >= VALIDATING
    case _ => true
  }

  ghost predicate LinkEvolves(l: Link, l': Link) {
    || l' == l
    || l' == Link(None, l.generation)
    || (l.conn.None? && l'.conn.Some? && l'.generation == l.generation + 1)
  }

  /** What no step undoes. */
  ghost predicate Evolves(s: Shared, s': Shared) {
    && s.phase <= s'.phase && s.epoch <= s'.epoch
    && s.published <= s'.published
    && (s.claimed ==> s'.claimed) && (s.isClosing ==> s'.isClosing) && (Complete(s) ==> Complete(s'))
    && LinkEvolves(s.k, s'.k) && LinkEvolves(s.t, s'.t)
    && (s.isClosing ==> s'.k.conn in {s.k.conn, None} && s'.t.conn in {s.t.conn, None})
  }

  /** `other` says a goroutine other than this one holds the claim. */
  ghost predicate StepOk(s: Shared, pc: Option<Pc>, other: bool, next: Option<(Shared, Option<Pc>)>) {
    next.Some? ==>
      var (s', pc') := next.value;
      Evolves(s, s') && ThreadOk(s', pc') && !(other && Owns(pc')) && SharedOk(s', other || Owns(pc'))
  }

  // Each region keeps it

  lemma {:induction false} ThreadKept(s: Shared, s': Shared, pc: Option<Pc>)
    requires Evolves(s, s') && ThreadOk(s, pc)
    ensures ThreadOk(s', pc)
  {}

  lemma {:induction false} Stays(s: Shared)
    ensures Evolves(s, s)
  {}

  lemma {:induction false} AcceptKeeps(s: Shared, role: Role, owned: bool)
    requires SharedOk(s, owned)
    ensures Evolves(s, Accept(s, role).0) && SharedOk(Accept(s, role).0, owned)
  {}

  lemma {:induction false} ClaimKeeps(s: Shared, owned: bool)
    requires SharedOk(s, owned)
    ensures var (s', mine) := Claim(s); Evolves(s, s') && SharedOk(s', owned || mine) && !(owned && mine)
  {}

  lemma {:induction false} AdvanceKeeps(s: Shared, to: nat, owned: bool)
    requires SharedOk(s, owned)
    ensures var (s', mine) := Advance(s, to);
            && Evolves(s, s') && SharedOk(s', owned || mine) && !(owned && mine)
            && (mine ==> s.phase < VALIDATING <= to == s'.phase)
  {
    hide Claim, Complete;
    ClaimKeeps(s, owned);
    var up := s.(phase := if to <= s.phase then s.phase else to);
    PhaseKeeps(s, up, owned);
    ClaimKeeps(up, owned);
    ClaimIs(up);
  }

  lemma {:induction false} PhaseKeeps(s: Shared, s': Shared, owned: bool)
    requires SharedOk(s, owned) && s.phase <= s'.phase && s' == s.(phase := s'.phase)
    ensures Evolves(s, s') && SharedOk(s', owned)
  {}

  lemma {:induction false} ClaimIs(s: Shared)
    ensures Claim(s) == (s.(claimed := true), !s.claimed)
  {}

  lemma {:induction false} PublishKeeps(s: Shared, o: Outcome)
    requires SharedOk(s, true) && (o == Success ==> Complete(s) && s.phase >= VALIDATING)
    ensures Evolves(s, PublishCompletion(s, o)) && SharedOk(PublishCompletion(s, o), false)
  {}

  lemma {:induction false} DetachKeeps(s: Shared, owned: bool)
    requires SharedOk(s, owned)
    ensures Evolves(s, Detach(s).0) && SharedOk(Detach(s).0, owned)
  {}

  lemma {:induction false} FlagsKeep(s: Shared, closing: bool, busy: bool, owned: bool)
    requires SharedOk(s, owned) && (s.isClosing ==> closing)
    ensures var s' := s.(isClosing := closing, connectionsClosing := busy); Evolves(s, s') && SharedOk(s', owned)
  {}

  lemma {:induction false} PublishConnKeeps(s: Shared, role: Role, conn: Conn, owned: bool)
    requires SharedOk(s, owned)
    ensures var (s', g) := PublishConn(s, role, conn);
            && Evolves(s, s') && SharedOk(s', owned)
            && (g.Some? ==> LinkOf(s', role) == Link(Some(conn), g.value))
  {}

  lemma {:induction false} ReadFailedKeeps(s: Shared, role: Role, conn: Conn, generation: nat, owned: bool)
    requires SharedOk(s, owned)
    ensures Evolves(s, ReadFailed(s, role, conn, generation).0) && SharedOk(ReadFailed(s, role, conn, generation).0, owned)
  {}

  // Each goroutine's step keeps it

  lemma {:induction false} ConnectOk(s: Shared, pc: Option<Pc>, a: Action, other: bool)
    requires ThreadOk(s, pc) && !(other && Owns(pc)) && SharedOk(s, other || Owns(pc))
    ensures StepOk(s, pc, other, ConnectStep(s, pc, a))
  {
    hide SharedOk, Evolves, PublishConn, ReadFailed, Accept, Detach, Claim, Advance, PublishCompletion;
    Stays(s);
    if a.FinishDial? && pc.Some? && pc.value.Dialing? {
      var role, conn := pc.value.role, Conn(a.socket, pc.value.epoch);
      PublishConnKeeps(s, role, conn, other);
      var (s', g) := PublishConn(s, role, conn);
      assert g.Some? ==> ThreadOk(s', Some(Reading(role, conn, g.value)));
    } else if a.FailRead? && pc.Some? && pc.value.Reading? {
      ReadFailedKeeps(s, pc.value.role, pc.value.conn, pc.value.generation, other);
    }
  }

  lemma {:induction false} CompleteOk(s: Shared, pc: Option<Pc>, a: Action, other: bool)
    requires ThreadOk(s, pc) && !(other && Owns(pc)) && SharedOk(s, other || Owns(pc))
    ensures StepOk(s, pc, other, CompleteStep(s, pc, a))
  {
    hide SharedOk, Evolves, PublishConn, ReadFailed, Accept, Detach, Claim, Advance, PublishCompletion, Complete;
    match (a, pc)
    case (AcceptMessage(role), _) =>
      AcceptKeeps(s, role, other || Owns(pc));
      ThreadKept(s, Accept(s, role).0, pc);
    case (AdvanceEarly(to), _) =>
      AdvanceKeeps(s, to, other || Owns(pc));
      ThreadKept(s, Advance(s, to).0, pc);
    case (AdvanceLate(to), _) =>
      AdvanceKeeps(s, to, other || Owns(pc));
      if Success in s.published { SuccessIsLate(s, other || Owns(pc)); }
      ThreadKept(s, Advance(s, to).0, pc);
    case (RunAdvance, Some(Advancing(to))) =>
      AdvanceKeeps(s, to, other);
      ThreadKept(s, Advance(s, to).0, pc);
    case (RunPublish, Some(Publishing)) => PublishKeeps(s, Success);
    case (RunPublish, Some(Finishing)) => PublishKeeps(s, Failure);
    case _ => Stays(s);
  }

  lemma {:induction false} SuccessIsLate(s: Shared, owned: bool)
    requires SharedOk(s, owned) && Success in s.published
    ensures s.phase >= VALIDATING
  {}

  lemma {:induction false} CleanupOk(s: Shared, pc: Pc, other: bool)
    requires !(other && Owns(Some(pc))) && SharedOk(s, other || Owns(Some(pc)))
    ensures StepOk(s, Some(pc), other, CleanupStep(s, pc))
  {
    hide SharedOk, Evolves, Detach;
    DetachKeeps(s, other || Owns(Some(pc)));
    FlagsKeep(s, true, s.connectionsClosing, other || Owns(Some(pc)));
    FlagsKeep(s, s.isClosing, false, other || Owns(Some(pc)));
  }

  lemma {:induction false} StopOk(s: Shared, pc: Option<Pc>, a: Action, other: bool)
    requires ThreadOk(s, pc) && !(other && Owns(pc)) && SharedOk(s, other || Owns(pc))
    ensures StepOk(s, pc, other, StopStep(s, pc, a))
  {
    hide SharedOk, Evolves, Detach, Claim, CleanupStep;
    var owned := other || Owns(pc);
    ClaimKeeps(s, owned);
    FlagsKeep(s, true, s.connectionsClosing, owned);
    Stays(s);
    ThreadKept(s, s.(isClosing := true), pc);
    if a.RunCleanup? && pc.Some? { CleanupOk(s, pc.value, other); }
  }

  lemma {:induction false} ThreadStepOk(s: Shared, pc: Option<Pc>, a: Action, other: bool)
    requires ThreadOk(s, pc) && !(other && Owns(pc)) && SharedOk(s, other || Owns(pc))
    ensures StepOk(s, pc, other, ThreadStep(s, pc, a))
  {
    hide StepOk, ThreadOk, SharedOk, Owns, ConnectStep, CompleteStep, StopStep;
    ConnectOk(s, pc, a, other);
    CompleteOk(s, pc, a, other);
    StopOk(s, pc, a, other);
  }

  // Machines

  /** At most one goroutine holds the claim, and all are where the shared state allows. */
  ghost predicate Inv(m: Machine, owner: Option<nat>) {
    && SharedOk(m.s, owner.Some?)
    && (owner.Some? ==> Owns(PcOf(m, owner.value)))
    && (forall id: nat :: Owns(PcOf(m, id)) ==> owner == Some(id))
    && (forall id: nat :: ThreadOk(m.s, PcOf(m, id)))
  }

  /** Who holds the claim after goroutine `id` has taken a step. */
  function NextOwner(owner: Option<nat>, id: nat, pc: Option<Pc>): Option<nat> {
    if Owns(pc) then Some(id) else if owner == Some(id) then None else owner
  }

  lemma {:induction false} NextFrame(m: Machine, id: nat, a: Action, t: nat)
    requires Next(m, id, a).Some?
    ensures var n := Next(m, id, a).value;
            && ThreadStep(m.s, PcOf(m, id), a) == Some((n.s, PcOf(n, id)))
            && (t != id ==> PcOf(n, t) == PcOf(m, t))
  {
    hide ThreadStep;
  }

  lemma {:induction false} NextKeeps(m: Machine, id: nat, a: Action, owner: Option<nat>)
    requires Inv(m, owner) && Next(m, id, a).Some?
    ensures var n := Next(m, id, a).value;
            Evolves(m.s, n.s) && Inv(n, NextOwner(owner, id, PcOf(n, id)))
  {
    hide SharedOk, ThreadOk, Evolves, Owns, ThreadStep, Next, PcOf;
    var n := Next(m, id, a).value;
    NextFrame(m, id, a, id);
    var other := owner.Some? && owner != Some(id);
    ThreadStepOk(m.s, PcOf(m, id), a, other);
    forall t: nat
      ensures ThreadOk(n.s, PcOf(n, t)) && (t != id ==> Owns(PcOf(n, t)) == Owns(PcOf(m, t)))
    {
      NextFrame(m, id, a, t);
      if t != id { ThreadKept(m.s, n.s, PcOf(m, t)); }
    }
    assert NextOwner(owner, id, PcOf(n, id)).Some? == (other || Owns(PcOf(n, id)));
  }

  ghost predicate Reachable(m: Machine) {
    exists steps :: Run(INITIAL, steps) == Some(m)
  }

  lemma {:induction false} RunKeeps(m: Machine, steps: seq<(nat, Action)>, owner: Option<nat>)
    returns (last: Option<nat>)
    requires Inv(m, owner) && Run(m, steps).Some?
    ensures Inv(Run(m, steps).value, last)
    decreases |steps|
  {
    hide Inv, Next;
    if steps == [] {
      last := owner;
    } else {
      NextKeeps(m, steps[0].0, steps[0].1, owner);
      var n := Next(m, steps[0].0, steps[0].1).value;
      last := RunKeeps(n, steps[1..], NextOwner(owner, steps[0].0, PcOf(n, steps[0].0)));
    }
  }

  /** The invariant holds in every reachable state. */
  lemma {:induction false} EveryRun(m: Machine) returns (owner: Option<nat>)
    requires Reachable(m)
    ensures Inv(m, owner)
  {
    var steps :| Run(INITIAL, steps) == Some(m);
    owner := RunKeeps(INITIAL, steps, None);
  }

  lemma {:induction false} ReachableOn(m: Machine, steps: seq<(nat, Action)>)
    requires Reachable(m) && Run(m, steps).Some?
    ensures Reachable(Run(m, steps).value)
  {
    var before :| Run(INITIAL, before) == Some(m);
    RunConcat(INITIAL, before, steps);
    assert Run(INITIAL, before + steps) == Run(m, steps);
  }

  lemma {:induction false} RunConcat(m: Machine, a: seq<(nat, Action)>, b: seq<(nat, Action)>)
    requires Run(m, a).Some?
    ensures Run(m, a + b) == Run(Run(m, a).value, b)
    decreases |a|
  {
    hide Next;
    if a == [] {
      assert a + b == b;
    } else {
      RunConcat(Next(m, a[0].0, a[0].1).value, a[1..], b);
      assert (a + b)[1..] == a[1..] + b;
    }
  }

  // Main results

  /** At most one value is published; success only with both signed messages accepted. */
  lemma {:induction false} CompletionSafe(m: Machine)
    requires Reachable(m)
    ensures |m.s.published| <= 1
    ensures m.s.published == [Success] ==> m.s.kAccepted && m.s.tAccepted
  {
    var owner := EveryRun(m);
  }

  /** A claimed completion is never lost: it is published, or exactly one goroutine will publish it. */
  lemma {:induction false} ClaimNotLost(m: Machine)
    requires Reachable(m) && m.s.claimed
    ensures |m.s.published| == 1 || exists id: nat :: Owns(PcOf(m, id)) && forall t: nat :: Owns(PcOf(m, t)) ==> t == id
  {
    var owner := EveryRun(m);
    if owner.Some? { assert Owns(PcOf(m, owner.value)); }
  }

  /** Nothing a run does takes back a phase, a published value, an epoch or the closing flag. */
  lemma {:induction false} NothingTakenBack(m: Machine, steps: seq<(nat, Action)>)
    requires Reachable(m) && Run(m, steps).Some?
    ensures var n := Run(m, steps).value;
            && m.s.phase <= n.s.phase && m.s.published <= n.s.published && m.s.epoch <= n.s.epoch
            && (m.s.isClosing ==> n.s.isClosing && n.s.k.conn in {m.s.k.conn, None} && n.s.t.conn in {m.s.t.conn, None})
    decreases |steps|
  {
    if steps != [] {
      var id, a := steps[0].0, steps[0].1;
      var owner := EveryRun(m);
      StepEvolves(m, id, a, owner);
      assert Run(m, [steps[0]]) == Next(m, id, a) by { RunOne(m, steps[0]); }
      ReachableOn(m, [steps[0]]);
      NothingTakenBack(Next(m, id, a).value, steps[1..]);
    }
  }

  lemma {:induction false} RunOne(m: Machine, step: (nat, Action))
    ensures Run(m, [step]) == Next(m, step.0, step.1)
  {
    hide Next;
    assert [step][1..] == [];
  }

  lemma {:induction false} StepEvolves(m: Machine, id: nat, a: Action, owner: Option<nat>)
    requires Inv(m, owner) && Next(m, id, a).Some?
    ensures Evolves(m.s, Next(m, id, a).value.s)
  {
    hide Inv, Next, Evolves;
    NextKeeps(m, id, a, owner);
  }

  /**
   A socket whose dialling began before a cleanup is never published after it: whenever a
   socket is in use, no cleanup has detached connections since it began to be dialled.
   */
  lemma {:induction false} OldDialNeverPublished(m: Machine, id: nat, steps: seq<(nat, Action)>, role: Role, socket: nat)
    requires Reachable(m) && id in m.threads && m.threads[id].Dialing? && Run(m, steps).Some?
    requires var n := Run(m, steps).value; m.threads[id].epoch < n.s.epoch
    ensures var n := Run(m, steps).value; LinkOf(n.s, role).conn != Some(Conn(socket, m.threads[id].epoch))
  {
    ReachableOn(m, steps);
    var owner := EveryRun(Run(m, steps).value);
  }

  /** A cleanup moves the epoch on, so that every dial under way is then an old one. */
  lemma {:induction false} CleanupOutdates(m: Machine, id: nat, t: nat)
    requires Reachable(m) && t in m.threads && m.threads[t].Dialing?
    requires id in m.threads && m.threads[id].Detaching? && !m.s.connectionsClosing
    ensures Next(m, id, RunCleanup).Some? && m.threads[t].epoch < Next(m, id, RunCleanup).value.s.epoch
  {
    var owner := EveryRun(m);
    assert ThreadOk(m.s, PcOf(m, t));
  }

  // Stale readers

  /** The reader's socket has been detached, whatever replaced it. */
  ghost predicate Stale(s: Shared, role: Role, generation: nat) {
    var l := LinkOf(s, role);
    generation <= l.generation && (l.conn.Some? ==> generation < l.generation)
  }

  /** A cleanup makes every reader stale. */
  lemma {:induction false} CleanupStales(m: Machine, id: nat, t: nat)
    requires Reachable(m) && t in m.threads && m.threads[t].Reading?
    requires id in m.threads && m.threads[id].Detaching? && !m.s.connectionsClosing
    ensures var n := Next(m, id, RunCleanup); n.Some? && Stale(n.value.s, m.threads[t].role, m.threads[t].generation)
  {
    var owner := EveryRun(m);
    assert ThreadOk(m.s, PcOf(m, t));
  }

  /** Once stale, always stale. */
  lemma {:induction false} StaleStays(m: Machine, steps: seq<(nat, Action)>, role: Role, generation: nat)
    requires Reachable(m) && Run(m, steps).Some? && Stale(m.s, role, generation)
    ensures Stale(Run(m, steps).value.s, role, generation)
    decreases |steps|
  {
    hide Next;
    if steps != [] {
      var id, a := steps[0].0, steps[0].1;
      var owner := EveryRun(m);
      StepEvolves(m, id, a, owner);
      RunOne(m, steps[0]);
      ReachableOn(m, [steps[0]]);
      StaleEvolves(m.s, Next(m, id, a).value.s, role, generation);
      StaleStays(Next(m, id, a).value, steps[1..], role, generation);
    }
  }

  lemma {:induction false} StaleEvolves(s: Shared, s': Shared, role: Role, generation: nat)
    requires Evolves(s, s') && Stale(s, role, generation)
    ensures Stale(s', role, generation)
  {}

  /** A read failure of a stale reader changes nothing but that the reader is gone. */
  lemma {:induction false} StaleFailureIsSilent(m: Machine, id: nat)
    requires id in m.threads && m.threads[id].Reading? && Stale(m.s, m.threads[id].role, m.threads[id].generation)
    ensures Next(m, id, FailRead) == Some(Machine(m.s, m.threads - {id}))
  {}
}
