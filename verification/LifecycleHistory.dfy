/**
 What a run's own steps say about its end, and that claimed work can always be finished
 (client/client.go, client/websocket.go, client/signed_message_validation.go).
 */
module LifecycleHistory {
  import opened Results
  import opened Lifecycle
  import opened LifecycleRuns

  type Steps = seq<(nat, Action)>

  ghost predicate Took(steps: Steps, a: Action) {
    exists i :: 0 <= i < |steps| && steps[i].1 == a
  }

  // The acceptance flags are the history

  ghost predicate FlagsFollow(s: Shared, a: Action, next: Option<(Shared, Option<Pc>)>) {
    next.Some? ==>
      && (next.value.0.kAccepted <==> s.kAccepted || a == AcceptMessage(TeeK))
      && (next.value.0.tAccepted <==> s.tAccepted || a == AcceptMessage(TeeT))
  }

  lemma {:induction false} ConnectFlags(s: Shared, pc: Option<Pc>, a: Action)
    requires !a.AcceptMessage?
    ensures FlagsFollow(s, a, ConnectStep(s, pc, a)) && FlagsFollow(s, a, StopStep(s, pc, a))
  {}

  lemma {:induction false} CompleteFlags(s: Shared, pc: Option<Pc>, a: Action)
    ensures FlagsFollow(s, a, CompleteStep(s, pc, a))
  {}

  lemma {:induction false} StepFlags(s: Shared, pc: Option<Pc>, a: Action)
    ensures FlagsFollow(s, a, ThreadStep(s, pc, a))
  {
    hide FlagsFollow, ConnectStep, CompleteStep, StopStep;
    CompleteFlags(s, pc, a);
    if !a.AcceptMessage? { ConnectFlags(s, pc, a); }
  }

  lemma {:induction false} TookCons(steps: Steps, a: Action)
    requires steps != []
    ensures Took(steps, a) <==> steps[0].1 == a || Took(steps[1..], a)
  {
    if Took(steps[1..], a) {
      var i :| 0 <= i < |steps[1..]| && steps[1..][i].1 == a;
      assert steps[i + 1].1 == a;
    }
    if Took(steps, a) {
      var i :| 0 <= i < |steps| && steps[i].1 == a;
      if i > 0 { assert steps[1..][i - 1].1 == a; }
    }
  }

  /** Along every run, a role's flag is set exactly by accepting that role's own message. */
  lemma {:induction false} FlagsTellHistory(m: Machine, steps: Steps)
    requires Run(m, steps).Some?
    ensures var s := Run(m, steps).value.s;
            && (s.kAccepted <==> m.s.kAccepted || Took(steps, AcceptMessage(TeeK)))
            && (s.tAccepted <==> m.s.tAccepted || Took(steps, AcceptMessage(TeeT)))
    decreases |steps|
  {
    hide ThreadStep, Took, PcOf;
    if steps == [] {
      NothingTaken();
    } else {
      var id, a := steps[0].0, steps[0].1;
      StepFlags(m.s, PcOf(m, id), a);
      FlagsTellHistory(Next(m, id, a).value, steps[1..]);
      TookCons(steps, AcceptMessage(TeeK));
      TookCons(steps, AcceptMessage(TeeT));
    }
  }

  lemma {:induction false} NothingTaken()
    ensures forall a :: !Took([], a)
  {}

  /** No run publishes success before both roles' signed messages have been accepted in it. */
  lemma {:induction false} SuccessAfterBoth(steps: Steps)
    requires Run(INITIAL, steps).Some? && Success in Run(INITIAL, steps).value.s.published
    ensures Took(steps, AcceptMessage(TeeK)) && Took(steps, AcceptMessage(TeeT))
  {
    hide Run, Took;
    var m := Run(INITIAL, steps).value;
    assert Reachable(m);
    CompletionSafe(m);
    OnlySuccess(m);
    FlagsTellHistory(INITIAL, steps);
  }

  lemma {:induction false} OnlySuccess(m: Machine)
    requires |m.s.published| <= 1 && Success in m.s.published
    ensures m.s.published == [Success]
  {}

  // Progress

  lemma {:induction false} RunTwo(m: Machine, id: nat, a: Action, rest: Steps)
    requires Next(m, id, a).Some?
    ensures Run(m, [(id, a)] + rest) == Run(Next(m, id, a).value, rest)
  {
    hide Next;
    var steps := [(id, a)] + rest;
    assert steps[0] == (id, a) && steps[1..] == rest;
  }

  /** With both messages accepted and nothing claimed, a check publishes success and enters phase 5. */
  lemma {:induction false} SuccessReached(m: Machine, id: nat)
    requires Reachable(m) && id !in m.threads && m.s.kAccepted && m.s.tAccepted && m.s.phase < 5 && !m.s.claimed
    ensures var n := Run(m, [(id, StartCheck)] + ([(id, RunAdvance)] + ([(id, RunPublish)] + [])));
            n.Some? && n.value.s.published == [Success] && n.value.s.phase == 5
  {
    hide Next, Run, Reachable, Inv;
    var owner := EveryRun(m);
    Unclaimed(m, owner);
    CheckStarts(m, id);
    var a := Next(m, id, StartCheck).value;
    CheckAdvances(a, id);
    var b := Next(a, id, RunAdvance).value;
    SuccessPublishes(b, id);
    RunTwo(b, id, RunPublish, []);
    RunTwo(a, id, RunAdvance, [(id, RunPublish)] + []);
    RunTwo(m, id, StartCheck, [(id, RunAdvance)] + ([(id, RunPublish)] + []));
    RunNone(Next(b, id, RunPublish).value);
  }

  lemma {:induction false} CheckStarts(m: Machine, id: nat)
    requires id !in m.threads && m.s.kAccepted && m.s.tAccepted
    ensures Next(m, id, StartCheck) == Some(Machine(m.s, m.threads[id := Advancing(5)]))
  {}

  lemma {:induction false} CheckAdvances(m: Machine, id: nat)
    requires PcOf(m, id) == Some(Advancing(5)) && m.s.phase < 5 && !m.s.claimed
    ensures Next(m, id, RunAdvance) == Some(Machine(m.s.(phase := 5, claimed := true), m.threads[id := Publishing]))
  {}

  lemma {:induction false} SuccessPublishes(m: Machine, id: nat)
    requires PcOf(m, id) == Some(Publishing) && m.s.published == [] && !m.s.once
    ensures Next(m, id, RunPublish) == Some(Machine(m.s.(once := true, published := [Success]), m.threads - {id}))
  {
    assert m.s.published + [Success] == [Success];
  }

  lemma {:induction false} RunNone(m: Machine)
    ensures Run(m, []) == Some(m)
  {}

  lemma {:induction false} Unclaimed(m: Machine, owner: Option<nat>)
    requires Inv(m, owner) && !m.s.claimed
    ensures m.s.published == [] && !m.s.once
  {}

  /** How far a claimer is from publishing. */
  function Distance(pc: Pc): nat {
    match pc
    case Marking(_) => 4
    case Detaching(_) => 3
    case Reopening(_) => 2
    case _ => 1
  }

  function ClaimerAction(pc: Pc): Action {
    if pc == Finishing || pc == Publishing then RunPublish else RunCleanup
  }

  lemma {:induction false} ClaimerStep(m: Machine, id: nat, owner: Option<nat>)
    requires Inv(m, owner) && id in m.threads && Owns(Some(m.threads[id]))
    ensures var n := Next(m, id, ClaimerAction(m.threads[id]));
            && n.Some?
            && (if Distance(m.threads[id]) == 1
                then n.value.s.published == [if m.threads[id] == Publishing then Success else Failure]
                else id in n.value.threads && Owns(Some(n.value.threads[id]))
                     && Distance(n.value.threads[id]) < Distance(m.threads[id]))
  {
    assert owner == Some(id) && m.s.published == [] && !m.s.once by { Claimer(m, id, owner); }
  }

  lemma {:induction false} Claimer(m: Machine, id: nat, owner: Option<nat>)
    requires Inv(m, owner) && id in m.threads && Owns(Some(m.threads[id]))
    ensures owner == Some(id) && m.s.published == [] && !m.s.once
  {
    assert PcOf(m, id) == Some(m.threads[id]);
  }

  /** Whoever has claimed completion can publish it by its own steps, whatever the others do not do. */
  lemma {:induction false} ClaimerFinishes(m: Machine, id: nat, owner: Option<nat>) returns (steps: Steps)
    requires Inv(m, owner) && id in m.threads && Owns(Some(m.threads[id]))
    ensures (forall i :: 0 <= i < |steps| ==> steps[i].0 == id) && |steps| <= 4
    ensures Run(m, steps).Some? && |Run(m, steps).value.s.published| == 1
    ensures |steps| <= Distance(m.threads[id])
    decreases Distance(m.threads[id])
  {
    hide Inv, Next, Owns, Run;
    var a := ClaimerAction(m.threads[id]);
    ClaimerStep(m, id, owner);
    var n := Next(m, id, a).value;
    NextKeeps(m, id, a, owner);
    if Distance(m.threads[id]) == 1 {
      steps := [(id, a)];
      RunTwo(m, id, a, []);
      RunNone(n);
      assert [(id, a)] + [] == [(id, a)];
    } else {
      var rest := ClaimerFinishes(n, id, NextOwner(owner, id, PcOf(n, id)));
      RunTwo(m, id, a, rest);
      steps := [(id, a)] + rest;
    }
  }

  // Exactly when a step acts

  /** A read failure of the socket in use, in an open client, closes the client and starts termination. */
  lemma {:induction false} CurrentFailureTerminates(m: Machine, id: nat, role: Role, conn: Conn, generation: nat)
    requires PcOf(m, id) == Some(Reading(role, conn, generation)) && !m.s.isClosing
    requires LinkOf(m.s, role) == Link(Some(conn), generation)
    ensures Next(m, id, FailRead) == Some(Machine(m.s.(isClosing := true), m.threads[id := Failing]))
  {}

  /** Dialling begins exactly in an open, unconnected client that is not being cleaned up. */
  lemma {:induction false} DialStartsExactly(m: Machine, id: nat, role: Role)
    requires id !in m.threads
    ensures Next(m, id, StartDial(role)) ==
            if m.s.isClosing || m.s.connectionsClosing || LinkOf(m.s, role).conn.Some? then None
            else Some(Machine(m.s, m.threads[id := Dialing(role, m.s.epoch)]))
  {}

  /** A dial of the current epoch is published with the next generation exactly when nothing forbids it. */
  lemma {:induction false} DialPublishesExactly(m: Machine, id: nat, role: Role, epoch: nat, socket: nat)
    requires PcOf(m, id) == Some(Dialing(role, epoch))
    ensures var l := LinkOf(m.s, role);
            var n := Next(m, id, FinishDial(socket));
            && n.Some?
            && (if epoch == m.s.epoch && !m.s.isClosing && !m.s.connectionsClosing && l.conn.None?
                then && LinkOf(n.value.s, role) == Link(Some(Conn(socket, epoch)), l.generation + 1)
                     && PcOf(n.value, id) == Some(Reading(role, Conn(socket, epoch), l.generation + 1))
                else n.value == Machine(m.s, m.threads - {id}))
  {}

  /** Termination, Close and the watchdog: the first of them claims, later ones do not. */
  lemma {:induction false} FirstClaims(m: Machine, id: nat)
    ensures PcOf(m, id) == Some(Failing) ==>
              Next(m, id, ClaimTermination) == Some(Machine(m.s.(claimed := true), m.threads[id := Marking(!m.s.claimed)]))
    ensures PcOf(m, id) == Some(Closing) ==>
              Next(m, id, ClaimClose) == Some(Machine(m.s.(claimed := true), m.threads[id := Detaching(!m.s.claimed)]))
    ensures id !in m.threads ==>
              Next(m, id, WatchdogFires) ==
              Some(if m.s.claimed then m else Machine(m.s.(claimed := true), m.threads[id := Marking(true)]))
  {
    if id !in m.threads && m.s.claimed {
      assert m.threads - {id} == m.threads && m.s.(claimed := true) == m.s;
    }
  }

  /** A cleanup that is not already under way detaches both sockets and starts a new epoch. */
  lemma {:induction false} CleanupDetaches(m: Machine, id: nat, owner: bool)
    requires PcOf(m, id) == Some(Detaching(owner)) && !m.s.connectionsClosing
    ensures var n := Next(m, id, RunCleanup);
            && n.Some? && n.value.s.k == Link(None, m.s.k.generation) && n.value.s.t == Link(None, m.s.t.generation)
            && n.value.s.epoch == m.s.epoch + 1 && n.value.s.connectionsClosing
            && PcOf(n.value, id) == Some(Reopening(owner))
  {}

  /** Close marks the client closing before it claims; a termination marks it before it detaches. */
  lemma {:induction false} ClosingIsMarked(m: Machine, id: nat, owner: bool)
    ensures id !in m.threads ==> Next(m, id, StartClose) == Some(Machine(m.s.(isClosing := true), m.threads[id := Closing]))
    ensures PcOf(m, id) == Some(Marking(owner)) ==>
              Next(m, id, RunCleanup) == Some(Machine(m.s.(isClosing := true), m.threads[id := Detaching(owner)]))
  {}

  /** Once a closing client is detached no run connects it again. */
  lemma {:induction false} ClosedForGood(m: Machine, steps: Steps)
    requires Reachable(m) && Run(m, steps).Some? && m.s.isClosing && m.s.k.conn.None? && m.s.t.conn.None?
    ensures var s := Run(m, steps).value.s; s.isClosing && s.k.conn.None? && s.t.conn.None?
  {
    hide Run, Reachable;
    NothingTakenBack(m, steps);
  }
}
