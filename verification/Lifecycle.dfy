/**
 Completion and connection state of the client (client/client.go, client/websocket.go). Each
 function on `Shared` is one mutex-protected region, so one atomic step.
 */
module Lifecycle {
  import opened Results

  const VALIDATING: nat := 5
  const LAST_PHASE: nat := 11

  datatype Role = TeeK | TeeT

  datatype Outcome = Success | Failure

  /** A web socket, with the connection epoch its dialling began in. */
  datatype Conn = Conn(id: nat, dialEpoch: nat)

  datatype Link = Link(conn: Option<Conn>, generation: nat)

  datatype Shared = Shared(
    phase: nat, claimed: bool, once: bool, published: seq<Outcome>, kAccepted: bool, tAccepted: bool,
    isClosing: bool, connectionsClosing: bool, epoch: nat, k: Link, t: Link)

  const FRESH := Shared(0, false, false, [], false, false, false, false, 0, Link(None, 0), Link(None, 0))

  function LinkOf(s: Shared, role: Role): Link {
    if role == TeeK then s.k else s.t
  }

  function WithLink(s: Shared, role: Role, l: Link): Shared {
    if role == TeeK then s.(k := l) else s.(t := l)
  }

  // Completion

  function Claim(s: Shared): (Shared, bool) {
    (s.(claimed := true), !s.claimed)
  }

  function Advance(s: Shared, newPhase: nat): (Shared, bool) {
    if newPhase <= s.phase then (s, false)
    else if s.phase < VALIDATING <= newPhase then Claim(s.(phase := newPhase))
    else (s.(phase := newPhase), false)
  }

  /** The completion channel holds one value; later sends are dropped. */
  function PublishCompletion(s: Shared, o: Outcome): Shared {
    if s.once then s else s.(once := true, published := if |s.published| < 1 then s.published + [o] else s.published)
  }

  /** A signed message that passed validation; a second one is refused. */
  function Accept(s: Shared, role: Role): (Shared, bool) {
    if role == TeeK then (s.(kAccepted := true), !s.kAccepted) else (s.(tAccepted := true), !s.tAccepted)
  }

  predicate Complete(s: Shared) {
    s.kAccepted && s.tAccepted
  }

  // Connections

  /** First region of a connect: the epoch to dial in, unless there is nothing to dial. */
  function BeginDial(s: Shared, role: Role): Option<nat> {
    if s.isClosing || s.connectionsClosing || LinkOf(s, role).conn.Some? then None else Some(s.epoch)
  }

  /** Second region: the socket is published, with its generation, or thrown away. */
  function PublishConn(s: Shared, role: Role, conn: Conn): (Shared, Option<nat>) {
    var l := LinkOf(s, role);
    if s.epoch != conn.dialEpoch || s.isClosing || s.connectionsClosing || l.conn.Some? then (s, None)
    else (WithLink(s, role, Link(Some(conn), l.generation + 1)), Some(l.generation + 1))
  }

  /** First region of a cleanup: detach both sockets, unless another cleanup is under way. */
  function Detach(s: Shared): (Shared, bool) {
    if s.connectionsClosing then (s, false)
    else (s.(connectionsClosing := true, epoch := s.epoch + 1, k := s.k.(conn := None), t := s.t.(conn := None)), true)
  }

  /** A failed read ends the session only if it comes from the socket in use. */
  function ReadFailed(s: Shared, role: Role, conn: Conn, generation: nat): (Shared, bool) {
    if s.isClosing || LinkOf(s, role) != Link(Some(conn), generation) then (s, false)
    else (s.(isClosing := true), true)
  }

  class Client {
    var protocolPhase: nat
    var completionClaimed: bool
    var completionOnce: bool
    var completionChan: seq<Outcome>
    var teeKSignatureValid: bool
    var teeTSignatureValid: bool
    var isClosing: bool
    var connectionsClosing: bool
    var connectionEpoch: nat
    var wsConn: Option<Conn>
    var teekGeneration: nat
    var teetConn: Option<Conn>
    var teetGeneration: nat

    function Value(): Shared
      reads this
    {
      Shared(protocolPhase, completionClaimed, completionOnce, completionChan, teeKSignatureValid, teeTSignatureValid,
             isClosing, connectionsClosing, connectionEpoch, Link(wsConn, teekGeneration), Link(teetConn, teetGeneration))
    }

    constructor ()
      ensures Value() == FRESH
    {
      protocolPhase, completionClaimed, completionOnce, completionChan := 0, false, false, [];
      teeKSignatureValid, teeTSignatureValid, isClosing, connectionsClosing, connectionEpoch := false, false, false, false, 0;
      wsConn, teekGeneration, teetConn, teetGeneration := None, 0, None, 0;
    }

    /** Compare and swap. */
    method ClaimProtocolCompletion() returns (claimed: bool)
      modifies this
      ensures (Value(), claimed) == Claim(old(Value()))
    {
      claimed := !completionClaimed;
      completionClaimed := true;
    }

    /** The locked part of advanceToPhase. */
    method AdvanceToPhase(newPhase: nat) returns (claimedCompletion: bool)
      modifies this
      ensures (Value(), claimedCompletion) == Advance(old(Value()), newPhase)
    {
      var oldPhase := protocolPhase;
      if newPhase <= oldPhase {
        return false;
      }
      protocolPhase := newPhase;
      claimedCompletion := false;
      if oldPhase < VALIDATING && newPhase >= VALIDATING {
        claimedCompletion := ClaimProtocolCompletion();
      }
    }

    method PublishProtocolCompletion(outcome: Outcome)
      modifies this
      ensures Value() == PublishCompletion(old(Value()), outcome)
    {
      if !completionOnce {
        completionOnce := true;
        if |completionChan| < 1 {
          completionChan := completionChan + [outcome];
        }
      }
    }

    method AcceptSignedMessage(role: Role) returns (ok: bool)
      modifies this
      ensures (Value(), ok) == Accept(old(Value()), role)
    {
      if role == TeeK {
        ok := !teeKSignatureValid;
        teeKSignatureValid := true;
      } else {
        ok := !teeTSignatureValid;
        teeTSignatureValid := true;
      }
    }

    /** The locked part of a connect after dialling. */
    method PublishConnection(role: Role, conn: Conn) returns (generation: Option<nat>)
      modifies this
      ensures (Value(), generation) == PublishConn(old(Value()), role, conn)
    {
      if connectionEpoch != conn.dialEpoch {
        return None;
      }
      if isClosing || connectionsClosing {
        return None;
      }
      if role == TeeK {
        if wsConn != None {
          return None;
        }
        teekGeneration := teekGeneration + 1;
        generation := Some(teekGeneration);
        wsConn := Some(conn);
      } else {
        if teetConn != None {
          return None;
        }
        teetGeneration := teetGeneration + 1;
        generation := Some(teetGeneration);
        teetConn := Some(conn);
      }
    }

    /** The first locked part of closeTEEConnectionsInternal. */
    method DetachConnections() returns (detached: bool)
      modifies this
      ensures (Value(), detached) == Detach(old(Value()))
    {
      if connectionsClosing {
        return false;
      }
      connectionsClosing := true;
      connectionEpoch := connectionEpoch + 1;
      wsConn, teetConn := None, None;
      return true;
    }

    method HandleTEEReadFailure(role: Role, conn: Conn, generation: nat) returns (terminate: bool)
      modifies this
      ensures (Value(), terminate) == ReadFailed(old(Value()), role, conn, generation)
    {
      if isClosing {
        return false;
      }
      var current := (role == TeeK && wsConn == Some(conn) && teekGeneration == generation) ||
                     (role == TeeT && teetConn == Some(conn) && teetGeneration == generation);
      if !current {
        return false;
      }
      isClosing := true;
      return true;
    }
  }
}
