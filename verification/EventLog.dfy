/** Topic peer events: a log with one pending event per peer, a one-slot wake-up
    channel, and any number of consumers blocked in NextPeerEvent.

    Each locked section of the code is one step.  `emitted` is the history of what
    NextPeerEvent returned.
  */
module EventLog {
  import opened Ids

  datatype EventType = PeerJoin | PeerLeave

  datatype PeerEvent = PeerEvent(kind: EventType, peer: Peer)

  datatype Consumer = ConsumerId(n: nat)

  /** Where a consumer is: about to look at the log, or blocked on the channel.
      A consumer in neither set is not in NextPeerEvent. */
  datatype State = State(
    members: set<Peer>,
    log: map<Peer, EventType>,
    token: bool,
    pulling: set<Consumer>,
    waiting: set<Consumer>,
    emitted: seq<PeerEvent>)

  /** addToEventLog: an event cancels a pending opposite one. */
  function AddedLog(log: map<Peer, EventType>, e: PeerEvent): map<Peer, EventType> {
    if e.peer !in log then log[e.peer := e.kind] else if log[e.peer] != e.kind then log - {e.peer} else log
  }

  function AddedToken(log: map<Peer, EventType>, token: bool, e: PeerEvent): bool { token || e.peer !in log }

  function Notified(s: State, e: PeerEvent): State {
    s.(log := AddedLog(s.log, e), token := AddedToken(s.log, s.token, e))
  }

  // ------------------------------------------------------------ runs

  datatype Step =
    | SubOpt(p: Peer, subscribe: bool)
    | ClosedStream(p: Peer)
    | Call(c: Consumer)
    | Pull(c: Consumer, p: Peer)
    | Block(c: Consumer)
    | Wake(c: Consumer)
    | GiveUp(c: Consumer)

  predicate Enabled(s: State, step: Step) {
    match step
    case SubOpt(_, _) => true
    case ClosedStream(_) => true
    case Call(c) => c !in s.pulling && c !in s.waiting
    case Pull(c, p) => c in s.pulling && p in s.log
    case Block(c) => c in s.pulling && s.log == map[]
    case Wake(c) => c in s.waiting && s.token
    case GiveUp(c) => c in s.waiting
  }

  function Joined(s: State, p: Peer): State {
    if p in s.members then s else Notified(s.(members := s.members + {p}), PeerEvent(PeerJoin, p))
  }

  function Left(s: State, p: Peer): State {
    if p !in s.members then s else Notified(s.(members := s.members - {p}), PeerEvent(PeerLeave, p))
  }

  function Pulled(s: State, c: Consumer, p: Peer): State
    requires p in s.log
  {
    var log := s.log - {p};
    s.(log := log, token := s.token || log != map[], pulling := s.pulling - {c},
       emitted := s.emitted + [PeerEvent(s.log[p], p)])
  }

  function Apply(s: State, step: Step): State
    requires Enabled(s, step)
  {
    match step
    case SubOpt(p, subscribe) => if subscribe then Joined(s, p) else Left(s, p)
    case ClosedStream(p) => Left(s, p)
    case Call(c) => s.(pulling := s.pulling + {c})
    case Pull(c, p) => Pulled(s, c, p)
    case Block(c) => s.(pulling := s.pulling - {c}, waiting := s.waiting + {c})
    case Wake(c) => s.(token := false, waiting := s.waiting - {c}, pulling := s.pulling + {c})
    case GiveUp(c) => s.(waiting := s.waiting - {c})
  }

  /** A new handler logs a Join for everybody who is there, and signals nothing. */
  function NewHandler(members: set<Peer>): State {
    State(members, map p | p in members :: PeerJoin, false, {}, {}, [])
  }

  // ------------------------------------------------------------ what the history says

  /** Whether the consumer believes that p is in the topic. */
  predicate Believed(es: seq<PeerEvent>, p: Peer) {
    es != [] && (if es[|es| - 1].peer == p then es[|es| - 1].kind == PeerJoin else Believed(es[..|es| - 1], p))
  }

  /** Every event about p is news. */
  predicate Alternates(es: seq<PeerEvent>, p: Peer) {
    es != [] ==>
      && Alternates(es[..|es| - 1], p)
      && (es[|es| - 1].peer == p ==> (es[|es| - 1].kind == PeerJoin) != Believed(es[..|es| - 1], p))
  }

  /** No event about p strictly between the two positions. */
  predicate Silent(es: seq<PeerEvent>, p: Peer, i: int, j: int)
    requires -1 <= i && j <= |es|
  {
    forall k :: i < k < j ==> es[k].peer != p
  }

  lemma {:induction false} BelievedLast(es: seq<PeerEvent>, p: Peer, i: int)
    requires -1 <= i < |es| && Silent(es, p, i, |es|) && (i >= 0 ==> es[i].peer == p)
    ensures Believed(es, p) <==> i >= 0 && es[i].kind == PeerJoin
  {
    if es != [] && i < |es| - 1 {
      assert es[|es| - 1].peer != p;
      var init := es[..|es| - 1];
      assert Silent(init, p, i, |init|) by {
        forall k | i < k < |init|
          ensures init[k].peer != p
        {
          assert es[k].peer != p;
        }
      }
      BelievedLast(init, p, i);
    }
  }

  /** In words: the first event about p is a Join, and of two consecutive ones
      exactly one is. */
  lemma {:induction false} AlternatesMeans(es: seq<PeerEvent>, p: Peer, i: int, j: int)
    requires Alternates(es, p) && -1 <= i < j < |es| && es[j].peer == p
    requires Silent(es, p, i, j) && (i >= 0 ==> es[i].peer == p)
    ensures es[j].kind == PeerJoin <==> (i < 0 || es[i].kind == PeerLeave)
  {
    var init := es[..|es| - 1];
    assert forall k :: 0 <= k < |init| ==> init[k] == es[k];
    if j < |es| - 1 {
      assert Silent(init, p, i, j);
      AlternatesMeans(init, p, i, j);
    } else {
      assert Silent(init, p, i, |init|);
      BelievedLast(init, p, i);
    }
  }

  // ------------------------------------------------------------ the invariant

  /** The history and the pending event together are the membership. */
  predicate Accounted(s: State, p: Peer) {
    && Alternates(s.emitted, p)
    && (p in s.members <==> if p in s.log then s.log[p] == PeerJoin else Believed(s.emitted, p))
    && (p in s.log ==> (Believed(s.emitted, p) <==> s.log[p] == PeerLeave))
  }

  /** If there is something to pull and somebody is blocked, a token is available
      or a consumer has yet to pull. */
  predicate NoLostWakeup(s: State) { s.log != map[] && s.waiting != {} ==> s.token || s.pulling != {} }

  ghost predicate Inv(s: State) { (forall p :: Accounted(s, p)) && NoLostWakeup(s) }

  lemma NewHandlerInv(members: set<Peer>)
    ensures Inv(NewHandler(members))
  {
  }

  lemma NotifiedAccounted(s: State, e: PeerEvent, q: Peer)
    requires Accounted(s, q) && (e.peer in s.members) == (e.kind == PeerLeave)
    ensures var members := if e.kind == PeerJoin then s.members + {e.peer} else s.members - {e.peer};
            var s' := Notified(s.(members := members), e);
            Accounted(s', q)
  {
  }

  lemma PulledAccounted(s: State, c: Consumer, p: Peer, q: Peer)
    requires p in s.log && Accounted(s, p) && Accounted(s, q)
    ensures Accounted(Pulled(s, c, p), q)
  {
    var e := PeerEvent(s.log[p], p);
    var es := s.emitted + [e];
    assert es[..|es| - 1] == s.emitted && es[|es| - 1] == e;
  }

  lemma StepInv(s: State, step: Step)
    requires Inv(s) && Enabled(s, step)
    ensures Inv(Apply(s, step))
  {
    var s' := Apply(s, step);
    forall q
      ensures Accounted(s', q)
    {
      assert Accounted(s, q);
      match step
      case SubOpt(p, subscribe) =>
        if subscribe && p !in s.members {
          NotifiedAccounted(s, PeerEvent(PeerJoin, p), q);
        } else if !subscribe && p in s.members {
          NotifiedAccounted(s, PeerEvent(PeerLeave, p), q);
        }
      case ClosedStream(p) =>
        if p in s.members {
          NotifiedAccounted(s, PeerEvent(PeerLeave, p), q);
        }
      case Pull(c, p) =>
        assert Accounted(s, p);
        PulledAccounted(s, c, p, q);
      case _ =>
    }
  }

  ghost predicate IsRun(states: seq<State>, steps: seq<Step>) {
    && |states| == |steps| + 1 && states[0] == NewHandler(states[0].members)
    && forall i :: 0 <= i < |steps| ==> Enabled(states[i], steps[i]) && states[i + 1] == Apply(states[i], steps[i])
  }

  lemma {:induction false} RunInv(states: seq<State>, steps: seq<Step>, j: nat)
    requires IsRun(states, steps) && j < |states|
    ensures Inv(states[j])
  {
    if j == 0 {
      NewHandlerInv(states[0].members);
    } else {
      RunInv(states, steps, j - 1);
      StepInv(states[j - 1], steps[j - 1]);
    }
  }

  /** The events a handler emits about one peer alternate, beginning with Join. */
  lemma EventsAlternate(states: seq<State>, steps: seq<Step>, k: nat, p: Peer, i: int, j: int)
    requires IsRun(states, steps) && k < |states|
    requires var es := states[k].emitted;
             && -1 <= i < j < |es| && es[j].peer == p && Silent(es, p, i, j) && (i >= 0 ==> es[i].peer == p)
    ensures states[k].emitted[j].kind == PeerJoin <==> (i < 0 || states[k].emitted[i].kind == PeerLeave)
  {
    RunInv(states, steps, k);
    assert Accounted(states[k], p);
    AlternatesMeans(states[k].emitted, p, i, j);
  }

  /** Whoever applies the emitted and then the pending events has the membership. */
  lemma EventsAccountForMembers(states: seq<State>, steps: seq<Step>, k: nat, p: Peer)
    requires IsRun(states, steps) && k < |states|
    ensures p in states[k].members <==>
            Believed(states[k].emitted + (if p in states[k].log then [PeerEvent(states[k].log[p], p)] else []), p)
  {
    RunInv(states, steps, k);
    assert Accounted(states[k], p);
    assert states[k].emitted + [] == states[k].emitted;
  }

  /** Consumers never block for good while there is something to pull: one of
      those in NextPeerEvent can wake up or pull. */
  lemma NobodySleepsOnEvents(states: seq<State>, steps: seq<Step>, k: nat)
    requires IsRun(states, steps) && k < |states|
    requires states[k].log != map[] && (states[k].waiting != {} || states[k].pulling != {})
    ensures exists step :: Enabled(states[k], step) && (step.Wake? || step.Pull?)
  {
    RunInv(states, steps, k);
    var s := states[k];
    if s.pulling != {} {
      var c, p :| c in s.pulling && p in s.log;
      assert Enabled(s, Pull(c, p));
    } else {
      var c :| c in s.waiting;
      assert Enabled(s, Wake(c));
    }
  }

  // ------------------------------------------------------------ the handler itself

  class TopicEventHandler {
    var evtLog: map<Peer, EventType>
    var evtLogCh: bool

    /** The handler's closure in the process loop. */
    constructor (members: set<Peer>)
      ensures evtLog == NewHandler(members).log && evtLogCh == NewHandler(members).token
    {
      evtLog, evtLogCh := map[], false;
      new;
      var rest := members;
      while rest != {}
        invariant rest <= members && !evtLogCh
        invariant evtLog == map p | p in members - rest :: PeerJoin
        decreases rest
      {
        var p :| p in rest;
        rest := rest - {p};
        evtLog := evtLog[p := PeerJoin];
      }
    }

    method AddToEventLog(evt: PeerEvent)
      modifies this
      ensures evtLog == AddedLog(old(evtLog), evt) && evtLogCh == AddedToken(old(evtLog), old(evtLogCh), evt)
    {
      if evt.peer !in evtLog {
        evtLog := evtLog[evt.peer := evt.kind];
        evtLogCh := true;
      } else if evtLog[evt.peer] != evt.kind {
        evtLog := evtLog - {evt.peer};
      }
    }

    method PullFromEventLog() returns (evt: PeerEvent, ok: bool)
      modifies this`evtLog
      ensures ok <==> old(evtLog) != map[]
      ensures ok ==> evt.peer in old(evtLog) && evt.kind == old(evtLog)[evt.peer] && evtLog == old(evtLog) - {evt.peer}
      ensures !ok ==> evtLog == old(evtLog)
    {
      if evtLog.Keys != {} {
        var p :| p in evtLog.Keys;
        evt, ok := PeerEvent(evtLog[p], p), true;
        evtLog := evtLog - {p};
      } else {
        evt, ok := PeerEvent(PeerJoin, PeerId(0)), false;
      }
    }

    /** The locked section of NextPeerEvent: a Pull step if it finds an event, a
        Block step if not. */
    method TryNext(ghost s: State, ghost c: Consumer) returns (evt: PeerEvent, ok: bool)
      requires s.log == evtLog && s.token == evtLogCh && c in s.pulling
      modifies this
      ensures var step := if ok then Pull(c, evt.peer) else Block(c);
              && Enabled(s, step) && Apply(s, step).log == evtLog && Apply(s, step).token == evtLogCh
              && (ok ==> Apply(s, step).emitted == s.emitted + [evt])
    {
      evt, ok := PullFromEventLog();
      if ok {
        if |evtLog| > 0 {
          evtLogCh := true;
        }
      }
    }
  }

  /** The peers of one topic and one of its event handlers. */
  class TopicPeers {
    var members: set<Peer>
    const handler: TopicEventHandler

    constructor (members: set<Peer>)
      ensures this.members == members && fresh(handler)
      ensures handler.evtLog == NewHandler(members).log && handler.evtLogCh == NewHandler(members).token
    {
      this.members := members;
      handler := new TopicEventHandler(members);
    }

    /** One subscription option of an incoming RPC. */
    method HandleSubOpt(p: Peer, subscribe: bool, ghost s: State)
      requires s.members == members && s.log == handler.evtLog && s.token == handler.evtLogCh
      modifies this`members, handler
      ensures var s' := Apply(s, SubOpt(p, subscribe));
              s'.members == members && s'.log == handler.evtLog && s'.token == handler.evtLogCh
    {
      if subscribe {
        if p !in members {
          members := members + {p};
          handler.AddToEventLog(PeerEvent(PeerJoin, p));
        }
      } else if p in members {
        members := members - {p};
        handler.AddToEventLog(PeerEvent(PeerLeave, p));
      }
    }

    /** clearPeerFromTopicsState, for this topic. */
    method ClearPeer(p: Peer, ghost s: State)
      requires s.members == members && s.log == handler.evtLog && s.token == handler.evtLogCh
      modifies this`members, handler
      ensures var s' := Apply(s, ClosedStream(p));
              s'.members == members && s'.log == handler.evtLog && s'.token == handler.evtLogCh
    {
      if p in members {
        members := members - {p};
        handler.AddToEventLog(PeerEvent(PeerLeave, p));
      }
    }
  }
}
