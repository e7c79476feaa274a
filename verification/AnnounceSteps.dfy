/** What a run of calls makes us want, told by the calls alone, and convergence to it. */
module AnnounceSteps {
  import opened Basics
  import opened Ids
  import opened Announce

  // ------------------------------------------------------------ by the calls alone

  /** Subscribed, and not cancelled since. */
  ghost predicate Subscribed(steps: seq<Step>, t: Topic, id: SubId) {
    exists i :: 0 <= i < |steps| && steps[i] == Subscribe(t, id) && NotCancelled(steps, i + 1, t, id)
  }

  ghost predicate NotCancelled(steps: seq<Step>, i: nat, t: Topic, id: SubId) {
    forall k :: i <= k < |steps| ==> steps[k] != Cancel(t, id)
  }

  /** Relays added and not yet removed; removing one that is not there does nothing. */
  function Relaying(steps: seq<Step>, t: Topic): nat {
    if steps == [] then 0
    else
      var n, step := Relaying(steps[..|steps| - 1], t), steps[|steps| - 1];
      if step == Relay(t) then n + 1 else if step == CancelRelay(t) && n > 0 then n - 1 else n
  }

  ghost predicate Interesting(steps: seq<Step>, t: Topic) {
    (exists id :: Subscribed(steps, t, id)) || Relaying(steps, t) > 0
  }

  /** The open handle, fanout-only or not: a topic is opened once and closed only
      without handlers and interest. */
  ghost function Handle(steps: seq<Step>, t: Topic): Option<bool> {
    if steps == [] then None
    else
      var init, step := steps[..|steps| - 1], steps[|steps| - 1];
      var h := Handle(init, t);
      if h.None? && step.OpenTopic? && step.t == t then Some(step.fanoutOnly)
      else if step == CloseTopic(t, false) && !Interesting(init, t) then None
      else h
  }

  /** What peers should know: we are in the topic, and not only to publish. */
  ghost predicate Wanted(steps: seq<Step>, t: Topic) { Interesting(steps, t) && Handle(steps, t) != Some(true) }

  // ------------------------------------------------------------ and by the state

  lemma SubscribedNext(init: seq<Step>, step: Step, t: Topic, id: SubId)
    ensures Subscribed(init + [step], t, id) <==>
            step == Subscribe(t, id) || (Subscribed(init, t, id) && step != Cancel(t, id))
  {
    var steps := init + [step];
    if Subscribed(init, t, id) && step != Cancel(t, id) {
      var i :| 0 <= i < |init| && init[i] == Subscribe(t, id) && NotCancelled(init, i + 1, t, id);
      assert steps[i] == Subscribe(t, id) && NotCancelled(steps, i + 1, t, id);
    }
    if step == Subscribe(t, id) {
      assert steps[|init|] == Subscribe(t, id) && NotCancelled(steps, |init| + 1, t, id);
    }
    if Subscribed(steps, t, id) && step != Subscribe(t, id) {
      var i :| 0 <= i < |steps| && steps[i] == Subscribe(t, id) && NotCancelled(steps, i + 1, t, id);
      assert steps[|init|] == step && init[i] == steps[i];
      forall k | i + 1 <= k < |init|
        ensures init[k] != Cancel(t, id)
      {
        assert steps[k] == init[k];
      }
      assert NotCancelled(init, i + 1, t, id);
    }
  }

  /** What we are interested in ourselves, about one topic and subscription. */
  datatype Interest = Interest(subscribed: bool, relays: nat, handle: Option<bool>)

  function InterestIn(s: State, t: Topic, id: SubId): Interest {
    Interest(id in Subs(s, t), Relays(s, t), if t in s.topics then Some(s.topics[t]) else None)
  }

  lemma AnnouncedKeeps(s: State, u: Topic, sub: bool, maxSize: nat, t: Topic, id: SubId)
    ensures InterestIn(Announced(s, u, sub, maxSize), t, id) == InterestIn(s, t, id)
    ensures var s' := Announced(s, u, sub, maxSize); s'.subs == s.subs && s'.relays == s.relays && s'.topics == s.topics
  {
  }

  lemma SubscribeInterest(s: State, u: Topic, i: SubId, maxSize: nat, t: Topic, id: SubId)
    ensures InterestIn(AddSubscription(s, u, i, maxSize), t, id)
            == InterestIn(s, t, id).(subscribed := id in Subs(s, t) || (u == t && i == id))
    ensures InterestIn(RemoveSubscription(s, u, i, maxSize), t, id)
            == InterestIn(s, t, id).(subscribed := id in Subs(s, t) && !(u == t && i == id))
  {
    hide Announced;
    AnnouncedKeeps(s, u, true, maxSize, t, id);
    if u in s.subs {
      AnnouncedKeeps(s.(subs := s.subs - {u}), u, false, maxSize, t, id);
    }
  }

  lemma RelayInterest(s: State, u: Topic, maxSize: nat, t: Topic, id: SubId)
    ensures InterestIn(AddRelay(s, u, maxSize), t, id)
            == InterestIn(s, t, id).(relays := Relays(s, t) + if u == t then 1 else 0)
    ensures InterestIn(RemoveRelay(s, u, maxSize), t, id)
            == InterestIn(s, t, id).(relays := if u == t && Relays(s, t) > 0 then Relays(s, t) - 1 else Relays(s, t))
  {
    hide Announced;
    AnnouncedKeeps(s.(relays := s.relays[u := Relays(s, u) + 1]), u, true, maxSize, t, id);
    AnnouncedKeeps(s.(relays := s.relays - {u}), u, false, maxSize, t, id);
  }

  lemma HandleInterest(s: State, u: Topic, flag: bool, t: Topic, id: SubId)
    ensures var v := InterestIn(s, t, id);
            && InterestIn(AddTopic(s, u, flag), t, id)
               == v.(handle := if u == t && t !in s.topics then Some(flag) else v.handle)
            && InterestIn(RemoveTopic(s, u, flag), t, id)
               == v.(handle := if u == t && !flag && !Interested(s, t) then None else v.handle)
  {
  }

  /** What one step does to it. */
  function Changed(v: Interest, step: Step, t: Topic, id: SubId, interested: bool): Interest {
    match step
    case Subscribe(u, i) => if u == t && i == id then v.(subscribed := true) else v
    case Cancel(u, i) => if u == t && i == id then v.(subscribed := false) else v
    case Relay(u) => if u == t then v.(relays := v.relays + 1) else v
    case CancelRelay(u) => if u == t && v.relays > 0 then v.(relays := v.relays - 1) else v
    case OpenTopic(u, flag) => if u == t && v.handle.None? then v.(handle := Some(flag)) else v
    case CloseTopic(u, handlers) => if u == t && !handlers && !interested then v.(handle := None) else v
    case _ => v
  }

  lemma StepInterest(s: State, step: Step, maxSize: nat, t: Topic, id: SubId)
    requires Enabled(s, step, maxSize)
    ensures InterestIn(Apply(s, step, maxSize), t, id) == Changed(InterestIn(s, t, id), step, t, id, Interested(s, t))
  {
    hide AddSubscription, RemoveSubscription, AddRelay, RemoveRelay, AddTopic, RemoveTopic, Full, Pushed, Popped;
    hide HelloTopics, Interested;
    match step
    case Subscribe(u, i) => SubscribeInterest(s, u, i, maxSize, t, id);
    case Cancel(u, i) => SubscribeInterest(s, u, i, maxSize, t, id);
    case Relay(u) => RelayInterest(s, u, maxSize, t, id);
    case CancelRelay(u) => RelayInterest(s, u, maxSize, t, id);
    case OpenTopic(u, flag) => HandleInterest(s, u, flag, t, id);
    case CloseTopic(u, handlers) => HandleInterest(s, u, handlers, t, id);
    case _ =>
  }

  /** In every run, exactly those subscriptions are there that were made and not
      cancelled since, and as many relays as were added and not yet removed. */
  lemma {:induction false} InterestFollows(states: seq<State>, steps: seq<Step>, maxSize: nat, j: nat, t: Topic,
                                           id: SubId)
    requires IsRun(states, steps, maxSize) && j < |states|
    ensures id in Subs(states[j], t) <==> Subscribed(steps[..j], t, id)
    ensures Relays(states[j], t) == Relaying(steps[..j], t)
  {
    hide Subscribed, Apply, Enabled;
    if j == 0 {
      NothingSubscribed(t, id);
      assert steps[..0] == [];
    } else {
      InterestFollows(states, steps, maxSize, j - 1, t, id);
      StepInterest(states[j - 1], steps[j - 1], maxSize, t, id);
      SubscribedNext(steps[..j - 1], steps[j - 1], t, id);
      assert steps[..j] == steps[..j - 1] + [steps[j - 1]] && steps[..j][..j - 1] == steps[..j - 1];
    }
  }

  lemma NothingSubscribed(t: Topic, id: SubId)
    ensures !Subscribed([], t, id)
  {
  }

  lemma InterestedIs(states: seq<State>, steps: seq<Step>, maxSize: nat, j: nat, t: Topic)
    requires IsRun(states, steps, maxSize) && j < |states|
    ensures Interested(states[j], t) <==> Interesting(steps[..j], t)
  {
    hide Subscribed, Apply, Enabled;
    OwnedInRuns(states, steps, maxSize, j, t);
    forall id
      ensures id in Subs(states[j], t) <==> Subscribed(steps[..j], t, id)
      ensures Relays(states[j], t) == Relaying(steps[..j], t)
    {
      InterestFollows(states, steps, maxSize, j, t, id);
    }
    InterestFollows(states, steps, maxSize, j, t, SubId(0));
    if t in states[j].subs {
      var id :| id in states[j].subs[t];
      assert Subscribed(steps[..j], t, id);
    }
  }

  /** And the handle is open as the calls say. */
  lemma {:induction false} HandleFollows(states: seq<State>, steps: seq<Step>, maxSize: nat, j: nat, t: Topic)
    requires IsRun(states, steps, maxSize) && j < |states|
    ensures Handle(steps[..j], t) == if t in states[j].topics then Some(states[j].topics[t]) else None
  {
    hide Interesting, Apply, Enabled, Interested;
    if j > 0 {
      HandleFollows(states, steps, maxSize, j - 1, t);
      InterestedIs(states, steps, maxSize, j - 1, t);
      StepInterest(states[j - 1], steps[j - 1], maxSize, t, SubId(0));
      assert steps[..j][..j - 1] == steps[..j - 1] && steps[..j][j - 1] == steps[j - 1];
    }
  }

  lemma WantedIs(states: seq<State>, steps: seq<Step>, maxSize: nat, j: nat, t: Topic)
    requires IsRun(states, steps, maxSize) && j < |states|
    ensures Want(states[j], t) <==> Wanted(steps[..j], t)
  {
    hide IsRun, Interesting;
    InterestedIs(states, steps, maxSize, j, t);
    HandleFollows(states, steps, maxSize, j, t);
    OwnedInRuns(states, steps, maxSize, j, t);
  }

  // ------------------------------------------------------------ convergence

  /** The peer will believe, once its queue is drained, what the calls so far want it to
      believe, or a retry that says so is pending. */
  ghost predicate ConvergesTo(s: State, p: Peer, t: Topic, want: bool)
    requires p in s.peers
  {
    (t in Drained(s.peers[p]).view <==> want) || Retry(p, t, want) in s.retries
  }

  /** In every run, for a topic never opened fanout-only: peers will believe that we are
      in it exactly if there is a subscription that was not cancelled or a relay that
      was not removed. */
  lemma PeersLearnInterest(states: seq<State>, steps: seq<Step>, maxSize: nat, j: nat, p: Peer, t: Topic)
    requires IsRun(states, steps, maxSize) && j < |states|
    requires forall i :: 0 <= i < j ==> steps[i] != OpenTopic(t, true)
    requires p in states[j].peers && states[j].peers[p].helloed
    ensures ConvergesTo(states[j], p, t, Interesting(steps[..j], t))
  {
    hide IsRun, Interesting, Interested;
    AnnouncementsConverge(states, steps, maxSize, j, p, t);
    InterestedIs(states, steps, maxSize, j, t);
    WantIsInterest(states[j], t);
  }

  lemma WantIsInterest(s: State, t: Topic)
    requires !FanoutOnly(s, t)
    ensures Want(s, t) <==> Interested(s, t)
  {
  }

  /** For any topic that was clean whenever it was opened fanout-only. */
  lemma PeersLearnWanted(states: seq<State>, steps: seq<Step>, maxSize: nat, j: nat, p: Peer, t: Topic)
    requires IsRun(states, steps, maxSize) && j < |states|
    requires forall i :: 0 <= i < j ==> Careful(states[i], steps[i], t)
    requires p in states[j].peers && states[j].peers[p].helloed
    ensures ConvergesTo(states[j], p, t, Wanted(steps[..j], t))
  {
    hide IsRun, Wanted, Want;
    CleanOpeningsConverge(states, steps, maxSize, j, p, t);
    WantedIs(states, steps, maxSize, j, t);
  }

  // ------------------------------------------------------------ streams and queues

  /** How many RPCs wait for the peer. */
  function Waiting(s: State, p: Peer): nat {
    if p in s.peers then |s.peers[p].normal| + |s.peers[p].priority| else 0
  }

  predicate Heard(s: State, p: Peer) { p in s.peers && s.peers[p].helloed }

  lemma AnnouncedLengths(s: State, t: Topic, sub: bool, maxSize: nat, p: Peer)
    ensures Announced(s, t, sub, maxSize).peers.Keys == s.peers.Keys
    ensures Heard(Announced(s, t, sub, maxSize), p) == Heard(s, p)
    ensures Waiting(Announced(s, t, sub, maxSize), p)
            == Waiting(s, p) + if p in s.peers && Waiting(s, p) != maxSize then 1 else 0
  {
  }

  lemma InterestLengths(s: State, step: Step, maxSize: nat, p: Peer)
    requires Enabled(s, step, maxSize) && (step.Subscribe? || step.Cancel? || step.Relay? || step.CancelRelay?)
    ensures Apply(s, step, maxSize).peers.Keys == s.peers.Keys && Heard(Apply(s, step, maxSize), p) == Heard(s, p)
    ensures Waiting(s, p) <= Waiting(Apply(s, step, maxSize), p)
            <= Waiting(s, p) + if Waiting(s, p) != maxSize then 1 else 0
  {
    hide Announced;
    match step
    case Subscribe(t, id) => AnnouncedLengths(s, t, true, maxSize, p);
    case Cancel(t, id) => AnnouncedLengths(s.(subs := s.subs - {t}), t, false, maxSize, p);
    case Relay(t) => AnnouncedLengths(s.(relays := s.relays[t := Relays(s, t) + 1]), t, true, maxSize, p);
    case CancelRelay(t) => AnnouncedLengths(s.(relays := s.relays - {t}), t, false, maxSize, p);
  }

  /** Other traffic adds one RPC, the writer takes one away. */
  lemma TrafficExactly(s: State, maxSize: nat, p: Peer, urgent: bool)
    requires p in s.peers
    ensures Enabled(s, Enqueue(p, urgent), maxSize) ==>
              Waiting(Apply(s, Enqueue(p, urgent), maxSize), p) == Waiting(s, p) + 1
    ensures Enabled(s, Write(p), maxSize) ==> Waiting(Apply(s, Write(p), maxSize), p) == Waiting(s, p) - 1
  {
  }

  lemma StepBounded(s: State, step: Step, maxSize: nat, p: Peer)
    requires Enabled(s, step, maxSize) && Waiting(s, p) <= maxSize
    ensures Waiting(Apply(s, step, maxSize), p) <= maxSize
  {
    hide AddSubscription, RemoveSubscription, AddRelay, RemoveRelay, HelloTopics, Received;
    if step.Subscribe? || step.Cancel? || step.Relay? || step.CancelRelay? {
      InterestLengths(s, step, maxSize, p);
    }
  }

  /** In every run no queue holds more than it may. */
  lemma {:induction false} QueuesBounded(states: seq<State>, steps: seq<Step>, maxSize: nat, j: nat, p: Peer)
    requires IsRun(states, steps, maxSize) && j < |states|
    ensures Waiting(states[j], p) <= maxSize
  {
    hide Apply, Enabled;
    if j > 0 {
      QueuesBounded(states, steps, maxSize, j - 1, p);
      StepBounded(states[j - 1], steps[j - 1], maxSize, p);
    }
  }

  /** Connected, and not disconnected since. */
  function Connected(steps: seq<Step>, p: Peer): bool {
    if steps == [] then false
    else
      var step := steps[|steps| - 1];
      step == Connect(p) || (step != Disconnect(p) && Connected(steps[..|steps| - 1], p))
  }

  /** And greeted since. */
  function Greeted(steps: seq<Step>, p: Peer): bool {
    if steps == [] then false
    else
      var step := steps[|steps| - 1];
      step == SendHello(p) || (step != Disconnect(p) && step != Connect(p) && Greeted(steps[..|steps| - 1], p))
  }

  lemma FireConnections(s: State, r: Retry, maxSize: nat, p: Peer)
    ensures Fire(s, r, maxSize).peers.Keys == s.peers.Keys && Heard(Fire(s, r, maxSize), p) == Heard(s, p)
  {
  }

  lemma StepConnection(s: State, step: Step, maxSize: nat, p: Peer)
    requires Enabled(s, step, maxSize)
    ensures var s' := Apply(s, step, maxSize);
            && (p in s'.peers <==> step == Connect(p) || (step != Disconnect(p) && p in s.peers))
            && (Heard(s', p) <==>
                  step == SendHello(p) || (step != Disconnect(p) && step != Connect(p) && Heard(s, p)))
  {
    hide AddSubscription, RemoveSubscription, AddRelay, RemoveRelay, HelloTopics, Received, Full, Fire;
    if step.Retrying? {
      FireConnections(s, step.r, maxSize, p);
    }
    if step.Subscribe? || step.Cancel? || step.Relay? || step.CancelRelay? {
      InterestLengths(s, step, maxSize, p);
    }
  }

  /** In every run the streams are those that the calls connected and greeted. */
  lemma {:induction false} ConnectionsFollow(states: seq<State>, steps: seq<Step>, maxSize: nat, j: nat, p: Peer)
    requires IsRun(states, steps, maxSize) && j < |states|
    ensures p in states[j].peers <==> Connected(steps[..j], p)
    ensures Heard(states[j], p) <==> Greeted(steps[..j], p)
  {
    hide Apply, Enabled;
    if j > 0 {
      ConnectionsFollow(states, steps, maxSize, j - 1, p);
      StepConnection(states[j - 1], steps[j - 1], maxSize, p);
      assert steps[..j][..j - 1] == steps[..j - 1] && steps[..j][j - 1] == steps[j - 1];
    }
  }
}
