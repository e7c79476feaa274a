/** The condition of CleanOpeningsConverge is exact: opening a topic fanout-only
    while a trace of its ordinary life is left can always be continued to a state
    in which a peer believes something wrong and nothing is under way to correct
    it; that lasts until the topic is opened again or the stream ends. */
module AnnounceLimits {
  import opened Basics
  import opened Ids
  import opened Announce

  /** From s to s' by these steps. */
  ghost predicate Path<S, A>(next: (S, A) -> Option<S>, s: S, steps: seq<A>, s': S)
    decreases |steps|
  {
    if steps == [] then s' == s
    else next(s, steps[0]).Some? && Path(next, next(s, steps[0]).value, steps[1..], s')
  }

  lemma {:induction false} PathChain<S, A>(next: (S, A) -> Option<S>, s: S, a: seq<A>, m: S, b: seq<A>, s': S)
    requires Path(next, s, a, m) && Path(next, m, b, s')
    ensures Path(next, s, a + b, s')
    decreases |a|
  {
    if a == [] {
      assert a + b == b;
    } else {
      PathChain(next, next(s, a[0]).value, a[1..], m, b, s');
      assert (a + b)[0] == a[0] && (a + b)[1..] == a[1..] + b;
    }
  }

  function Next(maxSize: nat): (State, Step) -> Option<State> {
    (s, step) => if Enabled(s, step, maxSize) then Some(Apply(s, step, maxSize)) else None
  }

  ghost predicate Leads(s: State, steps: seq<Step>, s': State, maxSize: nat) { Path(Next(maxSize), s, steps, s') }

  lemma Chain(s: State, a: seq<Step>, m: State, b: seq<Step>, s': State, maxSize: nat)
    requires Leads(s, a, m, maxSize) && Leads(m, b, s', maxSize)
    ensures Leads(s, a + b, s', maxSize)
  {
    PathChain(Next(maxSize), s, a, m, b, s');
  }

  lemma Then(s: State, a: seq<Step>, m: State, step: Step, maxSize: nat)
    requires Leads(s, a, m, maxSize) && Enabled(m, step, maxSize)
    ensures Leads(s, a + [step], Apply(m, step, maxSize), maxSize)
  {
    var s' := Apply(m, step, maxSize);
    assert Next(maxSize)(m, step) == Some(s');
    assert Path(Next(maxSize), s', [step][1..], s');
    PathChain(Next(maxSize), s, a, m, [step], s');
  }

  /** The peer believes that we are in a topic that we are not in, and nothing is
      under way that would correct it. */
  ghost predicate Misled(s: State, p: Peer, t: Topic) {
    && p in s.peers && s.peers[p].helloed && t in Drained(s.peers[p]).view
    && !Want(s, t) && !FanoutOnly(s, t) && Retry(p, t, false) !in s.retries
  }

  /** Moreover the topic is closed. */
  predicate Stuck(s: State, p: Peer, t: Topic) {
    && p in s.peers && s.peers[p].helloed && Proper(s.peers[p]) && Eventually(s.peers[p], t)
    && t !in s.topics && t !in s.subs && t !in s.relays && Retry(p, t, false) !in s.retries
  }

  lemma StuckIsMisled(s: State, p: Peer, t: Topic)
    requires Stuck(s, p, t)
    ensures Misled(s, p, t)
  {
    DrainedBelieves(s.peers[p], t);
  }

  lemma SubscriptionsStayStuck(s: State, u: Topic, id: SubId, maxSize: nat, p: Peer, t: Topic)
    requires Stuck(s, p, t)
    ensures u in s.topics ==> Stuck(AddSubscription(s, u, id, maxSize), p, t)
    ensures Stuck(RemoveSubscription(s, u, id, maxSize), p, t)
  {
    hide Eventually, Proper, Announced;
    OtherTopic(s, u, true, maxSize, p, t);
    OtherTopic(s.(subs := s.subs - {u}), u, false, maxSize, p, t);
  }

  lemma RelaysStayStuck(s: State, u: Topic, maxSize: nat, p: Peer, t: Topic)
    requires Stuck(s, p, t)
    ensures u in s.topics ==> Stuck(AddRelay(s, u, maxSize), p, t)
    ensures Stuck(RemoveRelay(s, u, maxSize), p, t)
  {
    hide Eventually, Proper, Announced;
    OtherTopic(s.(relays := s.relays[u := Relays(s, u) + 1]), u, true, maxSize, p, t);
    OtherTopic(s.(relays := s.relays - {u}), u, false, maxSize, p, t);
  }

  lemma RetryStaysStuck(s: State, r: Retry, maxSize: nat, p: Peer, t: Topic)
    requires Stuck(s, p, t) && r in s.retries
    ensures Stuck(Fire(s, r, maxSize), p, t)
  {
    hide Eventually, Proper, Pushed, Full;
    OtherEntry(s.peers[p], Announcement(r.topic, r.sub), t);
  }

  /** Nothing but opening the topic again or losing the stream helps. */
  lemma StaysStuck(s: State, step: Step, maxSize: nat, p: Peer, t: Topic)
    requires Stuck(s, p, t) && Enabled(s, step, maxSize)
    requires step != Disconnect(p) && !(step.OpenTopic? && step.t == t)
    ensures Stuck(Apply(s, step, maxSize), p, t)
  {
    hide Eventually, Proper, AddSubscription, RemoveSubscription, AddRelay, RemoveRelay, Fire, Popped;
    match step
    case Subscribe(u, id) => SubscriptionsStayStuck(s, u, id, maxSize, p, t);
    case Cancel(u, id) => SubscriptionsStayStuck(s, u, id, maxSize, p, t);
    case Relay(u) => RelaysStayStuck(s, u, maxSize, p, t);
    case CancelRelay(u) => RelaysStayStuck(s, u, maxSize, p, t);
    case Write(q) =>
      if q == p {
        PoppedEventually(s.peers[p], t);
      }
    case Enqueue(_, _) => OtherEntry(s.peers[p], Other, t);
    case Retrying(r) => RetryStaysStuck(s, r, maxSize, p, t);
    case _ =>
  }

  lemma OtherEntry(l: Link, e: Entry, t: Topic)
    requires Proper(l)
    ensures !About(e, t) ==> Eventually(Pushed(l, e), t) == Eventually(l, t)
    ensures Proper(Pushed(l, e)) && Pushed(l, e).helloed == l.helloed
    ensures Proper(l.(priority := l.priority + [Other]))
    ensures Eventually(l.(priority := l.priority + [Other]), t) == Eventually(l, t)
  {
    LastWordAppend(l.normal, e, t, t in l.view);
  }

  /** An announcement about another topic changes nothing for this one. */
  lemma OtherTopic(s: State, u: Topic, sub: bool, maxSize: nat, p: Peer, t: Topic)
    requires p in s.peers && Proper(s.peers[p])
    ensures var s' := Announced(s, u, sub, maxSize);
            && s' == s.(peers := s'.peers, retries := s'.retries) && p in s'.peers
            && s'.peers[p].helloed == s.peers[p].helloed && Proper(s'.peers[p])
            && (u != t ==> Eventually(s'.peers[p], t) == Eventually(s.peers[p], t))
            && (u != t ==> (Retry(p, t, false) in s'.retries <==> Retry(p, t, false) in s.retries))
  {
    OtherEntry(s.peers[p], Announcement(u, sub), t);
    RetriesForHas(FullPeers(s, maxSize), u, sub, Retry(p, t, false));
  }

  /** Subscribed once to a topic that is open fanout-only. */
  predicate Subscribed(s: State, t: Topic, id: SubId) {
    FanoutOnly(s, t) && t in s.subs && s.subs[t] == {id} && t !in s.relays
  }

  /** While we are subscribed, retries that say otherwise are dropped. */
  lemma {:induction false} DropRetries(s: State, p: Peer, t: Topic, maxSize: nat) returns (steps: seq<Step>, s': State)
    requires t in s.subs
    ensures Leads(s, steps, s', maxSize)
    ensures s' == s.(retries := s'.retries) && Retry(p, t, false) !in s'.retries
    decreases s.retries[Retry(p, t, false)]
  {
    var r := Retry(p, t, false);
    if r in s.retries {
      var m := Fire(s, r, maxSize);
      assert m == Apply(s, Retrying(r), maxSize);
      var rest;
      rest, s' := DropRetries(m, p, t, maxSize);
      steps := [Retrying(r)] + rest;
      assert steps[0] == Retrying(r) && steps[1..] == rest;
    } else {
      steps, s' := [], s;
    }
  }

  /** A peer that is about to believe in a fanout-only topic ends up misled. */
  lemma Mislead(s: State, p: Peer, t: Topic, id: SubId, maxSize: nat) returns (steps: seq<Step>, s': State)
    requires Subscribed(s, t, id)
    requires p in s.peers && s.peers[p].helloed && Proper(s.peers[p]) && Eventually(s.peers[p], t)
    ensures Leads(s, steps, s', maxSize) && Stuck(s', p, t)
  {
    var s1;
    steps, s1 := DropRetries(s, p, t, maxSize);
    var s2 := RemoveSubscription(s1, t, id, maxSize);
    assert s2 == s1.(subs := s1.subs - {t});
    Then(s, steps, s1, Cancel(t, id), maxSize);
    s' := RemoveTopic(s2, t, false);
    Then(s, steps + [Cancel(t, id)], s2, CloseTopic(t, false), maxSize);
    steps := steps + [Cancel(t, id)] + [CloseTopic(t, false)];
  }

  lemma ApplyHello(s: State, p: Peer, t: Topic)
    requires p in s.peers && !s.peers[p].helloed && Proper(s.peers[p])
    ensures var s' := Hello(s, p);
            && s' == s.(peers := s'.peers) && p in s'.peers && s'.peers[p].helloed && Proper(s'.peers[p])
            && (!Good(s.peers[p], t, false) ==> Eventually(s'.peers[p], t))
  {
    LastWordMentioned(s.peers[p].normal, t, t in s.peers[p].view, t in HelloTopics(s));
  }

  /** Connecting the peer and giving it a hello, if that has not happened yet. */
  lemma Greet(s: State, p: Peer, t: Topic, maxSize: nat) returns (steps: seq<Step>, s': State)
    requires LinkOk(s, p)
    ensures Leads(s, steps, s', maxSize)
    ensures s' == s.(peers := s'.peers) && p in s'.peers && s'.peers[p].helloed && Proper(s'.peers[p])
    ensures p in s.peers && !Good(s.peers[p], t, false) ==> Eventually(s'.peers[p], t)
  {
    steps, s' := [], s;
    if p !in s.peers {
      Then(s, steps, s', Connect(p), maxSize);
      steps, s' := steps + [Connect(p)], Apply(s', Connect(p), maxSize);
    }
    if !s'.peers[p].helloed {
      ApplyHello(s', p, t);
      Then(s, steps, s', SendHello(p), maxSize);
      steps, s' := steps + [SendHello(p)], Apply(s', SendHello(p), maxSize);
    }
  }

  lemma MakeRoom(s: State, p: Peer, t: Topic, maxSize: nat) returns (steps: seq<Step>, s': State)
    requires maxSize > 0 && p in s.peers && s.peers[p].helloed && Proper(s.peers[p])
    ensures Leads(s, steps, s', maxSize) && s' == s.(peers := s'.peers)
    ensures p in s'.peers && s'.peers[p].helloed && Proper(s'.peers[p]) && !Full(s'.peers[p], maxSize)
  {
    steps, s' := [], s;
    if Full(s.peers[p], maxSize) {
      PoppedEventually(s.peers[p], t);
      Then(s, steps, s', Write(p), maxSize);
      steps, s' := steps + [Write(p)], Apply(s', Write(p), maxSize);
    }
  }

  /** Making room in its queue and letting the stale retry run. */
  lemma RunStaleRetry(s: State, p: Peer, t: Topic, id: SubId, maxSize: nat) returns (steps: seq<Step>, s': State)
    requires maxSize > 0 && Subscribed(s, t, id) && Retry(p, t, true) in s.retries
    requires p in s.peers && s.peers[p].helloed && Proper(s.peers[p])
    ensures Leads(s, steps, s', maxSize) && Subscribed(s', t, id)
    ensures p in s'.peers && s'.peers[p].helloed && Proper(s'.peers[p]) && Eventually(s'.peers[p], t)
  {
    var m;
    steps, m := MakeRoom(s, p, t, maxSize);
    var r := Retry(p, t, true);
    Then(s, steps, m, Retrying(r), maxSize);
    steps, s' := steps + [Retrying(r)], Fire(m, r, maxSize);
    assert s'.peers[p] == Pushed(m.peers[p], Announcement(t, true));
    LastWordAppend(m.peers[p].normal, Announcement(t, true), t, t in m.peers[p].view);
  }

  lemma OpenAndSubscribe(s: State, t: Topic, id: SubId, maxSize: nat) returns (steps: seq<Step>, s': State)
    requires t !in s.topics && t !in s.subs && t !in s.relays
    ensures Leads(s, steps, s', maxSize) && steps != [] && steps[0] == OpenTopic(t, true)
    ensures Subscribed(s', t, id) && s' == s.(topics := s'.topics, subs := s'.subs)
  {
    var s1 := AddTopic(s, t, true);
    assert Leads(s, [], s, maxSize);
    Then(s, [], s, OpenTopic(t, true), maxSize);
    assert Subs(s1, t) == {} && {} + {id} == {id};
    s' := AddSubscription(s1, t, id, maxSize);
    Then(s, [] + [OpenTopic(t, true)], s1, Subscribe(t, id), maxSize);
    steps := [] + [OpenTopic(t, true)] + [Subscribe(t, id)];
  }

  /** With OpenTopicOk: opening a topic fanout-only is harmless exactly if it is clean. */
  lemma UncleanOpeningMisleads(s: State, t: Topic, maxSize: nat)
    returns (steps: seq<Step>, s': State, p: Peer)
    requires Inv(s, t) && t !in s.topics && !Clean(s, t) && maxSize > 0
    ensures Leads(s, steps, s', maxSize) && steps != [] && steps[0] == OpenTopic(t, true) && Stuck(s', p, t)
  {
    p :| Retry(p, t, true) in s.retries || (p in s.peers && !Good(s.peers[p], t, false));
    assert OkAt(s, p, t);
    var id := SubId(0);
    var begin, s2 := OpenAndSubscribe(s, t, id, maxSize);
    var a, s3 := Greet(s2, p, t, maxSize);
    Chain(s, begin, s2, a, s3, maxSize);
    var sofar, m := begin + a, s3;
    if !Eventually(s3.peers[p], t) {
      var b;
      b, m := RunStaleRetry(s3, p, t, id, maxSize);
      Chain(s, sofar, s3, b, m, maxSize);
      sofar := sofar + b;
    }
    var c;
    c, s' := Mislead(m, p, t, id, maxSize);
    Chain(s, sofar, m, c, s', maxSize);
    steps := sofar + c;
  }

  /** One peer, in sync with us, and a queue of one. */
  function Start(p: Peer): State {
    State(map[], map[], map[], map[p := Link(true, {}, [], [])], multiset{})
  }

  function Pending(p: Peer, t: Topic): Link { Link(true, {}, [Announcement(t, true)], []) }

  lemma StartIsReachable(p: Peer)
    ensures Leads(State(map[], map[], map[], map[], multiset{}), [Connect(p), SendHello(p)], Start(p), 1)
  {
    var s0 := State(map[], map[], map[], map[], multiset{});
    var s1 := Apply(s0, Connect(p), 1);
    var s2 := Apply(s1, SendHello(p), 1);
    assert HelloTopics(s1) == {};
    assert s2.peers == Start(p).peers;
    assert Leads(s0, [], s0, 1);
    Then(s0, [], s0, Connect(p), 1);
    Then(s0, [] + [Connect(p)], s1, SendHello(p), 1);
    assert [] + [Connect(p)] + [SendHello(p)] == [Connect(p), SendHello(p)];
  }

  lemma FirstAnnouncement(p: Peer, t: Topic, id: SubId)
    ensures AddSubscription(AddTopic(Start(p), t, false), t, id, 1)
            == State(map[t := false], map[t := {id}], map[], map[p := Pending(p, t)], multiset{})
  {
    var s := AddTopic(Start(p), t, false);
    assert FullPeers(s, 1) == {};
    assert (set q | q in FullPeers(s, 1) :: Retry(q, t, true)) == {};
    assert RetriesFor(FullPeers(s, 1), t, true) == multiset{};
    assert [] + [Announcement(t, true)] == [Announcement(t, true)];
    assert Announced(s, t, true, 1).peers == map[p := Pending(p, t)];
    assert {} + {id} == {id};
  }

  lemma SecondAnnouncement(p: Peer, t: Topic, id: SubId)
    ensures RemoveSubscription(State(map[t := false], map[t := {id}], map[], map[p := Pending(p, t)], multiset{}),
                               t, id, 1)
            == State(map[t := false], map[], map[], map[p := Pending(p, t)], multiset{Retry(p, t, false)})
  {
    var s := State(map[t := false], map[], map[], map[p := Pending(p, t)], multiset{});
    assert FullPeers(s, 1) == {p};
    assert (set q | q in {p} :: Retry(q, t, false)) == {Retry(p, t, false)};
    assert Announced(s, t, false, 1).peers == map[p := Pending(p, t)];
    assert {id} - {id} == {} && map[t := {id}] - {t} == map[];
  }

  /** An ordinary run gets there: with a queue of one, subscribing and cancelling
      leaves the second announcement to a retry, and the topic can be closed. */
  lemma UncleanIsReachable(p: Peer, t: Topic, id: SubId) returns (steps: seq<Step>, s: State)
    ensures Leads(State(map[], map[], map[], map[], multiset{}), steps, s, 1) && t !in s.topics && !Clean(s, t)
  {
    var s0 := State(map[], map[], map[], map[], multiset{});
    StartIsReachable(p);
    FirstAnnouncement(p, t, id);
    SecondAnnouncement(p, t, id);
    var s2 := AddTopic(Start(p), t, false);
    var s3 := AddSubscription(s2, t, id, 1);
    var s4 := RemoveSubscription(s3, t, id, 1);
    s := RemoveTopic(s4, t, false);
    steps := [Connect(p), SendHello(p)];
    Then(s0, steps, Start(p), OpenTopic(t, false), 1);
    steps := steps + [OpenTopic(t, false)];
    Then(s0, steps, s2, Subscribe(t, id), 1);
    steps := steps + [Subscribe(t, id)];
    Then(s0, steps, s3, Cancel(t, id), 1);
    steps := steps + [Cancel(t, id)];
    Then(s0, steps, s4, CloseTopic(t, false), 1);
    steps := steps + [CloseTopic(t, false)];
    assert !Good(Pending(p, t), t, false);
  }
}
