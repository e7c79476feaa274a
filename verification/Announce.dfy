/** Announcing subscriptions: hello packet, bounded queues, delayed retries.

    The state of the process loop is a value and each handler a function of it;
    the class in Subscriptions.dfy implements the handlers.  For every peer and
    topic, either what the peer will believe once its queue is drained is our
    real status, or a retry with our real status is pending (`Settled`).
  */
module Announce {
  import opened Ids

  /** What a queue holds; anything but a subscription change is `Other`. */
  datatype Entry = Announcement(topic: Topic, sub: bool) | Other

  /** An outbound stream: the topics the peer has been told of so far, and the
      two queues of RPCs that are still to be written to it. */
  datatype Link = Link(helloed: bool, view: set<Topic>, normal: seq<Entry>, priority: seq<Entry>)

  /** A delayed announceRetry. */
  datatype Retry = Retry(peer: Peer, topic: Topic, sub: bool)

  datatype SubId = SubId(n: nat)

  datatype State = State(
    topics: map<Topic, bool>,         // open topic handles: fanout-only?
    subs: map<Topic, set<SubId>>,
    relays: map<Topic, nat>,
    peers: map<Peer, Link>,
    retries: multiset<Retry>)

  predicate FanoutOnly(s: State, t: Topic) { t in s.topics && s.topics[t] }

  predicate Interested(s: State, t: Topic) { t in s.subs || t in s.relays }

  /** Whether peers should believe that we are in the topic. */
  predicate Want(s: State, t: Topic) { (t in s.subs && !FanoutOnly(s, t)) || t in s.relays }

  // ------------------------------------------------------------ queues

  predicate Full(l: Link, maxSize: nat) { |l.normal| + |l.priority| == maxSize }

  function Pushed(l: Link, e: Entry): Link { l.(normal := l.normal + [e]) }

  function Received(view: set<Topic>, e: Entry): set<Topic> {
    if e.Other? then view else if e.sub then view + {e.topic} else view - {e.topic}
  }

  /** The writer takes the oldest urgent RPC, or else the oldest normal one. */
  function Popped(l: Link): Link
    requires l.normal != [] || l.priority != []
  {
    if l.priority != [] then l.(priority := l.priority[1..], view := Received(l.view, l.priority[0]))
    else l.(normal := l.normal[1..], view := Received(l.view, l.normal[0]))
  }

  predicate About(e: Entry, t: Topic) { e.Announcement? && e.topic == t }

  /** The last word on a topic in a queue, or else what was believed before. */
  function LastWord(q: seq<Entry>, t: Topic, before: bool): bool {
    if q == [] then before
    else if About(q[|q| - 1], t) then q[|q| - 1].sub else LastWord(q[..|q| - 1], t, before)
  }

  predicate Mentions(q: seq<Entry>, t: Topic) { exists i :: 0 <= i < |q| && About(q[i], t) }

  /** What the peer will believe when its queue has been drained. */
  predicate Eventually(l: Link, t: Topic) { LastWord(l.normal, t, t in l.view) }

  lemma LastWordAppend(q: seq<Entry>, e: Entry, t: Topic, before: bool)
    ensures LastWord(q + [e], t, before) == if About(e, t) then e.sub else LastWord(q, t, before)
    ensures Mentions(q + [e], t) <==> Mentions(q, t) || About(e, t)
  {
    assert (q + [e])[..|q + [e]| - 1] == q;
    assert (q + [e])[|q|] == e;
    if Mentions(q, t) {
      var i :| 0 <= i < |q| && About(q[i], t);
      assert About((q + [e])[i], t);
    }
  }

  lemma {:induction false} LastWordTail(q: seq<Entry>, t: Topic, view: set<Topic>)
    requires q != []
    ensures LastWord(q, t, t in view) == LastWord(q[1..], t, t in Received(view, q[0]))
  {
    if |q| > 1 {
      var init := q[..|q| - 1];
      LastWordTail(init, t, view);
      assert q[1..][..|q[1..]| - 1] == init[1..];
    }
  }

  lemma {:induction false} LastWordMentioned(q: seq<Entry>, t: Topic, a: bool, b: bool)
    ensures Mentions(q, t) ==> LastWord(q, t, a) == LastWord(q, t, b)
    ensures !Mentions(q, t) ==> LastWord(q, t, a) == a
  {
    if q != [] {
      LastWordMentioned(q[..|q| - 1], t, a, b);
      LastWordAppend(q[..|q| - 1], q[|q| - 1], t, a);
      LastWordAppend(q[..|q| - 1], q[|q| - 1], t, b);
      assert q == q[..|q| - 1] + [q[|q| - 1]];
    }
  }

  /** Draining the queue makes the peer believe what Eventually says. */
  function Drained(l: Link): (r: Link)
    ensures r.normal == [] && r.priority == []
    decreases |l.normal| + |l.priority|
  {
    if l.normal == [] && l.priority == [] then l else Drained(Popped(l))
  }

  /** Urgent RPCs carry no subscription changes. */
  predicate Proper(l: Link) { forall i :: 0 <= i < |l.priority| ==> l.priority[i].Other? }

  lemma PoppedEventually(l: Link, t: Topic)
    requires Proper(l) && (l.normal != [] || l.priority != [])
    ensures Proper(Popped(l)) && Eventually(Popped(l), t) == Eventually(l, t) && Popped(l).helloed == l.helloed
  {
    if l.priority == [] {
      LastWordTail(l.normal, t, l.view);
    }
  }

  lemma {:induction false} DrainedBelieves(l: Link, t: Topic)
    requires Proper(l)
    ensures t in Drained(l).view <==> Eventually(l, t)
    decreases |l.normal| + |l.priority|
  {
    if l.normal != [] || l.priority != [] {
      PoppedEventually(l, t);
      DrainedBelieves(Popped(l), t);
    }
  }

  // ------------------------------------------------------------ handlers

  function FullPeers(s: State, maxSize: nat): set<Peer> { set p | p in s.peers && Full(s.peers[p], maxSize) }

  function RetriesFor(ps: set<Peer>, t: Topic, sub: bool): multiset<Retry> {
    multiset(set p | p in ps :: Retry(p, t, sub))
  }

  /** announce: every peer's queue gets the change, or a retry is scheduled. */
  function Announced(s: State, t: Topic, sub: bool, maxSize: nat): State {
    s.(peers := map p | p in s.peers ::
         if Full(s.peers[p], maxSize) then s.peers[p] else Pushed(s.peers[p], Announcement(t, sub)),
       retries := s.retries + RetriesFor(FullPeers(s, maxSize), t, sub))
  }

  function AddTopic(s: State, t: Topic, fanoutOnly: bool): State {
    if t in s.topics then s else s.(topics := s.topics[t := fanoutOnly])
  }

  function RemoveTopic(s: State, t: Topic, handlers: bool): State {
    if t in s.topics && !handlers && !Interested(s, t) then s.(topics := s.topics - {t}) else s
  }

  function Subs(s: State, t: Topic): set<SubId> { if t in s.subs then s.subs[t] else {} }

  function Relays(s: State, t: Topic): nat { if t in s.relays then s.relays[t] else 0 }

  function AddSubscription(s: State, t: Topic, id: SubId, maxSize: nat): State {
    var s1 := if Subs(s, t) == {} && Relays(s, t) == 0 && !FanoutOnly(s, t) then Announced(s, t, true, maxSize) else s;
    s1.(subs := s.subs[t := Subs(s, t) + {id}])
  }

  function RemoveSubscription(s: State, t: Topic, id: SubId, maxSize: nat): State {
    if t !in s.subs then s
    else if s.subs[t] - {id} != {} then s.(subs := s.subs[t := s.subs[t] - {id}])
    else
      var s1 := s.(subs := s.subs - {t});
      if Relays(s, t) == 0 && !FanoutOnly(s, t) then Announced(s1, t, false, maxSize) else s1
  }

  function AddRelay(s: State, t: Topic, maxSize: nat): State {
    var s1 := s.(relays := s.relays[t := Relays(s, t) + 1]);
    if Relays(s, t) == 0 && Subs(s, t) == {} then Announced(s1, t, true, maxSize) else s1
  }

  function RemoveRelay(s: State, t: Topic, maxSize: nat): State {
    if Relays(s, t) == 0 then s
    else if Relays(s, t) > 1 then s.(relays := s.relays[t := Relays(s, t) - 1])
    else
      var s1 := s.(relays := s.relays - {t});
      if Subs(s, t) == {} then Announced(s1, t, false, maxSize) else s1
  }

  /** getHelloPacket: what we announce to a new stream. */
  function HelloTopics(s: State): set<Topic> {
    (set t | t in s.subs && !FanoutOnly(s, t)) + s.relays.Keys
  }

  function Hello(s: State, p: Peer): State {
    if p !in s.peers then s
    else s.(peers := s.peers[p := s.peers[p].(helloed := true, view := HelloTopics(s))])
  }

  /** The retry closure, run when its delay is over. */
  function Fire(s: State, r: Retry, maxSize: nat): State {
    var s1 := s.(retries := s.retries - multiset{r});
    if Interested(s, r.topic) != r.sub || r.peer !in s.peers then s1
    else if Full(s.peers[r.peer], maxSize) then s
    else s1.(peers := s.peers[r.peer := Pushed(s.peers[r.peer], Announcement(r.topic, r.sub))])
  }

  // ------------------------------------------------------------ runs

  datatype Step =
    | OpenTopic(t: Topic, fanoutOnly: bool)
    | CloseTopic(t: Topic, handlers: bool)
    | Subscribe(t: Topic, id: SubId)
    | Cancel(t: Topic, id: SubId)
    | Relay(t: Topic)
    | CancelRelay(t: Topic)
    | Connect(p: Peer)
    | SendHello(p: Peer)
    | Disconnect(p: Peer)
    | Write(p: Peer)
    | Enqueue(p: Peer, urgent: bool)
    | Retrying(r: Retry)

  /** Subscribing and relaying go through an open topic handle, and relaying is
      refused on a fanout-only one. */
  predicate Enabled(s: State, step: Step, maxSize: nat) {
    match step
    case OpenTopic(t, _) => true
    case CloseTopic(t, _) => true
    case Subscribe(t, _) => t in s.topics
    case Cancel(t, _) => true
    case Relay(t) => t in s.topics && !FanoutOnly(s, t)
    case CancelRelay(t) => true
    case Connect(p) => p !in s.peers
    case SendHello(p) => p in s.peers && !s.peers[p].helloed
    case Disconnect(p) => true
    case Write(p) => p in s.peers && s.peers[p].helloed && (s.peers[p].normal != [] || s.peers[p].priority != [])
    case Enqueue(p, _) => p in s.peers && !Full(s.peers[p], maxSize)
    case Retrying(r) => r in s.retries
  }

  function Apply(s: State, step: Step, maxSize: nat): State
    requires Enabled(s, step, maxSize)
  {
    match step
    case OpenTopic(t, fanoutOnly) => AddTopic(s, t, fanoutOnly)
    case CloseTopic(t, handlers) => RemoveTopic(s, t, handlers)
    case Subscribe(t, id) => AddSubscription(s, t, id, maxSize)
    case Cancel(t, id) => RemoveSubscription(s, t, id, maxSize)
    case Relay(t) => AddRelay(s, t, maxSize)
    case CancelRelay(t) => RemoveRelay(s, t, maxSize)
    case Connect(p) => s.(peers := s.peers[p := Link(false, {}, [], [])])
    case SendHello(p) => Hello(s, p)
    case Disconnect(p) => s.(peers := s.peers - {p})
    case Write(p) => s.(peers := s.peers[p := Popped(s.peers[p])])
    case Enqueue(p, urgent) =>
      s.(peers := s.peers[p := if urgent then s.peers[p].(priority := s.peers[p].priority + [Other])
                               else Pushed(s.peers[p], Other)])
    case Retrying(r) => Fire(s, r, maxSize)
  }

  // ------------------------------------------------------------ the invariant

  /** Nobody has been told anything wrong, or nothing at all yet. */
  predicate Good(l: Link, t: Topic, want: bool) {
    (!l.helloed && !Mentions(l.normal, t)) || Eventually(l, t) == want
  }

  predicate Settled(s: State, p: Peer, t: Topic) {
    p in s.peers ==>
      || Good(s.peers[p], t, Want(s, t))
      || (!FanoutOnly(s, t) && Retry(p, t, Want(s, t)) in s.retries)
  }

  predicate NotStale(s: State, p: Peer, t: Topic) { FanoutOnly(s, t) ==> Retry(p, t, true) !in s.retries }

  /** Every subscription and relay belongs to an open handle. */
  predicate Owned(s: State, t: Topic) {
    && (t in s.subs ==> s.subs[t] != {} && t in s.topics)
    && (t in s.relays ==> s.relays[t] > 0 && t in s.topics && !FanoutOnly(s, t))
  }

  predicate LinkOk(s: State, p: Peer) { p in s.peers ==> Proper(s.peers[p]) }

  predicate OkAt(s: State, p: Peer, t: Topic) { LinkOk(s, p) && Settled(s, p, t) && NotStale(s, p, t) }

  /** The invariant is about one topic; topics do not depend on each other. */
  ghost predicate Inv(s: State, t: Topic) { Owned(s, t) && forall p :: OkAt(s, p, t) }

  /** No trace of an earlier, ordinary life of the topic is left: no peer is
      about to believe that we are in it, and no retry is going to tell one. */
  ghost predicate Clean(s: State, t: Topic) {
    forall p :: Retry(p, t, true) !in s.retries && (p in s.peers ==> Good(s.peers[p], t, false))
  }

  /** The step does not open t fanout-only, or t is clean. */
  ghost predicate Careful(s: State, step: Step, t: Topic) {
    step == OpenTopic(t, true) && t !in s.topics ==> Clean(s, t)
  }

  // ------------------------------------------------------------ its preservation

  lemma RetriesForHas(ps: set<Peer>, t: Topic, sub: bool, r: Retry)
    ensures r in RetriesFor(ps, t, sub) <==> r.peer in ps && r.topic == t && r.sub == sub
  {
    if r.peer in ps && r.topic == t && r.sub == sub {
      assert r == Retry(r.peer, t, sub);
    }
  }

  lemma PushedAt(l: Link, e: Entry, t: Topic, want: bool)
    ensures !About(e, t) ==> (Good(Pushed(l, e), t, want) <==> Good(l, t, want))
    ensures About(e, t) && e.sub == want ==> Good(Pushed(l, e), t, want)
  {
    LastWordAppend(l.normal, e, t, t in l.view);
  }

  /** What an announcement does for one peer and topic. */
  lemma AnnouncedAt(s: State, t: Topic, sub: bool, maxSize: nat, p: Peer, u: Topic, want: bool)
    ensures var s' := Announced(s, t, sub, maxSize);
            && (p in s'.peers <==> p in s.peers)
            && (u != t ==> forall b :: Retry(p, u, b) in s'.retries <==> Retry(p, u, b) in s.retries)
            && (p in s.peers && u != t ==> (Good(s'.peers[p], u, want) <==> Good(s.peers[p], u, want)))
            && (p in s.peers ==> Good(s'.peers[p], t, sub) || Retry(p, t, sub) in s'.retries)
            && (forall q, b :: Retry(q, u, b) in s'.retries ==> Retry(q, u, b) in s.retries || (u == t && b == sub))
  {
    forall q, b
      ensures Retry(q, u, b) in RetriesFor(FullPeers(s, maxSize), t, sub)
              <==> q in FullPeers(s, maxSize) && u == t && b == sub
    {
      RetriesForHas(FullPeers(s, maxSize), t, sub, Retry(q, u, b));
    }
    RetriesForHas(FullPeers(s, maxSize), t, sub, Retry(p, t, sub));
    if p in s.peers {
      PushedAt(s.peers[p], Announcement(t, sub), u, want);
      PushedAt(s.peers[p], Announcement(t, sub), t, sub);
    }
  }

  /** An announcement about another topic, or one with the new status of this one. */
  lemma AnnouncedOk(s: State, s1: State, u: Topic, sub: bool, maxSize: nat, t: Topic)
    requires (forall p :: OkAt(s, p, t)) && s1.peers == s.peers && s1.retries == s.retries
    requires FanoutOnly(s1, t) == FanoutOnly(s, t)
    requires if t == u then Want(s1, t) == sub && !FanoutOnly(s1, t) else Want(s1, t) == Want(s, t)
    ensures forall p :: OkAt(Announced(s1, u, sub, maxSize), p, t)
  {
    var s' := Announced(s1, u, sub, maxSize);
    forall p
      ensures OkAt(s', p, t)
    {
      assert OkAt(s, p, t);
      AnnouncedAt(s1, u, sub, maxSize, p, t, Want(s1, t));
    }
  }

  /** Our status has not changed. */
  lemma QuietOk(s: State, s': State, t: Topic)
    requires (forall p :: OkAt(s, p, t)) && s'.peers == s.peers && s'.retries == s.retries
    requires Want(s', t) == Want(s, t) && (FanoutOnly(s', t) ==> FanoutOnly(s, t))
    ensures forall p :: OkAt(s', p, t)
  {
    forall p
      ensures OkAt(s', p, t)
    {
      assert OkAt(s, p, t);
    }
  }

  /** One peer's link has changed, to one that is as good. */
  lemma LinkOkay(s: State, s': State, q: Peer, t: Topic)
    requires Inv(s, t) && q in s'.peers && s' == s.(peers := s.peers[q := s'.peers[q]]) && LinkOk(s', q)
    requires || Good(s'.peers[q], t, Want(s, t))
             || (q in s.peers && (Good(s.peers[q], t, Want(s, t)) ==> Good(s'.peers[q], t, Want(s, t))))
    ensures Inv(s', t)
  {
    forall p
      ensures OkAt(s', p, t)
    {
      assert OkAt(s, p, t);
    }
  }

  lemma OpenTopicOk(s: State, u: Topic, fanoutOnly: bool, t: Topic)
    requires Inv(s, t) && Careful(s, OpenTopic(u, fanoutOnly), t)
    ensures Inv(AddTopic(s, u, fanoutOnly), t)
  {
    var s' := AddTopic(s, u, fanoutOnly);
    forall p
      ensures OkAt(s', p, t)
    {
      assert OkAt(s, p, t);
    }
  }

  lemma CloseTopicOk(s: State, u: Topic, handlers: bool, t: Topic)
    requires Inv(s, t)
    ensures Inv(RemoveTopic(s, u, handlers), t)
  {
    QuietOk(s, RemoveTopic(s, u, handlers), t);
  }

  lemma SubscribeOk(s: State, u: Topic, id: SubId, maxSize: nat, t: Topic)
    requires Inv(s, t) && u in s.topics
    ensures Inv(AddSubscription(s, u, id, maxSize), t)
  {
    var s1 := s.(subs := s.subs[u := Subs(s, u) + {id}]);
    if Subs(s, u) == {} && Relays(s, u) == 0 && !FanoutOnly(s, u) {
      assert AddSubscription(s, u, id, maxSize) == Announced(s1, u, true, maxSize);
      AnnouncedOk(s, s1, u, true, maxSize, t);
    } else {
      QuietOk(s, s1, t);
    }
  }

  lemma CancelOk(s: State, u: Topic, id: SubId, maxSize: nat, t: Topic)
    requires Inv(s, t)
    ensures Inv(RemoveSubscription(s, u, id, maxSize), t)
  {
    if u in s.subs && s.subs[u] - {id} == {} && Relays(s, u) == 0 && !FanoutOnly(s, u) {
      AnnouncedOk(s, s.(subs := s.subs - {u}), u, false, maxSize, t);
    } else {
      QuietOk(s, RemoveSubscription(s, u, id, maxSize), t);
    }
  }

  lemma RelayOk(s: State, u: Topic, maxSize: nat, t: Topic)
    requires Inv(s, t) && u in s.topics && !FanoutOnly(s, u)
    ensures Inv(AddRelay(s, u, maxSize), t)
  {
    if Relays(s, u) == 0 && Subs(s, u) == {} {
      AnnouncedOk(s, s.(relays := s.relays[u := Relays(s, u) + 1]), u, true, maxSize, t);
    } else {
      QuietOk(s, AddRelay(s, u, maxSize), t);
    }
  }

  lemma CancelRelayOk(s: State, u: Topic, maxSize: nat, t: Topic)
    requires Inv(s, t)
    ensures Inv(RemoveRelay(s, u, maxSize), t)
  {
    if Relays(s, u) == 1 && Subs(s, u) == {} {
      AnnouncedOk(s, s.(relays := s.relays - {u}), u, false, maxSize, t);
    } else {
      QuietOk(s, RemoveRelay(s, u, maxSize), t);
    }
  }

  lemma HelloOk(s: State, p: Peer, t: Topic)
    requires Inv(s, t) && p in s.peers && !s.peers[p].helloed
    ensures Inv(Hello(s, p), t)
  {
    LastWordMentioned(s.peers[p].normal, t, t in s.peers[p].view, t in HelloTopics(s));
    LastWordMentioned(s.peers[p].normal, t, t in HelloTopics(s), t in HelloTopics(s));
    assert OkAt(s, p, t);
    LinkOkay(s, Hello(s, p), p, t);
  }

  lemma ConnectOk(s: State, p: Peer, t: Topic)
    requires Inv(s, t) && p !in s.peers
    ensures Inv(s.(peers := s.peers[p := Link(false, {}, [], [])]), t)
  {
    LinkOkay(s, s.(peers := s.peers[p := Link(false, {}, [], [])]), p, t);
  }

  lemma DisconnectOk(s: State, p: Peer, t: Topic)
    requires Inv(s, t)
    ensures Inv(s.(peers := s.peers - {p}), t)
  {
    var s' := s.(peers := s.peers - {p});
    forall q
      ensures OkAt(s', q, t)
    {
      assert OkAt(s, q, t);
    }
  }

  lemma WriteOk(s: State, p: Peer, t: Topic)
    requires Inv(s, t) && p in s.peers && s.peers[p].helloed && (s.peers[p].normal != [] || s.peers[p].priority != [])
    ensures Inv(s.(peers := s.peers[p := Popped(s.peers[p])]), t)
  {
    assert OkAt(s, p, t);
    PoppedEventually(s.peers[p], t);
    LinkOkay(s, s.(peers := s.peers[p := Popped(s.peers[p])]), p, t);
  }

  lemma EnqueueOk(s: State, p: Peer, l: Link, t: Topic)
    requires Inv(s, t) && p in s.peers
    requires l == s.peers[p].(priority := s.peers[p].priority + [Other]) || l == Pushed(s.peers[p], Other)
    ensures Inv(s.(peers := s.peers[p := l]), t)
  {
    assert OkAt(s, p, t);
    PushedAt(s.peers[p], Other, t, Want(s, t));
    LinkOkay(s, s.(peers := s.peers[p := l]), p, t);
  }

  /** A dropped retry was not what settled anything: our status has changed since
      it was scheduled, or nobody is there. */
  lemma DroppedOk(s: State, r: Retry, p: Peer, t: Topic)
    requires OkAt(s, p, t) && Owned(s, t) && r in s.retries
    requires Interested(s, r.topic) != r.sub || r.peer !in s.peers
    ensures OkAt(s.(retries := s.retries - multiset{r}), p, t)
  {
  }

  /** A delivered one settles its topic. */
  lemma DeliveredOk(s: State, r: Retry, p: Peer, t: Topic)
    requires OkAt(s, p, t) && OkAt(s, r.peer, t) && Owned(s, t) && r in s.retries
    requires Interested(s, r.topic) == r.sub && r.peer in s.peers
    ensures OkAt(s.(retries := s.retries - multiset{r},
                    peers := s.peers[r.peer := Pushed(s.peers[r.peer], Announcement(r.topic, r.sub))]), p, t)
  {
    PushedAt(s.peers[r.peer], Announcement(r.topic, r.sub), t, Want(s, t));
  }

  lemma FireOk(s: State, r: Retry, maxSize: nat, t: Topic)
    requires Inv(s, t) && r in s.retries
    ensures Inv(Fire(s, r, maxSize), t)
  {
    var s' := Fire(s, r, maxSize);
    forall p
      ensures OkAt(s', p, t)
    {
      assert OkAt(s, p, t) && OkAt(s, r.peer, t);
      if Interested(s, r.topic) != r.sub || r.peer !in s.peers {
        DroppedOk(s, r, p, t);
      } else if !Full(s.peers[r.peer], maxSize) {
        DeliveredOk(s, r, p, t);
      }
    }
  }

  lemma StepOk(s: State, step: Step, maxSize: nat, t: Topic)
    requires Inv(s, t) && Enabled(s, step, maxSize) && Careful(s, step, t)
    ensures Inv(Apply(s, step, maxSize), t)
  {
    match step
    case OpenTopic(u, fanoutOnly) => OpenTopicOk(s, u, fanoutOnly, t);
    case CloseTopic(u, handlers) => CloseTopicOk(s, u, handlers, t);
    case Subscribe(u, id) => SubscribeOk(s, u, id, maxSize, t);
    case Cancel(u, id) => CancelOk(s, u, id, maxSize, t);
    case Relay(u) => RelayOk(s, u, maxSize, t);
    case CancelRelay(u) => CancelRelayOk(s, u, maxSize, t);
    case Connect(p) => ConnectOk(s, p, t);
    case SendHello(p) => HelloOk(s, p, t);
    case Disconnect(p) => DisconnectOk(s, p, t);
    case Write(p) => WriteOk(s, p, t);
    case Enqueue(p, urgent) =>
      var l := s.peers[p];
      EnqueueOk(s, p, if urgent then l.(priority := l.priority + [Other]) else Pushed(l, Other), t);
    case Retrying(r) => FireOk(s, r, maxSize, t);
  }

  ghost predicate IsRun(states: seq<State>, steps: seq<Step>, maxSize: nat) {
    && |states| == |steps| + 1 && states[0] == State(map[], map[], map[], map[], multiset{})
    && forall i :: 0 <= i < |steps| ==>
         Enabled(states[i], steps[i], maxSize) && states[i + 1] == Apply(states[i], steps[i], maxSize)
  }

  lemma {:induction false} RunInv(states: seq<State>, steps: seq<Step>, maxSize: nat, j: nat, t: Topic)
    requires IsRun(states, steps, maxSize) && j < |states|
    requires forall i :: 0 <= i < j ==> Careful(states[i], steps[i], t)
    ensures Inv(states[j], t)
  {
    if j > 0 {
      RunInv(states, steps, maxSize, j - 1, t);
      StepOk(states[j - 1], steps[j - 1], maxSize, t);
    }
  }

  lemma SubscribeOwned(s: State, u: Topic, id: SubId, maxSize: nat, t: Topic)
    requires Owned(s, t)
    ensures u in s.topics ==> Owned(AddSubscription(s, u, id, maxSize), t)
    ensures Owned(RemoveSubscription(s, u, id, maxSize), t)
  {
    hide Full, Pushed, RetriesFor, FullPeers;
  }

  lemma RelayOwned(s: State, u: Topic, maxSize: nat, t: Topic)
    requires Owned(s, t)
    ensures u in s.topics && !FanoutOnly(s, u) ==> Owned(AddRelay(s, u, maxSize), t)
    ensures Owned(RemoveRelay(s, u, maxSize), t)
  {
    hide Full, Pushed, RetriesFor, FullPeers;
  }

  lemma StepOwned(s: State, step: Step, maxSize: nat, t: Topic)
    requires Owned(s, t) && Enabled(s, step, maxSize)
    ensures Owned(Apply(s, step, maxSize), t)
  {
    hide Full, Pushed, Popped, HelloTopics, AddSubscription, RemoveSubscription, AddRelay, RemoveRelay;
    match step
    case Subscribe(u, id) => SubscribeOwned(s, u, id, maxSize, t);
    case Cancel(u, id) => SubscribeOwned(s, u, id, maxSize, t);
    case Relay(u) => RelayOwned(s, u, maxSize, t);
    case CancelRelay(u) => RelayOwned(s, u, maxSize, t);
    case _ =>
  }

  /** In every run, however topics are opened, subscriptions and relays belong to an
      open handle, and relays to one that is not fanout-only. */
  lemma {:induction false} OwnedInRuns(states: seq<State>, steps: seq<Step>, maxSize: nat, j: nat, t: Topic)
    requires IsRun(states, steps, maxSize) && j < |states|
    ensures Owned(states[j], t)
  {
    if j > 0 {
      OwnedInRuns(states, steps, maxSize, j - 1, t);
      StepOwned(states[j - 1], steps[j - 1], maxSize, t);
    }
  }

  /** The peer will believe what is true about the topic once its queue is drained,
      or a retry that says so is pending. */
  predicate Converges(s: State, p: Peer, t: Topic)
    requires p in s.peers
  {
    || (t in Drained(s.peers[p]).view <==> Want(s, t))
    || (!FanoutOnly(s, t) && Retry(p, t, Want(s, t)) in s.retries)
  }

  lemma InvConverges(s: State, p: Peer, t: Topic)
    requires Inv(s, t) && p in s.peers && s.peers[p].helloed
    ensures Converges(s, p, t)
  {
    assert OkAt(s, p, t);
    DrainedBelieves(s.peers[p], t);
  }

  /** Convergence, for a topic that was never opened fanout-only: in every state of
      every run, whatever happens to other topics. */
  lemma AnnouncementsConverge(states: seq<State>, steps: seq<Step>, maxSize: nat, j: nat, p: Peer, t: Topic)
    requires IsRun(states, steps, maxSize) && j < |states|
    requires forall i :: 0 <= i < j ==> steps[i] != OpenTopic(t, true)
    requires p in states[j].peers && states[j].peers[p].helloed
    ensures Converges(states[j], p, t) && !FanoutOnly(states[j], t)
  {
    RunInv(states, steps, maxSize, j, t);
    InvConverges(states[j], p, t);
    NeverFanoutOnly(states, steps, maxSize, j, t);
  }

  lemma {:induction false} NeverFanoutOnly(states: seq<State>, steps: seq<Step>, maxSize: nat, j: nat, t: Topic)
    requires IsRun(states, steps, maxSize) && j < |states|
    requires forall i :: 0 <= i < j ==> steps[i] != OpenTopic(t, true)
    ensures !FanoutOnly(states[j], t)
  {
    if j > 0 {
      NeverFanoutOnly(states, steps, maxSize, j - 1, t);
      assert states[j] == Apply(states[j - 1], steps[j - 1], maxSize);
    }
  }

  /** Convergence for any topic: it needs only that this topic was clean whenever
      it was opened fanout-only. */
  lemma CleanOpeningsConverge(states: seq<State>, steps: seq<Step>, maxSize: nat, j: nat, p: Peer, t: Topic)
    requires IsRun(states, steps, maxSize) && j < |states|
    requires forall i :: 0 <= i < j ==> Careful(states[i], steps[i], t)
    requires p in states[j].peers && states[j].peers[p].helloed
    ensures Converges(states[j], p, t)
  {
    RunInv(states, steps, maxSize, j, t);
    InvConverges(states[j], p, t);
  }
}
