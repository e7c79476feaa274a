/** The handlers of the process loop that announce subscriptions. */
module Subscriptions {
  import opened Ids
  import opened Announce

  lemma RetriesForNext(ps: set<Peer>, p: Peer, t: Topic, sub: bool)
    requires p !in ps
    ensures RetriesFor(ps + {p}, t, sub) == RetriesFor(ps, t, sub) + multiset{Retry(p, t, sub)}
  {
    var a := set q | q in ps :: Retry(q, t, sub);
    assert (set q | q in ps + {p} :: Retry(q, t, sub)) == a + {Retry(p, t, sub)};
    assert Retry(p, t, sub) !in a;
  }

  lemma AnnouncedIs(s: State, t: Topic, sub: bool, maxSize: nat, peers: map<Peer, Link>, full: set<Peer>)
    requires forall p :: p in full <==> p in s.peers && Full(s.peers[p], maxSize)
    requires peers.Keys == s.peers.Keys
    requires forall p :: p in peers ==>
               peers[p] == if Full(s.peers[p], maxSize) then s.peers[p] else Pushed(s.peers[p], Announcement(t, sub))
    ensures Announced(s, t, sub, maxSize) == s.(peers := peers, retries := s.retries + RetriesFor(full, t, sub))
  {
    assert full == FullPeers(s, maxSize);
    assert peers == Announced(s, t, sub, maxSize).peers;
  }

  class PubSub {
    const maxSize: nat
    var topics: map<Topic, bool>
    var subs: map<Topic, set<SubId>>
    var relays: map<Topic, nat>
    var peers: map<Peer, Link>
    var retries: multiset<Retry>

    constructor (maxSize: nat)
      requires maxSize > 0
      ensures this.maxSize == maxSize && Abs() == State(map[], map[], map[], map[], multiset{})
    {
      this.maxSize := maxSize;
      topics, subs, relays, peers, retries := map[], map[], map[], map[], multiset{};
    }

    ghost function Abs(): State
      reads this
    {
      State(topics, subs, relays, peers, retries)
    }

    /** A push that does not block: it fails on a full queue. */
    method Push(p: Peer, e: Entry) returns (ok: bool)
      requires p in peers
      modifies this`peers
      ensures ok == !Full(old(peers[p]), maxSize)
      ensures peers == if ok then old(peers)[p := Pushed(old(peers[p]), e)] else old(peers)
    {
      var q := peers[p];
      if |q.normal| + |q.priority| == maxSize {
        return false;
      }
      peers := peers[p := q.(normal := q.normal + [e])];
      return true;
    }

    /** The writer of a stream takes the next RPC: urgent ones first. */
    method WriteNext(p: Peer)
      requires p in peers && (peers[p].normal != [] || peers[p].priority != [])
      modifies this`peers
      ensures peers == old(peers)[p := Popped(old(peers[p]))]
    {
      var q := peers[p];
      if |q.priority| > 0 {
        peers := peers[p := q.(priority := q.priority[1..], view := Received(q.view, q.priority[0]))];
      } else {
        peers := peers[p := q.(normal := q.normal[1..], view := Received(q.view, q.normal[0]))];
      }
    }

    /** A peer gets an announcement, or a retry is scheduled for it. */
    method AnnounceTo(p: Peer, topic: Topic, sub: bool)
      requires p in peers
      modifies this`peers, this`retries
      ensures Full(old(peers[p]), maxSize) ==>
                peers == old(peers) && retries == old(retries) + multiset{Retry(p, topic, sub)}
      ensures !Full(old(peers[p]), maxSize) ==>
                peers == old(peers)[p := Pushed(old(peers[p]), Announcement(topic, sub))] && retries == old(retries)
    {
      var ok := Push(p, Announcement(topic, sub));
      if !ok {
        retries := retries + multiset{Retry(p, topic, sub)};
      }
    }

    method AnnounceTopic(topic: Topic, sub: bool)
      modifies this`peers, this`retries
      ensures Abs() == Announced(old(Abs()), topic, sub, maxSize)
    {
      hide Announced, RetriesFor, FullPeers, Full, Pushed;
      ghost var start, full := Abs(), {};
      var rest := peers.Keys;
      RetriesForNone(topic, sub);
      while rest != {}
        invariant rest <= start.peers.Keys && peers.Keys == start.peers.Keys
        invariant forall p :: p in full <==> p in start.peers && p !in rest && Full(start.peers[p], maxSize)
        invariant forall p :: p in peers ==>
                    peers[p] == if p in rest || Full(start.peers[p], maxSize) then start.peers[p]
                                else Pushed(start.peers[p], Announcement(topic, sub))
        invariant retries == start.retries + RetriesFor(full, topic, sub)
        decreases rest
      {
        var p :| p in rest;
        rest := rest - {p};
        RetriesForNext(full, p, topic, sub);
        full := if Full(peers[p], maxSize) then full + {p} else full;
        AnnounceTo(p, topic, sub);
      }
      AnnouncedIs(start, topic, sub, maxSize, peers, full);
    }

    static lemma RetriesForNone(t: Topic, sub: bool)
      ensures RetriesFor({}, t, sub) == multiset{}
    {
      var none: set<Peer> := {};
      assert (set q | q in none :: Retry(q, t, sub)) == {};
    }

    method HandleAddTopic(topic: Topic, fanoutOnly: bool)
      modifies this`topics
      ensures Abs() == AddTopic(old(Abs()), topic, fanoutOnly)
    {
      if topic !in topics {
        topics := topics[topic := fanoutOnly];
      }
    }

    method HandleRemoveTopic(topic: Topic, handlers: bool) returns (ok: bool)
      requires Owned(Abs(), topic)
      modifies this`topics
      ensures Abs() == RemoveTopic(old(Abs()), topic, handlers)
      ensures ok <==> topic !in topics
    {
      if topic !in topics {
        return true;
      }
      if !handlers && (topic !in subs || |subs[topic]| == 0) && (topic !in relays || relays[topic] == 0) {
        topics := topics - {topic};
        return true;
      }
      return false;
    }

    method HandleRemoveSubscription(topic: Topic, sub: SubId)
      modifies this`subs, this`peers, this`retries
      ensures Abs() == RemoveSubscription(old(Abs()), topic, sub, maxSize)
    {
      if topic !in subs {
        return;
      }
      var left := subs[topic] - {sub};
      subs := subs[topic := left];
      if |left| == 0 {
        subs := subs - {topic};
        assert subs == old(subs) - {topic};
        if topic !in relays || relays[topic] == 0 {
          if topic !in topics || !topics[topic] {
            AnnounceTopic(topic, false);
          }
        }
      }
    }

    method HandleAddSubscription(topic: Topic, sub: SubId)
      modifies this`subs, this`peers, this`retries
      ensures Abs() == AddSubscription(old(Abs()), topic, sub, maxSize)
    {
      var mine := if topic in subs then subs[topic] else {};
      if |mine| == 0 && (topic !in relays || relays[topic] == 0) {
        if topic !in topics || !topics[topic] {
          AnnounceTopic(topic, true);
        }
      }
      subs := subs[topic := mine + {sub}];
    }

    method HandleAddRelay(topic: Topic)
      modifies this`relays, this`peers, this`retries
      ensures Abs() == AddRelay(old(Abs()), topic, maxSize)
    {
      relays := relays[topic := (if topic in relays then relays[topic] else 0) + 1];
      if relays[topic] == 1 && (topic !in subs || |subs[topic]| == 0) {
        AnnounceTopic(topic, true);
      }
    }

    method HandleRemoveRelay(topic: Topic)
      modifies this`relays, this`peers, this`retries
      ensures Abs() == RemoveRelay(old(Abs()), topic, maxSize)
    {
      if topic !in relays || relays[topic] == 0 {
        return;
      }
      relays := relays[topic := relays[topic] - 1];
      if relays[topic] == 0 {
        relays := relays - {topic};
        assert relays == old(relays) - {topic};
        if topic !in subs || |subs[topic]| == 0 {
          AnnounceTopic(topic, false);
        }
      }
    }

    method GetHelloPacket() returns (hello: set<Topic>)
      ensures hello == HelloTopics(Abs())
    {
      hello := {};
      var rest := subs.Keys;
      while rest != {}
        invariant rest <= subs.Keys
        invariant hello == set t | t in subs && t !in rest && !FanoutOnly(Abs(), t)
        decreases rest
      {
        var t :| t in rest;
        rest := rest - {t};
        if t in topics && topics[t] {
          continue;
        }
        hello := hello + {t};
      }
      ghost var own := hello;
      rest := relays.Keys;
      while rest != {}
        invariant rest <= relays.Keys
        invariant hello == own + (relays.Keys - rest)
        decreases rest
      {
        var t :| t in rest;
        rest := rest - {t};
        hello := hello + {t};
      }
    }

    method SendHelloPacket(p: Peer)
      modifies this`peers
      ensures Abs() == Hello(old(Abs()), p)
    {
      if p in peers {
        var hello := GetHelloPacket();
        peers := peers[p := peers[p].(helloed := true, view := hello)];
      }
    }

    /** The closure of announceRetry, run in the process loop after the delay. */
    method RunRetry(r: Retry)
      requires r in retries
      modifies this`peers, this`retries
      ensures Abs() == Fire(old(Abs()), r, maxSize)
    {
      hide Full, Pushed;
      retries := retries - multiset{r};
      var ok := r.topic in subs || r.topic in relays;
      if (ok && r.sub) || (!ok && !r.sub) {
        if r.peer in peers {
          AnnounceTo(r.peer, r.topic, r.sub);
        }
      }
    }
  }
}
