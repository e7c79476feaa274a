/** When the answer to a batch of GRAFTs offers other peers to the sender. */
module PeerExchange {
  import opened Ids
  import opened Params
  import opened Backoff

  /** The mesh had no room for the peer, and nothing else spoke against it. */
  predicate TurnedAwayFull(s: Net, t: Topic, c: GraftContext, params: GossipSubParams) {
    t in s.mesh && |s.mesh[t]| >= params.Dhi && !c.outbound && !c.direct && c.score >= 0.0
  }

  /** What the batch has left of a topic: the mesh is as it was, or has the peer. */
  predicate SameMesh(s: Net, n: Net, t: Topic, p: Peer) {
    (t in s.mesh <==> t in n.mesh) && (t in s.mesh ==> n.mesh[t] == s.mesh[t] || p in n.mesh[t])
  }

  lemma OneKeepsMesh(r: GraftResult, p: Peer, u: Topic, c: GraftContext, params: GossipSubParams, t: Topic)
    ensures SameMesh(r.net, GraftOne(r, p, u, c, params).net, t, p)
    ensures InMesh(r.net, t, p) ==> InMesh(GraftOne(r, p, u, c, params).net, t, p)
  {
  }

  /** A GRAFT that forbids offers keeps doing so, and one for another topic does not matter. */
  lemma OneKeepsForbidding(r: GraftResult, p: Peer, u: Topic, c: GraftContext, params: GossipSubParams, t: Topic)
    ensures ForbidsPX(r.net, p, t, c) ==> ForbidsPX(GraftOne(r, p, u, c, params).net, p, t, c)
    ensures u != t && ForbidsPX(GraftOne(r, p, u, c, params).net, p, t, c) ==> ForbidsPX(r.net, p, t, c)
  {
    var expire := c.later + params.pruneBackoff;
    AddEntriesAt(r.net.backoff, u, {p}, expire, t, p);
    AddEntriesAt(r.net.backoff, u, {}, expire, t, p);
  }

  lemma OneTurnsAway(r: GraftResult, p: Peer, t: Topic, c: GraftContext, params: GossipSubParams, u: Topic)
    requires GraftOne(r, p, t, c, params).px && u in GraftOne(r, p, t, c, params).prune && u !in r.prune
    ensures u == t && p !in r.net.mesh[t] && TurnedAwayFull(r.net, t, c, params)
  {
  }

  lemma {:induction false} Batch(s: Net, p: Peer, ts: seq<Topic>, c: GraftContext, params: GossipSubParams, t: Topic)
    ensures var r := HandleGraft(s, p, ts, c, params);
            && SameMesh(s, r.net, t, p)
            && (ForbidsPX(s, p, t, c) ==> ForbidsPX(r.net, p, t, c))
            && (t !in ts && ForbidsPX(r.net, p, t, c) ==> ForbidsPX(s, p, t, c))
            && (r.px ==> c.doPX && !(t in ts && ForbidsPX(s, p, t, c)))
            && (r.px && t in r.prune ==> TurnedAwayFull(s, t, c, params))
  {
    hide GraftOne, ForbidsPX;
    if ts == [] {
      StartForbids(s, p, t, c);
    } else {
      var init, u := ts[..|ts| - 1], ts[|ts| - 1];
      var r := HandleGraft(s, p, init, c, params);
      Batch(s, p, init, c, params, t);
      assert ts == init + [u];
      OneKeepsMesh(r, p, u, c, params, t);
      OneKeepsForbidding(r, p, u, c, params, t);
      OneForbids(r, p, u, c, params);
      if GraftOne(r, p, u, c, params).px && t in GraftOne(r, p, u, c, params).prune && t !in r.prune {
        OneTurnsAway(r, p, u, c, params, t);
      }
    }
  }

  lemma OneForbids(r: GraftResult, p: Peer, u: Topic, c: GraftContext, params: GossipSubParams)
    ensures GraftOne(r, p, u, c, params).px <==> r.px && !ForbidsPX(r.net, p, u, c)
  {
  }

  lemma StartForbids(s: Net, p: Peer, t: Topic, c: GraftContext)
    ensures ForbidsPX(GraftStart(s, c).net, p, t, c) <==> ForbidsPX(s, p, t, c)
  {
  }

  /** Peers are offered only by an answer to a peer that is neither direct nor negative
      and that every topic it is turned away from had no room for. */
  lemma OffersOnlyIfFull(s: Net, p: Peer, ts: seq<Topic>, c: GraftContext, params: GossipSubParams, t: Topic)
    requires HandleGraft(s, p, ts, c, params).px && t in HandleGraft(s, p, ts, c, params).prune
    ensures c.doPX && TurnedAwayFull(s, t, c, params)
    ensures forall u :: u in ts ==> !ForbidsPX(s, p, u, c)
  {
    Batch(s, p, ts, c, params, t);
    forall u | u in ts
      ensures !ForbidsPX(s, p, u, c)
    {
      Batch(s, p, ts, c, params, u);
    }
  }

  /** Turned away for lack of room, the peer is backing off at once. */
  predicate Hides(s: Net, p: Peer, t: Topic, c: GraftContext, params: GossipSubParams) {
    && c.accepts(t) && TurnedAwayFull(s, t, c, params) && p !in s.mesh[t]
    && c.now < c.later + params.pruneBackoff
  }

  /** A GRAFT that does not forbid offers makes the next one for its topic do so
      exactly if it is turned away for lack of room. */
  lemma OneHides(r: GraftResult, p: Peer, t: Topic, c: GraftContext, params: GossipSubParams)
    requires !ForbidsPX(r.net, p, t, c)
    ensures ForbidsPX(GraftOne(r, p, t, c, params).net, p, t, c) <==> Hides(r.net, p, t, c, params)
  {
    AddEntriesAt(r.net.backoff, t, {p}, c.later + params.pruneBackoff, t, p);
  }

  lemma {:induction false} FullStaysFull(s: Net, p: Peer, ts: seq<Topic>, c: GraftContext, params: GossipSubParams,
                                         t: Topic)
    requires TurnedAwayFull(s, t, c, params) && p !in s.mesh[t]
    ensures var n := HandleGraft(s, p, ts, c, params).net; t in n.mesh && n.mesh[t] == s.mesh[t]
  {
    if ts != [] {
      FullStaysFull(s, p, ts[..|ts| - 1], c, params, t);
    }
  }

  lemma HidesSame(s: Net, p: Peer, ts: seq<Topic>, c: GraftContext, params: GossipSubParams, t: Topic)
    ensures Hides(HandleGraft(s, p, ts, c, params).net, p, t, c, params) <==> Hides(s, p, t, c, params)
  {
    Batch(s, p, ts, c, params, t);
    if Hides(s, p, t, c, params) {
      FullStaysFull(s, p, ts, c, params, t);
    }
  }

  /** As long as nothing has forbidden the offer, a topic forbids it afterwards
      exactly if it did before or the batch was turned away from it. */
  lemma {:induction false} ForbidsAfter(s: Net, p: Peer, ts: seq<Topic>, c: GraftContext, params: GossipSubParams,
                                        t: Topic)
    requires HandleGraft(s, p, ts, c, params).px
    ensures ForbidsPX(HandleGraft(s, p, ts, c, params).net, p, t, c) <==>
            ForbidsPX(s, p, t, c) || (t in ts && Hides(s, p, t, c, params))
  {
    hide GraftOne, ForbidsPX, Hides;
    if ts == [] {
      StartForbids(s, p, t, c);
    } else {
      var init, u := ts[..|ts| - 1], ts[|ts| - 1];
      var r := HandleGraft(s, p, init, c, params);
      assert ts == init + [u];
      OneForbids(r, p, u, c, params);
      ForbidsAfter(s, p, init, c, params, t);
      if u == t {
        OneHides(r, p, t, c, params);
        HidesSame(s, p, init, c, params, t);
      } else {
        OneKeepsForbidding(r, p, u, c, params, t);
      }
    }
  }

  ghost predicate Twice(ts: seq<Topic>, t: Topic) { exists i, j :: 0 <= i < j < |ts| && ts[i] == t && ts[j] == t }

  lemma TwiceNext(init: seq<Topic>, u: Topic, t: Topic)
    ensures Twice(init + [u], t) <==> Twice(init, t) || (u == t && t in init)
  {
    var ts := init + [u];
    if Twice(init, t) {
      var i, j :| 0 <= i < j < |init| && init[i] == t && init[j] == t;
      assert ts[i] == t && ts[j] == t;
    }
    if u == t && t in init {
      var i :| 0 <= i < |init| && init[i] == t;
      assert ts[i] == t && ts[|init|] == t;
    }
  }

  ghost predicate NoneForbids(s: Net, p: Peer, ts: seq<Topic>, c: GraftContext) {
    forall u :: u in ts ==> !ForbidsPX(s, p, u, c)
  }

  ghost predicate NoneHides(s: Net, p: Peer, ts: seq<Topic>, c: GraftContext, params: GossipSubParams) {
    forall t :: Twice(ts, t) ==> !Hides(s, p, t, c, params)
  }

  /** A batch is answered with an offer exactly if that is enabled, no GRAFT of it
      forbids it, and no topic named twice turns the peer away for lack of room. */
  lemma {:induction false} OffersExactly(s: Net, p: Peer, ts: seq<Topic>, c: GraftContext, params: GossipSubParams)
    ensures HandleGraft(s, p, ts, c, params).px <==>
            c.doPX && NoneForbids(s, p, ts, c) && NoneHides(s, p, ts, c, params)
  {
    hide GraftOne, ForbidsPX, Hides, Twice;
    if ts == [] {
      forall t
        ensures !Twice(ts, t)
      {
        NothingTwice(t);
      }
    } else {
      var init, u := ts[..|ts| - 1], ts[|ts| - 1];
      var r := HandleGraft(s, p, init, c, params);
      assert ts == init + [u];
      OffersExactly(s, p, init, c, params);
      OneForbids(r, p, u, c, params);
      forall t
        ensures Twice(ts, t) <==> Twice(init, t) || (u == t && t in init)
      {
        TwiceNext(init, u, t);
      }
      if r.px {
        ForbidsAfter(s, p, init, c, params, u);
      }
    }
  }

  lemma NothingTwice(t: Topic)
    ensures !Twice([], t)
  {
  }

  /** The last condition is needed: being turned away starts a backoff, and a second
      GRAFT for the topic runs into it. */
  lemma RepeatedTopicHidesOffer(s: Net, p: Peer, t: Topic, c: GraftContext, params: GossipSubParams)
    requires c.accepts(t) && TurnedAwayFull(s, t, c, params) && p !in s.mesh[t] && !BackingOff(s, p, t, c.now)
    requires c.doPX && c.now < c.later + params.pruneBackoff
    ensures HandleGraft(s, p, [t], c, params).px && !HandleGraft(s, p, [t, t], c, params).px
  {
    var s0 := GraftStart(s, c);
    var r := GraftOne(s0, p, t, c, params);
    assert [t, t][..1] == [t] && [t][..0] == [];
    AddEntriesAt(s0.net.backoff, t, {p}, c.later + params.pruneBackoff, t, p);
    assert HandleGraft(s, p, [t], c, params) == GraftOne(GraftAll(s0, p, [], c, params), p, t, c, params) == r;
    assert HandleGraft(s, p, [t, t], c, params) == GraftOne(r, p, t, c, params);
  }
}
