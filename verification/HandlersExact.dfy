/** What the router's handlers do to every peer in every topic: who is in a mesh and
    until when it is backed off, told pointwise and without the functions that
    compute it. */
module HandlersExact {
  import opened Basics
  import opened Ids
  import opened Params
  import opened MeshTopic
  import opened MeshExact
  import opened Backoff

  function MeshOf(s: Net, t: Topic): set<Peer> { if t in s.mesh then s.mesh[t] else {} }

  /** The later one of an entry, if there is any, and e. */
  function Until(entry: Option<Time>, e: Time): Time {
    if entry.Some? && entry.value > e then entry.value else e
  }

  predicate Waiting(s: Net, t: Topic, p: Peer, now: Time) {
    Entry(s.backoff, t, p).Some? && now < Entry(s.backoff, t, p).value
  }

  // ------------------------------------------------------------ a batch of GRAFTs

  /** The GRAFT is about a mesh that we have and that the peer is not in. */
  predicate Asks(s: Net, p: Peer, t: Topic, c: GraftContext) { c.accepts(t) && t in s.mesh && p !in s.mesh[t] }

  predicate Welcome(s: Net, p: Peer, t: Topic, c: GraftContext, params: GossipSubParams) {
    && !c.direct && c.score >= 0.0 && !Waiting(s, t, p, c.now)
    && (|MeshOf(s, t)| < params.Dhi || c.outbound)
  }

  predicate Admits(s: Net, p: Peer, ts: seq<Topic>, t: Topic, c: GraftContext, params: GossipSubParams) {
    t in ts && Asks(s, p, t, c) && Welcome(s, p, t, c, params)
  }

  predicate TurnsAway(s: Net, p: Peer, ts: seq<Topic>, t: Topic, c: GraftContext, params: GossipSubParams) {
    t in ts && Asks(s, p, t, c) && !Welcome(s, p, t, c, params)
  }

  /** A batch is judged topic by topic as the state was before it: the peer joins the
      meshes that welcome it, is answered with a PRUNE by the others, and those back it
      off unless it is a direct peer.  Nothing else changes. */
  lemma {:induction false} GraftBatchExactly(s: Net, p: Peer, ts: seq<Topic>, c: GraftContext, params: GossipSubParams,
                                             t: Topic, q: Peer)
    ensures var r := HandleGraft(s, p, ts, c, params);
            && r.net.mesh.Keys == s.mesh.Keys && r.net.fanout == s.fanout && r.net.clock == c.later
            && MeshOf(r.net, t) == MeshOf(s, t) + (if Admits(s, p, ts, t, c, params) then {p} else {})
            && (t in r.prune <==> TurnsAway(s, p, ts, t, c, params))
            && Entry(r.net.backoff, t, q) ==
               if q == p && TurnsAway(s, p, ts, t, c, params) && !c.direct
               then Some(Until(Entry(s.backoff, t, p), c.later + params.pruneBackoff))
               else Entry(s.backoff, t, q)
  {
    hide GraftOne, Asks, Welcome, MeshOf;
    if ts == [] {
      StartMesh(s, c, t);
    } else {
      var init, u := ts[..|ts| - 1], ts[|ts| - 1];
      var r := HandleGraft(s, p, init, c, params);
      assert ts == init + [u];
      GraftBatchExactly(s, p, init, c, params, t, q);
      GraftBatchExactly(s, p, init, c, params, u, p);
      AskedAgain(s, r.net, p, u, c, params, u in init);
      OneGraftMesh(r, p, u, c, params, t);
      OneGraftEntry(r, p, u, c, params, t, q);
    }
  }

  lemma StartMesh(s: Net, c: GraftContext, t: Topic)
    ensures MeshOf(GraftStart(s, c).net, t) == MeshOf(s, t)
  {
  }

  /** A second GRAFT for a topic is ignored or turned away like the first. */
  lemma AskedAgain(s: Net, n: Net, p: Peer, t: Topic, c: GraftContext, params: GossipSubParams, seen: bool)
    requires t in n.mesh <==> t in s.mesh
    requires var admitted := seen && Asks(s, p, t, c) && Welcome(s, p, t, c, params);
             MeshOf(n, t) == MeshOf(s, t) + (if admitted then {p} else {})
    requires var refused := seen && Asks(s, p, t, c) && !Welcome(s, p, t, c, params) && !c.direct;
             Entry(n.backoff, t, p) == if refused
             then Some(Until(Entry(s.backoff, t, p), c.later + params.pruneBackoff)) else Entry(s.backoff, t, p)
    ensures Asks(n, p, t, c) && Welcome(n, p, t, c, params) <==>
            !seen && Asks(s, p, t, c) && Welcome(s, p, t, c, params)
    ensures Asks(n, p, t, c) && !Welcome(n, p, t, c, params) <==> Asks(s, p, t, c) && !Welcome(s, p, t, c, params)
  {
  }

  lemma VerdictIs(s: Net, p: Peer, t: Topic, c: GraftContext, params: GossipSubParams)
    ensures var v := GraftVerdict(s, p, t, c, params);
            && (v.Ignored? <==> !Asks(s, p, t, c))
            && (v.Granted? <==> Asks(s, p, t, c) && Welcome(s, p, t, c, params))
            && (v.Direct? <==> Asks(s, p, t, c) && c.direct)
  {
  }

  lemma OneGraftMesh(r: GraftResult, p: Peer, u: Topic, c: GraftContext, params: GossipSubParams, t: Topic)
    ensures var r' := GraftOne(r, p, u, c, params);
            && r'.net.mesh.Keys == r.net.mesh.Keys && r'.net.fanout == r.net.fanout && r'.net.clock == r.net.clock
            && MeshOf(r'.net, t) == MeshOf(r.net, t) + (if Admits(r.net, p, [u], t, c, params) then {p} else {})
            && (t in r'.prune <==> t in r.prune || TurnsAway(r.net, p, [u], t, c, params))
  {
    hide GraftVerdict, Asks, Welcome, AddEntries, ForbidsPX;
    VerdictIs(r.net, p, u, c, params);
    AsksOpen(r.net, p, u, c);
  }

  lemma AsksOpen(s: Net, p: Peer, t: Topic, c: GraftContext)
    ensures Asks(s, p, t, c) ==> t in s.mesh
  {
  }

  lemma OneGraftEntry(r: GraftResult, p: Peer, u: Topic, c: GraftContext, params: GossipSubParams, t: Topic, q: Peer)
    ensures Entry(GraftOne(r, p, u, c, params).net.backoff, t, q) ==
            if q == p && TurnsAway(r.net, p, [u], t, c, params) && !c.direct
            then Some(Until(Entry(r.net.backoff, t, p), c.later + params.pruneBackoff))
            else Entry(r.net.backoff, t, q)
  {
    hide GraftVerdict, Asks, Welcome, AddEntries, ForbidsPX;
    VerdictIs(r.net, p, u, c, params);
    WelcomeIsNotDirect(r.net, p, u, c, params);
    AddEntriesAt(r.net.backoff, u, {p}, c.later + params.pruneBackoff, t, q);
    AddEntriesAt(r.net.backoff, u, {}, c.later + params.pruneBackoff, t, q);
  }

  lemma WelcomeIsNotDirect(s: Net, p: Peer, t: Topic, c: GraftContext, params: GossipSubParams)
    ensures Welcome(s, p, t, c, params) ==> !c.direct
  {
  }

  /** A peer that grafts again after it was refused is punished by the time that has
      passed: twice below the flood threshold, once until its backoff is over. */
  lemma FloodPenaltyExactly(s: Net, p: Peer, t: Topic, c: GraftContext, d: GraftContext, params: GossipSubParams)
    requires TurnsAway(s, p, [t], t, c, params) && !c.direct && d.accepts(t) && !d.direct
    requires Until(Entry(s.backoff, t, p), c.later + params.pruneBackoff) == c.later + params.pruneBackoff
    requires params.graftFloodThreshold <= params.pruneBackoff
    ensures var again := HandleGraft(HandleGraft(s, p, [t], c, params).net, p, [t], d, params);
            again.penalty == if d.now < c.later + params.graftFloodThreshold then 2
                             else if d.now < c.later + params.pruneBackoff then 1 else 0
  {
    hide GraftOne;
    var s1 := HandleGraft(s, p, [t], c, params).net;
    GraftBatchExactly(s, p, [t], c, params, t, p);
    assert [t][..0] == [];
    assert GraftAll(GraftStart(s1, d), p, [], d, params) == GraftStart(s1, d);
    OnePenalty(GraftStart(s1, d), p, t, d, params);
  }

  lemma OnePenalty(r: GraftResult, p: Peer, t: Topic, c: GraftContext, params: GossipSubParams)
    ensures GraftOne(r, p, t, c, params).penalty == r.penalty +
            if Asks(r.net, p, t, c) && !c.direct && Waiting(r.net, t, p, c.now)
            then 1 + (if c.now < r.net.backoff[t][p] + params.graftFloodThreshold - params.pruneBackoff then 1 else 0)
            else 0
  {
  }

  // ------------------------------------------------------------ a batch of PRUNEs

  predicate Named(es: seq<PruneEntry>, t: Topic) { exists i :: 0 <= i < |es| && es[i].topic == t }

  /** How long one PRUNE asks to wait: what it says if that fits in a 64-bit duration,
      and our own backoff if it says nothing. */
  predicate AsksFor(e: PruneEntry, d: Duration, params: GossipSubParams) {
    && (e.seconds == 0 ==> d == params.pruneBackoff)
    && (e.seconds > 0 && e.seconds * SECOND < TWO_TO_63 ==> d == e.seconds * SECOND)
  }

  ghost predicate LongestWait(es: seq<PruneEntry>, t: Topic, old_: Option<Time>, e: Time, now: Time,
                              params: GossipSubParams) {
    && (old_.Some? ==> old_.value <= e)
    && (forall i :: 0 <= i < |es| && es[i].topic == t ==> exists d :: AsksFor(es[i], d, params) && now + d <= e)
    && (|| old_ == Some(e)
        || exists i, d :: 0 <= i < |es| && es[i].topic == t && AsksFor(es[i], d, params) && now + d == e)
  }

  /** A batch of PRUNEs takes the peer out of exactly the meshes that it names, and
      backs it off there until the latest of what they ask for and the entry before. */
  lemma {:induction false} PruneBatchExactly(s: Net, p: Peer, es: seq<PruneEntry>, now: Time, params: GossipSubParams,
                                             t: Topic, q: Peer)
    requires forall i :: 0 <= i < |es| ==> es[i].seconds < TWO_TO_64
    ensures var s' := HandlePrune(s, p, es, now, params);
            && s'.mesh.Keys == s.mesh.Keys && s'.fanout == s.fanout && s'.clock == now
            && MeshOf(s', t) == MeshOf(s, t) - (if Named(es, t) then {p} else {})
            && if q == p && t in s.mesh && Named(es, t)
               then && Entry(s'.backoff, t, p).Some?
                    && LongestWait(es, t, Entry(s.backoff, t, p), Entry(s'.backoff, t, p).value, now, params)
               else Entry(s'.backoff, t, q) == Entry(s.backoff, t, q)
  {
    hide PruneOne, AsksFor;
    if es == [] {
    } else {
      var init, e := es[..|es| - 1], es[|es| - 1];
      var s1 := HandlePrune(s, p, init, now, params);
      assert forall i :: 0 <= i < |init| ==> init[i] == es[i];
      PruneBatchExactly(s, p, init, now, params, t, q);
      var d := OnePrune(s1, p, e, now, params, t, q);
      NamedNext(init, e, t);
      assert init + [e] == es;
      if q == p && t in s.mesh && e.topic == t {
        LongerWait(init, e, t, Entry(s.backoff, t, p), Entry(s1.backoff, t, p), now, d, params);
      } else if q == p && t in s.mesh && Named(init, t) {
        SameWait(init, e, t, Entry(s.backoff, t, p), Entry(s1.backoff, t, p).value, now, params);
      }
    }
  }

  lemma NamedNext(init: seq<PruneEntry>, e: PruneEntry, t: Topic)
    ensures Named(init + [e], t) <==> Named(init, t) || e.topic == t
  {
    var es := init + [e];
    if Named(init, t) {
      var i :| 0 <= i < |init| && init[i].topic == t;
      assert es[i].topic == t;
    }
    assert es[|init|] == e;
  }

  lemma OnePrune(s: Net, p: Peer, e: PruneEntry, now: Time, params: GossipSubParams, t: Topic, q: Peer)
    returns (d: Duration)
    requires e.seconds < TWO_TO_64
    ensures var s' := PruneOne(s, p, e, now, params);
            && AsksFor(e, d, params)
            && s'.mesh.Keys == s.mesh.Keys && s'.fanout == s.fanout && s'.clock == s.clock
            && MeshOf(s', t) == MeshOf(s, t) - (if e.topic == t then {p} else {})
            && Entry(s'.backoff, t, q) == if q == p && t in s.mesh && e.topic == t
               then Some(Until(Entry(s.backoff, t, p), now + d)) else Entry(s.backoff, t, q)
  {
    d := PruneInterval(e, params);
    BackoffHonouredExactly(e.seconds);
    AddEntriesAt(s.backoff, e.topic, {p}, now + d, t, q);
  }

  lemma SameWait(init: seq<PruneEntry>, e: PruneEntry, t: Topic, old_: Option<Time>, until: Time, now: Time,
                 params: GossipSubParams)
    requires LongestWait(init, t, old_, until, now, params) && e.topic != t
    ensures LongestWait(init + [e], t, old_, until, now, params)
  {
    hide AsksFor;
    var es := init + [e];
    assert forall i :: 0 <= i < |init| ==> es[i] == init[i];
    if old_ != Some(until) {
      var i, d :| 0 <= i < |init| && init[i].topic == t && AsksFor(init[i], d, params) && now + d == until;
      assert es[i] == init[i];
    }
  }

  /** One more PRUNE for the topic. */
  lemma LongerWait(init: seq<PruneEntry>, e: PruneEntry, t: Topic, old_: Option<Time>, before: Option<Time>, now: Time,
                   d: Duration, params: GossipSubParams)
    requires e.topic == t && AsksFor(e, d, params)
    requires if Named(init, t) then before.Some? && LongestWait(init, t, old_, before.value, now, params)
             else before == old_
    ensures LongestWait(init + [e], t, old_, Until(before, now + d), now, params)
  {
    hide AsksFor;
    var es, until := init + [e], Until(before, now + d);
    assert es[|init|] == e;
    forall i | 0 <= i < |es| && es[i].topic == t
      ensures exists d' :: AsksFor(es[i], d', params) && now + d' <= until
    {
      if i < |init| {
        assert init[i] == es[i] && Named(init, t);
        var d' :| AsksFor(init[i], d', params) && now + d' <= before.value;
        assert AsksFor(es[i], d', params);
      }
    }
    if until != now + d && old_ != Some(until) {
      var i, d' :| 0 <= i < |init| && init[i].topic == t && AsksFor(init[i], d', params) && now + d' == until;
      assert es[i] == init[i];
    }
  }

  // ------------------------------------------------------------ leaving and joining

  /** Leaving removes the mesh and backs off exactly its members. */
  lemma LeaveExactly(s: Net, t: Topic, now: Time, params: GossipSubParams, u: Topic, q: Peer)
    ensures var s' := Leave(s, t, now, params);
            && s'.mesh == s.mesh - {t} && s'.fanout == s.fanout && s'.clock == now
            && Entry(s'.backoff, u, q) == if u == t && InMesh(s, t, q)
               then Some(Until(Entry(s.backoff, t, q), now + params.unsubscribeBackoff)) else Entry(s.backoff, u, q)
  {
    if t in s.mesh {
      AddEntriesAt(s.backoff, t, s.mesh[t], now + params.unsubscribeBackoff, u, q);
    }
  }

  /** Gossipsub peers of the topic that may be grafted. */
  function Available(s: Net, t: Topic, env: Env): set<Peer> {
    set q | q in env.candidates && q !in env.direct && Entry(s.backoff, t, q).None? && env.score(q) >= 0.0
  }

  /** Fanout peers that may be. */
  function Carried(s: Net, t: Topic, env: Env): set<Peer> {
    set q | t in s.fanout && q in s.fanout[t] && Entry(s.backoff, t, q).None? && env.score(q) >= 0.0
  }

  lemma CarriedIs(s: Net, t: Topic, env: Env)
    requires t in s.fanout
    ensures Graftable(s.fanout[t], Backed(s.backoff, t), env) == Carried(s, t, env)
  {
  }

  lemma AvailableIs(s: Net, t: Topic, env: Env, gmap: set<Peer>)
    ensures Joinable(gmap, Backed(s.backoff, t), env) == Available(s, t, env) - gmap
  {
  }

  /** The new mesh: D of the available peers, or all of them if there are no more; with a
      fanout, its own peers first. */
  ghost predicate MadeMesh(s: Net, t: Topic, D: int, env: Env, mesh: set<Peer>) {
    if t !in s.fanout then TopsUp({}, mesh, Available(s, t, env), D)
    else
      var kept := Carried(s, t, env);
      if |kept| < D then TopsUp(kept, mesh, Available(s, t, env) - kept, D - |kept|) else mesh == kept
  }

  lemma JoinedMeshIs(s: Net, t: Topic, params: GossipSubParams, env: Env)
    requires LawfulChoice(env.choose)
    ensures MadeMesh(s, t, params.D, env, JoinedMesh(s, t, params, env))
  {
    hide Joinable, Available, Carried, Graftable, TopsUp, Backed, GetPeers, LawfulChoice;
    var able := Available(s, t, env);
    if t in s.fanout {
      var kept := Carried(s, t, env);
      CarriedIs(s, t, env);
      AvailableIs(s, t, env, kept);
      if |kept| < params.D {
        GetPeersTopsUp(kept, env, 0, params.D - |kept|, able - kept);
      }
    } else {
      AvailableIs(s, t, env, {});
      assert able - {} == able && {} + GetPeers(env, 0, params.D, able) == GetPeers(env, 0, params.D, able);
      GetPeersTopsUp({}, env, 0, params.D, able);
    }
  }

  /** Joining a topic makes that mesh, ends its fanout, and changes nothing else. */
  lemma JoinExactly(s: Net, t: Topic, now: Time, params: GossipSubParams, env: Env)
    requires LawfulChoice(env.choose) && t !in s.mesh
    ensures var s' := Join(s, t, now, params, env);
            && t in s'.mesh && s'.mesh - {t} == s.mesh && MadeMesh(s, t, params.D, env, s'.mesh[t])
            && s'.fanout == s.fanout - {t} && s'.backoff == s.backoff && s'.clock == now
  {
    hide JoinedMesh, MadeMesh, LawfulChoice;
    JoinedMeshIs(s, t, params, env);
  }

  /** A topic that is joined already stays as it is. */
  lemma JoinedStays(s: Net, t: Topic, now: Time, params: GossipSubParams, env: Env)
    requires t in s.mesh
    ensures Join(s, t, now, params, env) == s.(clock := now)
  {
  }

  // ------------------------------------------------------------ heartbeat

  /** The entry that clean-up leaves: on every fifteenth tick those that expired two
      seconds ago are dropped. */
  function Remaining(entry: Option<Time>, ticks: nat, now: Time): Option<Time> {
    if ticks % 15 == 0 && entry.Some? && entry.value + 2 * SECOND < now then None else entry
  }

  lemma CleanAt(s: Net, ticks: nat, now: Time, t: Topic, q: Peer)
    ensures Entry(Clean(s, ticks, now).backoff, t, q) == Remaining(Entry(s.backoff, t, q), ticks, now)
  {
    ClearedAt(s.backoff, now, t, q);
  }

  lemma BeatAt(v: TopicState, t: Topic, maintain: Maintenance, e: Time, q: Peer)
    ensures var v' := BeatTopic(v, t, maintain, e);
            && v'.mesh.Some? == v.mesh.Some?
            && (v.mesh.Some? ==> v'.mesh.value == maintain(t, Stage(v.mesh.value, RowOf(v).Keys)))
            && ViewIn(v', q).entry == if ViewIn(v, q).inMesh && !ViewIn(v', q).inMesh
               then Some(Until(ViewIn(v, q).entry, e)) else ViewIn(v, q).entry
  {
  }

  /** A heartbeat drops old entries, maintains every mesh, and backs off exactly those
      who leave one. */
  lemma HeartbeatExactly(s: Net, s': Net, ticks: nat, params: GossipSubParams, envs: Topic -> Env, now: Time,
                         later: Time, t: Topic, q: Peer)
    requires Heartbeat(s, s', ticks, MaintenanceOf(params, envs), params.pruneBackoff, now, later)
    ensures s'.fanout == s.fanout && s'.clock == later && (t in s'.mesh <==> t in s.mesh)
    ensures var entry := Remaining(Entry(s.backoff, t, q), ticks, now);
            Entry(s'.backoff, t, q) == if InMesh(s, t, q) && !InMesh(s', t, q)
            then Some(Until(entry, later + params.pruneBackoff)) else entry
    ensures t in s.mesh ==>
              exists backed :: s'.mesh[t] == Maintain(Stage(s.mesh[t], backed), params, envs(t)).mesh
                               && BackedAre(s, t, ticks, now, backed)
  {
    hide Maintain, Clean, BackedAre, BeatTopic, Remaining, Entry, HasEntry, Until;
    var s1 := Clean(s, ticks, now).(clock := later);
    var maintain, e := MaintenanceOf(params, envs), later + params.pruneBackoff;
    CleanKeeps(s, ticks, now);
    assert Of(s', t) == BeatTopic(Of(s1, t), t, maintain, e);
    BeatAt(Of(s1, t), t, maintain, e, q);
    AtOf(s', t, q);
    AtOf(s1, t, q);
    CleanAt(s, ticks, now, t, q);
    BackedAfterClean(s, t, ticks, now);
    assert Of(s1, t) == Of(Clean(s, ticks, now), t);
  }

  lemma CleanKeeps(s: Net, ticks: nat, now: Time)
    ensures Clean(s, ticks, now).mesh == s.mesh && Clean(s, ticks, now).fanout == s.fanout
  {
  }

  ghost predicate BackedAre(s: Net, t: Topic, ticks: nat, now: Time, backed: set<Peer>) {
    forall p :: p in backed <==> Remaining(Entry(s.backoff, t, p), ticks, now).Some?
  }

  lemma BackedAfterClean(s: Net, t: Topic, ticks: nat, now: Time)
    ensures BackedAre(s, t, ticks, now, RowOf(Of(Clean(s, ticks, now), t)).Keys)
  {
    forall p
      ensures p in RowOf(Of(Clean(s, ticks, now), t)) <==> Remaining(Entry(s.backoff, t, p), ticks, now).Some?
    {
      ClearedAt(s.backoff, now, t, p);
    }
  }

  // ------------------------------------------------------------ offers and closed streams

  predicate Rising(xs: seq<nat>) { forall i, j :: 0 <= i < j < |xs| ==> xs[i] < xs[j] }

  predicate Taken(joined: set<Topic>, e: PruneEntry, trusted: bool) { e.topic in joined && e.px != [] && trusted }

  /** The offers of exactly those PRUNEs are taken up that are about a joined topic,
      offer somebody and come from a trusted peer, in their order. */
  lemma {:induction false} OffersTaken(joined: set<Topic>, es: seq<PruneEntry>, trusted: bool) returns (from: seq<nat>)
    ensures |from| == |Offers(joined, es, trusted)| && Rising(from)
    ensures forall i: nat :: i in from <==> i < |es| && Taken(joined, es[i], trusted)
    ensures forall k :: 0 <= k < |from| ==> from[k] < |es| && Offers(joined, es, trusted)[k] == es[from[k]].px
  {
    if es == [] {
      from := [];
    } else {
      var n := |es| - 1;
      var init := OffersTaken(joined, es[..n], trusted);
      from := init + if Taken(joined, es[n], trusted) then [n] else [];
      assert forall i :: 0 <= i < n ==> es[..n][i] == es[i];
      forall i: nat
        ensures i in from <==> i < |es| && Taken(joined, es[i], trusted)
      {
        assert i in init <==> i < n && Taken(joined, es[..n][i], trusted);
      }
      assert forall k :: 0 <= k < |init| ==> init[k] in init;
    }
  }

  /** A closed stream takes the peer out of every mesh and fanout, and nobody else. */
  lemma ClosedStreamExactly(m: map<Topic, set<Peer>>, p: Peer, t: Topic, q: Peer)
    ensures WithoutPeer(m, p).Keys == m.Keys
    ensures t in m && q in WithoutPeer(m, p)[t] <==> t in m && q in m[t] && q != p
  {
  }
}
