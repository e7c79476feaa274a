/** The gossipsub router's mesh handlers, as methods that update its maps. */
module Router {
  import opened Ids
  import opened Params
  import opened MeshTopic
  import opened MeshRun
  import opened Backoff

  /** One coalesced control message of sendGraftPrune. */
  datatype Control = Control(peer: Peer, graft: seq<Topic>, prune: seq<Topic>)

  lemma AddOneMore(b: Expiries, t: Topic, ps: set<Peer>, p: Peer, e: Time)
    ensures AddEntries(AddEntries(b, t, ps, e), t, {p}, e) == AddEntries(b, t, ps + {p}, e)
  {
    var b1 := AddEntries(b, t, ps, e);
    var b2, b3 := AddEntries(b1, t, {p}, e), AddEntries(b, t, ps + {p}, e);
    assert b2.Keys == b3.Keys;
    assert b2[t].Keys == b3[t].Keys;
    assert b2[t] == b3[t];
  }

  /** The table while clearBackoff still has to visit the topics of `rest`. */
  ghost function Halfway(b: Expiries, rest: set<Topic>, now: Time): Expiries {
    map t | t in b && (t in rest || Live(b[t], now) != map[]) :: if t in rest then b[t] else Live(b[t], now)
  }

  predicate Asked(t: Topic, st: Stage) { true }

  /** What a heartbeat needs of its environment: `maintain` is the maintenance of
      MeshTopic, and `picks` are the random numbers behind its shuffles.  The
      trigger keeps the definition folded until a topic is asked for. */
  ghost predicate Ready(params: GossipSubParams, envs: Topic -> Env, picks: Topic -> nat -> nat,
                        maintain: Maintenance) {
    forall t, st {:trigger Asked(t, st)} :: Asked(t, st) ==>
      && LawfulBeat(params, envs)
      && ShufflesBy(envs(t), params.Dscore, picks(t))
      && maintain(t, st) == Maintain(st, params, envs(t)).mesh
  }

  /** Opportunistic grafting is due on every so many ticks. */
  predicate Due(ticks: nat, params: GossipSubParams) {
    params.opportunisticGraftTicks > 0 && ticks % params.opportunisticGraftTicks == 0
  }

  function Timed(envs: Topic -> Env, due: bool): Topic -> Env { t => envs(t).(opportunistic := due) }

  /** Mesh maintenance of one topic, with the peers to send GRAFT and PRUNE to. */
  method MaintainMesh(mesh: set<Peer>, backed: set<Peer>, params: GossipSubParams, env: Env, pick: nat -> nat)
    returns (m: set<Peer>, tograft: seq<Peer>, toprune: seq<Peer>)
    requires Lawful(env, params) && params.Valid() && params.Sliceable() && ShufflesBy(env, params.Dscore, pick)
    ensures m == Maintain(Stage(mesh, backed), params, env).mesh
    ensures forall p :: p in tograft <==> p in m && p !in mesh
    ensures forall p :: p in toprune <==> p in mesh && p !in m
  {
    var run := new TopicRun(mesh, backed);
    run.MaintainTopic(params, env, pick);
    m, tograft, toprune := run.mesh, run.tograft, run.toprune;
  }

  method MaintainAny(mesh: set<Peer>, backed: set<Peer>, params: GossipSubParams, envs: Topic -> Env,
                     picks: Topic -> nat -> nat, topic: Topic, ghost maintain: Maintenance)
    returns (m: set<Peer>, tograft: seq<Peer>, toprune: seq<Peer>)
    requires Ready(params, envs, picks, maintain)
    ensures m == maintain(topic, Stage(mesh, backed))
    ensures forall p :: p in tograft <==> p in m && p !in mesh
    ensures forall p :: p in toprune <==> p in mesh && p !in m
  {
    assert Asked(topic, Stage(mesh, backed));
    m, tograft, toprune := MaintainMesh(mesh, backed, params, envs(topic), picks(topic));
  }

  class GossipSubRouter {
    const params: GossipSubParams
    var mesh: map<Topic, set<Peer>>
    var fanout: map<Topic, set<Peer>>
    var backoff: Expiries
    var clock: Time
    var heartbeatTicks: nat

    constructor (params: GossipSubParams, now: Time)
      ensures this.params == params && Abs() == Net(map[], map[], map[], now) && heartbeatTicks == 0
    {
      this.params := params;
      mesh, fanout, backoff, clock, heartbeatTicks := map[], map[], map[], now, 0;
    }

    ghost function Abs(): Net
      reads this
    {
      Net(mesh, fanout, backoff, clock)
    }

    /** An entry is created, or extended if the new expiry is later. */
    method DoAddBackoff(p: Peer, topic: Topic, interval: Duration, now: Time)
      modifies this`backoff
      ensures backoff == AddEntries(old(backoff), topic, {p}, now + interval)
    {
      if topic !in backoff {
        backoff := backoff[topic := map[]];
      }
      var expire := now + interval;
      if p !in backoff[topic] || backoff[topic][p] < expire {
        backoff := backoff[topic := backoff[topic][p := expire]];
      }
      ghost var want := AddEntries(old(backoff), topic, {p}, expire);
      assert backoff[topic].Keys == want[topic].Keys;
      assert backoff[topic] == want[topic];
      assert backoff.Keys == want.Keys;
    }

    /** How to treat a GRAFT, and whether peers may still be offered after it. */
    method Judge(p: Peer, topic: Topic, c: GraftContext) returns (v: Verdict, px: bool)
      ensures v == GraftVerdict(Abs(), p, topic, c, params) && px == !ForbidsPX(Abs(), p, topic, c)
    {
      if !c.accepts(topic) {
        return Ignored, true;
      }
      if topic !in mesh {
        return Ignored, false;
      }
      if p in mesh[topic] {
        return Ignored, true;
      }
      if c.direct {
        return Direct, false;
      }
      if topic in backoff && p in backoff[topic] && c.now < backoff[topic][p] {
        var penalty := 1;
        var floodCutoff := backoff[topic][p] + (params.graftFloodThreshold - params.pruneBackoff);
        if c.now < floodCutoff {
          penalty := penalty + 1;
        }
        return Refused(penalty), false;
      }
      if c.score < 0.0 {
        return Refused(0), false;
      }
      if |mesh[topic]| >= params.Dhi && !c.outbound {
        return Refused(0), true;
      }
      return Granted, true;
    }

    method HandleGraft(p: Peer, grafts: seq<Topic>, c: GraftContext)
      returns (prune: seq<Topic>, penalty: nat, px: bool)
      requires clock <= c.now <= c.later
      modifies this`mesh, this`backoff, this`clock
      ensures GraftResult(Abs(), prune, penalty, px) == Backoff.HandleGraft(old(Abs()), p, grafts, c, params)
    {
      clock := c.later;
      prune, penalty, px := [], 0, c.doPX;
      ghost var start := GraftResult(Abs(), [], 0, c.doPX);
      for i := 0 to |grafts|
        invariant GraftResult(Abs(), prune, penalty, px) == GraftAll(start, p, grafts[..i], c, params)
      {
        assert grafts[..i + 1][..i] == grafts[..i];
        ghost var r := GraftResult(Abs(), prune, penalty, px);
        var v, offer := Judge(p, grafts[i], c);
        px := px && offer;
        if v == Granted {
          mesh := mesh[grafts[i] := mesh[grafts[i]] + {p}];
        } else if v != Ignored {
          prune := prune + [grafts[i]];
          if v.Refused? {
            penalty := penalty + v.penalty;
            DoAddBackoff(p, grafts[i], params.pruneBackoff, c.later);
          }
        }
        assert GraftResult(Abs(), prune, penalty, px) == GraftOne(r, p, grafts[i], c, params);
      }
      assert grafts[..|grafts|] == grafts;
    }

    method RemovePruned(p: Peer, e: PruneEntry, now: Time)
      requires e.topic in mesh
      modifies this`mesh, this`backoff
      ensures Abs() == PruneOne(old(Abs()), p, e, now, params)
    {
      mesh := mesh[e.topic := mesh[e.topic] - {p}];
      if e.seconds > 0 {
        DoAddBackoff(p, e.topic, SecondsToDuration(e.seconds), now);
      } else {
        DoAddBackoff(p, e.topic, params.pruneBackoff, now);
      }
    }

    /** `connect` are the offers handed to pxConnect. */
    method HandlePrune(p: Peer, prunes: seq<PruneEntry>, score: real, acceptPXThreshold: real, now: Time)
      returns (connect: seq<seq<Peer>>)
      requires clock <= now
      modifies this`mesh, this`backoff, this`clock
      ensures Abs() == Backoff.HandlePrune(old(Abs()), p, prunes, now, params)
      ensures connect == Offers(old(mesh).Keys, prunes, score >= acceptPXThreshold)
    {
      clock := now;
      connect := [];
      ghost var start := Abs();
      for i := 0 to |prunes|
        invariant Abs() == PruneAll(start, p, prunes[..i], now, params)
        invariant mesh.Keys == start.mesh.Keys
        invariant connect == Offers(start.mesh.Keys, prunes[..i], score >= acceptPXThreshold)
      {
        assert prunes[..i + 1][..i] == prunes[..i];
        assert connect + [] == connect;
        if prunes[i].topic !in mesh {
          continue;
        }
        RemovePruned(p, prunes[i], now);
        if |prunes[i].px| > 0 {
          if score < acceptPXThreshold {
            continue;
          }
          connect := connect + [prunes[i].px];
        }
      }
      assert prunes[..|prunes|] == prunes;
    }

    method AddBackoffs(ps: set<Peer>, topic: Topic, interval: Duration, now: Time)
      modifies this`backoff
      ensures backoff == AddEntries(old(backoff), topic, ps, now + interval)
    {
      var rest := ps;
      while rest != {}
        invariant rest <= ps
        invariant backoff == AddEntries(old(backoff), topic, ps - rest, now + interval)
        decreases rest
      {
        var p :| p in rest;
        AddOneMore(old(backoff), topic, ps - rest, p, now + interval);
        assert ps - rest + {p} == ps - (rest - {p});
        rest := rest - {p};
        DoAddBackoff(p, topic, interval, now);
      }
      assert ps - rest == ps;
    }

    method Leave(topic: Topic, now: Time) returns (sent: seq<Control>)
      requires clock <= now
      modifies this`mesh, this`backoff, this`clock
      ensures Abs() == Backoff.Leave(old(Abs()), topic, now, params)
      ensures AnnouncesChanges(old(mesh), mesh, sent)
    {
      clock := now;
      sent := [];
      NothingToAnnounce(mesh);
      if topic in mesh {
        var gmap := mesh[topic];
        mesh := mesh - {topic};
        sent := TellAll(gmap, topic, false);
        LeaveAnnounces(old(mesh), topic, sent);
        AddBackoffs(gmap, topic, params.unsubscribeBackoff, now);
      }
    }

    /** Fanout peers that may be grafted: no negative score, no backoff entry. */
    static method KeepFanout(peers: set<Peer>, backed: set<Peer>, env: Env) returns (gmap: set<Peer>)
      ensures gmap == Graftable(peers, backed, env)
    {
      gmap := peers;
      var rest := peers;
      while rest != {}
        invariant rest <= peers
        invariant gmap == set p | p in peers && (p in rest || (!(env.score(p) < 0.0) && p !in backed))
        decreases rest
      {
        var p :| p in rest;
        rest := rest - {p};
        if env.score(p) < 0.0 || p in backed {
          gmap := gmap - {p};
        }
      }
    }

    static method TopUp(gmap: set<Peer>, backed: set<Peer>, D: int, env: Env) returns (r: set<Peer>)
      ensures r == ToppedUp(gmap, backed, D, env)
    {
      r := gmap;
      if |gmap| < D {
        var more := SelectPeers(env, 0, D - |gmap|, IsEligible(Stage(gmap, backed), env));
        r := r + more;
      }
    }

    /** The mesh of a topic that is being joined. */
    method InitialMesh(topic: Topic, env: Env) returns (gmap: set<Peer>)
      ensures gmap == JoinedMesh(Abs(), topic, params, env)
    {
      var backed := if topic in backoff then backoff[topic].Keys else {};
      assert backed == Backed(backoff, topic);
      if topic in fanout {
        gmap := KeepFanout(fanout[topic], backed, env);
        gmap := TopUp(gmap, backed, params.D, env);
      } else {
        gmap := SelectPeers(env, 0, params.D, IsEligible(Stage({}, backed), env));
      }
    }

    method Join(topic: Topic, now: Time, env: Env) returns (sent: seq<Control>)
      requires clock <= now
      modifies this`mesh, this`fanout, this`clock
      ensures Abs() == Backoff.Join(old(Abs()), topic, now, params, env)
      ensures AnnouncesChanges(old(mesh), mesh, sent)
    {
      sent := [];
      NothingToAnnounce(mesh);
      if topic !in mesh {
        var gmap := InitialMesh(topic, env);
        mesh := mesh[topic := gmap];
        fanout := fanout - {topic};
        sent := TellAll(gmap, topic, true);
        JoinAnnounces(old(mesh), topic, gmap, sent);
      }
      clock := now;
    }

    method OnClosedOutboundStream(p: Peer)
      modifies this`mesh, this`fanout
      ensures mesh == WithoutPeer(old(mesh), p) && fanout == WithoutPeer(old(fanout), p)
    {
      mesh := DeletePeer(mesh, p);
      fanout := DeletePeer(fanout, p);
    }

    static method DeletePeer(m: map<Topic, set<Peer>>, p: Peer) returns (r: map<Topic, set<Peer>>)
      ensures r == WithoutPeer(m, p)
    {
      r := m;
      var rest := m.Keys;
      while rest != {}
        invariant rest <= m.Keys && r.Keys == m.Keys
        invariant forall t :: t in m ==> r[t] == if t in rest then m[t] else m[t] - {p}
        decreases rest
      {
        var t :| t in rest;
        rest := rest - {t};
        r := r[t := r[t] - {p}];
      }
    }

    static method LiveEntries(m: map<Peer, Time>, now: Time) returns (r: map<Peer, Time>)
      ensures r == Live(m, now)
    {
      r := m;
      var rest := m.Keys;
      while rest != {}
        invariant rest <= m.Keys
        invariant r == map p | p in m && (p in rest || !(m[p] + SLACK < now)) :: m[p]
        decreases rest
      {
        var p :| p in rest;
        rest := rest - {p};
        if m[p] + SLACK < now {
          r := r - {p};
        }
      }
    }

    static method ClearExpired(b: Expiries, now: Time) returns (r: Expiries)
      ensures r == Cleared(b, now)
    {
      r := b;
      var rest := b.Keys;
      while rest != {}
        invariant rest <= b.Keys
        invariant r == Halfway(b, rest, now)
        decreases rest
      {
        var t :| t in rest;
        rest := rest - {t};
        var live := LiveEntries(b[t], now);
        if live == map[] {
          r := r - {t};
        } else {
          r := r[t := live];
        }
      }
    }

    method ClearBackoff(now: Time)
      modifies this`backoff
      ensures backoff == Clean(old(Abs()), heartbeatTicks, now).backoff
    {
      if heartbeatTicks % CLEAR_TICKS != 0 {
        return;
      }
      backoff := ClearExpired(backoff, now);
    }

    method BeatOneTopic(envs: Topic -> Env, picks: Topic -> nat -> nat, later: Time, topic: Topic, grafts: Topics,
                        prunes: Topics, ghost maintain: Maintenance, ghost start: Meshes)
      returns (grafts': Topics, prunes': Topics)
      requires Ready(params, envs, picks, maintain)
      requires topic in mesh && topic in start && mesh[topic] == start[topic] && Tracked(start, mesh, grafts, prunes)
      modifies this`mesh, this`backoff
      ensures Of(Abs(), topic) == BeatTopic(Of(old(Abs()), topic), topic, maintain, later + params.pruneBackoff)
      ensures forall t :: t != topic ==> Of(Abs(), t) == Of(old(Abs()), t)
      ensures Tracked(start, mesh, grafts', prunes')
    {
      var backed := if topic in backoff then backoff[topic].Keys else {};
      var m, tograft, toprune := MaintainAny(mesh[topic], backed, params, envs, picks, topic, maintain);
      grafts' := Record(grafts, topic, tograft);
      prunes' := Record(prunes, topic, toprune);
      TrackStep(start, mesh, topic, m, grafts, grafts', tograft, prunes, prunes', toprune);
      assert RowOf(Of(Abs(), topic)).Keys == backed;
      AddBackoffs(mesh[topic] - m, topic, params.pruneBackoff, later);
      mesh := mesh[topic := m];
    }

    /** The loop over the joined topics. */
    method BeatTopics(envs: Topic -> Env, picks: Topic -> nat -> nat, later: Time, ghost maintain: Maintenance)
      returns (grafts: Topics, prunes: Topics)
      requires Ready(params, envs, picks, maintain)
      modifies this`mesh, this`backoff
      ensures Beaten(old(Abs()), Abs(), maintain, later + params.pruneBackoff)
      ensures Tracked(old(mesh), mesh, grafts, prunes)
    {
      ghost var start, e := Abs(), later + params.pruneBackoff;
      grafts, prunes := map[], map[];
      TrackNothing(mesh);
      var rest := mesh.Keys;
      while rest != {}
        invariant rest <= start.mesh.Keys
        invariant forall t :: t in rest ==> Of(Abs(), t) == Of(start, t)
        invariant forall t :: t !in rest ==> Of(Abs(), t) == BeatTopic(Of(start, t), t, maintain, e)
        invariant Tracked(start.mesh, mesh, grafts, prunes)
        decreases rest
      {
        var topic :| topic in rest;
        ghost var before := Abs();
        assert Of(before, topic) == Of(start, topic);
        grafts, prunes := BeatOneTopic(envs, picks, later, topic, grafts, prunes, maintain, start.mesh);
        rest := rest - {topic};
        forall t
          ensures t in rest ==> Of(Abs(), t) == Of(start, t)
          ensures t !in rest ==> Of(Abs(), t) == BeatTopic(Of(start, t), t, maintain, e)
        {
          assert t != topic ==> Of(Abs(), t) == Of(before, t);
        }
      }
    }

    /** The mesh part of heartbeat(), and the control messages it sends. */
    method Heartbeat(envs: Topic -> Env, picks: Topic -> nat -> nat, now: Time, later: Time,
                     ghost maintain: Maintenance)
      returns (sent: seq<Control>)
      requires clock <= now <= later && (mesh == map[] || params.opportunisticGraftTicks > 0)
      requires Ready(params, Timed(envs, Due(heartbeatTicks + 1, params)), picks, maintain)
      modifies this`mesh, this`backoff, this`clock, this`heartbeatTicks
      ensures heartbeatTicks == old(heartbeatTicks) + 1
      ensures Backoff.Heartbeat(old(Abs()), Abs(), heartbeatTicks, maintain, params.pruneBackoff, now, later)
      ensures AnnouncesChanges(old(mesh), mesh, sent)
    {
      hide Ready, Timed, Coalesced, Tracked, AnnouncesChanges, Beaten;
      heartbeatTicks := heartbeatTicks + 1;
      ClearBackoff(now);
      clock := later;
      assert Abs() == Clean(old(Abs()), heartbeatTicks, now).(clock := later);
      var due := Due(heartbeatTicks, params);
      var grafts, prunes := BeatTopics(Timed(envs, due), picks, later, maintain);
      sent := SendGraftPrune(grafts, prunes);
      CoalescedAnnounces(old(mesh), mesh, sent, grafts, prunes);
    }
  }

  /** One message at most to a peer, with a GRAFT for exactly the topics whose
      mesh it joined and a PRUNE for exactly those whose mesh it left. */
  ghost predicate AnnouncesChanges(a: Meshes, b: Meshes, sent: seq<Control>) {
    && (forall i, j :: 0 <= i < j < |sent| ==> sent[i].peer != sent[j].peer)
    && (forall t, p :: Sends(sent, p, t, true) <==> Has(b, t, p) && !Has(a, t, p))
    && (forall t, p :: Sends(sent, p, t, false) <==> !Has(b, t, p) && Has(a, t, p))
  }

  lemma CoalescedAnnounces(a: Meshes, b: Meshes, sent: seq<Control>, grafts: Topics, prunes: Topics)
    requires Coalesced(sent, grafts, prunes, grafts.Keys + prunes.Keys) && Tracked(a, b, grafts, prunes)
    ensures AnnouncesChanges(a, b, sent)
  {
    forall t, p
      ensures Sends(sent, p, t, true) <==> Has(b, t, p) && !Has(a, t, p)
      ensures Sends(sent, p, t, false) <==> !Has(b, t, p) && Has(a, t, p)
    {
      CoalescedSends(sent, grafts, prunes, p, t);
      assert TrackedAt(a, b, grafts, prunes, p, t);
    }
  }

  lemma NothingToAnnounce(mesh: Meshes)
    ensures AnnouncesChanges(mesh, mesh, [])
  {
  }

  /** What TellAll sends to one peer. */
  function Notice(p: Peer, topic: Topic, graft: bool): Control {
    if graft then Control(p, [topic], []) else Control(p, [], [topic])
  }

  ghost predicate Told(sent: seq<Control>, ps: set<Peer>, topic: Topic, graft: bool) {
    && (forall i, j :: 0 <= i < j < |sent| ==> sent[i].peer != sent[j].peer)
    && (forall i :: 0 <= i < |sent| ==> sent[i] == Notice(sent[i].peer, topic, graft) && sent[i].peer in ps)
    && (forall p :: p in ps ==> AddressedTo(sent, p))
  }

  /** A GRAFT, or a PRUNE, for one topic to everybody. */
  method TellAll(ps: set<Peer>, topic: Topic, graft: bool) returns (sent: seq<Control>)
    ensures Told(sent, ps, topic, graft)
  {
    sent := [];
    var rest := ps;
    while rest != {}
      invariant rest <= ps && Told(sent, ps - rest, topic, graft)
      decreases rest
    {
      var p :| p in rest;
      ghost var before := sent;
      sent := sent + [Notice(p, topic, graft)];
      assert sent[|before|].peer == p;
      forall q | q in ps - (rest - {p})
        ensures AddressedTo(sent, q)
      {
        if q != p {
          assert AddressedTo(before, q);
          var i :| 0 <= i < |before| && before[i].peer == q;
          assert sent[i].peer == q;
        }
      }
      rest := rest - {p};
    }
    assert ps - rest == ps;
  }

  lemma ToldSends(sent: seq<Control>, ps: set<Peer>, topic: Topic, graft: bool, p: Peer, t: Topic, g: bool)
    requires Told(sent, ps, topic, graft)
    ensures Sends(sent, p, t, g) <==> t == topic && p in ps && g == graft
  {
    if p in ps {
      assert AddressedTo(sent, p);
      var i :| 0 <= i < |sent| && sent[i].peer == p;
      assert sent[i] == Notice(p, topic, graft);
    }
  }

  lemma JoinAnnounces(mesh: Meshes, topic: Topic, gmap: set<Peer>, sent: seq<Control>)
    requires topic !in mesh && Told(sent, gmap, topic, true)
    ensures AnnouncesChanges(mesh, mesh[topic := gmap], sent)
  {
    hide Told, Sends;
    ToldApart(sent, gmap, topic, true);
    forall t, p
      ensures Sends(sent, p, t, true) <==> t == topic && p in gmap
      ensures !Sends(sent, p, t, false)
    {
      ToldSends(sent, gmap, topic, true, p, t, true);
      ToldSends(sent, gmap, topic, true, p, t, false);
    }
  }

  lemma LeaveAnnounces(mesh: Meshes, topic: Topic, sent: seq<Control>)
    requires topic in mesh && Told(sent, mesh[topic], topic, false)
    ensures AnnouncesChanges(mesh, mesh - {topic}, sent)
  {
    hide Told, Sends;
    ToldApart(sent, mesh[topic], topic, false);
    forall t, p
      ensures Sends(sent, p, t, false) <==> t == topic && p in mesh[topic]
      ensures !Sends(sent, p, t, true)
    {
      ToldSends(sent, mesh[topic], topic, false, p, t, true);
      ToldSends(sent, mesh[topic], topic, false, p, t, false);
    }
  }

  lemma ToldApart(sent: seq<Control>, ps: set<Peer>, topic: Topic, graft: bool)
    requires Told(sent, ps, topic, graft)
    ensures forall i, j :: 0 <= i < j < |sent| ==> sent[i].peer != sent[j].peer
  {
  }

  type Meshes = map<Topic, set<Peer>>

  predicate Has(m: Meshes, t: Topic, p: Peer) { t in m && p in m[t] }

  /** Topics to mention to each peer. */
  type Topics = map<Peer, seq<Topic>>

  predicate Listed(m: Topics, p: Peer, t: Topic) { p in m && t in m[p] }

  ghost predicate Extends(m: Topics, old_: Topics, topic: Topic, ps: seq<Peer>) {
    forall t, p :: Listed(m, p, t) <==> Listed(old_, p, t) || (t == topic && p in ps)
  }

  method Record(m: Topics, topic: Topic, ps: seq<Peer>) returns (r: Topics)
    ensures Extends(r, m, topic, ps)
  {
    r := m;
    for i := 0 to |ps|
      invariant Extends(r, m, topic, ps[..i])
    {
      var p := ps[i];
      ghost var r0 := r;
      r := r[p := (if p in r then r[p] else []) + [topic]];
      forall t, q
        ensures Listed(r, q, t) <==> Listed(m, q, t) || (t == topic && q in ps[..i + 1])
      {
        assert Listed(r, q, t) <==> Listed(r0, q, t) || (q == p && t == topic);
      }
    }
    assert ps[..|ps|] == ps;
  }

  ghost predicate TrackedAt(a: Meshes, b: Meshes, grafts: Topics, prunes: Topics, p: Peer, t: Topic) {
    && (Listed(grafts, p, t) <==> Has(b, t, p) && !Has(a, t, p))
    && (Listed(prunes, p, t) <==> !Has(b, t, p) && Has(a, t, p))
  }

  /** The lists are the difference of the meshes. */
  ghost predicate Tracked(a: Meshes, b: Meshes, grafts: Topics, prunes: Topics) {
    forall p, t {:trigger Listed(grafts, p, t)} {:trigger Listed(prunes, p, t)} :: TrackedAt(a, b, grafts, prunes, p, t)
  }

  lemma TrackNothing(mesh: Meshes)
    ensures Tracked(mesh, mesh, map[], map[])
  {
    var none: Topics := map[];
    forall p, t
      ensures TrackedAt(mesh, mesh, none, none, p, t)
    {
      assert !Listed(none, p, t);
    }
  }

  lemma TrackStep(start: Meshes, mesh: Meshes, topic: Topic, m: set<Peer>, grafts: Topics, grafts': Topics,
                  tograft: seq<Peer>, prunes: Topics, prunes': Topics, toprune: seq<Peer>)
    requires Tracked(start, mesh, grafts, prunes)
    requires topic in start && topic in mesh && start[topic] == mesh[topic]
    requires Extends(grafts', grafts, topic, tograft) && Extends(prunes', prunes, topic, toprune)
    requires forall p :: p in tograft <==> p in m && p !in mesh[topic]
    requires forall p :: p in toprune <==> p in mesh[topic] && p !in m
    ensures Tracked(start, mesh[topic := m], grafts', prunes')
  {
    var mesh' := mesh[topic := m];
    forall p, t
      ensures TrackedAt(start, mesh', grafts', prunes', p, t)
    {
      assert TrackedAt(start, mesh, grafts, prunes, p, t);
    }
  }

  ghost predicate AddressedTo(sent: seq<Control>, p: Peer) { exists i :: 0 <= i < |sent| && sent[i].peer == p }

  /** A message to p mentions topic t as a GRAFT, or as a PRUNE. */
  ghost predicate Sends(sent: seq<Control>, p: Peer, t: Topic, graft: bool) {
    exists i :: 0 <= i < |sent| && sent[i].peer == p && t in (if graft then sent[i].graft else sent[i].prune)
  }

  /** The lists of a peer, coalesced into one message. */
  function Message(grafts: Topics, prunes: Topics, p: Peer): Control {
    Control(p, if p in grafts then grafts[p] else [], if p in prunes then prunes[p] else [])
  }

  /** One message each to the peers in `done`, and to nobody else. */
  ghost predicate Coalesced(sent: seq<Control>, grafts: Topics, prunes: Topics, done: set<Peer>) {
    && (forall i, j :: 0 <= i < j < |sent| ==> sent[i].peer != sent[j].peer)
    && (forall i :: 0 <= i < |sent| ==> sent[i] == Message(grafts, prunes, sent[i].peer))
    && (forall p :: p in done <==> AddressedTo(sent, p))
  }

  lemma CoalescedAppend(sent: seq<Control>, grafts: Topics, prunes: Topics, done: set<Peer>, p: Peer)
    requires Coalesced(sent, grafts, prunes, done) && p !in done
    ensures Coalesced(sent + [Message(grafts, prunes, p)], grafts, prunes, done + {p})
  {
    var sent' := sent + [Message(grafts, prunes, p)];
    assert sent'[|sent|].peer == p;
    forall i | 0 <= i < |sent|
      ensures sent[i].peer != p
    {
      assert AddressedTo(sent, sent[i].peer);
    }
    forall q
      ensures q in done + {p} <==> AddressedTo(sent', q)
    {
      if AddressedTo(sent, q) {
        var i :| 0 <= i < |sent| && sent[i].peer == q;
        assert sent'[i].peer == q;
      }
    }
  }

  lemma CoalescedSends(sent: seq<Control>, grafts: Topics, prunes: Topics, p: Peer, t: Topic)
    requires Coalesced(sent, grafts, prunes, grafts.Keys + prunes.Keys)
    ensures Sends(sent, p, t, true) <==> Listed(grafts, p, t)
    ensures Sends(sent, p, t, false) <==> Listed(prunes, p, t)
  {
    if p in grafts.Keys + prunes.Keys {
      assert AddressedTo(sent, p);
      var i :| 0 <= i < |sent| && sent[i].peer == p;
      assert sent[i] == Message(grafts, prunes, p);
    }
  }

  method SendGraftPrune(grafts: Topics, prunes: Topics) returns (sent: seq<Control>)
    ensures Coalesced(sent, grafts, prunes, grafts.Keys + prunes.Keys)
  {
    sent := [];
    var left := prunes;
    var rest := grafts.Keys;
    while rest != {}
      invariant rest <= grafts.Keys && left == prunes - (grafts.Keys - rest)
      invariant Coalesced(sent, grafts, prunes, grafts.Keys - rest)
      decreases rest
    {
      var p :| p in rest;
      CoalescedAppend(sent, grafts, prunes, grafts.Keys - rest, p);
      sent := sent + [Control(p, grafts[p], if p in left then left[p] else [])];
      assert grafts.Keys - rest + {p} == grafts.Keys - (rest - {p});
      left := left - {p};
      rest := rest - {p};
    }
    rest := left.Keys;
    assert grafts.Keys == grafts.Keys + prunes.Keys - rest;
    while rest != {}
      invariant rest <= left.Keys
      invariant Coalesced(sent, grafts, prunes, grafts.Keys + prunes.Keys - rest)
      decreases rest
    {
      var p :| p in rest;
      CoalescedAppend(sent, grafts, prunes, grafts.Keys + prunes.Keys - rest, p);
      sent := sent + [Control(p, [], left[p])];
      assert grafts.Keys + prunes.Keys - rest + {p} == grafts.Keys + prunes.Keys - (rest - {p});
      rest := rest - {p};
    }
    assert grafts.Keys + prunes.Keys - rest == grafts.Keys + prunes.Keys;
  }
}
