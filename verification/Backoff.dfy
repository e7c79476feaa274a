/** Prune backoff across GRAFT, PRUNE, Join, Leave, heartbeat and clean-up.

    A state of the router is a value; each handler is a function of it (the class
    in Router.dfy implements them step by step).  `Safe` is what every handler
    guarantees about backoff; it composes, so it holds of whole runs.
  */
module Backoff {
  import opened Basics
  import opened Ids
  import opened Params
  import opened MeshTopic

  type Expiries = map<Topic, map<Peer, Time>>

  datatype Net = Net(mesh: map<Topic, set<Peer>>, fanout: map<Topic, set<Peer>>, backoff: Expiries, clock: Time)

  /** clearBackoff keeps entries for two (default) heartbeat intervals more. */
  const SLACK: Duration := 2 * SECOND

  predicate InMesh(s: Net, t: Topic, p: Peer) { t in s.mesh && p in s.mesh[t] }

  predicate HasEntry(b: Expiries, t: Topic, p: Peer) { t in b && p in b[t] }

  function Backed(b: Expiries, t: Topic): set<Peer> { Row(b, t).Keys }

  // ------------------------------------------------------------ the backoff table

  function Row(b: Expiries, t: Topic): map<Peer, Time> { if t in b then b[t] else map[] }

  function Later(m: map<Peer, Time>, p: Peer, e: Time): Time { if p in m && m[p] >= e then m[p] else e }

  /** doAddBackoff for a set of peers: an entry is created or only ever extended. */
  function Extended(m: map<Peer, Time>, ps: set<Peer>, e: Time): map<Peer, Time> {
    map p | p in m.Keys + ps :: if p in ps then Later(m, p, e) else m[p]
  }

  function AddEntries(b: Expiries, t: Topic, ps: set<Peer>, e: Time): Expiries {
    if ps == {} then b else b[t := Extended(Row(b, t), ps, e)]
  }

  function Live(m: map<Peer, Time>, now: Time): map<Peer, Time> {
    map p | p in m && !(m[p] + SLACK < now) :: m[p]
  }

  function Cleared(b: Expiries, now: Time): Expiries {
    map t | t in b && Live(b[t], now) != map[] :: Live(b[t], now)
  }

  function Entry(b: Expiries, t: Topic, p: Peer): (r: Option<Time>) {
    if HasEntry(b, t, p) then Some(b[t][p]) else None
  }

  lemma AddEntriesAt(b: Expiries, t: Topic, ps: set<Peer>, e: Time, u: Topic, p: Peer)
    ensures Entry(AddEntries(b, t, ps, e), u, p)
            == if u == t && p in ps
               then Some(if HasEntry(b, t, p) && b[t][p] >= e then b[t][p] else e)
               else Entry(b, u, p)
  {
  }

  lemma ClearedAt(b: Expiries, now: Time, t: Topic, p: Peer)
    ensures Entry(Cleared(b, now), t, p)
            == if HasEntry(b, t, p) && b[t][p] + SLACK >= now then Entry(b, t, p) else None
  {
    if HasEntry(b, t, p) && b[t][p] + SLACK >= now {
      assert p in Live(b[t], now);
    }
  }

  // ------------------------------------------------------------ what every step keeps

  /** What the router knows about one peer in one topic. */
  datatype View = View(inMesh: bool, entry: Option<Time>)

  function At(s: Net, t: Topic, p: Peer): View { View(InMesh(s, t, p), Entry(s.backoff, t, p)) }

  predicate Sound(v: View, clock: Time) { v.inMesh && v.entry.Some? ==> v.entry.value <= clock }

  /** An entry lasts, possibly extended, until SLACK after its expiry; nobody is
      in a mesh before the expiry of an entry. */
  predicate Respects(v: View, v': View, clock': Time) {
    && (v.entry.Some? ==>
          || (v'.entry.Some? && v'.entry.value >= v.entry.value)
          || clock' > v.entry.value + SLACK)
    && (v.entry.Some? && v'.inMesh ==> v.entry.value <= clock')
    && Sound(v', clock')
  }

  /** A mesh peer may have an entry only if it has expired. */
  ghost predicate Inv(s: Net) { forall t, p :: Sound(At(s, t, p), s.clock) }

  /** Time moves on and every peer's entry is respected in every topic. */
  ghost predicate Safe(s: Net, s': Net) {
    s.clock <= s'.clock && forall t, p :: Respects(At(s, t, p), At(s', t, p), s'.clock)
  }

  lemma SafeKeepsInv(s: Net, s': Net)
    requires Safe(s, s')
    ensures Inv(s')
  {
    forall t, p
      ensures Sound(At(s', t, p), s'.clock)
    {
      assert Respects(At(s, t, p), At(s', t, p), s'.clock);
    }
  }

  lemma SafeTransitive(a: Net, b: Net, c: Net)
    requires Safe(a, b) && Safe(b, c)
    ensures Safe(a, c)
  {
    forall t, p
      ensures Respects(At(a, t, p), At(c, t, p), c.clock)
    {
      assert Respects(At(a, t, p), At(b, t, p), b.clock);
      assert Respects(At(b, t, p), At(c, t, p), c.clock);
    }
  }

  // ------------------------------------------------------------ GRAFT received

  datatype GraftContext = GraftContext(
    score: real, now: Time, later: Time, accepts: Topic -> bool, direct: bool, outbound: bool, doPX: bool)

  /** `px` tells whether the PRUNEs that answer a batch offer other peers. */
  datatype GraftResult = GraftResult(net: Net, prune: seq<Topic>, penalty: nat, px: bool)

  function Refuse(r: GraftResult, t: Topic, ps: set<Peer>, expire: Time, penalty: nat): GraftResult {
    r.(net := r.net.(backoff := AddEntries(r.net.backoff, t, ps, expire)), prune := r.prune + [t],
       penalty := r.penalty + penalty)
  }

  datatype Verdict = Ignored | Direct | Refused(penalty: nat) | Granted

  predicate BackingOff(s: Net, p: Peer, t: Topic, now: Time) { HasEntry(s.backoff, t, p) && now < s.backoff[t][p] }

  /** How handleGraft treats one GRAFT. */
  function GraftVerdict(s: Net, p: Peer, t: Topic, c: GraftContext, params: GossipSubParams): Verdict {
    if !c.accepts(t) || t !in s.mesh || p in s.mesh[t] then Ignored
    else if c.direct then Direct
    else if BackingOff(s, p, t, c.now) then
      Refused(if c.now < s.backoff[t][p] + (params.graftFloodThreshold - params.pruneBackoff) then 2 else 1)
    else if c.score < 0.0 then Refused(0)
    else if |s.mesh[t]| >= params.Dhi && !c.outbound then Refused(0)
    else Granted
  }

  /** A GRAFT after which no peers are offered: for an unknown topic, or from a peer
      that is direct, backing off or negative. */
  predicate ForbidsPX(s: Net, p: Peer, t: Topic, c: GraftContext) {
    c.accepts(t) && (t !in s.mesh || (p !in s.mesh[t] && (c.direct || BackingOff(s, p, t, c.now) || c.score < 0.0)))
  }

  function GraftOne(r: GraftResult, p: Peer, t: Topic, c: GraftContext, params: GossipSubParams): GraftResult {
    Judged(r, p, t, c, params).(px := r.px && !ForbidsPX(r.net, p, t, c))
  }

  function Judged(r: GraftResult, p: Peer, t: Topic, c: GraftContext, params: GossipSubParams): GraftResult {
    match GraftVerdict(r.net, p, t, c, params)
    case Ignored => r
    case Direct => Refuse(r, t, {}, c.later + params.pruneBackoff, 0)
    case Refused(penalty) => Refuse(r, t, {p}, c.later + params.pruneBackoff, penalty)
    case Granted => r.(net := r.net.(mesh := r.net.mesh[t := r.net.mesh[t] + {p}]))
  }

  function GraftAll(r: GraftResult, p: Peer, ts: seq<Topic>, c: GraftContext, params: GossipSubParams): GraftResult {
    if ts == [] then r
    else GraftOne(GraftAll(r, p, ts[..|ts| - 1], c, params), p, ts[|ts| - 1], c, params)
  }

  function GraftStart(s: Net, c: GraftContext): GraftResult { GraftResult(s.(clock := c.later), [], 0, c.doPX) }

  function HandleGraft(s: Net, p: Peer, ts: seq<Topic>, c: GraftContext, params: GossipSubParams): GraftResult {
    GraftAll(GraftStart(s, c), p, ts, c, params)
  }

  /** Adding entries for peers that are not in the mesh. */
  lemma BackOffSafe(s: Net, t: Topic, ps: set<Peer>, e: Time)
    requires Inv(s) && forall p :: p in ps ==> !InMesh(s, t, p)
    ensures Safe(s, s.(backoff := AddEntries(s.backoff, t, ps, e)))
  {
    var s' := s.(backoff := AddEntries(s.backoff, t, ps, e));
    forall u, p
      ensures Respects(At(s, u, p), At(s', u, p), s'.clock)
    {
      assert Sound(At(s, u, p), s.clock);
      AddEntriesAt(s.backoff, t, ps, e, u, p);
    }
  }

  /** Replacing the mesh of one topic, where nobody new is still backing off. */
  lemma RemeshSafe(s: Net, t: Topic, m: set<Peer>)
    requires Inv(s)
    requires forall p :: p in m && !InMesh(s, t, p) && HasEntry(s.backoff, t, p) ==> s.backoff[t][p] <= s.clock
    ensures Safe(s, s.(mesh := s.mesh[t := m]))
  {
    var s' := s.(mesh := s.mesh[t := m]);
    forall u, p
      ensures Respects(At(s, u, p), At(s', u, p), s'.clock)
    {
      assert Sound(At(s, u, p), s.clock);
    }
  }

  /** Removing peers from meshes, or whole meshes. */
  lemma RemoveSafe(s: Net, mesh': map<Topic, set<Peer>>)
    requires Inv(s) && forall t, p :: t in mesh' && p in mesh'[t] ==> InMesh(s, t, p)
    ensures Safe(s, s.(mesh := mesh'))
  {
    var s' := s.(mesh := mesh');
    forall u, p
      ensures Respects(At(s, u, p), At(s', u, p), s'.clock)
    {
      assert Sound(At(s, u, p), s.clock);
    }
  }

  lemma WaitSafe(s: Net, now: Time)
    requires Inv(s) && s.clock <= now
    ensures Safe(s, s.(clock := now))
  {
    forall t, p
      ensures Respects(At(s, t, p), At(s.(clock := now), t, p), now)
    {
      assert Sound(At(s, t, p), s.clock);
    }
  }

  lemma RefuseSafe(r: GraftResult, t: Topic, ps: set<Peer>, expire: Time, penalty: nat)
    requires Inv(r.net) && forall p :: p in ps ==> !InMesh(r.net, t, p)
    ensures Safe(r.net, Refuse(r, t, ps, expire, penalty).net)
  {
    BackOffSafe(r.net, t, ps, expire);
  }

  lemma GraftOneSafe(r: GraftResult, p: Peer, t: Topic, c: GraftContext, params: GossipSubParams)
    requires Inv(r.net) && c.now <= r.net.clock
    ensures Safe(r.net, GraftOne(r, p, t, c, params).net)
    ensures GraftOne(r, p, t, c, params).net.clock == r.net.clock
  {
    var expire := c.later + params.pruneBackoff;
    match GraftVerdict(r.net, p, t, c, params)
    case Ignored => WaitSafe(r.net, r.net.clock);
    case Direct => RefuseSafe(r, t, {}, expire, 0);
    case Refused(penalty) => RefuseSafe(r, t, {p}, expire, penalty);
    case Granted => RemeshSafe(r.net, t, r.net.mesh[t] + {p});
  }

  lemma {:induction false} GraftAllSafe(r: GraftResult, p: Peer, ts: seq<Topic>, c: GraftContext,
                                        params: GossipSubParams)
    requires Inv(r.net) && c.now <= r.net.clock
    ensures Safe(r.net, GraftAll(r, p, ts, c, params).net)
    ensures GraftAll(r, p, ts, c, params).net.clock == r.net.clock
  {
    if ts == [] {
      WaitSafe(r.net, r.net.clock);
    } else {
      var r' := GraftAll(r, p, ts[..|ts| - 1], c, params);
      GraftAllSafe(r, p, ts[..|ts| - 1], c, params);
      SafeKeepsInv(r.net, r'.net);
      GraftOneSafe(r', p, ts[|ts| - 1], c, params);
      SafeTransitive(r.net, r'.net, GraftAll(r, p, ts, c, params).net);
    }
  }

  lemma HandleGraftSafe(s: Net, p: Peer, ts: seq<Topic>, c: GraftContext, params: GossipSubParams)
    requires Inv(s) && s.clock <= c.now <= c.later
    ensures Safe(s, HandleGraft(s, p, ts, c, params).net)
  {
    var s1 := s.(clock := c.later);
    WaitSafe(s, c.later);
    SafeKeepsInv(s, s1);
    GraftAllSafe(GraftStart(s, c), p, ts, c, params);
    SafeTransitive(s, s1, HandleGraft(s, p, ts, c, params).net);
  }

  /** A GRAFT is granted exactly to a peer that is not direct, is not backing
      off, has no negative score, and finds room or is an outbound peer. */
  lemma GraftGrantedExactly(r: GraftResult, p: Peer, t: Topic, c: GraftContext, params: GossipSubParams)
    requires t in r.net.mesh && p !in r.net.mesh[t]
    ensures InMesh(GraftOne(r, p, t, c, params).net, t, p) <==>
            && c.accepts(t) && !c.direct && c.score >= 0.0
            && !BackingOff(r.net, p, t, c.now)
            && (|r.net.mesh[t]| < params.Dhi || c.outbound)
    ensures t in GraftOne(r, p, t, c, params).prune[|r.prune|..] <==>
            c.accepts(t) && !InMesh(GraftOne(r, p, t, c, params).net, t, p)
  {
  }

  // ------------------------------------------------------------ PRUNE received

  const TWO_TO_63 := 0x8000_0000_0000_0000
  const TWO_TO_64 := 0x1_0000_0000_0000_0000

  /** Two's complement 64-bit wrap-around. */
  function Wrap64(x: int): int { (x + TWO_TO_63) % TWO_TO_64 - TWO_TO_63 }

  /** time.Duration(backoff) * time.Second */
  function SecondsToDuration(backoff: nat): Duration { Wrap64(Wrap64(backoff) * SECOND) }

  /** The requested time is what the entry gets exactly when it fits in a
      Duration; a larger request comes out shorter. */
  lemma BackoffHonouredExactly(backoff: nat)
    requires backoff < TWO_TO_64
    ensures SecondsToDuration(backoff) == backoff * SECOND <==> backoff * SECOND < TWO_TO_63
    ensures backoff * SECOND >= TWO_TO_63 ==> SecondsToDuration(backoff) < backoff * SECOND
  {
    if backoff >= TWO_TO_63 {
      assert Wrap64(backoff) == backoff - TWO_TO_64;
    } else {
      assert Wrap64(backoff) == backoff;
    }
  }

  /** One entry of a received PRUNE: topic, requested backoff in seconds and the peers
      it offers instead. */
  datatype PruneEntry = PruneEntry(topic: Topic, seconds: nat, px: seq<Peer>)

  function PruneInterval(e: PruneEntry, params: GossipSubParams): Duration {
    if e.seconds > 0 then SecondsToDuration(e.seconds) else params.pruneBackoff
  }

  function PruneOne(s: Net, p: Peer, e: PruneEntry, now: Time, params: GossipSubParams): Net {
    var t := e.topic;
    if t !in s.mesh then s
    else s.(mesh := s.mesh[t := s.mesh[t] - {p}],
            backoff := AddEntries(s.backoff, t, {p}, now + PruneInterval(e, params)))
  }

  function PruneAll(s: Net, p: Peer, es: seq<PruneEntry>, now: Time, params: GossipSubParams): Net {
    if es == [] then s else PruneOne(PruneAll(s, p, es[..|es| - 1], now, params), p, es[|es| - 1], now, params)
  }

  function HandlePrune(s: Net, p: Peer, es: seq<PruneEntry>, now: Time, params: GossipSubParams): Net {
    PruneAll(s.(clock := now), p, es, now, params)
  }

  lemma PruneOneSafe(s: Net, p: Peer, e: PruneEntry, now: Time, params: GossipSubParams)
    requires Inv(s)
    ensures Safe(s, PruneOne(s, p, e, now, params)) && PruneOne(s, p, e, now, params).clock == s.clock
  {
    WaitSafe(s, s.clock);
    if e.topic in s.mesh {
      var s1 := s.(mesh := s.mesh[e.topic := s.mesh[e.topic] - {p}]);
      RemeshSafe(s, e.topic, s.mesh[e.topic] - {p});
      SafeKeepsInv(s, s1);
      BackOffSafe(s1, e.topic, {p}, now + PruneInterval(e, params));
      SafeTransitive(s, s1, PruneOne(s, p, e, now, params));
    }
  }

  lemma {:induction false} PruneAllSafe(s: Net, p: Peer, es: seq<PruneEntry>, now: Time, params: GossipSubParams)
    requires Inv(s)
    ensures Safe(s, PruneAll(s, p, es, now, params)) && PruneAll(s, p, es, now, params).clock == s.clock
  {
    if es == [] {
      WaitSafe(s, s.clock);
    } else {
      var s' := PruneAll(s, p, es[..|es| - 1], now, params);
      PruneAllSafe(s, p, es[..|es| - 1], now, params);
      SafeKeepsInv(s, s');
      PruneOneSafe(s', p, es[|es| - 1], now, params);
      SafeTransitive(s, s', PruneAll(s, p, es, now, params));
    }
  }

  lemma HandlePruneSafe(s: Net, p: Peer, es: seq<PruneEntry>, now: Time, params: GossipSubParams)
    requires Inv(s) && s.clock <= now
    ensures Safe(s, HandlePrune(s, p, es, now, params))
  {
    WaitSafe(s, now);
    SafeKeepsInv(s, s.(clock := now));
    PruneAllSafe(s.(clock := now), p, es, now, params);
    SafeTransitive(s, s.(clock := now), HandlePrune(s, p, es, now, params));
  }

  /** A PRUNE takes the peer out of the mesh and sets an expiry. */
  lemma PruneSetsBackoff(s: Net, p: Peer, e: PruneEntry, now: Time, params: GossipSubParams)
    requires e.topic in s.mesh
    ensures var s' := PruneOne(s, p, e, now, params);
            !InMesh(s', e.topic, p) && HasEntry(s'.backoff, e.topic, p)
            && s'.backoff[e.topic][p] >= now + PruneInterval(e, params)
  {
    AddEntriesAt(s.backoff, e.topic, {p}, now + PruneInterval(e, params), e.topic, p);
  }

  /** The offers that are taken up: those for joined topics, from a peer that is
      trusted with them. */
  function Offers(joined: set<Topic>, es: seq<PruneEntry>, trusted: bool): seq<seq<Peer>> {
    if es == [] then []
    else
      var e := es[|es| - 1];
      Offers(joined, es[..|es| - 1], trusted) + if e.topic in joined && e.px != [] && trusted then [e.px] else []
  }

  // ------------------------------------------------------------ Leave and Join

  function Leave(s: Net, t: Topic, now: Time, params: GossipSubParams): Net {
    if t !in s.mesh then s.(clock := now)
    else Net(s.mesh - {t}, s.fanout, AddEntries(s.backoff, t, s.mesh[t], now + params.unsubscribeBackoff), now)
  }

  lemma LeaveSafe(s: Net, t: Topic, now: Time, params: GossipSubParams)
    requires Inv(s) && s.clock <= now
    ensures Safe(s, Leave(s, t, now, params))
  {
    var s1 := s.(clock := now);
    WaitSafe(s, now);
    if t in s.mesh {
      var s2 := s1.(mesh := s.mesh - {t});
      SafeKeepsInv(s, s1);
      RemoveSafe(s1, s2.mesh);
      SafeTransitive(s, s1, s2);
      SafeKeepsInv(s, s2);
      BackOffSafe(s2, t, s.mesh[t], now + params.unsubscribeBackoff);
      SafeTransitive(s, s2, Leave(s, t, now, params));
    }
  }

  /** Leaving sets an expiry for every peer of the mesh. */
  lemma LeaveSetsBackoff(s: Net, t: Topic, now: Time, params: GossipSubParams, p: Peer)
    requires InMesh(s, t, p)
    ensures var s' := Leave(s, t, now, params);
            t !in s'.mesh && HasEntry(s'.backoff, t, p) && s'.backoff[t][p] >= now + params.unsubscribeBackoff
  {
    AddEntriesAt(s.backoff, t, s.mesh[t], now + params.unsubscribeBackoff, t, p);
  }

  /** Who may be grafted on joining: gossipsub peers of the topic that are not
      direct, have no backoff entry at all and no negative score. */
  function Joinable(gmap: set<Peer>, backed: set<Peer>, env: Env): set<Peer> {
    Eligible(Stage(gmap, backed), env)
  }

  /** Fanout peers without negative score and without backoff entry. */
  function Graftable(peers: set<Peer>, backed: set<Peer>, env: Env): set<Peer> {
    set p | p in peers && !(env.score(p) < 0.0) && p !in backed
  }

  function ToppedUp(gmap: set<Peer>, backed: set<Peer>, D: int, env: Env): set<Peer> {
    if |gmap| < D then gmap + GetPeers(env, 0, D - |gmap|, Joinable(gmap, backed, env)) else gmap
  }

  /** The mesh that Join builds, from the fanout peers if there are any. */
  function JoinedMesh(s: Net, t: Topic, params: GossipSubParams, env: Env): set<Peer> {
    var backed := Backed(s.backoff, t);
    if t in s.fanout then
      var gmap := Graftable(s.fanout[t], backed, env);
      ToppedUp(gmap, backed, params.D, env)
    else GetPeers(env, 0, params.D, Joinable({}, backed, env))
  }

  function Join(s: Net, t: Topic, now: Time, params: GossipSubParams, env: Env): Net {
    if t in s.mesh then s.(clock := now)
    else Net(s.mesh[t := JoinedMesh(s, t, params, env)], s.fanout - {t}, s.backoff, now)
  }

  lemma JoinedAreNotBacked(s: Net, t: Topic, params: GossipSubParams, env: Env)
    requires LawfulChoice(env.choose)
    ensures forall p :: p in JoinedMesh(s, t, params, env) ==> !HasEntry(s.backoff, t, p) && env.score(p) >= 0.0
  {
    var backed := Backed(s.backoff, t);
    if t in s.fanout {
      var gmap := Graftable(s.fanout[t], backed, env);
      GetPeersSize(env, 0, params.D - |gmap|, Joinable(gmap, backed, env));
    } else {
      GetPeersSize(env, 0, params.D, Joinable({}, backed, env));
    }
  }

  lemma JoinSafe(s: Net, t: Topic, now: Time, params: GossipSubParams, env: Env)
    requires Inv(s) && s.clock <= now && LawfulChoice(env.choose)
    ensures Safe(s, Join(s, t, now, params, env))
  {
    JoinedAreNotBacked(s, t, params, env);
    var s1 := s.(clock := now);
    WaitSafe(s, now);
    SafeKeepsInv(s, s1);
    if t !in s.mesh {
      var m := JoinedMesh(s, t, params, env);
      RemeshSafe(s1, t, m);
      SafeTransitive(s, s1, s1.(mesh := s.mesh[t := m]));
      SameViews(s, s1.(mesh := s.mesh[t := m]), Join(s, t, now, params, env));
    }
  }

  /** The fanout plays no part. */
  lemma SameViews(s: Net, a: Net, b: Net)
    requires Safe(s, a) && b == a.(fanout := b.fanout)
    ensures Safe(s, b)
  {
    forall t, p
      ensures Respects(At(s, t, p), At(b, t, p), b.clock)
    {
      assert Respects(At(s, t, p), At(a, t, p), a.clock);
    }
  }

  // ------------------------------------------------------------ heartbeat

  /** The mesh of a topic after maintenance, given its mesh and backed-off peers. */
  type Maintenance = (Topic, Stage) -> set<Peer>

  function MaintenanceOf(params: GossipSubParams, envs: Topic -> Env): Maintenance {
    (t, st) => Maintain(st, params, envs(t)).mesh
  }

  /** Maintenance grafts nobody who has a backoff entry. */
  ghost predicate LawfulMaintenance(maintain: Maintenance) {
    forall t: Topic, st: Stage, p: Peer :: p in maintain(t, st) ==> p in st.mesh || p !in st.backed
  }

  lemma MaintenanceIsLawful(params: GossipSubParams, envs: Topic -> Env)
    requires LawfulBeat(params, envs)
    ensures LawfulMaintenance(MaintenanceOf(params, envs))
  {
    forall t: Topic, st: Stage, p: Peer | p in MaintenanceOf(params, envs)(t, st)
      ensures p in st.mesh || p !in st.backed
    {
      MaintainKeepsGoodPeers(st, params, envs(t));
    }
  }

  /** What the router knows about one topic. */
  datatype TopicState = TopicState(mesh: Option<set<Peer>>, row: Option<map<Peer, Time>>)

  function Of(s: Net, t: Topic): TopicState {
    TopicState(if t in s.mesh then Some(s.mesh[t]) else None, if t in s.backoff then Some(s.backoff[t]) else None)
  }

  function RowOf(v: TopicState): map<Peer, Time> { if v.row.Some? then v.row.value else map[] }

  function ViewIn(v: TopicState, p: Peer): View {
    View(v.mesh.Some? && p in v.mesh.value, if p in RowOf(v) then Some(RowOf(v)[p]) else None)
  }

  lemma AtOf(s: Net, t: Topic, p: Peer)
    ensures At(s, t, p) == ViewIn(Of(s, t), p)
  {
  }

  function Kept(v: TopicState, t: Topic, maintain: Maintenance): set<Peer>
    requires v.mesh.Some?
  {
    maintain(t, Stage(v.mesh.value, RowOf(v).Keys))
  }

  /** Maintenance of one topic; whoever leaves the mesh is backed off until e. */
  function BeatTopic(v: TopicState, t: Topic, maintain: Maintenance, e: Time): TopicState {
    if v.mesh.None? then v
    else
      var gone := v.mesh.value - Kept(v, t, maintain);
      TopicState(Some(Kept(v, t, maintain)), if gone == {} then v.row else Some(Extended(RowOf(v), gone, e)))
  }

  /** Maintenance of every topic. */
  ghost predicate Beaten(s: Net, s': Net, maintain: Maintenance, e: Time) {
    s'.fanout == s.fanout && s'.clock == s.clock && forall t :: Of(s', t) == BeatTopic(Of(s, t), t, maintain, e)
  }

  const CLEAR_TICKS := 15

  function Clean(s: Net, ticks: nat, now: Time): Net {
    if ticks % CLEAR_TICKS != 0 then s else s.(backoff := Cleared(s.backoff, now))
  }

  /** The mesh part of a heartbeat: clean-up, then every topic. */
  ghost predicate Heartbeat(
    s: Net, s': Net, ticks: nat, maintain: Maintenance, pruneBackoff: Duration, now: Time, later: Time) {
    Beaten(Clean(s, ticks, now).(clock := later), s', maintain, later + pruneBackoff)
  }

  lemma CleanSafe(s: Net, ticks: nat, now: Time, later: Time)
    requires Inv(s) && s.clock <= now <= later
    ensures Safe(s, Clean(s, ticks, now).(clock := later))
  {
    var s' := Clean(s, ticks, now).(clock := later);
    forall t, p
      ensures Respects(At(s, t, p), At(s', t, p), s'.clock)
    {
      assert Sound(At(s, t, p), s.clock);
      ClearedAt(s.backoff, now, t, p);
    }
  }

  ghost predicate LawfulBeat(params: GossipSubParams, envs: Topic -> Env) {
    && params.Valid() && params.Sliceable()
    && forall t :: Lawful(envs(t), params)
  }

  lemma BeatTopicRespects(v: TopicState, t: Topic, maintain: Maintenance, e: Time, p: Peer, clock: Time)
    requires Sound(ViewIn(v, p), clock) && LawfulMaintenance(maintain)
    ensures Respects(ViewIn(v, p), ViewIn(BeatTopic(v, t, maintain, e), p), clock)
  {
    if v.mesh.Some? {
      assert p in Kept(v, t, maintain) ==> p in v.mesh.value || p !in RowOf(v).Keys;
    }
  }

  lemma BeatenSafe(s: Net, s': Net, maintain: Maintenance, e: Time)
    requires Inv(s) && LawfulMaintenance(maintain) && Beaten(s, s', maintain, e)
    ensures Safe(s, s')
  {
    forall t, p
      ensures Respects(At(s, t, p), At(s', t, p), s'.clock)
    {
      assert Sound(At(s, t, p), s.clock);
      AtOf(s, t, p);
      AtOf(s', t, p);
      BeatTopicRespects(Of(s, t), t, maintain, e, p, s.clock);
    }
  }

  lemma HeartbeatSafe(
    s: Net, s': Net, ticks: nat, maintain: Maintenance, pruneBackoff: Duration, now: Time, later: Time)
    requires Inv(s) && s.clock <= now <= later && LawfulMaintenance(maintain)
    requires Heartbeat(s, s', ticks, maintain, pruneBackoff, now, later)
    ensures Safe(s, s')
  {
    var s1 := Clean(s, ticks, now).(clock := later);
    CleanSafe(s, ticks, now, later);
    SafeKeepsInv(s, s1);
    BeatenSafe(s1, s', maintain, later + pruneBackoff);
    SafeTransitive(s, s1, s');
  }

  /** Whoever a heartbeat takes out of a mesh has an entry afterwards, and
      whoever it puts in had none before. */
  lemma BeatSetsBackoff(s: Net, s': Net, maintain: Maintenance, e: Time, t: Topic, p: Peer)
    requires LawfulMaintenance(maintain) && Beaten(s, s', maintain, e)
    ensures InMesh(s, t, p) && !InMesh(s', t, p) ==>
              Entry(s'.backoff, t, p).Some? && Entry(s'.backoff, t, p).value >= e
    ensures !InMesh(s, t, p) && InMesh(s', t, p) ==> Entry(s.backoff, t, p).None?
  {
    AtOf(s, t, p);
    AtOf(s', t, p);
    var v := Of(s, t);
    assert Of(s', t) == BeatTopic(v, t, maintain, e);
    if v.mesh.Some? {
      var gone := v.mesh.value - Kept(v, t, maintain);
      assert p in gone ==> p in Extended(RowOf(v), gone, e) && Extended(RowOf(v), gone, e)[p] >= e;
      assert p in Kept(v, t, maintain) ==> p in v.mesh.value || p !in RowOf(v).Keys;
    }
  }

  // ------------------------------------------------------------ whole runs

  datatype Step =
    | RecvGraft(p: Peer, ts: seq<Topic>, c: GraftContext)
    | RecvPrune(p: Peer, es: seq<PruneEntry>, now: Time)
    | JoinTopic(t: Topic, env: Env, now: Time)
    | LeaveTopic(t: Topic, now: Time)
    | Beat(ticks: nat, envs: Topic -> Env, now: Time, later: Time)
    | ClosePeer(p: Peer)
    | ChangeFanout(fanout: map<Topic, set<Peer>>)
    | Wait(now: Time)

  ghost predicate Enabled(s: Net, step: Step, params: GossipSubParams) {
    match step
    case RecvGraft(_, _, c) => s.clock <= c.now <= c.later
    case RecvPrune(_, _, now) => s.clock <= now
    case JoinTopic(_, env, now) => s.clock <= now && LawfulChoice(env.choose)
    case LeaveTopic(_, now) => s.clock <= now
    case Beat(_, envs, now, later) => s.clock <= now <= later && LawfulBeat(params, envs)
    case ClosePeer(_) => true
    case ChangeFanout(_) => true
    case Wait(now) => s.clock <= now
  }

  function WithoutPeer(m: map<Topic, set<Peer>>, p: Peer): map<Topic, set<Peer>> { map t | t in m :: m[t] - {p} }

  ghost predicate Next(s: Net, step: Step, s': Net, params: GossipSubParams) {
    Enabled(s, step, params) &&
    match step
    case RecvGraft(p, ts, c) => s' == HandleGraft(s, p, ts, c, params).net
    case RecvPrune(p, es, now) => s' == HandlePrune(s, p, es, now, params)
    case JoinTopic(t, env, now) => s' == Join(s, t, now, params, env)
    case LeaveTopic(t, now) => s' == Leave(s, t, now, params)
    case Beat(ticks, envs, now, later) =>
      Heartbeat(s, s', ticks, MaintenanceOf(params, envs), params.pruneBackoff, now, later)
    case ClosePeer(p) => s' == s.(mesh := WithoutPeer(s.mesh, p), fanout := WithoutPeer(s.fanout, p))
    case ChangeFanout(f) => s' == s.(fanout := f)
    case Wait(now) => s' == s.(clock := now)
  }

  lemma StepSafe(s: Net, step: Step, s': Net, params: GossipSubParams)
    requires Inv(s) && Next(s, step, s', params)
    ensures Safe(s, s')
  {
    match step
    case RecvGraft(p, ts, c) => HandleGraftSafe(s, p, ts, c, params);
    case RecvPrune(p, es, now) => HandlePruneSafe(s, p, es, now, params);
    case JoinTopic(t, env, now) => JoinSafe(s, t, now, params, env);
    case LeaveTopic(t, now) => LeaveSafe(s, t, now, params);
    case Beat(ticks, envs, now, later) =>
      MaintenanceIsLawful(params, envs);
      HeartbeatSafe(s, s', ticks, MaintenanceOf(params, envs), params.pruneBackoff, now, later);
    case ClosePeer(p) =>
      RemoveSafe(s, WithoutPeer(s.mesh, p));
      SameViews(s, s.(mesh := WithoutPeer(s.mesh, p)), s');
    case ChangeFanout(f) =>
      WaitSafe(s, s.clock);
      SameViews(s, s, s');
    case Wait(now) => WaitSafe(s, now);
  }

  /** A run of the router from a state without meshes. */
  ghost predicate IsRun(states: seq<Net>, steps: seq<Step>, params: GossipSubParams) {
    && |states| == |steps| + 1 && states[0].mesh == map[]
    && forall i :: 0 <= i < |steps| ==> Next(states[i], steps[i], states[i + 1], params)
  }

  lemma {:induction false} RunInv(states: seq<Net>, steps: seq<Step>, params: GossipSubParams, j: nat)
    requires IsRun(states, steps, params) && j < |states|
    ensures Inv(states[j])
  {
    if j > 0 {
      RunInv(states, steps, params, j - 1);
      StepSafe(states[j - 1], steps[j - 1], states[j], params);
      SafeKeepsInv(states[j - 1], states[j]);
    }
  }

  lemma {:induction false} RunSafe(states: seq<Net>, steps: seq<Step>, params: GossipSubParams, i: nat, j: nat)
    requires IsRun(states, steps, params) && i <= j < |states|
    ensures Safe(states[i], states[j])
    decreases j - i
  {
    RunInv(states, steps, params, i);
    if i == j {
      WaitSafe(states[i], states[i].clock);
    } else {
      RunSafe(states, steps, params, i, j - 1);
      RunInv(states, steps, params, j - 1);
      StepSafe(states[j - 1], steps[j - 1], states[j], params);
      SafeTransitive(states[i], states[j - 1], states[j]);
    }
  }

  /** Once an expiry is set for a peer in a topic, by whatever handler, the peer
      is in no later mesh of that topic before the expiry. */
  lemma NoMeshBeforeExpiry(
    states: seq<Net>, steps: seq<Step>, params: GossipSubParams, i: nat, j: nat, t: Topic, p: Peer, e: Time)
    requires IsRun(states, steps, params) && i <= j < |states|
    requires Entry(states[i].backoff, t, p) == Some(e) && states[j].clock < e
    ensures !InMesh(states[j], t, p)
  {
    RunSafe(states, steps, params, i, j);
    assert Respects(At(states[i], t, p), At(states[j], t, p), states[j].clock);
  }

  /** A graft of our own, on joining or in a heartbeat, waits SLACK longer. */
  lemma OwnGraftsWaitLonger(
    states: seq<Net>, steps: seq<Step>, params: GossipSubParams, i: nat, j: nat, t: Topic, p: Peer, e: Time)
    requires IsRun(states, steps, params) && i <= j < |steps|
    requires steps[j].JoinTopic? || steps[j].Beat?
    requires Entry(states[i].backoff, t, p) == Some(e)
    requires !InMesh(states[j], t, p) && InMesh(states[j + 1], t, p)
    ensures states[j + 1].clock > e + SLACK
  {
    RunSafe(states, steps, params, i, j);
    assert Respects(At(states[i], t, p), At(states[j], t, p), states[j].clock);
    OwnGraft(states[j], steps[j], states[j + 1], params, t, p);
  }

  lemma HeartbeatGraftsWait(
    s: Net, s': Net, ticks: nat, maintain: Maintenance, pruneBackoff: Duration, now: Time, later: Time,
    t: Topic, p: Peer)
    requires LawfulMaintenance(maintain) && now <= later
    requires Heartbeat(s, s', ticks, maintain, pruneBackoff, now, later) && !InMesh(s, t, p) && InMesh(s', t, p)
    ensures s'.clock == later && (HasEntry(s.backoff, t, p) ==> later > s.backoff[t][p] + SLACK)
  {
    BeatSetsBackoff(Clean(s, ticks, now).(clock := later), s', maintain, later + pruneBackoff, t, p);
    ClearedAt(s.backoff, now, t, p);
  }

  lemma JoinGraftsWait(s: Net, u: Topic, now: Time, params: GossipSubParams, env: Env, t: Topic, p: Peer)
    requires LawfulChoice(env.choose)
    requires !InMesh(s, t, p) && InMesh(Join(s, u, now, params, env), t, p)
    ensures Entry(s.backoff, t, p).None? && Join(s, u, now, params, env).clock == now
  {
    JoinedAreNotBacked(s, u, params, env);
  }

  lemma OwnGraft(s: Net, step: Step, s': Net, params: GossipSubParams, t: Topic, p: Peer)
    requires Next(s, step, s', params) && (step.JoinTopic? || step.Beat?)
    requires !InMesh(s, t, p) && InMesh(s', t, p)
    ensures s.clock <= s'.clock && (HasEntry(s.backoff, t, p) ==> s'.clock > s.backoff[t][p] + SLACK)
  {
    match step
    case JoinTopic(u, env, now) => JoinGraftsWait(s, u, now, params, env, t, p);
    case Beat(ticks, envs, now, later) =>
      MaintenanceIsLawful(params, envs);
      HeartbeatGraftsWait(s, s', ticks, MaintenanceOf(params, envs), params.pruneBackoff, now, later, t, p);
  }
}
