/** A heartbeat from end to end: what it makes of every mesh, by counting alone. */
module HeartbeatExact {
  import opened Basics
  import opened Ids
  import opened Params
  import opened MeshTopic
  import opened MeshExact
  import opened Backoff
  import opened HandlersExact
  import opened Router

  // ------------------------------------------------------------ ticks

  lemma RemainderIs(x: int, n: nat, q: int, r: nat)
    requires n > 0 && x == n * q + r && r < n
    ensures x % n == r
  {
    var q', r' := x / n, x % n;
    assert x == n * q' + r';
    assert n * (q - q') == n * q - n * q';
    SmallMultiple(n, q - q');
  }

  lemma NextMultiple(x: nat, n: nat) returns (k: nat)
    requires n > 0
    ensures x <= k < x + n && k % n == 0
  {
    var q, r := x / n, x % n;
    assert x == n * q + r;
    if r == 0 {
      k := x;
    } else {
      k := x + (n - r);
      assert k == n * (q + 1) + 0;
      RemainderIs(k, n, q + 1, 0);
    }
  }

  lemma SameMultiple(j: nat, k: nat, n: nat)
    requires n > 0 && j % n == 0 && k % n == 0 && j < k + n && k < j + n
    ensures j == k
  {
    var a, b := j / n, k / n;
    assert j == n * a && k == n * b;
    assert n * (a - b) == n * a - n * b;
    SmallMultiple(n, a - b);
  }

  /** In every period of so many ticks opportunistic grafting is due exactly once. */
  lemma DueOncePerPeriod(ticks: nat, params: GossipSubParams) returns (k: nat)
    requires params.opportunisticGraftTicks > 0
    ensures var n := params.opportunisticGraftTicks;
            && ticks <= k < ticks + n && Due(k, params)
            && forall j :: ticks <= j < ticks + n && Due(j, params) ==> j == k
  {
    var n := params.opportunisticGraftTicks;
    k := NextMultiple(ticks, n);
    forall j | ticks <= j < ticks + n && Due(j, params)
      ensures j == k
    {
      SameMultiple(j, k, n);
    }
  }

  // ------------------------------------------------------------ meshes

  /** What becomes of the mesh of a topic: s of it survive, a is that filled up or cut
      down, b has the outbound quota, and only on every so many ticks may it improve. */
  ghost predicate MaintainedAt(st: Stage, mesh: set<Peer>, params: GossipSubParams, env: Env, ticks: nat, s: set<Peer>,
                               a: set<Peer>, b: set<Peer>) {
    && s == (set q | q in st.mesh && env.score(q) >= 0.0)
    && Resized(st, s, a, params, env) && Balanced(st, a, b, params, env)
    && if params.opportunisticGraftTicks > 0 && ticks % params.opportunisticGraftTicks == 0
          && |b| > 1 && MostBelow(b, env.threshold, env.score)
       then TopsUp(b, mesh, Improvers(st, b, env), params.opportunisticGraftPeers) else mesh == b
  }

  lemma TimedMaintain(st: Stage, params: GossipSubParams, env: Env, ticks: nat)
    returns (s: set<Peer>, a: set<Peer>, b: set<Peer>)
    requires Lawful(env.(opportunistic := Due(ticks, params)), params) && params.Valid() && params.Sliceable()
    ensures MaintainedAt(st, Maintain(st, params, env.(opportunistic := Due(ticks, params))).mesh, params, env, ticks,
                         s, a, b)
  {
    hide Maintain, Lawful, KeepsBest;
    var env' := env.(opportunistic := Due(ticks, params));
    s, a, b := MaintainExactly(st, params, env');
    SameResizing(st, s, a, b, params, env, env');
    SameImproving(st, b, env, env');
  }

  lemma SameImproving(st: Stage, b: set<Peer>, env: Env, env': Env)
    requires env' == env.(opportunistic := env'.opportunistic)
    ensures Improvers(st, b, env') == Improvers(st, b, env)
  {
  }

  lemma SameResizing(st: Stage, s: set<Peer>, a: set<Peer>, b: set<Peer>, params: GossipSubParams, env: Env, env': Env)
    requires env' == env.(opportunistic := env'.opportunistic)
    ensures Resized(st, s, a, params, env') ==> Resized(st, s, a, params, env)
    ensures Balanced(st, a, b, params, env') ==> Balanced(st, a, b, params, env)
  {
    assert Fillers(st, s, env') == Fillers(st, s, env) && OutboundFillers(st, a, env') == OutboundFillers(st, a, env);
    assert OutboundOf(a, env') == OutboundOf(a, env) && OutboundOf(s, env') == OutboundOf(s, env);
    assert KeepsBest(s, a, params, env') ==> KeepsBest(s, a, params, env);
  }

  /** The mesh of every joined topic after a heartbeat of the router. */
  lemma HeartbeatMeshes(s: Net, s': Net, ticks: nat, params: GossipSubParams, envs: Topic -> Env,
                        picks: Topic -> nat -> nat, maintain: Maintenance, now: Time, later: Time, t: Topic)
    returns (backed: set<Peer>, kept: set<Peer>, a: set<Peer>, b: set<Peer>)
    requires Ready(params, Timed(envs, Due(ticks, params)), picks, maintain) && t in s.mesh
    requires Backoff.Heartbeat(s, s', ticks, maintain, params.pruneBackoff, now, later)
    ensures t in s'.mesh && BackedAre(s, t, ticks, now, backed)
    ensures MaintainedAt(Stage(s.mesh[t], backed), s'.mesh[t], params, envs(t), ticks, kept, a, b)
  {
    hide Maintain, MaintainedAt, BackedAre, BeatTopic, Clean, Lawful;
    var s1 := Clean(s, ticks, now).(clock := later);
    CleanKeeps(s, ticks, now);
    assert Of(s', t) == BeatTopic(Of(s1, t), t, maintain, later + params.pruneBackoff);
    BeatAt(Of(s1, t), t, maintain, later + params.pruneBackoff, PeerId(0));
    backed := RowOf(Of(s1, t)).Keys;
    assert Of(s1, t) == Of(Clean(s, ticks, now), t);
    BackedAfterClean(s, t, ticks, now);
    var st := Stage(s.mesh[t], backed);
    assert Asked(t, st);
    assert LawfulBeat(params, Timed(envs, Due(ticks, params)));
    assert Lawful(Timed(envs, Due(ticks, params))(t), params);
    kept, a, b := TimedMaintain(st, params, envs(t), ticks);
  }
}
