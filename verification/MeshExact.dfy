/** What mesh maintenance and joining do to a mesh, counted over plain sets and
    without the functions that compute it. */
module MeshExact {
  import opened Basics
  import opened Ids
  import opened Params
  import opened OverPrune
  import opened MeshTopic

  /** From `from` to `to` by adding count peers of the pool, or all of them if there
      are no more or count is not positive. */
  ghost predicate TopsUp(from: set<Peer>, to: set<Peer>, pool: set<Peer>, count: int) {
    from <= to && to - from <= pool && |to| == |from| + if 0 < count < |pool| then count else |pool|
  }

  function OutboundOf(mesh: set<Peer>, env: Env): set<Peer> { set p | p in mesh && env.outbound(p) }

  function Below(mesh: set<Peer>, x: real, score: Peer -> real): set<Peer> { set p | p in mesh && score(p) < x }

  /** More than half of the mesh scores below x. */
  predicate MostBelow(mesh: set<Peer>, x: real, score: Peer -> real) { 2 * |Below(mesh, x, score)| > |mesh| }

  /** Candidates that may be grafted when the mesh has become `now`: not direct, without
      backoff before, and not dropped in this pass. */
  function Outsiders(st: Stage, now: set<Peer>, env: Env): set<Peer> {
    env.candidates - env.direct - st.backed - st.mesh - now
  }

  /** Who is grafted to fill up, to restore the outbound quota, and opportunistically. */
  function Fillers(st: Stage, now: set<Peer>, env: Env): set<Peer> {
    set q | q in Outsiders(st, now, env) && env.score(q) >= 0.0
  }

  function OutboundFillers(st: Stage, now: set<Peer>, env: Env): set<Peer> {
    set q | q in Outsiders(st, now, env) && env.outbound(q) && env.score(q) >= 0.0
  }

  function Improvers(st: Stage, now: set<Peer>, env: Env): set<Peer> {
    set q | q in Outsiders(st, now, env) && MostBelow(now, env.score(q), env.score)
  }

  /** The Dscore best of the mesh are kept, if there is room beside the outbound quota. */
  ghost predicate KeepsBest(from: set<Peer>, to: set<Peer>, p: GossipSubParams, env: Env) {
    p.Dscore + Max(p.Dout, 0) <= p.D ==>
      exists best :: best <= to && |best| == p.Dscore
                     && forall b, q :: b in best && q in from - to ==> env.score(b) >= env.score(q)
  }

  ghost predicate CutTo(from: set<Peer>, to: set<Peer>, p: GossipSubParams, env: Env) {
    && to <= from && |to| == p.D && KeepsBest(from, to, p, env)
    && |OutboundOf(to, env)| >= Min(p.Dout, |OutboundOf(from, env)|)
  }

  ghost predicate Resized(st: Stage, s: set<Peer>, a: set<Peer>, p: GossipSubParams, env: Env) {
    if |s| < p.Dlo then TopsUp(s, a, Fillers(st, s, env), p.D - |s|)
    else if |s| >= p.Dhi then CutTo(s, a, p, env)
    else a == s
  }

  ghost predicate Balanced(st: Stage, a: set<Peer>, b: set<Peer>, p: GossipSubParams, env: Env) {
    var have := |OutboundOf(a, env)|;
    if |a| >= p.Dlo && have < p.Dout then TopsUp(a, b, OutboundFillers(st, a, env), p.Dout - have) else b == a
  }

  ghost predicate Improved(st: Stage, b: set<Peer>, c: set<Peer>, p: GossipSubParams, env: Env) {
    if env.opportunistic && |b| > 1 && MostBelow(b, env.threshold, env.score)
    then TopsUp(b, c, Improvers(st, b, env), p.opportunisticGraftPeers) else c == b
  }

  // ------------------------------------------------------------ counting in a sorted list

  lemma {:induction false} BelowInList(s: seq<Peer>, x: real, score: Peer -> real, n: nat)
    requires Distinct(s) && Ascending(s, score) && n <= |s|
    requires forall i :: 0 <= i < |s| ==> (score(s[i]) < x <==> i < n)
    ensures |Below(Elements(s), x, score)| == n
  {
    var low := s[..n];
    forall q
      ensures q in Below(Elements(s), x, score) <==> q in Elements(low)
    {
      if q in Below(Elements(s), x, score) {
        var i :| 0 <= i < |s| && s[i] == q;
        assert low[i] == q;
      }
      if q in low {
        var i :| 0 <= i < |low| && low[i] == q;
        assert s[i] == q;
      }
    }
    ElementsSize(low);
    assert Below(Elements(s), x, score) == Elements(low);
  }

  /** The element in the middle is below x exactly if most are. */
  lemma MiddleBelow(s: seq<Peer>, x: real, score: Peer -> real)
    requires Distinct(s) && Ascending(s, score) && s != []
    ensures score(s[|s| / 2]) < x <==> MostBelow(Elements(s), x, score)
  {
    var n := FirstNotBelow(s, x, score);
    BelowInList(s, x, score, n);
    ElementsSize(s);
  }

  lemma {:induction false} FirstNotBelow(s: seq<Peer>, x: real, score: Peer -> real) returns (n: nat)
    requires Ascending(s, score)
    ensures n <= |s| && forall i :: 0 <= i < |s| ==> (score(s[i]) < x <==> i < n)
  {
    n := 0;
    while n < |s| && score(s[n]) < x
      invariant n <= |s| && forall i :: 0 <= i < n ==> score(s[i]) < x
    {
      n := n + 1;
    }
  }

  lemma MedianBelow(mesh: set<Peer>, env: Env, x: real)
    requires LawfulSorting(env) && mesh != {}
    ensures Median(mesh, env) < x <==> MostBelow(mesh, x, env.score)
  {
    var s := env.ascend(mesh);
    assert Lists(s, mesh) && Ascending(s, env.score);
    assert Elements(s) == mesh;
    MiddleBelow(s, x, env.score);
  }

  lemma {:induction false} CountIsSize(s: seq<Peer>, env: Env)
    requires Distinct(s)
    ensures Count(s, env.outbound) == |OutboundOf(Elements(s), env)|
  {
    if s == [] {
      assert OutboundOf(Elements(s), env) == {};
    } else {
      var init, x := s[..|s| - 1], s[|s| - 1];
      CountIsSize(init, env);
      OneMoreOutbound(init, x, env);
      assert s == init + [x] && x !in init;
    }
  }

  lemma OneMoreOutbound(init: seq<Peer>, x: Peer, env: Env)
    ensures OutboundOf(Elements(init + [x]), env)
            == OutboundOf(Elements(init), env) + if env.outbound(x) then {x} else {}
  {
  }

  // ------------------------------------------------------------ stage by stage

  lemma GetPeersTopsUp(from: set<Peer>, env: Env, k: nat, count: int, pool: set<Peer>)
    requires LawfulChoice(env.choose) && from !! pool
    ensures TopsUp(from, from + GetPeers(env, k, count, pool), pool, count)
  {
    var more := GetPeers(env, k, count, pool);
    GetPeersSize(env, k, count, pool);
    UnionSize(from, more);
  }

  lemma DropIs(st: Stage, env: Env)
    ensures var s1 := DropNegative(st, env);
            && s1.mesh == (set q | q in st.mesh && env.score(q) >= 0.0)
            && s1.backed == st.backed + (st.mesh - s1.mesh)
  {
  }

  /** The stage has the given mesh, and everybody who left on the way is backed off. */
  ghost predicate Follows(st: Stage, s: Stage) { s.backed == st.backed + (st.mesh - s.mesh) }

  lemma PoolsAre(st: Stage, s: Stage, env: Env)
    requires Follows(st, s)
    ensures Eligible(s, env) == Fillers(st, s.mesh, env)
    ensures EligibleOutbound(s, env) == OutboundFillers(st, s.mesh, env)
  {
  }

  lemma BetterIs(st: Stage, s: Stage, env: Env)
    requires Follows(st, s) && LawfulSorting(env) && s.mesh != {}
    ensures Better(s, env, Median(s.mesh, env)) == Improvers(st, s.mesh, env)
  {
    hide Median, MostBelow, LawfulSorting;
    forall q
      ensures Median(s.mesh, env) < env.score(q) <==> MostBelow(s.mesh, env.score(q), env.score)
    {
      MedianBelow(s.mesh, env, env.score(q));
    }
  }

  lemma FillIs(st: Stage, s: Stage, p: GossipSubParams, env: Env)
    requires Follows(st, s) && LawfulChoice(env.choose) && p.Valid()
    ensures var s' := FillUp(s, p, env);
            && Follows(st, s')
            && if |s.mesh| < p.Dlo then TopsUp(s.mesh, s'.mesh, Fillers(st, s.mesh, env), p.D - |s.mesh|) else s' == s
  {
    if |s.mesh| < p.Dlo {
      PoolsAre(st, s, env);
      GetPeersTopsUp(s.mesh, env, 0, p.D - |s.mesh|, Fillers(st, s.mesh, env));
    }
  }

  lemma BalanceIs(st: Stage, s: Stage, p: GossipSubParams, env: Env)
    requires Follows(st, s) && LawfulChoice(env.choose)
    ensures var s' := OutboundQuota(s, p, env); Follows(st, s') && Balanced(st, s.mesh, s'.mesh, p, env)
  {
    var have := |OutboundIn(s.mesh, env)|;
    assert OutboundIn(s.mesh, env) == OutboundOf(s.mesh, env);
    if |s.mesh| >= p.Dlo && have < p.Dout {
      PoolsAre(st, s, env);
      GetPeersTopsUp(s.mesh, env, 1, p.Dout - have, OutboundFillers(st, s.mesh, env));
    }
  }

  /** Opportunistic grafting: only if more than half of the mesh scores below the
      threshold, and then exactly as many as asked for of those outsiders that
      outscore more than half of the mesh. */
  lemma ImproveIs(st: Stage, s: Stage, p: GossipSubParams, env: Env)
    requires Follows(st, s) && LawfulChoice(env.choose) && LawfulSorting(env)
    ensures var s' := Opportunistic(s, p, env); Follows(st, s') && Improved(st, s.mesh, s'.mesh, p, env)
  {
    hide Median, MostBelow, LawfulSorting, LawfulChoice, Improvers, Better, GetPeers;
    if env.opportunistic && |s.mesh| > 1 {
      MedianBelow(s.mesh, env, env.threshold);
      BetterIs(st, s, env);
      ImproversApart(st, s.mesh, env);
      GetPeersTopsUp(s.mesh, env, 2, p.opportunisticGraftPeers, Improvers(st, s.mesh, env));
      GetPeersSize(env, 2, p.opportunisticGraftPeers, Improvers(st, s.mesh, env));
      GraftFollows(st, s, GetPeers(env, 2, p.opportunisticGraftPeers, Improvers(st, s.mesh, env)));
    }
  }

  lemma ImproversApart(st: Stage, now: set<Peer>, env: Env)
    ensures now !! Improvers(st, now, env) && Improvers(st, now, env) !! st.mesh
  {
  }

  lemma GraftFollows(st: Stage, s: Stage, more: set<Peer>)
    requires Follows(st, s) && (more <= s.mesh || more !! st.mesh)
    ensures Follows(st, Graft(s, more))
  {
  }

  lemma PruneFollows(st: Stage, s: Stage, ps: set<Peer>)
    requires Follows(st, s) && ps <= s.mesh && (s.mesh <= st.mesh || ps == {})
    ensures Follows(st, Prune(s, ps))
  {
  }

  lemma CutIs(st: Stage, s: Stage, p: GossipSubParams, env: Env)
    requires Follows(st, s) && Lawful(env, p) && p.Valid() && p.Sliceable() && (s.mesh <= st.mesh || |s.mesh| <= p.D)
    ensures var s' := CutDown(s, p, env);
            && Follows(st, s')
            && if |s.mesh| >= p.Dhi then CutTo(s.mesh, s'.mesh, p, env) else s' == s
  {
    hide Follows, Lawful, Excess, KeepsBest, OutboundOf;
    if |s.mesh| >= p.Dhi {
      var gone := Excess(s.mesh, p, env);
      ExcessFacts(s.mesh, p, env);
      Subset(gone, s.mesh);
      CutQuality(s.mesh, p, env);
      assert |gone| == 0 ==> gone == {};
      PruneFollows(st, s, gone);
    }
  }

  lemma CutQuality(mesh: set<Peer>, p: GossipSubParams, env: Env)
    requires Lawful(env, p) && p.Valid() && p.Sliceable() && |mesh| >= p.Dhi
    ensures var to := mesh - Excess(mesh, p, env);
            KeepsBest(mesh, to, p, env) && |OutboundOf(to, env)| >= Min(p.Dout, |OutboundOf(mesh, env)|)
  {
    hide Lawful, Excess, Kept, Pruned;
    var ranked := env.rank(mesh);
    var shuffled := env.shuffle(ranked);
    var to := mesh - Excess(mesh, p, env);
    RankedInput(mesh, p, env);
    var kept := Kept(shuffled, p, env.outbound);
    KeptAre(mesh, p, env);
    PruningKeepsQuota(ranked, shuffled, p, env.score, env.outbound);
    CountIsSize(kept, env);
    CountIsSize(ranked, env);
    if HasRoom(p) {
      PruningKeepsBest(ranked, shuffled, p, env.score, env.outbound);
      BestOfKept(kept, Pruned(shuffled, p, env.outbound), mesh, p, env);
    }
  }

  lemma RankedInput(mesh: set<Peer>, p: GossipSubParams, env: Env)
    requires Lawful(env, p) && p.Valid() && p.Sliceable() && |mesh| >= p.Dhi
    ensures PruneInput(env.rank(mesh), env.shuffle(env.rank(mesh)), p, env.score)
    ensures Elements(env.rank(mesh)) == mesh && |env.shuffle(env.rank(mesh))| >= p.D
  {
    ExcessInput(mesh, p, env);
    assert Lists(env.rank(mesh), mesh);
  }

  lemma KeptAre(mesh: set<Peer>, p: GossipSubParams, env: Env)
    requires Lawful(env, p) && p.Valid() && p.Sliceable() && |mesh| >= p.Dhi
    requires |env.shuffle(env.rank(mesh))| >= p.D
    ensures var shuffled := env.shuffle(env.rank(mesh));
            var kept, pruned := Kept(shuffled, p, env.outbound), Pruned(shuffled, p, env.outbound);
            && Distinct(kept) && Elements(kept) == mesh - Excess(mesh, p, env)
            && (forall q :: q in mesh && q in Excess(mesh, p, env) ==> q in pruned)
  {
    hide Lawful, Kept, Pruned;
    var ranked := env.rank(mesh);
    var shuffled := env.shuffle(ranked);
    RankedInput(mesh, p, env);
    KeptAndPruned(ranked, shuffled, p, env.score, env.outbound);
    assert Excess(mesh, p, env) == Elements(Pruned(shuffled, p, env.outbound));
    assert forall q :: q in mesh <==> q in Elements(ranked);
  }

  lemma BestOfKept(kept: seq<Peer>, pruned: seq<Peer>, mesh: set<Peer>, p: GossipSubParams, env: Env)
    requires p.Sliceable() && ScoreGuarantee(kept, pruned, p.Dscore, env.score)
    requires forall q :: q in mesh && q !in Elements(kept) ==> q in pruned
    ensures KeepsBest(mesh, Elements(kept), p, env)
  {
    var best: seq<Peer> :| |best| == p.Dscore && Distinct(best) && (forall b :: b in best ==> b in kept)
      && (forall b, q :: b in best && q in pruned ==> env.score(b) >= env.score(q));
    ElementsSize(best);
    assert Elements(best) <= Elements(kept);
    assert forall b, q :: b in Elements(best) && q in mesh - Elements(kept) ==> env.score(b) >= env.score(q);
  }

  // ------------------------------------------------------------ all stages

  /** Maintenance: drop the negative; fill up or cut down; restore the outbound quota;
      improve the median.  The three meshes in between are given by counting alone. */
  lemma MaintainExactly(st: Stage, p: GossipSubParams, env: Env) returns (s: set<Peer>, a: set<Peer>, b: set<Peer>)
    requires Lawful(env, p) && p.Valid() && p.Sliceable()
    ensures s == set q | q in st.mesh && env.score(q) >= 0.0
    ensures Resized(st, s, a, p, env) && Balanced(st, a, b, p, env)
    ensures Improved(st, b, Maintain(st, p, env).mesh, p, env)
    ensures Maintain(st, p, env).backed == st.backed + (st.mesh - Maintain(st, p, env).mesh)
  {
    var s1 := DropNegative(st, env);
    var s2 := FillUp(s1, p, env);
    var s3 := CutDown(s2, p, env);
    var s4 := OutboundQuota(s3, p, env);
    s, a, b := s1.mesh, s3.mesh, s4.mesh;
    DropIs(st, env);
    FillIs(st, s1, p, env);
    FilledSmall(st, s1, p, env);
    CutIs(st, s2, p, env);
    ResizedIs(st, s1, s2, s3, p, env);
    BalanceIs(st, s3, p, env);
    ImproveIs(st, s4, p, env);
  }

  lemma FilledSmall(st: Stage, s: Stage, p: GossipSubParams, env: Env)
    requires Lawful(env, p) && p.Valid() && p.Sliceable() && s.mesh <= st.mesh
    ensures FillUp(s, p, env).mesh <= st.mesh || |FillUp(s, p, env).mesh| <= p.D
  {
    FillUpFacts(s, p, env);
  }

  /** A mesh that was filled up is not cut. */
  lemma ResizedIs(st: Stage, s1: Stage, s2: Stage, s3: Stage, p: GossipSubParams, env: Env)
    requires p.Valid()
    requires if |s1.mesh| < p.Dlo then TopsUp(s1.mesh, s2.mesh, Fillers(st, s1.mesh, env), p.D - |s1.mesh|)
             else s2 == s1
    requires if |s2.mesh| >= p.Dhi then CutTo(s2.mesh, s3.mesh, p, env) else s3 == s2
    ensures Resized(st, s1.mesh, s3.mesh, p, env)
  {
    if |s1.mesh| < p.Dlo && |s2.mesh| >= p.Dhi {
      Subset(s3.mesh, s2.mesh);
      assert s3.mesh == s2.mesh;
    }
  }
}
