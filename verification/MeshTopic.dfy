/** One topic's share of the gossipsub heartbeat: drop peers with a negative
    score, fill up a mesh that is too small, cut down one that is too large,
    restore the outbound quota and graft opportunistically.
  */
module MeshTopic {
  import opened Basics
  import opened Ids
  import opened Params
  import opened OverPrune

  /** What the heartbeat sees of the rest of the node.  Scores are cached for the
      whole heartbeat, so they are a function of the peer.  Sorting, shuffling and
      random selection are parameters; `Lawful` says what they may do. */
  datatype Env = Env(
    candidates: set<Peer>,              // gossipsub peers in the topic that pass the peer filter
    direct: set<Peer>,
    outbound: Peer -> bool,
    score: Peer -> real,
    opportunistic: bool,                // this tick is a multiple of OpportunisticGraftTicks
    threshold: real,
    rank: set<Peer> -> seq<Peer>,       // sort by descending score
    ascend: set<Peer> -> seq<Peer>,     // sort by ascending score
    shuffle: seq<Peer> -> seq<Peer>,    // shuffle everything after the first Dscore
    choose: (nat, set<Peer>, nat) -> set<Peer>)  // the n-th random selection of this size

  ghost predicate Lists(s: seq<Peer>, S: set<Peer>) {
    |s| == |S| && Distinct(s) && forall p :: p in s <==> p in S
  }

  ghost predicate Ascending(s: seq<Peer>, score: Peer -> real) {
    forall i, j :: 0 <= i < j < |s| ==> score(s[i]) <= score(s[j])
  }

  ghost predicate LawfulSorting(env: Env) {
    && (forall S :: Lists(env.rank(S), S) && Descending(env.rank(S), env.score))
    && (forall S :: Lists(env.ascend(S), S) && Ascending(env.ascend(S), env.score))
  }

  ghost predicate LawfulShuffle(env: Env, Dscore: nat) {
    forall s :: |s| >= Dscore ==> Reordered(s, env.shuffle(s), Dscore)
  }

  ghost predicate LawfulChoice(choose: (nat, set<Peer>, nat) -> set<Peer>) {
    forall k: nat, S: set<Peer>, n: nat :: n <= |S| ==> choose(k, S, n) <= S && |choose(k, S, n)| == n
  }

  ghost predicate Lawful(env: Env, p: GossipSubParams) {
    LawfulSorting(env) && LawfulChoice(env.choose) && (p.Dscore >= 0 ==> LawfulShuffle(env, p.Dscore))
  }

  // ------------------------------------------------------------ specification

  /** The mesh and the peers with a backoff entry. */
  datatype Stage = Stage(mesh: set<Peer>, backed: set<Peer>)

  function Graft(st: Stage, ps: set<Peer>): Stage { st.(mesh := st.mesh + ps) }
  function Prune(st: Stage, ps: set<Peer>): Stage { Stage(st.mesh - ps, st.backed + ps) }

  /** getPeers: a non-positive count asks for everyone. */
  function GetPeers(env: Env, k: nat, count: int, eligible: set<Peer>): set<Peer> {
    if 0 < count < |eligible| then env.choose(k, eligible, count) else eligible
  }

  function Where(S: set<Peer>, filter: Peer -> bool): (r: set<Peer>)
    ensures r <= S
  {
    set p | p in S && filter(p)
  }

  /** Not in the mesh, not direct, and without a backoff entry. */
  predicate Outside(p: Peer, st: Stage, env: Env) { p !in st.mesh && p !in st.backed && p !in env.direct }

  function IsEligible(st: Stage, env: Env): Peer -> bool {
    p => Outside(p, st, env) && env.score(p) >= 0.0
  }

  function IsEligibleOutbound(st: Stage, env: Env): Peer -> bool {
    p => Outside(p, st, env) && env.outbound(p) && env.score(p) >= 0.0
  }

  function IsBetter(st: Stage, env: Env, median: real): Peer -> bool {
    p => Outside(p, st, env) && env.score(p) > median
  }

  function Eligible(st: Stage, env: Env): set<Peer> { Where(env.candidates, IsEligible(st, env)) }
  function EligibleOutbound(st: Stage, env: Env): set<Peer> { Where(env.candidates, IsEligibleOutbound(st, env)) }
  function Better(st: Stage, env: Env, median: real): set<Peer> { Where(env.candidates, IsBetter(st, env, median)) }

  function Negative(mesh: set<Peer>, env: Env): set<Peer> { set p | p in mesh && env.score(p) < 0.0 }
  function OutboundIn(mesh: set<Peer>, env: Env): set<Peer> { set p | p in mesh && env.outbound(p) }

  function DropNegative(st: Stage, env: Env): Stage { Prune(st, Negative(st.mesh, env)) }

  function FillUp(st: Stage, p: GossipSubParams, env: Env): Stage {
    if |st.mesh| < p.Dlo then Graft(st, GetPeers(env, 0, p.D - |st.mesh|, Eligible(st, env))) else st
  }

  function Elements(s: seq<Peer>): set<Peer> { set p | p in s }

  /** The peers that over-subscription pruning removes. */
  function Excess(mesh: set<Peer>, p: GossipSubParams, env: Env): set<Peer> {
    var shuffled := env.shuffle(env.rank(mesh));
    if p.Sliceable() && p.D <= |shuffled| then Elements(Pruned(shuffled, p, env.outbound)) else {}
  }

  function CutDown(st: Stage, p: GossipSubParams, env: Env): Stage {
    if |st.mesh| >= p.Dhi then Prune(st, Excess(st.mesh, p, env)) else st
  }

  function OutboundQuota(st: Stage, p: GossipSubParams, env: Env): Stage {
    var have := |OutboundIn(st.mesh, env)|;
    if |st.mesh| >= p.Dlo && have < p.Dout
    then Graft(st, GetPeers(env, 1, p.Dout - have, EligibleOutbound(st, env))) else st
  }

  /** Score of the median mesh peer. */
  function Median(mesh: set<Peer>, env: Env): real {
    var s := env.ascend(mesh);
    if |mesh| / 2 < |s| then env.score(s[|mesh| / 2]) else 0.0
  }

  function Opportunistic(st: Stage, p: GossipSubParams, env: Env): Stage {
    if env.opportunistic && |st.mesh| > 1 && Median(st.mesh, env) < env.threshold
    then Graft(st, GetPeers(env, 2, p.opportunisticGraftPeers, Better(st, env, Median(st.mesh, env)))) else st
  }

  function Maintain(st: Stage, p: GossipSubParams, env: Env): Stage {
    Opportunistic(OutboundQuota(CutDown(FillUp(DropNegative(st, env), p, env), p, env), p, env), p, env)
  }

  // ------------------------------------------------------------ stage by stage

  lemma GetPeersSize(env: Env, k: nat, count: int, S: set<Peer>)
    requires LawfulChoice(env.choose)
    ensures GetPeers(env, k, count, S) <= S
    ensures count > 0 ==> |GetPeers(env, k, count, S)| == if |S| < count then |S| else count
  {
  }

  lemma SelectedAreOutside(st: Stage, env: Env, filter: Peer -> bool, ps: set<Peer>)
    requires forall q :: filter(q) ==> Outside(q, st, env)
    requires ps <= Where(env.candidates, filter)
    ensures ps !! st.mesh && ps !! st.backed
  {
  }

  lemma UnionSize(a: set<Peer>, b: set<Peer>)
    requires a !! b
    ensures |a + b| == |a| + |b|
  {
  }

  lemma Subset(a: set<Peer>, b: set<Peer>)
    requires a <= b
    ensures |a| <= |b| && |b - a| == |b| - |a|
  {
    UnionSize(a, b - a);
    assert a + (b - a) == b;
  }

  /** A stage that only grafts, and only eligible peers. */
  ghost predicate Grows(st: Stage, st': Stage, env: Env) {
    && st'.backed == st.backed && st.mesh <= st'.mesh
    && forall q :: q in st'.mesh && q !in st.mesh ==>
                     q in env.candidates && q !in env.direct && q !in st.backed && env.score(q) >= 0.0
  }

  /** A stage that only prunes, and remembers whom. */
  ghost predicate Shrinks(st: Stage, st': Stage) {
    st'.mesh <= st.mesh && forall q :: q in st'.backed <==> q in st.backed || (q in st.mesh && q !in st'.mesh)
  }

  lemma GraftGrows(st: Stage, env: Env, more: set<Peer>)
    requires more <= Eligible(st, env)
    ensures Grows(st, Graft(st, more), env) && |Graft(st, more).mesh| == |st.mesh| + |more|
  {
    UnionSize(st.mesh, more);
  }

  lemma PruneShrinks(st: Stage, ps: set<Peer>)
    requires ps <= st.mesh
    ensures Shrinks(st, Prune(st, ps)) && |Prune(st, ps).mesh| == |st.mesh| - |ps|
  {
    Subset(ps, st.mesh);
  }

  lemma DropNegativeFacts(st: Stage, env: Env)
    ensures var st' := DropNegative(st, env);
            Shrinks(st, st') && st'.mesh == Survivors(st, env) && forall q :: q in st'.mesh ==> env.score(q) >= 0.0
  {
    PruneShrinks(st, Negative(st.mesh, env));
  }

  lemma FillUpFacts(st: Stage, p: GossipSubParams, env: Env)
    requires Lawful(env, p) && p.Valid() && p.Sliceable()
    ensures var st' := FillUp(st, p, env);
            && Grows(st, st', env)
            && (|st'.mesh| >= |st.mesh| + |Eligible(st, env)| || |st'.mesh| >= p.Dlo)
            && (st'.mesh == st.mesh || |st'.mesh| <= p.D)
  {
    hide LawfulSorting, LawfulShuffle, LawfulChoice;
    if |st.mesh| < p.Dlo {
      GetPeersSize(env, 0, p.D - |st.mesh|, Eligible(st, env));
      GraftGrows(st, env, GetPeers(env, 0, p.D - |st.mesh|, Eligible(st, env)));
    }
  }

  lemma {:induction false} ElementsSize(s: seq<Peer>)
    requires Distinct(s)
    ensures |Elements(s)| == |s|
  {
    if s != [] {
      var init, x := s[..|s| - 1], s[|s| - 1];
      ElementsSize(init);
      assert Elements(s) == Elements(init) + {x};
      assert x !in init;
    }
  }

  lemma ExcessInput(mesh: set<Peer>, p: GossipSubParams, env: Env)
    requires Lawful(env, p) && p.Valid() && p.Sliceable() && |mesh| >= p.Dhi
    ensures Lists(env.rank(mesh), mesh) && PruneInput(env.rank(mesh), env.shuffle(env.rank(mesh)), p, env.score)
  {
    assert Lists(env.rank(mesh), mesh);
    assert Descending(env.rank(mesh), env.score);
    assert Reordered(env.rank(mesh), env.shuffle(env.rank(mesh)), p.Dscore);
  }

  lemma ExcessFacts(mesh: set<Peer>, p: GossipSubParams, env: Env)
    requires Lawful(env, p) && p.Valid() && p.Sliceable() && |mesh| >= p.Dhi
    ensures Excess(mesh, p, env) <= mesh && |Excess(mesh, p, env)| == |mesh| - p.D
  {
    var ranked := env.rank(mesh);
    var shuffled := env.shuffle(ranked);
    ExcessInput(mesh, p, env);
    KeptAndPruned(ranked, shuffled, p, env.score, env.outbound);
    ElementsSize(Pruned(shuffled, p, env.outbound));
  }

  /** The pruned list enumerates the excess. */
  lemma ExcessListed(mesh: set<Peer>, p: GossipSubParams, env: Env, gone: seq<Peer>)
    requires Lawful(env, p) && p.Valid() && p.Sliceable() && |mesh| >= p.Dhi
    requires |env.shuffle(env.rank(mesh))| >= p.D
    requires gone == Pruned(env.shuffle(env.rank(mesh)), p, env.outbound)
    ensures Excess(mesh, p, env) == Elements(gone) && Distinct(gone)
    ensures forall q :: q in gone ==> q in mesh && q in Excess(mesh, p, env)
  {
    ExcessInput(mesh, p, env);
    KeptAndPruned(env.rank(mesh), env.shuffle(env.rank(mesh)), p, env.score, env.outbound);
  }

  lemma CutDownFacts(st: Stage, p: GossipSubParams, env: Env)
    requires Lawful(env, p) && p.Valid() && p.Sliceable()
    ensures var st' := CutDown(st, p, env);
            && Shrinks(st, st')
            && (if |st.mesh| >= p.Dhi then |st'.mesh| == p.D else st' == st)
  {
    if |st.mesh| >= p.Dhi {
      ExcessFacts(st.mesh, p, env);
      PruneShrinks(st, Excess(st.mesh, p, env));
    }
  }

  lemma OutboundQuotaFacts(st: Stage, p: GossipSubParams, env: Env)
    requires Lawful(env, p)
    ensures var st' := OutboundQuota(st, p, env);
            Grows(st, st', env) && |st.mesh| <= |st'.mesh| <= |st.mesh| + Max(p.Dout, 0)
  {
    hide LawfulSorting, LawfulShuffle, LawfulChoice;
    var have := |OutboundIn(st.mesh, env)|;
    if |st.mesh| >= p.Dlo && have < p.Dout {
      GetPeersSize(env, 1, p.Dout - have, EligibleOutbound(st, env));
      GraftGrows(st, env, GetPeers(env, 1, p.Dout - have, EligibleOutbound(st, env)));
    }
  }

  /** A mesh that is large enough ends this stage with Dout outbound peers, or
      with every outbound peer that could be grafted. */
  lemma OutboundQuotaRestored(st: Stage, p: GossipSubParams, env: Env)
    requires Lawful(env, p) && |st.mesh| >= p.Dlo
    ensures |OutboundIn(OutboundQuota(st, p, env).mesh, env)|
            >= Min(p.Dout, |OutboundIn(st.mesh, env)| + |EligibleOutbound(st, env)|)
  {
    EligibleOutboundFacts(st, env);
    hide EligibleOutbound, OutboundIn, LawfulSorting, LawfulShuffle, LawfulChoice;
    var have := |OutboundIn(st.mesh, env)|;
    if have < p.Dout {
      var eligible := EligibleOutbound(st, env);
      var more := GetPeers(env, 1, p.Dout - have, eligible);
      GetPeersSize(env, 1, p.Dout - have, eligible);
      OutboundGrows(st.mesh, more, env);
    }
  }

  lemma EligibleOutboundFacts(st: Stage, env: Env)
    ensures EligibleOutbound(st, env) !! st.mesh && forall q :: q in EligibleOutbound(st, env) ==> env.outbound(q)
  {
  }

  lemma OutboundGrows(mesh: set<Peer>, more: set<Peer>, env: Env)
    requires mesh !! more && forall q :: q in more ==> env.outbound(q)
    ensures |OutboundIn(mesh + more, env)| == |OutboundIn(mesh, env)| + |more|
  {
    assert OutboundIn(mesh + more, env) == OutboundIn(mesh, env) + more;
    UnionSize(OutboundIn(mesh, env), more);
  }

  lemma MedianIsMember(mesh: set<Peer>, p: GossipSubParams, env: Env)
    requires Lawful(env, p) && |mesh| > 1
    ensures exists q :: q in mesh && Median(mesh, env) == env.score(q)
  {
    var s := env.ascend(mesh);
    assert Lists(s, mesh);
    assert s[|mesh| / 2] in s;
  }

  lemma OpportunisticFacts(st: Stage, p: GossipSubParams, env: Env)
    requires Lawful(env, p)
    requires forall q :: q in st.mesh ==> env.score(q) >= 0.0
    ensures var st' := Opportunistic(st, p, env);
            && Grows(st, st', env) && |st.mesh| <= |st'.mesh|
            && (p.opportunisticGraftPeers > 0 ==> |st'.mesh| <= |st.mesh| + p.opportunisticGraftPeers)
  {
    hide LawfulShuffle;
    if env.opportunistic && |st.mesh| > 1 && Median(st.mesh, env) < env.threshold {
      MedianIsMember(st.mesh, p, env);
      var better := Better(st, env, Median(st.mesh, env));
      GetPeersSize(env, 2, p.opportunisticGraftPeers, better);
      GraftGrows(st, env, GetPeers(env, 2, p.opportunisticGraftPeers, better));
    }
  }

  // ------------------------------------------------------------ the whole heartbeat

  function Survivors(st: Stage, env: Env): set<Peer> { st.mesh - Negative(st.mesh, env) }

  /** Peers grafted to fill up the mesh are never cut again in the same pass. */
  lemma FilledIsNotCut(s1: Stage, p: GossipSubParams, env: Env)
    requires Lawful(env, p) && p.Valid() && p.Sliceable()
    ensures var s2 := FillUp(s1, p, env);
            s2.mesh == s1.mesh || CutDown(s2, p, env).mesh == s2.mesh
  {
    var s2 := FillUp(s1, p, env);
    var s3 := CutDown(s2, p, env);
    FillUpFacts(s1, p, env);
    CutDownFacts(s2, p, env);
    Subset(s3.mesh, s2.mesh);
  }

  /** What maintenance promises about who stays, leaves and joins. */
  ghost predicate Maintained(st: Stage, st': Stage, env: Env) {
    && (forall q :: q in st'.mesh ==> env.score(q) >= 0.0)
    && (forall q :: q in st'.backed <==> q in st.backed || (q in st.mesh && q !in st'.mesh))
    && (forall q :: q in st'.mesh && q !in st.mesh ==>
                      q in env.candidates && q !in env.direct && q !in st.backed)
  }

  lemma Compose(st: Stage, s1: Stage, s2: Stage, s3: Stage, s4: Stage, s5: Stage, env: Env)
    requires Shrinks(st, s1) && (forall q :: q in s1.mesh ==> env.score(q) >= 0.0)
    requires Grows(s1, s2, env) && Shrinks(s2, s3) && (s2.mesh == s1.mesh || s3.mesh == s2.mesh)
    requires Grows(s3, s4, env) && Grows(s4, s5, env)
    ensures Maintained(st, s5, env)
  {
  }

  /** After maintenance every mesh peer scores at least zero; exactly those who
      left have gained a backoff entry; whoever joined was an eligible candidate
      without one. */
  lemma MaintainKeepsGoodPeers(st: Stage, p: GossipSubParams, env: Env)
    requires Lawful(env, p) && p.Valid() && p.Sliceable()
    ensures Maintained(st, Maintain(st, p, env), env)
  {
    var s1 := DropNegative(st, env);
    var s2 := FillUp(s1, p, env);
    var s3 := CutDown(s2, p, env);
    var s4 := OutboundQuota(s3, p, env);
    DropNegativeFacts(st, env);
    FillUpFacts(s1, p, env);
    CutDownFacts(s2, p, env);
    FilledIsNotCut(s1, p, env);
    OutboundQuotaFacts(s3, p, env);
    OpportunisticFacts(s4, p, env);
    Compose(st, s1, s2, s3, s4, Opportunistic(s4, p, env), env);
  }

  /** The mesh ends between min(Dlo, survivors + eligible) and
      max(D, Dhi - 1) + Dout + OpportunisticGraftPeers, if the last is positive. */
  lemma MaintainBounds(st: Stage, p: GossipSubParams, env: Env)
    requires Lawful(env, p) && p.Valid() && p.Sliceable()
    ensures var size := |Maintain(st, p, env).mesh|;
            && size >= Min(p.Dlo, |Survivors(st, env)| + |Eligible(DropNegative(st, env), env)|)
            && (p.opportunisticGraftPeers > 0 ==>
                  size <= Max(p.D, p.Dhi - 1) + Max(p.Dout, 0) + p.opportunisticGraftPeers)
  {
    var s1 := DropNegative(st, env);
    var s3 := CutDown(FillUp(s1, p, env), p, env);
    CutBounds(st, p, env);
    OutboundQuotaFacts(s3, p, env);
    OpportunisticFacts(OutboundQuota(s3, p, env), p, env);
  }

  lemma CutBounds(st: Stage, p: GossipSubParams, env: Env)
    requires Lawful(env, p) && p.Valid() && p.Sliceable()
    ensures var s1 := DropNegative(st, env);
            var s3 := CutDown(FillUp(s1, p, env), p, env);
            && s1.mesh == Survivors(st, env)
            && Min(p.Dlo, |s1.mesh| + |Eligible(s1, env)|) <= |s3.mesh| <= Max(p.D, p.Dhi - 1)
            && forall q :: q in s3.mesh ==> env.score(q) >= 0.0
  {
    DropNegativeFacts(st, env);
    CutBoundsFrom(DropNegative(st, env), p, env);
  }

  lemma CutBoundsFrom(s1: Stage, p: GossipSubParams, env: Env)
    requires Lawful(env, p) && p.Valid() && p.Sliceable()
    requires forall q :: q in s1.mesh ==> env.score(q) >= 0.0
    ensures var s3 := CutDown(FillUp(s1, p, env), p, env);
            && Min(p.Dlo, |s1.mesh| + |Eligible(s1, env)|) <= |s3.mesh| <= Max(p.D, p.Dhi - 1)
            && forall q :: q in s3.mesh ==> env.score(q) >= 0.0
  {
    hide FillUp, CutDown, Eligible, Grows, Shrinks, LawfulSorting, LawfulShuffle, LawfulChoice;
    var s2 := FillUp(s1, p, env);
    FillUpFacts(s1, p, env);
    CutDownFacts(s2, p, env);
    ComposeSizes(s1, s2, CutDown(s2, p, env), |Eligible(s1, env)|, p, env);
  }

  lemma ComposeSizes(s1: Stage, s2: Stage, s3: Stage, eligible: nat, p: GossipSubParams, env: Env)
    requires p.Valid() && p.Sliceable()
    requires forall q :: q in s1.mesh ==> env.score(q) >= 0.0
    requires Grows(s1, s2, env) && (|s2.mesh| >= |s1.mesh| + eligible || |s2.mesh| >= p.Dlo)
    requires Shrinks(s2, s3) && if |s2.mesh| >= p.Dhi then |s3.mesh| == p.D else s3 == s2
    ensures Min(p.Dlo, |s1.mesh| + eligible) <= |s3.mesh| <= Max(p.D, p.Dhi - 1)
    ensures forall q :: q in s3.mesh ==> env.score(q) >= 0.0
  {
  }
}
