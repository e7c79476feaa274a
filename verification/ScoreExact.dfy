/** What every event does to a score, as exact differences.  With the score of a new
    peer they determine every score that a run can reach. */
module ScoreExact {
  import opened Basics
  import opened Ids
  import opened Score
  import opened PeerScore

  /** The squared shortfall below a threshold. */
  function Lack(x: real, threshold: real): real {
    if x < threshold then (threshold - x) * (threshold - x) else 0.0
  }

  /** The squared excess above one. */
  function Excess(x: real, threshold: real): real {
    if x > threshold then (x - threshold) * (x - threshold) else 0.0
  }

  function AtMost(x: real, cap: real): real { if x < cap then x else cap }

  /** Quanta of time in mesh that count. */
  function Quanta(ts: TopicStats, tp: TopicScoreParams): real
    requires tp.Divides()
  {
    AtMost(Quotient(ts.meshTime, tp.timeInMeshQuantum) as real, tp.timeInMeshCap)
  }

  // ------------------------------------------------------------ one topic changes

  lemma SumSame(ts: set<Topic>, f: Topic -> real, h: Topic -> real)
    requires forall t :: t in ts ==> f(t) == h(t)
    ensures Sum(ts, f) == Sum(ts, h)
  {
    SumMonotone(ts, f, h);
    SumMonotone(ts, h, f);
  }

  ghost function TopicSum(s: State, p: Peer): real
    requires p in s.peers
  {
    Sum(s.peers[p].topics.Keys, Term(s.topics, s.peers[p]))
  }

  /** The contribution of one topic. */
  ghost function Part(s: State, p: Peer, t: Topic): real
    requires p in s.peers
  {
    if t in s.peers[p].topics then Term(s.topics, s.peers[p])(t) else 0.0
  }

  /** Two states in which the peer has the same counters in all topics but t. */
  ghost predicate DifferAt(s: State, s': State, p: Peer, t: Topic) {
    && p in s.peers && p in s'.peers && s'.topics == s.topics
    && s'.peers[p].topics.Keys - {t} == s.peers[p].topics.Keys - {t}
    && forall u :: u in s.peers[p].topics && u in s'.peers[p].topics && u != t ==>
                     s'.peers[p].topics[u] == s.peers[p].topics[u]
  }

  lemma OneTopicChanges(s: State, s': State, p: Peer, t: Topic)
    requires DifferAt(s, s', p, t)
    ensures TopicSum(s', p) - TopicSum(s, p) == Part(s', p, t) - Part(s, p, t)
  {
    hide Sum, Term;
    var K, K', f, f' := s.peers[p].topics.Keys, s'.peers[p].topics.Keys,
                        Term(s.topics, s.peers[p]), Term(s'.topics, s'.peers[p]);
    Without(K, f, t);
    Without(K', f', t);
    forall u | u in K - {t}
      ensures f'(u) == f(u)
    {
      assert u in K' - {t};
      SameTerm(s, s', p, u);
    }
    SumSame(K - {t}, f, f');
  }

  lemma SameTerm(s: State, s': State, p: Peer, u: Topic)
    requires p in s.peers && p in s'.peers && s'.topics == s.topics
    requires u in s.peers[p].topics && u in s'.peers[p].topics && s'.peers[p].topics[u] == s.peers[p].topics[u]
    ensures Term(s'.topics, s'.peers[p])(u) == Term(s.topics, s.peers[p])(u)
  {
  }

  lemma Without(K: set<Topic>, f: Topic -> real, t: Topic)
    ensures Sum(K, f) == (if t in K then f(t) else 0.0) + Sum(K - {t}, f)
  {
    if t in K {
      SumOut(K, f, t);
    } else {
      assert K - {t} == K;
    }
  }

  lemma SameAddresses(s: State, s': State, g: ScoreParams, p: Peer)
    requires p in s.peers && s'.peers.Keys == s.peers.Keys
    requires forall q :: q in s.peers ==> s'.peers[q].ips == s.peers[q].ips
    ensures P6(s', g, p) == P6(s, g, p)
  {
    forall ip
      ensures CountIn(s'.peers)(ip) == CountIn(s.peers)(ip)
    {
      assert Neighbours(s'.peers, ip) == Neighbours(s.peers, ip);
    }
    ColocationSame(s.peers[p].ips, CountIn(s'.peers), CountIn(s.peers), g.whitelisted, g.ipThreshold);
  }

  /** Without a topic cap, what changes in a topic changes in the score. */
  lemma CountersChange(s: State, g: ScoreParams, p: Peer, t: Topic, ts: TopicStats)
    requires Tracks(s, p, t) && g.topicScoreCap == 0.0
    ensures ScoreOf(With(s, p, t, ts), g, p) - ScoreOf(s, g, p) == Part(With(s, p, t, ts), p, t) - Part(s, p, t)
  {
    hide P6, P7, Term, Sum;
    var s' := With(s, p, t, ts);
    OneTopicChanges(s, s', p, t);
    SameAddresses(s, s', g, p);
    SameBehaviour(s.peers[p], s'.peers[p], g);
  }

  lemma SameBehaviour(a: PeerStats, b: PeerStats, g: ScoreParams)
    requires a.behaviour == b.behaviour
    ensures P7(a, g) == P7(b, g)
  {
  }

  // ------------------------------------------------------------ the differences

  lemma PartIs(s: State, p: Peer, t: Topic)
    requires Tracks(s, p, t) && Computable(StatsIn(s, p, t), s.topics[t])
    ensures Part(s, p, t) == TopicScore(StatsIn(s, p, t), s.topics[t]) * s.topics[t].topicWeight
  {
    if t !in s.peers[p].topics {
      assert TopicScore(FRESH, s.topics[t]) == 0.0;
    }
  }

  lemma ScoreChange(s: State, g: ScoreParams, p: Peer, t: Topic, ts: TopicStats, d: real)
    requires Tracks(s, p, t) && g.topicScoreCap == 0.0 && Computable(StatsIn(s, p, t), s.topics[t])
    requires Computable(ts, s.topics[t])
    requires TopicScore(ts, s.topics[t]) == TopicScore(StatsIn(s, p, t), s.topics[t]) + d
    ensures ScoreOf(With(s, p, t, ts), g, p) == ScoreOf(s, g, p) + d * s.topics[t].topicWeight
  {
    hide TopicScore, Part, ScoreOf;
    CountersChange(s, g, p, t, ts);
    PartIs(s, p, t);
    PartIs(With(s, p, t, ts), p, t);
    Distribute(TopicScore(StatsIn(s, p, t), s.topics[t]), d, s.topics[t].topicWeight);
  }

  lemma Distribute(a: real, b: real, w: real)
    ensures (a + b) * w == a * w + b * w
  {
  }

  /** One more invalid message costs 2n + 1 times the weight, if there were n. */
  lemma InvalidCosts(s: State, g: ScoreParams, p: Peer, t: Topic)
    requires Tracks(s, p, t) && Scorable(s, p) && g.topicScoreCap == 0.0
    ensures var ts, tp := StatsIn(s, p, t), s.topics[t];
            ScoreOf(OnInvalid(s, p, t), g, p)
            == ScoreOf(s, g, p) + (2.0 * ts.invalid + 1.0) * tp.invalidWeight * tp.topicWeight
  {
    hide TopicScore, ScoreOf;
    var ts, tp := StatsIn(s, p, t), s.topics[t];
    InvalidCounter(ts, tp);
    ScoreChange(s, g, p, t, MarkInvalid(ts), (2.0 * ts.invalid + 1.0) * tp.invalidWeight);
  }

  lemma InvalidCounter(ts: TopicStats, tp: TopicScoreParams)
    requires Computable(ts, tp)
    ensures TopicScore(MarkInvalid(ts), tp) == TopicScore(ts, tp) + (2.0 * ts.invalid + 1.0) * tp.invalidWeight
  {
    assert P1(MarkInvalid(ts), tp) == P1(ts, tp) && P3(MarkInvalid(ts), tp) == P3(ts, tp);
    NextSquare(ts.invalid, tp.invalidWeight);
  }

  lemma NextSquare(x: real, w: real)
    ensures (x + 1.0) * (x + 1.0) * w == x * x * w + (2.0 * x + 1.0) * w
  {
    assert (x + 1.0) * (x + 1.0) == x * x + (2.0 * x + 1.0);
    Distribute(x * x, 2.0 * x + 1.0, w);
  }

  /** How the shortfall below the mesh threshold changes when the counter does. */
  function LackChange(ts: TopicStats, tp: TopicScoreParams, mesh: real): real {
    if ts.active then Lack(mesh, tp.meshThreshold) - Lack(ts.mesh, tp.meshThreshold) else 0.0
  }

  lemma MeshCounter(ts: TopicStats, tp: TopicScoreParams, mesh: real)
    requires Computable(ts, tp)
    ensures TopicScore(ts.(mesh := mesh), tp) == TopicScore(ts, tp) + LackChange(ts, tp, mesh) * tp.meshWeight
  {
    var ts' := ts.(mesh := mesh);
    assert P1(ts', tp) == P1(ts, tp);
    assert Deficit(ts', tp) == Deficit(ts, tp) + LackChange(ts, tp, mesh);
    Distribute(Deficit(ts, tp), LackChange(ts, tp, mesh), tp.meshWeight);
  }

  lemma FirstCounter(ts: TopicStats, tp: TopicScoreParams, first: real)
    requires Computable(ts, tp)
    ensures TopicScore(ts.(first := first), tp) == TopicScore(ts, tp) + (first - ts.first) * tp.firstWeight
  {
    var ts' := ts.(first := first);
    assert P1(ts', tp) == P1(ts, tp) && P3(ts', tp) == P3(ts, tp);
    Distribute(ts.first, first - ts.first, tp.firstWeight);
  }

  /** A first delivery: one more up to the cap, and one less missing in the mesh. */
  lemma FirstEarns(s: State, g: ScoreParams, p: Peer, t: Topic)
    requires Tracks(s, p, t) && Scorable(s, p) && g.topicScoreCap == 0.0
    ensures var ts, tp := StatsIn(s, p, t), s.topics[t];
            var more := AtMost(ts.first + 1.0, tp.firstCap) - ts.first;
            var lack := if ts.inMesh then LackChange(ts, tp, AtMost(ts.mesh + 1.0, tp.meshCap)) else 0.0;
            ScoreOf(OnFirst(s, p, t), g, p)
            == ScoreOf(s, g, p) + (more * tp.firstWeight + lack * tp.meshWeight) * tp.topicWeight
  {
    hide TopicScore, ScoreOf, LackChange;
    var ts, tp := StatsIn(s, p, t), s.topics[t];
    var first, mesh := AtMost(ts.first + 1.0, tp.firstCap), AtMost(ts.mesh + 1.0, tp.meshCap);
    var ts1 := ts.(first := first);
    var lack := if ts.inMesh then LackChange(ts, tp, mesh) else 0.0;
    FirstCounter(ts, tp, first);
    MeshCounter(ts1, tp, mesh);
    SameLack(ts, ts1, tp, mesh);
    assert MarkFirst(ts, tp) == if ts.inMesh then ts1.(mesh := mesh) else ts1;
    assert 0.0 * tp.meshWeight == 0.0;
    ScoreChange(s, g, p, t, MarkFirst(ts, tp), (first - ts.first) * tp.firstWeight + lack * tp.meshWeight);
  }

  lemma SameLack(a: TopicStats, b: TopicStats, tp: TopicScoreParams, mesh: real)
    requires a.active == b.active && a.mesh == b.mesh
    ensures LackChange(a, tp, mesh) == LackChange(b, tp, mesh)
  {
  }

  /** A duplicate within the window from a mesh peer: one less missing. */
  lemma DuplicateEarns(s: State, g: ScoreParams, p: Peer, t: Topic, since: Duration)
    requires Tracks(s, p, t) && Scorable(s, p) && g.topicScoreCap == 0.0
    ensures var ts, tp := StatsIn(s, p, t), s.topics[t];
            var lack := if ts.inMesh && since <= tp.meshWindow
                        then LackChange(ts, tp, AtMost(ts.mesh + 1.0, tp.meshCap)) else 0.0;
            ScoreOf(OnDuplicate(s, p, t, since), g, p)
            == ScoreOf(s, g, p) + lack * tp.meshWeight * tp.topicWeight
  {
    hide TopicScore, ScoreOf, LackChange;
    var ts, tp := StatsIn(s, p, t), s.topics[t];
    var mesh := AtMost(ts.mesh + 1.0, tp.meshCap);
    MeshCounter(ts, tp, mesh);
    assert 0.0 * tp.meshWeight == 0.0;
    var lack := if ts.inMesh && since <= tp.meshWindow then LackChange(ts, tp, mesh) else 0.0;
    ScoreChange(s, g, p, t, MarkDuplicate(ts, tp, since), lack * tp.meshWeight);
  }

  /** What the time in mesh earns. */
  function Earned(ts: TopicStats, tp: TopicScoreParams): real
    requires Computable(ts, tp)
  {
    if ts.inMesh then Quanta(ts, tp) * tp.timeInMeshWeight else 0.0
  }

  /** What is missing in the mesh, if that counts yet. */
  function Missing(ts: TopicStats, tp: TopicScoreParams): real {
    if ts.active then Lack(ts.mesh, tp.meshThreshold) else 0.0
  }

  /** Being pruned: the time in mesh no longer counts, and what was missing becomes a
      lasting failure. */
  lemma PruneCosts(s: State, g: ScoreParams, p: Peer, t: Topic)
    requires Tracks(s, p, t) && Scorable(s, p) && g.topicScoreCap == 0.0
    ensures var ts, tp := StatsIn(s, p, t), s.topics[t];
            ScoreOf(OnPrune(s, p, t), g, p)
            == ScoreOf(s, g, p) + (Missing(ts, tp) * tp.failureWeight - Earned(ts, tp)) * tp.topicWeight
  {
    hide TopicScore, ScoreOf, Missing, Earned;
    var ts, tp := StatsIn(s, p, t), s.topics[t];
    PrunedTopic(ts, tp);
    ScoreChange(s, g, p, t, Pruned(ts, tp), Missing(ts, tp) * tp.failureWeight - Earned(ts, tp));
  }

  lemma EarnedIsP1(ts: TopicStats, tp: TopicScoreParams)
    requires Computable(ts, tp)
    ensures P1(ts, tp) == Earned(ts, tp)
  {
  }

  lemma PrunedTopic(ts: TopicStats, tp: TopicScoreParams)
    requires Computable(ts, tp)
    ensures TopicScore(Pruned(ts, tp), tp)
            == TopicScore(ts, tp) + (Missing(ts, tp) * tp.failureWeight - Earned(ts, tp))
  {
    hide Earned;
    EarnedIsP1(ts, tp);
    assert P1(Pruned(ts, tp), tp) == 0.0 && P3(Pruned(ts, tp), tp) == P3(ts, tp);
    assert Deficit(ts, tp) == Missing(ts, tp);
    hide P1, P3, Deficit, Missing;
    Distribute(ts.failure, Missing(ts, tp), tp.failureWeight);
  }

  /** Being grafted: the time in mesh starts again, and nothing is missing for now. */
  lemma GraftRestarts(s: State, g: ScoreParams, p: Peer, t: Topic, now: Time)
    requires Tracks(s, p, t) && Scorable(s, p) && g.topicScoreCap == 0.0
    requires s.topics[t].Divides() && s.topics[t].timeInMeshCap >= 0.0
    ensures var ts, tp := StatsIn(s, p, t), s.topics[t];
            ScoreOf(OnGraft(s, p, t, now), g, p)
            == ScoreOf(s, g, p) - (Missing(ts, tp) * tp.meshWeight + Earned(ts, tp)) * tp.topicWeight
  {
    hide TopicScore, ScoreOf, Missing, Earned;
    var ts, tp := StatsIn(s, p, t), s.topics[t];
    var d := Missing(ts, tp) * tp.meshWeight + Earned(ts, tp);
    GraftedTopic(ts, tp, now);
    ScoreChange(s, g, p, t, Grafted(ts, now), -d);
    OnlyClock(With(s, p, t, Grafted(ts, now)), g, p, now);
    assert (-d) * tp.topicWeight == -(d * tp.topicWeight);
  }

  lemma GraftedTopic(ts: TopicStats, tp: TopicScoreParams, now: Time)
    requires tp.Divides() && tp.timeInMeshCap >= 0.0
    ensures TopicScore(Grafted(ts, now), tp)
            == TopicScore(ts, tp) + -(Missing(ts, tp) * tp.meshWeight + Earned(ts, tp))
  {
    hide Earned;
    EarnedIsP1(ts, tp);
    NoTime(tp.timeInMeshQuantum);
    assert P1(Grafted(ts, now), tp) == 0.0 && P3(Grafted(ts, now), tp) == 0.0;
    assert Deficit(ts, tp) == Missing(ts, tp);
  }

  lemma OnlyClock(s: State, g: ScoreParams, p: Peer, now: Time)
    ensures ScoreOf(s.(clock := now), g, p) == ScoreOf(s, g, p)
  {
    hide Term, Sum, Colocation, P7;
  }

  lemma NoTime(q: int)
    requires q != 0
    ensures Quotient(0, q) == 0
  {
  }

  /** One more quantum in the mesh earns the weight, below the cap. */
  lemma QuantumEarns(s: State, g: ScoreParams, p: Peer, t: Topic)
    requires Tracks(s, p, t) && Scorable(s, p) && g.topicScoreCap == 0.0
    requires var ts, tp := StatsIn(s, p, t), s.topics[t];
             ts.inMesh && ts.meshTime >= 0 && tp.timeInMeshQuantum > 0 && Quanta(ts, tp) + 1.0 <= tp.timeInMeshCap
    ensures var ts, tp := StatsIn(s, p, t), s.topics[t];
            ScoreOf(With(s, p, t, ts.(meshTime := ts.meshTime + tp.timeInMeshQuantum)), g, p)
            == ScoreOf(s, g, p) + tp.timeInMeshWeight * tp.topicWeight
  {
    var ts, tp := StatsIn(s, p, t), s.topics[t];
    QuantumTopic(ts, tp);
    hide TopicScore, ScoreOf;
    ScoreChange(s, g, p, t, ts.(meshTime := ts.meshTime + tp.timeInMeshQuantum), tp.timeInMeshWeight);
  }

  lemma QuantumTopic(ts: TopicStats, tp: TopicScoreParams)
    requires ts.inMesh && ts.meshTime >= 0 && tp.timeInMeshQuantum > 0 && Quanta(ts, tp) + 1.0 <= tp.timeInMeshCap
    ensures TopicScore(ts.(meshTime := ts.meshTime + tp.timeInMeshQuantum), tp)
            == TopicScore(ts, tp) + tp.timeInMeshWeight
  {
    hide Quotient;
    var ts' := ts.(meshTime := ts.meshTime + tp.timeInMeshQuantum);
    NextQuantum(ts.meshTime, tp.timeInMeshQuantum);
    assert P1(ts', tp) == (Quanta(ts, tp) + 1.0) * tp.timeInMeshWeight && P3(ts', tp) == P3(ts, tp);
    Distribute(Quanta(ts, tp), 1.0, tp.timeInMeshWeight);
  }

  lemma NextQuantum(a: nat, b: nat)
    requires b > 0
    ensures Quotient(a + b, b) == Quotient(a, b) + 1
  {
    var q, r, x, y := a / b, a % b, (a + b) / b, (a + b) % b;
    assert a == b * q + r && a + b == b * x + y;
    assert b * (x - q - 1) == b * x - b * q - b;
    SmallMultiple(b, x - q - 1);
  }

  /** A behaviour penalty costs by the square of the excess over the threshold. */
  lemma PenaltyCosts(s: State, g: ScoreParams, p: Peer, count: nat)
    requires p in s.peers
    ensures var was := s.peers[p].behaviour;
            var more := Excess(was + count as real, g.behaviourThreshold) - Excess(was, g.behaviourThreshold);
            ScoreOf(OnPenalty(s, p, count), g, p) == ScoreOf(s, g, p) + more * g.behaviourWeight
  {
    hide Term, Sum, P6;
    var s' := OnPenalty(s, p, count);
    var was, now := s.peers[p].behaviour, s'.peers[p].behaviour;
    SameAddresses(s, s', g, p);
    SameTopics(s, s', p);
    assert P7(s.peers[p], g) == Excess(was, g.behaviourThreshold);
    assert P7(s'.peers[p], g) == Excess(now, g.behaviourThreshold);
    Distribute(Excess(now, g.behaviourThreshold), -Excess(was, g.behaviourThreshold), g.behaviourWeight);
  }

  lemma SameTopics(s: State, s': State, p: Peer)
    requires p in s.peers && p in s'.peers && s'.topics == s.topics && s'.peers[p].topics == s.peers[p].topics
    ensures TopicSum(s', p) == TopicSum(s, p)
  {
    hide Sum, Term;
    forall u | u in s.peers[p].topics.Keys
      ensures Term(s'.topics, s'.peers[p])(u) == Term(s.topics, s.peers[p])(u)
    {
      SameTerm(s, s', p, u);
    }
    SumSame(s.peers[p].topics.Keys, Term(s'.topics, s'.peers[p]), Term(s.topics, s.peers[p]));
  }

  /** The parts of a score. */
  lemma ScoreIs(s: State, g: ScoreParams, p: Peer)
    requires p in s.peers
    ensures ScoreOf(s, g, p) == Total(TopicSum(s, p), g.topicScoreCap, g.app(p) * g.appWeight, P6(s, g, p) * g.ipWeight,
                                      P7(s.peers[p], g) * g.behaviourWeight)
  {
  }

  lemma TotalCut(sum: real, cap: real, p5: real, p6: real, p7: real)
    requires cap > 0.0
    ensures Total(sum, cap, p5, p6, p7) == Total(sum, 0.0, p5, p6, p7) - (if sum > cap then sum - cap else 0.0)
  {
  }

  /** A topic cap cuts off what the topics alone exceed it by. */
  lemma CapCuts(s: State, g: ScoreParams, p: Peer)
    requires p in s.peers && g.topicScoreCap > 0.0
    ensures ScoreOf(s, g, p) == ScoreOf(s, g.(topicScoreCap := 0.0), p)
                                - (if TopicSum(s, p) > g.topicScoreCap then TopicSum(s, p) - g.topicScoreCap else 0.0)
  {
    hide TopicSum, P6, P7, ScoreOf;
    var g0 := g.(topicScoreCap := 0.0);
    ScoreIs(s, g, p);
    ScoreIs(s, g0, p);
    CapOnly(s, g, p);
    var p5, p6, p7 := g.app(p) * g.appWeight, P6(s, g, p) * g.ipWeight, P7(s.peers[p], g) * g.behaviourWeight;
    assert g0.app(p) * g0.appWeight == p5 && P6(s, g0, p) * g0.ipWeight == p6;
    assert P7(s.peers[p], g0) * g0.behaviourWeight == p7;
    TotalCut(TopicSum(s, p), g.topicScoreCap, p5, p6, p7);
  }

  lemma CapOnly(s: State, g: ScoreParams, p: Peer)
    requires p in s.peers
    ensures var g0 := g.(topicScoreCap := 0.0); P6(s, g0, p) == P6(s, g, p) && P7(s.peers[p], g0) == P7(s.peers[p], g)
  {
  }

  // ------------------------------------------------------------ new peers and addresses

  lemma OneAddress(ip: IP, count: IP -> nat, whitelisted: IP -> bool, threshold: int)
    ensures Colocation([ip], count, whitelisted, threshold)
            == if whitelisted(ip) then 0.0 else Excess(count(ip) as real, threshold as real)
  {
    assert [ip][..0] == [];
    var n := count(ip);
    assert (n - threshold) as real == n as real - threshold as real;
    assert Colocation([ip][..0], count, whitelisted, threshold) == 0.0;
  }

  /** Others that have the address. */
  function Sharing(s: State, p: Peer, ip: IP): set<Peer> {
    set q | q in s.peers && q != p && ip in s.peers[q].ips
  }

  /** A new peer scores what the application says, less the price of a shared address. */
  lemma NewPeerScore(s: State, g: ScoreParams, p: Peer, ip: IP)
    requires p !in s.peers && g.behaviourThreshold >= 0.0
    ensures var n := |Sharing(s, p, ip)| + 1;
            ScoreOf(OnNewStream(s, p, [ip]), g, p) == g.app(p) * g.appWeight
            + (if g.whitelisted(ip) then 0.0 else Excess(n as real, g.ipThreshold as real)) * g.ipWeight
  {
    hide Colocation, Excess, TopicSum, ScoreOf, Sum, P7;
    var s' := OnNewStream(s, p, [ip]);
    NoTopics(s', p);
    NoPenalty(s'.peers[p], g);
    assert Neighbours(s'.peers, ip) == Sharing(s, p, ip) + {p};
    OneAddress(ip, CountIn(s'.peers), g.whitelisted, g.ipThreshold);
    ScoreIs(s', g, p);
  }

  lemma NoTopics(s: State, p: Peer)
    requires p in s.peers && s.peers[p].topics == map[]
    ensures TopicSum(s, p) == 0.0
  {
  }

  lemma NoPenalty(stats: PeerStats, g: ScoreParams)
    requires stats.behaviour == 0.0 && g.behaviourThreshold >= 0.0
    ensures P7(stats, g) == 0.0
  {
  }

  /** A peer that takes an address makes it dearer for the one who has it. */
  lemma SharedAddressCosts(s: State, g: ScoreParams, p: Peer, ip: IP, q: Peer, ips: seq<IP>)
    requires p in s.peers && s.peers[p].ips == [ip] && q !in s.peers && ip in ips && !g.whitelisted(ip)
    ensures var n := |Neighbours(s.peers, ip)|;
            ScoreOf(OnNewStream(s, q, ips), g, p) == ScoreOf(s, g, p)
            + (Excess((n + 1) as real, g.ipThreshold as real) - Excess(n as real, g.ipThreshold as real)) * g.ipWeight
  {
    hide Term, Sum, Colocation, Excess;
    var s' := OnNewStream(s, q, ips);
    SameTopics(s, s', p);
    assert Neighbours(s'.peers, ip) == Neighbours(s.peers, ip) + {q};
    OneAddress(ip, CountIn(s.peers), g.whitelisted, g.ipThreshold);
    OneAddress(ip, CountIn(s'.peers), g.whitelisted, g.ipThreshold);
    Distribute(P6(s', g, p), -P6(s, g, p), g.ipWeight);
  }

  /** A peer that has none of its addresses changes nothing for it. */
  lemma StrangerCostsNothing(s: State, g: ScoreParams, p: Peer, q: Peer, ips: seq<IP>)
    requires p in s.peers && q !in s.peers && forall ip :: ip in ips ==> ip !in s.peers[p].ips
    ensures ScoreOf(OnNewStream(s, q, ips), g, p) == ScoreOf(s, g, p)
  {
    hide Term, Sum;
    var s' := OnNewStream(s, q, ips);
    SameTopics(s, s', p);
    forall ip | ip in s.peers[p].ips
      ensures CountIn(s'.peers)(ip) == CountIn(s.peers)(ip)
    {
      assert Neighbours(s'.peers, ip) == Neighbours(s.peers, ip);
    }
    ColocationSameHere(s.peers[p].ips, CountIn(s'.peers), CountIn(s.peers), g.whitelisted, g.ipThreshold);
  }

  lemma {:induction false} ColocationSameHere(ips: seq<IP>, a: IP -> nat, b: IP -> nat, whitelisted: IP -> bool,
                                              threshold: int)
    requires forall ip :: ip in ips ==> a(ip) == b(ip)
    ensures Colocation(ips, a, whitelisted, threshold) == Colocation(ips, b, whitelisted, threshold)
  {
    if ips != [] {
      ColocationSameHere(ips[..|ips| - 1], a, b, whitelisted, threshold);
      assert ips[|ips| - 1] in ips;
    }
  }

  /** Counters of a topic without parameters do not count. */
  lemma UnscoredIsIgnored(s: State, g: ScoreParams, p: Peer, t: Topic, ts: TopicStats)
    requires p in s.peers && t !in s.topics
    ensures ScoreOf(With(s, p, t, ts), g, p) == ScoreOf(s, g, p)
  {
    hide P6, P7, Sum, TopicScore;
    var s' := With(s, p, t, ts);
    OneTopicChanges(s, s', p, t);
    SameAddresses(s, s', g, p);
    SameBehaviour(s.peers[p], s'.peers[p], g);
  }
}
