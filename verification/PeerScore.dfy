/** Peer scores over whole runs of the scoring tracer.

    A state is the topic parameters and what is known of every tracked peer.
    The P6 term counts, directly, the tracked peers that share an address; the
    class in ScoreTable.dfy keeps a reverse index for that.
  */
module PeerScore {
  import opened Ids
  import opened Score

  datatype IP = IPAddress(n: nat)

  datatype PeerStats = PeerStats(connected: bool, expire: Time, topics: map<Topic, TopicStats>, ips: seq<IP>,
                                 behaviour: real)

  /** The parameters that are not per topic. */
  datatype ScoreParams = ScoreParams(
    topicScoreCap: real,
    app: Peer -> real, appWeight: real,
    ipWeight: real, ipThreshold: int, whitelisted: IP -> bool,
    behaviourWeight: real, behaviourThreshold: real, behaviourDecay: real,
    decayToZero: real, retain: Duration)
  {
    predicate Valid() {
      topicScoreCap >= 0.0 && ipWeight <= 0.0 && behaviourWeight <= 0.0 && 0.0 <= behaviourDecay <= 1.0
    }
  }

  datatype State = State(topics: map<Topic, TopicScoreParams>, peers: map<Peer, PeerStats>, clock: Time)

  // ------------------------------------------------------------ the score

  /** The weighted score of a peer in a topic; topics without parameters do not count. */
  function Term(topics: map<Topic, TopicScoreParams>, stats: PeerStats): Topic -> real {
    t => if t in stats.topics && t in topics && Computable(stats.topics[t], topics[t])
         then TopicScore(stats.topics[t], topics[t]) * topics[t].topicWeight else 0.0
  }

  predicate Computable(ts: TopicStats, p: TopicScoreParams) { ts.inMesh ==> p.Divides() }

  /** score() returns for this peer; otherwise it divides by zero. */
  predicate Scorable(s: State, p: Peer) {
    p in s.peers ==>
      forall t :: t in s.peers[p].topics && t in s.topics ==> Computable(s.peers[p].topics[t], s.topics[t])
  }

  function Neighbours(peers: map<Peer, PeerStats>, ip: IP): set<Peer> { set q | q in peers && ip in peers[q].ips }

  function Surplus(n: int, threshold: int): real {
    if n > threshold then (n - threshold) as real * (n - threshold) as real else 0.0
  }

  /** The colocation factor over a list of addresses, repeats included. */
  function Colocation(ips: seq<IP>, count: IP -> nat, whitelisted: IP -> bool, threshold: int): real {
    if ips == [] then 0.0
    else Colocation(ips[..|ips| - 1], count, whitelisted, threshold)
         + if whitelisted(ips[|ips| - 1]) then 0.0 else Surplus(count(ips[|ips| - 1]), threshold)
  }

  function CountIn(peers: map<Peer, PeerStats>): IP -> nat { ip => |Neighbours(peers, ip)| }

  function P6(s: State, g: ScoreParams, p: Peer): real
    requires p in s.peers
  {
    Colocation(s.peers[p].ips, CountIn(s.peers), g.whitelisted, g.ipThreshold)
  }

  function P7(stats: PeerStats, g: ScoreParams): real {
    if stats.behaviour > g.behaviourThreshold
    then (stats.behaviour - g.behaviourThreshold) * (stats.behaviour - g.behaviourThreshold) else 0.0
  }

  /** The sum over topics, capped if there is a cap, and the other three terms. */
  function Total(sum: real, cap: real, p5: real, p6: real, p7: real): real {
    (if cap > 0.0 && sum > cap then cap else sum) + p5 + p6 + p7
  }

  /** The score of a peer; it means something only where the peer is Scorable. */
  ghost function ScoreOf(s: State, g: ScoreParams, p: Peer): real {
    if p !in s.peers then 0.0
    else
      Total(Sum(s.peers[p].topics.Keys, Term(s.topics, s.peers[p])), g.topicScoreCap, g.app(p) * g.appWeight,
            P6(s, g, p) * g.ipWeight, P7(s.peers[p], g) * g.behaviourWeight)
  }

  // ------------------------------------------------------------ what the tracer does

  /** getTopicStats: the counters of a scored topic, new ones if need be. */
  function StatsIn(s: State, p: Peer, t: Topic): TopicStats
    requires p in s.peers
  {
    if t in s.peers[p].topics then s.peers[p].topics[t] else FRESH
  }

  function With(s: State, p: Peer, t: Topic, ts: TopicStats): State
    requires p in s.peers
  {
    s.(peers := s.peers[p := s.peers[p].(topics := s.peers[p].topics[t := ts])])
  }

  predicate Tracks(s: State, p: Peer, t: Topic) { p in s.peers && t in s.topics }

  function OnGraft(s: State, p: Peer, t: Topic, now: Time): State {
    var s1 := s.(clock := now);
    if Tracks(s, p, t) then With(s1, p, t, Grafted(StatsIn(s, p, t), now)) else s1
  }

  function OnPrune(s: State, p: Peer, t: Topic): State {
    if Tracks(s, p, t) then With(s, p, t, Pruned(StatsIn(s, p, t), s.topics[t])) else s
  }

  function OnFirst(s: State, p: Peer, t: Topic): State {
    if Tracks(s, p, t) then With(s, p, t, MarkFirst(StatsIn(s, p, t), s.topics[t])) else s
  }

  function OnDuplicate(s: State, p: Peer, t: Topic, since: Duration): State {
    if Tracks(s, p, t) then With(s, p, t, MarkDuplicate(StatsIn(s, p, t), s.topics[t], since)) else s
  }

  function OnInvalid(s: State, p: Peer, t: Topic): State {
    if Tracks(s, p, t) then With(s, p, t, MarkInvalid(StatsIn(s, p, t))) else s
  }

  function OnPenalty(s: State, p: Peer, count: nat): State {
    if p !in s.peers then s
    else s.(peers := s.peers[p := s.peers[p].(behaviour := s.peers[p].behaviour + count as real)])
  }

  function OnNewStream(s: State, p: Peer, ips: seq<IP>): State {
    var stats := if p in s.peers then s.peers[p] else PeerStats(false, 0, map[], [], 0.0);
    s.(peers := s.peers[p := stats.(connected := true, ips := ips)])
  }

  function ClosedTopics(s: State, stats: PeerStats): map<Topic, TopicStats> {
    map t | t in stats.topics :: if t in s.topics then Closed(stats.topics[t], s.topics[t]) else stats.topics[t]
  }

  function ClosedStats(s: State, g: ScoreParams, stats: PeerStats, now: Time): PeerStats {
    stats.(topics := ClosedTopics(s, stats), connected := false, expire := now + g.retain)
  }

  /** A positive score is forgotten; any other is kept, without first deliveries. */
  ghost function OnClosedStream(s: State, g: ScoreParams, p: Peer, now: Time): State {
    var s1 := s.(clock := now);
    if p !in s.peers then s1
    else if ScoreOf(s, g, p) > 0.0 then s1.(peers := s.peers - {p})
    else s1.(peers := s.peers[p := ClosedStats(s, g, s.peers[p], now)])
  }

  function RefreshedStats(topics: map<Topic, TopicScoreParams>, g: ScoreParams, stats: PeerStats,
                          now: Time): PeerStats {
    if !stats.connected then stats
    else stats.(topics := map t | t in stats.topics ::
                  if t in topics then Refreshed(stats.topics[t], topics[t], g.decayToZero, now) else stats.topics[t],
                behaviour := Decayed(stats.behaviour, g.behaviourDecay, g.decayToZero))
  }

  predicate Expired(stats: PeerStats, now: Time) { !stats.connected && stats.expire < now }

  function OnRefresh(s: State, g: ScoreParams, now: Time): State {
    s.(peers := map p | p in s.peers && !Expired(s.peers[p], now) :: RefreshedStats(s.topics, g, s.peers[p], now),
       clock := now)
  }

  function OnRefreshIPs(s: State, ips: Peer -> seq<IP>): State {
    s.(peers := map p | p in s.peers :: if s.peers[p].connected then s.peers[p].(ips := ips(p)) else s.peers[p])
  }

  function RecappedStats(stats: PeerStats, t: Topic, tp: TopicScoreParams): PeerStats {
    if t in stats.topics then stats.(topics := stats.topics[t := Recapped(stats.topics[t], tp)]) else stats
  }

  predicate LowersCap(s: State, t: Topic, tp: TopicScoreParams) {
    t in s.topics && (tp.firstCap < s.topics[t].firstCap || tp.meshCap < s.topics[t].meshCap)
  }

  function OnSetParams(s: State, t: Topic, tp: TopicScoreParams): State {
    var s1 := s.(topics := s.topics[t := tp]);
    if LowersCap(s, t, tp) then s1.(peers := map p | p in s.peers :: RecappedStats(s.peers[p], t, tp)) else s1
  }

  // ------------------------------------------------------------ the invariant

  predicate ParamsOk(topics: map<Topic, TopicScoreParams>, t: Topic) {
    t in topics ==> topics[t].Valid() && topics[t].Sane()
  }

  /** Counters exist only for scored topics, and are in range. */
  predicate StatsOk(topics: map<Topic, TopicScoreParams>, stats: PeerStats, clock: Time, t: Topic) {
    t in stats.topics ==> t in topics && Bounded(stats.topics[t], topics[t], clock)
  }

  predicate PeerOk(s: State, p: Peer, t: Topic) {
    p in s.peers ==> s.peers[p].behaviour >= 0.0 && StatsOk(s.topics, s.peers[p], s.clock, t)
  }

  ghost predicate Inv(s: State) {
    (forall t :: ParamsOk(s.topics, t)) && (forall p, t :: PeerOk(s, p, t))
  }

  lemma BoundedLater(ts: TopicStats, p: TopicScoreParams, clock: Time, now: Time)
    requires Bounded(ts, p, clock) && clock <= now
    ensures Bounded(ts, p, now)
  {
  }

  /** Changing the counters of one peer in one topic. */
  lemma WithInv(s: State, p: Peer, t: Topic, ts: TopicStats, now: Time)
    requires Inv(s) && Tracks(s, p, t) && s.clock <= now && Bounded(ts, s.topics[t], now)
    ensures Inv(With(s.(clock := now), p, t, ts))
  {
    var s' := With(s.(clock := now), p, t, ts);
    forall q, u
      ensures PeerOk(s', q, u)
    {
      assert PeerOk(s, q, u);
      if q in s.peers && u in s.peers[q].topics {
        BoundedLater(s.peers[q].topics[u], s.topics[u], s.clock, now);
      }
    }
  }

  /** What is there to change is in range. */
  lemma StatsInBounded(s: State, p: Peer, t: Topic)
    requires Inv(s) && Tracks(s, p, t)
    ensures Bounded(StatsIn(s, p, t), s.topics[t], s.clock) && s.topics[t].Sane()
  {
    assert PeerOk(s, p, t) && ParamsOk(s.topics, t);
  }

  lemma TickInv(s: State, now: Time)
    requires Inv(s) && s.clock <= now
    ensures Inv(s.(clock := now))
  {
    forall q, u
      ensures PeerOk(s.(clock := now), q, u)
    {
      assert PeerOk(s, q, u);
    }
  }

  lemma GraftInv(s: State, p: Peer, t: Topic, now: Time)
    requires Inv(s) && s.clock <= now
    ensures Inv(OnGraft(s, p, t, now))
  {
    TickInv(s, now);
    if Tracks(s, p, t) {
      StatsInBounded(s, p, t);
      MeshChangesBounded(StatsIn(s, p, t), s.topics[t], s.clock, now);
      WithInv(s, p, t, Grafted(StatsIn(s, p, t), now), now);
    }
  }

  lemma CountInv(s: State, p: Peer, t: Topic, since: Duration)
    requires Inv(s)
    ensures Inv(OnPrune(s, p, t)) && Inv(OnFirst(s, p, t)) && Inv(OnDuplicate(s, p, t, since))
            && Inv(OnInvalid(s, p, t))
  {
    if Tracks(s, p, t) {
      var ts, tp := StatsIn(s, p, t), s.topics[t];
      StatsInBounded(s, p, t);
      MeshChangesBounded(ts, tp, s.clock, s.clock);
      MarksBounded(ts, tp, s.clock, since);
      assert s.(clock := s.clock) == s;
      WithInv(s, p, t, Pruned(ts, tp), s.clock);
      WithInv(s, p, t, MarkFirst(ts, tp), s.clock);
      WithInv(s, p, t, MarkDuplicate(ts, tp, since), s.clock);
      WithInv(s, p, t, MarkInvalid(ts), s.clock);
    }
  }

  lemma PenaltyInv(s: State, p: Peer, count: nat)
    requires Inv(s)
    ensures Inv(OnPenalty(s, p, count))
  {
    forall q, u
      ensures PeerOk(OnPenalty(s, p, count), q, u)
    {
      assert PeerOk(s, q, u);
    }
  }

  lemma NewStreamInv(s: State, p: Peer, ips: seq<IP>)
    requires Inv(s)
    ensures Inv(OnNewStream(s, p, ips))
  {
    forall q, u
      ensures PeerOk(OnNewStream(s, p, ips), q, u)
    {
      assert PeerOk(s, q, u);
    }
  }

  lemma ClosedStatsOk(s: State, g: ScoreParams, stats: PeerStats, now: Time, t: Topic)
    requires StatsOk(s.topics, stats, s.clock, t) && ParamsOk(s.topics, t) && s.clock <= now
    ensures StatsOk(s.topics, ClosedStats(s, g, stats, now), now, t)
  {
    if t in stats.topics {
      MeshChangesBounded(stats.topics[t], s.topics[t], s.clock, now);
      BoundedLater(Closed(stats.topics[t], s.topics[t]), s.topics[t], s.clock, now);
    }
  }

  lemma ClosedStreamInv(s: State, g: ScoreParams, p: Peer, now: Time)
    requires Inv(s) && s.clock <= now
    ensures Inv(OnClosedStream(s, g, p, now))
  {
    var s' := OnClosedStream(s, g, p, now);
    forall q, u
      ensures PeerOk(s', q, u)
    {
      assert PeerOk(s, q, u) && ParamsOk(s.topics, u);
      if q == p && p in s'.peers {
        ClosedStatsOk(s, g, s.peers[p], now, u);
      }
    }
  }

  lemma RefreshedStatsOk(s: State, g: ScoreParams, stats: PeerStats, now: Time, t: Topic)
    requires StatsOk(s.topics, stats, s.clock, t) && ParamsOk(s.topics, t) && s.clock <= now
    ensures StatsOk(s.topics, RefreshedStats(s.topics, g, stats, now), now, t)
  {
    if t in stats.topics {
      RefreshedBounded(stats.topics[t], s.topics[t], g.decayToZero, s.clock, now);
      BoundedLater(stats.topics[t], s.topics[t], s.clock, now);
    }
  }

  lemma RefreshInv(s: State, g: ScoreParams, now: Time)
    requires Inv(s) && s.clock <= now && g.Valid()
    ensures Inv(OnRefresh(s, g, now))
  {
    forall q, u
      ensures PeerOk(OnRefresh(s, g, now), q, u)
    {
      assert PeerOk(s, q, u) && ParamsOk(s.topics, u);
      if q in s.peers {
        RefreshedStatsOk(s, g, s.peers[q], now, u);
        DecayedBounds(s.peers[q].behaviour, g.behaviourDecay, g.decayToZero, s.peers[q].behaviour);
      }
    }
  }

  lemma RefreshIPsInv(s: State, ips: Peer -> seq<IP>)
    requires Inv(s)
    ensures Inv(OnRefreshIPs(s, ips))
  {
    forall q, u
      ensures PeerOk(OnRefreshIPs(s, ips), q, u)
    {
      assert PeerOk(s, q, u);
    }
  }

  lemma SetParamsInv(s: State, t: Topic, tp: TopicScoreParams)
    requires Inv(s) && tp.Valid() && tp.Sane()
    ensures Inv(OnSetParams(s, t, tp))
  {
    var s' := OnSetParams(s, t, tp);
    forall u
      ensures ParamsOk(s'.topics, u)
    {
      assert ParamsOk(s.topics, u);
    }
    forall q, u
      ensures PeerOk(s', q, u)
    {
      assert PeerOk(s, q, u);
      if q in s.peers && t in s.peers[q].topics && t in s.topics {
        assert PeerOk(s, q, t);
        RecappedBounded(s.peers[q].topics[t], s.topics[t], tp, s.clock);
      }
    }
  }

  // ------------------------------------------------------------ runs

  datatype Step =
    | Graft(p: Peer, t: Topic, now: Time)
    | Prune(p: Peer, t: Topic)
    | First(p: Peer, t: Topic)
    | Duplicate(p: Peer, t: Topic, since: Duration)
    | Invalid(p: Peer, t: Topic)
    | Penalty(p: Peer, count: nat)
    | NewStream(p: Peer, ips: seq<IP>)
    | ClosedStream(p: Peer, now: Time)
    | Refresh(now: Time)
    | RefreshIPs(current: Peer -> seq<IP>)
    | SetParams(t: Topic, tp: TopicScoreParams)

  predicate Enabled(s: State, step: Step) {
    match step
    case Graft(_, _, now) => s.clock <= now
    case ClosedStream(p, now) => s.clock <= now && Scorable(s, p)
    case Refresh(now) => s.clock <= now
    case SetParams(_, tp) => tp.Valid() && tp.Sane()
    case _ => true
  }

  ghost function Apply(s: State, step: Step, g: ScoreParams): State {
    match step
    case Graft(p, t, now) => OnGraft(s, p, t, now)
    case Prune(p, t) => OnPrune(s, p, t)
    case First(p, t) => OnFirst(s, p, t)
    case Duplicate(p, t, since) => OnDuplicate(s, p, t, since)
    case Invalid(p, t) => OnInvalid(s, p, t)
    case Penalty(p, count) => OnPenalty(s, p, count)
    case NewStream(p, ips) => OnNewStream(s, p, ips)
    case ClosedStream(p, now) => OnClosedStream(s, g, p, now)
    case Refresh(now) => OnRefresh(s, g, now)
    case RefreshIPs(ips) => OnRefreshIPs(s, ips)
    case SetParams(t, tp) => OnSetParams(s, t, tp)
  }

  lemma StepInv(s: State, step: Step, g: ScoreParams)
    requires Inv(s) && Enabled(s, step) && g.Valid()
    ensures Inv(Apply(s, step, g))
  {
    match step
    case Graft(p, t, now) => GraftInv(s, p, t, now);
    case Prune(p, t) => CountInv(s, p, t, 0);
    case First(p, t) => CountInv(s, p, t, 0);
    case Duplicate(p, t, since) => CountInv(s, p, t, since);
    case Invalid(p, t) => CountInv(s, p, t, 0);
    case Penalty(p, count) => PenaltyInv(s, p, count);
    case NewStream(p, ips) => NewStreamInv(s, p, ips);
    case ClosedStream(p, now) => ClosedStreamInv(s, g, p, now);
    case Refresh(now) => RefreshInv(s, g, now);
    case RefreshIPs(ips) => RefreshIPsInv(s, ips);
    case SetParams(t, tp) => SetParamsInv(s, t, tp);
  }

  ghost predicate IsRun(states: seq<State>, steps: seq<Step>, g: ScoreParams) {
    && g.Valid() && |states| == |steps| + 1 && states[0].peers == map[] && (forall t :: ParamsOk(states[0].topics, t))
    && forall i :: 0 <= i < |steps| ==> Enabled(states[i], steps[i]) && states[i + 1] == Apply(states[i], steps[i], g)
  }

  lemma {:induction false} RunInv(states: seq<State>, steps: seq<Step>, g: ScoreParams, j: nat)
    requires IsRun(states, steps, g) && j < |states|
    ensures Inv(states[j])
  {
    if j > 0 {
      RunInv(states, steps, g, j - 1);
      StepInv(states[j - 1], steps[j - 1], g);
    }
  }

  /** In every run, every counter of every peer stays between zero and its cap,
      whatever happens to the caps. */
  lemma CountersStayInRange(states: seq<State>, steps: seq<Step>, g: ScoreParams, j: nat, p: Peer, t: Topic)
    requires IsRun(states, steps, g) && j < |states| && p in states[j].peers && t in states[j].peers[p].topics
    ensures t in states[j].topics
    ensures var ts, tp := states[j].peers[p].topics[t], states[j].topics[t];
            0.0 <= ts.first <= tp.firstCap && 0.0 <= ts.mesh <= tp.meshCap && ts.failure >= 0.0 && ts.invalid >= 0.0
  {
    RunInv(states, steps, g, j);
    assert PeerOk(states[j], p, t);
  }

  // ------------------------------------------------------------ bounds on the score

  lemma {:induction false} ColocationNonNegative(ips: seq<IP>, count: IP -> nat, whitelisted: IP -> bool,
                                                 threshold: int)
    ensures Colocation(ips, count, whitelisted, threshold) >= 0.0
  {
    if ips != [] {
      ColocationNonNegative(ips[..|ips| - 1], count, whitelisted, threshold);
      Square((count(ips[|ips| - 1]) - threshold) as real);
    }
  }

  lemma PenaltiesNonPositive(s: State, g: ScoreParams, p: Peer)
    requires g.Valid() && p in s.peers
    ensures P6(s, g, p) * g.ipWeight <= 0.0 && P7(s.peers[p], g) * g.behaviourWeight <= 0.0
  {
    ColocationNonNegative(s.peers[p].ips, CountIn(s.peers), g.whitelisted, g.ipThreshold);
    NonPositive(P6(s, g, p), g.ipWeight);
    Square(s.peers[p].behaviour - g.behaviourThreshold);
    NonPositive(P7(s.peers[p], g), g.behaviourWeight);
  }

  function BoundOf(topics: map<Topic, TopicScoreParams>): Topic -> real {
    t => if t in topics then TopicBound(topics[t]) else 0.0
  }

  lemma TermBound(s: State, p: Peer, t: Topic)
    requires Inv(s) && Scorable(s, p) && p in s.peers && t in s.peers[p].topics
    ensures Term(s.topics, s.peers[p])(t) <= BoundOf(s.topics)(t)
  {
    assert PeerOk(s, p, t) && ParamsOk(s.topics, t);
    TopicScoreBound(s.peers[p].topics[t], s.topics[t], s.clock);
  }

  lemma TopicsBound(s: State, p: Peer)
    requires Inv(s) && Scorable(s, p) && p in s.peers
    ensures Sum(s.peers[p].topics.Keys, Term(s.topics, s.peers[p])) <= Sum(s.peers[p].topics.Keys, BoundOf(s.topics))
  {
    forall t | t in s.peers[p].topics.Keys
      ensures Term(s.topics, s.peers[p])(t) <= BoundOf(s.topics)(t)
    {
      TermBound(s, p, t);
    }
    SumMonotone(s.peers[p].topics.Keys, Term(s.topics, s.peers[p]), BoundOf(s.topics));
  }

  lemma TotalBound(sum: real, bound: real, cap: real, p5: real, p6: real, p7: real)
    requires sum <= bound && p6 <= 0.0 && p7 <= 0.0
    ensures Total(sum, cap, p5, p6, p7) <= bound + p5
    ensures cap > 0.0 ==> Total(sum, cap, p5, p6, p7) <= cap + p5
  {
  }

  ghost predicate PartsBounded(s: State, g: ScoreParams, p: Peer)
    requires p in s.peers
  {
    && Sum(s.peers[p].topics.Keys, Term(s.topics, s.peers[p])) <= Sum(s.peers[p].topics.Keys, BoundOf(s.topics))
    && P6(s, g, p) * g.ipWeight <= 0.0 && P7(s.peers[p], g) * g.behaviourWeight <= 0.0
  }

  lemma PartsAreBounded(s: State, g: ScoreParams, p: Peer)
    requires Inv(s) && Scorable(s, p) && g.Valid() && p in s.peers
    ensures PartsBounded(s, g, p)
  {
    TopicsBound(s, p);
    PenaltiesNonPositive(s, g, p);
  }

  lemma BoundFromParts(s: State, g: ScoreParams, p: Peer)
    requires p in s.peers && PartsBounded(s, g, p)
    ensures ScoreOf(s, g, p) <= Sum(s.peers[p].topics.Keys, BoundOf(s.topics)) + g.app(p) * g.appWeight
    ensures g.topicScoreCap > 0.0 ==> ScoreOf(s, g, p) <= g.topicScoreCap + g.app(p) * g.appWeight
  {
    hide P6, P7, Term, Sum;
    TotalBound(Sum(s.peers[p].topics.Keys, Term(s.topics, s.peers[p])), Sum(s.peers[p].topics.Keys, BoundOf(s.topics)),
               g.topicScoreCap, g.app(p) * g.appWeight, P6(s, g, p) * g.ipWeight,
               P7(s.peers[p], g) * g.behaviourWeight);
  }

  /** In every run, a score never exceeds what the capped time in mesh and first
      deliveries of the peer's topics allow, nor the topic cap if there is one,
      plus the application's term. */
  lemma ScoreIsBounded(states: seq<State>, steps: seq<Step>, g: ScoreParams, j: nat, p: Peer)
    requires IsRun(states, steps, g) && j < |states| && p in states[j].peers && Scorable(states[j], p)
    ensures ScoreOf(states[j], g, p)
            <= Sum(states[j].peers[p].topics.Keys, BoundOf(states[j].topics)) + g.app(p) * g.appWeight
    ensures g.topicScoreCap > 0.0 ==> ScoreOf(states[j], g, p) <= g.topicScoreCap + g.app(p) * g.appWeight
  {
    RunInv(states, steps, g, j);
    PartsAreBounded(states[j], g, p);
    BoundFromParts(states[j], g, p);
  }

  lemma ClosedTermLower(s: State, g: ScoreParams, p: Peer, now: Time, t: Topic)
    requires Inv(s) && Scorable(s, p) && p in s.peers && t in s.peers[p].topics
    ensures Term(s.topics, ClosedStats(s, g, s.peers[p], now))(t) <= Term(s.topics, s.peers[p])(t)
  {
    assert PeerOk(s, p, t) && ParamsOk(s.topics, t);
    ClosedLowers(s.peers[p].topics[t], s.topics[t], s.clock);
  }

  lemma ClosingKeepsNeighbours(s: State, g: ScoreParams, p: Peer, now: Time, ip: IP)
    requires p in s.peers
    ensures Neighbours(s.peers[p := ClosedStats(s, g, s.peers[p], now)], ip) == Neighbours(s.peers, ip)
  {
  }

  lemma {:induction false} ColocationSame(ips: seq<IP>, a: IP -> nat, b: IP -> nat, whitelisted: IP -> bool,
                                          threshold: int)
    requires forall ip :: a(ip) == b(ip)
    ensures Colocation(ips, a, whitelisted, threshold) == Colocation(ips, b, whitelisted, threshold)
  {
    if ips != [] {
      ColocationSame(ips[..|ips| - 1], a, b, whitelisted, threshold);
    }
  }

  lemma TotalMonotone(a: real, b: real, cap: real, p5: real, p6: real, p7: real)
    requires a <= b
    ensures Total(a, cap, p5, p6, p7) <= Total(b, cap, p5, p6, p7)
  {
  }

  lemma ClosedTopicsLower(s: State, g: ScoreParams, p: Peer, now: Time)
    requires Inv(s) && Scorable(s, p) && p in s.peers
    ensures var closed := ClosedStats(s, g, s.peers[p], now);
            && closed.topics.Keys == s.peers[p].topics.Keys
            && Sum(closed.topics.Keys, Term(s.topics, closed))
               <= Sum(s.peers[p].topics.Keys, Term(s.topics, s.peers[p]))
  {
    var closed := ClosedStats(s, g, s.peers[p], now);
    forall t | t in closed.topics.Keys
      ensures Term(s.topics, closed)(t) <= Term(s.topics, s.peers[p])(t)
    {
      ClosedTermLower(s, g, p, now, t);
    }
    SumMonotone(closed.topics.Keys, Term(s.topics, closed), Term(s.topics, s.peers[p]));
  }

  lemma ClosingKeepsP6(s: State, s': State, g: ScoreParams, p: Peer, now: Time)
    requires p in s.peers && s'.peers == s.peers[p := ClosedStats(s, g, s.peers[p], now)]
    ensures P6(s', g, p) == P6(s, g, p)
  {
    forall ip
      ensures CountIn(s'.peers)(ip) == CountIn(s.peers)(ip)
    {
      ClosingKeepsNeighbours(s, g, p, now, ip);
    }
    ColocationSame(s.peers[p].ips, CountIn(s'.peers), CountIn(s.peers), g.whitelisted, g.ipThreshold);
  }

  /** The parts of two scores compare like the scores. */
  lemma CompareParts(s: State, s': State, g: ScoreParams, p: Peer)
    requires p in s.peers && p in s'.peers
    requires Sum(s'.peers[p].topics.Keys, Term(s'.topics, s'.peers[p]))
             <= Sum(s.peers[p].topics.Keys, Term(s.topics, s.peers[p]))
    requires P6(s', g, p) == P6(s, g, p) && P7(s'.peers[p], g) == P7(s.peers[p], g)
    ensures ScoreOf(s', g, p) <= ScoreOf(s, g, p)
  {
    hide P6, P7, Term, Sum;
    TotalMonotone(Sum(s'.peers[p].topics.Keys, Term(s'.topics, s'.peers[p])),
                  Sum(s.peers[p].topics.Keys, Term(s.topics, s.peers[p])),
                  g.topicScoreCap, g.app(p) * g.appWeight, P6(s, g, p) * g.ipWeight,
                  P7(s.peers[p], g) * g.behaviourWeight);
  }

  lemma RetainedIsLower(s: State, s': State, g: ScoreParams, p: Peer, now: Time)
    requires Inv(s) && Scorable(s, p) && p in s.peers && s'.topics == s.topics
    requires s'.peers == s.peers[p := ClosedStats(s, g, s.peers[p], now)]
    ensures ScoreOf(s', g, p) <= ScoreOf(s, g, p)
  {
    ClosedTopicsLower(s, g, p, now);
    ClosingKeepsP6(s, s', g, p, now);
    CompareParts(s, s', g, p);
  }

  /** Closing a peer's outbound stream never raises its score, and leaves a score
      that can be computed. */
  lemma ClosingNeverRaises(s: State, g: ScoreParams, p: Peer, now: Time)
    requires Inv(s) && p in s.peers && Scorable(s, p)
    ensures Scorable(OnClosedStream(s, g, p, now), p)
    ensures ScoreOf(OnClosedStream(s, g, p, now), g, p) <= ScoreOf(s, g, p)
  {
    var s' := OnClosedStream(s, g, p, now);
    if p in s'.peers {
      RetainedIsLower(s, s', g, p, now);
    }
  }

  // ------------------------------------------------------------ when a score can be computed

  ghost predicate AllDivide(s: State) { forall t :: t in s.topics ==> s.topics[t].Divides() }

  lemma DividingIsScorable(s: State, p: Peer)
    requires AllDivide(s)
    ensures Scorable(s, p)
  {
  }

  lemma StepKeepsTopics(s: State, step: Step, g: ScoreParams)
    requires !step.SetParams?
    ensures Apply(s, step, g).topics == s.topics
  {
  }

  /** From a state with a zero quantum, a new peer that is grafted cannot be scored. */
  lemma ZeroQuantumFails(s: State, g: ScoreParams, t: Topic, p: Peer) returns (states: seq<State>, steps: seq<Step>)
    requires t in s.topics && !s.topics[t].Divides()
    ensures Continues(s, states, steps, g) && !Scorable(states[|steps|], p)
  {
    var s1 := Apply(s, NewStream(p, []), g);
    var s2 := Apply(s1, Graft(p, t, s.clock), g);
    states, steps := [s, s1, s2], [NewStream(p, []), Graft(p, t, s.clock)];
    assert s2.peers[p].topics[t].inMesh && t in s2.topics;
    assert !Computable(s2.peers[p].topics[t], s2.topics[t]);
  }

  /** Steps from s that do not change parameters. */
  ghost predicate Continues(s: State, states: seq<State>, steps: seq<Step>, g: ScoreParams) {
    && |states| == |steps| + 1 && states[0] == s
    && forall i :: 0 <= i < |steps| ==>
         !steps[i].SetParams? && Enabled(states[i], steps[i]) && states[i + 1] == Apply(states[i], steps[i], g)
  }

  lemma {:induction false} ContinuesKeepsTopics(s: State, states: seq<State>, steps: seq<Step>, g: ScoreParams, j: nat)
    requires Continues(s, states, steps, g) && j < |states|
    ensures states[j].topics == s.topics
  {
    if j > 0 {
      ContinuesKeepsTopics(s, states, steps, g, j - 1);
      StepKeepsTopics(states[j - 1], steps[j - 1], g);
    }
  }

  /** Whatever happens from a state on under its parameters, every score can be
      computed, exactly if none of its scored topics has a zero quantum. */
  lemma ScoresDefinedExactly(s: State, g: ScoreParams)
    ensures AllDivide(s) <==>
            forall states, steps, j: nat, p ::
              Continues(s, states, steps, g) && j < |states| ==> Scorable(states[j], p)
  {
    if AllDivide(s) {
      forall states, steps, j: nat, p | Continues(s, states, steps, g) && j < |states|
        ensures Scorable(states[j], p)
      {
        ContinuesKeepsTopics(s, states, steps, g, j);
        DividingIsScorable(states[j], p);
      }
    } else {
      var t :| t in s.topics && !s.topics[t].Divides();
      var states, steps := ZeroQuantumFails(s, g, t, PeerId(0));
      assert !Scorable(states[|steps|], PeerId(0));
    }
  }

  /** Parameters that validation admits lead there: a run of two steps after which
      score() divides by zero. */
  lemma ValidatedScoreCanFail(g: ScoreParams, t: Topic, p: Peer, now: Time)
    returns (states: seq<State>, steps: seq<Step>)
    requires g.Valid()
    ensures ONLY_WEIGHT.Valid() && ONLY_WEIGHT.Sane()
    ensures IsRun(states, steps, g) && states[0] == State(map[t := ONLY_WEIGHT], map[], now)
    ensures p in states[|steps|].peers && !Scorable(states[|steps|], p)
  {
    var s := State(map[t := ONLY_WEIGHT], map[], now);
    states, steps := ZeroQuantumFails(s, g, t, p);
  }
}
