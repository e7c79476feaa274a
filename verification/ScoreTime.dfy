/** What time does to a peer's statistics: counters fade, time in mesh runs, and the
    statistics of a disconnected peer are kept for so long and no longer. */
module ScoreTime {
  import opened Ids
  import opened Score
  import opened PeerScore

  // ------------------------------------------------------------ fading

  function Power(x: real, n: nat): real { if n == 0 then 1.0 else Power(x, n - 1) * x }

  /** A counter after n periods of decay: the geometric value, or zero once that is
      below the limit. */
  function Faded(x: real, decay: real, toZero: real, n: nat): real {
    if n > 0 && x * Power(decay, n) < toZero then 0.0 else x * Power(decay, n)
  }

  lemma UnitProduct(a: real, b: real)
    requires 0.0 <= a <= 1.0 && 0.0 <= b <= 1.0
    ensures 0.0 <= a * b <= 1.0
  {
    Monotone(0.0, a, b);
    Monotone(a, 1.0, b);
    assert a * b <= b;
  }

  lemma {:induction false} PowerBounds(x: real, n: nat)
    requires 0.0 <= x <= 1.0
    ensures 0.0 <= Power(x, n) <= 1.0
  {
    if n > 0 {
      PowerBounds(x, n - 1);
      UnitProduct(Power(x, n - 1), x);
    }
  }

  lemma FadedNext(x: real, decay: real, toZero: real, n: nat)
    requires x >= 0.0 && 0.0 <= decay <= 1.0
    ensures Decayed(Faded(x, decay, toZero, n), decay, toZero) == Faded(x, decay, toZero, n + 1)
  {
    PowerBounds(decay, n);
    var now := x * Power(decay, n);
    Monotone(0.0, Power(decay, n), x);
    Monotone(decay, 1.0, now);
    assert now * decay == x * Power(decay, n + 1) by { Associate(x, Power(decay, n), decay); }
  }

  lemma Associate(a: real, b: real, c: real)
    ensures (a * b) * c == a * (b * c)
  {
  }

  // ------------------------------------------------------------ refreshing

  function Refreshes(s: State, g: ScoreParams, times: seq<Time>): State {
    if times == [] then s else OnRefresh(Refreshes(s, g, times[..|times| - 1]), g, times[|times| - 1])
  }

  /** The counters of a topic after n refreshes, the last of them at `now`. */
  ghost predicate FadedTopic(ts: TopicStats, was: TopicStats, tp: TopicScoreParams, toZero: real, n: nat) {
    && ts.first == Faded(was.first, tp.firstDecay, toZero, n) && ts.mesh == Faded(was.mesh, tp.meshDecay, toZero, n)
    && ts.failure == Faded(was.failure, tp.failureDecay, toZero, n)
    && ts.invalid == Faded(was.invalid, tp.invalidDecay, toZero, n)
    && ts.inMesh == was.inMesh && ts.graftTime == was.graftTime
  }

  predicate Fading(ts: TopicStats, tp: TopicScoreParams) {
    && ts.first >= 0.0 && ts.mesh >= 0.0 && ts.failure >= 0.0 && ts.invalid >= 0.0
    && 0.0 <= tp.firstDecay <= 1.0 && 0.0 <= tp.meshDecay <= 1.0
    && 0.0 <= tp.failureDecay <= 1.0 && 0.0 <= tp.invalidDecay <= 1.0
  }

  lemma FadedTopicNext(ts: TopicStats, was: TopicStats, tp: TopicScoreParams, toZero: real, n: nat, now: Time)
    requires Fading(was, tp) && FadedTopic(ts, was, tp, toZero, n)
    ensures FadedTopic(Refreshed(ts, tp, toZero, now), was, tp, toZero, n + 1)
  {
    hide Decayed, Faded;
    FadedNext(was.first, tp.firstDecay, toZero, n);
    FadedNext(was.mesh, tp.meshDecay, toZero, n);
    FadedNext(was.failure, tp.failureDecay, toZero, n);
    FadedNext(was.invalid, tp.invalidDecay, toZero, n);
  }

  lemma FadedStart(ts: TopicStats, tp: TopicScoreParams, toZero: real)
    ensures FadedTopic(ts, ts, tp, toZero, 0)
  {
  }

  /** A connected peer is kept by any number of refreshes; its counters fade
      geometrically, and nothing else of it changes but the time in mesh. */
  lemma {:induction false} CountersFade(s: State, g: ScoreParams, times: seq<Time>, p: Peer, t: Topic)
    requires p in s.peers && s.peers[p].connected && t in s.peers[p].topics && t in s.topics
    requires Fading(s.peers[p].topics[t], s.topics[t])
    requires s.peers[p].behaviour >= 0.0 && 0.0 <= g.behaviourDecay <= 1.0
    ensures var s' := Refreshes(s, g, times);
            && s'.topics == s.topics && p in s'.peers && s'.peers[p].connected && s'.peers[p].ips == s.peers[p].ips
            && s'.peers[p].topics.Keys == s.peers[p].topics.Keys
            && FadedTopic(s'.peers[p].topics[t], s.peers[p].topics[t], s.topics[t], g.decayToZero, |times|)
            && s'.peers[p].behaviour == Faded(s.peers[p].behaviour, g.behaviourDecay, g.decayToZero, |times|)
  {
    hide Faded, FadedTopic, Refreshed, Decayed, Fading;
    if times == [] {
      FadedStart(s.peers[p].topics[t], s.topics[t], g.decayToZero);
      StartFaded(s.peers[p].behaviour, g.behaviourDecay, g.decayToZero);
    } else {
      var init, now := times[..|times| - 1], times[|times| - 1];
      CountersFade(s, g, init, p, t);
      var s1 := Refreshes(s, g, init);
      FadedTopicNext(s1.peers[p].topics[t], s.peers[p].topics[t], s.topics[t], g.decayToZero, |init|, now);
      FadedNext(s.peers[p].behaviour, g.behaviourDecay, g.decayToZero, |init|);
    }
  }

  lemma StartFaded(x: real, decay: real, toZero: real)
    ensures Faded(x, decay, toZero, 0) == x
  {
  }

  /** The time in mesh is that since the graft, and deliveries are expected as soon as it
      exceeds the activation time at some refresh. */
  lemma {:induction false} MeshTimeRuns(s: State, g: ScoreParams, times: seq<Time>, p: Peer, t: Topic)
    requires p in s.peers && s.peers[p].connected && t in s.peers[p].topics && t in s.topics && times != []
    requires s.peers[p].topics[t].inMesh
    ensures var s', was := Refreshes(s, g, times), s.peers[p].topics[t];
            && s'.topics == s.topics && p in s'.peers && s'.peers[p].connected && t in s'.peers[p].topics
            && var ts := s'.peers[p].topics[t];
            && ts.inMesh && ts.graftTime == was.graftTime && ts.meshTime == times[|times| - 1] - was.graftTime
            && (ts.active <==> was.active || exists i :: 0 <= i < |times|
                                               && times[i] - was.graftTime > s.topics[t].meshActivation)
  {
    hide Decayed;
    var init, now := times[..|times| - 1], times[|times| - 1];
    if init != [] {
      MeshTimeRuns(s, g, init, p, t);
    }
    assert forall i :: 0 <= i < |init| ==> times[i] == init[i];
  }

  /** The statistics of a disconnected peer are kept unchanged until the first refresh
      after their time, and forgotten then. */
  lemma {:induction false} RetainedExactly(s: State, g: ScoreParams, times: seq<Time>, p: Peer)
    requires p in s.peers && !s.peers[p].connected
    ensures var s' := Refreshes(s, g, times);
            && (p in s'.peers <==> forall i :: 0 <= i < |times| ==> times[i] <= s.peers[p].expire)
            && (p in s'.peers ==> s'.peers[p] == s.peers[p])
  {
    if times != [] {
      var init := times[..|times| - 1];
      RetainedExactly(s, g, init, p);
      assert forall i :: 0 <= i < |init| ==> times[i] == init[i];
    }
  }

  /** So after a stream is closed at some time with a score that is not positive, they
      last exactly for the retention period. */
  lemma ClosedIsRetained(s: State, g: ScoreParams, p: Peer, now: Time, times: seq<Time>)
    requires p in s.peers
    ensures var s' := Refreshes(OnClosedStream(s, g, p, now), g, times);
            p in s'.peers <==>
            ScoreOf(s, g, p) <= 0.0 && forall i :: 0 <= i < |times| ==> times[i] <= now + g.retain
  {
    hide ScoreOf;
    var s1 := OnClosedStream(s, g, p, now);
    if p in s1.peers {
      RetainedExactly(s1, g, times, p);
    } else {
      StaysForgotten(s1, g, times, p);
    }
  }

  lemma {:induction false} StaysForgotten(s: State, g: ScoreParams, times: seq<Time>, p: Peer)
    requires p !in s.peers
    ensures p !in Refreshes(s, g, times).peers
  {
    if times != [] {
      StaysForgotten(s, g, times[..|times| - 1], p);
    }
  }

  /** Closing a stream: first deliveries are forgotten, what was missing in a mesh
      becomes a failure, the peer is in no mesh, and everything else stays. */
  lemma ClosedCounters(s: State, g: ScoreParams, p: Peer, now: Time, t: Topic)
    requires p in s.peers && ScoreOf(s, g, p) <= 0.0 && t in s.peers[p].topics && t in s.topics
    ensures var s' := OnClosedStream(s, g, p, now);
            && p in s'.peers && !s'.peers[p].connected && s'.peers[p].expire == now + g.retain
            && s'.peers[p].ips == s.peers[p].ips && s'.peers[p].behaviour == s.peers[p].behaviour
            && s'.peers[p].topics.Keys == s.peers[p].topics.Keys
            && var ts, ts', tp := s.peers[p].topics[t], s'.peers[p].topics[t], s.topics[t];
            && ts'.first == 0.0 && !ts'.inMesh && ts'.mesh == ts.mesh && ts'.invalid == ts.invalid
            && ts'.active == ts.active
            && ts'.failure == if ts.inMesh && ts.active && ts.mesh < tp.meshThreshold
               then ts.failure + (tp.meshThreshold - ts.mesh) * (tp.meshThreshold - ts.mesh) else ts.failure
  {
    hide ScoreOf;
  }

  // ------------------------------------------------------------ streams, addresses and parameters

  /** A new stream: a known peer keeps its statistics, a new one starts with none. */
  lemma NewStreamExactly(s: State, p: Peer, ips: seq<IP>, q: Peer)
    ensures var s' := OnNewStream(s, p, ips);
            && s'.topics == s.topics && s'.clock == s.clock && s'.peers.Keys == s.peers.Keys + {p}
            && s'.peers[p].connected && s'.peers[p].ips == ips
            && (if p in s.peers
                then s'.peers[p].topics == s.peers[p].topics && s'.peers[p].behaviour == s.peers[p].behaviour
                else s'.peers[p].topics == map[] && s'.peers[p].behaviour == 0.0)
            && (q != p && q in s.peers ==> s'.peers[q] == s.peers[q])
  {
  }

  /** A peer does not get rid of its penalties by reconnecting in time: first deliveries
      are lost, and the rest of its record is as if the stream had only been pruned. */
  lemma ReconnectingKeepsPenalties(s: State, g: ScoreParams, p: Peer, closed: Time, times: seq<Time>, ips: seq<IP>,
                                   t: Topic)
    requires p in s.peers && ScoreOf(s, g, p) <= 0.0 && t in s.peers[p].topics && t in s.topics
    requires forall i :: 0 <= i < |times| ==> times[i] <= closed + g.retain
    ensures var s' := OnNewStream(Refreshes(OnClosedStream(s, g, p, closed), g, times), p, ips);
            && s'.peers[p].connected && s'.peers[p].behaviour == s.peers[p].behaviour
            && t in s'.peers[p].topics
            && var ts, ts' := s.peers[p].topics[t], s'.peers[p].topics[t];
            && ts'.first == 0.0 && !ts'.inMesh && ts'.mesh == ts.mesh && ts'.invalid == ts.invalid
            && ts'.failure >= ts.failure && (!ts.inMesh ==> ts'.failure == ts.failure)
  {
    hide ScoreOf;
    var s1 := OnClosedStream(s, g, p, closed);
    ClosedCounters(s, g, p, closed, t);
    RetainedExactly(s1, g, times, p);
    Square(s.topics[t].meshThreshold - s.peers[p].topics[t].mesh);
  }

  /** Refreshing the addresses: connected peers have their current ones, others keep
      those they had. */
  lemma AddressesExactly(s: State, ips: Peer -> seq<IP>, p: Peer)
    ensures var s' := OnRefreshIPs(s, ips);
            && s'.topics == s.topics && s'.clock == s.clock && s'.peers.Keys == s.peers.Keys
            && (p in s.peers ==>
                  && s'.peers[p].(ips := []) == s.peers[p].(ips := [])
                  && s'.peers[p].ips == if s.peers[p].connected then ips(p) else s.peers[p].ips)
  {
  }

  /** New parameters count from now on, and lower every counter to its new cap. */
  lemma ParametersExactly(s: State, t: Topic, tp: TopicScoreParams, p: Peer)
    requires Inv(s) && p in s.peers && t in s.peers[p].topics
    ensures var s' := OnSetParams(s, t, tp);
            && s'.topics == s.topics[t := tp] && s'.clock == s.clock && s'.peers.Keys == s.peers.Keys
            && s'.peers[p].topics.Keys == s.peers[p].topics.Keys
            && var ts, ts' := s.peers[p].topics[t], s'.peers[p].topics[t];
            && ts'.first == (if ts.first <= tp.firstCap then ts.first else tp.firstCap)
            && ts'.mesh == (if ts.mesh <= tp.meshCap then ts.mesh else tp.meshCap)
            && ts'.(first := 0.0, mesh := 0.0) == ts.(first := 0.0, mesh := 0.0)
  {
    assert PeerOk(s, p, t);
  }

  /** The clock is that of the last event that has one. */
  lemma ClockExactly(s: State, g: ScoreParams, p: Peer, t: Topic, now: Time)
    ensures OnGraft(s, p, t, now).clock == OnClosedStream(s, g, p, now).clock == OnRefresh(s, g, now).clock == now
  {
  }
}
