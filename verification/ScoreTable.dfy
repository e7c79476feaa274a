/** The score table: per-peer statistics updated in place, and the reverse index
    from addresses to peers that the P6 term is computed from. */
module ScoreTable {
  import opened Ids
  import opened Score
  import opened PeerScore

  // ------------------------------------------------------------ the index

  type Index = map<IP, set<Peer>>

  predicate Has(idx: Index, ip: IP, p: Peer) { ip in idx && p in idx[ip] }

  predicate Owns(peers: map<Peer, PeerStats>, p: Peer, ip: IP) { p in peers && ip in peers[p].ips }

  /** The index lists under every address exactly the tracked peers that have it. */
  ghost predicate Agrees(idx: Index, peers: map<Peer, PeerStats>) {
    && (forall ip, p :: Has(idx, ip, p) <==> Owns(peers, p, ip))
    && (forall ip :: ip in idx ==> idx[ip] != {})
  }

  function Count(idx: Index, ip: IP): nat { if ip in idx then |idx[ip]| else 0 }

  /** So its sets can be counted instead of the peers. */
  lemma CountAgrees(idx: Index, peers: map<Peer, PeerStats>, ip: IP)
    requires Agrees(idx, peers)
    ensures Count(idx, ip) == |Neighbours(peers, ip)|
  {
    var listed := if ip in idx then idx[ip] else {};
    forall p
      ensures p in listed <==> p in Neighbours(peers, ip)
    {
      assert Has(idx, ip, p) <==> Owns(peers, p, ip);
    }
    assert listed == Neighbours(peers, ip);
  }

  /** Adding or removing p under the addresses of `changed`. */
  ghost predicate Changed(idx: Index, was: Index, p: Peer, added: iset<IP>, removed: iset<IP>) {
    && (forall ip, q :: Has(idx, ip, q) <==> (Has(was, ip, q) && !(q == p && ip in removed)) || (q == p && ip in added))
    && (forall ip :: ip in idx ==> idx[ip] != {})
  }

  method Contains(ips: seq<IP>, ip: IP) returns (yes: bool)
    ensures yes <==> ip in ips
  {
    for i := 0 to |ips|
      invariant ip !in ips[..i]
    {
      if ips[i] == ip {
        return true;
      }
    }
    return false;
  }

  /** The first loop of setIPs. */
  method AddNewIPs(was: Index, p: Peer, newips: seq<IP>, oldips: seq<IP>) returns (idx: Index)
    requires forall ip :: ip in was ==> was[ip] != {}
    ensures Changed(idx, was, p, iset ip | ip in newips && ip !in oldips, iset{})
  {
    idx := was;
    for i := 0 to |newips|
      invariant Changed(idx, was, p, iset ip | ip in newips[..i] && ip !in oldips, iset{})
    {
      var ip := newips[i];
      var old_ := Contains(oldips, ip);
      if old_ {
        continue;
      }
      ghost var before := idx;
      var peers := if ip in idx then idx[ip] else {};
      idx := idx[ip := peers + {p}];
      forall x, q
        ensures Has(idx, x, q) <==> Has(before, x, q) || (x == ip && q == p)
      {
      }
    }
    assert newips[..|newips|] == newips;
  }

  method RemoveIP(was: Index, p: Peer, ip: IP) returns (idx: Index)
    requires forall x :: x in was ==> was[x] != {}
    ensures Changed(idx, was, p, iset{}, iset{ip})
  {
    idx := was;
    if ip in idx {
      var peers := idx[ip] - {p};
      idx := idx[ip := peers];
      if |peers| == 0 {
        idx := idx - {ip};
      }
    }
  }

  /** removeIPs, and the second loop of setIPs: the addresses not in `keep`. */
  method RemoveIPs(was: Index, p: Peer, ips: seq<IP>, keep: seq<IP>) returns (idx: Index)
    requires forall ip :: ip in was ==> was[ip] != {}
    ensures Changed(idx, was, p, iset{}, iset ip | ip in ips && ip !in keep)
  {
    idx := was;
    for i := 0 to |ips|
      invariant Changed(idx, was, p, iset{}, iset ip | ip in ips[..i] && ip !in keep)
    {
      var kept := Contains(keep, ips[i]);
      if kept {
        continue;
      }
      ghost var before := idx;
      idx := RemoveIP(idx, p, ips[i]);
      forall x, q
        ensures Has(idx, x, q) <==> Has(before, x, q) && !(x == ips[i] && q == p)
      {
      }
    }
    assert ips[..|ips|] == ips;
  }

  /** setIPs, for a peer that had oldips: the index then agrees with its new ones. */
  method SetIPs(was: Index, p: Peer, newips: seq<IP>, oldips: seq<IP>,
                ghost peers: map<Peer, PeerStats>, ghost stats: PeerStats) returns (idx: Index)
    requires Agrees(was, peers) && oldips == (if p in peers then peers[p].ips else []) && stats.ips == newips
    ensures Agrees(idx, peers[p := stats])
  {
    idx := AddNewIPs(was, p, newips, oldips);
    ghost var mid := idx;
    idx := RemoveIPs(idx, p, oldips, newips);
    forall ip, q
      ensures Has(idx, ip, q) <==> Owns(peers[p := stats], q, ip)
    {
      assert Has(was, ip, q) <==> Owns(peers, q, ip);
      assert Has(mid, ip, q) <==> Has(was, ip, q) || (q == p && ip in newips && ip !in oldips);
    }
  }

  /** removeIPs for all of a peer's addresses: the index forgets the peer. */
  method Forget(was: Index, p: Peer, ghost peers: map<Peer, PeerStats>, ips: seq<IP>) returns (idx: Index)
    requires Agrees(was, peers) && p in peers && ips == peers[p].ips
    ensures Agrees(idx, peers - {p})
  {
    idx := RemoveIPs(was, p, ips, []);
    forall ip, q
      ensures Has(idx, ip, q) <==> Owns(peers - {p}, q, ip)
    {
      assert Has(was, ip, q) <==> Owns(peers, q, ip);
    }
  }

  /** Changes that leave the addresses alone leave the index right. */
  lemma AgreesStill(idx: Index, peers: map<Peer, PeerStats>, peers': map<Peer, PeerStats>)
    requires Agrees(idx, peers) && peers'.Keys == peers.Keys && forall p :: p in peers ==> peers'[p].ips == peers[p].ips
    ensures Agrees(idx, peers')
  {
    forall ip, p
      ensures Has(idx, ip, p) <==> Owns(peers', p, ip)
    {
      assert Has(idx, ip, p) <==> Owns(peers, p, ip);
    }
  }

  /** One peer's statistics change, but not its addresses. */
  lemma AgreesUpdate(idx: Index, peers: map<Peer, PeerStats>, p: Peer, stats: PeerStats)
    requires Agrees(idx, peers) && p in peers && stats.ips == peers[p].ips
    ensures Agrees(idx, peers[p := stats])
  {
    AgreesStill(idx, peers, peers[p := stats]);
  }

  // ------------------------------------------------------------ loops over topics

  /** The loop of refreshScores over a peer's topics. */
  method RefreshTopics(stats: map<Topic, TopicStats>, topics: map<Topic, TopicScoreParams>, toZero: real, now: Time)
    returns (r: map<Topic, TopicStats>)
    ensures r == map t | t in stats :: if t in topics then Refreshed(stats[t], topics[t], toZero, now) else stats[t]
  {
    r := stats;
    var rest := stats.Keys;
    while rest != {}
      invariant rest <= stats.Keys && r.Keys == stats.Keys
      invariant forall t :: t in r ==>
                  r[t] == if t in topics && t !in rest then Refreshed(stats[t], topics[t], toZero, now) else stats[t]
      decreases rest
    {
      var t :| t in rest;
      rest := rest - {t};
      if t !in topics {
        continue;
      }
      var ts := RefreshStats(r[t], topics[t], toZero, now);
      r := r[t := ts];
    }
  }

  method DecayCounter(x: real, decay: real, toZero: real) returns (r: real)
    ensures r == Decayed(x, decay, toZero)
  {
    r := x * decay;
    if r < toZero {
      r := 0.0;
    }
  }

  method RefreshStats(stats: TopicStats, tp: TopicScoreParams, toZero: real, now: Time) returns (ts: TopicStats)
    ensures ts == Refreshed(stats, tp, toZero, now)
  {
    var first := DecayCounter(stats.first, tp.firstDecay, toZero);
    var mesh := DecayCounter(stats.mesh, tp.meshDecay, toZero);
    var failure := DecayCounter(stats.failure, tp.failureDecay, toZero);
    var invalid := DecayCounter(stats.invalid, tp.invalidDecay, toZero);
    ts := stats.(first := first, mesh := mesh, failure := failure, invalid := invalid);
    if ts.inMesh {
      ts := ts.(meshTime := now - ts.graftTime);
      if ts.meshTime > tp.meshActivation {
        ts := ts.(active := true);
      }
    }
  }

  /** The loop of OnClosedOutboundStream; every topic has parameters. */
  method CloseTopics(stats: map<Topic, TopicStats>, topics: map<Topic, TopicScoreParams>)
    returns (r: map<Topic, TopicStats>)
    requires stats.Keys <= topics.Keys
    ensures r == map t | t in stats :: if t in topics then Closed(stats[t], topics[t]) else stats[t]
  {
    r := stats;
    var rest := stats.Keys;
    while rest != {}
      invariant rest <= stats.Keys && r.Keys == stats.Keys
      invariant forall t :: t in r ==> r[t] == if t in rest then stats[t] else Closed(stats[t], topics[t])
      decreases rest
    {
      var t :| t in rest;
      rest := rest - {t};
      var ts := r[t].(first := 0.0);
      var threshold := topics[t].meshThreshold;
      if ts.inMesh && ts.active && ts.mesh < threshold {
        var deficit := threshold - ts.mesh;
        ts := ts.(failure := ts.failure + deficit * deficit);
      }
      ts := ts.(inMesh := false);
      r := r[t := ts];
    }
  }

  method PruneTopic(stats: TopicStats, tp: TopicScoreParams) returns (ts: TopicStats)
    ensures ts == Pruned(stats, tp)
  {
    ts := stats;
    var threshold := tp.meshThreshold;
    if ts.active && ts.mesh < threshold {
      var deficit := threshold - ts.mesh;
      ts := ts.(failure := ts.failure + deficit * deficit);
    }
    ts := ts.(inMesh := false);
  }

  method ScoreTimeInMesh(ts: TopicStats, tp: TopicScoreParams) returns (score: real)
    requires Computable(ts, tp)
    ensures score == P1(ts, tp)
  {
    score := 0.0;
    if ts.inMesh {
      var p1 := Quotient(ts.meshTime, tp.timeInMeshQuantum) as real;
      if p1 > tp.timeInMeshCap {
        p1 := tp.timeInMeshCap;
      }
      score := p1 * tp.timeInMeshWeight;
    }
  }

  method ScoreMeshDeliveries(ts: TopicStats, tp: TopicScoreParams) returns (score: real)
    ensures score == P3(ts, tp)
  {
    score := 0.0;
    if ts.active {
      if ts.mesh < tp.meshThreshold {
        var deficit := tp.meshThreshold - ts.mesh;
        var p3 := deficit * deficit;
        score := p3 * tp.meshWeight;
      }
    }
  }

  /** One topic's part of score(). */
  method ScoreTopic(ts: TopicStats, tp: TopicScoreParams) returns (score: real)
    requires Computable(ts, tp)
    ensures score == TopicScore(ts, tp)
  {
    hide P1, P3;
    var p1 := ScoreTimeInMesh(ts, tp);
    score := p1;
    score := score + ts.first * tp.firstWeight;
    var p3 := ScoreMeshDeliveries(ts, tp);
    score := score + p3;
    score := score + ts.failure * tp.failureWeight;
    var p4 := ts.invalid * ts.invalid;
    score := score + p4 * tp.invalidWeight;
  }

  method ScoreTopics(stats: PeerStats, topics: map<Topic, TopicScoreParams>) returns (score: real)
    requires forall t :: t in stats.topics && t in topics ==> Computable(stats.topics[t], topics[t])
    ensures score == Sum(stats.topics.Keys, Term(topics, stats))
  {
    hide TopicScore;
    score := 0.0;
    ghost var f, done := Term(topics, stats), {};
    var rest := stats.topics.Keys;
    while rest != {}
      invariant done + rest == stats.topics.Keys && done !! rest
      invariant score == Sum(done, f)
      decreases rest
    {
      var t :| t in rest;
      rest := rest - {t};
      SumOut(done + {t}, f, t);
      assert done + {t} - {t} == done;
      done := done + {t};
      if t !in topics {
        continue;
      }
      var topicScore := ScoreTopic(stats.topics[t], topics[t]);
      score := score + topicScore * topics[t].topicWeight;
    }
    assert done == stats.topics.Keys;
  }

  method SurplusOf(peersInIP: nat, threshold: int) returns (r: real)
    ensures r == Surplus(peersInIP, threshold)
  {
    r := 0.0;
    if peersInIP > threshold {
      var surplus := (peersInIP - threshold) as real;
      r := surplus * surplus;
    }
  }

  // ------------------------------------------------------------ the table

  class PeerScoreTable {
    const g: ScoreParams
    const hasWhitelist: bool
    var topics: map<Topic, TopicScoreParams>
    var peerStats: map<Peer, PeerStats>
    var peerIPs: Index
    var ipWhitelist: map<Peer, map<IP, bool>>
    ghost var clock: Time

    constructor (g: ScoreParams, hasWhitelist: bool, topics: map<Topic, TopicScoreParams>, ghost now: Time)
      requires g.Valid() && (forall t :: ParamsOk(topics, t)) && (!hasWhitelist ==> forall ip :: !g.whitelisted(ip))
      ensures Valid() && Abs() == State(topics, map[], now)
    {
      this.g, this.hasWhitelist, this.topics := g, hasWhitelist, topics;
      peerStats, peerIPs, ipWhitelist := map[], map[], map[];
      clock := now;
    }

    ghost predicate Valid()
      reads this
    {
      && g.Valid() && Inv(Abs()) && Agrees(peerIPs, peerStats)
      && (!hasWhitelist ==> forall ip :: !g.whitelisted(ip))
      && CacheOk()
    }

    /** Whatever is cached is what the whitelist says. */
    ghost predicate CacheOk()
      reads this
    {
      forall p, ip :: p in ipWhitelist && ip in ipWhitelist[p] ==> ipWhitelist[p][ip] == g.whitelisted(ip)
    }

    ghost function Abs(): State
      reads this
    {
      State(topics, peerStats, clock)
    }

    /** The direct count of tracked peers per address, from the index. */
    method IPColocationFactor(p: Peer) returns (result: real)
      requires Valid()
      modifies this`ipWhitelist
      ensures CacheOk()
      ensures result == if p in peerStats then P6(Abs(), g, p) else 0.0
    {
      hide Surplus, Inv;
      result := 0.0;
      if p !in peerStats {
        return;
      }
      var ips := peerStats[p].ips;
      for i := 0 to |ips|
        invariant CacheOk()
        invariant result == Colocation(ips[..i], CountIn(peerStats), g.whitelisted, g.ipThreshold)
      {
        assert ips[..i + 1][..i] == ips[..i];
        var white := IsWhitelisted(p, ips[i]);
        if white {
          continue;
        }
        CountAgrees(peerIPs, peerStats, ips[i]);
        var peersInIP := if ips[i] in peerIPs then |peerIPs[ips[i]]| else 0;
        var surplus := SurplusOf(peersInIP, g.ipThreshold);
        result := result + surplus;
      }
      assert ips[..|ips|] == ips;
    }

    method IsWhitelisted(p: Peer, ip: IP) returns (white: bool)
      requires CacheOk() && (!hasWhitelist ==> forall x :: !g.whitelisted(x))
      modifies this`ipWhitelist
      ensures CacheOk() && white == g.whitelisted(ip)
    {
      if !hasWhitelist {
        return false;
      }
      var cache := if p in ipWhitelist then ipWhitelist[p] else map[];
      if ip !in cache {
        ipWhitelist := ipWhitelist[p := cache[ip := g.whitelisted(ip)]];
        return g.whitelisted(ip);
      }
      return cache[ip];
    }

    lemma OnlyScoredTopics(p: Peer)
      requires Inv(Abs()) && p in peerStats
      ensures peerStats[p].topics.Keys <= topics.Keys
    {
      forall t | t in peerStats[p].topics
        ensures t in topics
      {
        assert PeerOk(Abs(), p, t);
      }
    }

    method ComputeScore(p: Peer) returns (score: real)
      requires Valid() && Scorable(Abs(), p)
      modifies this`ipWhitelist
      ensures CacheOk() && score == ScoreOf(Abs(), g, p)
    {
      hide Sum, Term, P6, P7;
      score := 0.0;
      if p !in peerStats {
        return;
      }
      score := ScoreTopics(peerStats[p], topics);
      var p6 := IPColocationFactor(p);
      score := AddTerms(score, p, p6, peerStats[p]);
    }

    /** The cap, and the terms that are not per topic. */
    method AddTerms(sum: real, p: Peer, p6: real, stats: PeerStats) returns (score: real)
      ensures score == Total(sum, g.topicScoreCap, g.app(p) * g.appWeight, p6 * g.ipWeight,
                             P7(stats, g) * g.behaviourWeight)
    {
      score := sum;
      if g.topicScoreCap > 0.0 && score > g.topicScoreCap {
        score := g.topicScoreCap;
      }
      score := score + g.app(p) * g.appWeight;
      score := score + p6 * g.ipWeight;
      if stats.behaviour > g.behaviourThreshold {
        var excess := stats.behaviour - g.behaviourThreshold;
        var p7 := excess * excess;
        score := score + p7 * g.behaviourWeight;
      }
    }

    // ------------------------------------------------------------ streams

    method OnNewOutboundStream(p: Peer, ips: seq<IP>)
      requires Valid()
      modifies this`peerStats, this`peerIPs
      ensures Valid() && Abs() == OnNewStream(old(Abs()), p, ips)
    {
      NewStreamInv(Abs(), p, ips);
      var stats := if p in peerStats then peerStats[p] else PeerStats(false, 0, map[], [], 0.0);
      var old_ := stats.ips;
      stats := stats.(connected := true, ips := ips);
      peerIPs := SetIPs(peerIPs, p, ips, old_, peerStats, stats);
      peerStats := peerStats[p := stats];
    }

    method OnClosedOutboundStream(p: Peer, now: Time)
      requires Valid() && clock <= now && Scorable(Abs(), p)
      modifies this
      ensures Valid() && Abs() == OnClosedStream(old(Abs()), g, p, now)
    {
      hide ScoreOf;
      ClosedStreamInv(Abs(), g, p, now);
      if p !in peerStats {
        clock := now;
        return;
      }
      OnlyScoredTopics(p);
      var score := ComputeScore(p);
      if score > 0.0 {
        peerIPs := Forget(peerIPs, p, peerStats, peerStats[p].ips);
        peerStats := peerStats - {p};
      } else {
        var closed := CloseTopics(peerStats[p].topics, topics);
        var stats := peerStats[p].(topics := closed, connected := false, expire := now + g.retain);
        AgreesUpdate(peerIPs, peerStats, p, stats);
        peerStats := peerStats[p := stats];
      }
      clock := now;
    }

    // ------------------------------------------------------------ counters

    method SetStats(p: Peer, t: Topic, ts: TopicStats)
      requires p in peerStats && Agrees(peerIPs, peerStats)
      modifies this`peerStats
      ensures Abs() == With(old(Abs()), p, t, ts) && Agrees(peerIPs, peerStats)
    {
      var stats := peerStats[p].(topics := peerStats[p].topics[t := ts]);
      AgreesUpdate(peerIPs, peerStats, p, stats);
      peerStats := peerStats[p := stats];
    }

    /** getTopicStats: nothing if the topic is not scored. */
    method GetTopicStats(p: Peer, t: Topic) returns (ts: TopicStats, ok: bool)
      requires Valid() && p in peerStats
      ensures ok <==> t in topics
      ensures ok ==> ts == StatsIn(Abs(), p, t)
    {
      OnlyScoredTopics(p);
      if t in peerStats[p].topics {
        return peerStats[p].topics[t], true;
      }
      if t !in topics {
        return FRESH, false;
      }
      return FRESH, true;
    }

    method Graft(p: Peer, t: Topic, now: Time)
      requires Valid() && clock <= now
      modifies this`peerStats, this`clock
      ensures Valid() && Abs() == OnGraft(old(Abs()), p, t, now)
    {
      GraftInv(Abs(), p, t, now);
      if p in peerStats {
        var ts, ok := GetTopicStats(p, t);
        if ok {
          SetStats(p, t, ts.(inMesh := true, graftTime := now, meshTime := 0, active := false));
        }
      }
      clock := now;
    }

    method Prune(p: Peer, t: Topic)
      requires Valid()
      modifies this`peerStats
      ensures Valid() && Abs() == OnPrune(old(Abs()), p, t)
    {
      CountInv(Abs(), p, t, 0);
      if p in peerStats {
        var ts, ok := GetTopicStats(p, t);
        if ok {
          ts := PruneTopic(ts, topics[t]);
          SetStats(p, t, ts);
        }
      }
    }

    method MarkFirstMessageDelivery(p: Peer, t: Topic)
      requires Valid()
      modifies this`peerStats
      ensures Valid() && Abs() == OnFirst(old(Abs()), p, t)
    {
      CountInv(Abs(), p, t, 0);
      if p in peerStats {
        var ts, ok := GetTopicStats(p, t);
        if ok {
          ts := ts.(first := ts.first + 1.0);
          if ts.first > topics[t].firstCap {
            ts := ts.(first := topics[t].firstCap);
          }
          if ts.inMesh {
            ts := ts.(mesh := ts.mesh + 1.0);
            if ts.mesh > topics[t].meshCap {
              ts := ts.(mesh := topics[t].meshCap);
            }
          }
          SetStats(p, t, ts);
        }
      }
    }

    /** `since` is the time since the message was validated; it is negative for a
        message that came before that, which the window always admits. */
    method MarkDuplicateMessageDelivery(p: Peer, t: Topic, since: Duration)
      requires Valid()
      modifies this`peerStats
      ensures Valid() && Abs() == OnDuplicate(old(Abs()), p, t, since)
    {
      CountInv(Abs(), p, t, since);
      if p in peerStats {
        var ts, ok := GetTopicStats(p, t);
        if ok {
          if ts.inMesh && since <= topics[t].meshWindow {
            ts := ts.(mesh := ts.mesh + 1.0);
            if ts.mesh > topics[t].meshCap {
              ts := ts.(mesh := topics[t].meshCap);
            }
          }
          SetStats(p, t, ts);
        }
      }
    }

    method MarkInvalidMessageDelivery(p: Peer, t: Topic)
      requires Valid()
      modifies this`peerStats
      ensures Valid() && Abs() == OnInvalid(old(Abs()), p, t)
    {
      CountInv(Abs(), p, t, 0);
      if p in peerStats {
        var ts, ok := GetTopicStats(p, t);
        if ok {
          SetStats(p, t, ts.(invalid := ts.invalid + 1.0));
        }
      }
    }

    method AddPenalty(p: Peer, count: nat)
      requires Valid()
      modifies this`peerStats
      ensures Valid() && Abs() == OnPenalty(old(Abs()), p, count)
    {
      PenaltyInv(Abs(), p, count);
      if p in peerStats {
        var stats := peerStats[p].(behaviour := peerStats[p].behaviour + count as real);
        AgreesUpdate(peerIPs, peerStats, p, stats);
        peerStats := peerStats[p := stats];
      }
    }

    // ------------------------------------------------------------ background work

    /** Purges what has expired and decays the rest. */
    method RefreshScores(now: Time)
      requires Valid() && clock <= now
      modifies this`peerStats, this`peerIPs, this`clock
      ensures Valid() && Abs() == OnRefresh(old(Abs()), g, now)
    {
      RefreshInv(Abs(), g, now);
      ghost var start := peerStats;
      var rest := peerStats.Keys;
      while rest != {}
        invariant rest <= start.Keys && Agrees(peerIPs, peerStats)
        invariant forall p :: p in peerStats <==> p in start && (p in rest || !Expired(start[p], now))
        invariant forall p :: p in peerStats ==>
                    peerStats[p] == if p in rest then start[p] else RefreshedStats(topics, g, start[p], now)
        decreases rest
      {
        var p :| p in rest;
        rest := rest - {p};
        RefreshPeer(p, now);
      }
      clock := now;
      assert peerStats == OnRefresh(old(Abs()), g, now).peers;
    }

    method RefreshPeer(p: Peer, now: Time)
      requires p in peerStats && Agrees(peerIPs, peerStats)
      modifies this`peerStats, this`peerIPs
      ensures Agrees(peerIPs, peerStats)
      ensures peerStats == if Expired(old(peerStats)[p], now) then old(peerStats) - {p}
                           else old(peerStats)[p := RefreshedStats(topics, g, old(peerStats)[p], now)]
    {
      var stats := peerStats[p];
      if !stats.connected {
        if stats.expire < now {
          peerIPs := Forget(peerIPs, p, peerStats, stats.ips);
          peerStats := peerStats - {p};
        } else {
          assert peerStats == peerStats[p := stats];
        }
        return;
      }
      var refreshed := RefreshTopics(stats.topics, topics, g.decayToZero, now);
      var behaviour := DecayCounter(stats.behaviour, g.behaviourDecay, g.decayToZero);
      stats := stats.(topics := refreshed, behaviour := behaviour);
      AgreesUpdate(peerIPs, peerStats, p, stats);
      peerStats := peerStats[p := stats];
    }

    method RefreshIPs(current: Peer -> seq<IP>)
      requires Valid()
      modifies this`peerStats, this`peerIPs
      ensures Valid() && Abs() == OnRefreshIPs(old(Abs()), current)
    {
      RefreshIPsInv(Abs(), current);
      ghost var start := peerStats;
      var rest := peerStats.Keys;
      while rest != {}
        invariant rest <= start.Keys && Agrees(peerIPs, peerStats) && peerStats.Keys == start.Keys
        invariant forall p :: p in start ==>
                    peerStats[p] == if p in rest || !start[p].connected then start[p] else start[p].(ips := current(p))
        decreases rest
      {
        var p :| p in rest;
        rest := rest - {p};
        if peerStats[p].connected {
          var ips := current(p);
          var stats := peerStats[p].(ips := ips);
          peerIPs := SetIPs(peerIPs, p, ips, peerStats[p].ips, peerStats, stats);
          peerStats := peerStats[p := stats];
        }
      }
      assert peerStats == OnRefreshIPs(old(Abs()), current).peers;
    }

    /** New parameters for a topic; counters are recapped if a cap is lowered. */
    method SetTopicScoreParams(t: Topic, tp: TopicScoreParams)
      requires Valid() && tp.Valid() && tp.Sane()
      modifies this`peerStats, this`topics
      ensures Valid() && Abs() == OnSetParams(old(Abs()), t, tp)
    {
      SetParamsInv(Abs(), t, tp);
      var recap := false;
      if t in topics {
        if tp.firstCap < topics[t].firstCap {
          recap := true;
        }
        if tp.meshCap < topics[t].meshCap {
          recap := true;
        }
      }
      topics := topics[t := tp];
      if recap {
        var capped := Recap(peerStats, t, tp);
        AgreesStill(peerIPs, peerStats, capped);
        peerStats := capped;
      }
    }

    static method Recap(stats: map<Peer, PeerStats>, t: Topic, tp: TopicScoreParams) returns (r: map<Peer, PeerStats>)
      ensures r == map p | p in stats :: RecappedStats(stats[p], t, tp)
    {
      r := stats;
      var rest := stats.Keys;
      while rest != {}
        invariant rest <= stats.Keys && r.Keys == stats.Keys
        invariant forall p :: p in r ==> r[p] == if p in rest then stats[p] else RecappedStats(stats[p], t, tp)
        decreases rest
      {
        var p :| p in rest;
        rest := rest - {p};
        if t !in r[p].topics {
          continue;
        }
        var ts := r[p].topics[t];
        if ts.first > tp.firstCap {
          ts := ts.(first := tp.firstCap);
        }
        if ts.mesh > tp.meshCap {
          ts := ts.(mesh := tp.meshCap);
        }
        r := r[p := r[p].(topics := r[p].topics[t := ts])];
      }
    }
  }
}
