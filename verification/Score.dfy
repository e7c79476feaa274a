/** Peer score: the counters of one peer in one topic, and the score they make.
    Counters and scores are real numbers; rounding is not modelled. */
module Score {
  import opened Ids

  datatype TopicScoreParams = TopicScoreParams(
    skipAtomicValidation: bool,
    topicWeight: real,
    timeInMeshWeight: real, timeInMeshQuantum: Duration, timeInMeshCap: real,
    firstWeight: real, firstDecay: real, firstCap: real,
    meshWeight: real, meshDecay: real, meshCap: real, meshThreshold: real, meshWindow: Duration,
    meshActivation: Duration,
    failureWeight: real, failureDecay: real,
    invalidWeight: real, invalidDecay: real)
  {
    predicate ValidTimeInMesh() {
      || (skipAtomicValidation && timeInMeshWeight == 0.0 && timeInMeshQuantum == 0 && timeInMeshCap == 0.0)
      || ( && timeInMeshQuantum != 0 && timeInMeshWeight >= 0.0
           && (timeInMeshWeight != 0.0 ==> timeInMeshQuantum > 0 && timeInMeshCap > 0.0))
    }

    predicate ValidFirst() {
      || (skipAtomicValidation && firstWeight == 0.0 && firstCap == 0.0 && firstDecay == 0.0)
      || (firstWeight >= 0.0 && (firstWeight != 0.0 ==> 0.0 < firstDecay < 1.0 && firstCap > 0.0))
    }

    predicate ValidMesh() {
      || ( && skipAtomicValidation && meshWeight == 0.0 && meshCap == 0.0 && meshDecay == 0.0
           && meshThreshold == 0.0 && meshWindow == 0 && meshActivation == 0)
      || ( && meshWeight <= 0.0 && meshWindow >= 0
           && (meshWeight != 0.0 ==>
                 0.0 < meshDecay < 1.0 && meshCap > 0.0 && meshThreshold > 0.0 && meshActivation >= SECOND))
    }

    predicate ValidFailure() {
      || (skipAtomicValidation && failureDecay == 0.0 && failureWeight == 0.0)
      || (failureWeight <= 0.0 && (failureWeight != 0.0 ==> 0.0 < failureDecay < 1.0))
    }

    predicate ValidInvalid() {
      || (skipAtomicValidation && invalidDecay == 0.0 && invalidWeight == 0.0)
      || (invalidWeight <= 0.0 && 0.0 < invalidDecay < 1.0)
    }

    predicate Valid() {
      topicWeight >= 0.0 && ValidTimeInMesh() && ValidFirst() && ValidMesh() && ValidFailure() && ValidInvalid()
    }

    /** What validation leaves open for parameters whose weight is zero. */
    predicate Sane() {
      && firstCap >= 0.0 && meshCap >= 0.0
      && 0.0 <= firstDecay <= 1.0 && 0.0 <= meshDecay <= 1.0 && 0.0 <= failureDecay <= 1.0 && 0.0 <= invalidDecay <= 1.0
    }

    /** score() divides by the quantum. */
    predicate Divides() { timeInMeshQuantum != 0 }
  }

  /** Parameters with nothing set but the topic's weight, as selective validation
      admits them. */
  const ONLY_WEIGHT :=
    TopicScoreParams(true, 1.0, 0.0, 0, 0.0, 0.0, 0.0, 0.0, 0.0, 0.0, 0.0, 0.0, 0, 0, 0.0, 0.0, 0.0, 0.0)

  /** Passing validation means a quantum that score() can divide by exactly in
      atomic mode. */
  lemma ValidationGuardsQuantumExactly(skip: bool)
    ensures (forall p: TopicScoreParams :: p.skipAtomicValidation == skip && p.Valid() ==> p.Divides()) <==> !skip
  {
    if skip {
      assert ONLY_WEIGHT.skipAtomicValidation == skip && ONLY_WEIGHT.Valid() && !ONLY_WEIGHT.Divides();
    }
  }

  datatype TopicStats = TopicStats(
    inMesh: bool, graftTime: Time, meshTime: Duration,
    first: real, mesh: real, active: bool, failure: real, invalid: real)

  const FRESH := TopicStats(false, 0, 0, 0.0, 0.0, false, 0.0, 0.0)

  // ------------------------------------------------------------ counters

  function Capped(x: real, cap: real): real { if x > cap then cap else x }

  function MarkFirst(ts: TopicStats, p: TopicScoreParams): TopicStats {
    var ts1 := ts.(first := Capped(ts.first + 1.0, p.firstCap));
    if ts.inMesh then ts1.(mesh := Capped(ts.mesh + 1.0, p.meshCap)) else ts1
  }

  /** `since` is the time since validation, or negative if the message came first. */
  function MarkDuplicate(ts: TopicStats, p: TopicScoreParams, since: Duration): TopicStats {
    if !ts.inMesh || since > p.meshWindow then ts else ts.(mesh := Capped(ts.mesh + 1.0, p.meshCap))
  }

  function MarkInvalid(ts: TopicStats): TopicStats { ts.(invalid := ts.invalid + 1.0) }

  function Grafted(ts: TopicStats, now: Time): TopicStats {
    ts.(inMesh := true, graftTime := now, meshTime := 0, active := false)
  }

  function Deficit(ts: TopicStats, p: TopicScoreParams): real {
    if ts.active && ts.mesh < p.meshThreshold then (p.meshThreshold - ts.mesh) * (p.meshThreshold - ts.mesh) else 0.0
  }

  function Pruned(ts: TopicStats, p: TopicScoreParams): TopicStats {
    ts.(failure := ts.failure + Deficit(ts, p), inMesh := false)
  }

  function Closed(ts: TopicStats, p: TopicScoreParams): TopicStats {
    ts.(first := 0.0, failure := if ts.inMesh then ts.failure + Deficit(ts, p) else ts.failure, inMesh := false)
  }

  function Decayed(x: real, decay: real, toZero: real): real { if x * decay < toZero then 0.0 else x * decay }

  function Refreshed(ts: TopicStats, p: TopicScoreParams, toZero: real, now: Time): TopicStats {
    var meshTime := if ts.inMesh then now - ts.graftTime else ts.meshTime;
    ts.(first := Decayed(ts.first, p.firstDecay, toZero), mesh := Decayed(ts.mesh, p.meshDecay, toZero),
        failure := Decayed(ts.failure, p.failureDecay, toZero), invalid := Decayed(ts.invalid, p.invalidDecay, toZero),
        meshTime := meshTime, active := ts.active || (ts.inMesh && meshTime > p.meshActivation))
  }

  function Recapped(ts: TopicStats, p: TopicScoreParams): TopicStats {
    ts.(first := Capped(ts.first, p.firstCap), mesh := Capped(ts.mesh, p.meshCap))
  }

  /** Every counter is between zero and its cap. */
  predicate Bounded(ts: TopicStats, p: TopicScoreParams, clock: Time) {
    && 0.0 <= ts.first <= p.firstCap && 0.0 <= ts.mesh <= p.meshCap && 0.0 <= ts.failure && 0.0 <= ts.invalid
    && ts.meshTime >= 0 && (ts.inMesh ==> ts.graftTime <= clock)
  }

  lemma DecayedBounds(x: real, decay: real, toZero: real, cap: real)
    requires 0.0 <= x <= cap && 0.0 <= decay <= 1.0
    ensures 0.0 <= Decayed(x, decay, toZero) <= cap
  {
    assert 0.0 <= x * decay;
    assert x * decay <= x * 1.0;
  }

  lemma MarksBounded(ts: TopicStats, p: TopicScoreParams, clock: Time, since: Duration)
    requires Bounded(ts, p, clock) && p.Sane()
    ensures Bounded(MarkFirst(ts, p), p, clock) && Bounded(MarkDuplicate(ts, p, since), p, clock)
    ensures Bounded(MarkInvalid(ts), p, clock)
  {
  }

  lemma DeficitNonNegative(ts: TopicStats, p: TopicScoreParams)
    ensures Deficit(ts, p) >= 0.0
  {
    Square(p.meshThreshold - ts.mesh);
  }

  lemma Square(x: real)
    ensures x * x >= 0.0
  {
    if x < 0.0 {
      assert x * x == (-x) * (-x);
    }
  }

  lemma MeshChangesBounded(ts: TopicStats, p: TopicScoreParams, clock: Time, now: Time)
    requires Bounded(ts, p, clock) && p.Sane() && clock <= now
    ensures Bounded(Grafted(ts, now), p, now) && Bounded(Pruned(ts, p), p, clock) && Bounded(Closed(ts, p), p, clock)
  {
    DeficitNonNegative(ts, p);
  }

  lemma RefreshedBounded(ts: TopicStats, p: TopicScoreParams, toZero: real, clock: Time, now: Time)
    requires Bounded(ts, p, clock) && p.Sane() && clock <= now
    ensures Bounded(Refreshed(ts, p, toZero, now), p, now)
  {
    DecayedBounds(ts.first, p.firstDecay, toZero, p.firstCap);
    DecayedBounds(ts.mesh, p.meshDecay, toZero, p.meshCap);
    DecayedBounds(ts.failure, p.failureDecay, toZero, ts.failure);
    DecayedBounds(ts.invalid, p.invalidDecay, toZero, ts.invalid);
  }

  /** Lowering a cap lowers the counters; raising one changes nothing. */
  lemma RecappedBounded(ts: TopicStats, was: TopicScoreParams, p: TopicScoreParams, clock: Time)
    requires Bounded(ts, was, clock) && p.Sane()
    ensures Bounded(Recapped(ts, p), p, clock)
    ensures p.firstCap >= was.firstCap && p.meshCap >= was.meshCap ==> Recapped(ts, p) == ts
  {
  }

  // ------------------------------------------------------------ one topic's score

  /** Go's integer division truncates towards zero. */
  function Quotient(a: int, b: int): int
    requires b != 0
  {
    if (a >= 0) == (b > 0) then Div(Abs(a), Abs(b)) else -Div(Abs(a), Abs(b))
  }

  function Div(a: nat, b: nat): (q: int)
    requires b > 0
  {
    a / b
  }

  lemma DivNonNegative(a: nat, b: nat)
    requires b > 0
    ensures Div(a, b) >= 0
  {
    var q := a / b;
    assert a == b * q + a % b;
    NonPositiveProduct(b, q + 1);
    assert b * (q + 1) == b * q + b;
  }

  lemma NonPositiveProduct(b: nat, x: int)
    ensures x <= 0 ==> b * x <= 0
  {
  }

  function Abs(x: int): (r: nat)
    ensures x != 0 ==> r > 0
  {
    if x < 0 then -x else x
  }

  function P1(ts: TopicStats, p: TopicScoreParams): real
    requires ts.inMesh ==> p.Divides()
  {
    if ts.inMesh
    then Capped(Quotient(ts.meshTime, p.timeInMeshQuantum) as real, p.timeInMeshCap) * p.timeInMeshWeight
    else 0.0
  }

  function P3(ts: TopicStats, p: TopicScoreParams): real { Deficit(ts, p) * p.meshWeight }

  function TopicScore(ts: TopicStats, p: TopicScoreParams): real
    requires ts.inMesh ==> p.Divides()
  {
    P1(ts, p) + ts.first * p.firstWeight + P3(ts, p) + ts.failure * p.failureWeight
    + ts.invalid * ts.invalid * p.invalidWeight
  }

  /** The most a topic can contribute: capped time in mesh and first deliveries. */
  function TopicBound(p: TopicScoreParams): real {
    (p.timeInMeshCap * p.timeInMeshWeight + p.firstCap * p.firstWeight) * p.topicWeight
  }

  lemma NonPositive(a: real, w: real)
    requires a >= 0.0 && w <= 0.0
    ensures a * w <= 0.0
  {
  }

  lemma Monotone(a: real, b: real, w: real)
    requires a <= b && w >= 0.0
    ensures a * w <= b * w
  {
  }

  lemma Antitone(a: real, b: real, w: real)
    requires a <= b && w <= 0.0
    ensures a * w >= b * w
  {
  }

  lemma CappedTerm(q: real, cap: real, w: real)
    requires q >= 0.0 && w >= 0.0 && (w != 0.0 ==> cap > 0.0)
    ensures 0.0 <= Capped(q, cap) * w <= cap * w && 0.0 <= cap * w
  {
    if w != 0.0 {
      Monotone(0.0, Capped(q, cap), w);
      Monotone(Capped(q, cap), cap, w);
    }
  }

  lemma QuotientNonNegative(a: int, b: int)
    requires a >= 0 && b > 0
    ensures Quotient(a, b) >= 0
  {
    DivNonNegative(a, b);
  }

  lemma ZeroWeight(x: real, w: real)
    requires w == 0.0
    ensures x * w == 0.0
  {
  }

  lemma P1Bounds(ts: TopicStats, p: TopicScoreParams)
    requires p.Valid() && ts.meshTime >= 0 && (ts.inMesh ==> p.Divides())
    ensures 0.0 <= P1(ts, p) <= p.timeInMeshCap * p.timeInMeshWeight
  {
    if p.timeInMeshWeight == 0.0 {
      ZeroWeight(p.timeInMeshCap, p.timeInMeshWeight);
      if ts.inMesh {
        ZeroWeight(Capped(Quotient(ts.meshTime, p.timeInMeshQuantum) as real, p.timeInMeshCap), p.timeInMeshWeight);
      }
    } else if ts.inMesh {
      QuotientNonNegative(ts.meshTime, p.timeInMeshQuantum);
      CappedTerm(Quotient(ts.meshTime, p.timeInMeshQuantum) as real, p.timeInMeshCap, p.timeInMeshWeight);
    } else {
      CappedTerm(0.0, p.timeInMeshCap, p.timeInMeshWeight);
    }
  }

  lemma TopicScoreBound(ts: TopicStats, p: TopicScoreParams, clock: Time)
    requires p.Valid() && Bounded(ts, p, clock) && (ts.inMesh ==> p.Divides())
    ensures TopicScore(ts, p) * p.topicWeight <= TopicBound(p)
  {
    P1Bounds(ts, p);
    Monotone(ts.first, p.firstCap, p.firstWeight);
    DeficitNonNegative(ts, p);
    NonPositive(Deficit(ts, p), p.meshWeight);
    NonPositive(ts.failure, p.failureWeight);
    Square(ts.invalid);
    NonPositive(ts.invalid * ts.invalid, p.invalidWeight);
    Monotone(TopicScore(ts, p), p.timeInMeshCap * p.timeInMeshWeight + p.firstCap * p.firstWeight, p.topicWeight);
  }

  /** Closing the stream: time in mesh and first deliveries are lost, the failure
      penalty grows, and nothing else changes. */
  lemma ClosedLowers(ts: TopicStats, p: TopicScoreParams, clock: Time)
    requires p.Valid() && Bounded(ts, p, clock) && (ts.inMesh ==> p.Divides())
    ensures TopicScore(Closed(ts, p), p) * p.topicWeight <= TopicScore(ts, p) * p.topicWeight
  {
    var c := Closed(ts, p);
    P1Bounds(ts, p);
    Monotone(0.0, ts.first, p.firstWeight);
    DeficitNonNegative(ts, p);
    Antitone(ts.failure, c.failure, p.failureWeight);
    Monotone(TopicScore(c, p), TopicScore(ts, p), p.topicWeight);
  }

  // ------------------------------------------------------------ sums over topics

  ghost function Sum(ts: set<Topic>, f: Topic -> real): real {
    if ts == {} then 0.0 else var t :| t in ts; f(t) + Sum(ts - {t}, f)
  }

  /** It does not matter in which order the topics are visited. */
  lemma {:induction false} SumOut(ts: set<Topic>, f: Topic -> real, t: Topic)
    requires t in ts
    ensures Sum(ts, f) == f(t) + Sum(ts - {t}, f)
  {
    var u :| u in ts && Sum(ts, f) == f(u) + Sum(ts - {u}, f);
    if u != t {
      SumOut(ts - {u}, f, t);
      SumOut(ts - {t}, f, u);
      assert ts - {u} - {t} == ts - {t} - {u};
    }
  }

  lemma {:induction false} SumMonotone(ts: set<Topic>, f: Topic -> real, g: Topic -> real)
    requires forall t :: t in ts ==> f(t) <= g(t)
    ensures Sum(ts, f) <= Sum(ts, g)
  {
    if ts != {} {
      var t :| t in ts;
      SumOut(ts, f, t);
      SumOut(ts, g, t);
      SumMonotone(ts - {t}, f, g);
    }
  }
}
