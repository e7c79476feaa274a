/** Group states of the partial messages extension, for one topic: how many a peer
    may initiate, and how long they live. */
module PartialGroups {
  import opened Basics
  import opened Ids

  datatype GroupId = GroupId(n: nat)

  /** `peers` are the peers with state in the group; `initiatedBy` is None once we
      have published in it ourselves. */
  datatype Group = Group(peers: set<Peer>, ttl: int, initiatedBy: Option<Peer>)

  datatype Limits = Limits(total: int, perPeer: int, ttl: int)

  datatype State = State(groups: map<GroupId, Group>, perPeer: map<Peer, nat>)

  const MIN_GROUP_TTL := 3

  function GroupTTL(limits: Limits): int { if limits.ttl > MIN_GROUP_TTL then limits.ttl else MIN_GROUP_TTL }

  // ------------------------------------------------------------ sums

  ghost function Sum(m: map<Peer, nat>): nat {
    if m == map[] then 0 else var p :| p in m; m[p] + Sum(m - {p})
  }

  lemma {:induction false} SumOut(m: map<Peer, nat>, p: Peer)
    requires p in m
    ensures Sum(m) == m[p] + Sum(m - {p})
    decreases |m|
  {
    var q :| q in m && Sum(m) == m[q] + Sum(m - {q});
    if q != p {
      SumOut(m - {q}, p);
      SumOut(m - {p}, q);
      assert m - {q} - {p} == m - {p} - {q};
    }
  }

  function Count(m: map<Peer, nat>, p: Peer): nat { if p in m then m[p] else 0 }

  /** Setting one count, where zero means no entry. */
  function WithCount(m: map<Peer, nat>, p: Peer, n: nat): map<Peer, nat> { if n == 0 then m - {p} else m[p := n] }

  lemma SumWithCount(m: map<Peer, nat>, p: Peer, n: nat)
    ensures Sum(WithCount(m, p, n)) == Sum(m) - Count(m, p) + n
    ensures Count(WithCount(m, p, n), p) == n
  {
    var m' := WithCount(m, p, n);
    assert m' - {p} == m - {p};
    if p in m {
      SumOut(m, p);
    } else {
      assert m - {p} == m;
    }
    if p in m' {
      SumOut(m', p);
    } else {
      assert m' - {p} == m';
    }
  }

  // ------------------------------------------------------------ the handlers

  function Initiated(groups: map<GroupId, Group>, p: Peer): set<GroupId> {
    set g | g in groups && groups[g].initiatedBy == Some(p)
  }

  predicate Admits(s: State, p: Peer, limits: Limits, total: nat) {
    total < limits.total && Count(s.perPeer, p) < limits.perPeer
  }

  /** An RPC of a peer about a group; `peers` is who has state in it afterwards. */
  ghost function OnRPC(s: State, g: GroupId, from: Peer, peers: set<Peer>, limits: Limits): State {
    if g in s.groups then s.(groups := s.groups[g := s.groups[g].(peers := peers)])
    else if !Admits(s, from, limits, Sum(s.perPeer)) then s
    else State(s.groups[g := Group(peers, GroupTTL(limits), Some(from))],
               WithCount(s.perPeer, from, Count(s.perPeer, from) + 1))
  }

  function Released(m: map<Peer, nat>, who: Option<Peer>): map<Peer, nat> {
    if who.None? || who.value !in m || m[who.value] == 0 then m else WithCount(m, who.value, m[who.value] - 1)
  }

  /** Publishing makes the group ours. */
  function OnPublish(s: State, g: GroupId, peers: set<Peer>, limits: Limits): State {
    State(s.groups[g := Group(peers, GroupTTL(limits), None)],
          Released(s.perPeer, if g in s.groups then s.groups[g].initiatedBy else None))
  }

  function OnClose(s: State, p: Peer): State {
    State(map g | g in s.groups :: s.groups[g].(peers := s.groups[g].peers - {p}), s.perPeer - {p})
  }

  predicate Dead(g: Group) { g.ttl == 0 || g.peers == {} }

  function Buried(groups: map<GroupId, Group>, p: Peer): set<GroupId> {
    set g | g in groups && groups[g].initiatedBy == Some(p) && Dead(groups[g])
  }

  function Monus(a: nat, b: nat): nat { if a > b then a - b else 0 }

  function AfterBurials(groups: map<GroupId, Group>, perPeer: map<Peer, nat>): map<Peer, nat> {
    map p | p in perPeer && perPeer[p] > |Buried(groups, p)| :: perPeer[p] - |Buried(groups, p)|
  }

  function OnBeat(s: State): State {
    State(map g | g in s.groups && !Dead(s.groups[g]) :: s.groups[g].(ttl := s.groups[g].ttl - 1),
          AfterBurials(s.groups, s.perPeer))
  }

  /** Gossip adds peers to the groups that are ours. */
  function OnGossip(s: State, peers: set<Peer>): State {
    s.(groups := map g | g in s.groups ::
         if s.groups[g].initiatedBy.None? then s.groups[g].(peers := s.groups[g].peers + peers) else s.groups[g])
  }

  // ------------------------------------------------------------ the invariant

  predicate CountOk(s: State, p: Peer, limits: Limits) {
    && Count(s.perPeer, p) <= |Initiated(s.groups, p)|
    && (p in s.perPeer ==> 1 <= s.perPeer[p] <= limits.perPeer)
  }

  /** A peer's count never exceeds its live groups nor its limit, and all counts
      together never exceed the total limit. */
  ghost predicate Inv(s: State, limits: Limits) {
    && (forall p :: CountOk(s, p, limits))
    && Sum(s.perPeer) <= if limits.total > 0 then limits.total else 0
  }

  /** The count is exact. */
  predicate Exact(s: State, p: Peer) { Count(s.perPeer, p) == |Initiated(s.groups, p)| }

  lemma InitiatedAfterSet(groups: map<GroupId, Group>, g: GroupId, group: Group, p: Peer)
    ensures var now := if group.initiatedBy == Some(p) then 1 else 0;
            var was := if g in groups && groups[g].initiatedBy == Some(p) then 1 else 0;
            |Initiated(groups[g := group], p)| == |Initiated(groups, p)| + now - was
  {
    var a, b := Initiated(groups, p), Initiated(groups[g := group], p);
    assert b == (if group.initiatedBy == Some(p) then a + {g} else a - {g});
  }

  lemma RPCKeeps(s: State, g: GroupId, from: Peer, peers: set<Peer>, limits: Limits)
    requires Inv(s, limits)
    ensures Inv(OnRPC(s, g, from, peers, limits), limits)
    ensures forall p :: Exact(s, p) ==> Exact(OnRPC(s, g, from, peers, limits), p)
  {
    var s' := OnRPC(s, g, from, peers, limits);
    SumWithCount(s.perPeer, from, Count(s.perPeer, from) + 1);
    forall p
      ensures CountOk(s', p, limits) && (Exact(s, p) ==> Exact(s', p))
    {
      assert CountOk(s, p, limits);
      if g in s.groups {
        InitiatedAfterSet(s.groups, g, s.groups[g].(peers := peers), p);
      } else {
        InitiatedAfterSet(s.groups, g, Group(peers, GroupTTL(limits), Some(from)), p);
      }
    }
  }

  lemma ReleasedAt(m: map<Peer, nat>, who: Option<Peer>, p: Peer)
    ensures Count(Released(m, who), p) == Monus(Count(m, p), if who == Some(p) then 1 else 0)
    ensures p in Released(m, who) ==> p in m && (m[p] >= 1 ==> Released(m, who)[p] >= 1)
  {
  }

  lemma ReleasedSum(m: map<Peer, nat>, who: Option<Peer>)
    ensures Sum(Released(m, who)) <= Sum(m)
  {
    if who.Some? && who.value in m && m[who.value] > 0 {
      SumWithCount(m, who.value, m[who.value] - 1);
    }
  }

  lemma PublishKeeps(s: State, g: GroupId, peers: set<Peer>, limits: Limits)
    requires Inv(s, limits)
    ensures Inv(OnPublish(s, g, peers, limits), limits)
    ensures forall p :: Exact(s, p) ==> Exact(OnPublish(s, g, peers, limits), p)
  {
    var s' := OnPublish(s, g, peers, limits);
    var who := if g in s.groups then s.groups[g].initiatedBy else None;
    ReleasedSum(s.perPeer, who);
    forall p
      ensures CountOk(s', p, limits) && (Exact(s, p) ==> Exact(s', p))
    {
      assert CountOk(s, p, limits);
      InitiatedAfterSet(s.groups, g, Group(peers, GroupTTL(limits), None), p);
      ReleasedAt(s.perPeer, who, p);
    }
  }

  lemma CloseKeeps(s: State, p: Peer, limits: Limits)
    requires Inv(s, limits)
    ensures Inv(OnClose(s, p), limits)
    ensures forall q :: q != p && Exact(s, q) ==> Exact(OnClose(s, p), q)
  {
    var s' := OnClose(s, p);
    SumWithCount(s.perPeer, p, 0);
    assert s'.perPeer == WithCount(s.perPeer, p, 0);
    forall q
      ensures CountOk(s', q, limits) && (q != p && Exact(s, q) ==> Exact(s', q))
    {
      assert CountOk(s, q, limits);
      assert Initiated(s'.groups, q) == Initiated(s.groups, q);
    }
  }

  lemma GossipKeeps(s: State, peers: set<Peer>, limits: Limits)
    requires Inv(s, limits)
    ensures Inv(OnGossip(s, peers), limits)
    ensures forall p :: Exact(s, p) ==> Exact(OnGossip(s, peers), p)
  {
    var s' := OnGossip(s, peers);
    forall q
      ensures CountOk(s', q, limits) && (Exact(s, q) ==> Exact(s', q))
    {
      assert CountOk(s, q, limits);
      assert Initiated(s'.groups, q) == Initiated(s.groups, q);
    }
  }

  lemma {:induction false} SumMonotone(a: map<Peer, nat>, b: map<Peer, nat>)
    requires forall p :: Count(a, p) <= Count(b, p)
    ensures Sum(a) <= Sum(b)
    decreases |a|
  {
    if a != map[] {
      var p :| p in a;
      SumOut(a, p);
      forall q
        ensures Count(a - {p}, q) <= Count(b - {p}, q)
      {
        assert Count(a, q) <= Count(b, q);
      }
      SumMonotone(a - {p}, b - {p});
      assert Count(a, p) <= Count(b, p);
      if p in b {
        SumOut(b, p);
      } else {
        assert b - {p} == b;
      }
    }
  }

  lemma InitiatedAfterBeat(s: State, p: Peer)
    ensures |Initiated(OnBeat(s).groups, p)| == |Initiated(s.groups, p)| - |Buried(s.groups, p)|
  {
    assert Initiated(OnBeat(s).groups, p) == Initiated(s.groups, p) - Buried(s.groups, p);
  }

  lemma BeatKeeps(s: State, limits: Limits)
    requires Inv(s, limits)
    ensures Inv(OnBeat(s), limits)
    ensures forall p :: Exact(s, p) ==> Exact(OnBeat(s), p)
  {
    var s' := OnBeat(s);
    forall p
      ensures CountOk(s', p, limits) && (Exact(s, p) ==> Exact(s', p)) && Count(s'.perPeer, p) <= Count(s.perPeer, p)
    {
      assert CountOk(s, p, limits);
      InitiatedAfterBeat(s, p);
    }
    SumMonotone(s'.perPeer, s.perPeer);
  }

  // ------------------------------------------------------------ runs

  datatype Step =
    | RPC(g: GroupId, from: Peer, peers: set<Peer>)
    | Publish(g: GroupId, peers: set<Peer>)
    | Close(p: Peer)
    | Beat
    | Gossip(peers: set<Peer>)

  ghost function Apply(s: State, step: Step, limits: Limits): State {
    match step
    case RPC(g, from, peers) => OnRPC(s, g, from, peers, limits)
    case Publish(g, peers) => OnPublish(s, g, peers, limits)
    case Close(p) => OnClose(s, p)
    case Beat => OnBeat(s)
    case Gossip(peers) => OnGossip(s, peers)
  }

  lemma StepKeeps(s: State, step: Step, limits: Limits)
    requires Inv(s, limits)
    ensures Inv(Apply(s, step, limits), limits)
    ensures forall p :: step != Close(p) && Exact(s, p) ==> Exact(Apply(s, step, limits), p)
  {
    match step
    case RPC(g, from, peers) => RPCKeeps(s, g, from, peers, limits);
    case Publish(g, peers) => PublishKeeps(s, g, peers, limits);
    case Close(p) => CloseKeeps(s, p, limits);
    case Beat => BeatKeeps(s, limits);
    case Gossip(peers) => GossipKeeps(s, peers, limits);
  }

  ghost predicate IsRun(states: seq<State>, steps: seq<Step>, limits: Limits) {
    && |states| == |steps| + 1 && states[0] == State(map[], map[])
    && forall i :: 0 <= i < |steps| ==> states[i + 1] == Apply(states[i], steps[i], limits)
  }

  lemma {:induction false} RunInv(states: seq<State>, steps: seq<Step>, limits: Limits, j: nat, p: Peer)
    requires IsRun(states, steps, limits) && j < |states|
    ensures Inv(states[j], limits)
    ensures (forall i :: 0 <= i < j ==> steps[i] != Close(p)) ==> Exact(states[j], p)
  {
    if j == 0 {
      forall q
        ensures CountOk(states[0], q, limits) && Exact(states[0], q)
      {
        assert Initiated(states[0].groups, q) == {};
      }
    } else {
      RunInv(states, steps, limits, j - 1, p);
      StepKeeps(states[j - 1], steps[j - 1], limits);
    }
  }

  /** In every run: counts within both limits, no count without a group, and a count
      that is exact as long as the peer's own stream was not closed. */
  lemma LimitsHold(states: seq<State>, steps: seq<Step>, limits: Limits, j: nat, p: Peer)
    requires IsRun(states, steps, limits) && j < |states|
    ensures Sum(states[j].perPeer) <= if limits.total > 0 then limits.total else 0
    ensures p in states[j].perPeer ==>
              1 <= states[j].perPeer[p] <= limits.perPeer && states[j].perPeer[p] <= |Initiated(states[j].groups, p)|
    ensures (forall i :: 0 <= i < j ==> steps[i] != Close(p)) ==>
              Count(states[j].perPeer, p) == |Initiated(states[j].groups, p)|
  {
    RunInv(states, steps, limits, j, p);
    assert CountOk(states[j], p, limits);
  }

  // ------------------------------------------------------------ how many groups there are

  /** A run in which only streams of these peers are closed. */
  ghost predicate RunOf(states: seq<State>, steps: seq<Step>, limits: Limits, may: Peer -> bool) {
    IsRun(states, steps, limits) && forall i :: 0 <= i < |steps| && steps[i].Close? ==> may(steps[i].p)
  }

  /** The groups that peers have initiated. */
  function Foreign(groups: map<GroupId, Group>): set<GroupId> { set g | g in groups && groups[g].initiatedBy.Some? }

  /** If every count is exact, the counts add up to the groups. */
  lemma {:induction false} SumIsForeign(m: map<Peer, nat>, groups: map<GroupId, Group>)
    requires forall p :: Count(m, p) == |Initiated(groups, p)|
    ensures Sum(m) == |Foreign(groups)|
    decreases |m|
  {
    if m == map[] {
      forall p
        ensures Initiated(groups, p) == {}
      {
        assert Count(m, p) == |Initiated(groups, p)|;
      }
      assert forall g :: g in Foreign(groups) ==> g in Initiated(groups, groups[g].initiatedBy.value);
      assert Foreign(groups) == {};
    } else {
      var p :| p in m;
      var mine := Initiated(groups, p);
      var rest := groups - mine;
      SumOut(m, p);
      forall q
        ensures Count(m - {p}, q) == |Initiated(rest, q)|
      {
        assert Count(m, q) == |Initiated(groups, q)|;
        assert Initiated(rest, q) == if q == p then {} else Initiated(groups, q);
      }
      SumIsForeign(m - {p}, rest);
      assert Count(m, p) == |mine|;
      assert Foreign(groups) == Foreign(rest) + mine && Foreign(rest) !! mine;
    }
  }

  /** Without room for any group none is ever initiated by a peer. */
  lemma {:induction false} NothingAdmitted(states: seq<State>, steps: seq<Step>, limits: Limits, j: nat)
    requires IsRun(states, steps, limits) && j < |states| && (limits.total <= 0 || limits.perPeer <= 0)
    ensures Foreign(states[j].groups) == {}
  {
    if j > 0 {
      NothingAdmitted(states, steps, limits, j - 1);
      NoneAdmitted(states[j - 1], steps[j - 1], limits);
    }
  }

  lemma NoneAdmitted(s: State, step: Step, limits: Limits)
    requires Foreign(s.groups) == {} && (limits.total <= 0 || limits.perPeer <= 0)
    ensures Foreign(Apply(s, step, limits).groups) == {}
  {
    var s' := Apply(s, step, limits);
    forall g | g in s'.groups
      ensures s'.groups[g].initiatedBy.None?
    {
      assert g in s.groups ==> g !in Foreign(s.groups);
    }
  }

  lemma InitiatedIsForeign(groups: map<GroupId, Group>, p: Peer)
    ensures |Initiated(groups, p)| <= |Foreign(groups)|
  {
    var rest := Foreign(groups) - Initiated(groups, p);
    assert Foreign(groups) == Initiated(groups, p) + rest;
  }

  /** One peer, n groups, no count: it reconnects after initiating each. */
  ghost predicate Piled(s: State, p: Peer, n: nat) {
    && s.perPeer == map[] && |Initiated(s.groups, p)| == n
    && forall g :: g in s.groups ==> g.n < n
  }

  lemma PileStep(s: State, limits: Limits, p: Peer, n: nat)
    requires Piled(s, p, n) && limits.total > 0 && limits.perPeer > 0
    ensures Piled(OnClose(OnRPC(s, GroupId(n), p, {p}, limits), p), p, n + 1)
  {
    var s1 := OnRPC(s, GroupId(n), p, {p}, limits);
    var s2 := OnClose(s1, p);
    assert Sum(s.perPeer) == 0;
    InitiatedAfterSet(s.groups, GroupId(n), Group({p}, GroupTTL(limits), Some(p)), p);
    assert Initiated(s2.groups, p) == Initiated(s1.groups, p);
  }

  /** For every n there is a run after which a peer whose stream may close has
      initiated n groups that are all still there. */
  lemma {:induction false} PilesUp(limits: Limits, p: Peer, n: nat) returns (states: seq<State>, steps: seq<Step>)
    requires limits.total > 0 && limits.perPeer > 0
    ensures RunOf(states, steps, limits, q => q == p) && Piled(states[|steps|], p, n)
  {
    hide Apply;
    if n == 0 {
      states, steps := [State(map[], map[])], [];
      assert Initiated(map[], p) == {};
    } else {
      states, steps := PilesUp(limits, p, n - 1);
      var s, rpc, close := states[|steps|], RPC(GroupId(n - 1), p, {p}), Close(p);
      var s1 := Apply(s, rpc, limits);
      var s2 := Apply(s1, close, limits);
      PileStep(s, limits, p, n - 1);
      ApplyIs(s, GroupId(n - 1), p, limits);
      states, steps := states + [s1, s2], steps + [rpc, close];
    }
  }

  lemma ApplyIs(s: State, g: GroupId, p: Peer, limits: Limits)
    ensures Apply(s, RPC(g, p, {p}), limits) == OnRPC(s, g, p, {p}, limits)
    ensures forall s1 :: Apply(s1, Close(p), limits) == OnClose(s1, p)
  {
  }

  /** A peer never has more groups than its limit, in all runs in which only streams of
      these peers close, exactly if its own is not among them, or there is no room for
      any group. */
  lemma PeerLimitedExactly(limits: Limits, may: Peer -> bool, p: Peer)
    ensures (forall states: seq<State>, steps: seq<Step> :: RunOf(states, steps, limits, may) ==>
               |Initiated(states[|steps|].groups, p)| <= Max(limits.perPeer, 0))
            <==> !may(p) || limits.total <= 0 || limits.perPeer <= 0
  {
    if !may(p) || limits.total <= 0 || limits.perPeer <= 0 {
      forall states: seq<State>, steps: seq<Step> | RunOf(states, steps, limits, may)
        ensures |Initiated(states[|steps|].groups, p)| <= Max(limits.perPeer, 0)
      {
        if may(p) {
          NothingAdmitted(states, steps, limits, |steps|);
          InitiatedIsForeign(states[|steps|].groups, p);
        } else {
          LimitsHold(states, steps, limits, |steps|, p);
        }
      }
    } else {
      var states, steps := PilesUp(limits, p, limits.perPeer + 1);
      assert RunOf(states, steps, limits, may);
    }
  }

  /** All peers together never have more than the total limit exactly if no stream
      closes, or there is no room for any group. */
  lemma TotalLimitedExactly(limits: Limits, may: Peer -> bool)
    ensures (forall states: seq<State>, steps: seq<Step> :: RunOf(states, steps, limits, may) ==>
               |Foreign(states[|steps|].groups)| <= Max(limits.total, 0))
            <==> (forall p :: !may(p)) || limits.total <= 0 || limits.perPeer <= 0
  {
    if (forall p :: !may(p)) || limits.total <= 0 || limits.perPeer <= 0 {
      forall states: seq<State>, steps: seq<Step> | RunOf(states, steps, limits, may)
        ensures |Foreign(states[|steps|].groups)| <= Max(limits.total, 0)
      {
        if forall p :: !may(p) {
          TotalHolds(states, steps, limits, may);
        } else {
          NothingAdmitted(states, steps, limits, |steps|);
        }
      }
    } else {
      var p :| may(p);
      var states, steps := PilesUp(limits, p, limits.total + 1);
      assert RunOf(states, steps, limits, may);
      InitiatedIsForeign(states[|steps|].groups, p);
    }
  }

  lemma TotalHolds(states: seq<State>, steps: seq<Step>, limits: Limits, may: Peer -> bool)
    requires RunOf(states, steps, limits, may) && forall p :: !may(p)
    ensures |Foreign(states[|steps|].groups)| <= Max(limits.total, 0)
  {
    var s := states[|steps|];
    forall p
      ensures Count(s.perPeer, p) == |Initiated(s.groups, p)|
    {
      LimitsHold(states, steps, limits, |steps|, p);
    }
    SumIsForeign(s.perPeer, s.groups);
    LimitsHold(states, steps, limits, |steps|, PeerId(0));
  }

  // ------------------------------------------------------------ how long a group lives

  function Beats(steps: seq<Step>): nat {
    if steps == [] then 0 else Beats(steps[..|steps| - 1]) + if steps[|steps| - 1].Beat? then 1 else 0
  }

  ghost predicate Persists(states: seq<State>, g: GroupId, i: nat, j: nat)
    requires j < |states|
  {
    forall k :: i <= k <= j ==> g in states[k].groups
  }

  lemma StepTime(s: State, step: Step, limits: Limits, g: GroupId)
    requires g in s.groups && g in Apply(s, step, limits).groups && !(step.Publish? && step.g == g)
    ensures Apply(s, step, limits).groups[g].ttl == s.groups[g].ttl - if step.Beat? then 1 else 0
    ensures step.Beat? ==> s.groups[g].ttl != 0
  {
    hide Sum, AfterBurials;
  }

  /** As long as a group is there and not republished, its time runs. */
  lemma {:induction false} TimeRuns(states: seq<State>, steps: seq<Step>, limits: Limits, g: GroupId, i: nat, j: nat)
    requires IsRun(states, steps, limits) && i <= j < |states| && Persists(states, g, i, j)
    requires forall k :: i <= k < j ==> !(steps[k].Publish? && steps[k].g == g)
    requires states[i].groups[g].ttl >= 0
    ensures states[j].groups[g].ttl == states[i].groups[g].ttl - Beats(steps[i..j]) >= 0
    decreases j
  {
    hide Apply;
    if i == j {
      assert steps[i..j] == [];
    } else {
      TimeRuns(states, steps, limits, g, i, j - 1);
      assert steps[i..j][..j - i - 1] == steps[i..j - 1] && steps[i..j][j - i - 1] == steps[j - 1];
      assert g in states[j - 1].groups && g in states[j].groups;
      StepTime(states[j - 1], steps[j - 1], limits, g);
    }
  }

  /** A group that is not republished disappears within max(TTL, 3) + 1 heartbeats. */
  lemma GoneInTime(states: seq<State>, steps: seq<Step>, limits: Limits, g: GroupId, i: nat, j: nat)
    requires IsRun(states, steps, limits) && i <= j < |states|
    requires g in states[i].groups && states[i].groups[g].ttl == GroupTTL(limits)
    requires forall k :: i <= k < j ==> !(steps[k].Publish? && steps[k].g == g)
    requires Beats(steps[i..j]) >= GroupTTL(limits) + 1
    ensures exists k :: i < k <= j && g !in states[k].groups
  {
    if Persists(states, g, i, j) {
      TimeRuns(states, steps, limits, g, i, j);
    }
  }

  /** A group that somebody has state in at every heartbeat, and that is not republished,
      is there for exactly max(TTL, 3) heartbeats, and gone with the next. */
  lemma {:induction false} LivesExactly(states: seq<State>, steps: seq<Step>, limits: Limits, g: GroupId, i: nat,
                                        j: nat)
    requires IsRun(states, steps, limits) && i <= j < |states|
    requires g in states[i].groups && states[i].groups[g].ttl == if limits.ttl > 3 then limits.ttl else 3
    requires forall k :: i <= k < j ==> !(steps[k].Publish? && steps[k].g == g)
    requires forall k :: i <= k < j && steps[k].Beat? && g in states[k].groups ==> states[k].groups[g].peers != {}
    requires forall k :: i <= k < j && g !in states[k].groups ==> !(steps[k].RPC? && steps[k].g == g)
    ensures g in states[j].groups <==> Beats(steps[i..j]) <= if limits.ttl > 3 then limits.ttl else 3
    ensures g in states[j].groups ==>
              states[j].groups[g].ttl == (if limits.ttl > 3 then limits.ttl else 3) - Beats(steps[i..j])
    decreases j
  {
    hide Apply;
    if i == j {
      assert steps[i..j] == [];
    } else {
      LivesExactly(states, steps, limits, g, i, j - 1);
      assert steps[i..j][..j - i - 1] == steps[i..j - 1] && steps[i..j][j - i - 1] == steps[j - 1];
      StepLives(states[j - 1], steps[j - 1], limits, g);
    }
  }

  /** When a group is there after a step, and how long it has left. */
  lemma StepLives(s: State, step: Step, limits: Limits, g: GroupId)
    requires !(step.Publish? && step.g == g)
    ensures var s' := Apply(s, step, limits);
            && (g in s.groups ==>
                  && (g in s'.groups <==> !(step.Beat? && (s.groups[g].ttl == 0 || s.groups[g].peers == {})))
                  && (g in s'.groups ==> s'.groups[g].ttl == s.groups[g].ttl - if step.Beat? then 1 else 0))
            && (g !in s.groups && !(step.RPC? && step.g == g) ==> g !in s'.groups)
  {
    hide Sum, AfterBurials;
  }

  // ------------------------------------------------------------ who has state in a group

  /** A group begins with max(TTL, 3) heartbeats to live: one of our own whenever we
      publish, one of a peer's if it is within both limits. */
  lemma GroupBegins(s: State, limits: Limits, g: GroupId, from: Peer, peers: set<Peer>)
    ensures var ttl := if limits.ttl > 3 then limits.ttl else 3;
            && Apply(s, Publish(g, peers), limits).groups == s.groups[g := Group(peers, ttl, None)]
            && (g !in s.groups ==>
                  Apply(s, RPC(g, from, peers), limits).groups
                  == if Sum(s.perPeer) < limits.total && Count(s.perPeer, from) < limits.perPeer
                     then s.groups[g := Group(peers, ttl, Some(from))] else s.groups)
  {
  }

  /** Who has state in a group after a step: whoever an RPC or a publication says,
      nobody whose stream closed, and in groups of our own those that gossip adds. */
  lemma StepPeers(s: State, step: Step, limits: Limits, g: GroupId)
    requires g in Apply(s, step, limits).groups
    ensures var peers := Apply(s, step, limits).groups[g].peers;
            if step.RPC? && step.g == g then peers == step.peers
            else if step.Publish? && step.g == g then peers == step.peers
            else
              && g in s.groups
              && peers == (if step.Close? then s.groups[g].peers - {step.p}
                           else if step.Gossip? && s.groups[g].initiatedBy.None? then s.groups[g].peers + step.peers
                           else s.groups[g].peers)
  {
    hide Sum, AfterBurials;
  }

  /** Somebody may have state in a group again after the step. */
  predicate Brings(step: Step, p: Peer) { (step.RPC? || step.Publish? || step.Gossip?) && p in step.peers }

  /** In every run a peer whose stream closed has state in no group until an RPC, a
      publication or gossip brings it back. */
  lemma {:induction false} ClosedHasNoState(states: seq<State>, steps: seq<Step>, limits: Limits, i: nat, j: nat,
                                            p: Peer, g: GroupId)
    requires IsRun(states, steps, limits) && i < j < |states| && steps[i] == Close(p) && g in states[j].groups
    requires forall k :: i < k < j ==> !Brings(steps[k], p)
    ensures p !in states[j].groups[g].peers
    decreases j
  {
    hide Apply;
    StepPeers(states[j - 1], steps[j - 1], limits, g);
    if j > i + 1 && g in states[j - 1].groups {
      ClosedHasNoState(states, steps, limits, i, j - 1, p, g);
    }
  }

  /** A group that nobody has state in is gone with the next heartbeat. */
  lemma EmptyGroupGoes(s: State, limits: Limits, g: GroupId)
    requires g in s.groups && s.groups[g].peers == {}
    ensures g !in Apply(s, Beat, limits).groups
  {
    StepLives(s, Beat, limits, g);
  }

  // ------------------------------------------------------------ the topic's state itself

  function BuriedIn(groups: map<GroupId, Group>, p: Peer, visited: set<GroupId>): set<GroupId> {
    set g | g in visited && g in groups && groups[g].initiatedBy == Some(p) && Dead(groups[g])
  }

  /** The heartbeat's loop after the groups of `visited`. */
  ghost predicate HalfGroups(now: map<GroupId, Group>, start: map<GroupId, Group>, visited: set<GroupId>) {
    && (forall g :: g in now <==> g in start && !(g in visited && Dead(start[g])))
    && (forall g :: g in now ==> now[g] == if g in visited then start[g].(ttl := start[g].ttl - 1) else start[g])
  }

  predicate HalfCount(now: map<Peer, nat>, start: map<Peer, nat>, groups: map<GroupId, Group>, visited: set<GroupId>,
                      p: Peer) {
    && Count(now, p) == Monus(Count(start, p), |BuriedIn(groups, p, visited)|)
    && (p in now ==> now[p] >= 1)
  }

  ghost predicate HalfCounts(now: map<Peer, nat>, start: map<Peer, nat>, groups: map<GroupId, Group>,
                             visited: set<GroupId>) {
    forall p :: HalfCount(now, start, groups, visited, p)
  }

  lemma BuriedInNext(groups: map<GroupId, Group>, p: Peer, visited: set<GroupId>, g: GroupId)
    requires g in groups && g !in visited
    ensures |BuriedIn(groups, p, visited + {g})|
            == |BuriedIn(groups, p, visited)| + if groups[g].initiatedBy == Some(p) && Dead(groups[g]) then 1 else 0
  {
    var a, b := BuriedIn(groups, p, visited), BuriedIn(groups, p, visited + {g});
    assert b == if groups[g].initiatedBy == Some(p) && Dead(groups[g]) then a + {g} else a;
  }

  lemma HalfCountsNext(now: map<Peer, nat>, start: map<Peer, nat>, groups: map<GroupId, Group>, visited: set<GroupId>,
                       g: GroupId)
    requires HalfCounts(now, start, groups, visited) && g in groups && g !in visited
    ensures HalfCounts(if Dead(groups[g]) then Released(now, groups[g].initiatedBy) else now,
                       start, groups, visited + {g})
  {
    var next := if Dead(groups[g]) then Released(now, groups[g].initiatedBy) else now;
    var visited' := visited + {g};
    forall p
      ensures HalfCount(next, start, groups, visited', p)
    {
      assert HalfCount(now, start, groups, visited, p);
      BuriedInNext(groups, p, visited, g);
      ReleasedAt(now, groups[g].initiatedBy, p);
    }
  }

  lemma HalfCountsDone(now: map<Peer, nat>, start: map<Peer, nat>, groups: map<GroupId, Group>)
    requires HalfCounts(now, start, groups, groups.Keys)
    ensures now == AfterBurials(groups, start)
  {
    forall p
      ensures p in now <==> p in AfterBurials(groups, start)
      ensures p in now ==> now[p] == AfterBurials(groups, start)[p]
    {
      assert HalfCount(now, start, groups, groups.Keys, p);
      assert BuriedIn(groups, p, groups.Keys) == Buried(groups, p);
    }
  }

  lemma HalfGroupsNext(now: map<GroupId, Group>, start: map<GroupId, Group>, visited: set<GroupId>, g: GroupId)
    requires HalfGroups(now, start, visited) && g in start && g !in visited
    ensures g in now && now[g] == start[g]
    ensures HalfGroups(if Dead(start[g]) then now - {g} else now[g := start[g].(ttl := start[g].ttl - 1)],
                       start, visited + {g})
  {
  }

  lemma HalfStart(groups: map<GroupId, Group>, perPeer: map<Peer, nat>)
    requires forall p :: p in perPeer ==> perPeer[p] >= 1
    ensures HalfGroups(groups, groups, {}) && HalfCounts(perPeer, perPeer, groups, {})
  {
    forall p
      ensures HalfCount(perPeer, perPeer, groups, {}, p)
    {
      assert BuriedIn(groups, p, {}) == {};
    }
  }

  lemma HalfDone(groups: map<GroupId, Group>, perPeer: map<Peer, nat>, s: State)
    requires HalfGroups(groups, s.groups, s.groups.Keys) && HalfCounts(perPeer, s.perPeer, s.groups, s.groups.Keys)
    ensures State(groups, perPeer) == OnBeat(s)
  {
    HalfCountsDone(perPeer, s.perPeer, s.groups);
    assert groups == OnBeat(s).groups;
  }

  class TopicGroups {
    const limits: Limits
    var groups: map<GroupId, Group>
    var total: int
    var perPeer: map<Peer, nat>

    constructor (limits: Limits)
      ensures Valid() && this.limits == limits && Abs() == State(map[], map[])
    {
      this.limits, groups, total, perPeer := limits, map[], 0, map[];
      new;
      forall p
        ensures CountOk(Abs(), p, limits)
      {
        assert Initiated(groups, p) == {};
      }
    }

    ghost function Abs(): State
      reads this
    {
      State(groups, perPeer)
    }

    /** The total is the sum of the counts. */
    ghost predicate Valid()
      reads this
    {
      Inv(Abs(), limits) && total == Sum(perPeer)
    }

    ghost predicate Positive()
      reads this
    {
      forall p :: p in perPeer ==> perPeer[p] >= 1
    }

    method Inc(id: Peer) returns (ok: bool)
      requires Positive() && total == Sum(perPeer)
      modifies this`total, this`perPeer
      ensures ok == Admits(old(Abs()), id, limits, Sum(old(perPeer)))
      ensures total == Sum(perPeer)
      ensures perPeer == if ok then WithCount(old(perPeer), id, Count(old(perPeer), id) + 1) else old(perPeer)
    {
      SumWithCount(perPeer, id, Count(perPeer, id) + 1);
      if total >= limits.total {
        return false;
      }
      var n := if id in perPeer then perPeer[id] else 0;
      if n >= limits.perPeer {
        return false;
      }
      total := total + 1;
      perPeer := perPeer[id := n + 1];
      return true;
    }

    method Dec(id: Peer)
      requires Positive() && total == Sum(perPeer)
      modifies this`total, this`perPeer
      ensures Positive() && total == Sum(perPeer) && perPeer == Released(old(perPeer), Some(id))
    {
      if id in perPeer {
        SumWithCount(perPeer, id, perPeer[id] - 1);
        total := total - 1;
        perPeer := perPeer[id := perPeer[id] - 1];
        if perPeer[id] == 0 {
          perPeer := perPeer - {id};
          assert perPeer == old(perPeer) - {id};
        }
      }
    }

    /** HandleRPC; `peers` is who has state in the group after the callback. */
    method HandleRPC(g: GroupId, from: Peer, peers: set<Peer>) returns (ok: bool)
      requires Valid()
      modifies this
      ensures Valid() && Abs() == OnRPC(old(Abs()), g, from, peers, limits)
      ensures ok <==> g in groups
    {
      RPCKeeps(Abs(), g, from, peers, limits);
      if g !in groups {
        Counted();
        ok := Inc(from);
        if !ok {
          return;
        }
        groups := groups[g := Group(peers, GroupTTL(limits), Some(from))];
      } else {
        groups := groups[g := groups[g].(peers := peers)];
      }
      ok := true;
    }

    lemma Counted()
      requires Valid()
      ensures Positive()
    {
      forall p | p in perPeer
        ensures perPeer[p] >= 1
      {
        assert CountOk(Abs(), p, limits);
      }
    }

    method PublishPartial(g: GroupId, peers: set<Peer>)
      requires Valid()
      modifies this
      ensures Valid() && Abs() == OnPublish(old(Abs()), g, peers, limits)
    {
      PublishKeeps(Abs(), g, peers, limits);
      Counted();
      if g in groups && groups[g].initiatedBy.Some? {
        Dec(groups[g].initiatedBy.value);
      }
      groups := groups[g := Group(peers, GroupTTL(limits), None)];
    }

    method OnClosedOutboundStream(id: Peer)
      requires Valid()
      modifies this
      ensures Valid() && Abs() == OnClose(old(Abs()), id)
    {
      CloseKeeps(Abs(), id, limits);
      SumWithCount(perPeer, id, 0);
      groups := WithoutPeer(groups, id);
      if id in perPeer {
        total := total - perPeer[id];
        perPeer := perPeer - {id};
      } else {
        assert perPeer - {id} == perPeer;
      }
    }

    static method WithoutPeer(start: map<GroupId, Group>, id: Peer) returns (r: map<GroupId, Group>)
      ensures r == map g | g in start :: start[g].(peers := start[g].peers - {id})
    {
      r := start;
      var rest := start.Keys;
      while rest != {}
        invariant rest <= start.Keys && r.Keys == start.Keys
        invariant forall g :: g in r ==>
                    r[g] == if g in rest then start[g] else start[g].(peers := start[g].peers - {id})
        decreases rest
      {
        var g :| g in rest;
        rest := rest - {g};
        r := r[g := r[g].(peers := r[g].peers - {id})];
      }
    }

    /** Dead groups go, and their initiators get their slots back. */
    method Heartbeat()
      requires Valid()
      modifies this
      ensures Valid() && Abs() == OnBeat(old(Abs()))
    {
      hide HalfGroups, HalfCounts, Released, Sum, OnBeat, Inv;
      BeatKeeps(Abs(), limits);
      Counted();
      HalfStart(groups, perPeer);
      ghost var start, counts := groups, perPeer;
      var rest := groups.Keys;
      ghost var visited: set<GroupId> := {};
      while rest != {}
        invariant visited + rest == start.Keys && visited !! rest
        invariant HalfGroups(groups, start, visited) && HalfCounts(perPeer, counts, start, visited)
        invariant total == Sum(perPeer) && Positive()
        decreases rest
      {
        var g :| g in rest;
        HalfCountsNext(perPeer, counts, start, visited, g);
        HalfGroupsNext(groups, start, visited, g);
        BeatGroup(g);
        rest, visited := rest - {g}, visited + {g};
      }
      assert visited == start.Keys;
      HalfDone(groups, perPeer, old(Abs()));
    }

    method BeatGroup(g: GroupId)
      requires g in groups && Positive() && total == Sum(perPeer)
      modifies this
      ensures Positive() && total == Sum(perPeer)
      ensures groups == if Dead(old(groups)[g]) then old(groups) - {g}
                        else old(groups)[g := old(groups)[g].(ttl := old(groups)[g].ttl - 1)]
      ensures perPeer == if Dead(old(groups)[g]) then Released(old(perPeer), old(groups)[g].initiatedBy)
              else old(perPeer)
    {
      var group := groups[g];
      if group.ttl == 0 || |group.peers| == 0 {
        groups := groups - {g};
        if group.initiatedBy.Some? {
          Dec(group.initiatedBy.value);
        }
      } else {
        groups := groups[g := group.(ttl := group.ttl - 1)];
      }
    }

    method EmitGossip(peers: set<Peer>)
      requires Valid()
      modifies this
      ensures Valid() && Abs() == OnGossip(old(Abs()), peers)
    {
      GossipKeeps(Abs(), peers, limits);
      ghost var start := groups;
      var rest := groups.Keys;
      while rest != {}
        invariant rest <= start.Keys && groups.Keys == start.Keys && perPeer == old(perPeer) && total == old(total)
        invariant forall g :: g in groups ==>
                    groups[g] == if g in rest || start[g].initiatedBy.Some? then start[g]
                                 else start[g].(peers := start[g].peers + peers)
        decreases rest
      {
        var g :| g in rest;
        rest := rest - {g};
        if groups[g].initiatedBy.Some? {
          continue;
        }
        groups := groups[g := groups[g].(peers := groups[g].peers + peers)];
      }
      assert groups == OnGossip(old(Abs()), peers).groups;
    }
  }
}
