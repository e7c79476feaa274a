/** When the size of a mesh is bounded: the upper bound of MaintainBounds needs a
    positive OpportunisticGraftPeers, unless meshes are too small to have a median. */
module MeshLimits {
  import opened Basics
  import opened Ids
  import opened Params
  import opened OverPrune
  import opened MeshTopic

  // ------------------------------------------------------------ an environment to order

  ghost function ListOf(S: set<Peer>): seq<Peer> {
    if S == {} then [] else var p :| p in S; ListOf(S - {p}) + [p]
  }

  lemma {:induction false} ListOfLists(S: set<Peer>)
    ensures Lists(ListOf(S), S)
  {
    if S != {} {
      var p :| p in S && ListOf(S) == ListOf(S - {p}) + [p];
      ListOfLists(S - {p});
    }
  }

  lemma ListBoth(a: set<Peer>, b: set<Peer>)
    requires a !! b
    ensures Lists(ListOf(a) + ListOf(b), a + b)
  {
    ListOfLists(a);
    ListOfLists(b);
    UnionSize(a, b);
    var s, t := ListOf(a), ListOf(b);
    forall i, j | 0 <= i < |s| && 0 <= j < |t|
      ensures s[i] != t[j]
    {
      assert s[i] in s && t[j] in t;
    }
  }

  ghost function Pick(S: set<Peer>, n: nat): set<Peer> {
    if n == 0 || S == {} then {} else var p :| p in S; Pick(S - {p}, n - 1) + {p}
  }

  lemma {:induction false} PickSize(S: set<Peer>, n: nat)
    requires n <= |S|
    ensures Pick(S, n) <= S && |Pick(S, n)| == n
  {
    if n > 0 {
      var p :| p in S && Pick(S, n) == Pick(S - {p}, n - 1) + {p};
      PickSize(S - {p}, n - 1);
    }
  }

  /** n peers, numbered from lo. */
  ghost function Crowd(lo: nat, n: nat): set<Peer> {
    if n == 0 then {} else Crowd(lo, n - 1) + {PeerId(lo + n - 1)}
  }

  lemma {:induction false} CrowdSize(lo: nat, n: nat)
    ensures |Crowd(lo, n)| == n && forall p :: p in Crowd(lo, n) <==> lo <= p.n < lo + n
  {
    if n > 0 {
      CrowdSize(lo, n - 1);
    }
  }

  /** The peers of `low` score 0, all others 1. */
  ghost function ScoreIn(low: set<Peer>): Peer -> real { p => if p in low then 0.0 else 1.0 }

  ghost function TwoScores(low: set<Peer>, candidates: set<Peer>): Env {
    Env(candidates, {}, p => false, ScoreIn(low), true, 1.0,
        S => ListOf(S - low) + ListOf(S * low), S => ListOf(S * low) + ListOf(S - low),
        s => s, (k: nat, S: set<Peer>, n: nat) => Pick(S, n))
  }

  lemma Levels(a: seq<Peer>, b: seq<Peer>, score: Peer -> real)
    requires forall i :: 0 <= i < |a| ==> score(a[i]) == 1.0
    requires forall i :: 0 <= i < |b| ==> score(b[i]) == 0.0
    ensures Descending(a + b, score) && Ascending(b + a, score)
  {
  }

  lemma SortedByScore(low: set<Peer>, S: set<Peer>)
    ensures var env := TwoScores(low, {});
            && Lists(env.rank(S), S) && Descending(env.rank(S), ScoreIn(low))
            && Lists(env.ascend(S), S) && Ascending(env.ascend(S), ScoreIn(low))
  {
    hide ListOf, Lists, Descending, Ascending;
    ListBoth(S - low, S * low);
    ListBoth(S * low, S - low);
    assert S - low + S * low == S && S * low + (S - low) == S;
    ScoreIs(low, ListOf(S - low), S - low, 1.0);
    ScoreIs(low, ListOf(S * low), S * low, 0.0);
    Levels(ListOf(S - low), ListOf(S * low), ScoreIn(low));
  }

  lemma ScoreIs(low: set<Peer>, s: seq<Peer>, S: set<Peer>, x: real)
    requires s == ListOf(S) && forall p :: p in S ==> ScoreIn(low)(p) == x
    ensures forall i :: 0 <= i < |s| ==> ScoreIn(low)(s[i]) == x
  {
    ListOfLists(S);
    forall i | 0 <= i < |s|
      ensures ScoreIn(low)(s[i]) == x
    {
      assert s[i] in s;
    }
  }

  lemma TwoScoresLawful(low: set<Peer>, candidates: set<Peer>, p: GossipSubParams)
    ensures Lawful(TwoScores(low, candidates), p)
  {
    var env := TwoScores(low, candidates);
    forall S
      ensures Lists(env.rank(S), S) && Descending(env.rank(S), env.score)
      ensures Lists(env.ascend(S), S) && Ascending(env.ascend(S), env.score)
    {
      SortedByScore(low, S);
    }
    forall k: nat, S: set<Peer>, n: nat | n <= |S|
      ensures env.choose(k, S, n) <= S && |env.choose(k, S, n)| == n
    {
      PickSize(S, n);
    }
  }

  // ------------------------------------------------------------ no bound

  /** Cutting a mesh down to the size it has removes nobody. */
  lemma CutKeeps(st: Stage, p: GossipSubParams, env: Env)
    requires Lawful(env, p) && p.Valid() && p.Sliceable() && (|st.mesh| < p.Dhi || |st.mesh| == p.D)
    ensures CutDown(st, p, env) == st
  {
    hide Excess, Lawful;
    if |st.mesh| >= p.Dhi {
      ExcessFacts(st.mesh, p, env);
    }
  }

  /** Before opportunistic grafting, a mesh that is large enough and has no negative
      member stays as it is if no outbound peer can be grafted. */
  lemma Unchanged(st: Stage, p: GossipSubParams, env: Env)
    requires Lawful(env, p) && p.Valid() && p.Sliceable()
    requires p.Dlo <= |st.mesh| && (|st.mesh| < p.Dhi || |st.mesh| == p.D)
    requires Negative(st.mesh, env) == {} && EligibleOutbound(st, env) == {}
    ensures Maintain(st, p, env) == Opportunistic(st, p, env)
  {
    hide CutDown, Opportunistic, EligibleOutbound, Lawful;
    assert DropNegative(st, env) == st;
    CutKeeps(st, p, env);
    assert OutboundQuota(st, p, env) == st;
  }

  /** A mesh whose members all score 0 takes in everybody who scores more. */
  lemma GraftsEverybody(low: set<Peer>, more: set<Peer>, p: GossipSubParams)
    requires p.Valid() && p.Sliceable() && p.opportunisticGraftPeers <= 0
    requires low !! more && |low| > 1 && p.Dlo <= |low| && (|low| < p.Dhi || |low| == p.D)
    ensures more <= Maintain(Stage(low, {}), p, TwoScores(low, more)).mesh
  {
    hide Maintain, Lawful, ListOf;
    var st, env := Stage(low, {}), TwoScores(low, more);
    TwoScoresLawful(low, more, p);
    Unchanged(st, p, env);
    LowMedian(low, more);
    assert more <= Better(st, env, 0.0);
  }

  lemma LowMedian(low: set<Peer>, more: set<Peer>)
    requires |low| > 1
    ensures Median(low, TwoScores(low, more)) == 0.0
  {
    SortedByScore(low, low);
    var s := TwoScores(low, {}).ascend(low);
    assert s[|low| / 2] in s;
  }

  /** For every n there is an environment in which the mesh ends with more than n peers. */
  lemma MeshCanExceed(p: GossipSubParams, n: nat) returns (st: Stage, env: Env)
    requires p.Valid() && p.Sliceable() && p.opportunisticGraftPeers <= 0 && Max(p.D, p.Dhi - 1) > 1
    ensures Lawful(env, p) && |Maintain(st, p, env).mesh| > n
  {
    var m := if p.D > 1 then p.D else 2;
    var low, more := Crowd(0, m), Crowd(m, n + 1);
    CrowdSize(0, m);
    CrowdSize(m, n + 1);
    st, env := Stage(low, {}), TwoScores(low, more);
    TwoScoresLawful(low, more, p);
    GraftsEverybody(low, more, p);
    Subset(more, Maintain(st, p, env).mesh);
  }

  /** The largest size a mesh may end with. */
  function Bound(p: GossipSubParams): int { Max(p.D, p.Dhi - 1) + Max(p.Dout, 0) + Max(p.opportunisticGraftPeers, 0) }

  lemma TooSmallForMedian(st: Stage, p: GossipSubParams, env: Env)
    requires Lawful(env, p) && p.Valid() && p.Sliceable() && Max(p.D, p.Dhi - 1) <= 1
    ensures |Maintain(st, p, env).mesh| <= Max(p.D, p.Dhi - 1)
  {
    CutBounds(st, p, env);
  }

  /** The mesh stays within the bound in every environment exactly if
      OpportunisticGraftPeers is positive or a mesh never has two peers. */
  lemma BoundedExactly(p: GossipSubParams)
    requires p.Valid() && p.Sliceable()
    ensures (forall st, env :: Lawful(env, p) ==> |Maintain(st, p, env).mesh| <= Bound(p))
            <==> p.opportunisticGraftPeers > 0 || Max(p.D, p.Dhi - 1) <= 1
  {
    if p.opportunisticGraftPeers > 0 || Max(p.D, p.Dhi - 1) <= 1 {
      forall st, env | Lawful(env, p)
        ensures |Maintain(st, p, env).mesh| <= Bound(p)
      {
        if p.opportunisticGraftPeers > 0 {
          MaintainBounds(st, p, env);
        } else {
          TooSmallForMedian(st, p, env);
        }
      }
    } else {
      var st, env := MeshCanExceed(p, Max(Bound(p), 0));
    }
  }
}
