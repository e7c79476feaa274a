/** The imperative side of one topic's heartbeat: the mesh map of the topic and
    the lists of peers to send GRAFT and PRUNE to, updated peer by peer.
  */
module MeshRun {
  import opened Ids
  import opened Params
  import opened OverPrune
  import opened MeshTopic

  /** The shuffle of the environment is shufflePeers with these random picks. */
  ghost predicate ShufflesBy(env: Env, Dscore: nat, pick: nat -> nat) {
    && PicksInRange(pick)
    && forall s: seq<Peer> :: |s| >= Dscore ==> env.shuffle(s) == Shuffled(s, Dscore, |s| - Dscore, pick)
  }

  lemma ShuffleOf(env: Env, Dscore: nat, pick: nat -> nat, s: seq<Peer>)
    requires ShufflesBy(env, Dscore, pick) && |s| >= Dscore
    ensures env.shuffle(s) == Shuffled(s, Dscore, |s| - Dscore, pick)
  {
  }

  /** getPeers over the candidates of a topic. */
  method SelectPeers(env: Env, k: nat, count: int, filter: Peer -> bool) returns (r: set<Peer>)
    ensures r == GetPeers(env, k, count, Where(env.candidates, filter))
  {
    var peers: set<Peer> := {};
    var rest := env.candidates;
    while rest != {}
      invariant rest <= env.candidates
      invariant peers == Where(env.candidates - rest, filter)
      decreases rest
    {
      var p :| p in rest;
      rest := rest - {p};
      if filter(p) {
        peers := peers + {p};
      }
    }
    assert env.candidates - rest == env.candidates;
    if count > 0 && |peers| > count {
      r := env.choose(k, peers, count);
    } else {
      r := peers;
    }
  }

  /** Shuffle and rotate a copy of the ranked mesh; what is beyond the first D is
      to be pruned. */
  method PickExcess(ranked: seq<Peer>, params: GossipSubParams, outbound: Peer -> bool, pick: nat -> nat,
                    ghost shuffled: seq<Peer>)
    returns (gone: seq<Peer>)
    requires params.Valid() && params.Sliceable() && |ranked| >= params.Dhi && PicksInRange(pick)
    requires shuffled == Shuffled(ranked, params.Dscore, |ranked| - params.Dscore, pick)
    ensures gone == Pruned(shuffled, params, outbound)
  {
    var plst := new Peer[|ranked|](i requires 0 <= i < |ranked| => ranked[i]);
    assert plst[..] == ranked;
    Arrange(plst, params, outbound, pick);
    gone := plst[..][params.D..];
  }

  method ListExcess(mesh: set<Peer>, params: GossipSubParams, env: Env, pick: nat -> nat) returns (gone: seq<Peer>)
    requires Lawful(env, params) && params.Valid() && params.Sliceable() && ShufflesBy(env, params.Dscore, pick)
    requires |mesh| >= params.Dhi
    ensures Elements(gone) == Excess(mesh, params, env) && Distinct(gone)
    ensures forall q :: q in gone ==> q in mesh && q in Excess(mesh, params, env)
  {
    hide Lawful, Excess, Elements, Distinct, Pruned, Descending, Reordered, Shuffled;
    ExcessInput(mesh, params, env);
    var ranked := env.rank(mesh);
    ghost var shuffled := env.shuffle(ranked);
    ShuffleOf(env, params.Dscore, pick, ranked);
    gone := PickExcess(ranked, params, env.outbound, pick, shuffled);
    ExcessListed(mesh, params, env, gone);
  }

  class TopicRun {
    var mesh: set<Peer>
    var backed: set<Peer>
    var tograft: seq<Peer>
    var toprune: seq<Peer>

    constructor (mesh: set<Peer>, backed: set<Peer>)
      ensures this.mesh == mesh && this.backed == backed && Tracks(mesh)
    {
      this.mesh, this.backed := mesh, backed;
      tograft, toprune := [], [];
    }

    ghost function State(): Stage
      reads this
    {
      Stage(mesh, backed)
    }

    /** The two lists are the difference between the mesh at the start and now. */
    ghost predicate Tracks(start: set<Peer>)
      reads this
    {
      && Distinct(tograft) && Distinct(toprune)
      && (forall p :: p in tograft <==> p in mesh && p !in start)
      && (forall p :: p in toprune <==> p in start && p !in mesh)
      && (forall p :: p in toprune ==> p in backed)
    }

    method PrunePeer(p: Peer, ghost start: set<Peer>)
      requires Tracks(start) && p in mesh && p in start
      modifies this
      ensures Tracks(start) && State() == Prune(old(State()), {p})
      ensures tograft == old(tograft) && toprune == old(toprune) + [p]
    {
      mesh := mesh - {p};
      backed := backed + {p};
      toprune := toprune + [p];
    }

    method GraftPeer(p: Peer, ghost start: set<Peer>)
      requires Tracks(start) && p !in mesh && p !in backed
      modifies this
      ensures Tracks(start) && State() == Graft(old(State()), {p})
      ensures tograft == old(tograft) + [p] && toprune == old(toprune)
    {
      mesh := mesh + {p};
      tograft := tograft + [p];
    }

    method GraftAll(ps: set<Peer>, ghost start: set<Peer>)
      requires Tracks(start) && ps !! mesh && ps !! backed
      modifies this
      ensures Tracks(start) && State() == Graft(old(State()), ps)
    {
      var rest := ps;
      while rest != {}
        invariant rest <= ps && Tracks(start) && rest !! mesh && rest !! backed
        invariant State() == Graft(old(State()), ps - rest)
        decreases rest
      {
        var p :| p in rest;
        rest := rest - {p};
        GraftPeer(p, start);
        assert ps - rest == ps - (rest + {p}) + {p};
      }
    }

    /** Peers with a negative score are dropped while the map is being walked. */
    method DropNegativePeers(env: Env)
      requires Tracks(mesh)
      modifies this
      ensures Tracks(old(mesh)) && State() == DropNegative(old(State()), env)
    {
      ghost var start := mesh;
      var rest := mesh;
      ghost var dropped: set<Peer> := {};
      while rest != {}
        invariant rest <= mesh && Tracks(start)
        invariant dropped == set p | p in start - rest && env.score(p) < 0.0
        invariant State() == Prune(old(State()), dropped)
        decreases rest
      {
        var p :| p in rest;
        rest := rest - {p};
        if env.score(p) < 0.0 {
          PrunePeer(p, start);
          dropped := dropped + {p};
        }
      }
      assert dropped == Negative(start, env);
    }

    method PruneAll(gone: seq<Peer>, ghost start: set<Peer>)
      requires Tracks(start) && Distinct(gone) && forall p :: p in gone ==> p in mesh && p in start
      modifies this
      ensures Tracks(start) && State() == Prune(old(State()), Elements(gone))
    {
      ghost var before := State();
      for i := 0 to |gone|
        invariant Tracks(start)
        invariant State() == Prune(before, Elements(gone[..i]))
      {
        PruneStep(before, gone, i);
        PrunePeer(gone[i], start);
      }
      assert gone[..|gone|] == gone;
    }

    method FillUpMesh(params: GossipSubParams, env: Env, ghost start: set<Peer>)
      requires Lawful(env, params) && Tracks(start)
      modifies this
      ensures Tracks(start) && State() == FillUp(old(State()), params, env)
    {
      var l := |mesh|;
      if l < params.Dlo {
        var need := params.D - l;
        var plst := SelectPeers(env, 0, need, IsEligible(Stage(mesh, backed), env));
        GetPeersSize(env, 0, need, Eligible(State(), env));
        SelectedAreOutside(State(), env, IsEligible(State(), env), plst);
        GraftAll(plst, start);
      }
    }

    method CutDownMesh(params: GossipSubParams, env: Env, pick: nat -> nat, ghost start: set<Peer>)
      requires Lawful(env, params) && params.Valid() && params.Sliceable() && ShufflesBy(env, params.Dscore, pick)
      requires Tracks(start)
      requires |mesh| >= params.Dhi ==> Excess(mesh, params, env) <= start
      modifies this
      ensures Tracks(start) && State() == CutDown(old(State()), params, env)
    {
      if |mesh| >= params.Dhi {
        var gone := ListExcess(mesh, params, env, pick);
        PruneAll(gone, start);
      }
    }

    lemma PruneStep(before: Stage, gone: seq<Peer>, k: nat)
      requires k < |gone| && Distinct(gone) && forall p :: p in gone ==> p in before.mesh
      ensures gone[k] in Prune(before, Elements(gone[..k])).mesh
      ensures Prune(before, Elements(gone[..k + 1])) == Prune(Prune(before, Elements(gone[..k])), {gone[k]})
    {
      assert Elements(gone[..k + 1]) == Elements(gone[..k]) + {gone[k]};
    }

    method CountOutboundPeers(env: Env) returns (n: nat)
      ensures n == |OutboundIn(mesh, env)|
    {
      n := 0;
      var rest := mesh;
      while rest != {}
        invariant rest <= mesh
        invariant n == |OutboundIn(mesh - rest, env)|
        decreases rest
      {
        var p :| p in rest;
        ghost var seen := mesh - rest;
        rest := rest - {p};
        assert mesh - rest == seen + {p};
        if env.outbound(p) {
          assert OutboundIn(seen + {p}, env) == OutboundIn(seen, env) + {p};
          n := n + 1;
        } else {
          assert OutboundIn(seen + {p}, env) == OutboundIn(seen, env);
        }
      }
      assert mesh - rest == mesh;
    }

    method RestoreOutboundQuota(params: GossipSubParams, env: Env, ghost start: set<Peer>)
      requires Lawful(env, params) && Tracks(start)
      modifies this
      ensures Tracks(start) && State() == OutboundQuota(old(State()), params, env)
    {
      if |mesh| >= params.Dlo {
        var have := CountOutboundPeers(env);
        if have < params.Dout {
          var need := params.Dout - have;
          var plst := SelectPeers(env, 1, need, IsEligibleOutbound(Stage(mesh, backed), env));
          GetPeersSize(env, 1, need, EligibleOutbound(State(), env));
          SelectedAreOutside(State(), env, IsEligibleOutbound(State(), env), plst);
          GraftAll(plst, start);
        }
      }
    }

    method GraftOpportunistically(params: GossipSubParams, env: Env, ghost start: set<Peer>)
      requires Lawful(env, params) && Tracks(start)
      modifies this
      ensures Tracks(start) && State() == Opportunistic(old(State()), params, env)
    {
      if env.opportunistic && |mesh| > 1 {
        var plst := env.ascend(mesh);
        assert Lists(plst, mesh);
        var median := env.score(plst[|mesh| / 2]);
        if median < env.threshold {
          var better := SelectPeers(env, 2, params.opportunisticGraftPeers, IsBetter(Stage(mesh, backed), env, median));
          GetPeersSize(env, 2, params.opportunisticGraftPeers, Better(State(), env, median));
          SelectedAreOutside(State(), env, IsBetter(State(), env, median), better);
          GraftAll(better, start);
        }
      }
    }

    /** One topic's heartbeat.  The peers to GRAFT are exactly those that joined
        the mesh, the peers to PRUNE exactly those that left it, each once. */
    method MaintainTopic(params: GossipSubParams, env: Env, pick: nat -> nat)
      requires Lawful(env, params) && params.Valid() && params.Sliceable() && ShufflesBy(env, params.Dscore, pick)
      requires Tracks(mesh)
      modifies this
      ensures State() == Maintain(old(State()), params, env)
      ensures Tracks(old(mesh))
    {
      ghost var start := mesh;
      DropNegativePeers(env);
      ghost var s1 := State();
      FillUpMesh(params, env, start);
      ghost var s2 := State();
      FilledIsNotCut(s1, params, env);
      OnlyOldPeersAreCut(start, s1, params, env);
      CutDownMesh(params, env, pick, start);
      RestoreOutboundQuota(params, env, start);
      GraftOpportunistically(params, env, start);
    }

    lemma OnlyOldPeersAreCut(start: set<Peer>, s1: Stage, params: GossipSubParams, env: Env)
      requires Lawful(env, params) && params.Valid() && params.Sliceable() && s1.mesh <= start
      ensures var s2 := FillUp(s1, params, env);
              |s2.mesh| >= params.Dhi ==> Excess(s2.mesh, params, env) <= start
    {
      var s2 := FillUp(s1, params, env);
      FilledIsNotCut(s1, params, env);
      if |s2.mesh| >= params.Dhi {
        ExcessFacts(s2.mesh, params, env);
      }
    }
  }
}
