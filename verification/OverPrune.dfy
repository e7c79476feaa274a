/** Pruning an over-subscribed mesh (gossipsub.go, heartbeat): the list of mesh
    peers, already in descending score order, is partly shuffled and rotated in
    place so that its first D entries are the ones to keep.
  */
module OverPrune {
  import opened Basics
  import opened Params

  // ------------------------------------------------------------ specification

  function Count<P>(s: seq<P>, outbound: P -> bool): (n: nat)
    ensures n <= |s|
  {
    if s == [] then 0
    else Count(s[..|s| - 1], outbound) + if outbound(s[|s| - 1]) then 1 else 0
  }

  function Swap<P>(s: seq<P>, i: nat, j: nat): (r: seq<P>)
    requires i < |s| && j < |s|
    ensures |r| == |s|
  {
    seq(|s|, k requires 0 <= k < |s| => if k == i then s[j] else if k == j then s[i] else s[k])
  }

  /** rand.Intn(i + 1) stays in range. */
  ghost predicate PicksInRange(pick: nat -> nat) { forall i :: pick(i) <= i }

  /** The list after n steps of shuffling its tail from lo on. */
  function Shuffled<P>(s: seq<P>, lo: nat, n: nat, pick: nat -> nat): (r: seq<P>)
    requires lo + n <= |s| && PicksInRange(pick)
    ensures |r| == |s|
  {
    if n == 0 then s else Swap(Shuffled(s, lo, n - 1, pick), lo + n - 1, lo + pick(n - 1))
  }

  /** Put the i-th entry in front and move the earlier ones one to the right. */
  function RotateFront<P>(s: seq<P>, i: nat): (r: seq<P>)
    requires i < |s|
    ensures |r| == |s|
  {
    [s[i]] + s[..i] + s[i + 1..]
  }

  /** Bring outbound entries at positions i up to n to the front, at most `want` of them. */
  function Bubble<P>(s: seq<P>, i: nat, n: nat, want: nat, outbound: P -> bool): (r: seq<P>)
    requires i <= n <= |s|
    ensures |r| == |s|
    decreases n - i
  {
    if i == n || want == 0 then s
    else if outbound(s[i]) then Bubble(RotateFront(s, i), i + 1, n, want - 1, outbound)
    else Bubble(s, i + 1, n, want, outbound)
  }

  /** The order from which the second pass starts. */
  function Front<P>(s: seq<P>, D: nat, outbound: P -> bool): (r: seq<P>)
    requires D <= |s|
    ensures |r| == |s|
  {
    var have := Count(s[..D], outbound);
    if have > 0 && D > 0 then Bubble(s, 1, D, have, outbound) else s
  }

  /** The order after the outbound quota has been enforced on the first D entries. */
  function Quota<P>(s: seq<P>, D: nat, Dout: int, outbound: P -> bool): (r: seq<P>)
    requires D <= |s|
    ensures |r| == |s|
  {
    var have := Count(s[..D], outbound);
    if have >= Dout then s else Bubble(Front(s, D, outbound), D, |s|, Dout - have, outbound)
  }

  // ------------------------------------------------------------ implementation

  /** shufflePeers on `plst[lo:]`, with the random picks as a parameter. */
  method Shuffle<P>(plst: array<P>, lo: nat, pick: nat -> nat)
    requires lo <= plst.Length && PicksInRange(pick)
    modifies plst
    ensures plst[..] == Shuffled(old(plst[..]), lo, plst.Length - lo, pick)
  {
    ghost var was := plst[..];
    for i := 0 to plst.Length - lo
      invariant plst[..] == Shuffled(was, lo, i, pick)
    {
      var j := pick(i);
      assert j <= i;
      ghost var before := plst[..];
      plst[lo + i], plst[lo + j] := plst[lo + j], plst[lo + i];
      assert plst[..] == Swap(before, lo + i, lo + j);
    }
  }

  method CountOutbound<P>(plst: array<P>, D: nat, outbound: P -> bool) returns (n: nat)
    requires D <= plst.Length
    ensures n == Count(plst[..D], outbound)
  {
    n := 0;
    for i := 0 to D
      invariant n == Count(plst[..i], outbound)
    {
      assert plst[..i + 1][..i] == plst[..i];
      if outbound(plst[i]) {
        n := n + 1;
      }
    }
  }

  method Rotate<P>(plst: array<P>, i: nat)
    requires i < plst.Length
    modifies plst
    ensures plst[..] == RotateFront(old(plst[..]), i)
  {
    ghost var was := plst[..];
    var p := plst[i];
    var j := i;
    while j > 0
      invariant 0 <= j <= i
      invariant forall k :: 0 <= k <= j ==> plst[k] == was[k]
      invariant forall k :: j < k <= i ==> plst[k] == was[k - 1]
      invariant forall k :: i < k < plst.Length ==> plst[k] == was[k]
    {
      plst[j] := plst[j - 1];
      j := j - 1;
    }
    plst[0] := p;
    assert forall k :: 0 <= k < |was| ==> plst[..][k] == RotateFront(was, i)[k];
  }

  method BubbleUp<P>(plst: array<P>, lo: nat, hi: nat, want: nat, outbound: P -> bool)
    requires lo <= hi <= plst.Length
    modifies plst
    ensures plst[..] == Bubble(old(plst[..]), lo, hi, want, outbound)
  {
    ghost var was := plst[..];
    var i: nat, left: nat := lo, want;
    while i < hi && left > 0
      invariant lo <= i <= hi
      invariant Bubble(plst[..], i, hi, left, outbound) == Bubble(was, lo, hi, want, outbound)
      decreases hi - i
    {
      var p := plst[i];
      if outbound(p) {
        Rotate(plst, i);
        left := left - 1;
      }
      i := i + 1;
    }
  }

  /** The body of "do we have too many peers?": afterwards the first D entries
      are kept and the others pruned. */
  method Arrange<P>(plst: array<P>, params: GossipSubParams, outbound: P -> bool, pick: nat -> nat)
    requires params.Valid() && params.Sliceable() && plst.Length >= params.Dhi && PicksInRange(pick)
    modifies plst
    ensures plst[..] == Quota(Shuffled(old(plst[..]), params.Dscore, plst.Length - params.Dscore, pick),
                              params.D, params.Dout, outbound)
  {
    Shuffle(plst, params.Dscore, pick);
    ghost var shuffled := plst[..];
    var have := CountOutbound(plst, params.D, outbound);
    assert plst[..params.D] == shuffled[..params.D];
    if have < params.Dout {
      if have > 0 {
        BubbleUp(plst, 1, params.D, have, outbound);
      }
      BubbleUp(plst, params.D, plst.Length, params.Dout - have, outbound);
    }
  }

  // ------------------------------------------------------------ nothing is lost

  /** A permutation that leaves the first lo entries alone. */
  ghost predicate Reordered<P>(s: seq<P>, t: seq<P>, lo: nat) {
    multiset(t) == multiset(s) && |t| == |s| && lo <= |s| && t[..lo] == s[..lo]
  }

  lemma SwapPermutes<P>(s: seq<P>, i: nat, j: nat, lo: nat)
    requires lo <= i < |s| && lo <= j < |s|
    ensures Reordered(s, Swap(s, i, j), lo)
  {
    assert Swap(s, i, j) == s[i := s[j]][j := s[i]];
  }

  lemma ReorderedTransitive<P>(s: seq<P>, t: seq<P>, u: seq<P>, lo: nat)
    requires Reordered(s, t, lo) && Reordered(t, u, lo)
    ensures Reordered(s, u, lo)
  {
  }

  lemma {:induction false} ShuffledPermutes<P>(s: seq<P>, lo: nat, n: nat, pick: nat -> nat)
    requires lo + n <= |s| && PicksInRange(pick)
    ensures Reordered(s, Shuffled(s, lo, n, pick), lo)
  {
    if n > 0 {
      var t, i, j := Shuffled(s, lo, n - 1, pick), lo + n - 1, lo + pick(n - 1);
      ShuffledPermutes(s, lo, n - 1, pick);
      SwapPermutes(t, i, j, lo);
      ReorderedTransitive(s, t, Swap(t, i, j), lo);
    }
  }

  lemma RotatePermutes<P>(s: seq<P>, i: nat)
    requires i < |s|
    ensures multiset(RotateFront(s, i)) == multiset(s)
  {
    assert s == s[..i] + [s[i]] + s[i + 1..];
  }

  lemma {:induction false} BubblePermutes<P>(s: seq<P>, i: nat, n: nat, want: nat, outbound: P -> bool)
    requires i <= n <= |s|
    ensures multiset(Bubble(s, i, n, want, outbound)) == multiset(s)
    decreases n - i
  {
    if i < n && want > 0 {
      if outbound(s[i]) {
        RotatePermutes(s, i);
        BubblePermutes(RotateFront(s, i), i + 1, n, want - 1, outbound);
      } else {
        BubblePermutes(s, i + 1, n, want, outbound);
      }
    }
  }

  lemma QuotaPermutes<P>(s: seq<P>, D: nat, Dout: int, outbound: P -> bool)
    requires D <= |s|
    ensures multiset(Quota(s, D, Dout, outbound)) == multiset(s)
  {
    var have := Count(s[..D], outbound);
    if have < Dout {
      if have > 0 && D > 0 {
        BubblePermutes(s, 1, D, have, outbound);
      }
      BubblePermutes(Front(s, D, outbound), D, |s|, Dout - have, outbound);
    }
  }

  // ------------------------------------------------------------ the outbound quota

  lemma {:induction false} CountConcat<P>(a: seq<P>, b: seq<P>, outbound: P -> bool)
    ensures Count(a + b, outbound) == Count(a, outbound) + Count(b, outbound)
  {
    if b == [] {
      assert a + b == a;
    } else {
      CountConcat(a, b[..|b| - 1], outbound);
      assert (a + b)[..|a + b| - 1] == a + b[..|b| - 1];
    }
  }

  /** The first m of the first n entries are outbound and the others are not. */
  ghost predicate Segregated<P>(s: seq<P>, n: nat, m: nat, outbound: P -> bool) {
    && m <= n <= |s|
    && (forall k :: 0 <= k < m ==> outbound(s[k]))
    && (forall k :: m <= k < n ==> !outbound(s[k]))
  }

  lemma {:induction false} CountAll<P>(s: seq<P>, outbound: P -> bool)
    requires forall k :: 0 <= k < |s| ==> outbound(s[k])
    ensures Count(s, outbound) == |s|
  {
    if s != [] {
      CountAll(s[..|s| - 1], outbound);
    }
  }

  lemma {:induction false} CountNone<P>(s: seq<P>, outbound: P -> bool)
    requires forall k :: 0 <= k < |s| ==> !outbound(s[k])
    ensures Count(s, outbound) == 0
  {
    if s != [] {
      CountNone(s[..|s| - 1], outbound);
    }
  }

  lemma CountSegregated<P>(s: seq<P>, n: nat, m: nat, outbound: P -> bool)
    requires Segregated(s, n, m, outbound)
    ensures Count(s[..n], outbound) == m
  {
    assert s[..n] == s[..m] + s[m..n];
    CountConcat(s[..m], s[m..n], outbound);
    CountAll(s[..m], outbound);
    CountNone(s[m..n], outbound);
  }

  lemma CountStep<P>(s: seq<P>, i: nat, outbound: P -> bool)
    requires i < |s|
    ensures Count(s[i..], outbound) == (if outbound(s[i]) then 1 else 0) + Count(s[i + 1..], outbound)
    ensures Count(s[..i + 1], outbound) == Count(s[..i], outbound) + if outbound(s[i]) then 1 else 0
  {
    assert s[i..] == [s[i]] + s[i + 1..];
    CountConcat([s[i]], s[i + 1..], outbound);
    assert [s[i]][..0] == [];
    assert s[..i + 1] == s[..i] + [s[i]];
    CountConcat(s[..i], [s[i]], outbound);
  }

  /** Rotating an outbound entry to the front of a segregated prefix. */
  lemma RotateSegregated<P>(s: seq<P>, i: nat, n: nat, m: nat, outbound: P -> bool)
    requires n <= i < |s| && outbound(s[i]) && Segregated(s, n, m, outbound)
    ensures i == n ==> Segregated(RotateFront(s, i), n + 1, m + 1, outbound)
    ensures m < n ==> Segregated(RotateFront(s, i), n, m + 1, outbound)
    ensures RotateFront(s, i)[i + 1..] == s[i + 1..]
  {
    var r := RotateFront(s, i);
    assert forall k :: 0 < k <= i ==> r[k] == s[k - 1];
  }

  lemma CountFrom<P>(s: seq<P>, i: nat, n: nat, outbound: P -> bool)
    requires i < n <= |s|
    ensures Count(s[i..n], outbound) == (if outbound(s[i]) then 1 else 0) + Count(s[i + 1..n], outbound)
  {
    assert s[i..n] == s[..n][i..] && s[i + 1..n] == s[..n][i + 1..];
    CountStep(s[..n], i, outbound);
  }

  /** First pass: bubbling within the selection puts its outbound peers in front. */
  lemma {:induction false} BubbleSegregates<P>(s: seq<P>, i: nat, n: nat, m: nat, want: nat, outbound: P -> bool)
    requires i <= n <= |s| && Segregated(s, i, m, outbound)
    requires want >= Count(s[i..n], outbound)
    ensures Segregated(Bubble(s, i, n, want, outbound), n, m + Count(s[i..n], outbound), outbound)
    ensures Bubble(s, i, n, want, outbound)[n..] == s[n..]
    decreases n - i
  {
    if i < n {
      CountFrom(s, i, n, outbound);
      if want == 0 {
        NoneLeft(s, i, n, outbound);
      } else if outbound(s[i]) {
        var r := RotateFront(s, i);
        RotateSegregated(s, i, i, m, outbound);
        assert r[i + 1..n] == s[i + 1..n] by { assert r[i + 1..][..n - i - 1] == s[i + 1..][..n - i - 1]; }
        assert r[n..] == s[n..];
        BubbleSegregates(r, i + 1, n, m + 1, want - 1, outbound);
      } else {
        BubbleSegregates(s, i + 1, n, m, want, outbound);
      }
    }
  }

  lemma {:induction false} NoneLeft<P>(s: seq<P>, i: nat, n: nat, outbound: P -> bool)
    requires i <= n <= |s| && Count(s[i..n], outbound) == 0
    ensures forall k :: i <= k < n ==> !outbound(s[k])
    decreases n - i
  {
    if i < n {
      CountFrom(s, i, n, outbound);
      NoneLeft(s, i + 1, n, outbound);
    }
  }

  /** Second pass: every outbound peer taken from outside displaces one that is
      not outbound, so the selection gains exactly as many as were found. */
  lemma {:induction false} BubbleGains<P>(s: seq<P>, i: nat, D: nat, m: nat, want: nat, outbound: P -> bool)
    requires D <= i <= |s| && Segregated(s, D, m, outbound) && m + want <= D
    ensures var found := Count(s[i..], outbound);
            Segregated(Bubble(s, i, |s|, want, outbound), D, m + (if want < found then want else found), outbound)
    decreases |s| - i
  {
    if i == |s| {
      assert s[i..] == [];
    } else if want > 0 {
      CountStep(s, i, outbound);
      if outbound(s[i]) {
        RotateSegregated(s, i, D, m, outbound);
        BubbleGains(RotateFront(s, i), i + 1, D, m + 1, want - 1, outbound);
      } else {
        BubbleGains(s, i + 1, D, m, want, outbound);
      }
    }
  }

  lemma FrontSegregates<P>(s: seq<P>, D: nat, outbound: P -> bool)
    requires D <= |s|
    ensures Segregated(Front(s, D, outbound), D, Count(s[..D], outbound), outbound)
    ensures Front(s, D, outbound)[D..] == s[D..]
  {
    var have := Count(s[..D], outbound);
    if have > 0 {
      var m := if outbound(s[0]) then 1 else 0;
      assert s[..D] == s[..1] + s[1..D];
      CountConcat(s[..1], s[1..D], outbound);
      assert s[..1][..0] == [];
      BubbleSegregates(s, 1, D, m, have, outbound);
    } else {
      assert s[0..D] == s[..D];
      NoneLeft(s, 0, D, outbound);
    }
  }

  lemma SecondPass<P>(front: seq<P>, D: nat, have: nat, Dout: nat, outbound: P -> bool)
    requires Segregated(front, D, have, outbound) && have < Dout <= D
    ensures Count(Bubble(front, D, |front|, Dout - have, outbound)[..D], outbound)
            == Min(Dout, have + Count(front[D..], outbound))
  {
    BubbleGains(front, D, D, have, Dout - have, outbound);
    CountSegregated(Bubble(front, D, |front|, Dout - have, outbound), D,
                    Min(Dout, have + Count(front[D..], outbound)), outbound);
  }

  lemma BothPasses<P>(s: seq<P>, D: nat, Dout: nat, outbound: P -> bool)
    requires D <= |s| && Count(s[..D], outbound) < Dout <= D
    ensures var front := Front(s, D, outbound);
            Count(Bubble(front, D, |front|, Dout - Count(s[..D], outbound), outbound)[..D], outbound)
            == Min(Dout, Count(s, outbound))
  {
    FrontSegregates(s, D, outbound);
    SecondPass(Front(s, D, outbound), D, Count(s[..D], outbound), Dout, outbound);
    CountSplit(s, D, outbound);
  }

  lemma QuotaUnfolds<P>(s: seq<P>, D: nat, Dout: int, outbound: P -> bool)
    requires D <= |s| && Count(s[..D], outbound) < Dout
    ensures Quota(s, D, Dout, outbound)
            == Bubble(Front(s, D, outbound), D, |Front(s, D, outbound)|, Dout - Count(s[..D], outbound), outbound)
  {
  }

  /** The selection ends with exactly as many outbound peers as it had, or, if
      that is fewer than Dout, with Dout or with all there are. */
  lemma QuotaMet<P>(s: seq<P>, D: nat, Dout: int, outbound: P -> bool)
    requires D <= |s| && Dout <= D
    ensures var have := Count(s[..D], outbound);
            Count(Quota(s, D, Dout, outbound)[..D], outbound)
            == if have >= Dout then have else Min(Dout, Count(s, outbound))
  {
    if Count(s[..D], outbound) < Dout {
      BothPasses(s, D, Dout, outbound);
      QuotaUnfolds(s, D, Dout, outbound);
    }
  }

  lemma CountSplit<P>(s: seq<P>, D: nat, outbound: P -> bool)
    requires D <= |s|
    ensures Count(s, outbound) == Count(s[..D], outbound) + Count(s[D..], outbound)
  {
    assert s == s[..D] + s[D..];
    CountConcat(s[..D], s[D..], outbound);
  }

  // ------------------------------------------------------------ the best scoring peers

  /** Each rotation moves an entry at most one place back. */
  lemma {:induction false} BubbleMoves<P>(s: seq<P>, i: nat, n: nat, want: nat, outbound: P -> bool, j: nat)
    returns (k: nat)
    requires i <= n <= |s| && j < |s|
    ensures k <= j + want && k < |s| && Bubble(s, i, n, want, outbound)[k] == s[j]
    decreases n - i
  {
    if i == n || want == 0 {
      k := j;
    } else if outbound(s[i]) {
      var r := RotateFront(s, i);
      var j' := if j < i then j + 1 else if j == i then 0 else j;
      assert r[j'] == s[j];
      k := BubbleMoves(r, i + 1, n, want - 1, outbound, j');
    } else {
      k := BubbleMoves(s, i + 1, n, want, outbound, j);
    }
  }

  /** The first Dscore entries stay in the selection when there is room for them
      beside the outbound quota. */
  lemma QuotaKeepsBest<P>(s: seq<P>, D: nat, Dscore: nat, Dout: int, outbound: P -> bool, j: nat)
    requires D <= |s| && Dscore + Dout <= D && Dscore <= D && j < Dscore
    ensures s[j] in Quota(s, D, Dout, outbound)[..D]
  {
    var have := Count(s[..D], outbound);
    if have < Dout {
      var k := j;
      if have > 0 {
        k := BubbleMoves(s, 1, D, have, outbound, j);
      }
      k := BubbleMoves(Front(s, D, outbound), D, |s|, Dout - have, outbound, k);
      assert Quota(s, D, Dout, outbound)[..D][k] == s[j];
    } else {
      assert s[..D][j] == s[j];
    }
  }

  ghost predicate Descending<P>(s: seq<P>, score: P -> real) {
    forall i, j :: 0 <= i < j < |s| ==> score(s[i]) >= score(s[j])
  }

  ghost predicate Distinct<P>(s: seq<P>) {
    forall i, j :: 0 <= i < j < |s| ==> s[i] != s[j]
  }

  /** Dscore different kept peers score at least as high as every pruned one. */
  ghost predicate ScoreGuarantee<P(!new)>(kept: seq<P>, pruned: seq<P>, Dscore: nat, score: P -> real) {
    exists best: seq<P> ::
      && |best| == Dscore && Distinct(best)
      && (forall b :: b in best ==> b in kept)
      && (forall b, q :: b in best && q in pruned ==> score(b) >= score(q))
  }

  lemma SameElements<P>(a: seq<P>, b: seq<P>)
    requires multiset(a) == multiset(b)
    ensures |a| == |b| && forall x :: x in a <==> x in b
  {
    assert |multiset(a)| == |a| && |multiset(b)| == |b|;
    assert forall x :: x in a <==> x in multiset(a);
    assert forall x :: x in b <==> x in multiset(b);
  }

  lemma {:induction false} DistinctCounts<P>(s: seq<P>)
    requires Distinct(s)
    ensures forall x :: multiset(s)[x] <= 1
  {
    if s != [] {
      var init, x := s[..|s| - 1], s[|s| - 1];
      DistinctCounts(init);
      assert s == init + [x];
      assert x !in init;
    }
  }

  lemma TwiceCounts<P>(s: seq<P>, i: nat, j: nat)
    requires i < j < |s| && s[i] == s[j]
    ensures multiset(s)[s[i]] >= 2
  {
    assert s == s[..j] + s[j..];
    assert s[..j][i] == s[i] && s[j..][0] == s[i];
    assert s[i] in multiset(s[..j]) && s[i] in multiset(s[j..]);
  }

  lemma DistinctPermutation<P>(a: seq<P>, b: seq<P>)
    requires multiset(a) == multiset(b) && Distinct(a)
    ensures Distinct(b)
  {
    DistinctCounts(a);
    forall i, j | 0 <= i < j < |b|
      ensures b[i] != b[j]
    {
      if b[i] == b[j] {
        TwiceCounts(b, i, j);
      }
    }
  }

  /** Room for the Dscore best peers beside the outbound quota. */
  predicate HasRoom(p: GossipSubParams) {
    p.Dscore + (if p.Dout > 0 then p.Dout else 0) <= p.D
  }

  /** What pruning starts from: the mesh in descending score order, and a
      reordering of it that leaves the first Dscore entries alone, such as
      `Shuffled` gives. */
  ghost predicate PruneInput<P(!new)>(ranked: seq<P>, shuffled: seq<P>, p: GossipSubParams, score: P -> real) {
    && p.Valid() && p.Sliceable() && |ranked| >= p.Dhi
    && Distinct(ranked) && Descending(ranked, score)
    && Reordered(ranked, shuffled, p.Dscore)
  }

  function Kept<P>(shuffled: seq<P>, p: GossipSubParams, outbound: P -> bool): (r: seq<P>)
    requires p.Sliceable() && p.D <= |shuffled|
    ensures |r| == p.D
  {
    Quota(shuffled, p.D, p.Dout, outbound)[..p.D]
  }

  function Pruned<P>(shuffled: seq<P>, p: GossipSubParams, outbound: P -> bool): (r: seq<P>)
    requires p.Sliceable() && p.D <= |shuffled|
    ensures |r| == |shuffled| - p.D
  {
    Quota(shuffled, p.D, p.Dout, outbound)[p.D..]
  }

  lemma CutPermutation<P>(ranked: seq<P>, arranged: seq<P>, D: nat)
    requires multiset(arranged) == multiset(ranked) && Distinct(ranked) && D <= |arranged|
    ensures Distinct(arranged[..D]) && Distinct(arranged[D..])
    ensures multiset(arranged[..D]) + multiset(arranged[D..]) == multiset(ranked)
    ensures forall x :: x in arranged[..D] || x in arranged[D..] <==> x in ranked
    ensures forall x :: x in arranged[..D] ==> x !in arranged[D..]
  {
    DistinctPermutation(ranked, arranged);
    SameElements(ranked, arranged);
    assert arranged == arranged[..D] + arranged[D..];
  }

  lemma KeptAndPruned<P(!new)>(ranked: seq<P>, shuffled: seq<P>, p: GossipSubParams, score: P -> real,
                               outbound: P -> bool)
    requires PruneInput(ranked, shuffled, p, score)
    ensures var kept, pruned := Kept(shuffled, p, outbound), Pruned(shuffled, p, outbound);
            && Distinct(kept) && Distinct(pruned)
            && multiset(kept) + multiset(pruned) == multiset(ranked)
            && (forall x :: x in kept || x in pruned <==> x in ranked)
            && (forall x :: x in kept ==> x !in pruned)
  {
    QuotaPermutes(shuffled, p.D, p.Dout, outbound);
    CutPermutation(ranked, Quota(shuffled, p.D, p.Dout, outbound), p.D);
  }

  lemma TakeOut<P>(b: seq<P>, k: nat)
    requires k < |b|
    ensures multiset(b) == multiset(b[..k] + b[k + 1..]) + multiset{b[k]}
  {
    assert b == b[..k] + ([b[k]] + b[k + 1..]);
  }

  lemma RemoveFromBoth<P>(a: seq<P>, b: seq<P>, k: nat)
    requires multiset(a) == multiset(b) && a != [] && k < |b| && b[k] == a[|a| - 1]
    ensures multiset(a[..|a| - 1]) == multiset(b[..k] + b[k + 1..])
  {
    TakeOut(b, k);
    TakeOut(a, |a| - 1);
    assert a[..|a| - 1] + a[|a| - 1 + 1..] == a[..|a| - 1];
    Cancel(multiset(a[..|a| - 1]), multiset(b[..k] + b[k + 1..]), b[k]);
  }

  lemma Cancel<P>(a: multiset<P>, b: multiset<P>, x: P)
    requires a + multiset{x} == b + multiset{x}
    ensures a == b
  {
    assert a == a + multiset{x} - multiset{x} && b == b + multiset{x} - multiset{x};
  }

  lemma CountRemoved<P>(b: seq<P>, k: nat, outbound: P -> bool)
    requires k < |b|
    ensures Count(b, outbound) == Count(b[..k] + b[k + 1..], outbound) + if outbound(b[k]) then 1 else 0
  {
    CountSplit(b, k, outbound);
    CountStep(b, k, outbound);
    CountConcat(b[..k], b[k + 1..], outbound);
  }

  lemma {:induction false} CountPermutation<P>(a: seq<P>, b: seq<P>, outbound: P -> bool)
    requires multiset(a) == multiset(b)
    ensures Count(a, outbound) == Count(b, outbound)
    decreases |a|
  {
    SameElements(a, b);
    if a != [] {
      var init, x := a[..|a| - 1], a[|a| - 1];
      assert x in a;
      var k :| 0 <= k < |b| && b[k] == x;
      RemoveFromBoth(a, b, k);
      CountPermutation(init, b[..k] + b[k + 1..], outbound);
      CountRemoved(b, k, outbound);
    }
  }

  /** Over-subscription pruning keeps exactly D of the peers, splits the mesh into
      kept and pruned without loss or duplication, and leaves at least
      min(Dout, outbound peers present) outbound peers in the mesh. */
  lemma PruningKeepsQuota<P(!new)>(ranked: seq<P>, shuffled: seq<P>, p: GossipSubParams, score: P -> real,
                                   outbound: P -> bool)
    requires PruneInput(ranked, shuffled, p, score)
    ensures var kept, pruned := Kept(shuffled, p, outbound), Pruned(shuffled, p, outbound);
            && |kept| == p.D && multiset(kept) + multiset(pruned) == multiset(ranked)
            && Count(kept, outbound) >= Min(p.Dout, Count(ranked, outbound))
  {
    KeptAndPruned(ranked, shuffled, p, score, outbound);
    QuotaAtLeast(ranked, shuffled, p.D, p.Dout, outbound);
  }

  lemma QuotaAtLeast<P>(ranked: seq<P>, shuffled: seq<P>, D: nat, Dout: int, outbound: P -> bool)
    requires multiset(shuffled) == multiset(ranked) && D <= |shuffled| && Dout <= D
    ensures Count(Quota(shuffled, D, Dout, outbound)[..D], outbound) >= Min(Dout, Count(ranked, outbound))
  {
    CountPermutation(ranked, shuffled, outbound);
    QuotaMet(shuffled, D, Dout, outbound);
  }

  lemma BestIsFirst<P>(ranked: seq<P>, Dscore: nat, k: nat)
    requires Dscore <= |ranked| && k < |ranked| && ranked[k] !in ranked[..Dscore]
    ensures k >= Dscore
  {
  }

  /** When there is room, Dscore kept peers score at least as high as any pruned. */
  lemma PruningKeepsBest<P(!new)>(ranked: seq<P>, shuffled: seq<P>, p: GossipSubParams, score: P -> real,
                                  outbound: P -> bool)
    requires PruneInput(ranked, shuffled, p, score) && HasRoom(p)
    ensures ScoreGuarantee(Kept(shuffled, p, outbound), Pruned(shuffled, p, outbound), p.Dscore, score)
  {
    var kept, pruned := Kept(shuffled, p, outbound), Pruned(shuffled, p, outbound);
    KeptAndPruned(ranked, shuffled, p, score, outbound);
    var best := ranked[..p.Dscore];
    forall b | b in best
      ensures b in kept
    {
      var j :| 0 <= j < p.Dscore && ranked[j] == b;
      assert shuffled[..p.Dscore][j] == b;
      QuotaKeepsBest(shuffled, p.D, p.Dscore, p.Dout, outbound, j);
    }
    forall b, q | b in best && q in pruned
      ensures score(b) >= score(q)
    {
      var k :| 0 <= k < |ranked| && ranked[k] == q;
      assert q !in best;
      BestIsFirst(ranked, p.Dscore, k);
    }
  }

  // ------------------------------------------------------------ when there is no room

  /** With nothing found in front of it, an entry moves back by exactly the number
      of peers bubbled past it. */
  lemma {:induction false} BubbleShifts<P>(s: seq<P>, i: nat, want: nat, outbound: P -> bool, j: nat, moved: nat)
    requires j < i <= |s| && j + moved < |s| && moved == Min(want, Count(s[i..], outbound))
    ensures Bubble(s, i, |s|, want, outbound)[j + moved] == s[j]
    decreases |s| - i
  {
    if i < |s| && want > 0 {
      CountStep(s, i, outbound);
      if outbound(s[i]) {
        var r := RotateFront(s, i);
        assert r[i + 1..] == s[i + 1..];
        assert r[j + 1] == s[j];
        BubbleShifts(r, i + 1, want - 1, outbound, j + 1, moved - 1);
      } else {
        BubbleShifts(s, i + 1, want, outbound, j, moved);
      }
    }
  }

  lemma {:induction false} DistinctSubset<P>(best: seq<P>, kept: seq<P>)
    requires Distinct(best) && forall b :: b in best ==> b in kept
    ensures |best| <= |kept|
    decreases |best|
  {
    if best != [] {
      var b := best[0];
      assert b in best;
      var k :| 0 <= k < |kept| && kept[k] == b;
      var rest := kept[..k] + kept[k + 1..];
      forall x | x in best[1..]
        ensures x in rest
      {
        assert x in best && x != b;
        var h :| 0 <= h < |kept| && kept[h] == x;
        assert x == if h < k then rest[h] else rest[h - 1];
      }
      DistinctSubset(best[1..], rest);
    }
  }

  lemma DistinctBounded(s: seq<nat>, n: nat)
    requires Distinct(s) && forall x :: x in s ==> x < n
    ensures |s| <= n
  {
    forall x | x in s
      ensures x in Iota(n)
    {
      assert Iota(n)[x] == x;
    }
    DistinctSubset(s, Iota(n));
  }

  function Iota(n: nat): (r: seq<nat>)
    ensures |r| == n && forall i :: 0 <= i < n ==> r[i] == i
  {
    seq(n, i => i)
  }

  /** Two of the chosen ones would have to be the same, or one scores too low. */
  lemma NotEnoughBest(best: seq<nat>, kept: seq<nat>, q: nat, Dscore: nat)
    requires |best| == Dscore && Distinct(best) && forall b :: b in best ==> b in kept
    requires q !in kept && q < Dscore
    ensures exists b :: b in best && b > q
  {
    if forall b :: b in best ==> b < q {
      DistinctBounded(best, q);
    } else {
      var b :| b in best && b >= q;
    }
  }

  lemma OneScoresTooLow(kept: seq<nat>, pruned: seq<nat>, q: nat, Dscore: nat, score: nat -> real)
    requires q in pruned && q !in kept && q < Dscore
    requires forall x: nat, y: nat :: x < y ==> score(x) > score(y)
    ensures !ScoreGuarantee(kept, pruned, Dscore, score)
  {
    forall best: seq<nat> | |best| == Dscore && Distinct(best) && (forall b :: b in best ==> b in kept)
      ensures exists b, q :: b in best && q in pruned && score(b) < score(q)
    {
      NotEnoughBest(best, kept, q, Dscore);
      var b :| b in best && b > q;
      assert score(b) < score(q);
    }
  }

  lemma TooFewKept<P(!new)>(kept: seq<P>, pruned: seq<P>, Dscore: nat, score: P -> real)
    requires |kept| < Dscore
    ensures !ScoreGuarantee(kept, pruned, Dscore, score)
  {
    forall best: seq<P> | Distinct(best) && (forall b :: b in best ==> b in kept)
      ensures |best| < Dscore
    {
      DistinctSubset(best, kept);
    }
  }

  /** Without room there is a mesh, in which the outbound peers score worst, whose
      pruning breaks the score guarantee. */
  lemma NoRoomFails(p: GossipSubParams) returns (ranked: seq<nat>, score: nat -> real, outbound: nat -> bool)
    requires p.Valid() && p.Sliceable() && !HasRoom(p)
    ensures PruneInput(ranked, ranked, p, score)
    ensures !ScoreGuarantee(Kept(ranked, p, outbound), Pruned(ranked, p, outbound), p.Dscore, score)
  {
    var Dout := if p.Dout > 0 then p.Dout else 0;
    var n := if p.Dhi > p.D + Dout then p.Dhi else p.D + Dout;
    ranked := Iota(n);
    score := (x: nat) => -(x as real);
    outbound := (x: nat) => x >= n - Dout;
    var kept, pruned := Kept(ranked, p, outbound), Pruned(ranked, p, outbound);
    if Dout > 0 {
      DisplacedIsPruned(p, n, score, outbound);
      OneScoresTooLow(kept, pruned, p.D - Dout, p.Dscore, score);
    } else {
      TooFewKept(kept, pruned, p.Dscore, score);
    }
  }

  lemma DisplacedIsPruned(p: GossipSubParams, n: nat, score: nat -> real, outbound: nat -> bool)
    requires PruneInput(Iota(n), Iota(n), p, score)
    requires 0 < p.Dout <= p.D && p.D + p.Dout <= n
    requires forall x: nat :: outbound(x) <==> x >= n - p.Dout
    ensures p.D - p.Dout in Pruned(Iota(n), p, outbound)
    ensures p.D - p.Dout !in Kept(Iota(n), p, outbound)
  {
    FirstDisplaced(p, n, outbound);
    assert Pruned(Iota(n), p, outbound)[0] == p.D - p.Dout;
    KeptAndPruned(Iota(n), Iota(n), p, score, outbound);
  }

  lemma CountTop(n: nat, D: nat, Dout: nat, outbound: nat -> bool)
    requires D + Dout <= n
    requires forall x: nat :: outbound(x) <==> x >= n - Dout
    ensures Count(Iota(n)[..D], outbound) == 0 && Count(Iota(n)[D..], outbound) == Dout
  {
    var s := Iota(n);
    CountNone(s[..D], outbound);
    assert s[D..] == s[D..n - Dout] + s[n - Dout..];
    CountConcat(s[D..n - Dout], s[n - Dout..], outbound);
    CountNone(s[D..n - Dout], outbound);
    CountAll(s[n - Dout..], outbound);
  }

  /** The peer that the last of the bubbled outbound peers pushes out. */
  lemma FirstDisplaced(p: GossipSubParams, n: nat, outbound: nat -> bool)
    requires p.Sliceable() && 0 < p.Dout <= p.D && p.D + p.Dout <= n
    requires forall x: nat :: outbound(x) <==> x >= n - p.Dout
    ensures Quota(Iota(n), p.D, p.Dout, outbound)[p.D] == p.D - p.Dout
  {
    var s, D, Dout := Iota(n), p.D, p.Dout;
    CountTop(n, D, Dout, outbound);
    BubbleShifts(s, D, Dout, outbound, D - Dout, Dout);
  }

  /** The score guarantee holds for every mesh, score, direction and shuffle
      exactly when the parameters leave room. */
  lemma ScoreGuaranteeExactly(p: GossipSubParams)
    requires p.Valid() && p.Sliceable()
    ensures HasRoom(p) <==>
            forall ranked: seq<nat>, shuffled: seq<nat>, score: nat -> real, outbound: nat -> bool ::
              PruneInput(ranked, shuffled, p, score) ==>
                ScoreGuarantee(Kept(shuffled, p, outbound), Pruned(shuffled, p, outbound), p.Dscore, score)
  {
    if HasRoom(p) {
      forall ranked: seq<nat>, shuffled: seq<nat>, score: nat -> real, outbound: nat -> bool
        | PruneInput(ranked, shuffled, p, score)
        ensures ScoreGuarantee(Kept(shuffled, p, outbound), Pruned(shuffled, p, outbound), p.Dscore, score)
      {
        PruningKeepsBest(ranked, shuffled, p, score, outbound);
      }
    } else {
      var ranked, score, outbound := NoRoomFails(p);
    }
  }

  // ------------------------------------------------------------ every order can come out

  /** The tails from lo to hi hold the same peers, and the rest is the same. */
  ghost predicate Reorders<P>(s: seq<P>, goal: seq<P>, lo: nat, hi: nat) {
    && lo <= hi <= |s| && |goal| == |s| && goal[..lo] == s[..lo] && goal[hi..] == s[hi..]
    && multiset(goal[lo..hi]) == multiset(s[lo..hi])
  }

  lemma SamePicks<P>(s: seq<P>, lo: nat, n: nat, a: nat -> nat, b: nat -> nat)
    requires lo + n <= |s| && PicksInRange(a) && PicksInRange(b) && forall i :: 0 <= i < n ==> a(i) == b(i)
    ensures Shuffled(s, lo, n, a) == Shuffled(s, lo, n, b)
  {
  }

  lemma SwapBack<P>(goal: seq<P>, i: nat, j: nat)
    requires i < |goal| && j < |goal|
    ensures Swap(Swap(goal, i, j), i, j) == goal
  {
  }

  lemma SwapInside<P>(m: seq<P>, i: nat, j: nat)
    requires i < |m| && j < |m|
    ensures multiset(Swap(m, i, j)) == multiset(m)
  {
    assert Swap(m, i, j) == m[i := m[j]][j := m[i]];
  }

  lemma SwapOutside<P>(s: seq<P>, goal: seq<P>, lo: nat, hi: nat, j: nat)
    requires lo <= j < hi <= |s| == |goal| && goal[..lo] == s[..lo] && goal[hi..] == s[hi..] && goal[j] == s[hi - 1]
    ensures var prev := Swap(goal, hi - 1, j); prev[..lo] == s[..lo] && prev[hi - 1..] == s[hi - 1..]
  {
    var prev := Swap(goal, hi - 1, j);
    forall k | hi - 1 <= k < |s|
      ensures prev[k] == s[k]
    {
      assert k >= hi ==> goal[hi..][k - hi] == s[hi..][k - hi];
    }
    assert forall k :: 0 <= k < lo ==> prev[k] == goal[..lo][k];
  }

  lemma SwapMiddle<P>(goal: seq<P>, lo: nat, hi: nat, j: nat)
    requires lo <= j < hi <= |goal|
    ensures Swap(goal, hi - 1, j)[lo..hi] == Swap(goal[lo..hi], hi - 1 - lo, j - lo)
  {
  }

  /** Without their last element. */
  lemma DropLast<P>(a: seq<P>, c: seq<P>)
    requires multiset(a) == multiset(c) && a != [] && |a| == |c| && a[|a| - 1] == c[|a| - 1]
    ensures multiset(a[..|a| - 1]) == multiset(c[..|a| - 1])
  {
    RemoveFromBoth(a, c, |a| - 1);
    assert c[..|a| - 1] + c[|a| - 1 + 1..] == c[..|a| - 1];
  }

  lemma FindLast<P>(a: seq<P>, b: seq<P>) returns (i: nat)
    requires multiset(a) == multiset(b) && a != []
    ensures i < |b| && b[i] == a[|a| - 1]
  {
    assert a[|a| - 1] in multiset(b);
    i :| 0 <= i < |b| && b[i] == a[|a| - 1];
  }

  /** The step before the last: what is to come last is put where it comes from. */
  lemma StepBack<P>(s: seq<P>, goal: seq<P>, lo: nat, hi: nat) returns (j: nat)
    requires Reorders(s, goal, lo, hi) && lo < hi
    ensures lo <= j < hi && Reorders(s, Swap(goal, hi - 1, j), lo, hi - 1)
  {
    hide Swap;
    var a, b, n := s[lo..hi], goal[lo..hi], hi - lo;
    var i := FindLast(a, b);
    j := lo + i;
    var prev := Swap(goal, hi - 1, j);
    SwapOutside(s, goal, lo, hi, j);
    SwapMiddle(goal, lo, hi, j);
    SwapInside(b, n - 1, i);
    assert prev[lo..hi][n - 1] == prev[hi - 1..][0];
    DropLast(a, prev[lo..hi]);
    assert a[..n - 1] == s[lo..hi - 1] && prev[lo..hi][..n - 1] == prev[lo..hi - 1];
  }

  /** Every order of the tail is the result of some random numbers. */
  lemma {:induction false} ShuffleReaches<P>(s: seq<P>, lo: nat, n: nat, goal: seq<P>) returns (pick: nat -> nat)
    requires Reorders(s, goal, lo, lo + n)
    ensures PicksInRange(pick) && Shuffled(s, lo, n, pick) == goal
  {
    hide Reorders, Swap;
    if n == 0 {
      pick := i => 0;
      NothingReordered(s, goal, lo);
    } else {
      Lengths(s, goal, lo, lo + n);
      var j := StepBack(s, goal, lo, lo + n);
      var prev := Swap(goal, lo + n - 1, j);
      var before := ShuffleReaches(s, lo, n - 1, prev);
      pick := i => if i == n - 1 then j - lo else before(i);
      SamePicks(s, lo, n - 1, pick, before);
      SwapBack(goal, lo + n - 1, j);
    }
  }

  lemma NothingReordered<P>(s: seq<P>, goal: seq<P>, lo: nat)
    requires Reorders(s, goal, lo, lo)
    ensures lo <= |s| && goal == s
  {
    assert s == s[..lo] + s[lo..] && goal == goal[..lo] + goal[lo..];
  }

  lemma Lengths<P>(s: seq<P>, goal: seq<P>, lo: nat, hi: nat)
    requires Reorders(s, goal, lo, hi)
    ensures lo <= hi <= |s| == |goal|
  {
  }
}
