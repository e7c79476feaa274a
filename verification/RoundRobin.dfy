/** The round-robin scheduler of a message batch. */
module RoundRobin {
  import opened Basics
  import opened Ids

  datatype Pending = Pending(peer: Peer, rpc: nat)

  datatype Yield = Yield(id: MsgId, item: Pending)

  type Queues = map<MsgId, seq<Pending>>

  function Queue(qs: Queues, id: MsgId): seq<Pending> { if id in qs then qs[id] else [] }

  /** What was yielded for one message id. */
  function Of(out: seq<Yield>, id: MsgId): seq<Pending> {
    if out == [] then []
    else Of(out[..|out| - 1], id) + if out[|out| - 1].id == id then [out[|out| - 1].item] else []
  }

  lemma OfAppend(out: seq<Yield>, y: Yield, id: MsgId)
    ensures Of(out + [y], id) == if y.id == id then Of(out, id) + [y.item] else Of(out, id)
  {
    assert (out + [y])[..|out + [y]| - 1] == out;
    assert Of(out, id) + [] == Of(out, id);
  }

  /** The yields are, with multiplicity, what was yielded for each id. */
  lemma {:induction false} YieldsCount(out: seq<Yield>, y: Yield)
    ensures multiset(out)[y] == multiset(Of(out, y.id))[y.item]
  {
    if out != [] {
      var init, last := out[..|out| - 1], out[|out| - 1];
      YieldsCount(init, y);
      assert out == init + [last];
      OfAppend(init, last, y.id);
    }
  }

  /** How many of an id's RPCs have gone after k passes, and one more visit unless
      the id is in `rest`. */
  function Gone(start: Queues, k: nat, rest: set<MsgId>, id: MsgId): nat {
    Min(|Queue(start, id)|, Visits(k, rest, id))
  }

  function Visits(k: nat, rest: set<MsgId>, id: MsgId): nat { if id in rest then k else k + 1 }

  /** At this point, ids that both have RPCs left are at most one yield apart. */
  predicate FairAt(start: Queues, out: seq<Yield>, a: MsgId, b: MsgId) {
    |Of(out, a)| < |Queue(start, a)| && |Of(out, b)| < |Queue(start, b)| ==>
      |Of(out, a)| <= |Of(out, b)| + 1 && |Of(out, b)| <= |Of(out, a)| + 1
  }

  ghost predicate Fair(start: Queues, out: seq<Yield>) {
    forall n, a, b :: 0 <= n <= |out| ==> FairAt(start, out[..n], a, b)
  }

  predicate Kept(start: Queues, qs: Queues, out: seq<Yield>, k: nat, rest: set<MsgId>, id: MsgId) {
    && Of(out, id) == Queue(start, id)[..Gone(start, k, rest, id)]
    && (if id in qs then id in start && qs[id] == start[id][Gone(start, k, rest, id)..]
                         && Visits(k, rest, id) <= |start[id]|
        else Gone(start, k, rest, id) == |Queue(start, id)|)
  }

  /** The state of a pass: the ids of `rest` are still to be visited. */
  ghost predicate Pass(start: Queues, qs: Queues, out: seq<Yield>, k: nat, rest: set<MsgId>) {
    && rest <= qs.Keys && Fair(start, out)
    && forall id :: Kept(start, qs, out, k, rest, id)
  }

  lemma PassFair(start: Queues, qs: Queues, out: seq<Yield>, k: nat, rest: set<MsgId>, a: MsgId, b: MsgId)
    requires forall id :: Kept(start, qs, out, k, rest, id)
    ensures FairAt(start, out, a, b)
  {
    assert Kept(start, qs, out, k, rest, a) && Kept(start, qs, out, k, rest, b);
  }

  lemma FairNext(start: Queues, out: seq<Yield>, y: Yield)
    requires Fair(start, out) && forall a, b :: FairAt(start, out + [y], a, b)
    ensures Fair(start, out + [y])
  {
    var out' := out + [y];
    forall n, a, b | 0 <= n <= |out'|
      ensures FairAt(start, out'[..n], a, b)
    {
      if n <= |out| {
        assert out'[..n] == out[..n];
        assert FairAt(start, out[..n], a, b);
      } else {
        assert out'[..n] == out';
      }
    }
  }

  /** Visiting an id with an empty queue. */
  lemma PassDrop(start: Queues, qs: Queues, out: seq<Yield>, k: nat, rest: set<MsgId>, id: MsgId)
    requires Pass(start, qs, out, k, rest) && id in rest && qs[id] == []
    ensures Pass(start, qs - {id}, out, k, rest - {id})
  {
    var qs', rest' := qs - {id}, rest - {id};
    forall x
      ensures Kept(start, qs', out, k, rest', x)
    {
      assert Kept(start, qs, out, k, rest, x);
    }
  }

  /** Visiting one with RPCs left. */
  lemma PassYield(start: Queues, qs: Queues, out: seq<Yield>, k: nat, rest: set<MsgId>, id: MsgId)
    requires Pass(start, qs, out, k, rest) && id in rest && qs[id] != []
    ensures Pass(start, qs[id := qs[id][1..]], out + [Yield(id, qs[id][0])], k, rest - {id})
  {
    var y := Yield(id, qs[id][0]);
    var qs', out', rest' := qs[id := qs[id][1..]], out + [y], rest - {id};
    forall x
      ensures Kept(start, qs', out', k, rest', x)
    {
      assert Kept(start, qs, out, k, rest, x);
      OfAppend(out, y, x);
      if x == id {
        var g := Gone(start, k, rest, id);
        assert start[id][g..][0] == start[id][g];
        assert start[id][..g] + [start[id][g]] == start[id][..g + 1];
        assert start[id][g..][1..] == start[id][g + 1..];
      }
    }
    forall a, b
      ensures FairAt(start, out', a, b)
    {
      PassFair(start, qs', out', k, rest', a, b);
    }
    FairNext(start, out, y);
  }

  lemma PassOver(start: Queues, qs: Queues, out: seq<Yield>, k: nat)
    requires Pass(start, qs, out, k, {})
    ensures Pass(start, qs, out, k + 1, qs.Keys)
  {
    var next, all := k + 1, qs.Keys;
    forall id
      ensures Kept(start, qs, out, next, all, id)
    {
      assert Kept(start, qs, out, k, {}, id);
    }
  }

  lemma PassBegins(start: Queues)
    ensures Pass(start, start, [], 0, start.Keys)
  {
    forall id
      ensures Kept(start, start, [], 0, start.Keys, id)
    {
    }
    forall n, a, b | 0 <= n <= 0
      ensures FairAt(start, [][..n], a, b)
    {
      assert Of([][..n], a) == [] && Of([][..n], b) == [];
    }
  }

  ghost function Longest(qs: Queues): nat {
    if qs == map[] then 0 else var id :| id in qs; var m := Longest(qs - {id}); if |qs[id]| > m then |qs[id]| else m
  }

  lemma {:induction false} LongestBounds(qs: Queues, id: MsgId)
    requires id in qs
    ensures |qs[id]| <= Longest(qs)
    decreases |qs|
  {
    var x :| x in qs && Longest(qs) == if |qs[x]| > Longest(qs - {x}) then |qs[x]| else Longest(qs - {x});
    if x != id {
      LongestBounds(qs - {x}, id);
    }
  }

  class Scheduler {
    var rpcs: Queues

    constructor ()
      ensures rpcs == map[]
    {
      rpcs := map[];
    }

    method AddRPC(peer: Peer, id: MsgId, rpc: nat)
      modifies this
      ensures forall x :: Queue(rpcs, x) == Queue(old(rpcs), x) + if x == id then [Pending(peer, rpc)] else []
    {
      rpcs := rpcs[id := (if id in rpcs then rpcs[id] else []) + [Pending(peer, rpc)]];
    }

    /** Everything that All yields, when it is never stopped: each id's RPCs in the
        order they were added, and no id ahead of another by more than one while
        both have RPCs left. */
    method All() returns (out: seq<Yield>)
      modifies this
      ensures rpcs == map[]
      ensures forall id :: Of(out, id) == Queue(old(rpcs), id)
      ensures forall y :: multiset(out)[y] == multiset(Queue(old(rpcs), y.id))[y.item]
      ensures Fair(old(rpcs), out)
    {
      ghost var start, k := rpcs, 0;
      out := [];
      PassBegins(start);
      while rpcs != map[]
        invariant Pass(start, rpcs, out, k, rpcs.Keys) && k <= Longest(start) + 1
        decreases Longest(start) + 1 - k
      {
        SomeLeft(start, rpcs, out, k);
        out := OnePass(out, start, k);
        PassOver(start, rpcs, out, k);
        k := k + 1;
      }
      forall id
        ensures Of(out, id) == Queue(start, id)
      {
        assert Kept(start, rpcs, out, k, rpcs.Keys, id);
      }
      forall y
        ensures multiset(out)[y] == multiset(Queue(start, y.id))[y.item]
      {
        YieldsCount(out, y);
      }
    }

    /** One walk over the map, in any order. */
    method OnePass(before: seq<Yield>, ghost start: Queues, ghost k: nat) returns (out: seq<Yield>)
      requires Pass(start, rpcs, before, k, rpcs.Keys)
      modifies this
      ensures Pass(start, rpcs, out, k, {})
    {
      hide Kept, Fair, Of;
      out := before;
      var rest := rpcs.Keys;
      while rest != {}
        invariant Pass(start, rpcs, out, k, rest)
        decreases rest
      {
        var id :| id in rest;
        var q := rpcs[id];
        if |q| == 0 {
          PassDrop(start, rpcs, out, k, rest, id);
          rpcs := rpcs - {id};
        } else {
          PassYield(start, rpcs, out, k, rest, id);
          out := out + [Yield(id, q[0])];
          rpcs := rpcs[id := q[1..]];
        }
        rest := rest - {id};
      }
    }
  }

  /** As long as there are queues, a pass is due. */
  lemma SomeLeft(start: Queues, qs: Queues, out: seq<Yield>, k: nat)
    requires Pass(start, qs, out, k, qs.Keys) && qs != map[]
    ensures k <= Longest(start)
  {
    var id :| id in qs;
    assert Kept(start, qs, out, k, qs.Keys, id);
    LongestBounds(start, id);
  }
}
