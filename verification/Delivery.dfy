/** At most one delivery per message id and TTL.

    A time cache, in either of its two strategies, is a fold over the operations
    made on it; deliveries are the Adds that found nothing.
  */
module Delivery {
  import opened Ids

  datatype Strategy = FirstSeen | LastSeen

  /** An operation and the time it was made; a sweep may work with an older tick. */
  datatype Op =
    | Add(id: MsgId, at: Time)
    | Has(id: MsgId, at: Time)
    | Sweep(now: Time, at: Time)

  type Cache = map<MsgId, Time>

  function Swept(m: Cache, now: Time): Cache { map id | id in m && !(m[id] < now) :: m[id] }

  function After(m: Cache, op: Op, strategy: Strategy, ttl: Duration): Cache {
    match op
    case Add(id, at) => if strategy.LastSeen? || id !in m then m[id := at + ttl] else m
    case Has(id, at) => if strategy.LastSeen? && id in m then m[id := at + ttl] else m
    case Sweep(now, _) => Swept(m, now)
  }

  function Run(ops: seq<Op>, strategy: Strategy, ttl: Duration): Cache {
    if ops == [] then map[] else After(Run(ops[..|ops| - 1], strategy, ttl), ops[|ops| - 1], strategy, ttl)
  }

  /** Add returned true. */
  predicate IsFresh(ops: seq<Op>, i: nat, strategy: Strategy, ttl: Duration)
    requires i < |ops|
  {
    ops[i].Add? && ops[i].id !in Run(ops[..i], strategy, ttl)
  }

  /** The operation found, or left, an entry for the id. */
  predicate Touches(ops: seq<Op>, i: nat, id: MsgId, strategy: Strategy, ttl: Duration)
    requires i < |ops|
  {
    || (ops[i].Add? && ops[i].id == id)
    || (ops[i].Has? && ops[i].id == id && id in Run(ops[..i], strategy, ttl))
  }

  /** Time does not go back, and a tick is not from the future. */
  predicate Ordered(ops: seq<Op>) {
    && (forall i, j :: 0 <= i < j < |ops| ==> ops[i].at <= ops[j].at)
    && (forall i :: 0 <= i < |ops| && ops[i].Sweep? ==> ops[i].now <= ops[i].at)
  }

  /** Whether the touch renews the entry for sure: any touch if last seen, a fresh
      Add if first seen. */
  predicate Renews(ops: seq<Op>, i: nat, id: MsgId, strategy: Strategy, ttl: Duration)
    requires i < |ops|
  {
    Touches(ops, i, id, strategy, ttl) && (strategy.LastSeen? || IsFresh(ops, i, strategy, ttl))
  }

  lemma RunNext(ops: seq<Op>, i: nat, strategy: Strategy, ttl: Duration)
    requires i < |ops|
    ensures Run(ops[..i + 1], strategy, ttl) == After(Run(ops[..i], strategy, ttl), ops[i], strategy, ttl)
  {
    assert ops[..i + 1][..i] == ops[..i];
  }

  /** An entry lasts until a sweep after its expiry. */
  lemma {:induction false} EntryLasts(ops: seq<Op>, i: nat, j: nat, id: MsgId, strategy: Strategy, ttl: Duration)
    requires Ordered(ops) && i < j <= |ops| && Renews(ops, i, id, strategy, ttl)
    ensures var m := Run(ops[..j], strategy, ttl);
            || (id in m && m[id] >= ops[i].at + ttl)
            || (j - 1 > i && ops[j - 1].at > ops[i].at + ttl)
    decreases j
  {
    RunNext(ops, j - 1, strategy, ttl);
    if j > i + 1 {
      EntryLasts(ops, i, j - 1, id, strategy, ttl);
      assert ops[i].at <= ops[j - 1].at;
      if j - 2 > i {
        assert ops[j - 2].at <= ops[j - 1].at;
      }
    }
  }

  /** Two fresh Adds of one id are more than the TTL apart; with the last-seen
      strategy a fresh Add is that far from every earlier touch. */
  lemma FreshAddsApart(ops: seq<Op>, i: nat, j: nat, id: MsgId, strategy: Strategy, ttl: Duration)
    requires Ordered(ops) && i < j < |ops| && Renews(ops, i, id, strategy, ttl)
    requires IsFresh(ops, j, strategy, ttl) && ops[j].id == id
    ensures ops[j].at - ops[i].at > ttl
  {
    EntryLasts(ops, i, j, id, strategy, ttl);
    if j - 1 > i {
      assert ops[j - 1].at <= ops[j].at;
    }
  }

  /** Conversely, an Add is fresh once a sweep has come after the TTL and nothing
      has touched the id since. */
  lemma {:induction false} ForgottenAfterSweep(ops: seq<Op>, k: nat, j: nat, strategy: Strategy, ttl: Duration)
    requires Ordered(ops) && k < j < |ops| && ops[k].Sweep? && ops[j].Add?
    requires forall i :: 0 <= i < k && Touches(ops, i, ops[j].id, strategy, ttl) ==> ops[i].at + ttl < ops[k].now
    requires forall i :: k < i < j ==> !Touches(ops, i, ops[j].id, strategy, ttl)
    ensures IsFresh(ops, j, strategy, ttl)
  {
    EntryIsFromTouch(ops, k, ops[j].id, strategy, ttl);
    RunNext(ops, k, strategy, ttl);
    StaysForgotten(ops, k + 1, j, ops[j].id, strategy, ttl);
  }

  /** Every entry is a touch plus the TTL. */
  lemma {:induction false} EntryIsFromTouch(ops: seq<Op>, j: nat, id: MsgId, strategy: Strategy, ttl: Duration)
    requires j <= |ops|
    ensures id in Run(ops[..j], strategy, ttl) ==>
              exists i :: && 0 <= i < j && Touches(ops, i, id, strategy, ttl)
                          && Run(ops[..j], strategy, ttl)[id] == ops[i].at + ttl
  {
    if j > 0 {
      RunNext(ops, j - 1, strategy, ttl);
      EntryIsFromTouch(ops, j - 1, id, strategy, ttl);
      assert id in Run(ops[..j], strategy, ttl) && id !in Run(ops[..j - 1], strategy, ttl) ==>
          Touches(ops, j - 1, id, strategy, ttl);
    }
  }

  lemma {:induction false} StaysForgotten(ops: seq<Op>, k: nat, j: nat, id: MsgId, strategy: Strategy, ttl: Duration)
    requires k <= j <= |ops| && id !in Run(ops[..k], strategy, ttl)
    requires forall i :: k <= i < j ==> !Touches(ops, i, id, strategy, ttl)
    ensures id !in Run(ops[..j], strategy, ttl)
    decreases j
  {
    if k < j {
      StaysForgotten(ops, k, j - 1, id, strategy, ttl);
      assert !Touches(ops, j - 1, id, strategy, ttl);
      RunNext(ops, j - 1, strategy, ttl);
    }
  }

  /** No sweep from the i-th operation on comes after the TTL of that operation. */
  predicate Unswept(ops: seq<Op>, i: nat, j: nat, ttl: Duration)
    requires i < j <= |ops|
  {
    forall k :: i < k < j && ops[k].Sweep? ==> ops[k].now <= ops[i].at + ttl
  }

  lemma {:induction false} UnsweptLasts(ops: seq<Op>, i: nat, j: nat, id: MsgId, strategy: Strategy, ttl: Duration)
    requires Ordered(ops) && i < j <= |ops| && Renews(ops, i, id, strategy, ttl) && Unswept(ops, i, j, ttl)
    ensures var m := Run(ops[..j], strategy, ttl); id in m && m[id] >= ops[i].at + ttl
    decreases j
  {
    RunNext(ops, j - 1, strategy, ttl);
    if j > i + 1 {
      UnsweptLasts(ops, i, j - 1, id, strategy, ttl);
      assert ops[i].at <= ops[j - 1].at;
    }
  }

  lemma {:induction false} EntryIsRenewal(ops: seq<Op>, j: nat, id: MsgId, strategy: Strategy, ttl: Duration)
    returns (i: nat)
    requires j <= |ops| && id in Run(ops[..j], strategy, ttl)
    ensures i < j && Renews(ops, i, id, strategy, ttl) && Unswept(ops, i, j, ttl)
    ensures Run(ops[..j], strategy, ttl)[id] == ops[i].at + ttl
  {
    RunNext(ops, j - 1, strategy, ttl);
    if Renews(ops, j - 1, id, strategy, ttl) {
      i := j - 1;
    } else {
      i := EntryIsRenewal(ops, j - 1, id, strategy, ttl);
    }
  }

  /** An id is in the cache exactly if some operation renewed it, a fresh Add if first
      seen and any touch if last seen, and no sweep has come after the TTL since. */
  lemma CachedExactly(ops: seq<Op>, j: nat, id: MsgId, strategy: Strategy, ttl: Duration)
    requires Ordered(ops) && j <= |ops|
    ensures id in Run(ops[..j], strategy, ttl) <==>
            exists i: nat :: i < j && Renews(ops, i, id, strategy, ttl) && Unswept(ops, i, j, ttl)
  {
    if id in Run(ops[..j], strategy, ttl) {
      var i := EntryIsRenewal(ops, j, id, strategy, ttl);
    }
    if i: nat :| i < j && Renews(ops, i, id, strategy, ttl) && Unswept(ops, i, j, ttl) {
      UnsweptLasts(ops, i, j, id, strategy, ttl);
    }
  }

  // ------------------------------------------------------------ the caches

  class TimeCache {
    const strategy: Strategy
    const ttl: Duration
    var m: Cache

    constructor (strategy: Strategy, ttl: Duration)
      ensures this.strategy == strategy && this.ttl == ttl && m == map[]
    {
      this.strategy, this.ttl, m := strategy, ttl, map[];
    }

    method Add(id: MsgId, now: Time) returns (fresh_: bool)
      modifies this
      ensures m == After(old(m), Op.Add(id, now), strategy, ttl)
      ensures fresh_ <==> id !in old(m)
    {
      fresh_ := id !in m;
      if strategy.FirstSeen? {
        if id in m {
          return;
        }
        m := m[id := now + ttl];
      } else {
        m := m[id := now + ttl];
      }
    }

    method Has(id: MsgId, now: Time) returns (ok: bool)
      modifies this
      ensures m == After(old(m), Op.Has(id, now), strategy, ttl)
      ensures ok <==> id in old(m)
    {
      ok := id in m;
      if ok && strategy.LastSeen? {
        m := m[id := now + ttl];
      }
    }

    method Sweep(now: Time)
      modifies this
      ensures m == Swept(old(m), now)
    {
      ghost var start := m;
      var rest := m.Keys;
      while rest != {}
        invariant rest <= start.Keys
        invariant m == map id | id in start && (id in rest || !(start[id] < now)) :: start[id]
        decreases rest
      {
        var id :| id in rest;
        rest := rest - {id};
        if m[id] < now {
          m := m - {id};
        }
      }
    }
  }

  // ------------------------------------------------------------ delivering

  datatype Message = Message(id: MsgId, local: bool, payload: nat)

  /** A message handed on, and the cache operation that let it through. */
  datatype Event = Event(msg: Message, at: Time, op: nat)

  /** Which operations were fresh Adds. */
  ghost predicate Fits(ops: seq<Op>, hits: seq<bool>, strategy: Strategy, ttl: Duration) {
    |hits| == |ops| && forall i :: 0 <= i < |ops| ==> hits[i] == IsFresh(ops, i, strategy, ttl)
  }

  lemma FitsNext(ops: seq<Op>, hits: seq<bool>, op: Op, strategy: Strategy, ttl: Duration)
    requires Fits(ops, hits, strategy, ttl)
    ensures Fits(ops + [op], hits + [op.Add? && op.id !in Run(ops, strategy, ttl)], strategy, ttl)
  {
    var ops' := ops + [op];
    forall i | 0 <= i < |ops'|
      ensures ops'[..i] == ops[..i]
    {
    }
    assert ops[..|ops|] == ops;
    forall i | 0 <= i < |ops|
      ensures IsFresh(ops', i, strategy, ttl) == IsFresh(ops, i, strategy, ttl)
    {
    }
  }

  /** Each event belongs to a fresh Add of its own, in order. */
  ghost predicate Linked(log: seq<Event>, ops: seq<Op>, hits: seq<bool>) {
    && (forall k :: 0 <= k < |log| ==>
          && log[k].op < |ops| && log[k].op < |hits| && hits[log[k].op]
          && ops[log[k].op] == Op.Add(log[k].msg.id, log[k].at))
    && (forall i, j :: 0 <= i < j < |log| ==> log[i].op < log[j].op)
  }

  /** Two deliveries of one message id are more than the TTL apart. */
  lemma DeliveriesApart(log: seq<Event>, ops: seq<Op>, hits: seq<bool>, strategy: Strategy, ttl: Duration,
                        i: nat, j: nat)
    requires Ordered(ops) && Fits(ops, hits, strategy, ttl) && Linked(log, ops, hits)
    requires i < j < |log| && log[i].msg.id == log[j].msg.id
    ensures log[j].at - log[i].at > ttl
  {
    FreshAddsApart(ops, log[i].op, log[j].op, log[i].msg.id, strategy, ttl);
  }

  /** The messages of a batch that are new, given the ids that are not. */
  function NewOnes(batch: seq<Message>, known: set<MsgId>): seq<Message> {
    if batch == [] then []
    else
      var init, last := batch[..|batch| - 1], batch[|batch| - 1];
      if last.id in known || InBatch(init, last.id) then NewOnes(init, known) else NewOnes(init, known) + [last]
  }

  predicate InBatch(batch: seq<Message>, id: MsgId) { exists k :: 0 <= k < |batch| && batch[k].id == id }

  function Messages(log: seq<Event>): seq<Message> { seq(|log|, i requires 0 <= i < |log| => log[i].msg) }

  lemma InBatchNext(batch: seq<Message>, i: nat, id: MsgId)
    requires i < |batch|
    ensures InBatch(batch[..i + 1], id) <==> InBatch(batch[..i], id) || batch[i].id == id
  {
    if InBatch(batch[..i], id) {
      var k :| 0 <= k < i && batch[..i][k].id == id;
      assert batch[..i + 1][k].id == id;
    }
    assert batch[..i + 1][i] == batch[i];
  }

  /** The part of the process loop that delivers.  `ops` is the history of the
      delivered-messages cache; `toSubs` and `toRouter` are what was handed on. */
  class Deliverer {
    const cache: TimeCache
    ghost var ops: seq<Op>
    ghost var hits: seq<bool>
    ghost var toSubs: seq<Event>
    ghost var toRouter: seq<Event>

    constructor (strategy: Strategy, ttl: Duration)
      ensures Valid() && fresh(cache) && ops == [] && toSubs == [] && toRouter == []
      ensures cache.strategy == strategy && cache.ttl == ttl
    {
      cache := new TimeCache(strategy, ttl);
      ops, hits, toSubs, toRouter := [], [], [], [];
    }

    ghost predicate History()
      reads this, cache
    {
      Ordered(ops) && cache.m == Run(ops, cache.strategy, cache.ttl) && Fits(ops, hits, cache.strategy, cache.ttl)
    }

    ghost predicate Valid()
      reads this, cache
    {
      |hits| == |ops| && History() && Linked(toSubs, ops, hits) && Linked(toRouter, ops, hits)
    }

    ghost predicate NotBefore(now: Time)
      reads this
    {
      forall i :: 0 <= i < |ops| ==> ops[i].at <= now
    }

    /** What a valid state promises about everything that was handed on. */
    lemma NothingTwiceWithinTTL(i: nat, j: nat)
      requires Valid() && i < j
      ensures j < |toSubs| && toSubs[i].msg.id == toSubs[j].msg.id ==> toSubs[j].at - toSubs[i].at > cache.ttl
      ensures j < |toRouter| && toRouter[i].msg.id == toRouter[j].msg.id ==> toRouter[j].at - toRouter[i].at > cache.ttl
    {
      if j < |toSubs| && toSubs[i].msg.id == toSubs[j].msg.id {
        DeliveriesApart(toSubs, ops, hits, cache.strategy, cache.ttl, i, j);
      }
      if j < |toRouter| && toRouter[i].msg.id == toRouter[j].msg.id {
        DeliveriesApart(toRouter, ops, hits, cache.strategy, cache.ttl, i, j);
      }
    }

    ghost method Note(op: Op, before: Cache)
      requires Ordered(ops) && before == Run(ops, cache.strategy, cache.ttl)
      requires Fits(ops, hits, cache.strategy, cache.ttl)
      requires cache.m == After(before, op, cache.strategy, cache.ttl)
      requires NotBefore(op.at) && (op.Sweep? ==> op.now <= op.at)
      modifies this`ops, this`hits
      ensures History() && NotBefore(op.at) && ops == old(ops) + [op] && |hits| == |ops|
      ensures hits == old(hits) + [op.Add? && op.id !in before]
    {
      FitsNext(ops, hits, op, cache.strategy, cache.ttl);
      ops, hits := ops + [op], hits + [op.Add? && op.id !in before];
      assert ops[..|ops| - 1] == old(ops);
    }

    /** markDelivered: whether the message is new. */
    method MarkDelivered(id: MsgId, now: Time) returns (first: bool)
      requires History() && NotBefore(now)
      modifies this`ops, this`hits, cache
      ensures History() && NotBefore(now)
      ensures ops == old(ops) + [Op.Add(id, now)] && |hits| == |ops| && hits == old(hits) + [first]
      ensures first <==> id !in old(cache.m)
      ensures forall k :: k in cache.m <==> k in old(cache.m) || k == id
    {
      first := cache.Add(id, now);
      Note(Op.Add(id, now), old(cache.m));
    }

    /** markDelivered and notifySubs. */
    method DeliverOne(msg: Message, now: Time) returns (first: bool)
      requires Valid() && NotBefore(now)
      modifies this`ops, this`hits, this`toSubs, cache
      ensures Valid() && NotBefore(now) && |ops| == |old(ops)| + 1
      ensures first <==> msg.id !in old(cache.m)
      ensures forall id :: id in cache.m <==> id in old(cache.m) || id == msg.id
      ensures toSubs == old(toSubs) + (if first then [Event(msg, now, |ops| - 1)] else [])
      ensures first ==> hits[|ops| - 1] && ops[|ops| - 1] == Op.Add(msg.id, now)
    {
      first := MarkDelivered(msg.id, now);
      if first {
        toSubs := toSubs + [Event(msg, now, |ops| - 1)];
      }
    }

    /** A duplicate goes nowhere; a new message goes to the subscribers and, unless
        it is local only, to the router. */
    method PublishMessage(msg: Message, now: Time)
      requires Valid() && NotBefore(now)
      modifies this, cache
      ensures Valid() && NotBefore(now)
      ensures Messages(toSubs) == Messages(old(toSubs)) + (if msg.id in old(cache.m) then [] else [msg])
      ensures Messages(toRouter) == Messages(old(toRouter))
                                    + (if msg.id in old(cache.m) || msg.local then [] else [msg])
    {
      var first := DeliverOne(msg, now);
      if first && !msg.local {
        toRouter := toRouter + [Event(msg, now, |ops| - 1)];
      }
    }

    /** validate asks whether a message was delivered. */
    method WasDelivered(id: MsgId, now: Time) returns (yes: bool)
      requires Valid() && NotBefore(now)
      modifies this`ops, this`hits, cache
      ensures Valid() && NotBefore(now)
      ensures yes <==> id in old(cache.m)
    {
      yes := cache.Has(id, now);
      Note(Op.Has(id, now), old(cache.m));
    }

    method SweepCache(tick: Time, now: Time)
      requires Valid() && NotBefore(now) && tick <= now
      modifies this`ops, this`hits, cache
      ensures Valid() && NotBefore(now)
      ensures cache.m == Swept(old(cache.m), tick)
    {
      cache.Sweep(tick);
      Note(Op.Sweep(tick, now), old(cache.m));
    }

    /** The loop of a batch, which delivers to the subscribers. */
    method DeliverAll(batch: seq<Message>, now: nat -> Time) returns (msgs: seq<Message>)
      requires Valid() && NotBefore(now(0)) && forall i: nat, j: nat :: i <= j ==> now(i) <= now(j)
      modifies this`ops, this`hits, this`toSubs, cache
      ensures Valid() && NotBefore(now(|batch|))
      ensures msgs == NewOnes(batch, old(cache.m.Keys))
      ensures Appends(old(toSubs), toSubs, msgs, |old(ops)|)
    {
      msgs := [];
      ghost var start, known, n := toSubs, cache.m.Keys, |ops|;
      for i := 0 to |batch|
        invariant Valid() && NotBefore(now(i)) && n <= |ops|
        invariant msgs == NewOnes(batch[..i], known)
        invariant forall id :: id in cache.m <==> id in known || InBatch(batch[..i], id)
        invariant Appends(start, toSubs, msgs, n)
      {
        BatchNext(batch, i, known);
        AppendsNext(start, toSubs, msgs, n, batch[i], now(i), |ops|);
        var first := DeliverOne(batch[i], now(i));
        assert now(i) <= now(i + 1);
        if first {
          msgs := msgs + [batch[i]];
        }
      }
      assert batch[..|batch|] == batch;
    }

    /** A batch (message i at time now(i)) delivers, in order, each message whose id is neither in the cache
        nor earlier in the batch, and hands exactly those to the router. */
    method PublishMessageBatch(batch: seq<Message>, now: nat -> Time) returns (msgs: seq<Message>)
      requires Valid() && NotBefore(now(0)) && forall i: nat, j: nat :: i <= j ==> now(i) <= now(j)
      modifies this, cache
      ensures Valid() && NotBefore(now(|batch|))
      ensures msgs == NewOnes(batch, old(cache.m.Keys))
      ensures Messages(toSubs) == Messages(old(toSubs)) + msgs
      ensures Messages(toRouter) == Messages(old(toRouter)) + msgs
    {
      ghost var start, n := toSubs, |ops|;
      assert forall k :: 0 <= k < |toRouter| ==> toRouter[k].op < n;
      msgs := DeliverAll(batch, now);
      AppendsMessages(start, toSubs, msgs, n, toRouter, ops, hits);
      toRouter := toRouter + toSubs[|start|..];
    }
  }

  /** The log has grown by these messages, at operations from n on. */
  ghost predicate Appends(was: seq<Event>, log: seq<Event>, msgs: seq<Message>, n: nat) {
    && |log| == |was| + |msgs| && log[..|was|] == was
    && forall k :: |was| <= k < |log| ==> log[k].msg == msgs[k - |was|] && n <= log[k].op
  }

  lemma AppendsNext(was: seq<Event>, log: seq<Event>, msgs: seq<Message>, n: nat, msg: Message, at: Time, op: nat)
    requires Appends(was, log, msgs, n) && n <= op
    ensures Appends(was, log + [Event(msg, at, op)], msgs + [msg], n)
  {
    assert (log + [Event(msg, at, op)])[..|was|] == was;
  }

  lemma AppendsMessages(was: seq<Event>, log: seq<Event>, msgs: seq<Message>, n: nat,
                        other: seq<Event>, ops: seq<Op>, hits: seq<bool>)
    requires Appends(was, log, msgs, n) && Linked(log, ops, hits) && Linked(other, ops, hits)
    requires forall k :: 0 <= k < |other| ==> other[k].op < n
    ensures Messages(log) == Messages(was) + msgs
    ensures Linked(other + log[|was|..], ops, hits) && Messages(other + log[|was|..]) == Messages(other) + msgs
  {
    var more := log[|was|..];
    assert forall k :: 0 <= k < |more| ==> more[k] == log[|was| + k];
    assert forall k :: 0 <= k < |was| ==> log[k] == was[k];
    LinkedMore(other, n, more, ops, hits);
  }

  lemma BatchNext(batch: seq<Message>, i: nat, known: set<MsgId>)
    requires i < |batch|
    ensures NewOnes(batch[..i + 1], known)
            == if batch[i].id in known || InBatch(batch[..i], batch[i].id) then NewOnes(batch[..i], known)
               else NewOnes(batch[..i], known) + [batch[i]]
    ensures forall id :: InBatch(batch[..i + 1], id) <==> InBatch(batch[..i], id) || batch[i].id == id
  {
    assert batch[..i + 1][..i] == batch[..i];
    forall id
      ensures InBatch(batch[..i + 1], id) <==> InBatch(batch[..i], id) || batch[i].id == id
    {
      InBatchNext(batch, i, id);
    }
  }

  lemma LinkedMore(log: seq<Event>, n: nat, more: seq<Event>, ops: seq<Op>, hits: seq<bool>)
    requires Linked(log, ops, hits) && Linked(more, ops, hits)
    requires forall k :: 0 <= k < |log| ==> log[k].op < n
    requires forall k :: 0 <= k < |more| ==> n <= more[k].op
    ensures Linked(log + more, ops, hits)
  {
  }
}
