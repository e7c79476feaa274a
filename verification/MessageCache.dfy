/** The message cache: a sliding window of `h` slots over what was published. */
module MessageCache {
  import opened Basics
  import opened Ids

  datatype Message = Message(id: MsgId, topic: Topic, data: nat)

  datatype Entry = Entry(mid: MsgId, topic: Topic)

  /** What was done to the cache: a message put, the window advanced, a message
      asked for by a peer. */
  datatype Op = Put(msg: Message) | Shift | Ask(mid: MsgId, p: Peer)

  datatype State = State(msgs: map<MsgId, Message>, tx: map<MsgId, map<Peer, nat>>, history: seq<seq<Entry>>)

  function Mids(es: seq<Entry>): set<MsgId> { set e | e in es :: e.mid }

  function Start(h: nat): (s: State)
    ensures |s.history| == h
  {
    State(map[], map[], seq(h, i => []))
  }

  function OnPut(s: State, msg: Message): State
    requires |s.history| > 0
  {
    s.(msgs := s.msgs[msg.id := msg], history := s.history[0 := s.history[0] + [Entry(msg.id, msg.topic)]])
  }

  function OnShift(s: State): State
    requires |s.history| > 0
  {
    var last := s.history[|s.history| - 1];
    State(s.msgs - Mids(last), s.tx - Mids(last), [[]] + s.history[..|s.history| - 1])
  }

  function Asked(s: State, mid: MsgId, p: Peer): nat {
    if mid in s.tx && p in s.tx[mid] then s.tx[mid][p] else 0
  }

  function OnAsk(s: State, mid: MsgId, p: Peer): State {
    if mid !in s.msgs then s
    else s.(tx := s.tx[mid := (if mid in s.tx then s.tx[mid] else map[])[p := Asked(s, mid, p) + 1]])
  }

  function Apply(s: State, op: Op): (s': State)
    requires |s.history| > 0
    ensures |s'.history| == |s.history|
  {
    match op
    case Put(msg) => OnPut(s, msg)
    case Shift => OnShift(s)
    case Ask(mid, p) => OnAsk(s, mid, p)
  }

  function Run(ops: seq<Op>, h: nat): (s: State)
    requires h > 0
    ensures |s.history| == h
  {
    if ops == [] then Start(h) else Apply(Run(ops[..|ops| - 1], h), ops[|ops| - 1])
  }

  // ------------------------------------------------------------ when things happened

  /** The number of shifts so far is the time. */
  function Shifts(ops: seq<Op>): nat {
    if ops == [] then 0 else Shifts(ops[..|ops| - 1]) + if ops[|ops| - 1].Shift? then 1 else 0
  }

  function TimeOf(ops: seq<Op>, j: nat): nat
    requires j <= |ops|
  {
    Shifts(ops[..j])
  }

  predicate PutAt(ops: seq<Op>, j: int, mid: MsgId) { 0 <= j < |ops| && ops[j].Put? && ops[j].msg.id == mid }

  predicate PutsEntry(ops: seq<Op>, j: int, e: Entry) { PutAt(ops, j, e.mid) && ops[j].msg.topic == e.topic }

  lemma TimePrefix(ops: seq<Op>, n: nat, j: nat)
    requires j <= n <= |ops|
    ensures TimeOf(ops[..n], j) == TimeOf(ops, j)
  {
    assert ops[..n][..j] == ops[..j];
  }

  lemma {:induction false} TimeMonotone(ops: seq<Op>, i: nat, j: nat)
    requires i <= j <= |ops|
    ensures TimeOf(ops, i) <= TimeOf(ops, j)
  {
    if i < j {
      TimeMonotone(ops, i, j - 1);
      assert ops[..j][..j - 1] == ops[..j - 1];
    }
  }

  lemma PutEarlier(ops: seq<Op>, j: nat)
    requires j <= |ops|
    ensures TimeOf(ops, j) <= Shifts(ops)
  {
    TimeMonotone(ops, j, |ops|);
    assert ops[..|ops|] == ops;
  }

  // ------------------------------------------------------------ the slots

  /** Slot k holds exactly what was put k shifts ago. */
  lemma {:induction false} SlotsByAge(ops: seq<Op>, h: nat, k: nat, e: Entry)
    requires k < h
    ensures e in Run(ops, h).history[k] <==> exists j :: PutsEntry(ops, j, e) && Shifts(ops) - TimeOf(ops, j) == k
  {
    if ops != [] {
      var init, op := ops[..|ops| - 1], ops[|ops| - 1];
      var n := |ops| - 1;
      assert TimeOf(ops, n) == Shifts(init);
      AgesAppend(ops, e, k);
      match op
      case Put(msg) =>
        SlotsByAge(init, h, k, e);
      case Shift =>
        if k > 0 {
          SlotsByAge(init, h, k - 1, e);
        } else {
          AgesNonNegative(init, e);
        }
      case Ask(_, _) =>
        SlotsByAge(init, h, k, e);
    }
  }

  ghost predicate HasAge(ops: seq<Op>, e: Entry, k: int) {
    exists j :: PutsEntry(ops, j, e) && Shifts(ops) - TimeOf(ops, j) == k
  }

  lemma AgesNonNegative(ops: seq<Op>, e: Entry)
    ensures !HasAge(ops, e, -1)
  {
    forall j | PutsEntry(ops, j, e)
      ensures TimeOf(ops, j) <= Shifts(ops)
    {
      PutEarlier(ops, j);
    }
  }

  lemma AgesAppend(ops: seq<Op>, e: Entry, k: nat)
    requires ops != []
    ensures var init, op := ops[..|ops| - 1], ops[|ops| - 1];
            HasAge(ops, e, k) <==>
            if op.Shift? then HasAge(init, e, k - 1)
            else HasAge(init, e, k) || (k == 0 && op.Put? && e == Entry(op.msg.id, op.msg.topic))
  {
    var init, op := ops[..|ops| - 1], ops[|ops| - 1];
    var d := if op.Shift? then 1 else 0;
    if j :| PutsEntry(ops, j, e) && Shifts(ops) - TimeOf(ops, j) == k {
      if j < |init| {
        TimePrefix(ops, |init|, j);
        assert PutsEntry(init, j, e) && Shifts(init) - TimeOf(init, j) == k - d;
      } else {
        assert TimeOf(ops, j) == Shifts(init);
      }
    }
    if j :| PutsEntry(init, j, e) && Shifts(init) - TimeOf(init, j) == k - d {
      TimePrefix(ops, |init|, j);
      assert PutsEntry(ops, j, e) && Shifts(ops) - TimeOf(ops, j) == k;
    }
    if op.Put? {
      assert TimeOf(ops, |init|) == Shifts(init);
      assert PutsEntry(ops, |init|, Entry(op.msg.id, op.msg.topic));
    }
  }

  // ------------------------------------------------------------ what can be retrieved

  ghost predicate LastPut(ops: seq<Op>, k: int, mid: MsgId) {
    PutAt(ops, k, mid) && forall j :: j > k ==> !PutAt(ops, j, mid)
  }

  /** A put does not delete the message any more: its slot was dropped before the
      last put, or has not been dropped yet. */
  predicate Harmless(ops: seq<Op>, h: nat, j: int, k: int)
    requires 0 <= j < |ops| && 0 <= k < |ops|
  {
    TimeOf(ops, j) + h <= TimeOf(ops, k) || Shifts(ops) < TimeOf(ops, j) + h
  }

  ghost predicate Retrievable(ops: seq<Op>, h: nat, mid: MsgId) {
    exists k :: LastPut(ops, k, mid) && forall j :: PutAt(ops, j, mid) ==> Harmless(ops, h, j, k)
  }

  /** Get succeeds exactly for what was put and not dropped since, where every put
      of an id counts, not only the last. */
  lemma {:induction false} RetrievableExactly(ops: seq<Op>, h: nat, mid: MsgId)
    requires h > 0
    ensures mid in Run(ops, h).msgs <==> Retrievable(ops, h, mid)
  {
    if ops != [] {
      var init, op := ops[..|ops| - 1], ops[|ops| - 1];
      RetrievableExactly(init, h, mid);
      match op
      case Put(msg) =>
        if msg.id == mid {
          JustPut(ops, h, mid);
        } else {
          RetrievableSame(ops, h, mid);
        }
      case Shift =>
        DroppedNow(init, h, mid);
        RetrievableShift(ops, h, mid);
      case Ask(_, _) =>
        RetrievableSame(ops, h, mid);
    }
  }

  lemma JustPut(ops: seq<Op>, h: nat, mid: MsgId)
    requires ops != [] && PutAt(ops, |ops| - 1, mid)
    ensures Retrievable(ops, h, mid)
  {
    var k := |ops| - 1;
    assert LastPut(ops, k, mid);
    forall j | PutAt(ops, j, mid)
      ensures Harmless(ops, h, j, k)
    {
      assert TimeOf(ops, k) == Shifts(ops);
    }
  }

  lemma PutsSame(ops: seq<Op>, mid: MsgId, j: int)
    requires ops != [] && !PutAt(ops, |ops| - 1, mid)
    ensures PutAt(ops, j, mid) <==> PutAt(ops[..|ops| - 1], j, mid)
    ensures LastPut(ops, j, mid) <==> LastPut(ops[..|ops| - 1], j, mid)
    ensures PutAt(ops, j, mid) ==> TimeOf(ops, j) == TimeOf(ops[..|ops| - 1], j)
  {
    var init := ops[..|ops| - 1];
    forall i
      ensures PutAt(ops, i, mid) <==> PutAt(init, i, mid)
    {
    }
    if PutAt(ops, j, mid) {
      TimePrefix(ops, |init|, j);
    }
  }

  lemma RetrievableSame(ops: seq<Op>, h: nat, mid: MsgId)
    requires ops != [] && !ops[|ops| - 1].Shift? && !PutAt(ops, |ops| - 1, mid)
    ensures Retrievable(ops, h, mid) <==> Retrievable(ops[..|ops| - 1], h, mid)
  {
    var init := ops[..|ops| - 1];
    forall j
      ensures PutAt(ops, j, mid) <==> PutAt(init, j, mid)
      ensures LastPut(ops, j, mid) <==> LastPut(init, j, mid)
      ensures PutAt(ops, j, mid) ==> TimeOf(ops, j) == TimeOf(init, j)
    {
      PutsSame(ops, mid, j);
    }
    if k :| LastPut(ops, k, mid) && forall j :: PutAt(ops, j, mid) ==> Harmless(ops, h, j, k) {
      forall j | PutAt(init, j, mid)
        ensures Harmless(init, h, j, k)
      {
        assert Harmless(ops, h, j, k);
      }
    }
    if k :| LastPut(init, k, mid) && forall j :: PutAt(init, j, mid) ==> Harmless(init, h, j, k) {
      forall j | PutAt(ops, j, mid)
        ensures Harmless(ops, h, j, k)
      {
        assert Harmless(init, h, j, k);
      }
    }
  }

  /** A shift drops what has a put that is h - 1 shifts old. */
  lemma DroppedNow(ops: seq<Op>, h: nat, mid: MsgId)
    requires h > 0
    ensures mid in Mids(Run(ops, h).history[h - 1]) <==>
            exists j :: PutAt(ops, j, mid) && TimeOf(ops, j) + h == Shifts(ops) + 1
  {
    var last := Run(ops, h).history[h - 1];
    if mid in Mids(last) {
      var e :| e in last && e.mid == mid;
      SlotsByAge(ops, h, h - 1, e);
    }
    if j :| PutAt(ops, j, mid) && TimeOf(ops, j) + h == Shifts(ops) + 1 {
      var e := Entry(mid, ops[j].msg.topic);
      assert PutsEntry(ops, j, e);
      SlotsByAge(ops, h, h - 1, e);
      assert e in last;
    }
  }

  lemma RetrievableShift(ops: seq<Op>, h: nat, mid: MsgId)
    requires ops != [] && ops[|ops| - 1].Shift?
    ensures var init := ops[..|ops| - 1];
            Retrievable(ops, h, mid) <==>
            && Retrievable(init, h, mid)
            && !exists j :: PutAt(init, j, mid) && TimeOf(init, j) + h == Shifts(init) + 1
  {
    var init := ops[..|ops| - 1];
    forall j
      ensures PutAt(ops, j, mid) <==> PutAt(init, j, mid)
      ensures LastPut(ops, j, mid) <==> LastPut(init, j, mid)
      ensures PutAt(ops, j, mid) ==> TimeOf(ops, j) == TimeOf(init, j) && TimeOf(init, j) <= Shifts(init)
    {
      PutsSame(ops, mid, j);
      if PutAt(init, j, mid) {
        PutEarlier(init, j);
      }
    }
    if k :| LastPut(ops, k, mid) && forall j :: PutAt(ops, j, mid) ==> Harmless(ops, h, j, k) {
      forall j | PutAt(init, j, mid)
        ensures Harmless(init, h, j, k) && TimeOf(init, j) + h != Shifts(init) + 1
      {
        assert Harmless(ops, h, j, k);
      }
    }
    if k :| LastPut(init, k, mid) && forall j :: PutAt(init, j, mid) ==> Harmless(init, h, j, k) {
      if !exists j :: PutAt(init, j, mid) && TimeOf(init, j) + h == Shifts(init) + 1 {
        forall j | PutAt(ops, j, mid)
          ensures Harmless(ops, h, j, k)
        {
          assert Harmless(init, h, j, k);
        }
      }
    }
  }

  // ------------------------------------------------------------ the window

  /** The id is never put again before its slot has been dropped. */
  ghost predicate Spaced(ops: seq<Op>, h: nat, mid: MsgId) {
    forall i, j :: PutAt(ops, i, mid) && PutAt(ops, j, mid) && i < j ==> TimeOf(ops, i) + h <= TimeOf(ops, j)
  }

  /** Then it can be retrieved exactly if it was put fewer than h shifts ago. */
  lemma WindowExactly(ops: seq<Op>, h: nat, mid: MsgId)
    requires h > 0 && Spaced(ops, h, mid)
    ensures mid in Run(ops, h).msgs <==> exists j :: PutAt(ops, j, mid) && Shifts(ops) < TimeOf(ops, j) + h
  {
    RetrievableExactly(ops, h, mid);
    if j :| PutAt(ops, j, mid) && Shifts(ops) < TimeOf(ops, j) + h {
      forall i | PutAt(ops, i, mid)
        ensures i <= j && Harmless(ops, h, i, j)
      {
        PutEarlier(ops, i);
      }
      assert LastPut(ops, j, mid);
    }
    if k :| LastPut(ops, k, mid) && forall j :: PutAt(ops, j, mid) ==> Harmless(ops, h, j, k) {
      assert Harmless(ops, h, k, k);
    }
  }

  // ------------------------------------------------------------ gossip

  function OfTopic(es: seq<Entry>, topic: Topic): seq<MsgId> {
    if es == [] then []
    else OfTopic(es[..|es| - 1], topic) + if es[|es| - 1].topic == topic then [es[|es| - 1].mid] else []
  }

  function GossipIDs(slots: seq<seq<Entry>>, topic: Topic): seq<MsgId> {
    if slots == [] then [] else GossipIDs(slots[..|slots| - 1], topic) + OfTopic(slots[|slots| - 1], topic)
  }

  lemma {:induction false} OfTopicHas(es: seq<Entry>, topic: Topic, mid: MsgId)
    ensures mid in OfTopic(es, topic) <==> Entry(mid, topic) in es
  {
    if es != [] {
      OfTopicHas(es[..|es| - 1], topic, mid);
      assert es == es[..|es| - 1] + [es[|es| - 1]];
    }
  }

  lemma {:induction false} GossipIDsHas(slots: seq<seq<Entry>>, topic: Topic, mid: MsgId)
    ensures mid in GossipIDs(slots, topic) <==> exists k :: 0 <= k < |slots| && Entry(mid, topic) in slots[k]
  {
    if slots != [] {
      var init := slots[..|slots| - 1];
      GossipIDsHas(init, topic, mid);
      OfTopicHas(slots[|slots| - 1], topic, mid);
      assert forall k :: 0 <= k < |init| ==> init[k] == slots[k];
    }
  }

  /** Exactly the ids of the topic that were put fewer than `gossip` shifts ago are
      advertised. */
  lemma AdvertisedExactly(ops: seq<Op>, h: nat, gossip: nat, topic: Topic, mid: MsgId)
    requires 0 < h && gossip <= h
    ensures mid in GossipIDs(Run(ops, h).history[..gossip], topic) <==>
            exists j :: PutsEntry(ops, j, Entry(mid, topic)) && Shifts(ops) < TimeOf(ops, j) + gossip
  {
    var slots, e := Run(ops, h).history[..gossip], Entry(mid, topic);
    GossipIDsHas(slots, topic, mid);
    if k :| 0 <= k < |slots| && e in slots[k] {
      SlotsByAge(ops, h, k, e);
    }
    if j :| PutsEntry(ops, j, e) && Shifts(ops) < TimeOf(ops, j) + gossip {
      PutEarlier(ops, j);
      var k := Shifts(ops) - TimeOf(ops, j);
      SlotsByAge(ops, h, k, e);
      assert e in slots[k];
    }
  }

  lemma {:induction false} ShiftsConcat(a: seq<Op>, b: seq<Op>)
    ensures Shifts(a + b) == Shifts(a) + Shifts(b)
  {
    if b == [] {
      assert a + b == a;
    } else {
      ShiftsConcat(a, b[..|b| - 1]);
      assert (a + b)[..|a + b| - 1] == a + b[..|b| - 1];
    }
  }

  /** What is advertised can be retrieved for h - gossip more shifts. */
  lemma AdvertisedStaysRetrievable(ops: seq<Op>, more: seq<Op>, h: nat, gossip: nat, topic: Topic, mid: MsgId)
    requires 0 < h && gossip <= h && Spaced(ops + more, h, mid)
    requires mid in GossipIDs(Run(ops, h).history[..gossip], topic) && Shifts(more) <= h - gossip
    ensures mid in Run(ops + more, h).msgs
  {
    AdvertisedExactly(ops, h, gossip, topic, mid);
    var j :| PutsEntry(ops, j, Entry(mid, topic)) && Shifts(ops) < TimeOf(ops, j) + gossip;
    var all := ops + more;
    assert all[..|ops|] == ops;
    TimePrefix(all, |ops|, j);
    ShiftsConcat(ops, more);
    assert PutAt(all, j, mid) && Shifts(all) < TimeOf(all, j) + h;
    WindowExactly(all, h, mid);
  }

  /** Without spacing it can be lost early: the slot of an earlier put drops it. */
  lemma PutTwiceIsLostEarly(msg: Message)
    ensures var ops := [Put(msg), Shift, Put(msg)];
            && msg.id in GossipIDs(Run(ops, 2).history[..1], msg.topic)
            && msg.id !in Run(ops + [Shift], 2).msgs
  {
    hide Run, GossipIDs;
    var ops := [Put(msg), Shift, Put(msg)];
    var all := ops + [Shift];
    assert all[..3] == ops && ops[..2] == [Put(msg), Shift] && ops[..1] == [Put(msg)] && ops[..2][..1] == [Put(msg)];
    assert [Put(msg)] + [Shift] == [Put(msg), Shift] && [Put(msg), Shift] + [Put(msg)] == ops;
    ShiftsConcat([Put(msg)], [Shift]);
    ShiftsConcat([Put(msg), Shift], [Put(msg)]);
    ShiftsConcat(ops, [Shift]);
    assert [Shift][..0] == [] && [Put(msg)][..0] == [];
    assert Shifts([Put(msg)]) == 0 && Shifts([Shift]) == 1;
    assert TimeOf(ops, 2) == 1 && TimeOf(all, 0) == 0 && all[..2] == ops[..2] && TimeOf(all, 2) == 1;
    assert PutsEntry(ops, 2, Entry(msg.id, msg.topic));
    AdvertisedExactly(ops, 2, 1, msg.topic, msg.id);
    RetrievableExactly(all, 2, msg.id);
    assert PutAt(all, 0, msg.id) && PutAt(all, 2, msg.id);
    forall k | LastPut(all, k, msg.id)
      ensures k == 2 && !Harmless(all, 2, 0, k)
    {
    }
  }

  // ------------------------------------------------------------ serving IWANT

  /** How often the message was served to the peer since it entered the cache. */
  function Served(ops: seq<Op>, h: nat, limit: int, mid: MsgId, p: Peer): nat
    requires h > 0
  {
    if ops == [] then 0
    else
      var init, op := ops[..|ops| - 1], ops[|ops| - 1];
      var s, n := Run(init, h), Served(init, h, limit, mid, p);
      match op
      case Put(_) => n
      case Shift => if mid in Mids(s.history[h - 1]) then 0 else n
      case Ask(m, q) => if m == mid && q == p && mid in s.msgs && Asked(s, mid, p) + 1 <= limit then n + 1 else n
  }

  /** The counter tells how often: at most `limit` times per lifetime in the cache. */
  lemma {:induction false} ServedAtMost(ops: seq<Op>, h: nat, limit: int, mid: MsgId, p: Peer)
    requires h > 0
    ensures Served(ops, h, limit, mid, p) == Min(Asked(Run(ops, h), mid, p), Max(limit, 0)) <= Max(limit, 0)
  {
    if ops != [] {
      ServedAtMost(ops[..|ops| - 1], h, limit, mid, p);
    }
  }

  // ------------------------------------------------------------ the cache itself

  class Cache {
    const history: array<seq<Entry>>
    const gossip: nat
    var msgs: map<MsgId, Message>
    var peertx: map<MsgId, map<Peer, nat>>

    constructor (gossip: nat, history: nat)
      requires gossip <= history && history > 0
      ensures fresh(this.history) && this.history.Length == history && this.gossip == gossip && Abs() == Start(history)
    {
      this.history := new seq<Entry>[history](i => []);
      this.gossip, msgs, peertx := gossip, map[], map[];
    }

    ghost function Abs(): State
      reads this, history
    {
      State(msgs, peertx, history[..])
    }

    method Put(msg: Message)
      requires history.Length > 0
      modifies this`msgs, history
      ensures Abs() == OnPut(old(Abs()), msg)
    {
      msgs := msgs[msg.id := msg];
      history[0] := history[0] + [Entry(msg.id, msg.topic)];
    }

    method Get(mid: MsgId) returns (m: Option<Message>)
      ensures m == if mid in msgs then Some(msgs[mid]) else None
    {
      m := if mid in msgs then Some(msgs[mid]) else None;
    }

    method GetForPeer(mid: MsgId, p: Peer) returns (m: Option<Message>, count: nat)
      modifies this`peertx
      ensures Abs() == OnAsk(old(Abs()), mid, p)
      ensures m == (if mid in msgs then Some(msgs[mid]) else None)
      ensures count == if m.None? then 0 else Asked(old(Abs()), mid, p) + 1
    {
      if mid !in msgs {
        return None, 0;
      }
      var tx: map<Peer, nat> := if mid in peertx then peertx[mid] else map[];
      count := (if p in tx then tx[p] else 0) + 1;
      peertx := peertx[mid := tx[p := count]];
      m := Some(msgs[mid]);
    }

    method GetGossipIDs(topic: Topic) returns (mids: seq<MsgId>)
      requires gossip <= history.Length
      ensures mids == GossipIDs(history[..gossip], topic)
    {
      mids := [];
      for k := 0 to gossip
        invariant mids == GossipIDs(history[..k], topic)
      {
        assert history[..k + 1][..k] == history[..k];
        var entries := history[k];
        ghost var before := mids;
        assert before + [] == before;
        for i := 0 to |entries|
          invariant mids == before + OfTopic(entries[..i], topic)
        {
          assert entries[..i + 1][..i] == entries[..i];
          if entries[i].topic == topic {
            mids := mids + [entries[i].mid];
          }
        }
        assert entries[..|entries|] == entries;
      }
    }

    /** Drops the last slot and moves every other one up, from the end. */
    method Shift()
      requires history.Length > 0
      modifies this, history
      ensures Abs() == OnShift(old(Abs()))
    {
      var last := history[history.Length - 1];
      for i := 0 to |last|
        invariant msgs == old(msgs) - Mids(last[..i]) && peertx == old(peertx) - Mids(last[..i])
        invariant history[..] == old(history[..])
      {
        assert Mids(last[..i + 1]) == Mids(last[..i]) + {last[i].mid};
        msgs := msgs - {last[i].mid};
        peertx := peertx - {last[i].mid};
      }
      assert last[..|last|] == last;
      MoveUp();
      history[0] := [];
    }

    method MoveUp()
      requires history.Length > 0
      modifies history
      ensures history[0] == old(history[0])
      ensures forall k :: 0 < k < history.Length ==> history[k] == old(history[k - 1])
    {
      var i := history.Length - 2;
      while i >= 0
        invariant -1 <= i <= history.Length - 2
        invariant forall k :: 0 <= k <= i + 1 ==> history[k] == old(history[k])
        invariant forall k :: i + 1 < k < history.Length ==> history[k] == old(history[k - 1])
        decreases i
      {
        history[i + 1] := history[i];
        i := i - 1;
      }
    }

    /** handleIWant: a peer whose score is not too low gets, once each, exactly those
        requested messages that it may have and has not asked for too often. */
    method HandleIWant(p: Peer, mids: seq<MsgId>, unwanted: set<MsgId>, filter: Topic -> bool, limit: int,
                       score: real, gossipThreshold: real)
      returns (ihave: map<MsgId, Message>)
      modifies this`peertx
      ensures Abs() == if score < gossipThreshold then old(Abs()) else AskAll(old(Abs()), Wanted(mids, unwanted), p)
      ensures forall mid :: mid in ihave <==>
                && score >= gossipThreshold
                && mid in mids && mid !in unwanted && mid in msgs && filter(msgs[mid].topic)
                && Asked(old(Abs()), mid, p) < limit
      ensures forall mid :: mid in ihave ==> ihave[mid] == msgs[mid]
    {
      hide OnAsk, Asked, AskAll;
      ihave := map[];
      if score < gossipThreshold {
        return;
      }
      ghost var start := Abs();
      AskNothing(start, p);
      for i := 0 to |mids|
        invariant Abs() == AskAll(start, Wanted(mids[..i], unwanted), p)
        invariant forall mid :: mid in ihave <==>
                    && mid in mids[..i] && mid !in unwanted && mid in msgs && filter(msgs[mid].topic)
                    && Asked(start, mid, p) < limit
        invariant forall mid :: mid in ihave ==> ihave[mid] == msgs[mid]
      {
        var mid := mids[i];
        assert mids[..i + 1] == mids[..i] + [mid];
        WantedNext(mids[..i], mid, unwanted);
        ghost var before := Wanted(mids[..i], unwanted);
        assert before + [] == before;
        if mid in unwanted {
          continue;
        }
        AskAllNext(start, before, mid, p);
        AskAllCount(start, before, p, mid);
        WantedHas(mids[..i], unwanted, mid);
        var msg, count := GetForPeer(mid, p);
        if msg.None? {
          continue;
        }
        if !filter(msg.value.topic) {
          continue;
        }
        if count > limit {
          continue;
        }
        ihave := ihave[mid := msg.value];
      }
      assert mids[..|mids|] == mids;
    }
  }

  function Wanted(mids: seq<MsgId>, unwanted: set<MsgId>): seq<MsgId> {
    if mids == [] then []
    else Wanted(mids[..|mids| - 1], unwanted) + if mids[|mids| - 1] in unwanted then [] else [mids[|mids| - 1]]
  }

  function AskAll(s: State, mids: seq<MsgId>, p: Peer): (r: State)
    ensures r.msgs == s.msgs && r.history == s.history
  {
    if mids == [] then s else OnAsk(AskAll(s, mids[..|mids| - 1], p), mids[|mids| - 1], p)
  }

  lemma WantedNext(mids: seq<MsgId>, mid: MsgId, unwanted: set<MsgId>)
    ensures Wanted(mids + [mid], unwanted) == Wanted(mids, unwanted) + if mid in unwanted then [] else [mid]
  {
    assert (mids + [mid])[..|mids + [mid]| - 1] == mids;
  }

  lemma {:induction false} WantedHas(mids: seq<MsgId>, unwanted: set<MsgId>, mid: MsgId)
    ensures mid in Wanted(mids, unwanted) <==> mid in mids && mid !in unwanted
  {
    if mids != [] {
      WantedHas(mids[..|mids| - 1], unwanted, mid);
      assert mids == mids[..|mids| - 1] + [mids[|mids| - 1]];
    }
  }

  lemma AskNothing(s: State, p: Peer)
    ensures AskAll(s, [], p) == s
  {
  }

  lemma AskAllNext(s: State, mids: seq<MsgId>, mid: MsgId, p: Peer)
    ensures AskAll(s, mids + [mid], p) == OnAsk(AskAll(s, mids, p), mid, p)
  {
    assert (mids + [mid])[..|mids + [mid]| - 1] == mids;
  }

  /** Asking counts, and asking for something else does not. */
  lemma {:induction false} AskAllCount(s: State, mids: seq<MsgId>, p: Peer, mid: MsgId)
    ensures Asked(AskAll(s, mids, p), mid, p) >= Asked(s, mid, p)
    ensures mid !in mids ==> Asked(AskAll(s, mids, p), mid, p) == Asked(s, mid, p)
    ensures mid in mids && mid in s.msgs ==> Asked(AskAll(s, mids, p), mid, p) > Asked(s, mid, p)
  {
    if mids != [] {
      AskAllCount(s, mids[..|mids| - 1], p, mid);
      assert mids == mids[..|mids| - 1] + [mids[|mids| - 1]];
    }
  }
}
