/** The table of delivery records, with the linked list that its clean-up walks. */
module MessageDeliveries {
  import opened Basics
  import opened Ids
  import opened DeliveryRecords

  // ------------------------------------------------------------ the list

  datatype Item = Item(id: MsgId, expire: Time)

  class DeliveryEntry {
    const item: Item
    var next: DeliveryEntry?

    constructor (item: Item)
      ensures this.item == item && next == null
    {
      this.item, next := item, null;
    }
  }

  function NextOf(nodes: seq<DeliveryEntry>, i: nat): DeliveryEntry?
    requires i < |nodes|
  {
    if i + 1 < |nodes| then nodes[i + 1] else null
  }

  class DeliveryQueue {
    var head: DeliveryEntry?
    var tail: DeliveryEntry?
    ghost var nodes: seq<DeliveryEntry>
    ghost var items: seq<Item>

    constructor ()
      ensures Valid() && items == [] && nodes == []
    {
      head, tail, nodes, items := null, null, [], [];
    }

    /** The list from head to tail holds the items. */
    ghost predicate Valid()
      reads this, nodes
    {
      && |nodes| == |items|
      && (head == if nodes == [] then null else nodes[0])
      && (tail == if nodes == [] then null else nodes[|nodes| - 1])
      && (forall i :: 0 <= i < |nodes| ==> nodes[i].item == items[i])
      && (forall i :: 0 <= i < |nodes| ==> nodes[i].next == NextOf(nodes, i))
      && (forall i, j :: 0 <= i < j < |nodes| ==> nodes[i] != nodes[j])
    }

    method Append(item: Item)
      requires Valid()
      modifies this, nodes
      ensures Valid() && items == old(items) + [item]
      ensures |nodes| == |old(nodes)| + 1 && nodes[..|old(nodes)|] == old(nodes) && fresh(nodes[|old(nodes)|])
    {
      var entry := new DeliveryEntry(item);
      if tail != null {
        tail.next := entry;
        tail := entry;
      } else {
        head := entry;
        tail := entry;
      }
      nodes, items := nodes + [entry], items + [item];
    }

    /** Drops the first entry. */
    method Advance()
      requires Valid() && items != []
      modifies this
      ensures Valid() && items == old(items)[1..] && nodes == old(nodes)[1..]
    {
      ghost var was := nodes;
      assert was[0].next == NextOf(was, 0);
      head := head.next;
      nodes, items := nodes[1..], items[1..];
      assert forall i :: 0 <= i < |nodes| ==> nodes[i] == was[i + 1];
      assert forall i :: 0 <= i < |nodes| ==> nodes[i].next == NextOf(was, i + 1);
      if head == null {
        tail := null;
      }
      assert head == if nodes == [] then null else nodes[0];
    }
  }

  // ------------------------------------------------------------ its relation to the records

  predicate Listed(items: seq<Item>, id: MsgId) { exists i :: 0 <= i < |items| && items[i].id == id }

  /** No duplicate ids, sorted by expiry, and exactly the keys of records. */
  ghost predicate Indexed(items: seq<Item>, ids: set<MsgId>) {
    && (forall i, j :: 0 <= i < j < |items| ==> items[i].id != items[j].id && items[i].expire <= items[j].expire)
    && (forall id :: id in ids <==> Listed(items, id))
  }

  lemma IndexedAppend(items: seq<Item>, ids: set<MsgId>, item: Item)
    requires Indexed(items, ids) && item.id !in ids && Young(items, item.expire)
    ensures Indexed(items + [item], ids + {item.id})
  {
    var items' := items + [item];
    assert items'[|items|] == item;
    forall i | 0 <= i < |items|
      ensures items[i].id != item.id
    {
      assert Listed(items, items[i].id);
    }
    forall id
      ensures id in ids + {item.id} <==> Listed(items', id)
    {
      if Listed(items, id) {
        var i :| 0 <= i < |items| && items[i].id == id;
        assert items'[i].id == id;
      }
    }
  }

  lemma IndexedDrop(items: seq<Item>, ids: set<MsgId>)
    requires Indexed(items, ids) && items != []
    ensures Indexed(items[1..], ids - {items[0].id}) && items[0].id in ids
  {
    assert Listed(items, items[0].id);
    forall id
      ensures id in ids - {items[0].id} <==> Listed(items[1..], id)
    {
      if Listed(items[1..], id) {
        var i :| 0 <= i < |items[1..]| && items[1..][i].id == id;
        assert items[i + 1].id == id;
      }
      if id in ids && id != items[0].id {
        assert Listed(items, id);
        var i :| 0 <= i < |items| && items[i].id == id;
        assert items[1..][i - 1].id == id;
      }
    }
  }

  /** The items that have not expired; the expired ones come first. */
  function Unexpired(items: seq<Item>, now: Time): seq<Item> {
    if items != [] && items[0].expire < now then Unexpired(items[1..], now) else items
  }

  /** Of sorted items, exactly the expired ones are dropped. */
  lemma {:induction false} UnexpiredExactly(items: seq<Item>, now: Time, item: Item)
    requires forall i, j :: 0 <= i < j < |items| ==> items[i].expire <= items[j].expire
    ensures item in Unexpired(items, now) <==> item in items && !(item.expire < now)
  {
    if items != [] && items[0].expire < now {
      UnexpiredExactly(items[1..], now, item);
      assert items == [items[0]] + items[1..];
    } else if item in items {
      var i :| 0 <= i < |items| && items[i] == item;
      assert i == 0 || items[0].expire <= items[i].expire;
    }
  }

  // ------------------------------------------------------------ the stories of the records

  /** What happened to a record so far, and the marks that were given for it. */
  datatype Story = Story(events: seq<Event>, born: Time, given: Marks)

  function Begun(now: Time): Story { Story([], now, NONE) }

  function Extended(story: Story, r: Record, e: Event): Story {
    Story(story.events + [e], story.born, Plus(story.given, MarksOf(r, e)))
  }

  predicate Tells(story: Story, r: Record) {
    r == Life(story.events, story.born) && story.given == AllMarks(story.events, story.born)
  }

  lemma TellsNext(story: Story, r: Record, e: Event)
    requires Tells(story, r)
    ensures Tells(Extended(story, r, e), After(r, e))
    ensures r.peers.None? <==> Released(r)
  {
    assert (story.events + [e])[..|story.events + [e]| - 1] == story.events;
    LifeFollows(story.events, story.born);
  }

  // ------------------------------------------------------------ runs of the table

  type Records = map<MsgId, Record>
  type Stories = map<MsgId, Story>

  /** A table as a value: its records, its list and the records' stories. */
  datatype Table = Table(records: Records, items: seq<Item>, stories: Stories)

  ghost predicate Told(records: Records, stories: Stories) {
    stories.Keys == records.Keys && forall id :: id in records ==> Tells(stories[id], records[id])
  }

  /** A trace about a message at some time, or a clean-up. */
  datatype Call = Trace(id: MsgId, e: Event, now: Time) | Collect(now: Time)

  predicate Tracked(e: Event) {
    e.Reject? ==> e.reason == ValidationThrottled || e.reason == ValidationIgnored || e.reason == ValidationFailed
  }

  function RecordOf(t: Table, id: MsgId, now: Time): Record {
    if id in t.records then t.records[id] else NewRecord(now)
  }

  function StoryOf(t: Table, id: MsgId, now: Time): Story { if id in t.stories then t.stories[id] else Begun(now) }

  function Opened(t: Table, id: MsgId, now: Time, ttl: Duration): Table {
    if id in t.records then t
    else Table(t.records[id := NewRecord(now)], t.items + [Item(id, now + ttl)], t.stories[id := Begun(now)])
  }

  function Collected(t: Table, now: Time): Table {
    var left := Unexpired(t.items, now);
    Table(map id | id in t.records && Listed(left, id) :: t.records[id], left,
          map id | id in t.stories && Listed(left, id) :: t.stories[id])
  }

  function Called(t: Table, c: Call, ttl: Duration): Table {
    match c
    case Collect(now) => Collected(t, now)
    case Trace(id, e, now) =>
      if !Tracked(e) then t
      else
        var r := RecordOf(t, id, now);
        Table(t.records[id := After(r, e)], Opened(t, id, now, ttl).items,
              t.stories[id := Extended(StoryOf(t, id, now), r, e)])
  }

  function Calls(cs: seq<Call>, ttl: Duration): Table {
    if cs == [] then Table(map[], [], map[]) else Called(Calls(cs[..|cs| - 1], ttl), cs[|cs| - 1], ttl)
  }

  ghost predicate Young(items: seq<Item>, limit: Time) { forall i :: 0 <= i < |items| ==> items[i].expire <= limit }

  /** What holds of a table at all times. */
  ghost predicate TableOk(t: Table) { Indexed(t.items, t.records.Keys) && Told(t.records, t.stories) }

  lemma OpenedOk(t: Table, id: MsgId, now: Time, ttl: Duration)
    requires TableOk(t) && Young(t.items, now + ttl)
    ensures var t' := Opened(t, id, now, ttl); TableOk(t') && Young(t'.items, now + ttl) && id in t'.records
  {
    hide Indexed, Told;
    if id !in t.records {
      YoungAppend(t.items, Item(id, now + ttl));
      hide Young;
      IndexedAppend(t.items, t.records.Keys, Item(id, now + ttl));
      ToldBegun(t.records, t.stories, id, now);
      OpenedNew(t, id, now, ttl);
      assert t.records[id := NewRecord(now)].Keys == t.records.Keys + {id};
    }
  }

  lemma YoungAppend(items: seq<Item>, item: Item)
    requires Young(items, item.expire)
    ensures Young(items + [item], item.expire)
  {
  }

  lemma ToldBegun(records: Records, stories: Stories, id: MsgId, now: Time)
    requires Told(records, stories)
    ensures Told(records[id := NewRecord(now)], stories[id := Begun(now)])
  {
    assert Tells(Begun(now), NewRecord(now));
    hide Tells;
  }

  lemma TracedOk(t: Table, id: MsgId, e: Event)
    requires TableOk(t) && id in t.records
    ensures TableOk(t.(records := t.records[id := After(t.records[id], e)],
                       stories := t.stories[id := Extended(t.stories[id], t.records[id], e)]))
  {
    hide Indexed, Tells, Extended, After;
    TellsNext(t.stories[id], t.records[id], e);
    assert t.records[id := After(t.records[id], e)].Keys == t.records.Keys;
  }

  lemma ReleasedInTable(t: Table, id: MsgId)
    requires TableOk(t) && id in t.records
    ensures t.records[id].peers.None? <==> Released(t.records[id])
  {
    assert Tells(t.stories[id], t.records[id]);
    ReleasedExactly(t.stories[id].events, t.stories[id].born);
  }

  lemma OpenedNew(t: Table, id: MsgId, now: Time, ttl: Duration)
    requires id !in t.records
    ensures Opened(t, id, now, ttl)
            == Table(t.records[id := NewRecord(now)], t.items + [Item(id, now + ttl)], t.stories[id := Begun(now)])
  {
  }

  /** A trace opens a record if need be, and then tells it the event. */
  lemma CalledIsTraced(t: Table, id: MsgId, e: Event, now: Time, ttl: Duration)
    requires TableOk(t) && Tracked(e)
    ensures var o := Opened(t, id, now, ttl);
            && id in o.records && id in o.stories
            && o.records[id] == RecordOf(t, id, now) && o.stories[id] == StoryOf(t, id, now)
            && Called(t, Trace(id, e, now), ttl)
               == o.(records := o.records[id := After(o.records[id], e)],
                     stories := o.stories[id := Extended(o.stories[id], o.records[id], e)])
  {
    var o := Opened(t, id, now, ttl);
    Overwrite(t.records, id, RecordOf(t, id, now), After(RecordOf(t, id, now), e));
    Overwrite(t.stories, id, StoryOf(t, id, now), Extended(StoryOf(t, id, now), RecordOf(t, id, now), e));
  }

  lemma Overwrite<K, V>(m: map<K, V>, k: K, a: V, b: V)
    ensures m[k := a][k := b] == m[k := b]
  {
  }

  /** The unexpired part of the list goes with the records that it lists. */
  lemma {:induction false} UnexpiredIndexed(items: seq<Item>, ids: set<MsgId>, now: Time)
    requires Indexed(items, ids)
    ensures var left := Unexpired(items, now);
            Indexed(left, set id | id in ids && Listed(left, id)) && forall x :: x in left ==> x in items
  {
    var left := Unexpired(items, now);
    if items != [] && items[0].expire < now {
      IndexedDrop(items, ids);
      UnexpiredIndexed(items[1..], ids - {items[0].id}, now);
      assert forall id :: Listed(left, id) ==> id in ids - {items[0].id} by {
        forall id | Listed(left, id)
          ensures id in ids - {items[0].id}
        {
          var i :| 0 <= i < |left| && left[i].id == id;
          assert left[i] in items[1..];
          var j :| 0 <= j < |items[1..]| && items[1..][j] == left[i];
          assert Listed(items[1..], id);
        }
      }
      assert (set id | id in ids - {items[0].id} && Listed(left, id)) == set id | id in ids && Listed(left, id);
    } else {
      assert (set id | id in ids && Listed(left, id)) == ids;
    }
  }

  lemma CollectedOk(t: Table, now: Time, limit: Time)
    requires TableOk(t) && Young(t.items, limit)
    ensures TableOk(Collected(t, now)) && Young(Collected(t, now).items, limit)
  {
    var t' := Collected(t, now);
    UnexpiredIndexed(t.items, t.records.Keys, now);
    assert t'.records.Keys == set id | id in t.records.Keys && Listed(t'.items, id);
    assert t'.stories.Keys == t'.records.Keys;
    forall i | 0 <= i < |t'.items|
      ensures t'.items[i].expire <= limit
    {
      assert t'.items[i] in t.items;
    }
  }

  lemma CalledOk(t: Table, c: Call, ttl: Duration)
    requires TableOk(t) && Young(t.items, c.now + ttl)
    ensures TableOk(Called(t, c, ttl)) && Young(Called(t, c, ttl).items, c.now + ttl)
  {
    match c
    case Collect(now) => CollectedOk(t, now, now + ttl);
    case Trace(id, e, now) =>
      if Tracked(e) {
        OpenedOk(t, id, now, ttl);
        CalledIsTraced(t, id, e, now, ttl);
        TracedOk(Opened(t, id, now, ttl), id, e);
      }
  }

  /** Time does not go back. */
  predicate Chronological(cs: seq<Call>) { forall i, j :: 0 <= i < j < |cs| ==> cs[i].now <= cs[j].now }

  /** In every run the list is sorted by expiry, without duplicate ids, with exactly
      the keys of the records, and every record is what its story makes it. */
  lemma {:induction false} RunOk(cs: seq<Call>, ttl: Duration, now: Time)
    requires Chronological(cs) && forall i :: 0 <= i < |cs| ==> cs[i].now <= now
    ensures TableOk(Calls(cs, ttl)) && Young(Calls(cs, ttl).items, now + ttl)
  {
    if cs != [] {
      var init, c := cs[..|cs| - 1], cs[|cs| - 1];
      RunOk(init, ttl, c.now);
      CalledOk(Calls(init, ttl), c, ttl);
    }
  }

  /** So in every run, for every record: its peers map is released exactly in
      Invalid, Ignored and Throttled, and no peer was credited near-first twice. */
  lemma RecordsInRuns(cs: seq<Call>, ttl: Duration, now: Time, id: MsgId, p: Peer)
    requires Chronological(cs) && (forall i :: 0 <= i < |cs| ==> cs[i].now <= now) && id in Calls(cs, ttl).records
    ensures var t := Calls(cs, ttl);
            && id in t.stories && (t.records[id].peers.None? <==> Released(t.records[id]))
            && NearFirst(t.stories[id].given, p) <= 1
  {
    RunOk(cs, ttl, now);
    var t := Calls(cs, ttl);
    assert Tells(t.stories[id], t.records[id]);
    ReleasedExactly(t.stories[id].events, t.stories[id].born);
    CreditedExactly(t.stories[id].events, t.stories[id].born, p);
  }

  /** A clean-up removes exactly the records whose entries have expired. */
  lemma CollectsExactly(t: Table, now: Time, i: nat)
    requires TableOk(t) && i < |t.items|
    ensures t.items[i].id in Collected(t, now).records <==> !(t.items[i].expire < now)
  {
    var left, item := Unexpired(t.items, now), t.items[i];
    UnexpiredExactly(t.items, now, item);
    assert Listed(t.items, item.id);
    if Listed(left, item.id) {
      var j :| 0 <= j < |left| && left[j].id == item.id;
      UnexpiredExactly(t.items, now, left[j]);
      var k :| 0 <= k < |t.items| && t.items[k] == left[j];
      assert k == i;
    }
    if item in left {
      var j :| 0 <= j < |left| && left[j] == item;
      assert Listed(left, item.id);
    }
  }

  // ------------------------------------------------------------ the table

  class MessageDeliveries {
    const seenMsgTTL: Duration
    const queue: DeliveryQueue
    var records: Records
    ghost var stories: Stories

    constructor (ttl: Duration)
      ensures Valid() && fresh(queue) && queue.nodes == [] && seenMsgTTL == ttl && Abs() == Calls([], ttl)
    {
      seenMsgTTL := ttl;
      queue := new DeliveryQueue();
      records, stories := map[], map[];
    }

    ghost function Abs(): Table
      reads this, queue
    {
      Table(records, queue.items, stories)
    }

    ghost predicate Valid()
      reads this, queue, queue.nodes
    {
      queue.Valid() && TableOk(Abs())
    }

    /** The clock has not gone back since the last entry was made. */
    ghost predicate NotBefore(now: Time)
      reads this, queue
    {
      Young(queue.items, now + seenMsgTTL)
    }

    /** New list nodes are really new, so that calls can follow each other. */
    twostate predicate NodesFresh()
      reads this, queue
    {
      forall n :: n in queue.nodes && n !in old(queue.nodes) ==> fresh(n)
    }

    method GetRecord(id: MsgId, now: Time) returns (rec: Record)
      requires Valid() && NotBefore(now)
      modifies this, queue, queue.nodes
      ensures Valid() && NotBefore(now) && NodesFresh()
      ensures Abs() == Opened(old(Abs()), id, now, seenMsgTTL) && id in records && rec == records[id]
    {
      if id in records {
        return records[id];
      }
      rec := AddRecord(id, now);
    }

    method AddRecord(id: MsgId, now: Time) returns (rec: Record)
      requires Valid() && NotBefore(now) && id !in records
      modifies this, queue, queue.nodes
      ensures Valid() && NotBefore(now) && NodesFresh()
      ensures Abs() == Opened(old(Abs()), id, now, seenMsgTTL) && id in records && rec == records[id]
    {
      hide DeliveryQueue.Valid, TableOk, Young, Opened;
      OpenedOk(Abs(), id, now, seenMsgTTL);
      OpenedNew(Abs(), id, now, seenMsgTTL);
      rec := Record(Unknown, now, None, Some({}));
      queue.Append(Item(id, now + seenMsgTTL));
      records := records[id := rec];
      stories := stories[id := Begun(now)];
    }

    /** Exactly the expired records go. */
    method Gc(now: Time)
      requires Valid()
      modifies this, queue
      ensures Valid() && NodesFresh() && Abs() == Collected(old(Abs()), now)
      ensures forall limit :: old(NotBefore(limit)) ==> NotBefore(limit)
    {
      ghost var start := Abs();
      CollectNothing(start);
      while queue.head != null && queue.head.item.expire < now
        invariant Valid() && Unexpired(queue.items, now) == Unexpired(start.items, now)
        invariant forall n :: n in queue.nodes ==> n in old(queue.nodes)
        invariant Subtable(Abs(), start)
        decreases |queue.items|
      {
        SubtableDrop(Abs(), start);
        DropFirst();
      }
      SubtableIs(Abs(), start, now);
      forall limit | old(NotBefore(limit))
        ensures NotBefore(limit)
      {
        CollectedOk(start, now, limit + seenMsgTTL);
      }
    }

    lemma HeadIsFirst()
      requires queue.Valid() && queue.items != []
      ensures queue.head != null && queue.head.item == queue.items[0]
    {
    }

    method DropFirst()
      requires Valid() && queue.items != []
      modifies this, queue
      ensures Valid() && Abs() == Dropped(old(Abs())) && queue.nodes == old(queue.nodes)[1..]
    {
      HeadIsFirst();
      DroppedOk(Abs());
      hide DeliveryQueue.Valid, TableOk;
      var gone := queue.head.item.id;
      records := records - {gone};
      stories := stories - {gone};
      queue.Advance();
    }

    // ------------------------------------------------------------ traces

    /** The next event of a record's story. */
    method SetRecord(id: MsgId, rec: Record, ghost e: Event)
      requires Valid() && id in records && id in stories && rec == After(records[id], e)
      modifies this
      ensures Valid()
      ensures Abs() == old(Abs()).(records := old(records)[id := rec],
                                   stories := old(stories)[id := Extended(old(stories[id]), old(records[id]), e)])
    {
      hide TableOk;
      TracedOk(Abs(), id, e);
      stories := stories[id := Extended(stories[id], records[id], e)];
      records := records[id := rec];
    }

    method ValidateMessage(id: MsgId, now: Time)
      requires Valid() && NotBefore(now)
      modifies this, queue, queue.nodes
      ensures Valid() && NotBefore(now) && NodesFresh()
      ensures Abs() == Called(old(Abs()), Trace(id, Validating, now), seenMsgTTL)
    {
      hide DeliveryQueue.Valid, TableOk, Young, Opened, Called, RecordOf, StoryOf, Extended, MarksOf;
      CalledIsTraced(Abs(), id, Validating, now, seenMsgTTL);
      var drec := GetRecord(id, now);
      SetRecord(id, drec, Validating);
    }

    method DeliverMessage(id: MsgId, from: Peer, now: Time) returns (marks: Marks)
      requires Valid() && NotBefore(now)
      modifies this, queue, queue.nodes
      ensures Valid() && NotBefore(now) && NodesFresh()
      ensures Abs() == Called(old(Abs()), Trace(id, Deliver(from, now), now), seenMsgTTL)
      ensures marks == MarksOf(RecordOf(old(Abs()), id, now), Deliver(from, now))
    {
      hide DeliveryQueue.Valid, TableOk, Young, Opened, Called, RecordOf, StoryOf, Extended, MarksOf, After;
      CalledIsTraced(Abs(), id, Deliver(from, now), now, seenMsgTTL);
      var drec := GetRecord(id, now);
      ReleasedInTable(Abs(), id);
      drec, marks := MarkValid(drec, from, now);
      SetRecord(id, drec, Deliver(from, now));
    }

    static method MarkValid(rec: Record, from: Peer, now: Time) returns (drec: Record, marks: Marks)
      requires rec.peers.None? <==> Released(rec)
      ensures drec == After(rec, Deliver(from, now)) && marks == MarksOf(rec, Deliver(from, now))
    {
      drec, marks := rec, NONE.(first := multiset{from});
      if drec.status == Unknown {
        var early := CreditOthers(drec.peers.value, from);
        marks := marks.(early := early);
        drec := drec.(status := Status.Valid, validated := Some(now));
      }
    }

    /** Everybody but the first deliverer. */
    static method CreditOthers(peers: set<Peer>, from: Peer) returns (early: multiset<Peer>)
      ensures early == multiset(peers - {from})
    {
      early := multiset{};
      var rest := peers;
      while rest != {}
        invariant rest <= peers && early == multiset(peers - rest - {from})
        decreases rest
      {
        var p :| p in rest;
        assert peers - (rest - {p}) - {from}
               == if p == from then peers - rest - {from} else peers - rest - {from} + {p};
        rest := rest - {p};
        if p != from {
          early := early + multiset{p};
        }
      }
      assert peers - rest == peers;
    }

    method RejectMessage(id: MsgId, from: Peer, reason: Reason, now: Time) returns (marks: Marks)
      requires Valid() && NotBefore(now)
      modifies this, queue, queue.nodes
      ensures Valid() && NotBefore(now) && NodesFresh()
      ensures Abs() == Called(old(Abs()), Trace(id, Reject(from, reason), now), seenMsgTTL)
      ensures marks == MarksOf(RecordOf(old(Abs()), id, now), Reject(from, reason))
    {
      if reason == Clearly {
        return NONE.(invalid := multiset{from});
      }
      if reason == Blacklisted || reason == QueueFull {
        return NONE;
      }
      marks := RejectTracked(id, from, reason, now);
    }

    method RejectTracked(id: MsgId, from: Peer, reason: Reason, now: Time) returns (marks: Marks)
      requires Valid() && NotBefore(now) && Tracked(Reject(from, reason))
      modifies this, queue, queue.nodes
      ensures Valid() && NotBefore(now) && NodesFresh()
      ensures Abs() == Called(old(Abs()), Trace(id, Reject(from, reason), now), seenMsgTTL)
      ensures marks == MarksOf(RecordOf(old(Abs()), id, now), Reject(from, reason))
    {
      hide DeliveryQueue.Valid, TableOk, Young, Opened, Called, RecordOf, StoryOf, Extended, MarksOf, After;
      CalledIsTraced(Abs(), id, Reject(from, reason), now, seenMsgTTL);
      var drec := GetRecord(id, now);
      ReleasedInTable(Abs(), id);
      drec, marks := MarkRejected(drec, from, reason);
      SetRecord(id, drec, Reject(from, reason));
    }

    static method MarkRejected(rec: Record, from: Peer, reason: Reason) returns (drec: Record, marks: Marks)
      requires Tracked(Reject(from, reason)) && (rec.peers.None? <==> Released(rec))
      ensures drec == After(rec, Reject(from, reason)) && marks == MarksOf(rec, Reject(from, reason))
    {
      drec, marks := rec, NONE;
      if drec.status != Unknown {
        return;
      }
      if reason == ValidationThrottled {
        drec := drec.(status := Throttled, peers := None);
      } else if reason == ValidationIgnored {
        drec := drec.(status := Ignored, peers := None);
      } else {
        var invalid := Penalise(drec.peers.value);
        marks := marks.(invalid := multiset{from} + invalid);
        drec := drec.(status := Invalid, peers := None);
      }
    }

    static method Penalise(peers: set<Peer>) returns (invalid: multiset<Peer>)
      ensures invalid == multiset(peers)
    {
      invalid := multiset{};
      var rest := peers;
      while rest != {}
        invariant rest <= peers && invalid == multiset(peers - rest)
        decreases rest
      {
        var p :| p in rest;
        assert peers - (rest - {p}) == peers - rest + {p};
        rest := rest - {p};
        invalid := invalid + multiset{p};
      }
      assert peers - rest == peers;
    }

    method DuplicateMessage(id: MsgId, from: Peer, now: Time) returns (marks: Marks)
      requires Valid() && NotBefore(now)
      modifies this, queue, queue.nodes
      ensures Valid() && NotBefore(now) && NodesFresh()
      ensures Abs() == Called(old(Abs()), Trace(id, Duplicate(from), now), seenMsgTTL)
      ensures marks == MarksOf(RecordOf(old(Abs()), id, now), Duplicate(from))
    {
      hide DeliveryQueue.Valid, TableOk, Young, Opened, Called, RecordOf, StoryOf, Extended, MarksOf, After;
      CalledIsTraced(Abs(), id, Duplicate(from), now, seenMsgTTL);
      var drec := GetRecord(id, now);
      ReleasedInTable(Abs(), id);
      drec, marks := MarkDuplicate(drec, from);
      SetRecord(id, drec, Duplicate(from));
    }

    static method MarkDuplicate(rec: Record, from: Peer) returns (drec: Record, marks: Marks)
      requires rec.peers.None? <==> Released(rec)
      ensures drec == After(rec, Duplicate(from)) && marks == MarksOf(rec, Duplicate(from))
    {
      drec, marks := rec, NONE;
      if drec.peers.Some? && from in drec.peers.value {
        assert drec.peers.value + {from} == drec.peers.value;
        return;
      }
      match drec.status
      case Unknown =>
        drec := drec.(peers := Some(drec.peers.value + {from}));
      case Valid =>
        drec := drec.(peers := Some(drec.peers.value + {from}));
        marks := marks.(late := multiset{from});
      case Invalid =>
        marks := marks.(invalid := multiset{from});
      case Throttled =>
      case Ignored =>
    }

    // ------------------------------------------------------------ a sequence of calls

    method Handle(c: Call)
      requires Valid() && NotBefore(c.now) && (c.Trace? && c.e.Deliver? ==> c.e.at == c.now)
      modifies this, queue, queue.nodes
      ensures Valid() && NotBefore(c.now) && NodesFresh() && Abs() == Called(old(Abs()), c, seenMsgTTL)
    {
      hide Called, TableOk, Young;
      match c
      case Collect(now) =>
        CalledCollects(Abs(), now, seenMsgTTL);
        Gc(now);
      case Trace(id, e, now) =>
        match e
        case Validating => ValidateMessage(id, now);
        case Deliver(from, _) => var _ := DeliverMessage(id, from, now);
        case Reject(from, reason) => var _ := RejectMessage(id, from, reason, now);
        case Duplicate(from) => var _ := DuplicateMessage(id, from, now);
    }

    /** Any sequence of calls in order of time, on a new table. */
    static method Replay(cs: seq<Call>, ttl: Duration) returns (d: MessageDeliveries)
      requires Chronological(cs)
      requires forall i :: 0 <= i < |cs| && cs[i].Trace? && cs[i].e.Deliver? ==> cs[i].e.at == cs[i].now
      ensures fresh(d) && fresh(d.queue) && d.Valid() && d.seenMsgTTL == ttl && d.Abs() == Calls(cs, ttl)
    {
      hide Called, TableOk;
      d := new MessageDeliveries(ttl);
      for i := 0 to |cs|
        invariant d.Valid() && d.seenMsgTTL == ttl && d.Abs() == Calls(cs[..i], ttl)
        invariant fresh(d) && fresh(d.queue) && forall k :: 0 <= k < |d.queue.nodes| ==> fresh(d.queue.nodes[k])
        invariant forall k :: i <= k < |cs| ==> d.NotBefore(cs[k].now)
      {
        assert cs[..i + 1][..i] == cs[..i];
        ghost var was := d.queue.nodes;
        d.Handle(cs[i]);
        forall k | 0 <= k < |d.queue.nodes|
          ensures fresh(d.queue.nodes[k])
        {
          assert d.queue.nodes[k] in was || d.queue.nodes[k] !in was;
        }
      }
      assert cs[..|cs|] == cs;
    }
  }

  lemma CalledCollects(t: Table, now: Time, ttl: Duration)
    ensures Called(t, Collect(now), ttl) == Collected(t, now)
  {
  }

  // ------------------------------------------------------------ dropping from the head

  function Dropped(t: Table): Table
    requires t.items != []
  {
    Table(t.records - {t.items[0].id}, t.items[1..], t.stories - {t.items[0].id})
  }

  lemma DroppedOk(t: Table)
    requires TableOk(t) && t.items != []
    ensures TableOk(Dropped(t))
  {
    IndexedDrop(t.items, t.records.Keys);
    assert Dropped(t).records.Keys == t.records.Keys - {t.items[0].id};
  }

  /** Some of the table, unchanged. */
  ghost predicate Subtable(t: Table, start: Table) {
    && (forall id :: id in t.records ==> id in start.records && t.records[id] == start.records[id])
    && (forall id :: id in t.stories ==> id in start.stories && t.stories[id] == start.stories[id])
  }

  lemma CollectNothing(t: Table)
    ensures Subtable(t, t)
  {
  }

  lemma SubtableDrop(t: Table, start: Table)
    requires Subtable(t, start) && t.items != []
    ensures Subtable(Dropped(t), start)
  {
  }

  lemma SubtableIs(t: Table, start: Table, now: Time)
    requires TableOk(t) && TableOk(start) && Subtable(t, start) && t.items == Unexpired(start.items, now)
    ensures t == Collected(start, now)
  {
    hide Unexpired;
    forall id
      ensures id in t.records.Keys <==> Listed(t.items, id)
    {
      assert id in t.records.Keys ==> Listed(t.items, id);
    }
    Restricts(t.records, start.records, t.items);
    Restricts(t.stories, start.stories, t.items);
  }

  lemma Restricts<V>(m: map<MsgId, V>, start: map<MsgId, V>, items: seq<Item>)
    requires forall id :: id in m ==> id in start && m[id] == start[id]
    requires forall id :: id in m.Keys <==> Listed(items, id)
    ensures m == map id | id in start && Listed(items, id) :: start[id]
  {
    hide Listed;
    var r := map id | id in start && Listed(items, id) :: start[id];
    forall id
      ensures id in m.Keys <==> id in r.Keys
    {
      assert id in m.Keys <==> Listed(items, id);
    }
  }
}
