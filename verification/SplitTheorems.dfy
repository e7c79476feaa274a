/** What split guarantees, for every envelope and every pair of limits. */
module SplitTheorems {
  import opened Basics
  import opened Wire
  import opened Rpc
  import opened Split

  // ------------------------------------------------------------ content

  datatype Kind = Sub | Publish | Ext | Graft | Prune | IWant | IDontWant | IHave

  predicate IsOf(it: Item, k: Kind) {
    match k
    case Sub => it.SubItem?
    case Publish => it.PublishItem?
    case Ext => it.ExtItem?
    case Graft => it.GraftItem?
    case Prune => it.PruneItem?
    case IWant => it.IWantItem?
    case IDontWant => it.IDontWantItem?
    case IHave => it.IHaveItem?
  }

  function PublishItems(xs: seq<Message>): seq<Item> {
    if xs == [] then [] else PublishItems(xs[..|xs| - 1]) + [PublishItem(xs[|xs| - 1])]
  }

  function Wanted(xs: seq<ControlIWant>): seq<Item> {
    if xs == [] then [] else Wanted(xs[..|xs| - 1]) + WantItems(xs[|xs| - 1].messageIDs)
  }

  function NotWanted(xs: seq<ControlIDontWant>): seq<Item> {
    if xs == [] then [] else NotWanted(xs[..|xs| - 1]) + DontWantItems(xs[|xs| - 1].messageIDs)
  }

  function Advertised(xs: seq<ControlIHave>): seq<Item> {
    if xs == [] then []
    else Advertised(xs[..|xs| - 1]) + HaveItems(xs[|xs| - 1].topicID, xs[|xs| - 1].messageIDs)
  }

  /** The items of one kind in an envelope, in order, with their grouping into
      IWANT, IDONTWANT and IHAVE entries forgotten.  An IHAVE item carries the
      topic it was advertised under. */
  function Content(k: Kind, r: RPC): seq<Item> {
    var c := ControlOf(r);
    match k
    case Sub => SubItems(r.subscriptions)
    case Publish => PublishItems(r.publish)
    case Ext => ExtItems(c.extensions)
    case Graft => GraftItems(c.graft)
    case Prune => PruneItems(c.prune)
    case IWant => Wanted(c.iwant)
    case IDontWant => NotWanted(c.idontwant)
    case IHave => Advertised(c.ihave)
  }

  function Only(k: Kind, it: Item): seq<Item> { if IsOf(it, k) then [it] else [] }

  function IWantCount(xs: seq<ControlIWant>): nat {
    if xs == [] then 0 else IWantCount(xs[..|xs| - 1]) + |xs[|xs| - 1].messageIDs|
  }

  function IDontWantCount(xs: seq<ControlIDontWant>): nat {
    if xs == [] then 0 else IDontWantCount(xs[..|xs| - 1]) + |xs[|xs| - 1].messageIDs|
  }

  function IHaveCount(xs: seq<ControlIHave>): nat {
    if xs == [] then 0 else IHaveCount(xs[..|xs| - 1]) + |xs[|xs| - 1].messageIDs|
  }

  /** How many indivisible items an envelope holds. */
  function Weight(r: RPC): nat {
    var c := ControlOf(r);
    |r.subscriptions| + |r.publish| + (if c.extensions.Some? then 1 else 0) + |c.graft| + |c.prune|
    + IWantCount(c.iwant) + IDontWantCount(c.idontwant) + IHaveCount(c.ihave)
  }

  // The bookkeeping below works for any view of an envelope that an item extends
  // by a fixed contribution; `Content(k, _)` is such a view for each kind.

  type View = RPC -> seq<Item>
  type Pick = Item -> seq<Item>

  function Showing(k: Kind): View { r => Content(k, r) }
  function Picking(k: Kind): Pick { it => Only(k, it) }

  function Flatten(view: View, out: seq<RPC>): seq<Item> {
    if out == [] then [] else Flatten(view, out[..|out| - 1]) + view(out[|out| - 1])
  }

  function Total(view: View, s: State): seq<Item> { Flatten(view, s.out) + view(s.next) }

  function Filter(pick: Pick, items: seq<Item>): seq<Item> {
    if items == [] then [] else Filter(pick, items[..|items| - 1]) + pick(items[|items| - 1])
  }

  lemma FlattenAppend(view: View, out: seq<RPC>, r: RPC)
    ensures Flatten(view, out + [r]) == Flatten(view, out) + view(r)
  {
    assert (out + [r])[..|out|] == out;
  }

  lemma {:induction false} FlattenConcat(view: View, a: seq<RPC>, b: seq<RPC>)
    ensures Flatten(view, a + b) == Flatten(view, a) + Flatten(view, b)
  {
    if b == [] {
      assert a + b == a;
    } else {
      FlattenConcat(view, a, b[..|b| - 1]);
      assert (a + b)[..|a + b| - 1] == a + b[..|b| - 1];
    }
  }

  lemma {:induction false} FilterConcat(pick: Pick, a: seq<Item>, b: seq<Item>)
    ensures Filter(pick, a + b) == Filter(pick, a) + Filter(pick, b)
  {
    if b == [] {
      assert a + b == a;
    } else {
      var init, last := b[..|b| - 1], b[|b| - 1];
      FilterConcat(pick, a, init);
      assert (a + b)[..|a + b| - 1] == a + init && (a + b)[|a + b| - 1] == last;
      assert Filter(pick, a) + Filter(pick, init) + pick(last) == Filter(pick, a) + (Filter(pick, init) + pick(last));
    }
  }

  // ------------------------------------------------------------ one step

  /** Extensions are set rather than appended, so an earlier one would be lost. */
  predicate Safe(r: RPC, it: Item) { it.ExtItem? ==> ControlOf(r).extensions.None? }

  lemma WantItemsAppend(xs: seq<Bytes>, id: Bytes, t: TopicRef)
    ensures WantItems(xs + [id]) == WantItems(xs) + [IWantItem(id)]
    ensures DontWantItems(xs + [id]) == DontWantItems(xs) + [IDontWantItem(id)]
    ensures HaveItems(t, xs + [id]) == HaveItems(t, xs) + [IHaveItem(t, id)]
  {
    assert (xs + [id])[..|xs|] == xs;
  }

  lemma WantedAppend(xs: seq<ControlIWant>, w: ControlIWant)
    ensures Wanted(xs + [w]) == Wanted(xs) + WantItems(w.messageIDs)
  {
    assert (xs + [w])[..|xs|] == xs;
  }

  lemma NotWantedAppend(xs: seq<ControlIDontWant>, w: ControlIDontWant)
    ensures NotWanted(xs + [w]) == NotWanted(xs) + DontWantItems(w.messageIDs)
  {
    assert (xs + [w])[..|xs|] == xs;
  }

  lemma AdvertisedAppend(xs: seq<ControlIHave>, h: ControlIHave)
    ensures Advertised(xs + [h]) == Advertised(xs) + HaveItems(h.topicID, h.messageIDs)
  {
    assert (xs + [h])[..|xs|] == xs;
  }

  lemma AddWanted(xs: seq<ControlIWant>, id: Bytes)
    ensures Wanted(AddIWant(xs, id)) == Wanted(xs) + [IWantItem(id)]
  {
    if xs == [] {
      assert [] + [id] == [id];
      assert AddIWant(xs, id) == [] + [ControlIWant([] + [id])];
      WantedAppend([], ControlIWant([] + [id]));
      WantItemsAppend([], id, NilRef);
    } else {
      var init, ids := xs[..|xs| - 1], xs[|xs| - 1].messageIDs;
      WantedAppend(init, ControlIWant(ids + [id]));
      WantItemsAppend(ids, id, NilRef);
      assert Wanted(xs) == Wanted(init) + WantItems(ids);
    }
  }

  lemma AddNotWanted(xs: seq<ControlIDontWant>, id: Bytes)
    ensures NotWanted(AddIDontWant(xs, id)) == NotWanted(xs) + [IDontWantItem(id)]
  {
    if xs == [] {
      assert [] + [id] == [id];
      assert AddIDontWant(xs, id) == [] + [ControlIDontWant([] + [id])];
      NotWantedAppend([], ControlIDontWant([] + [id]));
      WantItemsAppend([], id, NilRef);
    } else {
      var init, ids := xs[..|xs| - 1], xs[|xs| - 1].messageIDs;
      NotWantedAppend(init, ControlIDontWant(ids + [id]));
      WantItemsAppend(ids, id, NilRef);
      assert NotWanted(xs) == NotWanted(init) + DontWantItems(ids);
    }
  }

  lemma AddAdvertised(xs: seq<ControlIHave>, t: TopicRef, id: Bytes)
    ensures Advertised(AddIHave(xs, t, id)) == Advertised(xs) + [IHaveItem(t, id)]
  {
    var (init, ids) := if LastTopicIs(xs, t) then (xs[..|xs| - 1], xs[|xs| - 1].messageIDs) else (xs, []);
    AdvertisedAppend(init, ControlIHave(t, ids + [id]));
    WantItemsAppend(ids, id, t);
  }

  lemma AddIWantContent(r: RPC, it: Item)
    ensures Content(IWant, Add(r, it)) == Content(IWant, r) + Only(IWant, it)
  {
    var c := ControlOf(r);
    if it.IWantItem? {
      AddWanted(c.iwant, it.id);
    } else if it.IWantOpen? {
      WantedAppend(c.iwant, ControlIWant([]));
    }
  }

  lemma AddIDontWantContent(r: RPC, it: Item)
    ensures Content(IDontWant, Add(r, it)) == Content(IDontWant, r) + Only(IDontWant, it)
  {
    var c := ControlOf(r);
    if it.IDontWantItem? {
      AddNotWanted(c.idontwant, it.id);
    } else if it.IDontWantOpen? {
      NotWantedAppend(c.idontwant, ControlIDontWant([]));
    }
  }

  lemma AddIHaveContent(r: RPC, it: Item)
    ensures Content(IHave, Add(r, it)) == Content(IHave, r) + Only(IHave, it)
  {
    var c := ControlOf(r);
    if it.IHaveItem? {
      AddAdvertised(c.ihave, it.topic, it.id);
    } else if it.IHaveOpen? {
      AdvertisedAppend(c.ihave, ControlIHave(it.topic, []));
    }
  }

  lemma AddPlainContent(k: Kind, r: RPC, it: Item)
    requires k.Sub? || k.Publish? || k.Ext? || k.Graft? || k.Prune?
    requires Safe(r, it)
    ensures Content(k, Add(r, it)) == Content(k, r) + Only(k, it)
  {
    var c := ControlOf(r);
    match it
    case SubItem(x) => assert (r.subscriptions + [x])[..|r.subscriptions|] == r.subscriptions;
    case PublishItem(x) => assert (r.publish + [x])[..|r.publish|] == r.publish;
    case GraftItem(x) => assert (c.graft + [x])[..|c.graft|] == c.graft;
    case PruneItem(x) => assert (c.prune + [x])[..|c.prune|] == c.prune;
    case _ =>
  }

  lemma AddContent(k: Kind, r: RPC, it: Item)
    requires Safe(r, it)
    ensures Content(k, Add(r, it)) == Content(k, r) + Only(k, it)
  {
    match k
    case IWant => AddIWantContent(r, it);
    case IDontWant => AddIDontWantContent(r, it);
    case IHave => AddIHaveContent(r, it);
    case _ => AddPlainContent(k, r, it);
  }

  ghost predicate Additive(view: View, pick: Pick) {
    && view(EMPTY_RPC) == []
    && (forall r: RPC, it: Item :: Safe(r, it) ==> view(Add(r, it)) == view(r) + pick(it))
    && (forall r: RPC, it: Item :: Skips(r, it) ==> pick(it) == [])
  }

  lemma ContentIsAdditive(k: Kind)
    ensures Additive(Showing(k), Picking(k))
  {
    forall r: RPC, it: Item | Safe(r, it)
      ensures Showing(k)(Add(r, it)) == Showing(k)(r) + Picking(k)(it)
    {
      AddContent(k, r, it);
    }
  }

  lemma PlaceContent(view: View, pick: Pick, s: State, it: Item, fits: Test)
    requires Additive(view, pick) && Safe(s.next, it)
    ensures Total(view, Place(s, it, fits)) == Total(view, s) + pick(it)
  {
    FlattenAppend(view, s.out, s.next);
    assert Safe(EMPTY_RPC, it);
  }

  // ------------------------------------------------------------ all steps

  /** At most one extensions entry in play. */
  predicate OneExt(s: State, items: seq<Item>) {
    |Total(Showing(Ext), s)| + |Filter(Picking(Ext), items)| <= 1
  }

  lemma LastIsSafe(s: State, s': State, items: seq<Item>)
    requires items != [] && OneExt(s, items)
    requires Total(Showing(Ext), s') == Total(Showing(Ext), s) + Filter(Picking(Ext), items[..|items| - 1])
    ensures Safe(s'.next, items[|items| - 1])
  {
  }

  lemma {:induction false} PlaceAllContent(view: View, pick: Pick, s: State, items: seq<Item>, fits: Test)
    requires Additive(view, pick) && OneExt(s, items)
    ensures Total(view, PlaceAll(s, items, fits)) == Total(view, s) + Filter(pick, items)
    decreases |items|
  {
    if items != [] {
      var init, it := items[..|items| - 1], items[|items| - 1];
      var s' := PlaceAll(s, init, fits);
      assert Safe(s'.next, it) by {
        ContentIsAdditive(Ext);
        PlaceAllContent(Showing(Ext), Picking(Ext), s, init, fits);
        LastIsSafe(s, s', items);
      }
      PlaceAllContent(view, pick, s, init, fits);
      PlaceContent(view, pick, s', it, fits);
    }
  }

  // ------------------------------------------------------------ the items of an envelope

  lemma {:induction false} FilterSubs(k: Kind, xs: seq<SubOpts>)
    ensures Filter(Picking(k), SubItems(xs)) == if k == Sub then SubItems(xs) else []
  {
    if xs != [] {
      FilterSubs(k, xs[..|xs| - 1]);
      FilterLast(k, SubItems(xs[..|xs| - 1]), SubItem(xs[|xs| - 1]));
    }
  }

  lemma {:induction false} FilterGrafts(k: Kind, xs: seq<ControlGraft>)
    ensures Filter(Picking(k), GraftItems(xs)) == if k == Graft then GraftItems(xs) else []
  {
    if xs != [] {
      FilterGrafts(k, xs[..|xs| - 1]);
      FilterLast(k, GraftItems(xs[..|xs| - 1]), GraftItem(xs[|xs| - 1]));
    }
  }

  lemma {:induction false} FilterPrunes(k: Kind, xs: seq<ControlPrune>)
    ensures Filter(Picking(k), PruneItems(xs)) == if k == Prune then PruneItems(xs) else []
  {
    if xs != [] {
      FilterPrunes(k, xs[..|xs| - 1]);
      FilterLast(k, PruneItems(xs[..|xs| - 1]), PruneItem(xs[|xs| - 1]));
    }
  }

  lemma {:induction false} FilterWants(k: Kind, xs: seq<Bytes>)
    ensures Filter(Picking(k), WantItems(xs)) == if k == IWant then WantItems(xs) else []
  {
    if xs != [] {
      FilterWants(k, xs[..|xs| - 1]);
      FilterLast(k, WantItems(xs[..|xs| - 1]), IWantItem(xs[|xs| - 1]));
    }
  }

  lemma {:induction false} FilterDontWants(k: Kind, xs: seq<Bytes>)
    ensures Filter(Picking(k), DontWantItems(xs)) == if k == IDontWant then DontWantItems(xs) else []
  {
    if xs != [] {
      FilterDontWants(k, xs[..|xs| - 1]);
      FilterLast(k, DontWantItems(xs[..|xs| - 1]), IDontWantItem(xs[|xs| - 1]));
    }
  }

  lemma {:induction false} FilterHaves(k: Kind, t: TopicRef, xs: seq<Bytes>)
    ensures Filter(Picking(k), HaveItems(t, xs)) == if k == IHave then HaveItems(t, xs) else []
  {
    if xs != [] {
      FilterHaves(k, t, xs[..|xs| - 1]);
      FilterLast(k, HaveItems(t, xs[..|xs| - 1]), IHaveItem(t, xs[|xs| - 1]));
    }
  }

  lemma FilterLast(k: Kind, items: seq<Item>, it: Item)
    ensures Filter(Picking(k), items + [it]) == Filter(Picking(k), items) + Only(k, it)
  {
    assert (items + [it])[..|items|] == items;
  }

  /** A container and its contents, after earlier items. */
  lemma FilterOpened(pick: Pick, before: seq<Item>, open: Item, items: seq<Item>)
    requires pick(open) == []
    ensures Filter(pick, before + ([open] + items)) == Filter(pick, before) + Filter(pick, items)
  {
    assert before + ([open] + items) == (before + [open]) + items;
    FilterConcat(pick, before + [open], items);
    assert (before + [open])[..|before|] == before;
  }

  lemma {:induction false} FilterIWants(k: Kind, xs: seq<ControlIWant>)
    ensures Filter(Picking(k), IWantItems(xs)) == if k == IWant then Wanted(xs) else []
  {
    if xs != [] {
      var n := |xs| - 1;
      FilterIWants(k, xs[..n]);
      FilterWants(k, xs[n].messageIDs);
      FilterOpened(Picking(k), IWantItems(xs[..n]), IWantOpen, WantItems(xs[n].messageIDs));
      assert Filter(Picking(k), IWantItems(xs))
          == Filter(Picking(k), IWantItems(xs[..n])) + Filter(Picking(k), WantItems(xs[n].messageIDs));
      assert Wanted(xs) == Wanted(xs[..n]) + WantItems(xs[n].messageIDs);
    }
  }

  lemma {:induction false} FilterIDontWants(k: Kind, xs: seq<ControlIDontWant>)
    ensures Filter(Picking(k), IDontWantItems(xs)) == if k == IDontWant then NotWanted(xs) else []
  {
    if xs != [] {
      var n := |xs| - 1;
      FilterIDontWants(k, xs[..n]);
      FilterDontWants(k, xs[n].messageIDs);
      FilterOpened(Picking(k), IDontWantItems(xs[..n]), IDontWantOpen, DontWantItems(xs[n].messageIDs));
      assert Filter(Picking(k), IDontWantItems(xs))
          == Filter(Picking(k), IDontWantItems(xs[..n])) + Filter(Picking(k), DontWantItems(xs[n].messageIDs));
      assert NotWanted(xs) == NotWanted(xs[..n]) + DontWantItems(xs[n].messageIDs);
    }
  }

  lemma {:induction false} FilterIHaves(k: Kind, xs: seq<ControlIHave>)
    ensures Filter(Picking(k), IHaveItems(xs)) == if k == IHave then Advertised(xs) else []
  {
    if xs != [] {
      var n := |xs| - 1;
      var t, ids := xs[n].topicID, xs[n].messageIDs;
      FilterIHaves(k, xs[..n]);
      FilterHaves(k, t, ids);
      FilterOpened(Picking(k), IHaveItems(xs[..n]), IHaveOpen(t), HaveItems(t, ids));
      assert Filter(Picking(k), IHaveItems(xs))
          == Filter(Picking(k), IHaveItems(xs[..n])) + Filter(Picking(k), HaveItems(t, ids));
      assert Advertised(xs) == Advertised(xs[..n]) + HaveItems(t, ids);
    }
  }

  lemma FilterThree(pick: Pick, a: seq<Item>, b: seq<Item>, c: seq<Item>)
    ensures Filter(pick, a + b + c) == Filter(pick, a) + Filter(pick, b) + Filter(pick, c)
  {
    FilterConcat(pick, a, b);
    FilterConcat(pick, a + b, c);
  }

  lemma FilterExt(k: Kind, e: Option<ControlExtensions>)
    ensures Filter(Picking(k), [ControlItem] + ExtItems(e)) == if k == Ext then ExtItems(e) else []
  {
    FilterOpened(Picking(k), [], ControlItem, ExtItems(e));
    assert [] + ([ControlItem] + ExtItems(e)) == [ControlItem] + ExtItems(e);
    if e.Some? {
      FilterLast(k, [], ExtItem(e.value));
      assert [] + [ExtItem(e.value)] == ExtItems(e);
    }
  }

  lemma FilterMesh(k: Kind, c: ControlMessage)
    ensures Filter(Picking(k), MeshItems(c))
            == match k
               case Ext => ExtItems(c.extensions)
               case Graft => GraftItems(c.graft)
               case Prune => PruneItems(c.prune)
               case _ => []
  {
    FilterExt(k, c.extensions);
    FilterGrafts(k, c.graft);
    FilterPrunes(k, c.prune);
    FilterThree(Picking(k), [ControlItem] + ExtItems(c.extensions), GraftItems(c.graft), PruneItems(c.prune));
  }

  lemma FilterGossip(k: Kind, c: ControlMessage)
    ensures Filter(Picking(k), GossipItems(c))
            == match k
               case IWant => Wanted(c.iwant)
               case IDontWant => NotWanted(c.idontwant)
               case IHave => Advertised(c.ihave)
               case _ => []
  {
    FilterIWants(k, c.iwant);
    FilterIDontWants(k, c.idontwant);
    FilterIHaves(k, c.ihave);
    FilterThree(Picking(k), IWantItems(c.iwant), IDontWantItems(c.idontwant), IHaveItems(c.ihave));
  }

  function AllItems(r: RPC): seq<Item> { SubItems(r.subscriptions) + ControlItems(r.control) }

  lemma FilterControl(k: Kind, c: Option<ControlMessage>)
    ensures Filter(Picking(k), ControlItems(c))
            == if k == Sub then [] else Content(k, EMPTY_RPC.(control := c))
  {
    if c.Some? {
      FilterMesh(k, c.value);
      FilterGossip(k, c.value);
      FilterConcat(Picking(k), MeshItems(c.value), GossipItems(c.value));
    }
  }

  lemma ControlContent(k: Kind, r: RPC)
    ensures Content(k, Rest(r)) == if k == Sub then SubItems(r.subscriptions)
            else Content(k, EMPTY_RPC.(control := r.control))
  {
  }

  lemma JoinOne<T>(a: seq<T>, b: seq<T>)
    ensures a == [] ==> a + b == b
    ensures b == [] ==> a + b == a
  {
  }

  lemma FilterAllItems(k: Kind, r: RPC)
    ensures Filter(Picking(k), AllItems(r)) == Content(k, Rest(r))
  {
    var subs, ctl := Filter(Picking(k), SubItems(r.subscriptions)), Filter(Picking(k), ControlItems(r.control));
    FilterConcat(Picking(k), SubItems(r.subscriptions), ControlItems(r.control));
    FilterSubs(k, r.subscriptions);
    FilterControl(k, r.control);
    ControlContent(k, r);
    JoinOne(subs, ctl);
  }

  // ------------------------------------------------------------ sizes only grow

  lemma LastGrows<T>(field: nat, xs: seq<T>, x: T, enc: T -> Bytes)
    requires xs != [] && |enc(xs[|xs| - 1])| <= |enc(x)|
    ensures |Repeated(field, xs, enc)| <= |Repeated(field, xs[..|xs| - 1] + [x], enc)|
  {
    RepeatedAppend(field, xs[..|xs| - 1], x, enc);
    FieldGrows(field, enc(xs[|xs| - 1]), enc(x));
  }

  lemma IWantGrows(xs: seq<ControlIWant>, id: Bytes)
    ensures |Repeated(2, xs, EncodeIWant)| <= |Repeated(2, AddIWant(xs, id), EncodeIWant)|
  {
    if xs != [] {
      var ids := xs[|xs| - 1].messageIDs;
      RepeatedAppend(1, ids, id, EncodeId);
      LastGrows(2, xs, ControlIWant(ids + [id]), EncodeIWant);
    }
  }

  lemma IDontWantGrows(xs: seq<ControlIDontWant>, id: Bytes)
    ensures |Repeated(5, xs, EncodeIDontWant)| <= |Repeated(5, AddIDontWant(xs, id), EncodeIDontWant)|
  {
    if xs != [] {
      var ids := xs[|xs| - 1].messageIDs;
      RepeatedAppend(1, ids, id, EncodeId);
      LastGrows(5, xs, ControlIDontWant(ids + [id]), EncodeIDontWant);
    }
  }

  lemma IHaveGrows(xs: seq<ControlIHave>, t: TopicRef, id: Bytes)
    ensures |Repeated(1, xs, EncodeIHave)| <= |Repeated(1, AddIHave(xs, t, id), EncodeIHave)|
  {
    if LastTopicIs(xs, t) {
      var ids := xs[|xs| - 1].messageIDs;
      RepeatedAppend(2, ids, id, EncodeId);
      LastGrows(1, xs, ControlIHave(t, ids + [id]), EncodeIHave);
    } else {
      RepeatedAppend(1, xs, ControlIHave(t, [id]), EncodeIHave);
    }
  }

  lemma ControlGrows(c: ControlMessage, it: Item)
    requires it.ExtItem? ==> c.extensions.None?
    ensures |EncodeControl(c)| <= |EncodeControl(AddToControl(c, it))|
  {
    match it
    case GraftItem(g) => RepeatedAppend(3, c.graft, g, EncodeGraft);
    case PruneItem(p) => RepeatedAppend(4, c.prune, p, EncodePrune);
    case IWantOpen => RepeatedAppend(2, c.iwant, ControlIWant([]), EncodeIWant);
    case IWantItem(id) => IWantGrows(c.iwant, id);
    case IDontWantOpen => RepeatedAppend(5, c.idontwant, ControlIDontWant([]), EncodeIDontWant);
    case IDontWantItem(id) => IDontWantGrows(c.idontwant, id);
    case IHaveOpen(t) => RepeatedAppend(1, c.ihave, ControlIHave(t, []), EncodeIHave);
    case IHaveItem(t, id) => IHaveGrows(c.ihave, t, id);
    case _ =>
  }

  lemma OptControlGrows(c: Option<ControlMessage>, d: ControlMessage)
    requires c.Some? ==> |EncodeControl(c.value)| <= |EncodeControl(d)|
    ensures |EncodeOptControl(c)| <= |EncodeOptControl(Some(d))|
    ensures ChargedControl(c) <= ChargedControl(Some(d))
  {
    if c.Some? {
      FieldGrows(3, EncodeControl(c.value), EncodeControl(d));
      ChargeGrows(|EncodeControl(c.value)|, |EncodeControl(d)|);
    }
  }

  lemma AddGrows(r: RPC, it: Item)
    requires Safe(r, it)
    ensures Size(r) <= Size(Add(r, it)) && ControlSize(r) <= ControlSize(Add(r, it))
  {
    if it.SubItem? {
      RepeatedAppend(1, r.subscriptions, it.sub, EncodeSub);
      assert (r.subscriptions + [it.sub])[..|r.subscriptions|] == r.subscriptions;
    } else if it.PublishItem? {
      RepeatedAppend(2, r.publish, it.msg, EncodeMessage);
    } else {
      ControlGrows(ControlOf(r), it);
      OptControlGrows(r.control, AddToControl(ControlOf(r), it));
    }
  }

  // ------------------------------------------------------------ fitting pieces

  ghost predicate Monotone(fits: Test) {
    forall r: RPC, it: Item :: Safe(r, it) && fits(Add(r, it)) ==> fits(r)
  }

  lemma WithinIsMonotone(limit: int, controlLimit: int)
    ensures Monotone(Within(limit, controlLimit))
  {
    forall r: RPC, it: Item | Safe(r, it) && Within(limit, controlLimit)(Add(r, it))
      ensures Within(limit, controlLimit)(r)
    {
      AddGrows(r, it);
    }
  }

  predicate FitsOrSingle(r: RPC, fits: Test) { fits(r) || Weight(r) <= 1 }

  lemma CountOne(w: ControlIWant, d: ControlIDontWant, h: ControlIHave)
    ensures IWantCount([]) == IDontWantCount([]) == IHaveCount([]) == 0
    ensures IWantCount([w]) == |w.messageIDs|
    ensures IDontWantCount([d]) == |d.messageIDs|
    ensures IHaveCount([h]) == |h.messageIDs|
  {
    assert [w][..0] == [] && [d][..0] == [] && [h][..0] == [];
  }

  lemma SingleItem(it: Item)
    ensures Weight(Add(EMPTY_RPC, it)) <= 1
  {
    var w, d := if it.IWantItem? then [it.id] else [], if it.IDontWantItem? then [it.id] else [];
    var h := ControlIHave(if it.IHaveItem? || it.IHaveOpen? then it.topic else NilRef,
                          if it.IHaveItem? then [it.id] else []);
    CountOne(ControlIWant(w), ControlIDontWant(d), h);
    hide IWantCount, IDontWantCount, IHaveCount;
    match it
    case IWantOpen => assert [] + [ControlIWant([])] == [ControlIWant(w)];
    case IDontWantOpen => assert [] + [ControlIDontWant([])] == [ControlIDontWant(d)];
    case IHaveOpen(t) => assert [] + [ControlIHave(t, [])] == [h];
    case IHaveItem(t, id) => assert [] + [ControlIHave(t, [id])] == [h];
    case _ =>
  }

  lemma PlaceFits(s: State, it: Item, fits: Test)
    requires Monotone(fits) && Safe(s.next, it)
    requires FitsOrSingle(s.next, fits) && forall p :: p in s.out ==> FitsOrSingle(p, fits)
    ensures var s' := Place(s, it, fits);
            FitsOrSingle(s'.next, fits) && forall p :: p in s'.out ==> FitsOrSingle(p, fits)
  {
    SingleItem(it);
  }

  lemma {:induction false} PlaceAllFits(s: State, items: seq<Item>, fits: Test)
    requires Monotone(fits) && OneExt(s, items)
    requires FitsOrSingle(s.next, fits) && forall p :: p in s.out ==> FitsOrSingle(p, fits)
    ensures var s' := PlaceAll(s, items, fits);
            FitsOrSingle(s'.next, fits) && forall p :: p in s'.out ==> FitsOrSingle(p, fits)
  {
    if items != [] {
      var init := items[..|items| - 1];
      PlaceAllFits(s, init, fits);
      ContentIsAdditive(Ext);
      PlaceAllContent(Showing(Ext), Picking(Ext), s, init, fits);
      LastIsSafe(s, PlaceAll(s, init, fits), items);
      PlaceFits(PlaceAll(s, init, fits), items[|items| - 1], fits);
    }
  }

  // ------------------------------------------------------------ full pieces

  /** An item put into a piece without regard to limits. */
  function PutIn(r: RPC, it: Item): RPC { if Skips(r, it) then r else Add(r, it) }

  /** A run of items in one piece. */
  function Filled(run: seq<Item>): RPC {
    if run == [] then EMPTY_RPC else PutIn(Filled(run[..|run| - 1]), run[|run| - 1])
  }

  /** p is the piece of the items from lo to hi; after the first of them, each was
      there already or left the piece within the limits. */
  predicate Holds(p: RPC, items: seq<Item>, lo: nat, hi: nat, fits: Test) {
    && lo <= hi <= |items| && p == Filled(items[lo..hi])
    && forall k :: lo + 1 < k <= hi ==> Admitted(items, lo, k, fits)
  }

  predicate Admitted(items: seq<Item>, lo: nat, k: nat, fits: Test)
    requires lo < k <= |items|
  {
    Skips(Filled(items[lo..k - 1]), items[k - 1]) || fits(Filled(items[lo..k]))
  }

  /** The next item would not have fitted. */
  predicate StopsAt(p: RPC, items: seq<Item>, hi: nat, fits: Test) {
    hi < |items| && !Skips(p, items[hi]) && !fits(Add(p, items[hi]))
  }

  predicate ClosedAt(p: RPC, items: seq<Item>, lo: nat, hi: nat, fits: Test) {
    Holds(p, items, lo, hi, fits) && StopsAt(p, items, hi, fits)
  }

  function From(cuts: seq<nat>, i: nat): nat
    requires i <= |cuts|
  {
    if i == 0 then 0 else cuts[i - 1]
  }

  /** The items are cut into consecutive runs, one for each closed piece and one
      for the open piece.  The item at each cut did not fit into the piece before
      it, and opens the piece after it. */
  ghost predicate GreedyCuts(s: State, items: seq<Item>, cuts: seq<nat>, fits: Test) {
    && Rising(cuts) && AllClosed(s.out, items, cuts, fits)
    && Holds(s.next, items, From(cuts, |cuts|), |items|, fits)
  }

  predicate Rising(cuts: seq<nat>) { forall i, j :: 0 <= i < j < |cuts| ==> cuts[i] < cuts[j] }

  predicate AllClosed(out: seq<RPC>, items: seq<Item>, cuts: seq<nat>, fits: Test) {
    |cuts| == |out| && forall i :: 0 <= i < |cuts| ==> ClosedAt(out[i], items, From(cuts, i), cuts[i], fits)
  }

  lemma HoldsLater(p: RPC, items: seq<Item>, it: Item, lo: nat, hi: nat, fits: Test)
    requires Holds(p, items, lo, hi, fits)
    ensures Holds(p, items + [it], lo, hi, fits)
    ensures StopsAt(p, items, hi, fits) ==> StopsAt(p, items + [it], hi, fits)
  {
    var items' := items + [it];
    assert items'[lo..hi] == items[lo..hi];
    forall k | lo + 1 < k <= hi
      ensures Admitted(items', lo, k, fits)
    {
      assert Admitted(items, lo, k, fits);
      assert items'[lo..k - 1] == items[lo..k - 1] && items'[lo..k] == items[lo..k];
    }
  }

  lemma HoldsMore(p: RPC, items: seq<Item>, it: Item, lo: nat, fits: Test)
    requires Holds(p, items, lo, |items|, fits) && (Skips(p, it) || fits(Add(p, it)))
    ensures Holds(PutIn(p, it), items + [it], lo, |items| + 1, fits)
  {
    var items' := items + [it];
    var n := |items|;
    HoldsLater(p, items, it, lo, n, fits);
    assert items'[lo..n + 1][..n - lo] == items'[lo..n] == items[lo..n];
    forall k | lo + 1 < k <= n + 1
      ensures Admitted(items', lo, k, fits)
    {
      assert k <= n ==> Admitted(items', lo, k, fits);
    }
  }

  lemma HoldsOne(items: seq<Item>, it: Item, fits: Test)
    ensures Holds(Add(EMPTY_RPC, it), items + [it], |items|, |items| + 1, fits)
  {
    var run := (items + [it])[|items|..];
    assert run == [it] && run[..0] == [];
    assert Filled([it]) == PutIn(EMPTY_RPC, it);
  }

  lemma ClosedLater(p: RPC, items: seq<Item>, it: Item, lo: nat, hi: nat, fits: Test)
    requires ClosedAt(p, items, lo, hi, fits)
    ensures ClosedAt(p, items + [it], lo, hi, fits) && hi < |items|
  {
    HoldsLater(p, items, it, lo, hi, fits);
  }

  lemma AllClosedLater(out: seq<RPC>, items: seq<Item>, it: Item, cuts: seq<nat>, fits: Test)
    requires AllClosed(out, items, cuts, fits)
    ensures AllClosed(out, items + [it], cuts, fits) && forall i :: 0 <= i < |cuts| ==> cuts[i] < |items|
  {
    hide ClosedAt;
    forall i | 0 <= i < |cuts|
      ensures ClosedAt(out[i], items + [it], From(cuts, i), cuts[i], fits) && cuts[i] < |items|
    {
      ClosedLater(out[i], items, it, From(cuts, i), cuts[i], fits);
    }
  }

  lemma AllClosedMore(out: seq<RPC>, p: RPC, items: seq<Item>, cuts: seq<nat>, hi: nat, fits: Test)
    requires AllClosed(out, items, cuts, fits) && ClosedAt(p, items, From(cuts, |cuts|), hi, fits)
    ensures AllClosed(out + [p], items, cuts + [hi], fits)
  {
    hide ClosedAt;
    forall i | 0 <= i < |cuts + [hi]|
      ensures ClosedAt((out + [p])[i], items, From(cuts + [hi], i), (cuts + [hi])[i], fits)
    {
      assert From(cuts + [hi], i) == From(cuts, i);
    }
  }

  /** The item joins the open piece. */
  lemma GreedyStays(s: State, next: RPC, items: seq<Item>, it: Item, cuts: seq<nat>, fits: Test)
    requires GreedyCuts(s, items, cuts, fits)
    requires Holds(next, items + [it], From(cuts, |cuts|), |items| + 1, fits)
    ensures GreedyCuts(State(s.out, next), items + [it], cuts, fits)
  {
    hide Holds, AllClosed;
    AllClosedLater(s.out, items, it, cuts, fits);
  }

  /** The item opens another piece. */
  lemma GreedyCloses(s: State, next: RPC, items: seq<Item>, it: Item, cuts: seq<nat>, fits: Test)
    requires GreedyCuts(s, items, cuts, fits)
    requires ClosedAt(s.next, items + [it], From(cuts, |cuts|), |items|, fits)
    requires Holds(next, items + [it], |items|, |items| + 1, fits)
    ensures GreedyCuts(State(s.out + [s.next], next), items + [it], cuts + [|items|], fits)
  {
    hide Holds, AllClosed, ClosedAt;
    AllClosedLater(s.out, items, it, cuts, fits);
    AllClosedMore(s.out, s.next, items + [it], cuts, |items|, fits);
  }

  lemma PlaceGreedy(s: State, items: seq<Item>, it: Item, cuts: seq<nat>, fits: Test)
    requires GreedyCuts(s, items, cuts, fits)
    ensures var s' := Place(s, it, fits);
            GreedyCuts(s', items + [it], if s'.out == s.out then cuts else cuts + [|items|], fits)
  {
    OpenHolds(s, items, cuts, fits);
    hide Holds, ClosedAt, GreedyCuts, Add, Skips;
    PlaceOpen(s.next, items, it, From(cuts, |cuts|), fits);
    if Skips(s.next, it) || fits(Add(s.next, it)) {
      GreedyStays(s, PutIn(s.next, it), items, it, cuts, fits);
      assert Place(s, it, fits) == State(s.out, PutIn(s.next, it));
    } else {
      GreedyCloses(s, Add(EMPTY_RPC, it), items, it, cuts, fits);
      assert |Place(s, it, fits).out| == |s.out| + 1;
    }
  }

  lemma OpenHolds(s: State, items: seq<Item>, cuts: seq<nat>, fits: Test)
    requires GreedyCuts(s, items, cuts, fits)
    ensures Holds(s.next, items, From(cuts, |cuts|), |items|, fits)
  {
  }

  /** What becomes of the open piece. */
  lemma PlaceOpen(p: RPC, items: seq<Item>, it: Item, lo: nat, fits: Test)
    requires Holds(p, items, lo, |items|, fits)
    ensures Skips(p, it) || fits(Add(p, it)) ==> Holds(PutIn(p, it), items + [it], lo, |items| + 1, fits)
    ensures !Skips(p, it) && !fits(Add(p, it)) ==>
              && ClosedAt(p, items + [it], lo, |items|, fits)
              && Holds(Add(EMPTY_RPC, it), items + [it], |items|, |items| + 1, fits)
  {
    HoldsLater(p, items, it, lo, |items|, fits);
    HoldsOne(items, it, fits);
    if Skips(p, it) || fits(Add(p, it)) {
      HoldsMore(p, items, it, lo, fits);
    }
  }

  lemma GreedyStart(fits: Test)
    ensures GreedyCuts(State([], EMPTY_RPC), [], [], fits)
  {
  }

  lemma {:induction false} PlaceAllGreedy(items: seq<Item>, fits: Test) returns (cuts: seq<nat>)
    ensures GreedyCuts(PlaceAll(State([], EMPTY_RPC), items, fits), items, cuts, fits)
  {
    hide GreedyCuts, Place;
    if items == [] {
      cuts := [];
      GreedyStart(fits);
    } else {
      var n := |items| - 1;
      var s := PlaceAll(State([], EMPTY_RPC), items[..n], fits);
      cuts := PlaceAllGreedy(items[..n], fits);
      PlaceGreedy(s, items[..n], items[n], cuts, fits);
      assert items[..n] + [items[n]] == items;
      cuts := if Place(s, items[n], fits).out == s.out then cuts else cuts + [n];
    }
  }

  // ------------------------------------------------------------ published messages

  function Concat<T>(groups: seq<seq<T>>): seq<T> {
    if groups == [] then [] else Concat(groups[..|groups| - 1]) + groups[|groups| - 1]
  }

  lemma ConcatAppend<T>(groups: seq<seq<T>>, g: seq<T>)
    ensures Concat(groups + [g]) == Concat(groups) + g
  {
    assert (groups + [g])[..|groups|] == groups;
  }

  lemma PackStepConcat<T>(p: Packing<T>, m: T, charge: T -> nat, limit: int)
    ensures var q := PackStep(p, m, charge, limit); Concat(q.full) + q.open == Concat(p.full) + p.open + [m]
  {
    ConcatAppend(p.full, p.open);
    assert Concat(p.full) + (p.open + [m]) == Concat(p.full) + p.open + [m];
  }

  lemma {:induction false} PackConcat<T>(ms: seq<T>, charge: T -> nat, limit: int)
    ensures var p := Pack(ms, charge, limit); Concat(p.full) + p.open == ms
  {
    if ms != [] {
      var n := |ms| - 1;
      PackConcat(ms[..n], charge, limit);
      PackStepConcat(Pack(ms[..n], charge, limit), ms[n], charge, limit);
    }
  }

  lemma ChargedIsZero<T>(ms: seq<T>, charge: T -> nat)
    requires forall m :: m in ms ==> charge(m) > 0
    ensures Charged(ms, charge) == 0 <==> ms == []
  {
  }

  lemma GroupsConcat<T>(ms: seq<T>, charge: T -> nat, limit: int)
    requires forall m :: m in ms ==> charge(m) > 0
    ensures Concat(Groups(ms, charge, limit)) == ms
  {
    PackConcat(ms, charge, limit);
    var p := Pack(ms, charge, limit);
    assert forall m :: m in p.open ==> m in Concat(p.full) + p.open;
    ChargedIsZero(p.open, charge);
    ConcatAppend(p.full, p.open);
  }

  lemma {:induction false} PublishItemsConcat(a: seq<Message>, b: seq<Message>)
    ensures PublishItems(a + b) == PublishItems(a) + PublishItems(b)
  {
    if b == [] {
      assert a + b == a;
    } else {
      PublishItemsConcat(a, b[..|b| - 1]);
      assert (a + b)[..|a + b| - 1] == a + b[..|b| - 1];
    }
  }

  lemma PublishRPCContent(k: Kind, ms: seq<Message>)
    ensures Content(k, PublishRPC(ms)) == if k == Publish then PublishItems(ms) else []
  {
  }

  lemma {:induction false} PublishRPCsContent(k: Kind, groups: seq<seq<Message>>)
    ensures Flatten(Showing(k), PublishRPCs(groups)) == if k == Publish then PublishItems(Concat(groups)) else []
  {
    if groups != [] {
      var init, g := groups[..|groups| - 1], groups[|groups| - 1];
      PublishRPCsContent(k, init);
      PublishRPCContent(k, g);
      FlattenAppend(Showing(k), PublishRPCs(init), PublishRPC(g));
      PublishItemsConcat(Concat(init), g);
    }
  }

  lemma PublishContent(k: Kind, ms: seq<Message>, limit: int)
    ensures Flatten(Showing(k), PublishPieces(ms, limit)) == if k == Publish then PublishItems(ms) else []
  {
    PublishRPCsContent(k, Groups(ms, PublishCharge, limit));
    GroupsConcat(ms, PublishCharge, limit);
  }

  function EmptyMessages(ms: seq<Message>): nat {
    if ms == [] then 0 else EmptyMessages(ms[..|ms| - 1]) + Short(|EncodeMessage(ms[|ms| - 1])|)
  }

  lemma {:induction false} ChargedMessagesIsEncoded(ms: seq<Message>)
    ensures |Repeated(2, ms, EncodeMessage)| == Charged(ms, PublishCharge) + EmptyMessages(ms)
  {
    if ms != [] {
      ChargedMessagesIsEncoded(ms[..|ms| - 1]);
      ChargedIsEncoded(2, EncodeMessage(ms[|ms| - 1]));
    }
  }

  lemma PublishPieceSize(ms: seq<Message>)
    ensures Size(PublishRPC(ms)) == Charged(ms, PublishCharge) + EmptyMessages(ms)
  {
    ChargedMessagesIsEncoded(ms);
  }

  lemma PublishPieceWeight(ms: seq<Message>)
    ensures ControlSize(PublishRPC(ms)) == 0 && Weight(PublishRPC(ms)) == |ms|
  {
  }

  predicate Packed<T>(ms: seq<T>, charge: T -> nat, limit: int) {
    |ms| <= 1 || Charged(ms, charge) <= limit
  }

  /** The i-th full group was closed because the first message of the group after
      it did not fit. */
  predicate ClosedInTime<T>(p: Packing<T>, i: nat, charge: T -> nat, limit: int)
    requires i < |p.full|
  {
    var following := if i + 1 < |p.full| then p.full[i + 1] else p.open;
    following != [] && Charged(p.full[i], charge) + charge(following[0]) > limit
  }

  ghost predicate GreedyPacking<T>(p: Packing<T>, charge: T -> nat, limit: int) {
    && Packed(p.open, charge, limit)
    && (forall i :: 0 <= i < |p.full| ==> Packed(p.full[i], charge, limit))
    && (forall i :: 0 <= i < |p.full| ==> ClosedInTime(p, i, charge, limit))
  }

  lemma PackStepGreedy<T>(p: Packing<T>, m: T, charge: T -> nat, limit: int)
    requires GreedyPacking(p, charge, limit)
    ensures GreedyPacking(PackStep(p, m, charge, limit), charge, limit)
  {
    var q := PackStep(p, m, charge, limit);
    ChargedAppend(p.open, m, charge);
    hide Charged;
    forall i | 0 <= i < |q.full|
      ensures ClosedInTime(q, i, charge, limit)
    {
      if i < |p.full| {
        assert ClosedInTime(p, i, charge, limit);
      }
    }
  }

  /** The groups of published messages are within the charged limit or single,
      and none was closed early. */
  lemma {:induction false} PackGreedy<T>(ms: seq<T>, charge: T -> nat, limit: int)
    ensures GreedyPacking(Pack(ms, charge, limit), charge, limit)
  {
    if ms != [] {
      var n := |ms| - 1;
      PackGreedy(ms[..n], charge, limit);
      PackStepGreedy(Pack(ms[..n], charge, limit), ms[n], charge, limit);
    }
  }

  lemma GroupsPacked<T>(ms: seq<T>, charge: T -> nat, limit: int)
    ensures forall g :: g in Groups(ms, charge, limit) ==> Packed(g, charge, limit)
  {
    PackGreedy(ms, charge, limit);
  }

  lemma {:induction false} EmptyMessagesZero(ms: seq<Message>)
    ensures EmptyMessages(ms) == 0 <==> NoEmptyMessage(ms)
  {
    if ms != [] {
      var init, m := ms[..|ms| - 1], ms[|ms| - 1];
      EmptyMessagesZero(init);
      assert forall x :: x in ms <==> x in init || x == m;
    }
  }

  predicate NoEmptyMessage(ms: seq<Message>) { forall m :: m in ms ==> EncodeMessage(m) != [] }

  lemma {:induction false} InConcat<T>(groups: seq<seq<T>>, g: seq<T>)
    requires g in groups
    ensures |g| <= |Concat(groups)| && forall m :: m in g ==> m in Concat(groups)
  {
    var n := |groups| - 1;
    if g in groups[..n] {
      InConcat(groups[..n], g);
    } else {
      assert g == groups[n];
    }
  }

  lemma {:induction false} PublishRPCsOf(groups: seq<seq<Message>>, p: RPC)
    requires p in PublishRPCs(groups)
    ensures p == PublishRPC(p.publish) && p.publish in groups
  {
    var n := |groups| - 1;
    if p in PublishRPCs(groups[..n]) {
      PublishRPCsOf(groups[..n], p);
      assert p.publish in groups[..n];
    } else {
      assert p == PublishRPC(groups[n]);
    }
  }

  // ------------------------------------------------------------ nothing is lost

  ghost predicate SeesNothingInNothing(view: View) {
    forall r :: Size(r) == 0 ==> view(r) == []
  }

  lemma EmptyEnvelope(k: Kind)
    ensures SeesNothingInNothing(Showing(k))
  {
    forall r | Size(r) == 0
      ensures Content(k, r) == []
    {
      assert r.subscriptions == [] && r.publish == [] && r.control.None?;
    }
  }

  lemma DropEmptyTail(view: View, s: State)
    requires SeesNothingInNothing(view)
    ensures Flatten(view, s.out + if Size(s.next) > 0 then [s.next] else []) == Total(view, s)
  {
    if Size(s.next) > 0 {
      FlattenAppend(view, s.out, s.next);
    } else {
      assert s.out + [] == s.out;
    }
  }

  lemma PiecesContent(view: View, pick: Pick, items: seq<Item>, fits: Test)
    requires Additive(view, pick) && SeesNothingInNothing(view)
    requires |Filter(Picking(Ext), items)| <= 1
    ensures Flatten(view, Pieces(items, fits)) == Filter(pick, items)
  {
    var s0 := State([], EMPTY_RPC);
    assert Total(view, s0) == [] && Total(Showing(Ext), s0) == [];
    PlaceAllContent(view, pick, s0, items, fits);
    DropEmptyTail(view, PlaceAll(s0, items, fits));
  }

  lemma RestContent(k: Kind, r: RPC, fits: Test)
    ensures Flatten(Showing(k), RestPieces(r, fits)) == Content(k, Rest(r))
  {
    EmptyEnvelope(k);
    if fits(Rest(r)) {
      DropEmptyTail(Showing(k), State([], Rest(r)));
      assert [] + [Rest(r)] == [Rest(r)];
    } else {
      FilterAllItems(k, r);
      FilterAllItems(Ext, r);
      ContentIsAdditive(k);
      PiecesContent(Showing(k), Picking(k), AllItems(r), fits);
    }
  }

  lemma ContentBesidesMessages(k: Kind, r: RPC)
    ensures Content(k, r) == (if k == Publish then PublishItems(r.publish) else []) + Content(k, Rest(r))
  {
  }

  /** Nothing is lost, duplicated or reordered: for each kind, the pieces carry
      together exactly the items of the envelope, in order.  This covers the
      published messages, subscriptions, extensions, GRAFTs, PRUNEs, IWANT ids,
      IDONTWANT ids and (topic, id) IHAVE pairs. */
  lemma SplitPreservesContent(k: Kind, r: RPC, limit: int, controlLimit: int)
    ensures Flatten(Showing(k), SplitSpec(r, limit, controlLimit)) == Content(k, r)
  {
    ContentBesidesMessages(k, r);
    var fits := Within(limit, controlLimit);
    PublishContent(k, r.publish, limit);
    RestContent(k, r, fits);
    FlattenConcat(Showing(k), PublishPieces(r.publish, limit), RestPieces(r, fits));
  }

  // ------------------------------------------------------------ every piece fits

  predicate WellCut(p: RPC, limit: int, controlLimit: int) {
    (Size(p) <= limit && ControlSize(p) <= controlLimit) || Weight(p) <= 1
  }

  lemma PiecesFit(items: seq<Item>, fits: Test)
    requires Monotone(fits) && |Filter(Picking(Ext), items)| <= 1
    ensures forall p :: p in Pieces(items, fits) ==> FitsOrSingle(p, fits)
  {
    var s0 := State([], EMPTY_RPC);
    assert Total(Showing(Ext), s0) == [] && Weight(EMPTY_RPC) == 0;
    PlaceAllFits(s0, items, fits);
  }

  /** The pieces made from everything but the published messages respect both
      limits or hold a single item, whatever the limits. */
  lemma RestFits(r: RPC, limit: int, controlLimit: int, p: RPC)
    requires p in RestPieces(r, Within(limit, controlLimit))
    ensures WellCut(p, limit, controlLimit)
  {
    var fits := Within(limit, controlLimit);
    WithinIsMonotone(limit, controlLimit);
    FilterAllItems(Ext, r);
    PiecesFit(AllItems(r), fits);
    assert FitsOrSingle(p, fits);
  }

  /** A publish piece holds only messages of the list. */
  lemma PublishFrom(ms: seq<Message>, limit: int, p: RPC)
    requires p in PublishPieces(ms, limit)
    ensures p == PublishRPC(p.publish) && p.publish in Groups(ms, PublishCharge, limit)
    ensures |p.publish| <= |ms| && forall m :: m in p.publish ==> m in ms
  {
    var groups := Groups(ms, PublishCharge, limit);
    PublishRPCsOf(groups, p);
    GroupsConcat(ms, PublishCharge, limit);
    InConcat(groups, p.publish);
  }

  /** It is either single or exceeds the limit by at most one byte per empty message
      in it. */
  lemma PublishFits(ms: seq<Message>, limit: int, p: RPC)
    requires p in PublishPieces(ms, limit)
    ensures ControlSize(p) == 0 && Weight(p) == |p.publish|
    ensures Weight(p) <= 1 || Size(p) <= limit + EmptyMessages(p.publish)
  {
    hide PublishPieces, Groups;
    PublishFrom(ms, limit, p);
    GroupsPacked(ms, PublishCharge, limit);
    PublishPieceSize(p.publish);
    PublishPieceWeight(p.publish);
  }

  lemma PublishWellCut(ms: seq<Message>, limit: int, controlLimit: int, p: RPC)
    requires controlLimit >= 0 && (|ms| <= 1 || NoEmptyMessage(ms))
    requires p in PublishPieces(ms, limit)
    ensures WellCut(p, limit, controlLimit)
  {
    PublishFrom(ms, limit, p);
    PublishFits(ms, limit, p);
    EmptyMessagesZero(p.publish);
  }

  /** With no empty message to publish, every piece respects both limits or holds
      at most one indivisible item. */
  lemma SplitFits(r: RPC, limit: int, controlLimit: int, p: RPC)
    requires controlLimit >= 0 && NoEmptyMessage(r.publish)
    requires p in SplitSpec(r, limit, controlLimit)
    ensures WellCut(p, limit, controlLimit)
  {
    if p in PublishPieces(r.publish, limit) {
      PublishWellCut(r.publish, limit, controlLimit, p);
    } else {
      RestFits(r, limit, controlLimit, p);
    }
  }

  lemma {:induction false} PackAll<T>(ms: seq<T>, charge: T -> nat, limit: int)
    requires Charged(ms, charge) <= limit
    ensures Pack(ms, charge, limit) == Packing([], ms)
  {
    if ms != [] {
      var n := |ms| - 1;
      assert Charged(ms, charge) == Charged(ms[..n], charge) + charge(ms[n]);
      PackAll(ms[..n], charge, limit);
      assert Pack(ms, charge, limit) == Packing([], ms[..n] + [ms[n]]);
      assert ms == ms[..n] + [ms[n]];
    }
  }

  lemma EmptyMessageOverflows(ms: seq<Message>, controlLimit: int) returns (limit: int, p: RPC)
    requires |ms| > 1 && !NoEmptyMessage(ms)
    ensures p in PublishPieces(ms, limit) && !WellCut(p, limit, controlLimit)
  {
    limit := Charged(ms, PublishCharge);
    p := PublishRPC(ms);
    PackAll(ms, PublishCharge, limit);
    ChargedIsZero(ms, PublishCharge);
    assert Groups(ms, PublishCharge, limit) == [ms];
    assert PublishRPCs([ms]) == [] + [p] by { assert [ms][..0] == []; }
    PublishPieceSize(ms);
    PublishPieceWeight(ms);
    EmptyMessagesZero(ms);
  }

  /** The byte missing from an empty message's charge is the only obstacle: all
      limits give well-cut publish pieces exactly when there is nothing to cut or
      no message is empty. */
  lemma PublishFitsExactly(ms: seq<Message>, controlLimit: int)
    requires controlLimit >= 0
    ensures (forall limit: int, p: RPC :: p in PublishPieces(ms, limit) ==> WellCut(p, limit, controlLimit))
            <==> |ms| <= 1 || NoEmptyMessage(ms)
  {
    if |ms| <= 1 || NoEmptyMessage(ms) {
      forall limit: int, p: RPC | p in PublishPieces(ms, limit)
        ensures WellCut(p, limit, controlLimit)
      {
        PublishWellCut(ms, limit, controlLimit, p);
      }
    } else {
      var limit, p := EmptyMessageOverflows(ms, controlLimit);
    }
  }

  /** If the rest of an RPC has to be cut, it is cut into maximal runs of its
      items: no piece is closed while the next item would still have fitted. */
  lemma SplitIsGreedy(r: RPC, limit: int, controlLimit: int) returns (s: State, cuts: seq<nat>)
    requires Size(Rest(r)) > limit || ControlSize(Rest(r)) > controlLimit
    ensures RestPieces(r, Within(limit, controlLimit)) == s.out + (if Size(s.next) > 0 then [s.next] else [])
    ensures GreedyCuts(s, AllItems(r), cuts, Within(limit, controlLimit))
    ensures forall i :: 0 <= i < |cuts| ==>
              var more := Add(s.out[i], AllItems(r)[cuts[i]]); Size(more) > limit || ControlSize(more) > controlLimit
  {
    var fits := Within(limit, controlLimit);
    s := PlaceAll(State([], EMPTY_RPC), AllItems(r), fits);
    cuts := PlaceAllGreedy(AllItems(r), fits);
    forall i | 0 <= i < |cuts|
      ensures var more := Add(s.out[i], AllItems(r)[cuts[i]]); Size(more) > limit || ControlSize(more) > controlLimit
    {
      assert ClosedAt(s.out[i], AllItems(r), From(cuts, i), cuts[i], fits);
    }
  }

  // ------------------------------------------------------------ what does not survive

  predicate Plain(p: RPC) { p.partial.None? && !p.testExtension }

  lemma {:induction false} PlaceAllPlain(s: State, items: seq<Item>, fits: Test)
    requires Plain(s.next) && forall p :: p in s.out ==> Plain(p)
    ensures var s' := PlaceAll(s, items, fits); Plain(s'.next) && forall p :: p in s'.out ==> Plain(p)
  {
    if items != [] {
      PlaceAllPlain(s, items[..|items| - 1], fits);
    }
  }

  /** The partial message and the test extension get through exactly when the
      envelope without its published messages already fits. */
  lemma ExtensionsSurviveExactly(r: RPC, limit: int, controlLimit: int)
    ensures r.partial.Some? ==>
              ((exists p :: p in SplitSpec(r, limit, controlLimit) && p.partial == r.partial)
               <==> Size(Rest(r)) <= limit && ControlSize(Rest(r)) <= controlLimit)
    ensures r.testExtension ==>
              ((exists p :: p in SplitSpec(r, limit, controlLimit) && p.testExtension)
               <==> Size(Rest(r)) <= limit && ControlSize(Rest(r)) <= controlLimit)
  {
    var fits := Within(limit, controlLimit);
    PlaceAllPlain(State([], EMPTY_RPC), AllItems(r), fits);
    var pub := PublishPieces(r.publish, limit);
    if fits(Rest(r)) {
      if r.partial.Some? || r.testExtension {
        assert (pub + [Rest(r)])[|pub|] == Rest(r);
        assert Rest(r) in SplitSpec(r, limit, controlLimit);
      }
    } else {
      forall p | p in SplitSpec(r, limit, controlLimit)
        ensures Plain(p)
      {
        if p in pub {
          PublishFrom(r.publish, limit, p);
        } else {
          assert p in Pieces(AllItems(r), fits);
        }
      }
    }
  }

  // ------------------------------------------------------------ empty pieces

  lemma {:induction false} PackFirst<T>(ms: seq<T>, charge: T -> nat, limit: int)
    requires ms != []
    ensures var p := Pack(ms, charge, limit); p.open != [] && ([] in p.full <==> charge(ms[0]) > limit)
  {
    var n := |ms| - 1;
    if n == 0 {
      assert ms[..0] == [];
      assert Pack(ms, charge, limit) == PackStep(Packing([], []), ms[0], charge, limit);
    } else {
      PackFirst(ms[..n], charge, limit);
      var p := Pack(ms[..n], charge, limit);
      hide Charged;
      assert ms[..n][0] == ms[0];
    }
  }

  lemma {:induction false} PublishRPCsHave(groups: seq<seq<Message>>, g: seq<Message>)
    ensures PublishRPC(g) in PublishRPCs(groups) <==> g in groups
  {
    if groups != [] {
      var init := groups[..|groups| - 1];
      PublishRPCsHave(init, g);
      assert groups == init + [groups[|groups| - 1]];
      assert PublishRPC(g) == PublishRPC(groups[|groups| - 1]) ==> g == groups[|groups| - 1];
    }
  }

  lemma AddIsSomething(r: RPC, it: Item)
    ensures Size(Add(r, it)) > 0
  {
    hide AddToControl, EncodeControl, EncodeSub, EncodeMessage;
    if it.SubItem? {
      RepeatedAppend(1, r.subscriptions, it.sub, EncodeSub);
    } else if it.PublishItem? {
      RepeatedAppend(2, r.publish, it.msg, EncodeMessage);
    }
  }

  ghost predicate SomeEmpty(out: seq<RPC>) { exists p :: p in out && Size(p) == 0 }

  /** The open piece is empty only before the first item, so only that can close it. */
  lemma {:induction false} PlaceAllSomething(items: seq<Item>, fits: Test)
    requires items != [] && !Skips(EMPTY_RPC, items[0])
    ensures var s := PlaceAll(State([], EMPTY_RPC), items, fits);
            Size(s.next) > 0 && (SomeEmpty(s.out) <==> !fits(Add(EMPTY_RPC, items[0])))
  {
    hide Size, Add, Skips;
    var init, it := items[..|items| - 1], items[|items| - 1];
    AddIsSomething(EMPTY_RPC, it);
    if init == [] {
      assert PlaceAll(State([], EMPTY_RPC), items, fits) == Place(State([], EMPTY_RPC), it, fits);
      EmptyIsEmpty();
    } else {
      PlaceAllSomething(init, fits);
      var s := PlaceAll(State([], EMPTY_RPC), init, fits);
      AddIsSomething(s.next, it);
      SomeEmptyAppend(s.out, s.next);
    }
  }

  lemma EmptyIsEmpty()
    ensures Size(EMPTY_RPC) == 0 && SomeEmpty([EMPTY_RPC])
  {
    assert EMPTY_RPC in [EMPTY_RPC];
  }

  lemma SomeEmptyAppend(out: seq<RPC>, p: RPC)
    ensures SomeEmpty(out + [p]) <==> SomeEmpty(out) || Size(p) == 0
  {
    if q :| q in out && Size(q) == 0 {
      assert q in out + [p];
    }
    if Size(p) == 0 {
      assert p in out + [p];
    }
  }

  /** The items begin with a subscription or the control message. */
  lemma FirstIsPlaced(r: RPC)
    ensures AllItems(r) != [] ==> !Skips(EMPTY_RPC, AllItems(r)[0])
    ensures AllItems(r) == [] <==> r.subscriptions == [] && r.control.None?
  {
    if r.subscriptions != [] {
      FirstSub(r.subscriptions);
    }
  }

  lemma {:induction false} FirstSub(subs: seq<SubOpts>)
    requires subs != []
    ensures SubItems(subs) != [] && SubItems(subs)[0].SubItem?
  {
    if |subs| > 1 {
      FirstSub(subs[..|subs| - 1]);
    }
  }

  /** No piece is empty, except that the first of either part is if the first message, or
      the first other item, is too large on its own. */
  lemma EmptyPiecesExactly(r: RPC, limit: int, controlLimit: int)
    ensures EMPTY_RPC in PublishPieces(r.publish, limit) <==>
            r.publish != [] && PublishCharge(r.publish[0]) > limit
    ensures var first := Add(EMPTY_RPC, if AllItems(r) != [] then AllItems(r)[0] else ControlItem);
            SomeEmpty(RestPieces(r, Within(limit, controlLimit))) <==>
            && (Size(Rest(r)) > limit || ControlSize(Rest(r)) > controlLimit)
            && AllItems(r) != [] && (Size(first) > limit || ControlSize(first) > controlLimit)
  {
    EmptyPublish(r.publish, limit);
    hide Size, ControlSize, AllItems, Add;
    FirstIsPlaced(r);
    var fits := Within(limit, controlLimit);
    if fits(Rest(r)) {
      OneIsEmpty(Rest(r));
    } else if AllItems(r) != [] {
      PlaceAllSomething(AllItems(r), fits);
      SomeEmptyAppend(PlaceAll(State([], EMPTY_RPC), AllItems(r), fits).out,
                      PlaceAll(State([], EMPTY_RPC), AllItems(r), fits).next);
      ItemsAre(r);
    } else {
      EmptyIsEmpty();
      ItemsAre(r);
    }
  }

  lemma ItemsAre(r: RPC)
    ensures SubItems(r.subscriptions) + ControlItems(r.control) == AllItems(r)
  {
  }

  lemma OneIsEmpty(p: RPC)
    ensures !SomeEmpty([]) && (SomeEmpty([p]) <==> Size(p) == 0)
  {
    SomeEmptyAppend([], p);
    assert [] + [p] == [p];
  }

  lemma EmptyPublish(ms: seq<Message>, limit: int)
    ensures EMPTY_RPC in PublishPieces(ms, limit) <==> ms != [] && PublishCharge(ms[0]) > limit
  {
    var groups := Groups(ms, PublishCharge, limit);
    PublishRPCsHave(groups, []);
    if ms != [] {
      PackFirst(ms, PublishCharge, limit);
    }
  }
}
