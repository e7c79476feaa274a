/** What the receiver makes of the pieces that split cuts. */
module SplitReceived {
  import opened Basics
  import opened Wire
  import opened Rpc
  import opened Split
  import SplitTheorems
  import opened Receiver

  /** An encoded envelope passes the receiver's check of its control size. */
  predicate Received(p: RPC, max: int) { Judge(ReadFields(Encode(p)), 0, max).Accepted? }

  // ------------------------------------------------------------ what a piece holds

  predicate GoodSub(s: SubOpts) { |EncodeSub(s)| > 0 }

  /** No published message, no test extension, no empty subscription. */
  ghost predicate Tidy(p: RPC) {
    p.publish == [] && !p.testExtension && forall i :: 0 <= i < |p.subscriptions| ==> GoodSub(p.subscriptions[i])
  }

  ghost predicate TidyItem(it: Item) { !it.PublishItem? && (it.SubItem? ==> GoodSub(it.sub)) }

  lemma {:induction false} NoEmptySubs(subs: seq<SubOpts>)
    ensures EmptySubs(subs) == 0 <==> forall i :: 0 <= i < |subs| ==> GoodSub(subs[i])
  {
    if subs != [] {
      NoEmptySubs(subs[..|subs| - 1]);
      assert forall i :: 0 <= i < |subs| - 1 ==> subs[..|subs| - 1][i] == subs[i];
    }
  }

  lemma {:induction false} PlaceAllTidy(s: State, items: seq<Item>, fits: Test)
    requires Tidy(s.next) && (forall p :: p in s.out ==> Tidy(p)) && forall it :: it in items ==> TidyItem(it)
    ensures var s' := PlaceAll(s, items, fits); Tidy(s'.next) && forall p :: p in s'.out ==> Tidy(p)
  {
    if items != [] {
      var init, it := items[..|items| - 1], items[|items| - 1];
      PlaceAllTidy(s, init, fits);
      assert TidyItem(it);
      AddTidy(PlaceAll(s, init, fits).next, it);
      AddTidy(EMPTY_RPC, it);
    }
  }

  lemma AddTidy(r: RPC, it: Item)
    requires Tidy(r) && TidyItem(it)
    ensures Tidy(Add(r, it))
  {
  }

  lemma {:induction false} SubItemsTidy(subs: seq<SubOpts>)
    requires forall i :: 0 <= i < |subs| ==> GoodSub(subs[i])
    ensures forall it :: it in SubItems(subs) ==> TidyItem(it)
  {
    if subs != [] {
      var init := subs[..|subs| - 1];
      assert forall i :: 0 <= i < |init| ==> init[i] == subs[i];
      SubItemsTidy(init);
    }
  }

  /** Something inside a control message. */
  predicate Inner(it: Item) { !it.SubItem? && !it.PublishItem? && !it.ControlItem? }

  ghost predicate AllInner(items: seq<Item>) { forall it :: it in items ==> Inner(it) }

  lemma {:induction false} GraftsInner(xs: seq<ControlGraft>)
    ensures AllInner(GraftItems(xs))
  {
    if xs != [] {
      GraftsInner(xs[..|xs| - 1]);
    }
  }

  lemma {:induction false} PrunesInner(xs: seq<ControlPrune>)
    ensures AllInner(PruneItems(xs))
  {
    if xs != [] {
      PrunesInner(xs[..|xs| - 1]);
    }
  }

  lemma {:induction false} IdsInner(t: TopicRef, xs: seq<Bytes>)
    ensures AllInner(WantItems(xs)) && AllInner(DontWantItems(xs)) && AllInner(HaveItems(t, xs))
  {
    if xs != [] {
      IdsInner(t, xs[..|xs| - 1]);
    }
  }

  lemma {:induction false} WantsInner(xs: seq<ControlIWant>)
    ensures AllInner(IWantItems(xs))
  {
    if xs != [] {
      WantsInner(xs[..|xs| - 1]);
      IdsInner(NilRef, xs[|xs| - 1].messageIDs);
    }
  }

  lemma {:induction false} DontWantsInner(xs: seq<ControlIDontWant>)
    ensures AllInner(IDontWantItems(xs))
  {
    if xs != [] {
      DontWantsInner(xs[..|xs| - 1]);
      IdsInner(NilRef, xs[|xs| - 1].messageIDs);
    }
  }

  lemma {:induction false} HavesInner(xs: seq<ControlIHave>)
    ensures AllInner(IHaveItems(xs))
  {
    if xs != [] {
      HavesInner(xs[..|xs| - 1]);
      IdsInner(xs[|xs| - 1].topicID, xs[|xs| - 1].messageIDs);
    }
  }

  function InnerItems(c: ControlMessage): seq<Item> {
    ExtItems(c.extensions) + GraftItems(c.graft) + PruneItems(c.prune) + GossipItems(c)
  }

  lemma ControlItemsAre(c: ControlMessage)
    ensures ControlItems(Some(c)) == [ControlItem] + InnerItems(c) && AllInner(InnerItems(c))
  {
    hide GraftItems, PruneItems, IWantItems, IDontWantItems, IHaveItems;
    GraftsInner(c.graft);
    PrunesInner(c.prune);
    WantsInner(c.iwant);
    DontWantsInner(c.idontwant);
    HavesInner(c.ihave);
  }

  lemma NoItems(c: Option<ControlMessage>)
    ensures c.None? ==> ControlItems(c) == []
  {
  }

  lemma RestTidy(r: RPC, fits: Test, p: RPC)
    requires p in RestPieces(r, fits) && EmptySubs(r.subscriptions) == 0 && !r.testExtension
    ensures Tidy(p)
  {
    hide EmptySubs, PlaceAll, Size, ControlItems, SubItems, InnerItems;
    NoEmptySubs(r.subscriptions);
    SubItemsTidy(r.subscriptions);
    assert r.control.None? ==> AllInner(ControlItems(r.control)) by { NoItems(r.control); }
    if r.control.Some? {
      ControlItemsAre(r.control.value);
    }
    PlaceAllTidy(State([], EMPTY_RPC), SubItems(r.subscriptions) + ControlItems(r.control), fits);
  }

  // ------------------------------------------------------------ what is accepted

  /** A piece of several items, or a single one that is within the control limit, passes
      a receiver with that limit exactly if its control message is not empty or there is
      a byte to spare. */
  lemma PieceReceivedExactly(r: RPC, limit: int, controlLimit: int, p: RPC)
    requires p in RestPieces(r, Within(limit, controlLimit)) && Size(p) < TWO_TO_64 && controlLimit >= 0
    requires EmptySubs(r.subscriptions) == 0 && !r.testExtension
    requires SplitTheorems.Weight(p) > 1 || ControlSize(p) <= controlLimit
    ensures Received(p, controlLimit) <==> EmptyControl(p.control) == 0 || ControlSize(p) < controlLimit
  {
    SplitTheorems.RestFits(r, limit, controlLimit, p);
    PieceJudged(r, Within(limit, controlLimit), controlLimit, p);
  }

  lemma PieceJudged(r: RPC, fits: Test, max: int, p: RPC)
    requires p in RestPieces(r, fits) && Size(p) < TWO_TO_64 && max >= 0
    requires EmptySubs(r.subscriptions) == 0 && !r.testExtension
    ensures Received(p, max) <==> ControlSize(p) + EmptyControl(p.control) <= max
  {
    RestTidy(r, fits, p);
    NoEmptySubs(p.subscriptions);
    ReceiverAcceptsExactly(p, max);
    ReceiverCountsMore(p);
  }

  // ------------------------------------------------------------ what is refused

  function SubsOnly(subs: seq<SubOpts>): RPC { EMPTY_RPC.(subscriptions := subs) }

  /** All subscriptions and a control message with nothing in it yet. */
  function Opened(subs: seq<SubOpts>): RPC { SubsOnly(subs).(control := Some(EMPTY_CONTROL)) }

  lemma AddOneSub(subs: seq<SubOpts>, fits: Test)
    requires subs != [] && fits(SubsOnly(subs))
    ensures Place(State([], SubsOnly(subs[..|subs| - 1])), SubItem(subs[|subs| - 1]), fits) == State([], SubsOnly(subs))
  {
    assert subs[..|subs| - 1] + [subs[|subs| - 1]] == subs;
  }

  lemma {:induction false} SubsFill(subs: seq<SubOpts>, fits: Test)
    requires forall n :: 0 <= n <= |subs| ==> fits(SubsOnly(subs[..n]))
    ensures PlaceAll(State([], EMPTY_RPC), SubItems(subs), fits) == State([], SubsOnly(subs))
  {
    hide Place;
    if subs != [] {
      var init := subs[..|subs| - 1];
      forall n | 0 <= n <= |init|
        ensures fits(SubsOnly(init[..n]))
      {
        assert init[..n] == subs[..n];
      }
      SubsFill(init, fits);
      assert SubItems(subs)[..|SubItems(subs)| - 1] == SubItems(init);
      assert subs[..|subs|] == subs;
      AddOneSub(subs, fits);
    }
  }

  lemma {:induction false} SubsSmaller(subs: seq<SubOpts>, n: nat)
    requires n <= |subs|
    ensures |Repeated(1, subs[..n], EncodeSub)| <= |Repeated(1, subs, EncodeSub)|
    ensures ChargedSubs(subs[..n]) <= ChargedSubs(subs)
    decreases |subs|
  {
    if n < |subs| {
      SubsSmaller(subs[..|subs| - 1], n);
      assert subs[..|subs| - 1][..n] == subs[..n];
    } else {
      assert subs[..n] == subs;
    }
  }

  /** Pieces that are closed stay. */
  lemma {:induction false} ClosedStays(s: State, items: seq<Item>, fits: Test, p: RPC)
    requires p in s.out
    ensures p in PlaceAll(s, items, fits).out
  {
    if items != [] {
      ClosedStays(s, items[..|items| - 1], fits, p);
    }
  }

  lemma EncodedControl(c: ControlMessage)
    ensures |EncodeControl(c)| > 0 <==> c != EMPTY_CONTROL
    ensures c != EMPTY_CONTROL ==> InnerItems(c) != [] && ChargedControl(Some(c)) > 1
  {
  }

  lemma InnerGrows(it: Item)
    requires Inner(it)
    ensures ChargedControl(Some(AddToControl(EMPTY_CONTROL, it))) > 1
  {
    assert AddToControl(EMPTY_CONTROL, it) != EMPTY_CONTROL;
    EncodedControl(AddToControl(EMPTY_CONTROL, it));
  }

  /** The first item after an empty control message does not fit beside it if there is
      no byte to spare. */
  lemma FirstOverflows(subs: seq<SubOpts>, it: Item, limit: int, controlLimit: int)
    requires Inner(it) && controlLimit == ChargedSubs(subs) + 1
    ensures Place(State([], Opened(subs)), it, Within(limit, controlLimit)).out == [Opened(subs)]
  {
    hide Size, ChargedSubs, AddToControl, ChargedControl;
    InnerGrows(it);
    assert Add(Opened(subs), it) == SubsOnly(subs).(control := Some(AddToControl(EMPTY_CONTROL, it)));
  }

  lemma OpenedSizes(subs: seq<SubOpts>)
    ensures Size(SubsOnly(subs)) == |Repeated(1, subs, EncodeSub)| && ControlSize(SubsOnly(subs)) == ChargedSubs(subs)
    ensures Size(Opened(subs)) == |Repeated(1, subs, EncodeSub)| + 2
    ensures ControlSize(Opened(subs)) == ChargedSubs(subs) + 1 && EmptyControl(Opened(subs).control) == 1
  {
    EncodedControl(EMPTY_CONTROL);
    ShortTag(3, WIRE_BYTES);
  }

  lemma RestSizes(r: RPC)
    requires r.control.Some?
    ensures Size(Rest(r)) >= |Repeated(1, r.subscriptions, EncodeSub)| + 2
    ensures ControlSize(Rest(r)) == ChargedSubs(r.subscriptions) + ChargedControl(r.control)
    ensures Size(Rest(r)) <= Size(r)
  {
  }

  /** The subscriptions and the empty control message share the first piece. */
  lemma OpenedIsPlaced(subs: seq<SubOpts>, fits: Test)
    requires (forall n :: 0 <= n <= |subs| ==> fits(SubsOnly(subs[..n]))) && fits(Opened(subs))
    ensures PlaceAll(State([], EMPTY_RPC), SubItems(subs) + [ControlItem], fits) == State([], Opened(subs))
  {
    SubsFill(subs, fits);
    PlaceAllAppend(State([], EMPTY_RPC), SubItems(subs), [ControlItem], fits);
    assert [ControlItem][..0] == [];
    assert PlaceAll(State([], SubsOnly(subs)), [ControlItem], fits)
           == Place(State([], SubsOnly(subs)), ControlItem, fits);
  }

  lemma OpenedFits(subs: seq<SubOpts>, limit: int)
    requires Size(Opened(subs)) <= limit
    ensures var fits := Within(limit, ChargedSubs(subs) + 1);
            PlaceAll(State([], EMPTY_RPC), SubItems(subs) + [ControlItem], fits) == State([], Opened(subs))
  {
    hide Size, ControlSize, PlaceAll;
    var fits := Within(limit, ChargedSubs(subs) + 1);
    OpenedSizes(subs);
    forall n | 0 <= n <= |subs|
      ensures fits(SubsOnly(subs[..n]))
    {
      SubsSmaller(subs, n);
      OpenedSizes(subs[..n]);
    }
    OpenedIsPlaced(subs, fits);
  }

  /** A piece that the next item closes is among the pieces. */
  lemma NextCloses(head: seq<Item>, inner: seq<Item>, p: RPC, fits: Test)
    requires PlaceAll(State([], EMPTY_RPC), head, fits) == State([], p)
    requires inner != [] && Place(State([], p), inner[0], fits).out == [p]
    ensures p in Pieces(head + inner, fits)
  {
    hide PlaceAll, Place, Size;
    var s := State([], p);
    PlaceAllAppend(State([], EMPTY_RPC), head, inner, fits);
    PlaceAllAppend(s, [inner[0]], inner[1..], fits);
    assert [inner[0]] + inner[1..] == inner;
    PlaceOne(s, inner[0], fits);
    ClosedStays(PlaceAll(s, [inner[0]], fits), inner[1..], fits, p);
  }

  /** It is closed with nothing in its control message. */
  lemma OpenedIsClosed(subs: seq<SubOpts>, c: ControlMessage, limit: int)
    requires Size(Opened(subs)) <= limit && c != EMPTY_CONTROL
    ensures Opened(subs) in Pieces(SubItems(subs) + ControlItems(Some(c)), Within(limit, ChargedSubs(subs) + 1))
  {
    hide Size, ControlSize, PlaceAll, SubItems, InnerItems, Place, Within, ControlItems, Pieces, Opened, EncodeControl;
    var fits := Within(limit, ChargedSubs(subs) + 1);
    OpenedFits(subs, limit);
    ControlItemsAre(c);
    EncodedControl(c);
    var inner := InnerItems(c);
    FirstOverflows(subs, inner[0], limit, ChargedSubs(subs) + 1);
    NextCloses(SubItems(subs) + [ControlItem], inner, Opened(subs), fits);
    assert SubItems(subs) + [ControlItem] + inner == SubItems(subs) + ControlItems(Some(c));
  }

  lemma RestIsPiece(r: RPC, fits: Test)
    requires fits(Rest(r)) && Size(Rest(r)) > 0
    ensures Rest(r) in RestPieces(r, fits)
  {
  }

  lemma CutIsPiece(r: RPC, fits: Test, p: RPC)
    requires !fits(Rest(r)) && p in Pieces(SubItems(r.subscriptions) + ControlItems(r.control), fits)
    ensures p in RestPieces(r, fits)
  {
  }

  lemma WithinIs(r: RPC, limit: int, controlLimit: int)
    ensures Within(limit, controlLimit)(r) <==> Size(r) <= limit && ControlSize(r) <= controlLimit
  {
  }

  /** An envelope with an empty control message and no byte to spare is left whole. */
  lemma WholeRefused(r: RPC, limit: int, controlLimit: int)
    requires r.control == Some(EMPTY_CONTROL) && Size(r) < TWO_TO_64 && EmptySubs(r.subscriptions) == 0
    requires !r.testExtension && limit == Size(Rest(r)) && controlLimit == ChargedSubs(r.subscriptions) + 1
    ensures Rest(r) in RestPieces(r, Within(limit, controlLimit)) && Size(Rest(r)) < TWO_TO_64
    ensures ControlSize(Rest(r)) <= controlLimit && !Received(Rest(r), controlLimit)
  {
    RestSizes(r);
    EncodedControl(EMPTY_CONTROL);
    WithinIs(Rest(r), limit, controlLimit);
    hide *;
    RestIsPiece(r, Within(limit, controlLimit));
    PieceJudged(r, Within(limit, controlLimit), controlLimit, Rest(r));
  }

  /** Any other is cut behind its empty control message. */
  lemma CutRefused(r: RPC, limit: int, controlLimit: int)
    requires r.control.Some? && r.control != Some(EMPTY_CONTROL) && Size(r) < TWO_TO_64
    requires EmptySubs(r.subscriptions) == 0
    requires !r.testExtension && limit == Size(Rest(r)) && controlLimit == ChargedSubs(r.subscriptions) + 1
    ensures var p := Opened(r.subscriptions);
            && p in RestPieces(r, Within(limit, controlLimit)) && Size(p) <= limit && Size(p) < TWO_TO_64
            && ControlSize(p) <= controlLimit && !Received(p, controlLimit)
  {
    hide *;
    var fits, p := Within(limit, controlLimit), Opened(r.subscriptions);
    RestSizes(r);
    OpenedSizes(r.subscriptions);
    EncodedControl(r.control.value);
    WithinIs(Rest(r), limit, controlLimit);
    OpenedIsClosed(r.subscriptions, r.control.value, limit);
    CutIsPiece(r, fits, p);
    PieceJudged(r, fits, controlLimit, p);
  }

  /** For every envelope with a control message some limits give a piece within both
      of them that the receiver refuses: its control message is left empty. */
  lemma EmptyControlRefused(r: RPC) returns (limit: int, controlLimit: int, p: RPC)
    requires r.control.Some? && Size(r) < TWO_TO_64 && EmptySubs(r.subscriptions) == 0 && !r.testExtension
    ensures p in RestPieces(r, Within(limit, controlLimit)) && Size(p) <= limit && ControlSize(p) <= controlLimit
    ensures Size(p) < TWO_TO_64 && controlLimit >= 0 && !Received(p, controlLimit)
  {
    hide *;
    limit, controlLimit := Size(Rest(r)), ChargedSubs(r.subscriptions) + 1;
    if r.control == Some(EMPTY_CONTROL) {
      p := Rest(r);
      WholeRefused(r, limit, controlLimit);
    } else {
      p := Opened(r.subscriptions);
      CutRefused(r, limit, controlLimit);
    }
  }

  /** All pieces that the sender finds within the limits are accepted, whatever the
      limits, exactly if the envelope has no control message. */
  lemma AllReceivedExactly(r: RPC)
    requires Size(r) < TWO_TO_64 && EmptySubs(r.subscriptions) == 0 && !r.testExtension
    ensures (forall limit: int, controlLimit: int, p: RPC ::
               && p in RestPieces(r, Within(limit, controlLimit)) && controlLimit >= 0
               && Size(p) < TWO_TO_64 && Size(p) <= limit && ControlSize(p) <= controlLimit ==>
                 Received(p, controlLimit))
            <==> r.control.None?
  {
    if r.control.None? {
      forall limit: int, controlLimit: int, p: RPC
        | && p in RestPieces(r, Within(limit, controlLimit)) && controlLimit >= 0
          && Size(p) < TWO_TO_64 && Size(p) <= limit && ControlSize(p) <= controlLimit
        ensures Received(p, controlLimit)
      {
        PieceJudged(r, Within(limit, controlLimit), controlLimit, p);
        NoControl(r, Within(limit, controlLimit), p);
      }
    } else {
      var limit, controlLimit, p := EmptyControlRefused(r);
    }
  }

  lemma NoControl(r: RPC, fits: Test, p: RPC)
    requires r.control.None? && p in RestPieces(r, fits)
    ensures p.control.None?
  {
    SubsHaveNoControl(r.subscriptions, fits);
    assert SubItems(r.subscriptions) + [] == SubItems(r.subscriptions);
  }

  lemma {:induction false} SubsHaveNoControl(subs: seq<SubOpts>, fits: Test)
    ensures var s := PlaceAll(State([], EMPTY_RPC), SubItems(subs), fits);
            s.next.control.None? && forall p :: p in s.out ==> p.control.None?
  {
    if subs != [] {
      SubsHaveNoControl(subs[..|subs| - 1], fits);
      assert SubItems(subs)[..|SubItems(subs)| - 1] == SubItems(subs[..|subs| - 1]);
    }
  }
}
