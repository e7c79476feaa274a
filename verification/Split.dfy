/** RPC.split: a greedy packer that cuts an envelope into pieces under a total
    size limit and a control size limit.

    The source is modelled by the method `Split`, which follows its loops, and
    is proved to compute `SplitSpec`.  The theorems at the end are about that
    function: nothing is lost or reordered, every piece fits or is indivisible,
    no piece was closed while the next item still fitted, and exactly when the
    partial message and the test extension survive.
  */
module Split {
  import opened Basics
  import opened Wire
  import opened Rpc

  // ------------------------------------------------------------ what is packed

  /** The indivisible contents of an envelope.  The slow path places everything
      but the published messages one item at a time; `ControlItem` and the `Open`
      items are the empty containers that it creates on demand. */
  datatype Item =
    | SubItem(sub: SubOpts)
    | PublishItem(msg: Message)
    | ControlItem
    | ExtItem(ext: ControlExtensions)
    | GraftItem(graft: ControlGraft)
    | PruneItem(prune: ControlPrune)
    | IWantOpen
    | IWantItem(id: Bytes)
    | IDontWantOpen
    | IDontWantItem(id: Bytes)
    | IHaveOpen(topic: TopicRef)
    | IHaveItem(topic: TopicRef, id: Bytes)

  datatype State = State(out: seq<RPC>, next: RPC)

  /** The test by which the packer admits an item.  The packing itself works for any such
      test; split runs it with `Within(limit, controlLimit)`. */
  type Test = RPC -> bool

  function Within(limit: int, controlLimit: int): Test {
    r => !Exceeds(r, limit, controlLimit)
  }

  function ControlOf(r: RPC): ControlMessage {
    match r.control case None => EMPTY_CONTROL case Some(c) => c
  }

  function AddIWant(xs: seq<ControlIWant>, id: Bytes): seq<ControlIWant> {
    if xs == [] then [ControlIWant([id])]
    else xs[..|xs| - 1] + [ControlIWant(xs[|xs| - 1].messageIDs + [id])]
  }

  function AddIDontWant(xs: seq<ControlIDontWant>, id: Bytes): seq<ControlIDontWant> {
    if xs == [] then [ControlIDontWant([id])]
    else xs[..|xs| - 1] + [ControlIDontWant(xs[|xs| - 1].messageIDs + [id])]
  }

  predicate LastTopicIs(xs: seq<ControlIHave>, topic: TopicRef) {
    xs != [] && xs[|xs| - 1].topicID == topic
  }

  function AddIHave(xs: seq<ControlIHave>, topic: TopicRef, id: Bytes): seq<ControlIHave> {
    if !LastTopicIs(xs, topic) then xs + [ControlIHave(topic, [id])]
    else xs[..|xs| - 1] + [ControlIHave(topic, xs[|xs| - 1].messageIDs + [id])]
  }

  function AddToControl(c: ControlMessage, it: Item): ControlMessage {
    match it
    case SubItem(_) => c
    case PublishItem(_) => c
    case ControlItem => c
    case ExtItem(e) => c.(extensions := Some(e))
    case GraftItem(g) => c.(graft := c.graft + [g])
    case PruneItem(p) => c.(prune := c.prune + [p])
    case IWantOpen => c.(iwant := c.iwant + [ControlIWant([])])
    case IWantItem(id) => c.(iwant := AddIWant(c.iwant, id))
    case IDontWantOpen => c.(idontwant := c.idontwant + [ControlIDontWant([])])
    case IDontWantItem(id) => c.(idontwant := AddIDontWant(c.idontwant, id))
    case IHaveOpen(t) => c.(ihave := c.ihave + [ControlIHave(t, [])])
    case IHaveItem(t, id) => c.(ihave := AddIHave(c.ihave, t, id))
  }

  function Add(r: RPC, it: Item): RPC {
    if it.SubItem? then r.(subscriptions := r.subscriptions + [it.sub])
    else if it.PublishItem? then r.(publish := r.publish + [it.msg])
    else r.(control := Some(AddToControl(ControlOf(r), it)))
  }

  /** A container that is already there is not opened again. */
  predicate Skips(r: RPC, it: Item) {
    match it
    case IWantOpen => ControlOf(r).iwant != []
    case IDontWantOpen => ControlOf(r).idontwant != []
    case IHaveOpen(t) => LastTopicIs(ControlOf(r).ihave, t)
    case ControlItem => r.control.Some?
    case _ => false
  }

  function Place(s: State, it: Item, fits: Test): State {
    if Skips(s.next, it) then s
    else if fits(Add(s.next, it)) then s.(next := Add(s.next, it))
    else State(s.out + [s.next], Add(EMPTY_RPC, it))
  }

  function PlaceAll(s: State, items: seq<Item>, fits: Test): State {
    if items == [] then s
    else Place(PlaceAll(s, items[..|items| - 1], fits), items[|items| - 1], fits)
  }

  lemma {:induction false} PlaceAllAppend(s: State, a: seq<Item>, b: seq<Item>, fits: Test)
    ensures PlaceAll(s, a + b, fits) == PlaceAll(PlaceAll(s, a, fits), b, fits)
  {
    if b == [] {
      assert a + b == a;
    } else {
      PlaceAllAppend(s, a, b[..|b| - 1], fits);
      assert (a + b)[..|a + b| - 1] == a + b[..|b| - 1];
    }
  }

  // The items of an envelope, in the order in which the source visits them.

  function SubItems(xs: seq<SubOpts>): seq<Item> {
    if xs == [] then [] else SubItems(xs[..|xs| - 1]) + [SubItem(xs[|xs| - 1])]
  }

  function GraftItems(xs: seq<ControlGraft>): seq<Item> {
    if xs == [] then [] else GraftItems(xs[..|xs| - 1]) + [GraftItem(xs[|xs| - 1])]
  }

  function PruneItems(xs: seq<ControlPrune>): seq<Item> {
    if xs == [] then [] else PruneItems(xs[..|xs| - 1]) + [PruneItem(xs[|xs| - 1])]
  }

  function WantItems(xs: seq<Bytes>): seq<Item> {
    if xs == [] then [] else WantItems(xs[..|xs| - 1]) + [IWantItem(xs[|xs| - 1])]
  }

  function DontWantItems(xs: seq<Bytes>): seq<Item> {
    if xs == [] then [] else DontWantItems(xs[..|xs| - 1]) + [IDontWantItem(xs[|xs| - 1])]
  }

  function HaveItems(t: TopicRef, xs: seq<Bytes>): seq<Item> {
    if xs == [] then [] else HaveItems(t, xs[..|xs| - 1]) + [IHaveItem(t, xs[|xs| - 1])]
  }

  function IWantItems(xs: seq<ControlIWant>): seq<Item> {
    if xs == [] then []
    else IWantItems(xs[..|xs| - 1]) + ([IWantOpen] + WantItems(xs[|xs| - 1].messageIDs))
  }

  function IDontWantItems(xs: seq<ControlIDontWant>): seq<Item> {
    if xs == [] then []
    else IDontWantItems(xs[..|xs| - 1]) + ([IDontWantOpen] + DontWantItems(xs[|xs| - 1].messageIDs))
  }

  function IHaveItems(xs: seq<ControlIHave>): seq<Item> {
    if xs == [] then []
    else
      var h := xs[|xs| - 1];
      IHaveItems(xs[..|xs| - 1]) + ([IHaveOpen(h.topicID)] + HaveItems(h.topicID, h.messageIDs))
  }

  function ExtItems(e: Option<ControlExtensions>): seq<Item> {
    match e case None => [] case Some(x) => [ExtItem(x)]
  }

  function MeshItems(c: ControlMessage): seq<Item> {
    [ControlItem] + ExtItems(c.extensions) + GraftItems(c.graft) + PruneItems(c.prune)
  }

  function GossipItems(c: ControlMessage): seq<Item> {
    IWantItems(c.iwant) + IDontWantItems(c.idontwant) + IHaveItems(c.ihave)
  }

  function ControlItems(c: Option<ControlMessage>): seq<Item> {
    match c case None => [] case Some(x) => MeshItems(x) + GossipItems(x)
  }

  // ------------------------------------------------------------ specification

  function PublishCharge(m: Message): nat { ChargedSize(|EncodeMessage(m)|) }

  function Charged<T>(ms: seq<T>, charge: T -> nat): nat {
    if ms == [] then 0 else Charged(ms[..|ms| - 1], charge) + charge(ms[|ms| - 1])
  }

  datatype Packing<T> = Packing(full: seq<seq<T>>, open: seq<T>)

  function PackStep<T>(p: Packing<T>, m: T, charge: T -> nat, limit: int): Packing<T> {
    if Charged(p.open, charge) + charge(m) > limit then Packing(p.full + [p.open], [m])
    else Packing(p.full, p.open + [m])
  }

  /** Greedy packing of the published messages under the total limit. */
  function Pack<T>(ms: seq<T>, charge: T -> nat, limit: int): Packing<T> {
    if ms == [] then Packing([], [])
    else PackStep(Pack(ms[..|ms| - 1], charge, limit), ms[|ms| - 1], charge, limit)
  }

  function Groups<T>(ms: seq<T>, charge: T -> nat, limit: int): seq<seq<T>> {
    var p := Pack(ms, charge, limit);
    p.full + if Charged(p.open, charge) > 0 then [p.open] else []
  }

  function PublishRPC(ms: seq<Message>): RPC { EMPTY_RPC.(publish := ms) }

  function PublishRPCs(groups: seq<seq<Message>>): seq<RPC> {
    if groups == [] then [] else PublishRPCs(groups[..|groups| - 1]) + [PublishRPC(groups[|groups| - 1])]
  }

  function PublishPieces(ms: seq<Message>, limit: int): seq<RPC> {
    PublishRPCs(Groups(ms, PublishCharge, limit))
  }

  /** The envelope without its published messages. */
  function Rest(r: RPC): RPC { r.(publish := []) }

  function Pieces(items: seq<Item>, fits: Test): seq<RPC> {
    var s := PlaceAll(State([], EMPTY_RPC), items, fits);
    s.out + if Size(s.next) > 0 then [s.next] else []
  }

  function RestPieces(r: RPC, fits: Test): seq<RPC> {
    if fits(Rest(r)) then
      if Size(Rest(r)) != 0 then [Rest(r)] else []
    else Pieces(SubItems(r.subscriptions) + ControlItems(r.control), fits)
  }

  function SplitSpec(r: RPC, limit: int, controlLimit: int): seq<RPC> {
    PublishPieces(r.publish, limit) + RestPieces(r, Within(limit, controlLimit))
  }

  // ------------------------------------------------------------ implementation

  lemma LastOfPrefix<T>(xs: seq<T>, i: nat)
    requires i < |xs|
    ensures xs[..i + 1][..i] == xs[..i]
  {
  }

  lemma ChargedAppend<T>(ms: seq<T>, m: T, charge: T -> nat)
    ensures Charged(ms + [m], charge) == Charged(ms, charge) + charge(m)
  {
    assert (ms + [m])[..|ms|] == ms;
  }

  lemma PackPrefix<T>(ms: seq<T>, i: nat, charge: T -> nat, limit: int)
    requires i < |ms|
    ensures Pack(ms[..i + 1], charge, limit) == PackStep(Pack(ms[..i], charge, limit), ms[i], charge, limit)
  {
    LastOfPrefix(ms, i);
  }

  /** Cutting the open group off the remaining slice. */
  lemma CutSlice<T>(slice: seq<T>, group: seq<T>, m: T, rest: seq<T>)
    requires slice == group + ([m] + rest)
    ensures slice[..|group|] == group && slice[|group|..] == [m] + rest
    ensures slice == group + [m] + rest
  {
  }

  /** The loop over the published messages, with its cursor into the remaining
      slice and its running size; the result lists the messages of each envelope
      it yields. */
  method SplitPublish<T>(publish: seq<T>, charge: T -> nat, limit: int) returns (out: seq<seq<T>>)
    ensures out == Groups(publish, charge, limit)
  {
    out := [];
    var nextSize, inNext, slice := 0, 0, publish;
    ghost var group: seq<T> := [];
    for i := 0 to |publish|
      invariant inNext == |group| && nextSize == Charged(group, charge)
      invariant slice == group + publish[i..]
      invariant Pack(publish[..i], charge, limit) == Packing(out, group)
    {
      var m := publish[i];
      var incremental := charge(m);
      PackPrefix(publish, i, charge, limit);
      assert publish[i..] == [m] + publish[i + 1..];
      CutSlice(slice, group, m, publish[i + 1..]);
      if nextSize + incremental > limit {
        out := out + [slice[..inNext]];
        slice := slice[inNext..];
        nextSize, inNext, group := 0, 0, [];
      }
      ChargedAppend(group, m, charge);
      CutSlice(slice, group, m, publish[i + 1..]);
      group := group + [m];
      inNext := inNext + 1;
      nextSize := nextSize + incremental;
    }
    assert publish[..|publish|] == publish;
    if nextSize > 0 {
      assert slice[..inNext] == group;
      out := out + [slice[..inNext]];
    }
  }

  /** One attempt to extend `next` by an item, giving `grown`; on failure `next`
      is yielded and `restart`, which holds the item alone, replaces it. */
  method Try(out: seq<RPC>, next: RPC, ghost it: Item, grown: RPC, restart: RPC, fits: Test)
    returns (out': seq<RPC>, next': RPC)
    requires !Skips(next, it) && grown == Add(next, it) && restart == Add(EMPTY_RPC, it)
    ensures State(out', next') == Place(State(out, next), it, fits)
    ensures next' == grown || next' == restart
  {
    if !fits(grown) {
      out', next' := out + [next], restart;
    } else {
      out', next' := out, grown;
    }
  }

  lemma PlaceOne(s: State, it: Item, fits: Test)
    ensures PlaceAll(s, [it], fits) == Place(s, it, fits)
  {
    assert [it][..0] == [];
  }

  method SplitSubscriptions(subs: seq<SubOpts>, fits: Test) returns (out: seq<RPC>, next: RPC)
    ensures State(out, next) == PlaceAll(State([], EMPTY_RPC), SubItems(subs), fits)
    ensures next.control.None?
  {
    out, next := [], EMPTY_RPC;
    for i := 0 to |subs|
      invariant next.control.None?
      invariant State(out, next) == PlaceAll(State([], EMPTY_RPC), SubItems(subs[..i]), fits)
    {
      LastOfPrefix(subs, i);
      out, next := Try(out, next, SubItem(subs[i]), next.(subscriptions := next.subscriptions + [subs[i]]),
                       EMPTY_RPC.(subscriptions := [] + [subs[i]]), fits);
    }
    assert subs[..|subs|] == subs;
  }

  function WithControl(c: ControlMessage): RPC { EMPTY_RPC.(control := Some(c)) }

  predicate NoWants(r: RPC) {
    r.control.Some? && r.control.value.iwant == [] && r.control.value.idontwant == []
  }

  method SplitGrafts(out0: seq<RPC>, next0: RPC, grafts: seq<ControlGraft>, fits: Test)
    returns (out: seq<RPC>, next: RPC)
    requires NoWants(next0)
    ensures NoWants(next)
    ensures State(out, next) == PlaceAll(State(out0, next0), GraftItems(grafts), fits)
  {
    out, next := out0, next0;
    for i := 0 to |grafts|
      invariant NoWants(next)
      invariant State(out, next) == PlaceAll(State(out0, next0), GraftItems(grafts[..i]), fits)
    {
      LastOfPrefix(grafts, i);
      var c := next.control.value;
      out, next := Try(out, next, GraftItem(grafts[i]), next.(control := Some(c.(graft := c.graft + [grafts[i]]))),
                       WithControl(EMPTY_CONTROL.(graft := [] + [grafts[i]])), fits);
    }
    assert grafts[..|grafts|] == grafts;
  }

  method SplitPrunes(out0: seq<RPC>, next0: RPC, prunes: seq<ControlPrune>, fits: Test)
    returns (out: seq<RPC>, next: RPC)
    requires NoWants(next0)
    ensures NoWants(next)
    ensures State(out, next) == PlaceAll(State(out0, next0), PruneItems(prunes), fits)
  {
    out, next := out0, next0;
    for i := 0 to |prunes|
      invariant NoWants(next)
      invariant State(out, next) == PlaceAll(State(out0, next0), PruneItems(prunes[..i]), fits)
    {
      LastOfPrefix(prunes, i);
      var c := next.control.value;
      out, next := Try(out, next, PruneItem(prunes[i]), next.(control := Some(c.(prune := c.prune + [prunes[i]]))),
                       WithControl(EMPTY_CONTROL.(prune := [] + [prunes[i]])), fits);
    }
    assert prunes[..|prunes|] == prunes;
  }

  method SplitIWantIds(out0: seq<RPC>, next0: RPC, ids: seq<Bytes>, fits: Test)
    returns (out: seq<RPC>, next: RPC)
    requires next0.control.Some? && |next0.control.value.iwant| == 1 && next0.control.value.idontwant == []
    ensures next.control.Some? && |next.control.value.iwant| == 1 && next.control.value.idontwant == []
    ensures State(out, next) == PlaceAll(State(out0, next0), WantItems(ids), fits)
  {
    out, next := out0, next0;
    for i := 0 to |ids|
      invariant next.control.Some? && |next.control.value.iwant| == 1 && next.control.value.idontwant == []
      invariant State(out, next) == PlaceAll(State(out0, next0), WantItems(ids[..i]), fits)
    {
      LastOfPrefix(ids, i);
      var c := next.control.value;
      var grown := [ControlIWant(c.iwant[0].messageIDs + [ids[i]])];
      assert AddIWant(c.iwant, ids[i]) == grown;
      out, next := Try(out, next, IWantItem(ids[i]), next.(control := Some(c.(iwant := grown))),
                       WithControl(EMPTY_CONTROL.(iwant := [ControlIWant([ids[i]])])), fits);
    }
    assert ids[..|ids|] == ids;
  }

  /** One IWANT entry: at most one container per piece, ids appended to it. */
  method SplitIWant(out0: seq<RPC>, next0: RPC, ids: seq<Bytes>, fits: Test) returns (out: seq<RPC>, next: RPC)
    requires next0.control.Some? && |next0.control.value.iwant| <= 1 && next0.control.value.idontwant == []
    ensures next.control.Some? && |next.control.value.iwant| <= 1 && next.control.value.idontwant == []
    ensures State(out, next) == PlaceAll(State(out0, next0), [IWantOpen] + WantItems(ids), fits)
  {
    out, next := out0, next0;
    var c := next.control.value;
    if |c.iwant| == 0 {
      out, next := Try(out, next, IWantOpen, next.(control := Some(c.(iwant := c.iwant + [ControlIWant([])]))),
                       WithControl(EMPTY_CONTROL.(iwant := [] + [ControlIWant([])])), fits);
    }
    PlaceOne(State(out0, next0), IWantOpen, fits);
    PlaceAllAppend(State(out0, next0), [IWantOpen], WantItems(ids), fits);
    out, next := SplitIWantIds(out, next, ids, fits);
  }

  method SplitIWants(out0: seq<RPC>, next0: RPC, iwants: seq<ControlIWant>, fits: Test)
    returns (out: seq<RPC>, next: RPC)
    requires next0.control.Some? && |next0.control.value.iwant| <= 1 && next0.control.value.idontwant == []
    ensures next.control.Some? && next.control.value.idontwant == []
    ensures State(out, next) == PlaceAll(State(out0, next0), IWantItems(iwants), fits)
  {
    out, next := out0, next0;
    for i := 0 to |iwants|
      invariant next.control.Some? && |next.control.value.iwant| <= 1 && next.control.value.idontwant == []
      invariant State(out, next) == PlaceAll(State(out0, next0), IWantItems(iwants[..i]), fits)
    {
      LastOfPrefix(iwants, i);
      PlaceAllAppend(State(out0, next0), IWantItems(iwants[..i]), [IWantOpen] + WantItems(iwants[i].messageIDs), fits);
      out, next := SplitIWant(out, next, iwants[i].messageIDs, fits);
    }
    assert iwants[..|iwants|] == iwants;
  }

  method SplitIDontWantIds(out0: seq<RPC>, next0: RPC, ids: seq<Bytes>, fits: Test)
    returns (out: seq<RPC>, next: RPC)
    requires next0.control.Some? && |next0.control.value.idontwant| == 1
    ensures next.control.Some? && |next.control.value.idontwant| == 1
    ensures State(out, next) == PlaceAll(State(out0, next0), DontWantItems(ids), fits)
  {
    out, next := out0, next0;
    for i := 0 to |ids|
      invariant next.control.Some? && |next.control.value.idontwant| == 1
      invariant State(out, next) == PlaceAll(State(out0, next0), DontWantItems(ids[..i]), fits)
    {
      LastOfPrefix(ids, i);
      var c := next.control.value;
      var grown := [ControlIDontWant(c.idontwant[0].messageIDs + [ids[i]])];
      assert AddIDontWant(c.idontwant, ids[i]) == grown;
      out, next := Try(out, next, IDontWantItem(ids[i]), next.(control := Some(c.(idontwant := grown))),
                       WithControl(EMPTY_CONTROL.(idontwant := [ControlIDontWant([ids[i]])])), fits);
    }
    assert ids[..|ids|] == ids;
  }

  method SplitIDontWant(out0: seq<RPC>, next0: RPC, ids: seq<Bytes>, fits: Test) returns (out: seq<RPC>, next: RPC)
    requires next0.control.Some? && |next0.control.value.idontwant| <= 1
    ensures next.control.Some? && |next.control.value.idontwant| <= 1
    ensures State(out, next) == PlaceAll(State(out0, next0), [IDontWantOpen] + DontWantItems(ids), fits)
  {
    out, next := out0, next0;
    var c := next.control.value;
    if |c.idontwant| == 0 {
      var withOpen := c.(idontwant := c.idontwant + [ControlIDontWant([])]);
      out, next := Try(out, next, IDontWantOpen, next.(control := Some(withOpen)),
                       WithControl(EMPTY_CONTROL.(idontwant := [] + [ControlIDontWant([])])), fits);
    }
    PlaceOne(State(out0, next0), IDontWantOpen, fits);
    PlaceAllAppend(State(out0, next0), [IDontWantOpen], DontWantItems(ids), fits);
    out, next := SplitIDontWantIds(out, next, ids, fits);
  }

  method SplitIDontWants(out0: seq<RPC>, next0: RPC, idontwants: seq<ControlIDontWant>, fits: Test)
    returns (out: seq<RPC>, next: RPC)
    requires next0.control.Some? && |next0.control.value.idontwant| <= 1
    ensures next.control.Some?
    ensures State(out, next) == PlaceAll(State(out0, next0), IDontWantItems(idontwants), fits)
  {
    out, next := out0, next0;
    for i := 0 to |idontwants|
      invariant next.control.Some? && |next.control.value.idontwant| <= 1
      invariant State(out, next) == PlaceAll(State(out0, next0), IDontWantItems(idontwants[..i]), fits)
    {
      LastOfPrefix(idontwants, i);
      PlaceAllAppend(State(out0, next0), IDontWantItems(idontwants[..i]),
                     [IDontWantOpen] + DontWantItems(idontwants[i].messageIDs), fits);
      out, next := SplitIDontWant(out, next, idontwants[i].messageIDs, fits);
    }
    assert idontwants[..|idontwants|] == idontwants;
  }

  method SplitIHaveIds(out0: seq<RPC>, next0: RPC, t: TopicRef, ids: seq<Bytes>, fits: Test)
    returns (out: seq<RPC>, next: RPC)
    requires next0.control.Some? && LastTopicIs(next0.control.value.ihave, t)
    ensures next.control.Some?
    ensures State(out, next) == PlaceAll(State(out0, next0), HaveItems(t, ids), fits)
  {
    out, next := out0, next0;
    for i := 0 to |ids|
      invariant next.control.Some? && LastTopicIs(next.control.value.ihave, t)
      invariant State(out, next) == PlaceAll(State(out0, next0), HaveItems(t, ids[..i]), fits)
    {
      LastOfPrefix(ids, i);
      var c := next.control.value;
      var k := |c.ihave| - 1;
      var grown := c.ihave[..k] + [ControlIHave(t, c.ihave[k].messageIDs + [ids[i]])];
      out, next := Try(out, next, IHaveItem(t, ids[i]), next.(control := Some(c.(ihave := grown))),
                       WithControl(EMPTY_CONTROL.(ihave := [] + [ControlIHave(t, [ids[i]])])), fits);
    }
    assert ids[..|ids|] == ids;
  }

  /** One IHAVE entry: a new container only for a new topic reference. */
  method SplitIHave(out0: seq<RPC>, next0: RPC, h: ControlIHave, fits: Test) returns (out: seq<RPC>, next: RPC)
    requires next0.control.Some?
    ensures next.control.Some?
    ensures State(out, next)
            == PlaceAll(State(out0, next0), [IHaveOpen(h.topicID)] + HaveItems(h.topicID, h.messageIDs), fits)
  {
    out, next := out0, next0;
    var c := next.control.value;
    var t := h.topicID;
    if |c.ihave| == 0 || c.ihave[|c.ihave| - 1].topicID != t {
      out, next := Try(out, next, IHaveOpen(t), next.(control := Some(c.(ihave := c.ihave + [ControlIHave(t, [])]))),
                       WithControl(EMPTY_CONTROL.(ihave := [] + [ControlIHave(t, [])])), fits);
    }
    PlaceOne(State(out0, next0), IHaveOpen(t), fits);
    PlaceAllAppend(State(out0, next0), [IHaveOpen(t)], HaveItems(t, h.messageIDs), fits);
    out, next := SplitIHaveIds(out, next, t, h.messageIDs, fits);
  }

  method SplitIHaves(out0: seq<RPC>, next0: RPC, ihaves: seq<ControlIHave>, fits: Test)
    returns (out: seq<RPC>, next: RPC)
    requires next0.control.Some?
    ensures next.control.Some?
    ensures State(out, next) == PlaceAll(State(out0, next0), IHaveItems(ihaves), fits)
  {
    out, next := out0, next0;
    for i := 0 to |ihaves|
      invariant next.control.Some?
      invariant State(out, next) == PlaceAll(State(out0, next0), IHaveItems(ihaves[..i]), fits)
    {
      LastOfPrefix(ihaves, i);
      var h := ihaves[i];
      PlaceAllAppend(State(out0, next0), IHaveItems(ihaves[..i]),
                     [IHaveOpen(h.topicID)] + HaveItems(h.topicID, h.messageIDs), fits);
      out, next := SplitIHave(out, next, h, fits);
    }
    assert ihaves[..|ihaves|] == ihaves;
  }

  method SplitMesh(out0: seq<RPC>, next0: RPC, ctl: ControlMessage, fits: Test)
    returns (out: seq<RPC>, next: RPC)
    requires next0.control.None?
    ensures NoWants(next)
    ensures State(out, next) == PlaceAll(State(out0, next0), MeshItems(ctl), fits)
  {
    ghost var s0 := State(out0, next0);
    out, next := Try(out0, next0, ControlItem, next0.(control := Some(EMPTY_CONTROL)), WithControl(EMPTY_CONTROL),
                     fits);
    ghost var done := [ControlItem];
    assert PlaceAll(s0, done, fits) == State(out, next);
    if ctl.extensions.Some? {
      var e := ctl.extensions.value;
      var c := next.control.value;
      out, next := Try(out, next, ExtItem(e), next.(control := Some(c.(extensions := Some(e)))),
                       WithControl(EMPTY_CONTROL.(extensions := Some(e))), fits);
    }
    PlaceAllAppend(s0, done, ExtItems(ctl.extensions), fits);
    done := done + ExtItems(ctl.extensions);
    out, next := SplitGrafts(out, next, ctl.graft, fits);
    PlaceAllAppend(s0, done, GraftItems(ctl.graft), fits);
    done := done + GraftItems(ctl.graft);
    out, next := SplitPrunes(out, next, ctl.prune, fits);
    PlaceAllAppend(s0, done, PruneItems(ctl.prune), fits);
  }

  method SplitGossip(out0: seq<RPC>, next0: RPC, ctl: ControlMessage, fits: Test)
    returns (out: seq<RPC>, next: RPC)
    requires NoWants(next0)
    ensures State(out, next) == PlaceAll(State(out0, next0), GossipItems(ctl), fits)
  {
    ghost var s0 := State(out0, next0);
    out, next := SplitIWants(out0, next0, ctl.iwant, fits);
    out, next := SplitIDontWants(out, next, ctl.idontwant, fits);
    PlaceAllAppend(s0, IWantItems(ctl.iwant), IDontWantItems(ctl.idontwant), fits);
    out, next := SplitIHaves(out, next, ctl.ihave, fits);
    PlaceAllAppend(s0, IWantItems(ctl.iwant) + IDontWantItems(ctl.idontwant), IHaveItems(ctl.ihave), fits);
  }

  method SplitControl(out0: seq<RPC>, next0: RPC, ctl: ControlMessage, fits: Test)
    returns (out: seq<RPC>, next: RPC)
    requires next0.control.None?
    ensures State(out, next) == PlaceAll(State(out0, next0), ControlItems(Some(ctl)), fits)
  {
    out, next := SplitMesh(out0, next0, ctl, fits);
    out, next := SplitGossip(out, next, ctl, fits);
    PlaceAllAppend(State(out0, next0), MeshItems(ctl), GossipItems(ctl), fits);
  }

  method SplitRest(rpc: RPC, fits: Test) returns (out: seq<RPC>)
    ensures out == RestPieces(rpc, fits)
  {
    var rest := rpc.(publish := []);
    if fits(rest) {
      return if Size(rest) != 0 then [rest] else [];
    }
    var next;
    out, next := SplitSubscriptions(rpc.subscriptions, fits);
    PlaceAllAppend(State([], EMPTY_RPC), SubItems(rpc.subscriptions), ControlItems(rpc.control), fits);
    if rpc.control.Some? {
      out, next := SplitControl(out, next, rpc.control.value, fits);
    }
    if Size(next) > 0 {
      out := out + [next];
    }
  }

  /** RPC.split, run until it has yielded everything. */
  method Split(rpc: RPC, limit: int, controlLimit: int) returns (out: seq<RPC>)
    ensures out == SplitSpec(rpc, limit, controlLimit)
  {
    var groups := SplitPublish(rpc.publish, PublishCharge, limit);
    var rest := SplitRest(rpc, Within(limit, controlLimit));
    out := PublishRPCs(groups) + rest;
  }
}
