/** The pubsub RPC envelope (pb/rpc.proto), its encoding, and the two sizes the
    sender compares with its limits.
  */
module Rpc {
  import opened Basics
  import opened Wire

  datatype SubOpts = SubOpts(
    subscribe: Option<bool>, topicid: Option<Bytes>,
    requestsPartial: Option<bool>, supportsSendingPartial: Option<bool>)

  datatype Message = Message(
    from: Option<Bytes>, data: Option<Bytes>, seqno: Option<Bytes>,
    topic: Option<Bytes>, signature: Option<Bytes>, key: Option<Bytes>)

  /** An optional string held by reference: IHAVE entries are merged when their
      topic references coincide, so two references are equal only if they have the
      same address (and then they have the same contents). */
  datatype TopicRef = NilRef | Ref(addr: nat, name: Bytes)

  datatype ControlIHave = ControlIHave(topicID: TopicRef, messageIDs: seq<Bytes>)
  datatype ControlIWant = ControlIWant(messageIDs: seq<Bytes>)
  datatype ControlIDontWant = ControlIDontWant(messageIDs: seq<Bytes>)
  datatype ControlGraft = ControlGraft(topicID: Option<Bytes>)
  datatype PeerInfo = PeerInfo(peerID: Option<Bytes>, signedPeerRecord: Option<Bytes>)
  datatype ControlPrune = ControlPrune(topicID: Option<Bytes>, peers: seq<PeerInfo>, backoff: Option<nat>)
  datatype ControlExtensions = ControlExtensions(partialMessages: Option<bool>, testExtension: Option<bool>)

  datatype ControlMessage = ControlMessage(
    ihave: seq<ControlIHave>, iwant: seq<ControlIWant>, graft: seq<ControlGraft>,
    prune: seq<ControlPrune>, idontwant: seq<ControlIDontWant>, extensions: Option<ControlExtensions>)

  datatype PartialMessage = PartialMessage(
    topicID: Option<Bytes>, groupID: Option<Bytes>, partialMessage: Option<Bytes>, partsMetadata: Option<Bytes>)

  datatype RPC = RPC(
    subscriptions: seq<SubOpts>, publish: seq<Message>, control: Option<ControlMessage>,
    partial: Option<PartialMessage>, testExtension: bool)

  const EMPTY_CONTROL := ControlMessage([], [], [], [], [], None)
  const EMPTY_RPC := RPC([], [], None, None, false)
  const TEST_EXTENSION_FIELD := 6492434

  // ---------------------------------------------------------------- encoding

  function OptBool(field: nat, v: Option<bool>): Bytes {
    match v case None => [] case Some(b) => VarintField(field, if b then 1 else 0)
  }

  function OptBytes(field: nat, v: Option<Bytes>): Bytes {
    match v case None => [] case Some(b) => BytesField(field, b)
  }

  /** A repeated field of encoded elements. */
  function Repeated<T>(field: nat, xs: seq<T>, enc: T -> Bytes): Bytes {
    if xs == [] then []
    else Repeated(field, xs[..|xs| - 1], enc) + BytesField(field, enc(xs[|xs| - 1]))
  }

  function EncodeSub(s: SubOpts): Bytes {
    OptBool(1, s.subscribe) + OptBytes(2, s.topicid)
    + OptBool(3, s.requestsPartial) + OptBool(4, s.supportsSendingPartial)
  }

  function EncodeAfterData(m: Message): Bytes {
    OptBytes(3, m.seqno) + (OptBytes(4, m.topic) + (OptBytes(5, m.signature) + OptBytes(6, m.key)))
  }

  function EncodeMessage(m: Message): Bytes {
    OptBytes(1, m.from) + (OptBytes(2, m.data) + EncodeAfterData(m))
  }

  function EncodeId(id: Bytes): Bytes { id }

  function EncodeIHave(h: ControlIHave): Bytes {
    (match h.topicID case NilRef => [] case Ref(_, name) => BytesField(1, name))
    + Repeated(2, h.messageIDs, EncodeId)
  }

  function EncodeIWant(w: ControlIWant): Bytes { Repeated(1, w.messageIDs, EncodeId) }

  function EncodeIDontWant(w: ControlIDontWant): Bytes { Repeated(1, w.messageIDs, EncodeId) }

  function EncodeGraft(g: ControlGraft): Bytes { OptBytes(1, g.topicID) }

  function EncodePeerInfo(p: PeerInfo): Bytes { OptBytes(1, p.peerID) + OptBytes(2, p.signedPeerRecord) }

  function EncodePrune(p: ControlPrune): Bytes {
    OptBytes(1, p.topicID) + Repeated(2, p.peers, EncodePeerInfo)
    + (match p.backoff case None => [] case Some(b) => VarintField(3, b))
  }

  function EncodeExtensions(e: ControlExtensions): Bytes {
    OptBool(10, e.partialMessages) + OptBool(TEST_EXTENSION_FIELD, e.testExtension)
  }

  function EncodeOptExtensions(e: Option<ControlExtensions>): Bytes {
    match e case None => [] case Some(x) => BytesField(6, EncodeExtensions(x))
  }

  function EncodeControl(c: ControlMessage): Bytes {
    Repeated(1, c.ihave, EncodeIHave) + Repeated(2, c.iwant, EncodeIWant)
    + Repeated(3, c.graft, EncodeGraft) + Repeated(4, c.prune, EncodePrune)
    + Repeated(5, c.idontwant, EncodeIDontWant) + EncodeOptExtensions(c.extensions)
  }

  function EncodePartial(p: PartialMessage): Bytes {
    OptBytes(1, p.topicID) + OptBytes(2, p.groupID) + OptBytes(3, p.partialMessage) + OptBytes(4, p.partsMetadata)
  }

  function EncodeOptControl(c: Option<ControlMessage>): Bytes {
    match c case None => [] case Some(x) => BytesField(3, EncodeControl(x))
  }

  function EncodeOptPartial(p: Option<PartialMessage>): Bytes {
    match p case None => [] case Some(x) => BytesField(10, EncodePartial(x))
  }

  function EncodeTestExtension(present: bool): Bytes {
    if present then BytesField(TEST_EXTENSION_FIELD, []) else []
  }

  function Encode(r: RPC): Bytes {
    Repeated(1, r.subscriptions, EncodeSub) + Repeated(2, r.publish, EncodeMessage)
    + EncodeOptControl(r.control) + EncodeOptPartial(r.partial) + EncodeTestExtension(r.testExtension)
  }

  // ---------------------------------------------------------------- sizes

  /** proto.Size of the envelope. */
  function Size(r: RPC): nat { |Encode(r)| }

  /** Bytes the sender charges for one embedded message in a field below 16. */
  function ChargedSize(payload: nat): nat {
    PB_FIELD_NUMBER_LT15_SIZE + SizeOfEmbeddedMsg(payload)
  }

  function ChargedSubs(subs: seq<SubOpts>): nat {
    if subs == [] then 0
    else ChargedSubs(subs[..|subs| - 1]) + ChargedSize(|EncodeSub(subs[|subs| - 1])|)
  }

  function ChargedControl(c: Option<ControlMessage>): nat {
    match c case None => 0 case Some(x) => ChargedSize(|EncodeControl(x)|)
  }

  function ControlSize(r: RPC): nat { ChargedSubs(r.subscriptions) + ChargedControl(r.control) }

  /** The accumulating loop of controlRPCSize. */
  method ControlRPCSize(r: RPC) returns (size: nat)
    ensures size == ControlSize(r)
  {
    size := 0;
    for i := 0 to |r.subscriptions|
      invariant size == ChargedSubs(r.subscriptions[..i])
    {
      var sub := r.subscriptions[i];
      assert r.subscriptions[..i + 1][..i] == r.subscriptions[..i];
      size := size + PB_FIELD_NUMBER_LT15_SIZE + SizeOfEmbeddedMsg(|EncodeSub(sub)|);
    }
    assert r.subscriptions[..|r.subscriptions|] == r.subscriptions;
    if r.control.Some? {
      size := size + PB_FIELD_NUMBER_LT15_SIZE + SizeOfEmbeddedMsg(|EncodeControl(r.control.value)|);
    }
  }

  predicate Exceeds(r: RPC, limit: int, controlLimit: int) {
    Size(r) > limit || ControlSize(r) > controlLimit
  }

  // A charge is exact for a non-empty embedded message and one byte short for an empty one.

  function Short(payload: nat): nat { if payload == 0 then 1 else 0 }

  lemma ChargedIsEncoded(field: nat, payload: Bytes)
    requires field < 16
    ensures |BytesField(field, payload)| == ChargedSize(|payload|) + Short(|payload|)
  {
    ShortTag(field, WIRE_BYTES);
    SovRpcIsVarintLength(|payload|);
  }

  function EmptySubs(subs: seq<SubOpts>): nat {
    if subs == [] then 0 else EmptySubs(subs[..|subs| - 1]) + Short(|EncodeSub(subs[|subs| - 1])|)
  }

  function EmptyControl(c: Option<ControlMessage>): nat {
    match c case None => 0 case Some(x) => Short(|EncodeControl(x)|)
  }

  lemma {:induction false} ChargedSubsIsEncoded(subs: seq<SubOpts>)
    ensures |Repeated(1, subs, EncodeSub)| == ChargedSubs(subs) + EmptySubs(subs)
  {
    if subs != [] {
      ChargedSubsIsEncoded(subs[..|subs| - 1]);
      ChargedIsEncoded(1, EncodeSub(subs[|subs| - 1]));
    }
  }

  /** controlRPCSize is the encoded length of an envelope holding only the
      Subscriptions and Control, less one byte per empty embedded message. */
  lemma ControlSizeIsEncodedLength(r: RPC)
    ensures Size(RPC(r.subscriptions, [], r.control, None, false))
            == ControlSize(r) + EmptySubs(r.subscriptions) + EmptyControl(r.control)
  {
    ChargedSubsIsEncoded(r.subscriptions);
    if r.control.Some? {
      ChargedIsEncoded(3, EncodeControl(r.control.value));
    }
  }

  // ---------------------------------------------------------------- growth

  lemma {:induction false} VarintLengthMonotone(m: nat, n: nat)
    requires m <= n
    ensures |Varint(m)| <= |Varint(n)|
  {
    if m >= 128 {
      VarintLengthMonotone(m / 128, n / 128);
    }
  }

  lemma FieldGrows(field: nat, a: Bytes, b: Bytes)
    requires |a| <= |b|
    ensures |BytesField(field, a)| <= |BytesField(field, b)|
  {
    VarintLengthMonotone(|a|, |b|);
  }

  lemma ChargeGrows(a: nat, b: nat)
    requires a <= b
    ensures ChargedSize(a) <= ChargedSize(b)
  {
    BitLenMonotone(a, b);
  }

  lemma RepeatedAppend<T>(field: nat, xs: seq<T>, x: T, enc: T -> Bytes)
    ensures Repeated(field, xs + [x], enc) == Repeated(field, xs, enc) + BytesField(field, enc(x))
  {
    assert (xs + [x])[..|xs|] == xs;
  }
}
