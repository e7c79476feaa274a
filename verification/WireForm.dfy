/** The encoded messages, read back field by field: every field has the number that
    pb/rpc.proto gives it, and nothing is lost. */
module WireForm {
  import opened Basics
  import opened Wire
  import opened Rpc

  /** A field as it is on the wire, without its meaning. */
  datatype Raw = Num(field: nat, value: nat) | Len(field: nat, payload: Bytes)

  /** The fields of a message that has only numbers and length-delimited values. */
  function Fields(b: Bytes): Option<seq<Raw>>
    decreases |b|
  {
    if b == [] then Some([])
    else
      var t := ConsumeTag(b);
      if t.Err? then None
      else if t.value.wireType == 0 then
        var v := ConsumeVarint(b[t.n..]);
        if v.Err? then None else Before(Num(t.value.field, v.value), Fields(b[t.n + v.n..]))
      else if t.value.wireType == 2 then
        var v := ConsumeBytes(b[t.n..]);
        if v.Err? then None else Before(Len(t.value.field, v.value), Fields(b[t.n + v.n..]))
      else None
  }

  function Before(f: Raw, rest: Option<seq<Raw>>): Option<seq<Raw>> {
    if rest.None? then None else Some([f] + rest.value)
  }

  /** Reading the bytes gives these fields first, and then those of what follows. */
  ghost predicate Reads(b: Bytes, fs: seq<Raw>) {
    forall rest: Bytes :: Fields(b + rest) == if Fields(rest).None? then None else Some(fs + Fields(rest).value)
  }

  lemma ReadsAlone(b: Bytes, fs: seq<Raw>)
    requires Reads(b, fs)
    ensures Fields(b) == Some(fs)
  {
    assert Fields(b + []) == Some(fs + []);
    assert b + [] == b && fs + [] == fs;
  }

  lemma ReadsNothing()
    ensures Reads([], [])
  {
    hide Fields;
    var none: seq<Raw> := [];
    forall rest: Bytes
      ensures Fields([] + rest) == if Fields(rest).None? then None else Some(none + Fields(rest).value)
    {
      assert [] + rest == rest;
      if Fields(rest).Some? {
        assert none + Fields(rest).value == Fields(rest).value;
      }
    }
  }

  lemma ReadsBoth(a: Bytes, fs: seq<Raw>, b: Bytes, gs: seq<Raw>)
    requires Reads(a, fs) && Reads(b, gs)
    ensures Reads(a + b, fs + gs)
  {
    hide Fields;
    forall rest: Bytes
      ensures Fields(a + b + rest) == if Fields(rest).None? then None else Some(fs + gs + Fields(rest).value)
    {
      assert a + b + rest == a + (b + rest);
      assert Fields(a + (b + rest))
             == if Fields(b + rest).None? then None else Some(fs + Fields(b + rest).value);
      if Fields(rest).Some? {
        assert fs + (gs + Fields(rest).value) == fs + gs + Fields(rest).value;
      }
    }
  }

  lemma ReadsBytes(field: nat, payload: Bytes)
    requires 1 <= field <= MAX_FIELD_NUMBER && |payload| < TWO_TO_64
    ensures Reads(BytesField(field, payload), [Len(field, payload)])
  {
    forall rest: Bytes
      ensures Fields(BytesField(field, payload) + rest)
              == if Fields(rest).None? then None else Some([Len(field, payload)] + Fields(rest).value)
    {
      ConsumeBytesField(field, payload, rest);
      hide ConsumeTag, ConsumeBytes, Varint, Tag;
      assert (BytesField(field, payload) + rest)[|BytesField(field, payload)|..] == rest;
    }
  }

  lemma ReadsNumber(field: nat, value: nat)
    requires 1 <= field <= MAX_FIELD_NUMBER && value < TWO_TO_64
    ensures Reads(VarintField(field, value), [Num(field, value)])
  {
    forall rest: Bytes
      ensures Fields(VarintField(field, value) + rest)
              == if Fields(rest).None? then None else Some([Num(field, value)] + Fields(rest).value)
    {
      NumberField(field, value, rest);
      hide ConsumeTag, ConsumeVarint, Varint, Tag;
    }
  }

  lemma NumberField(field: nat, value: nat, rest: Bytes)
    requires 1 <= field <= MAX_FIELD_NUMBER && value < TWO_TO_64
    ensures var b, tag := VarintField(field, value) + rest, Tag(field, WIRE_VARINT);
            && ConsumeTag(b) == Ok(TagValue(field, 0), |tag|)
            && ConsumeVarint(b[|tag|..]) == Ok(value, |Varint(value)|)
            && b[|tag| + |Varint(value)|..] == rest
  {
    var tag := Tag(field, WIRE_VARINT);
    assert VarintField(field, value) + rest == tag + (Varint(value) + rest);
    ConsumeEncodedTag(field, WIRE_VARINT, Varint(value) + rest);
    VarintRoundTrip(value, rest);
  }

  // ------------------------------------------------------------ optional and repeated fields

  function OptLen(field: nat, v: Option<Bytes>): seq<Raw> { if v.None? then [] else [Len(field, v.value)] }

  function OptNum(field: nat, v: Option<bool>): seq<Raw> {
    if v.None? then [] else [Num(field, if v.value then 1 else 0)]
  }

  function Lens<T>(field: nat, xs: seq<T>, enc: T -> Bytes): seq<Raw> {
    if xs == [] then [] else Lens(field, xs[..|xs| - 1], enc) + [Len(field, enc(xs[|xs| - 1]))]
  }

  lemma ReadsOptLen(field: nat, v: Option<Bytes>)
    requires 1 <= field <= MAX_FIELD_NUMBER && |OptBytes(field, v)| < TWO_TO_64
    ensures Reads(OptBytes(field, v), OptLen(field, v))
  {
    if v.Some? {
      ReadsBytes(field, v.value);
    } else {
      ReadsNothing();
    }
  }

  lemma ReadsOptNum(field: nat, v: Option<bool>)
    requires 1 <= field <= MAX_FIELD_NUMBER
    ensures Reads(OptBool(field, v), OptNum(field, v))
  {
    if v.Some? {
      ReadsNumber(field, if v.value then 1 else 0);
    } else {
      ReadsNothing();
    }
  }

  lemma {:induction false} ReadsLens<T>(field: nat, xs: seq<T>, enc: T -> Bytes)
    requires 1 <= field <= MAX_FIELD_NUMBER && |Repeated(field, xs, enc)| < TWO_TO_64
    ensures Reads(Repeated(field, xs, enc), Lens(field, xs, enc))
  {
    if xs == [] {
      ReadsNothing();
    } else {
      var init, x := xs[..|xs| - 1], xs[|xs| - 1];
      ReadsLens(field, init, enc);
      ReadsBytes(field, enc(x));
      ReadsBoth(Repeated(field, init, enc), Lens(field, init, enc), BytesField(field, enc(x)), [Len(field, enc(x))]);
    }
  }

  lemma ReadsFour(a: Bytes, fa: seq<Raw>, b: Bytes, fb: seq<Raw>, c: Bytes, fc: seq<Raw>, d: Bytes, fd: seq<Raw>)
    requires Reads(a, fa) && Reads(b, fb) && Reads(c, fc) && Reads(d, fd)
    ensures Reads(a + b + c + d, fa + fb + fc + fd)
  {
    hide Reads;
    ReadsBoth(a, fa, b, fb);
    ReadsBoth(a + b, fa + fb, c, fc);
    ReadsBoth(a + b + c, fa + fb + fc, d, fd);
  }

  // ------------------------------------------------------------ the messages

  lemma SubForm(s: SubOpts)
    requires |EncodeSub(s)| < TWO_TO_64
    ensures Fields(EncodeSub(s)) == Some(OptNum(1, s.subscribe) + OptLen(2, s.topicid)
                                         + OptNum(3, s.requestsPartial) + OptNum(4, s.supportsSendingPartial))
  {
    hide Reads, Fields;
    ReadsOptNum(1, s.subscribe);
    ReadsOptLen(2, s.topicid);
    ReadsOptNum(3, s.requestsPartial);
    ReadsOptNum(4, s.supportsSendingPartial);
    ReadsFour(OptBool(1, s.subscribe), OptNum(1, s.subscribe), OptBytes(2, s.topicid), OptLen(2, s.topicid),
              OptBool(3, s.requestsPartial), OptNum(3, s.requestsPartial),
              OptBool(4, s.supportsSendingPartial), OptNum(4, s.supportsSendingPartial));
    ReadsAlone(EncodeSub(s), OptNum(1, s.subscribe) + OptLen(2, s.topicid)
                             + OptNum(3, s.requestsPartial) + OptNum(4, s.supportsSendingPartial));
  }

  lemma MessageForm(m: Message)
    requires |EncodeMessage(m)| < TWO_TO_64
    ensures Fields(EncodeMessage(m)) == Some(OptLen(1, m.from) + (OptLen(2, m.data) + (OptLen(3, m.seqno)
              + (OptLen(4, m.topic) + (OptLen(5, m.signature) + OptLen(6, m.key))))))
  {
    hide Reads, Fields;
    ReadsOptLen(1, m.from);
    ReadsOptLen(2, m.data);
    ReadsOptLen(3, m.seqno);
    ReadsOptLen(4, m.topic);
    ReadsOptLen(5, m.signature);
    ReadsOptLen(6, m.key);
    var e, fe := OptBytes(5, m.signature) + OptBytes(6, m.key), OptLen(5, m.signature) + OptLen(6, m.key);
    var d, fd := OptBytes(4, m.topic) + e, OptLen(4, m.topic) + fe;
    var c, fc := OptBytes(3, m.seqno) + d, OptLen(3, m.seqno) + fd;
    var b, fb := OptBytes(2, m.data) + c, OptLen(2, m.data) + fc;
    ReadsBoth(OptBytes(5, m.signature), OptLen(5, m.signature), OptBytes(6, m.key), OptLen(6, m.key));
    ReadsBoth(OptBytes(4, m.topic), OptLen(4, m.topic), e, fe);
    ReadsBoth(OptBytes(3, m.seqno), OptLen(3, m.seqno), d, fd);
    ReadsBoth(OptBytes(2, m.data), OptLen(2, m.data), c, fc);
    ReadsBoth(OptBytes(1, m.from), OptLen(1, m.from), b, fb);
    ReadsAlone(EncodeMessage(m), OptLen(1, m.from) + fb);
  }

  function NameOf(t: TopicRef): Option<Bytes> { match t case NilRef => None case Ref(_, name) => Some(name) }

  lemma IHaveForm(h: ControlIHave)
    requires |EncodeIHave(h)| < TWO_TO_64
    ensures Fields(EncodeIHave(h)) == Some(OptLen(1, NameOf(h.topicID)) + Lens(2, h.messageIDs, EncodeId))
  {
    hide Reads, Fields;
    assert EncodeIHave(h) == OptBytes(1, NameOf(h.topicID)) + Repeated(2, h.messageIDs, EncodeId);
    ReadsOptLen(1, NameOf(h.topicID));
    ReadsLens(2, h.messageIDs, EncodeId);
    ReadsBoth(OptBytes(1, NameOf(h.topicID)), OptLen(1, NameOf(h.topicID)),
              Repeated(2, h.messageIDs, EncodeId), Lens(2, h.messageIDs, EncodeId));
    ReadsAlone(EncodeIHave(h), OptLen(1, NameOf(h.topicID)) + Lens(2, h.messageIDs, EncodeId));
  }

  lemma WantForm(w: ControlIWant, d: ControlIDontWant)
    requires |EncodeIWant(w)| < TWO_TO_64 && |EncodeIDontWant(d)| < TWO_TO_64
    ensures Fields(EncodeIWant(w)) == Some(Lens(1, w.messageIDs, EncodeId))
    ensures Fields(EncodeIDontWant(d)) == Some(Lens(1, d.messageIDs, EncodeId))
  {
    hide Reads, Fields;
    ReadsLens(1, w.messageIDs, EncodeId);
    ReadsLens(1, d.messageIDs, EncodeId);
    ReadsAlone(EncodeIWant(w), Lens(1, w.messageIDs, EncodeId));
    ReadsAlone(EncodeIDontWant(d), Lens(1, d.messageIDs, EncodeId));
  }

  lemma GraftForm(g: ControlGraft, i: PeerInfo)
    requires |EncodeGraft(g)| < TWO_TO_64 && |EncodePeerInfo(i)| < TWO_TO_64
    ensures Fields(EncodeGraft(g)) == Some(OptLen(1, g.topicID))
    ensures Fields(EncodePeerInfo(i)) == Some(OptLen(1, i.peerID) + OptLen(2, i.signedPeerRecord))
  {
    hide Reads, Fields;
    ReadsOptLen(1, g.topicID);
    ReadsAlone(EncodeGraft(g), OptLen(1, g.topicID));
    ReadsOptLen(1, i.peerID);
    ReadsOptLen(2, i.signedPeerRecord);
    ReadsBoth(OptBytes(1, i.peerID), OptLen(1, i.peerID),
              OptBytes(2, i.signedPeerRecord), OptLen(2, i.signedPeerRecord));
    ReadsAlone(EncodePeerInfo(i), OptLen(1, i.peerID) + OptLen(2, i.signedPeerRecord));
  }

  function BackoffField(b: Option<nat>): seq<Raw> { if b.None? then [] else [Num(3, b.value)] }

  lemma PruneForm(p: ControlPrune)
    requires |EncodePrune(p)| < TWO_TO_64 && (p.backoff.Some? ==> p.backoff.value < TWO_TO_64)
    ensures Fields(EncodePrune(p)) == Some(OptLen(1, p.topicID) + Lens(2, p.peers, EncodePeerInfo)
                                           + BackoffField(p.backoff))
  {
    hide Reads, Fields;
    var last := match p.backoff case None => [] case Some(b) => VarintField(3, b);
    ReadsOptLen(1, p.topicID);
    ReadsLens(2, p.peers, EncodePeerInfo);
    if p.backoff.Some? {
      ReadsNumber(3, p.backoff.value);
    } else {
      ReadsNothing();
    }
    ReadsBoth(OptBytes(1, p.topicID), OptLen(1, p.topicID),
              Repeated(2, p.peers, EncodePeerInfo), Lens(2, p.peers, EncodePeerInfo));
    ReadsBoth(OptBytes(1, p.topicID) + Repeated(2, p.peers, EncodePeerInfo),
              OptLen(1, p.topicID) + Lens(2, p.peers, EncodePeerInfo), last, BackoffField(p.backoff));
    ReadsAlone(EncodePrune(p), OptLen(1, p.topicID) + Lens(2, p.peers, EncodePeerInfo) + BackoffField(p.backoff));
  }

  lemma ExtensionsForm(e: ControlExtensions)
    ensures Fields(EncodeExtensions(e)) == Some(OptNum(10, e.partialMessages) + OptNum(6492434, e.testExtension))
  {
    hide Reads, Fields;
    ReadsOptNum(10, e.partialMessages);
    ReadsOptNum(6492434, e.testExtension);
    ReadsBoth(OptBool(10, e.partialMessages), OptNum(10, e.partialMessages),
              OptBool(6492434, e.testExtension), OptNum(6492434, e.testExtension));
    ReadsAlone(EncodeExtensions(e), OptNum(10, e.partialMessages) + OptNum(6492434, e.testExtension));
  }

  function Embedded<T>(field: nat, v: Option<T>, enc: T -> Bytes): seq<Raw> {
    if v.None? then [] else [Len(field, enc(v.value))]
  }

  lemma ControlForm(c: ControlMessage)
    requires |EncodeControl(c)| < TWO_TO_64
    ensures Fields(EncodeControl(c))
            == Some(Lens(1, c.ihave, EncodeIHave) + Lens(2, c.iwant, EncodeIWant) + Lens(3, c.graft, EncodeGraft)
                    + Lens(4, c.prune, EncodePrune)
                    + Lens(5, c.idontwant, EncodeIDontWant) + Embedded(6, c.extensions, EncodeExtensions))
  {
    hide Reads, Fields, Repeated, Lens;
    ReadsLens(1, c.ihave, EncodeIHave);
    ReadsLens(2, c.iwant, EncodeIWant);
    ReadsLens(3, c.graft, EncodeGraft);
    ReadsLens(4, c.prune, EncodePrune);
    ReadsLens(5, c.idontwant, EncodeIDontWant);
    if c.extensions.Some? {
      ReadsBytes(6, EncodeExtensions(c.extensions.value));
    } else {
      ReadsNothing();
    }
    var a := Repeated(1, c.ihave, EncodeIHave) + Repeated(2, c.iwant, EncodeIWant)
             + Repeated(3, c.graft, EncodeGraft) + Repeated(4, c.prune, EncodePrune);
    var fa := Lens(1, c.ihave, EncodeIHave) + Lens(2, c.iwant, EncodeIWant) + Lens(3, c.graft, EncodeGraft)
              + Lens(4, c.prune, EncodePrune);
    ReadsFour(Repeated(1, c.ihave, EncodeIHave), Lens(1, c.ihave, EncodeIHave),
              Repeated(2, c.iwant, EncodeIWant), Lens(2, c.iwant, EncodeIWant),
              Repeated(3, c.graft, EncodeGraft), Lens(3, c.graft, EncodeGraft),
              Repeated(4, c.prune, EncodePrune), Lens(4, c.prune, EncodePrune));
    ReadsBoth(a, fa, Repeated(5, c.idontwant, EncodeIDontWant), Lens(5, c.idontwant, EncodeIDontWant));
    ReadsBoth(a + Repeated(5, c.idontwant, EncodeIDontWant), fa + Lens(5, c.idontwant, EncodeIDontWant),
              EncodeOptExtensions(c.extensions), Embedded(6, c.extensions, EncodeExtensions));
    ReadsAlone(EncodeControl(c), fa + Lens(5, c.idontwant, EncodeIDontWant)
                                 + Embedded(6, c.extensions, EncodeExtensions));
  }

  lemma PartialForm(p: PartialMessage)
    requires |EncodePartial(p)| < TWO_TO_64
    ensures Fields(EncodePartial(p)) == Some(OptLen(1, p.topicID) + OptLen(2, p.groupID) + OptLen(3, p.partialMessage)
                                             + OptLen(4, p.partsMetadata))
  {
    hide Reads, Fields;
    ReadsOptLen(1, p.topicID);
    ReadsOptLen(2, p.groupID);
    ReadsOptLen(3, p.partialMessage);
    ReadsOptLen(4, p.partsMetadata);
    ReadsFour(OptBytes(1, p.topicID), OptLen(1, p.topicID), OptBytes(2, p.groupID), OptLen(2, p.groupID),
              OptBytes(3, p.partialMessage), OptLen(3, p.partialMessage),
              OptBytes(4, p.partsMetadata), OptLen(4, p.partsMetadata));
    ReadsAlone(EncodePartial(p), OptLen(1, p.topicID) + OptLen(2, p.groupID) + OptLen(3, p.partialMessage)
                                 + OptLen(4, p.partsMetadata));
  }

  function TestField(present: bool): seq<Raw> { if present then [Len(6492434, [])] else [] }

  /** The envelope: subscriptions 1, published messages 2, control 3, partial message 10
      and the test extension, each holding its encoded content. */
  lemma EnvelopeForm(r: RPC)
    requires Size(r) < TWO_TO_64
    ensures Fields(Encode(r))
            == Some(Lens(1, r.subscriptions, EncodeSub) + Lens(2, r.publish, EncodeMessage)
                    + Embedded(3, r.control, EncodeControl) + Embedded(10, r.partial, EncodePartial)
                    + TestField(r.testExtension))
  {
    hide Reads, Fields, Repeated, Lens, EncodeControl, EncodePartial;
    ReadsLens(1, r.subscriptions, EncodeSub);
    ReadsLens(2, r.publish, EncodeMessage);
    EmbeddedReads(r);
    ReadsFour(Repeated(1, r.subscriptions, EncodeSub), Lens(1, r.subscriptions, EncodeSub),
              Repeated(2, r.publish, EncodeMessage), Lens(2, r.publish, EncodeMessage),
              EncodeOptControl(r.control), Embedded(3, r.control, EncodeControl),
              EncodeOptPartial(r.partial), Embedded(10, r.partial, EncodePartial));
    var a, fa := Repeated(1, r.subscriptions, EncodeSub) + Repeated(2, r.publish, EncodeMessage)
                 + EncodeOptControl(r.control) + EncodeOptPartial(r.partial),
                 Lens(1, r.subscriptions, EncodeSub) + Lens(2, r.publish, EncodeMessage)
                 + Embedded(3, r.control, EncodeControl) + Embedded(10, r.partial, EncodePartial);
    ReadsBoth(a, fa, EncodeTestExtension(r.testExtension), TestField(r.testExtension));
    ReadsAlone(Encode(r), fa + TestField(r.testExtension));
  }

  lemma EmbeddedReads(r: RPC)
    requires Size(r) < TWO_TO_64
    ensures Reads(EncodeOptControl(r.control), Embedded(3, r.control, EncodeControl))
    ensures Reads(EncodeOptPartial(r.partial), Embedded(10, r.partial, EncodePartial))
    ensures Reads(EncodeTestExtension(r.testExtension), TestField(r.testExtension))
  {
    hide Reads, Fields, Repeated, EncodeControl, EncodePartial;
    ReadsNothing();
    if r.control.Some? {
      ReadsBytes(3, EncodeControl(r.control.value));
    }
    if r.partial.Some? {
      ReadsBytes(10, EncodePartial(r.partial.value));
    }
    ReadsBytes(6492434, []);
  }
}
