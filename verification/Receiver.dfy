/** The receiving side of the control size limit (pb/validator.go), and how its
    count relates to the one the sender uses.
  */
module Receiver {
  import opened Basics
  import opened Wire
  import opened Rpc

  const PUBLISH_FIELD := 2
  const PARTIAL_FIELD := 10
  const DATA_FIELD := 2

  datatype Verdict = Accepted | TooLarge(size: int) | Malformed(error: ParseError)

  // ------------------------------------------------------------ specification

  /** Length of the first length-delimited data field of an encoded message. */
  function DataFieldIn(msg: Bytes): (r: Parsed<()>)
    decreases |msg|
  {
    if msg == [] then Ok((), 0)
    else
      var t := ConsumeTag(msg);
      if t.Err? then Err(t.error)
      else
        var v := ConsumeFieldValue(t.value.field, t.value.wireType, msg[t.n..]);
        if v.Err? then v
        else if t.value.field == DATA_FIELD && t.value.wireType == WIRE_BYTES then v
        else DataFieldIn(msg[t.n + v.n..])
  }

  function DataFieldSpec(fieldValue: Bytes): (r: Parsed<()>) {
    var m := ConsumeBytes(fieldValue);
    if m.Err? then Err(m.error) else DataFieldIn(m.value)
  }

  /** What one field adds to the control size. */
  function FieldCharge(field: nat, tagLen: nat, fieldLen: nat, fieldValue: Bytes): (r: Parsed<int>) {
    if field == PARTIAL_FIELD then Ok(0, 0)
    else if field == PUBLISH_FIELD then
      var payload := DataFieldSpec(fieldValue);
      if payload.Err? then Err(payload.error) else Ok(tagLen + fieldLen - payload.n, 0)
    else Ok(tagLen + fieldLen, 0)
  }

  /** One field: what it adds to the control size and how long it is. */
  function ReadField(msg: Bytes): (r: Parsed<int>)
    ensures r.Ok? ==> 1 <= r.n <= |msg|
  {
    var t := ConsumeTag(msg);
    if t.Err? then Err(t.error)
    else
      var v := ConsumeFieldValue(t.value.field, t.value.wireType, msg[t.n..]);
      if v.Err? then Err(v.error)
      else
        var c := FieldCharge(t.value.field, t.n, v.n, msg[t.n..]);
        if c.Err? then Err(c.error) else Ok(c.value, t.n + v.n)
  }

  /** The charges of the fields of a raw envelope, up to the first error. */
  datatype Charges = End | Bad(error: ParseError) | Field(charge: int, tail: Charges)

  function ReadFields(msg: Bytes): (r: Charges)
    decreases |msg|
  {
    if msg == [] then End
    else
      var f := ReadField(msg);
      if f.Err? then Bad(f.error) else Field(f.value, ReadFields(msg[f.n..]))
  }

  /** The limit is compared after every field. */
  function Judge(cs: Charges, size: int, max: int): (r: Verdict) {
    match cs
    case End => Accepted
    case Bad(e) => Malformed(e)
    case Field(c, tail) => if size + c > max then TooLarge(size + c) else Judge(tail, size + c, max)
  }

  /** What the first n fields add up to. */
  function FirstCharges(cs: Charges, n: nat): int {
    if n == 0 || !cs.Field? then 0 else cs.charge + FirstCharges(cs.tail, n - 1)
  }

  /** A refusal tells what the fields read so far add up to, and that is too much. */
  lemma {:induction false} RefusalTellsSize(cs: Charges, size: int, max: int) returns (n: nat)
    requires Judge(cs, size, max).TooLarge?
    ensures Judge(cs, size, max) == TooLarge(size + FirstCharges(cs, n)) && size + FirstCharges(cs, n) > max
    decreases cs
  {
    if size + cs.charge > max {
      n := 1;
    } else {
      var k := RefusalTellsSize(cs.tail, size + cs.charge, max);
      n := k + 1;
    }
  }

  // ------------------------------------------------------------ implementation

  method DataFieldLength(fieldValue: Bytes) returns (r: Parsed<()>)
    ensures r == DataFieldSpec(fieldValue)
  {
    var m := ConsumeBytes(fieldValue);
    if m.Err? {
      return Err(m.error);
    }
    var msg := m.value;
    while |msg| > 0
      invariant DataFieldIn(msg) == DataFieldIn(m.value)
      decreases |msg|
    {
      var t := ConsumeTag(msg);
      if t.Err? {
        return Err(t.error);
      }
      var value := msg[t.n..];
      var v := ConsumeFieldValue(t.value.field, t.value.wireType, value);
      if v.Err? {
        return v;
      }
      assert msg[t.n + v.n..] == value[v.n..];
      msg := value[v.n..];
      if t.value.field == DATA_FIELD && t.value.wireType == WIRE_BYTES {
        return v;
      }
    }
    return Ok((), 0);
  }

  method ReadFieldCharge(msg: Bytes) returns (r: Parsed<int>)
    requires |msg| > 0
    ensures r == ReadField(msg)
  {
    hide ConsumeTag, ConsumeFieldValue, DataFieldSpec;
    var t := ConsumeTag(msg);
    if t.Err? {
      return Err(t.error);
    }
    var value := msg[t.n..];
    var v := ConsumeFieldValue(t.value.field, t.value.wireType, value);
    if v.Err? {
      return Err(v.error);
    }
    if t.value.field == PARTIAL_FIELD {
      return Ok(0, t.n + v.n);
    } else if t.value.field == PUBLISH_FIELD {
      var payload := DataFieldLength(value);
      if payload.Err? {
        return Err(payload.error);
      }
      return Ok(t.n + v.n - payload.n, t.n + v.n);
    } else {
      return Ok(t.n + v.n, t.n + v.n);
    }
  }

  lemma ReadFieldsStep(msg: Bytes, f: Parsed<int>)
    requires msg != [] && f == ReadField(msg)
    ensures ReadFields(msg) == if f.Err? then Bad(f.error) else Field(f.value, ReadFields(msg[f.n..]))
  {
  }

  lemma ReadNothing()
    ensures ReadFields([]) == End
  {
  }

  method ValidateRawRPCControlMessageSize(raw: Bytes, maxControlMessageSize: int) returns (r: Verdict)
    ensures r == Judge(ReadFields(raw), 0, maxControlMessageSize)
  {
    hide ReadField, ReadFields;
    ReadNothing();
    var msg, controlSize := raw, 0;
    while |msg| > 0
      invariant Judge(ReadFields(msg), controlSize, maxControlMessageSize)
                == Judge(ReadFields(raw), 0, maxControlMessageSize)
      decreases |msg|
    {
      var f := ReadFieldCharge(msg);
      ReadFieldsStep(msg, f);
      if f.Err? {
        return Malformed(f.error);
      }
      controlSize := controlSize + f.value;
      msg := msg[f.n..];
      if controlSize > maxControlMessageSize {
        return TooLarge(controlSize);
      }
    }
    return Accepted;
  }

  // ------------------------------------------------------------ one encoded field

  function ValueLen(payload: Bytes): nat { |Varint(|payload|)| + |payload| }

  lemma ReadEncodedField(field: nat, payload: Bytes, rest: Bytes, charge: nat)
    requires 1 <= field <= MAX_FIELD_NUMBER && |payload| < TWO_TO_64
    requires FieldCharge(field, |Tag(field, WIRE_BYTES)|, ValueLen(payload), Varint(|payload|) + payload + rest)
             == Ok(charge, 0)
    ensures ReadField(BytesField(field, payload) + rest) == Ok(charge, |BytesField(field, payload)|)
  {
    var b := BytesField(field, payload) + rest;
    var tag := Tag(field, WIRE_BYTES);
    ConsumeBytesField(field, payload, rest);
    assert ConsumeFieldValue(field, WIRE_BYTES, b[|tag|..]) == Ok((), ValueLen(payload));
  }

  lemma PlainFieldCharge(field: nat, payload: Bytes, rest: Bytes)
    requires 1 <= field <= MAX_FIELD_NUMBER && field != PUBLISH_FIELD && |payload| < TWO_TO_64
    ensures ReadField(BytesField(field, payload) + rest)
            == Ok(if field == PARTIAL_FIELD then 0 else |BytesField(field, payload)|, |BytesField(field, payload)|)
  {
    ReadEncodedField(field, payload, rest, if field == PARTIAL_FIELD then 0 else |BytesField(field, payload)|);
  }

  lemma DataFieldOfEncoded(payload: Bytes, rest: Bytes)
    requires |payload| < TWO_TO_64
    ensures DataFieldSpec(Varint(|payload|) + payload + rest) == DataFieldIn(payload)
  {
    ConsumeEncodedBytes(payload, rest);
  }

  lemma PublishFieldCharge(payload: Bytes, rest: Bytes, dataLen: nat)
    requires |payload| < TWO_TO_64 && DataFieldIn(payload) == Ok((), dataLen)
    requires dataLen <= |BytesField(PUBLISH_FIELD, payload)|
    ensures ReadField(BytesField(PUBLISH_FIELD, payload) + rest)
            == Ok(|BytesField(PUBLISH_FIELD, payload)| - dataLen, |BytesField(PUBLISH_FIELD, payload)|)
  {
    hide Varint, DataFieldSpec, DataFieldIn, ReadField, Tag;
    DataFieldOfEncoded(payload, rest);
    ReadEncodedField(PUBLISH_FIELD, payload, rest, |BytesField(PUBLISH_FIELD, payload)| - dataLen);
  }

  lemma ReadEncodedFields(field: nat, payload: Bytes, rest: Bytes, charge: nat)
    requires ReadField(BytesField(field, payload) + rest) == Ok(charge, |BytesField(field, payload)|)
    ensures ReadFields(BytesField(field, payload) + rest) == Field(charge, ReadFields(rest))
  {
    assert (BytesField(field, payload) + rest)[|BytesField(field, payload)|..] == rest;
  }

  lemma DataFieldSkips(field: nat, payload: Bytes, rest: Bytes)
    requires 1 <= field <= MAX_FIELD_NUMBER && |payload| < TWO_TO_64
    ensures DataFieldIn(BytesField(field, payload) + rest)
            == if field == DATA_FIELD then Ok((), ValueLen(payload)) else DataFieldIn(rest)
  {
    ConsumeBytesField(field, payload, rest);
  }

  lemma DataFieldSkipsOpt(field: nat, v: Option<Bytes>, rest: Bytes)
    requires 1 <= field <= MAX_FIELD_NUMBER && field != DATA_FIELD && |OptBytes(field, v)| < TWO_TO_64
    ensures DataFieldIn(OptBytes(field, v) + rest) == DataFieldIn(rest)
  {
    if v.Some? {
      DataFieldSkips(field, v.value, rest);
    } else {
      assert OptBytes(field, v) + rest == rest;
    }
  }

  /** Encoded length of a message's data field value. */
  function DataLen(m: Message): nat {
    match m.data case None => 0 case Some(d) => ValueLen(d)
  }

  lemma NoDataAfterwards(m: Message)
    requires |EncodeAfterData(m)| < TWO_TO_64
    ensures DataFieldIn(EncodeAfterData(m)) == Ok((), 0)
  {
    var r6 := OptBytes(6, m.key);
    var r5 := OptBytes(5, m.signature) + r6;
    DataFieldSkipsOpt(3, m.seqno, OptBytes(4, m.topic) + r5);
    DataFieldSkipsOpt(4, m.topic, r5);
    DataFieldSkipsOpt(5, m.signature, r6);
    DataFieldSkipsOpt(6, m.key, []);
    assert r6 + [] == r6;
  }

  lemma DataFieldOfMessage(m: Message)
    requires |EncodeMessage(m)| < TWO_TO_64
    ensures DataFieldIn(EncodeMessage(m)) == Ok((), DataLen(m))
  {
    DataFieldSkipsOpt(1, m.from, OptBytes(2, m.data) + EncodeAfterData(m));
    if m.data.Some? {
      DataFieldSkips(DATA_FIELD, m.data.value, EncodeAfterData(m));
    } else {
      assert OptBytes(2, m.data) + EncodeAfterData(m) == EncodeAfterData(m);
      NoDataAfterwards(m);
    }
  }

  // ------------------------------------------------------------ repeated fields

  /** Envelope bytes of a published message that are not its payload. */
  function Overhead(m: Message): nat {
    OverheadIsPositive(m);
    |BytesField(PUBLISH_FIELD, EncodeMessage(m))| - DataLen(m)
  }

  lemma OverheadIsPositive(m: Message)
    ensures |BytesField(PUBLISH_FIELD, EncodeMessage(m))| >= DataLen(m)
  {
  }

  function Sum<T>(xs: seq<T>, f: T -> nat): nat {
    if xs == [] then 0 else Sum(xs[..|xs| - 1], f) + f(xs[|xs| - 1])
  }

  type Reader = Bytes -> Charges

  /** One element of a repeated field is read in one step that adds its count. */
  ghost predicate Reads<T>(read: Reader, field: nat, enc: T -> Bytes, count: T -> nat, x: T) {
    forall rest: Bytes :: read(BytesField(field, enc(x)) + rest) == Field(count(x), read(rest))
  }

  lemma {:induction false} JudgeRepeated<T>(
    read: Reader, field: nat, xs: seq<T>, enc: T -> Bytes, count: T -> nat, rest: Bytes, size: int, max: int)
    requires size <= max
    requires forall i :: 0 <= i < |xs| ==> Reads(read, field, enc, count, xs[i])
    ensures Judge(read(Repeated(field, xs, enc) + rest), size, max).Accepted?
            <==> size + Sum(xs, count) <= max && Judge(read(rest), size + Sum(xs, count), max).Accepted?
  {
    if xs == [] {
      assert Repeated(field, xs, enc) + rest == rest;
    } else {
      var init, x := xs[..|xs| - 1], xs[|xs| - 1];
      var rest' := BytesField(field, enc(x)) + rest;
      assert Repeated(field, xs, enc) + rest == Repeated(field, init, enc) + rest';
      JudgeRepeated(read, field, init, enc, count, rest', size, max);
      assert Reads(read, field, enc, count, x);
    }
  }

  lemma {:induction false} ElementFits<T>(field: nat, xs: seq<T>, enc: T -> Bytes, i: nat)
    requires i < |xs|
    ensures |enc(xs[i])| < |Repeated(field, xs, enc)|
  {
    if i < |xs| - 1 {
      ElementFits(field, xs[..|xs| - 1], enc, i);
    }
  }

  function SubBytes(s: SubOpts): nat { |BytesField(1, EncodeSub(s))| }

  /** What a reader of fields has to do for the rest of the argument. */
  ghost predicate Lawful(read: Reader) {
    && read([]) == End
    && (forall field: nat, payload: Bytes, rest: Bytes ::
          1 <= field <= MAX_FIELD_NUMBER && field != PUBLISH_FIELD && |payload| < TWO_TO_64 ==>
            read(BytesField(field, payload) + rest)
            == Field(if field == PARTIAL_FIELD then 0 else |BytesField(field, payload)|, read(rest)))
    && (forall m: Message, rest: Bytes ::
          |EncodeMessage(m)| < TWO_TO_64 ==>
            read(BytesField(PUBLISH_FIELD, EncodeMessage(m)) + rest) == Field(Overhead(m), read(rest)))
  }

  lemma ReadsPublish(payload: Bytes, rest: Bytes, dataLen: nat)
    requires |payload| < TWO_TO_64 && DataFieldIn(payload) == Ok((), dataLen)
    requires dataLen <= |BytesField(PUBLISH_FIELD, payload)|
    ensures ReadFields(BytesField(PUBLISH_FIELD, payload) + rest)
            == Field(|BytesField(PUBLISH_FIELD, payload)| - dataLen, ReadFields(rest))
  {
    hide Varint, DataFieldIn, ReadField, ReadFields, BytesField, Tag;
    PublishFieldCharge(payload, rest, dataLen);
    ReadEncodedFields(PUBLISH_FIELD, payload, rest, |BytesField(PUBLISH_FIELD, payload)| - dataLen);
  }

  lemma ReadFieldsIsLawful()
    ensures Lawful(ReadFields)
  {
    forall field: nat, payload: Bytes, rest: Bytes
      | 1 <= field <= MAX_FIELD_NUMBER && field != PUBLISH_FIELD && |payload| < TWO_TO_64
      ensures ReadFields(BytesField(field, payload) + rest)
              == Field(if field == PARTIAL_FIELD then 0 else |BytesField(field, payload)|, ReadFields(rest))
    {
      PlainFieldCharge(field, payload, rest);
      ReadEncodedFields(field, payload, rest, if field == PARTIAL_FIELD then 0 else |BytesField(field, payload)|);
    }
    forall m: Message, rest: Bytes | |EncodeMessage(m)| < TWO_TO_64
      ensures ReadFields(BytesField(PUBLISH_FIELD, EncodeMessage(m)) + rest) == Field(Overhead(m), ReadFields(rest))
    {
      DataFieldOfMessage(m);
      OverheadIsPositive(m);
      ReadsPublish(EncodeMessage(m), rest, DataLen(m));
    }
  }

  // ------------------------------------------------------------ whole envelopes

  /** What the receiver counts for an envelope. */
  function ReceiverSize(r: RPC): nat {
    Sum(r.subscriptions, SubBytes) + Sum(r.publish, Overhead)
    + |EncodeOptControl(r.control)| + |EncodeTestExtension(r.testExtension)|
  }

  lemma JudgeOpt(read: Reader, field: nat, v: Option<Bytes>, rest: Bytes, size: int, max: int)
    requires Lawful(read) && size <= max
    requires 1 <= field <= MAX_FIELD_NUMBER && field != PUBLISH_FIELD && |OptBytes(field, v)| < TWO_TO_64
    ensures var charge := if field == PARTIAL_FIELD then 0 else |OptBytes(field, v)|;
            Judge(read(OptBytes(field, v) + rest), size, max).Accepted?
            <==> size + charge <= max && Judge(read(rest), size + charge, max).Accepted?
  {
    if v.None? {
      assert OptBytes(field, v) + rest == rest;
    }
  }

  lemma JudgeTail(read: Reader, c: Option<Bytes>, p: Option<Bytes>, t: Option<Bytes>, size: int, max: int)
    requires Lawful(read) && size <= max
    requires |OptBytes(3, c)| < TWO_TO_64 && |OptBytes(10, p)| < TWO_TO_64
    requires |OptBytes(TEST_EXTENSION_FIELD, t)| < TWO_TO_64
    ensures Judge(read(OptBytes(3, c) + (OptBytes(10, p) + OptBytes(TEST_EXTENSION_FIELD, t))), size, max).Accepted?
            <==> size + |OptBytes(3, c)| + |OptBytes(TEST_EXTENSION_FIELD, t)| <= max
  {
    var test := OptBytes(TEST_EXTENSION_FIELD, t);
    JudgeOpt(read, 3, c, OptBytes(10, p) + test, size, max);
    var size' := size + |OptBytes(3, c)|;
    if size' <= max {
      JudgeOpt(read, PARTIAL_FIELD, p, test, size', max);
      JudgeOpt(read, TEST_EXTENSION_FIELD, t, [], size', max);
      assert test + [] == test;
    }
  }

  lemma SubsRead(read: Reader, subs: seq<SubOpts>)
    requires Lawful(read) && |Repeated(1, subs, EncodeSub)| < TWO_TO_64
    ensures forall i :: 0 <= i < |subs| ==> Reads(read, 1, EncodeSub, SubBytes, subs[i])
  {
    forall i | 0 <= i < |subs|
      ensures Reads(read, 1, EncodeSub, SubBytes, subs[i])
    {
      ElementFits(1, subs, EncodeSub, i);
    }
  }

  lemma MessagesRead(read: Reader, pub: seq<Message>)
    requires Lawful(read) && |Repeated(PUBLISH_FIELD, pub, EncodeMessage)| < TWO_TO_64
    ensures forall i :: 0 <= i < |pub| ==> Reads(read, PUBLISH_FIELD, EncodeMessage, Overhead, pub[i])
  {
    forall i | 0 <= i < |pub|
      ensures Reads(read, PUBLISH_FIELD, EncodeMessage, Overhead, pub[i])
    {
      ElementFits(PUBLISH_FIELD, pub, EncodeMessage, i);
    }
  }

  /** Two repeated fields and a tail whose own size is known. */
  lemma JudgeTwoRepeated<A, B>(
    read: Reader, xs: seq<A>, encA: A -> Bytes, countA: A -> nat, ys: seq<B>, encB: B -> Bytes, countB: B -> nat,
    tail: Bytes, tailSize: nat, max: int)
    requires 0 <= max
    requires forall i :: 0 <= i < |xs| ==> Reads(read, 1, encA, countA, xs[i])
    requires forall i :: 0 <= i < |ys| ==> Reads(read, PUBLISH_FIELD, encB, countB, ys[i])
    requires forall size :: size <= max ==> (Judge(read(tail), size, max).Accepted? <==> size + tailSize <= max)
    ensures Judge(read(Repeated(1, xs, encA) + (Repeated(PUBLISH_FIELD, ys, encB) + tail)), 0, max).Accepted?
            <==> Sum(xs, countA) + Sum(ys, countB) + tailSize <= max
  {
    JudgeRepeated(read, 1, xs, encA, countA, Repeated(PUBLISH_FIELD, ys, encB) + tail, 0, max);
    if Sum(xs, countA) <= max {
      JudgeRepeated(read, PUBLISH_FIELD, ys, encB, countB, tail, Sum(xs, countA), max);
    }
  }

  lemma JudgeEnvelope(
    read: Reader, subs: seq<SubOpts>, pub: seq<Message>, c: Option<Bytes>, p: Option<Bytes>, t: Option<Bytes>, max: int)
    requires Lawful(read) && 0 <= max
    requires |Repeated(1, subs, EncodeSub)| < TWO_TO_64 && |Repeated(PUBLISH_FIELD, pub, EncodeMessage)| < TWO_TO_64
    requires |OptBytes(3, c)| < TWO_TO_64 && |OptBytes(10, p)| < TWO_TO_64
    requires |OptBytes(TEST_EXTENSION_FIELD, t)| < TWO_TO_64
    ensures var tail := OptBytes(3, c) + (OptBytes(10, p) + OptBytes(TEST_EXTENSION_FIELD, t));
            var bytes := Repeated(1, subs, EncodeSub) + (Repeated(PUBLISH_FIELD, pub, EncodeMessage) + tail);
            Judge(read(bytes), 0, max).Accepted? <==>
            Sum(subs, SubBytes) + Sum(pub, Overhead) + |OptBytes(3, c)| + |OptBytes(TEST_EXTENSION_FIELD, t)| <= max
  {
    var tail := OptBytes(3, c) + (OptBytes(10, p) + OptBytes(TEST_EXTENSION_FIELD, t));
    var tailSize := |OptBytes(3, c)| + |OptBytes(TEST_EXTENSION_FIELD, t)|;
    SubsRead(read, subs);
    MessagesRead(read, pub);
    forall size | size <= max
      ensures Judge(read(tail), size, max).Accepted? <==> size + tailSize <= max
    {
      JudgeTail(read, c, p, t, size, max);
    }
    JudgeTwoRepeated(read, subs, EncodeSub, SubBytes, pub, EncodeMessage, Overhead, tail, tailSize, max);
  }

  function OptPayload<T>(v: Option<T>, enc: T -> Bytes): Option<Bytes> {
    match v case None => None case Some(x) => Some(enc(x))
  }

  lemma EncodeShape(r: RPC)
    ensures var c, p := OptPayload(r.control, EncodeControl), OptPayload(r.partial, EncodePartial);
            var t := if r.testExtension then Some([]) else None;
            && EncodeOptControl(r.control) == OptBytes(3, c)
            && EncodeOptPartial(r.partial) == OptBytes(10, p)
            && EncodeTestExtension(r.testExtension) == OptBytes(TEST_EXTENSION_FIELD, t)
            && Encode(r) == Repeated(1, r.subscriptions, EncodeSub) + (Repeated(2, r.publish, EncodeMessage)
               + (OptBytes(3, c) + (OptBytes(10, p) + OptBytes(TEST_EXTENSION_FIELD, t))))
  {
    var c, p := OptPayload(r.control, EncodeControl), OptPayload(r.partial, EncodePartial);
    var t := if r.testExtension then Some([]) else None;
    Reassociate(Repeated(1, r.subscriptions, EncodeSub), Repeated(2, r.publish, EncodeMessage),
                OptBytes(3, c), OptBytes(10, p), OptBytes(TEST_EXTENSION_FIELD, t));
  }

  lemma Reassociate(a: Bytes, b: Bytes, c: Bytes, d: Bytes, e: Bytes)
    ensures a + b + c + d + e == a + (b + (c + (d + e)))
  {
  }

  /** The receiver lets an encoded envelope through exactly when its own count is
      within the limit, although it compares after every field. */
  lemma ReceiverAcceptsExactly(r: RPC, max: int)
    requires max >= 0 && Size(r) < TWO_TO_64
    ensures Judge(ReadFields(Encode(r)), 0, max).Accepted? <==> ReceiverSize(r) <= max
  {
    ReadFieldsIsLawful();
    EncodeShape(r);
    JudgeEnvelope(ReadFields, r.subscriptions, r.publish, OptPayload(r.control, EncodeControl),
                  OptPayload(r.partial, EncodePartial), if r.testExtension then Some([]) else None, max);
  }

  // ------------------------------------------------------------ sender and receiver

  lemma {:induction false} SubsAsCounted(subs: seq<SubOpts>)
    ensures Sum(subs, SubBytes) == ChargedSubs(subs) + EmptySubs(subs)
  {
    if subs != [] {
      SubsAsCounted(subs[..|subs| - 1]);
      ChargedIsEncoded(1, EncodeSub(subs[|subs| - 1]));
    }
  }

  /** The two sides count the same bytes, except that only the receiver counts
      the envelope of published messages, the test extension and the missing
      byte of every empty embedded message. */
  lemma ReceiverCountsMore(r: RPC)
    ensures ReceiverSize(r) == ControlSize(r) + EmptySubs(r.subscriptions) + EmptyControl(r.control)
                               + Sum(r.publish, Overhead) + |EncodeTestExtension(r.testExtension)|
  {
    SubsAsCounted(r.subscriptions);
    if r.control.Some? {
      ChargedIsEncoded(3, EncodeControl(r.control.value));
    }
  }

  /** An envelope of non-empty Subscriptions, Control and Partial gets through
      exactly when the sender judges it within the control limit. */
  lemma SenderAndReceiverAgree(r: RPC, max: int)
    requires max >= 0 && Size(r) < TWO_TO_64
    requires r.publish == [] && !r.testExtension
    requires EmptySubs(r.subscriptions) == 0 && EmptyControl(r.control) == 0
    ensures Judge(ReadFields(Encode(r)), 0, max).Accepted? <==> ControlSize(r) <= max
  {
    ReceiverAcceptsExactly(r, max);
    ReceiverCountsMore(r);
  }

  /** With published messages the sender's judgement is not enough: for every
      limit that is a 64-bit int there is an envelope with control size zero that
      is turned away. */
  lemma PublishEnvelopeCanBeRefused(max: nat) returns (r: RPC)
    requires max < 0x8000_0000_0000_0000
    ensures ControlSize(r) == 0 && !Judge(ReadFields(Encode(r)), 0, max).Accepted?
  {
    var name: Bytes := seq(max, _ => 97);
    var m := Message(None, None, None, Some(name), None, None);
    r := EMPTY_RPC.(publish := [m]);
    TopicOnlyMessage(name);
    VarintShort(max);
    VarintShort(|EncodeMessage(m)|);
    assert [m][..0] == [];
    assert Repeated(2, [m], EncodeMessage) == [] + BytesField(2, EncodeMessage(m));
    assert Sum([m], Overhead) == Overhead(m);
    ShortTag(2, WIRE_BYTES);
    ReceiverAcceptsExactly(r, max);
  }

  lemma TopicOnlyMessage(name: Bytes)
    ensures EncodeMessage(Message(None, None, None, Some(name), None, None)) == BytesField(4, name)
    ensures |BytesField(4, name)| == 1 + ValueLen(name)
  {
    ShortTag(4, WIRE_BYTES);
  }

  lemma {:induction false} VarintShort(n: nat)
    ensures |Varint(n)| <= 1 + n / 128
  {
    if n >= 128 {
      VarintShort(n / 128);
    }
  }
}
