/** The protobuf wire format as the pubsub RPC code relies on it: base-128
    varints, tags and length-delimited fields ("Base 128 Varints" and "Message
    Structure" in the Protocol Buffers encoding guide), the sender's closed-form
    length `sovRpc`, and the receiving half used by pb/validator.go.
  */
module Wire {
  type byte = x: int | 0 <= x < 256
  type Bytes = seq<byte>

  // ---------------------------------------------------------------- encoding

  function Varint(n: nat): (r: Bytes)
    ensures |r| >= 1
  {
    if n < 128 then [n] else [128 + n % 128] + Varint(n / 128)
  }

  const WIRE_VARINT := 0
  const WIRE_FIXED64 := 1
  const WIRE_BYTES := 2
  const WIRE_START_GROUP := 3
  const WIRE_END_GROUP := 4
  const WIRE_FIXED32 := 5

  function Tag(field: nat, wireType: nat): (r: Bytes)
    ensures |r| >= 1
  {
    Varint(8 * field + wireType)
  }

  /** A length-delimited field: tag, length, payload. */
  function BytesField(field: nat, payload: Bytes): (r: Bytes)
    ensures |r| == |Tag(field, WIRE_BYTES)| + |Varint(|payload|)| + |payload|
  {
    Tag(field, WIRE_BYTES) + Varint(|payload|) + payload
  }

  function VarintField(field: nat, value: nat): (r: Bytes)
    ensures |r| >= 2
  {
    Tag(field, WIRE_VARINT) + Varint(value)
  }

  lemma ShortTag(field: nat, wireType: nat)
    requires field < 16 && wireType < 8
    ensures |Tag(field, wireType)| == 1
  {
  }

  // ------------------------------------------------------ the sender's lengths

  /** bits.Len64: the number of bits needed to write x. */
  function BitLen(x: nat): (r: nat) {
    if x == 0 then 0 else 1 + BitLen(x / 2)
  }

  function SovRpc(x: nat): (r: nat) {
    (BitLen(x) + 6) / 7
  }

  const PB_FIELD_NUMBER_LT15_SIZE := 1

  function SizeOfEmbeddedMsg(msgSize: nat): (r: nat) {
    SovRpc(msgSize) + msgSize
  }

  lemma BitLenHalf(x: nat, y: nat)
    requires x > 0 && y == x / 2
    ensures BitLen(x) == 1 + BitLen(y)
  {
  }

  lemma BitLenOfQuotient(x: nat)
    requires x >= 128
    ensures BitLen(x) == 7 + BitLen(x / 128)
  {
    BitLenHalf(x, x / 2);
    BitLenHalf(x / 2, x / 4);
    BitLenHalf(x / 4, x / 8);
    BitLenHalf(x / 8, x / 16);
    BitLenHalf(x / 16, x / 32);
    BitLenHalf(x / 32, x / 64);
    BitLenHalf(x / 64, x / 128);
  }

  lemma {:induction false} BitLenMonotone(x: nat, y: nat)
    requires x <= y
    ensures BitLen(x) <= BitLen(y)
  {
    if x > 0 {
      BitLenMonotone(x / 2, y / 2);
    }
  }

  /** The closed form equals the length of the varint it predicts, for every
      positive value; at zero it is one byte short. */
  lemma {:induction false} SovRpcIsVarintLength(x: nat)
    ensures SovRpc(x) == if x == 0 then |Varint(x)| - 1 else |Varint(x)|
  {
    if 1 <= x < 128 {
      BitLenMonotone(x, 127);
      assert BitLen(127) == 3 + BitLen(15) == 7;
    } else if x >= 128 {
      BitLenOfQuotient(x);
      SovRpcIsVarintLength(x / 128);
    }
  }

  // ---------------------------------------------------------------- decoding

  datatype ParseError = Truncated | Overflow | BadFieldNumber | BadEndGroup | BadWireType | TooDeep

  datatype Parsed<+T> = Ok(value: T, n: nat) | Err(error: ParseError)

  const MAX_VARINT_INDEX := 9

  /** Values that still fit in 64 bits when their low group is the i-th. */
  function VarintLimit(i: nat): (r: nat)
    requires i <= MAX_VARINT_INDEX
    ensures r >= 2
    decreases MAX_VARINT_INDEX - i
  {
    if i == MAX_VARINT_INDEX then 2 else 128 * VarintLimit(i + 1)
  }

  /** A varint of at most ten bytes, the tenth of which may only carry one bit. */
  function DecodeVarint(b: Bytes, i: nat): (r: Parsed<nat>)
    requires i <= MAX_VARINT_INDEX
    ensures r.Ok? ==> 1 <= r.n <= |b|
    decreases MAX_VARINT_INDEX - i
  {
    if b == [] then Err(Truncated)
    else if i == MAX_VARINT_INDEX then (if b[0] < 2 then Ok(b[0], 1) else Err(Overflow))
    else if b[0] < 128 then Ok(b[0], 1)
    else
      var rest := DecodeVarint(b[1..], i + 1);
      if rest.Err? then rest else Ok(b[0] - 128 + 128 * rest.value, 1 + rest.n)
  }

  function ConsumeVarint(b: Bytes): (r: Parsed<nat>)
    ensures r.Ok? ==> 1 <= r.n <= |b|
  {
    DecodeVarint(b, 0)
  }

  const TWO_TO_64 := 0x1_0000_0000_0000_0000

  lemma {:induction false} VarintRoundTripFrom(n: nat, i: nat, rest: Bytes)
    requires i <= MAX_VARINT_INDEX && n < VarintLimit(i)
    ensures DecodeVarint(Varint(n) + rest, i) == Ok(n, |Varint(n)|)
    decreases n
  {
    var b := Varint(n) + rest;
    if n >= 128 {
      assert n / 128 < VarintLimit(i + 1);
      VarintRoundTripFrom(n / 128, i + 1, rest);
      assert b[0] == 128 + n % 128 && b[1..] == Varint(n / 128) + rest;
    }
  }

  /** Every 64-bit value survives encoding and decoding, whatever follows it. */
  lemma VarintRoundTrip(n: nat, rest: Bytes)
    requires n < TWO_TO_64
    ensures ConsumeVarint(Varint(n) + rest) == Ok(n, |Varint(n)|)
  {
    assert VarintLimit(5) == 2 * 128 * 128 * 128 * 128;
    assert VarintLimit(0) == 128 * 128 * 128 * 128 * 128 * VarintLimit(5);
    VarintRoundTripFrom(n, 0, rest);
  }

  const MAX_FIELD_NUMBER := 0x7fff_ffff

  datatype TagValue = TagValue(field: nat, wireType: nat)

  function ConsumeTag(b: Bytes): (r: Parsed<TagValue>)
    ensures r.Ok? ==> 1 <= r.n <= |b|
  {
    var v := ConsumeVarint(b);
    if v.Err? then Err(v.error)
    else if v.value / 8 > MAX_FIELD_NUMBER || v.value / 8 < 1 then Err(BadFieldNumber)
    else Ok(TagValue(v.value / 8, v.value % 8), v.n)
  }

  function ConsumeBytes(b: Bytes): (r: Parsed<Bytes>)
    ensures r.Ok? ==> 1 <= r.n <= |b| && |r.value| < r.n
  {
    var m := ConsumeVarint(b);
    if m.Err? then Err(m.error)
    else if m.value > |b| - m.n then Err(Truncated)
    else Ok(b[m.n..m.n + m.value], m.n + m.value)
  }

  const RECURSION_LIMIT := 10000

  /** Length of the value that follows a tag; groups nest up to a depth limit. */
  function FieldValueLen(field: nat, wireType: nat, b: Bytes, depth: int): (r: Parsed<()>)
    ensures r.Ok? ==> r.n <= |b|
    decreases |b|, 1
  {
    if wireType == WIRE_VARINT then
      var v := ConsumeVarint(b);
      if v.Err? then Err(v.error) else Ok((), v.n)
    else if wireType == WIRE_FIXED64 then
      if |b| < 8 then Err(Truncated) else Ok((), 8)
    else if wireType == WIRE_BYTES then
      var v := ConsumeBytes(b);
      if v.Err? then Err(v.error) else Ok((), v.n)
    else if wireType == WIRE_START_GROUP then
      if depth < 0 then Err(TooDeep) else GroupLen(field, b, depth)
    else if wireType == WIRE_END_GROUP then Err(BadEndGroup)
    else if wireType == WIRE_FIXED32 then
      if |b| < 4 then Err(Truncated) else Ok((), 4)
    else Err(BadWireType)
  }

  function GroupLen(field: nat, b: Bytes, depth: int): (r: Parsed<()>)
    ensures r.Ok? ==> r.n <= |b|
    decreases |b|, 0
  {
    var t := ConsumeTag(b);
    if t.Err? then Err(t.error)
    else if t.value.wireType == WIRE_END_GROUP then
      if t.value.field != field then Err(BadEndGroup) else Ok((), t.n)
    else
      var v := FieldValueLen(t.value.field, t.value.wireType, b[t.n..], depth - 1);
      if v.Err? then v
      else
        var rest := GroupLen(field, b[t.n + v.n..], depth);
        if rest.Err? then rest else Ok((), t.n + v.n + rest.n)
  }

  function ConsumeFieldValue(field: nat, wireType: nat, b: Bytes): (r: Parsed<()>)
    ensures r.Ok? ==> r.n <= |b|
  {
    FieldValueLen(field, wireType, b, RECURSION_LIMIT)
  }

  lemma ConsumeEncodedTag(field: nat, wireType: nat, rest: Bytes)
    requires 1 <= field <= MAX_FIELD_NUMBER && wireType < 8
    ensures ConsumeTag(Tag(field, wireType) + rest) == Ok(TagValue(field, wireType), |Tag(field, wireType)|)
  {
    VarintRoundTrip(8 * field + wireType, rest);
  }

  lemma ConsumeEncodedBytes(payload: Bytes, rest: Bytes)
    requires |payload| < TWO_TO_64
    ensures ConsumeBytes(Varint(|payload|) + payload + rest) == Ok(payload, |Varint(|payload|)| + |payload|)
  {
    var b := Varint(|payload|) + payload + rest;
    assert b == Varint(|payload|) + (payload + rest);
    VarintRoundTrip(|payload|, payload + rest);
  }

  /** A parser standing at an encoded length-delimited field sees exactly that field. */
  lemma ConsumeBytesField(field: nat, payload: Bytes, rest: Bytes)
    requires 1 <= field <= MAX_FIELD_NUMBER && |payload| < TWO_TO_64
    ensures var b := BytesField(field, payload) + rest;
            var tag := Tag(field, WIRE_BYTES);
            && ConsumeTag(b) == Ok(TagValue(field, WIRE_BYTES), |tag|)
            && b[|tag|..] == Varint(|payload|) + payload + rest
            && ConsumeBytes(b[|tag|..]) == Ok(payload, |Varint(|payload|)| + |payload|)
            && b[|BytesField(field, payload)|..] == rest
  {
    var b := BytesField(field, payload) + rest;
    var tag := Tag(field, WIRE_BYTES);
    var after := Varint(|payload|) + payload + rest;
    assert b == tag + after;
    ConsumeEncodedTag(field, WIRE_BYTES, after);
    assert b[|tag|..] == after;
    ConsumeEncodedBytes(payload, rest);
  }

}
