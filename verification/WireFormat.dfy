/**
  The StreamBus message envelope on the wire.  The encoding is a fixed sequence of fields; it is treated
  in six groups, each with its bytes, its reader and two facts: reading the bytes gives the fields back
  exactly when the reader's checks accept them, and bytes that follow do not matter.
*/
module WireFormat {
  import opened Frames
  import opened Varints

  const WIRE_VERSION: Byte := 1
  const MESSAGE_DATA: Byte := 1
  const MESSAGE_SUBSCRIBE: Byte := 3
  const MESSAGE_PONG: Byte := 9
  const MAX_TEXT: nat := 0x10_0000 // 1 << 20
  const MAX_PAYLOAD: nat := 0x400_0000 // 64 << 20
  const MAX_INT: nat := 0x7FFF_FFFF_FFFF_FFFF

  datatype Message = Message(
    kind: Byte,
    id: Uint64,
    subscriptionId: Uint64,
    ack: Uint64,
    frame: Frame,
    options: SubscribeOptions,
    error: seq<Byte>)

  // ----- Single fields -----

  function ReadByte(s: seq<Byte>): (p: Parse<Byte>)
    ensures p.Parsed? ==> |p.rest| < |s|
  {
    if s == [] then Malformed else Parsed(s[0], s[1..])
  }

  function PutBytes(data: seq<Byte>): seq<Byte> {
    PutUvarint(|data|) + data
  }

  /** `readBytes`: a length within both the limit and what is left, then that many bytes. */
  function ReadBytes(s: seq<Byte>, maximum: nat): (p: Parse<seq<Byte>>)
    ensures p.Parsed? ==> |p.value| <= maximum && |p.rest| < |s|
  {
    var (size, rest) :- ReadUvarint(s);
    if size > maximum || size > |rest| then Malformed else Parsed(rest[..size], rest[size..])
  }

  lemma BytesRoundTrip(data: seq<Byte>, maximum: nat, tail: seq<Byte>)
    requires |data| <= maximum <= MAX_INT
    ensures ReadBytes(PutBytes(data) + tail, maximum) == Parsed(data, tail)
  {
    var s := PutBytes(data) + tail;
    assert s == PutUvarint(|data|) + (data + tail);
    UvarintRoundTrip(|data|, data + tail);
    assert (data + tail)[..|data|] == data;
    assert (data + tail)[|data|..] == tail;
  }

  lemma ByteLocal(s: seq<Byte>, more: seq<Byte>)
    requires ReadByte(s).Parsed?
    ensures ReadByte(s + more) == ReadByte(s).Plus(more)
  {
    assert (s + more)[1..] == s[1..] + more;
  }

  lemma BytesLocal(s: seq<Byte>, maximum: nat, more: seq<Byte>)
    requires ReadBytes(s, maximum).Parsed?
    ensures ReadBytes(s + more, maximum) == ReadBytes(s, maximum).Plus(more)
  {
    UvarintLocal(s, more);
    var p := ReadUvarint(s);
    assert (p.rest + more)[..p.value] == p.rest[..p.value];
    assert (p.rest + more)[p.value..] == p.rest[p.value..] + more;
  }

  lemma ByteRoundTrip(b: Byte, tail: seq<Byte>)
    ensures ReadByte([b] + tail) == Parsed(b, tail)
  {
    assert ([b] + tail)[1..] == tail;
  }

  // ----- Group 1: ids, acknowledgement, sequence -----

  datatype Ids = Ids(id: Uint64, subscriptionId: Uint64, ack: Uint64, sequence: Uint64)

  function PutIds(x: Ids, tail: seq<Byte>): seq<Byte> {
    PutUvarint(x.id) + (PutUvarint(x.subscriptionId) + (PutUvarint(x.ack) + (PutUvarint(x.sequence) + tail)))
  }

  function ReadIds(s: seq<Byte>): (p: Parse<Ids>)
    ensures p.Parsed? ==> |p.rest| < |s|
  {
    var (id, s1) :- ReadUvarint(s);
    var (subscriptionId, s2) :- ReadUvarint(s1);
    var (ack, s3) :- ReadUvarint(s2);
    var (sequence, s4) :- ReadUvarint(s3);
    Parsed(Ids(id, subscriptionId, ack, sequence), s4)
  }

  lemma IdsRoundTrip(x: Ids, tail: seq<Byte>)
    ensures ReadIds(PutIds(x, tail)) == Parsed(x, tail)
  {
    var t3 := PutUvarint(x.sequence) + tail;
    var t2 := PutUvarint(x.ack) + t3;
    var t1 := PutUvarint(x.subscriptionId) + t2;
    UvarintRoundTrip(x.id, t1);
    UvarintRoundTrip(x.subscriptionId, t2);
    UvarintRoundTrip(x.ack, t3);
    UvarintRoundTrip(x.sequence, tail);
  }

  lemma IdsLocal(s: seq<Byte>, more: seq<Byte>)
    requires ReadIds(s).Parsed?
    ensures ReadIds(s + more) == ReadIds(s).Plus(more)
  {
    UvarintLocal(s, more);
    var s1 := ReadUvarint(s).rest;
    UvarintLocal(s1, more);
    var s2 := ReadUvarint(s1).rest;
    UvarintLocal(s2, more);
    UvarintLocal(ReadUvarint(s2).rest, more);
  }

  // ----- Group 2: time stamp, reliability, priority -----

  datatype Traits = Traits(timestamp: Timestamp, reliability: Byte, priority: Byte)

  function Nanos(t: Timestamp): Int64 {
    if t.ZeroTime? then 0 else t.nanos
  }

  /** The zero time and the epoch share one encoding, which decodes as the zero time. */
  function Collapse(t: Timestamp): Timestamp {
    if t == UnixNano(0) then ZeroTime else t
  }

  predicate TraitsOk(x: Traits) {
    x.reliability <= UNRELIABLE && x.priority <= PRIORITY_CRITICAL
  }

  function PutTraits(x: Traits, tail: seq<Byte>): seq<Byte> {
    PutVarint(Nanos(x.timestamp)) + ([x.reliability] + ([x.priority] + tail))
  }

  function ReadTraits(s: seq<Byte>): (p: Parse<Traits>)
    ensures p.Parsed? ==> |p.rest| < |s| && TraitsOk(p.value) && Collapse(p.value.timestamp) == p.value.timestamp
  {
    var (nanos, s1) :- ReadVarint(s);
    var (reliability, s2) :- ReadByte(s1);
    if reliability > UNRELIABLE then Malformed
    else
      var (priority, s3) :- ReadByte(s2);
      if priority > PRIORITY_CRITICAL then Malformed
      else Parsed(Traits(if nanos == 0 then ZeroTime else UnixNano(nanos), reliability, priority), s3)
  }

  lemma TraitsRoundTrip(x: Traits, tail: seq<Byte>)
    ensures ReadTraits(PutTraits(x, tail)) ==
            if TraitsOk(x) then Parsed(x.(timestamp := Collapse(x.timestamp)), tail) else Malformed
  {
    VarintRoundTrip(Nanos(x.timestamp), [x.reliability] + ([x.priority] + tail));
    ByteRoundTrip(x.reliability, [x.priority] + tail);
    ByteRoundTrip(x.priority, tail);
  }

  lemma TraitsLocal(s: seq<Byte>, more: seq<Byte>)
    requires ReadTraits(s).Parsed?
    ensures ReadTraits(s + more) == ReadTraits(s).Plus(more)
  {
    UvarintLocal(s, more);
    var s1 := ReadVarint(s).rest;
    ByteLocal(s1, more);
    ByteLocal(ReadByte(s1).rest, more);
  }

  // ----- Group 3: topic and payload -----

  datatype Body = Body(topic: Topic, payload: seq<Byte>)

  predicate BodyOk(x: Body) {
    |x.topic| <= MAX_TEXT && |x.payload| <= MAX_PAYLOAD
  }

  function PutBody(x: Body, tail: seq<Byte>): seq<Byte> {
    PutBytes(x.topic) + (PutBytes(x.payload) + tail)
  }

  function ReadBody(s: seq<Byte>): (p: Parse<Body>)
    ensures p.Parsed? ==> |p.rest| < |s| && BodyOk(p.value)
  {
    var (topic, s1) :- ReadBytes(s, MAX_TEXT);
    var (payload, s2) :- ReadBytes(s1, MAX_PAYLOAD);
    Parsed(Body(topic, payload), s2)
  }

  lemma BodyRoundTrip(x: Body, tail: seq<Byte>)
    requires BodyOk(x)
    ensures ReadBody(PutBody(x, tail)) == Parsed(x, tail)
  {
    BytesRoundTrip(x.topic, MAX_TEXT, PutBytes(x.payload) + tail);
    BytesRoundTrip(x.payload, MAX_PAYLOAD, tail);
  }

  lemma BodyLocal(s: seq<Byte>, more: seq<Byte>)
    requires ReadBody(s).Parsed?
    ensures ReadBody(s + more) == ReadBody(s).Plus(more)
  {
    BytesLocal(s, MAX_TEXT, more);
    BytesLocal(ReadBytes(s, MAX_TEXT).rest, MAX_PAYLOAD, more);
  }

  // ----- Group 4: prefix, buffer, overflow -----

  datatype Delivery = Delivery(prefix: bool, buffer: Int64, overflow: Byte)

  predicate DeliveryOk(x: Delivery) {
    x.buffer >= 0 && x.overflow <= LATEST_ONLY
  }

  /** Go's conversion of an `int` to `uint64`. */
  function AsUint64(x: Int64): Uint64 {
    if x >= 0 then x else x + 0x1_0000_0000_0000_0000
  }

  function PutDelivery(x: Delivery, tail: seq<Byte>): seq<Byte> {
    [if x.prefix then 1 else 0] + (PutUvarint(AsUint64(x.buffer)) + ([x.overflow] + tail))
  }

  function ReadDelivery(s: seq<Byte>): (p: Parse<Delivery>)
    ensures p.Parsed? ==> |p.rest| < |s| && DeliveryOk(p.value)
  {
    var (prefix, s1) :- ReadByte(s);
    var (buffer, s2) :- ReadUvarint(s1);
    if buffer > MAX_INT then Malformed
    else
      var (overflow, s3) :- ReadByte(s2);
      if overflow > LATEST_ONLY then Malformed
      else Parsed(Delivery(prefix == 1, buffer, overflow), s3)
  }

  lemma DeliveryRoundTrip(x: Delivery, tail: seq<Byte>)
    ensures ReadDelivery(PutDelivery(x, tail)) == if DeliveryOk(x) then Parsed(x, tail) else Malformed
  {
    var t2 := [x.overflow] + tail;
    ByteRoundTrip(if x.prefix then 1 else 0, PutUvarint(AsUint64(x.buffer)) + t2);
    UvarintRoundTrip(AsUint64(x.buffer), t2);
    ByteRoundTrip(x.overflow, tail);
  }

  lemma DeliveryLocal(s: seq<Byte>, more: seq<Byte>)
    requires ReadDelivery(s).Parsed?
    ensures ReadDelivery(s + more) == ReadDelivery(s).Plus(more)
  {
    ByteLocal(s, more);
    var s1 := ReadByte(s).rest;
    UvarintLocal(s1, more);
    ByteLocal(ReadUvarint(s1).rest, more);
  }

  // ----- Group 5: replay, since, error text -----

  datatype Resumption = Resumption(replay: Int64, since: Uint64, error: seq<Byte>)

  predicate ResumptionOk(x: Resumption) {
    x.replay >= 0 && |x.error| <= MAX_TEXT
  }

  function PutResumption(x: Resumption, tail: seq<Byte>): seq<Byte> {
    PutUvarint(AsUint64(x.replay)) + (PutUvarint(x.since) + (PutBytes(x.error) + tail))
  }

  function ReadResumption(s: seq<Byte>): (p: Parse<Resumption>)
    ensures p.Parsed? ==> |p.rest| < |s| && ResumptionOk(p.value)
  {
    var (replay, s1) :- ReadUvarint(s);
    if replay > MAX_INT then Malformed
    else
      var (since, s2) :- ReadUvarint(s1);
      var (error, s3) :- ReadBytes(s2, MAX_TEXT);
      Parsed(Resumption(replay, since, error), s3)
  }

  lemma ResumptionRoundTrip(x: Resumption, tail: seq<Byte>)
    requires |x.error| <= MAX_TEXT
    ensures ReadResumption(PutResumption(x, tail)) == if ResumptionOk(x) then Parsed(x, tail) else Malformed
  {
    var t2 := PutBytes(x.error) + tail;
    var t1 := PutUvarint(x.since) + t2;
    UvarintRoundTrip(AsUint64(x.replay), t1);
    UvarintRoundTrip(x.since, t2);
    BytesRoundTrip(x.error, MAX_TEXT, tail);
  }

  lemma ResumptionLocal(s: seq<Byte>, more: seq<Byte>)
    requires ReadResumption(s).Parsed?
    ensures ReadResumption(s + more) == ReadResumption(s).Plus(more)
  {
    UvarintLocal(s, more);
    var s1 := ReadUvarint(s).rest;
    UvarintLocal(s1, more);
    BytesLocal(ReadUvarint(s1).rest, MAX_TEXT, more);
  }

  // ----- The whole message -----

  /** The fields of a message in wire order, after version and kind. */
  datatype Fields = Fields(ids: Ids, traits: Traits, body: Body, delivery: Delivery, resumption: Resumption)

  predicate FieldsOk(x: Fields) {
    TraitsOk(x.traits) && BodyOk(x.body) && DeliveryOk(x.delivery) && ResumptionOk(x.resumption)
  }

  function PutFields(x: Fields): seq<Byte> {
    PutIds(x.ids, PutTraits(x.traits, PutBody(x.body, PutDelivery(x.delivery, PutResumption(x.resumption, [])))))
  }

  function ReadFields(s: seq<Byte>): (p: Parse<Fields>)
    ensures p.Parsed? ==> FieldsOk(p.value) && Collapse(p.value.traits.timestamp) == p.value.traits.timestamp
  {
    var (ids, s1) :- ReadIds(s);
    var (traits, s2) :- ReadTraits(s1);
    var (body, s3) :- ReadBody(s2);
    var (delivery, s4) :- ReadDelivery(s3);
    var (resumption, s5) :- ReadResumption(s4);
    Parsed(Fields(ids, traits, body, delivery, resumption), s5)
  }

  function Settled(x: Fields): Fields {
    x.(traits := x.traits.(timestamp := Collapse(x.traits.timestamp)))
  }

  lemma FieldsRoundTrip(x: Fields)
    requires BodyOk(x.body) && |x.resumption.error| <= MAX_TEXT
    ensures ReadFields(PutFields(x)) == if FieldsOk(x) then Parsed(Settled(x), []) else Malformed
  {
    var t4 := PutResumption(x.resumption, []);
    var t3 := PutDelivery(x.delivery, t4);
    var t2 := PutBody(x.body, t3);
    var t1 := PutTraits(x.traits, t2);
    IdsRoundTrip(x.ids, t1);
    TraitsRoundTrip(x.traits, t2);
    BodyRoundTrip(x.body, t3);
    DeliveryRoundTrip(x.delivery, t4);
    ResumptionRoundTrip(x.resumption, []);
  }

  lemma FieldsLocal(s: seq<Byte>, more: seq<Byte>)
    requires ReadFields(s).Parsed?
    ensures ReadFields(s + more) == ReadFields(s).Plus(more)
  {
    IdsLocal(s, more);
    var s1 := ReadIds(s).rest;
    TraitsLocal(s1, more);
    var s2 := ReadTraits(s1).rest;
    BodyLocal(s2, more);
    var s3 := ReadBody(s2).rest;
    DeliveryLocal(s3, more);
    ResumptionLocal(ReadDelivery(s3).rest, more);
  }

  /** The topic that goes on the wire: a subscribe without a frame topic sends its options' topic. */
  function SentTopic(m: Message): Topic {
    if m.kind == MESSAGE_SUBSCRIBE && m.frame.topic == [] then m.options.topic else m.frame.topic
  }

  function ToFields(m: Message): Fields {
    Fields(
      Ids(m.id, m.subscriptionId, m.ack, m.frame.sequence),
      Traits(m.frame.timestamp, m.frame.reliability, m.frame.priority),
      Body(SentTopic(m), m.frame.payload),
      Delivery(m.options.prefix, m.options.buffer, m.options.overflow),
      Resumption(m.options.replay, m.options.since, m.error))
  }

  function FromFields(kind: Byte, x: Fields): Message {
    var frame := Frame(x.ids.sequence, x.traits.timestamp, x.body.topic, x.body.payload, x.traits.reliability,
                       x.traits.priority);
    var topic := if kind == MESSAGE_SUBSCRIBE then x.body.topic else [];
    var options := SubscribeOptions(topic, x.delivery.prefix, x.delivery.buffer, x.delivery.overflow,
                                    x.resumption.replay, x.resumption.since);
    Message(kind, x.ids.id, x.ids.subscriptionId, x.ids.ack, frame, options, x.resumption.error)
  }

  datatype Encoding = Encoded(bytes: seq<Byte>) | ErrTooLarge

  /** `EncodeMessage` checks sizes only. */
  predicate Encodable(m: Message) {
    |SentTopic(m)| <= MAX_TEXT && |m.frame.payload| <= MAX_PAYLOAD && |m.error| <= MAX_TEXT
  }

  function Encode(m: Message): Encoding {
    if Encodable(m) then Encoded([WIRE_VERSION] + ([m.kind] + PutFields(ToFields(m)))) else ErrTooLarge
  }

  datatype Decoding = Decoded(message: Message) | ErrVersion | ErrMessage

  function Decode(data: seq<Byte>): Decoding {
    if data == [] then ErrMessage
    else if data[0] != WIRE_VERSION then ErrVersion
    else if |data| < 2 || data[1] < MESSAGE_DATA || data[1] > MESSAGE_PONG then ErrMessage
    else
      match ReadFields(data[2..])
      case Malformed => ErrMessage
      case Parsed(x, rest) => if rest != [] then ErrMessage else Decoded(FromFields(data[1], x))
  }

  // ----- Main results -----

  /** The checks that decoding makes and encoding does not. */
  predicate WellFormed(m: Message) {
    && 1 <= m.kind <= 9
    && m.frame.reliability <= 1
    && m.frame.priority <= 3
    && m.options.overflow <= 3
    && m.options.buffer >= 0
    && m.options.replay >= 0
  }

  /** What a message becomes on the wire: a subscribe has one topic, other kinds none in their options, no epoch. */
  function Normal(m: Message): Message {
    var topic := SentTopic(m);
    m.(frame := m.frame.(topic := topic, timestamp := Collapse(m.frame.timestamp)),
       options := m.options.(topic := if m.kind == MESSAGE_SUBSCRIBE then topic else []))
  }

  lemma NormalIsIdempotent(m: Message)
    ensures Normal(Normal(m)) == Normal(m)
    ensures Encode(Normal(m)) == Encode(m)
  {
    if Encodable(m) {
      var a, b := ToFields(Normal(m)), ToFields(m);
      assert a == b.(traits := a.traits);
      assert Nanos(a.traits.timestamp) == Nanos(b.traits.timestamp);
      var tail := PutBody(b.body, PutDelivery(b.delivery, PutResumption(b.resumption, [])));
      assert PutTraits(a.traits, tail) == PutTraits(b.traits, tail);
    }
  }

  /** Every message that encodes decodes to its normal form if it is well formed, and is rejected otherwise. */
  lemma RoundTrip(m: Message)
    requires Encodable(m)
    ensures Decode(Encode(m).bytes) == if WellFormed(m) then Decoded(Normal(m)) else ErrMessage
  {
    var x := ToFields(m);
    var data := Encode(m).bytes;
    assert data[2..] == PutFields(x);
    FieldsRoundTrip(x);
  }

  /**
    A message comes back unchanged if and only if the decoder accepts it, it is not stamped with the epoch, and
    its topics agree: a subscribe names one topic twice, any other message none in its options.
  */
  lemma LosslessExactly(m: Message)
    requires Encodable(m)
    ensures Decode(Encode(m).bytes) == Decoded(m) <==>
              && WellFormed(m) && m.frame.timestamp != UnixNano(0)
              && m.options.topic == if m.kind == 3 then m.frame.topic else []
  {
    RoundTrip(m);
  }

  /** The fields of a message one after the other, texts with their length in front. */
  function LaidOut(m: Message, topic: Topic, nanos: Uint64): seq<Byte> {
    var f, o := m.frame, m.options;
    [1] + ([m.kind] + (PutUvarint(m.id) + (PutUvarint(m.subscriptionId) + (PutUvarint(m.ack) +
    (PutUvarint(f.sequence) + (PutUvarint(nanos) + ([f.reliability] + ([f.priority] +
    ((PutUvarint(|topic|) + topic) + ((PutUvarint(|f.payload|) + f.payload) +
    ([if o.prefix then 1 else 0] + (PutUvarint(AsUint64(o.buffer)) + ([o.overflow] +
    (PutUvarint(AsUint64(o.replay)) + (PutUvarint(o.since) +
    ((PutUvarint(|m.error|) + m.error) + []))))))))))))))))
  }

  /** The bytes of a message: version one, its kind and its fields, the time stamp with its sign in the lowest bit. */
  lemma Layout(m: Message)
    requires Encodable(m)
    ensures var topic := if m.kind == 3 && m.frame.topic == [] then m.options.topic else m.frame.topic;
            var nanos: Int64 := if m.frame.timestamp.ZeroTime? then 0 else m.frame.timestamp.nanos;
            Encode(m).bytes == LaidOut(m, topic, if nanos >= 0 then 2 * nanos else -2 * nanos - 1)
  {
  }

  /** Only a text above 1 MiB or a payload above 64 MiB keeps a message from being encoded. */
  lemma TooLargeExactly(m: Message)
    ensures var topic := if m.kind == 3 && m.frame.topic == [] then m.options.topic else m.frame.topic;
            Encode(m) == ErrTooLarge <==> |topic| > 1048576 || |m.frame.payload| > 67108864 || |m.error| > 1048576
  {
  }

  /** The prefix flag is set by a byte of one and by no other. */
  lemma PrefixByte(b: Byte, rest: seq<Byte>)
    requires ReadDelivery([b] + rest).Parsed?
    ensures ReadDelivery([b] + rest).value.prefix <==> b == 1
  {
  }

  /** What is not a message: nothing at all, another version, another kind. */
  lemma NoMessage(data: seq<Byte>)
    ensures Decode(data) == ErrVersion <==> data != [] && data[0] != 1
    ensures |data| < 2 ==> !Decode(data).Decoded?
    ensures |data| >= 2 && !(1 <= data[1] <= 9) ==> !Decode(data).Decoded?
  {
  }

  /** Every message that can come out of the decoder is well formed, normal, and survives re-encoding unchanged. */
  lemma DecodedIsFixedPoint(data: seq<Byte>)
    requires Decode(data).Decoded?
    ensures var m := Decode(data).message;
            && WellFormed(m) && Normal(m) == m
            && Encodable(m) && Decode(Encode(m).bytes) == Decoded(m)
  {
    RoundTrip(Decode(data).message);
  }

  /** Different normal forms have different encodings. */
  lemma EncodeIsInjectiveUpToNormalForm(a: Message, b: Message)
    requires Encodable(a) && Encodable(b) && WellFormed(a) && WellFormed(b)
    ensures Encode(a) == Encode(b) <==> Normal(a) == Normal(b)
  {
    RoundTrip(a);
    RoundTrip(b);
    NormalIsIdempotent(a);
    NormalIsIdempotent(b);
  }

  /** An encoding is never much longer than its variable parts. */
  lemma EncodedSize(m: Message)
    requires Encodable(m)
    ensures |Encode(m).bytes| <= MAX_PAYLOAD + 2 * MAX_TEXT + 126
  {
    var x := ToFields(m);
    UvarintLength(x.ids.id);
    UvarintLength(x.ids.subscriptionId);
    UvarintLength(x.ids.ack);
    UvarintLength(x.ids.sequence);
    UvarintLength(ZigZag(Nanos(x.traits.timestamp)));
    UvarintLength(|x.body.topic|);
    UvarintLength(|x.body.payload|);
    UvarintLength(AsUint64(x.delivery.buffer));
    UvarintLength(AsUint64(x.resumption.replay));
    UvarintLength(x.resumption.since);
    UvarintLength(|x.resumption.error|);
  }

  /** No byte sequence that decodes can be extended into, or cut down to, another one that decodes. */
  lemma DecodableIsPrefixFree(data: seq<Byte>, more: seq<Byte>)
    requires more != []
    ensures Decode(data).Decoded? ==> Decode(data + more) == ErrMessage
    ensures Decode(data + more).Decoded? ==> !Decode(data).Decoded?
  {
    if Decode(data).Decoded? {
      var longer := data + more;
      assert longer[0] == data[0] && longer[1] == data[1];
      assert longer[2..] == data[2..] + more;
      LeftOver(data[2..], more);
    }
  }

  lemma LeftOver(s: seq<Byte>, more: seq<Byte>)
    requires more != [] && ReadFields(s).Parsed? && ReadFields(s).rest == []
    ensures ReadFields(s + more).Parsed? && ReadFields(s + more).rest != []
  {
    FieldsLocal(s, more);
  }
}
