/**
  The wire format over byte buffers and streams: encoding appends to a buffer, decoding advances a cursor,
  and reliable streams carry length-delimited messages through writers that may accept fewer bytes than
  they are offered.
*/
module WireStreams {
  import opened Frames
  import opened Varints
  import opened WireFormat

  // ----- Encoding into a buffer -----

  class Buffer {
    var bytes: seq<Byte>
    ghost var todo: seq<Byte>

    constructor (ghost todo: seq<Byte>)
      ensures bytes == [] && this.todo == todo
    {
      bytes := [];
      this.todo := todo;
    }

    /** Appends the next field; `tail` is what is still to be written after it. */
    method Write(field: seq<Byte>, ghost tail: seq<Byte>)
      requires todo == field + tail
      modifies this
      ensures todo == tail && bytes + todo == old(bytes + todo)
    {
      assert bytes + (field + tail) == (bytes + field) + tail;
      bytes := bytes + field;
      todo := tail;
    }
  }

  method EncodeMessage(m: Message) returns (r: Encoding)
    ensures r == Encode(m)
  {
    var topic := m.frame.topic;
    if m.kind == MESSAGE_SUBSCRIBE && topic == [] {
      topic := m.options.topic;
    }
    if |topic| > MAX_TEXT || |m.frame.payload| > MAX_PAYLOAD || |m.error| > MAX_TEXT {
      return ErrTooLarge;
    }
    ghost var x := ToFields(m);
    ghost var resumption := PutResumption(x.resumption, []);
    ghost var delivery := PutDelivery(x.delivery, resumption);
    ghost var body := PutBody(x.body, delivery);
    ghost var traits := PutTraits(x.traits, body);
    ghost var ids := PutIds(x.ids, traits);
    ghost var whole := Encode(m).bytes;
    var out := new Buffer(whole);
    out.Write([WIRE_VERSION], [m.kind] + ids);
    out.Write([m.kind], ids);
    WriteIds(out, Ids(m.id, m.subscriptionId, m.ack, m.frame.sequence), traits);
    WriteTraits(out, Traits(m.frame.timestamp, m.frame.reliability, m.frame.priority), body);
    WriteBody(out, Body(topic, m.frame.payload), delivery);
    WriteDelivery(out, Delivery(m.options.prefix, m.options.buffer, m.options.overflow), resumption);
    WriteResumption(out, Resumption(m.options.replay, m.options.since, m.error));
    assert out.bytes + [] == out.bytes;
    return Encoded(out.bytes);
  }

  method WriteIds(out: Buffer, x: Ids, ghost tail: seq<Byte>)
    requires out.todo == PutIds(x, tail)
    modifies out
    ensures out.todo == tail && out.bytes + out.todo == old(out.bytes + out.todo)
  {
    ghost var t3 := PutUvarint(x.sequence) + tail;
    ghost var t2 := PutUvarint(x.ack) + t3;
    out.Write(PutUvarint(x.id), PutUvarint(x.subscriptionId) + t2);
    out.Write(PutUvarint(x.subscriptionId), t2);
    out.Write(PutUvarint(x.ack), t3);
    out.Write(PutUvarint(x.sequence), tail);
  }

  method WriteTraits(out: Buffer, x: Traits, ghost tail: seq<Byte>)
    requires out.todo == PutTraits(x, tail)
    modifies out
    ensures out.todo == tail && out.bytes + out.todo == old(out.bytes + out.todo)
  {
    var timestamp: Int64 := 0;
    if !x.timestamp.ZeroTime? {
      timestamp := x.timestamp.nanos;
    }
    out.Write(PutVarint(timestamp), [x.reliability] + ([x.priority] + tail));
    out.Write([x.reliability], [x.priority] + tail);
    out.Write([x.priority], tail);
  }

  method WriteBody(out: Buffer, x: Body, ghost tail: seq<Byte>)
    requires out.todo == PutBody(x, tail)
    modifies out
    ensures out.todo == tail && out.bytes + out.todo == old(out.bytes + out.todo)
  {
    out.Write(PutBytes(x.topic), PutBytes(x.payload) + tail);
    out.Write(PutBytes(x.payload), tail);
  }

  method WriteDelivery(out: Buffer, x: Delivery, ghost tail: seq<Byte>)
    requires out.todo == PutDelivery(x, tail)
    modifies out
    ensures out.todo == tail && out.bytes + out.todo == old(out.bytes + out.todo)
  {
    ghost var t2 := [x.overflow] + tail;
    if x.prefix {
      out.Write([1], PutUvarint(AsUint64(x.buffer)) + t2);
    } else {
      out.Write([0], PutUvarint(AsUint64(x.buffer)) + t2);
    }
    out.Write(PutUvarint(AsUint64(x.buffer)), t2);
    out.Write([x.overflow], tail);
  }

  method WriteResumption(out: Buffer, x: Resumption)
    requires out.todo == PutResumption(x, [])
    modifies out
    ensures out.todo == [] && out.bytes + out.todo == old(out.bytes + out.todo)
  {
    ghost var t2 := PutBytes(x.error) + [];
    out.Write(PutUvarint(AsUint64(x.replay)), PutUvarint(x.since) + t2);
    out.Write(PutUvarint(x.since), t2);
    out.Write(PutBytes(x.error), []);
  }

  // ----- Length-delimited streams -----

  const DEFAULT_MAXIMUM: nat := 0x400_0000 // 64 << 20

  /** `NewReader`: a non-positive maximum means the default. */
  function ReaderMaximum(maximum: int): (r: nat)
    ensures maximum > 0 ==> r == maximum
    ensures maximum <= 0 ==> r == 67108864
  {
    if maximum <= 0 then DEFAULT_MAXIMUM else maximum
  }

  /** A message as it appears on a reliable stream; one that does not encode is not sent. */
  function Framed(m: Message): seq<Byte> {
    if Encodable(m) then PutBytes(Encode(m).bytes) else []
  }

  datatype ReadResult = Received(message: Message, rest: seq<Byte>) | ReadError

  /** `ReadMessage` on the bytes of a stream. */
  function ReadFramed(stream: seq<Byte>, maximum: nat): (r: ReadResult)
    ensures r.Received? ==> |r.rest| < |stream|
  {
    match ReadUvarint(stream)
    case Malformed => ReadError
    case Parsed(size, rest) =>
      if size > maximum || size > |rest| then ReadError
      else
        match Decode(rest[..size])
        case Decoded(m) => Received(m, rest[size..])
        case _ => ReadError
  }

  /** A framed message is read back in normal form exactly when it is well formed and within the maximum. */
  lemma FramedRoundTrip(m: Message, maximum: nat, tail: seq<Byte>)
    requires Encodable(m)
    ensures ReadFramed(Framed(m) + tail, maximum) ==
            if WellFormed(m) && |Encode(m).bytes| <= maximum then Received(Normal(m), tail) else ReadError
  {
    var data := Encode(m).bytes;
    EncodedSize(m);
    assert Framed(m) + tail == PutUvarint(|data|) + (data + tail);
    UvarintRoundTrip(|data|, data + tail);
    assert (data + tail)[..|data|] == data;
    assert (data + tail)[|data|..] == tail;
    RoundTrip(m);
  }

  predicate Sendable(m: Message, maximum: nat) {
    Encodable(m) && WellFormed(m) && |Encode(m).bytes| <= maximum
  }

  /** What a stream holds after writing the messages in order. */
  function Written(messages: seq<Message>): seq<Byte> {
    if messages == [] then [] else Framed(messages[0]) + Written(messages[1..])
  }

  /** Up to `count` messages read off a stream, in order, and what is left of it. */
  function ReadMany(stream: seq<Byte>, maximum: nat, count: nat): (seq<Message>, seq<Byte>)
    decreases count
  {
    if count == 0 then ([], stream)
    else
      match ReadFramed(stream, maximum)
      case ReadError => ([], stream)
      case Received(m, rest) =>
        var (more, left) := ReadMany(rest, maximum, count - 1);
        ([m] + more, left)
  }

  function NormalAll(messages: seq<Message>): seq<Message> {
    if messages == [] then [] else [Normal(messages[0])] + NormalAll(messages[1..])
  }

  /** Framing is lossless: any list of messages is read back in order, and the stream after it is untouched. */
  lemma {:induction false} FramingIsLossless(messages: seq<Message>, maximum: nat, tail: seq<Byte>)
    requires forall m :: m in messages ==> Sendable(m, maximum)
    ensures ReadMany(Written(messages) + tail, maximum, |messages|) == (NormalAll(messages), tail)
  {
    if messages == [] {
      assert Written(messages) + tail == tail;
    } else {
      var first, rest := messages[0], messages[1..];
      var stream := Written(rest) + tail;
      assert Sendable(first, maximum);
      assert Written(messages) + tail == Framed(first) + stream;
      FramedRoundTrip(first, maximum, stream);
      FramingIsLossless(rest, maximum, tail);
    }
  }

  datatype WriteError = WriteOk | WriterFailed | ShortWrite | EncodeFailed

  /** What a call of `Write` answered. */
  datatype Answer = Answer(taken: nat, failed: bool)

  predicate Went(a: Answer) {
    a.taken > 0 && !a.failed
  }

  /** An `io.Writer` that may take fewer bytes than offered, or fail after taking some. */
  class Writer {
    var written: seq<Byte>
    ghost var answers: seq<Answer>

    constructor ()
      ensures written == [] && answers == []
    {
      written, answers := [], [];
    }

    method Write(data: seq<Byte>) returns (n: nat, failed: bool)
      modifies this
      ensures n <= |data| && written == old(written) + data[..n]
      ensures answers == old(answers) + [Answer(n, failed)]
    {
      n :| 0 <= n <= |data|;
      failed :| failed || !failed;
      written, answers := written + data[..n], answers + [Answer(n, failed)];
    }
  }

  /** The error that a number of calls ended with: nothing is tried after a failure or a call that took nothing. */
  ghost predicate EndedWith(before: seq<Answer>, after: seq<Answer>, err: WriteError) {
    && before <= after
    && (forall i :: |before| <= i < |after| - 1 ==> Went(after[i]))
    && (err == WriteOk <==> after == before || Went(after[|after| - 1]))
    && (err == WriterFailed <==> after != before && after[|after| - 1].failed)
    && (err == ShortWrite <==> after != before && after[|after| - 1] == Answer(0, false))
  }

  lemma EndedMore(a: seq<Answer>, b: seq<Answer>, c: seq<Answer>, err: WriteError)
    requires EndedWith(a, b, WriteOk) && EndedWith(b, c, err)
    ensures EndedWith(a, c, err)
  {
  }

  /** `writeAll`: everything is written if every call takes something and none fails, otherwise a prefix. */
  method WriteAll(writer: Writer, data: seq<Byte>) returns (err: WriteError, ghost taken: nat)
    modifies writer
    ensures taken <= |data| && writer.written == old(writer.written) + data[..taken]
    ensures err == WriteOk ==> taken == |data|
    ensures err != EncodeFailed && EndedWith(old(writer.answers), writer.answers, err)
  {
    var left := data;
    taken := 0;
    while |left| > 0
      invariant taken <= |data| && left == data[taken..]
      invariant writer.written == old(writer.written) + data[..taken]
      invariant EndedWith(old(writer.answers), writer.answers, WriteOk)
      decreases |left|
    {
      var n, failed := writer.Write(left);
      assert data[..taken] + left[..n] == data[..taken + n];
      taken := taken + n;
      if failed {
        return WriterFailed, taken;
      }
      if n <= 0 {
        return ShortWrite, taken;
      }
      left := left[n..];
    }
    err := WriteOk;
  }

  /** `WriteMessage`: success appends exactly the framed message, failure a part of it. */
  method WriteMessage(writer: Writer, m: Message) returns (err: WriteError)
    modifies writer
    ensures err == EncodeFailed <==> !Encodable(m)
    ensures err == EncodeFailed ==> writer.written == old(writer.written) && writer.answers == old(writer.answers)
    ensures Encodable(m) ==>
              && writer.written <= old(writer.written) + Framed(m)
              && EndedWith(old(writer.answers), writer.answers, err)
    ensures err == WriteOk ==> writer.written == old(writer.written) + Framed(m)
  {
    var encoding := EncodeMessage(m);
    if encoding.ErrTooLarge? {
      return EncodeFailed;
    }
    err := WriteParts(writer, PutUvarint(|encoding.bytes|), encoding.bytes);
  }

  method WriteParts(writer: Writer, prefix: seq<Byte>, data: seq<Byte>) returns (err: WriteError)
    modifies writer
    ensures err != EncodeFailed && EndedWith(old(writer.answers), writer.answers, err)
    ensures writer.written <= old(writer.written) + (prefix + data)
    ensures err == WriteOk ==> writer.written == old(writer.written) + (prefix + data)
  {
    ghost var start, taken := writer.written, 0;
    err, taken := WriteAll(writer, prefix);
    assert prefix[..taken] <= prefix + data;
    if err != WriteOk {
      return;
    }
    assert prefix[..taken] == prefix;
    ghost var between := writer.answers;
    err, taken := WriteAll(writer, data);
    EndedMore(old(writer.answers), between, writer.answers, err);
    assert start + prefix + data[..taken] == start + (prefix + data[..taken]);
    assert start + (prefix + data[..taken]) <= start + (prefix + data);
    assert err == WriteOk ==> data[..taken] == data;
  }

  /** Writing a list stops at the first failure; success leaves the framed list on the stream. */
  method WriteMessages(writer: Writer, messages: seq<Message>) returns (err: WriteError)
    modifies writer
    ensures err == WriteOk ==> writer.written == old(writer.written) + Written(messages)
    ensures (forall m :: m in messages ==> Encodable(m)) ==> EndedWith(old(writer.answers), writer.answers, err)
  {
    if messages == [] {
      assert writer.written + [] == writer.written;
      return WriteOk;
    }
    Append(writer.written, Framed(messages[0]), Written(messages[1..]));
    err := WriteMessage(writer, messages[0]);
    if err == WriteOk {
      ghost var between := writer.answers;
      err := WriteMessages(writer, messages[1..]);
      if forall m :: m in messages ==> Encodable(m) {
        EndedMore(old(writer.answers), between, writer.answers, err);
      }
    }
  }

  lemma Append(a: seq<Byte>, b: seq<Byte>, c: seq<Byte>)
    ensures a + b + c == a + (b + c)
  {
  }

  // ----- Decoding with a cursor -----

  /** `bytes.Reader`: what is left of the input. */
  class Cursor {
    var left: seq<Byte>

    constructor (data: seq<Byte>)
      ensures left == data
    {
      left := data;
    }

    method TakeByte() returns (value: Byte, ok: bool)
      modifies this
      ensures ok == ReadByte(old(left)).Parsed?
      ensures ok ==> Parsed(value, left) == ReadByte(old(left))
    {
      if left == [] {
        return 0, false;
      }
      value, left, ok := left[0], left[1..], true;
    }

    method TakeUvarint() returns (value: Uint64, ok: bool)
      modifies this
      ensures ok == ReadUvarint(old(left)).Parsed?
      ensures ok ==> Parsed(value, left) == ReadUvarint(old(left))
    {
      var p := ReadUvarint(left);
      if p.Malformed? {
        return 0, false;
      }
      value, left, ok := p.value, p.rest, true;
    }

    method TakeBytes(maximum: nat) returns (value: seq<Byte>, ok: bool)
      modifies this
      ensures ok == ReadBytes(old(left), maximum).Parsed?
      ensures ok ==> Parsed(value, left) == ReadBytes(old(left), maximum)
    {
      var size, read := TakeUvarint();
      if !read || size > maximum || size > |left| {
        return [], false;
      }
      if size == 0 {
        return [], true;
      }
      value, left, ok := left[..size], left[size..], true;
    }
  }

  method DecodeMessage(data: seq<Byte>) returns (r: Decoding)
    ensures r == Decode(data)
  {
    var reader := new Cursor(data);
    var version, ok := reader.TakeByte();
    if !ok {
      return ErrMessage;
    }
    if version != WIRE_VERSION {
      return ErrVersion;
    }
    var kind;
    kind, ok := reader.TakeByte();
    if !ok || kind < MESSAGE_DATA || kind > MESSAGE_PONG {
      return ErrMessage;
    }
    assert reader.left == data[2..];
    var fields, parsed := DecodeFields(reader);
    if !parsed || |reader.left| != 0 {
      return ErrMessage;
    }
    return Decoded(FromFields(kind, fields));
  }

  method DecodeFields(reader: Cursor) returns (x: Fields, ok: bool)
    modifies reader
    ensures ok == ReadFields(old(reader.left)).Parsed?
    ensures ok ==> Parsed(x, reader.left) == ReadFields(old(reader.left))
  {
    x := Fields(Ids(0, 0, 0, 0), Traits(ZeroTime, 0, 0), Body([], []), Delivery(false, 0, 0), Resumption(0, 0, []));
    var ids, traits, body, delivery, resumption;
    ids, ok := DecodeIds(reader);
    if !ok {
      return;
    }
    traits, ok := DecodeTraits(reader);
    if !ok {
      return;
    }
    body, ok := DecodeBody(reader);
    if !ok {
      return;
    }
    delivery, ok := DecodeDelivery(reader);
    if !ok {
      return;
    }
    resumption, ok := DecodeResumption(reader);
    x := Fields(ids, traits, body, delivery, resumption);
  }

  method DecodeIds(reader: Cursor) returns (x: Ids, ok: bool)
    modifies reader
    ensures ok == ReadIds(old(reader.left)).Parsed?
    ensures ok ==> Parsed(x, reader.left) == ReadIds(old(reader.left))
  {
    x := Ids(0, 0, 0, 0);
    var id, subscriptionId, ack, sequence;
    id, ok := reader.TakeUvarint();
    if !ok {
      return;
    }
    subscriptionId, ok := reader.TakeUvarint();
    if !ok {
      return;
    }
    ack, ok := reader.TakeUvarint();
    if !ok {
      return;
    }
    sequence, ok := reader.TakeUvarint();
    x := Ids(id, subscriptionId, ack, sequence);
  }

  method DecodeTraits(reader: Cursor) returns (x: Traits, ok: bool)
    modifies reader
    ensures ok == ReadTraits(old(reader.left)).Parsed?
    ensures ok ==> Parsed(x, reader.left) == ReadTraits(old(reader.left))
  {
    x := Traits(ZeroTime, 0, 0);
    var zigzag, reliability, priority;
    zigzag, ok := reader.TakeUvarint();
    if !ok {
      return;
    }
    var timestamp := UnZigZag(zigzag);
    reliability, ok := reader.TakeByte();
    if !ok || reliability > UNRELIABLE {
      return x, false;
    }
    priority, ok := reader.TakeByte();
    if !ok || priority > PRIORITY_CRITICAL {
      return x, false;
    }
    x := Traits(if timestamp != 0 then UnixNano(timestamp) else ZeroTime, reliability, priority);
  }

  method DecodeBody(reader: Cursor) returns (x: Body, ok: bool)
    modifies reader
    ensures ok == ReadBody(old(reader.left)).Parsed?
    ensures ok ==> Parsed(x, reader.left) == ReadBody(old(reader.left))
  {
    x := Body([], []);
    var topic, payload;
    topic, ok := reader.TakeBytes(MAX_TEXT);
    if !ok {
      return;
    }
    payload, ok := reader.TakeBytes(MAX_PAYLOAD);
    x := Body(topic, payload);
  }

  method DecodeDelivery(reader: Cursor) returns (x: Delivery, ok: bool)
    modifies reader
    ensures ok == ReadDelivery(old(reader.left)).Parsed?
    ensures ok ==> Parsed(x, reader.left) == ReadDelivery(old(reader.left))
  {
    x := Delivery(false, 0, 0);
    var prefix, buffer, overflow;
    prefix, ok := reader.TakeByte();
    if !ok {
      return;
    }
    buffer, ok := reader.TakeUvarint();
    if !ok || buffer > MAX_INT {
      return x, false;
    }
    overflow, ok := reader.TakeByte();
    if !ok || overflow > LATEST_ONLY {
      return x, false;
    }
    x := Delivery(prefix == 1, buffer, overflow);
  }

  method DecodeResumption(reader: Cursor) returns (x: Resumption, ok: bool)
    modifies reader
    ensures ok == ReadResumption(old(reader.left)).Parsed?
    ensures ok ==> Parsed(x, reader.left) == ReadResumption(old(reader.left))
  {
    x := Resumption(0, 0, []);
    var replay, since, error;
    replay, ok := reader.TakeUvarint();
    if !ok || replay > MAX_INT {
      return x, false;
    }
    since, ok := reader.TakeUvarint();
    if !ok {
      return;
    }
    error, ok := reader.TakeBytes(MAX_TEXT);
    x := Resumption(replay, since, error);
  }

  /** `ReadMessage` on a buffered stream. */
  method ReadMessage(stream: Cursor, maximum: int) returns (m: Decoding, ok: bool)
    modifies stream
    ensures ok == ReadFramed(old(stream.left), ReaderMaximum(maximum)).Received?
    ensures ok ==>
              && m.Decoded?
              && Received(m.message, stream.left) == ReadFramed(old(stream.left), ReaderMaximum(maximum))
  {
    var size, read := stream.TakeUvarint();
    if !read || size > ReaderMaximum(maximum) || size > |stream.left| {
      return ErrMessage, false;
    }
    var data := stream.left[..size];
    stream.left := stream.left[size..];
    m := DecodeMessage(data);
    ok := m.Decoded?;
  }
}
