/** Frames, topics and subscription options of the StreamBus. */
module Frames {

  type Byte = n: int | 0 <= n < 0x100

  type Uint64 = n: int | 0 <= n < 0x1_0000_0000_0000_0000

  type Int64 = n: int | -0x8000_0000_0000_0000 <= n < 0x8000_0000_0000_0000

  type Topic = seq<Byte>

  /** A time stamp: the zero time, or an instant that `UnixNano` can represent. */
  datatype Timestamp = ZeroTime | UnixNano(nanos: Int64)

  datatype Frame = Frame(
    sequence: Uint64,
    timestamp: Timestamp,
    topic: Topic,
    payload: seq<Byte>,
    reliability: Byte,
    priority: Byte)

  datatype SubscribeOptions = SubscribeOptions(
    topic: Topic,
    prefix: bool,
    buffer: Int64,
    overflow: Byte,
    replay: Int64,
    since: Uint64)

  const ZERO_FRAME := Frame(0, ZeroTime, [], [], 0, 0)

  const PRIORITY_BULK: Byte := 0
  const PRIORITY_NORMAL: Byte := 1
  const PRIORITY_CRITICAL: Byte := 3

  const UNRELIABLE: Byte := 1

  /** `OverflowPolicy`: every value outside the three dropping policies blocks. */
  const DROP_NEWEST: Byte := 1
  const DROP_OLDEST: Byte := 2
  const LATEST_ONLY: Byte := 3

  /** The priority class a frame is queued under; an out-of-range priority counts as normal. */
  function Class(f: Frame): (c: nat)
    ensures c < 4
    ensures f.priority < 4 ==> c == f.priority
    ensures f.priority >= 4 ==> c == 1
  {
    if PRIORITY_BULK <= f.priority <= PRIORITY_CRITICAL then f.priority else PRIORITY_NORMAL
  }

  /** Frames in strictly increasing sequence order. */
  predicate Increasing(s: seq<Frame>) {
    forall i, j :: 0 <= i < j < |s| ==> s[i].sequence < s[j].sequence
  }
}
