/**
  The in-memory StreamBus: publishing journals a frame and selects its subscribers, subscribing
  replays from the journal and registers, both under the bus lock.
*/
module StreamBus {
  import opened Frames
  import opened Sequences
  import opened QueueLog
  import opened Subscriptions
  import opened ReplayBuffers
  import opened Routing

  datatype Config = Config(defaultBuffer: Int64, maxBuffer: Int64, replayCapacity: Int64, maxPayloadBytes: Int64)

  function Normalized(c: Config): (r: Config)
    ensures 0 < r.defaultBuffer <= r.maxBuffer
    ensures r.maxPayloadBytes > 0 && r.replayCapacity == c.replayCapacity
    ensures r.maxBuffer == (if c.maxBuffer > 0 then c.maxBuffer else 4096)
    ensures r.maxPayloadBytes == (if c.maxPayloadBytes > 0 then c.maxPayloadBytes else 16777216)
    ensures r.defaultBuffer == r.maxBuffer || r.defaultBuffer == if c.defaultBuffer > 0 then c.defaultBuffer else 64
    ensures (if c.defaultBuffer > 0 then c.defaultBuffer else 64) <= r.maxBuffer ==>
              r.defaultBuffer == if c.defaultBuffer > 0 then c.defaultBuffer else 64
  {
    var defaultBuffer := if c.defaultBuffer <= 0 then 64 else c.defaultBuffer;
    var maxBuffer := if c.maxBuffer <= 0 then 4096 else c.maxBuffer;
    Config(
      if defaultBuffer > maxBuffer then maxBuffer else defaultBuffer,
      maxBuffer,
      c.replayCapacity,
      if c.maxPayloadBytes <= 0 then 0x100_0000 else c.maxPayloadBytes)
  }

  lemma NormalizedOnce(c: Config)
    ensures Normalized(Normalized(c)) == Normalized(c)
  {
  }

  datatype Error =
    | ErrNone
    | ErrContext
    | ErrClosed
    | ErrInvalidTopic
    | ErrPayloadTooLarge
    | ErrInvalidBuffer
    | ErrReplayUnavailable

  /** The options a subscription runs with. */
  function Effective(o: SubscribeOptions, config: Config): SubscribeOptions {
    var buffer := if o.buffer == 0 then config.defaultBuffer else o.buffer;
    var replay := if o.replay < 0 || o.prefix then 0 else o.replay;
    o.(buffer := buffer, replay := replay, since := if o.prefix then 0 else o.since)
  }

  /** The checks before the bus lock is taken. */
  function SubscribeCheck(o: SubscribeOptions, config: Config, cancelled: bool): Error {
    if o.topic == [] then ErrInvalidTopic
    else if !(1 <= Effective(o, config).buffer <= config.maxBuffer) then ErrInvalidBuffer
    else if cancelled then ErrContext
    else ErrNone
  }

  /** What the journal answers to a subscription, or that the answer is unavailable. */
  datatype Replay = Replayed(frames: seq<Frame>) | Unavailable

  /** The replay decision under the bus lock; `history` is everything published on the topic. */
  function ReplayFor(history: seq<Frame>, o: SubscribeOptions, capacity: int): Replay {
    if capacity > 0 && history != [] then
      if o.since > 0 then
        var r := After(Retained(history, capacity), capacity, o.since);
        if r.gap || |r.frames| > o.buffer then Unavailable else Replayed(r.frames)
      else if o.replay > 0 then Replayed(Last(Retained(history, capacity), o.replay))
      else Replayed([])
    else if o.since > 0 && capacity == 0 then Unavailable
    else Replayed([])
  }

  // ----- What a subscriber gets for what it asked -----

  /** The options of a granted subscription: a resume or a replay is dropped for prefixes only. */
  ghost predicate OptionsAsked(o: SubscribeOptions, input: SubscribeOptions, config: Config) {
    && o.topic == input.topic && o.prefix == input.prefix && o.overflow == input.overflow
    && o.buffer == (if input.buffer == 0 then config.defaultBuffer else input.buffer)
    && (input.prefix ==> o.since == 0 && o.replay == 0)
    && (!input.prefix ==> o.since == input.since && o.replay == if input.replay < 0 then 0 else input.replay)
  }

  /** How many frames a replay request brings back. */
  function Available(asked: int, capacity: int, published: nat): (n: nat)
    requires asked > 0 && capacity > 0
    ensures n <= asked && n <= capacity && n <= published && (n == asked || n == capacity || n == published)
  {
    if asked <= capacity && asked <= published then asked else if capacity <= published then capacity else published
  }

  /** What a granted subscription starts with, in terms of what was asked and what was published on the topic. */
  ghost predicate QueueAsked(log: Log, input: SubscribeOptions, buffer: nat, capacity: int, published: seq<Frame>) {
    if input.prefix || capacity <= 0 || (input.since == 0 && input.replay <= 0) then
      log.queue == [] && log.accepted == [] && log.Dropped() == 0
    else if input.since > 0 then
      && log.Dropped() == 0
      && (Increasing(published) ==> log.queue == Filter(published, NewerThan(input.since)))
    else
      var n := Available(input.replay, capacity, |published|);
      && log.accepted == published[|published| - n..]
      && (if n <= buffer then log.queue == log.accepted && log.Dropped() == 0
          else |log.queue| == buffer && log.Dropped() == n - buffer)
  }

  /** Why a checked subscription to an open bus can still be refused: a resume that cannot be served. */
  ghost predicate ResumeImpossible(input: SubscribeOptions, buffer: nat, capacity: int, published: seq<Frame>) {
    && !input.prefix && input.since > 0
    && (|| capacity == 0
        || (capacity > 0 && published != [] &&
            (|| (capacity <= |published| && input.since < published[|published| - capacity].sequence)
             || |Filter(Retained(published, capacity), NewerThan(input.since))| > buffer)))
  }

  /** Which error a subscription gets, in the order of the checks. */
  ghost predicate ErrorAsked(
    err: Error, input: SubscribeOptions, config: Config, cancelled: bool, closed: bool, published: seq<Frame>)
  {
    var buffer := if input.buffer == 0 then config.defaultBuffer else input.buffer;
    if input.topic == [] then err == ErrInvalidTopic
    else if !(1 <= buffer <= config.maxBuffer) then err == ErrInvalidBuffer
    else if cancelled then err == ErrContext
    else if closed then err == ErrClosed
    else if ResumeImpossible(input, buffer, config.replayCapacity, published) then err == ErrReplayUnavailable
    else err == ErrNone
  }

  lemma EffectiveAsked(input: SubscribeOptions, config: Config)
    ensures OptionsAsked(Effective(input, config), input, config)
  {
  }

  lemma RefusedExactly(input: SubscribeOptions, config: Config, published: seq<Frame>)
    requires 1 <= Effective(input, config).buffer
    ensures var o := Effective(input, config);
            ReplayFor(published, o, config.replayCapacity).Unavailable? <==>
              ResumeImpossible(input, o.buffer, config.replayCapacity, published)
  {
    if config.replayCapacity > 0 {
      GapExactly(published, config.replayCapacity, input.since);
    }
  }

  lemma VerdictAsked(
    err: Error, input: SubscribeOptions, config: Config, cancelled: bool, closed: bool, published: seq<Frame>)
    requires var check := SubscribeCheck(input, config, cancelled);
             && (check != ErrNone ==> err == check)
             && (check == ErrNone && closed ==> err == ErrClosed)
             && (check == ErrNone && !closed ==>
                   err == match ReplayFor(published, Effective(input, config), config.replayCapacity)
                          case Unavailable => ErrReplayUnavailable
                          case Replayed(_) => ErrNone)
    ensures ErrorAsked(err, input, config, cancelled, closed, published)
  {
    if 1 <= Effective(input, config).buffer {
      RefusedExactly(input, config, published);
    }
  }

  lemma AvailableIs(asked: int, capacity: int, published: nat, n: nat)
    requires asked > 0 && capacity > 0
    requires n <= asked && n <= capacity && n <= published && (n == asked || n == capacity || n == published)
    ensures n == Available(asked, capacity, published)
  {
  }

  /** A fresh queue after loading `frames`: all are accepted, and what does not fit is dropped. */
  ghost predicate Loaded(log: Log, buffer: nat, frames: seq<Frame>) {
    && log.accepted == frames
    && (if |frames| <= buffer then log.queue == frames && log.Dropped() == 0
        else |log.queue| == buffer && log.Dropped() == |frames| - buffer)
  }

  /** The last published frames, as many as asked for, retained and published. */
  ghost predicate LatestOf(frames: seq<Frame>, published: seq<Frame>, asked: int, capacity: int) {
    && |frames| <= |published| && frames == published[|published| - |frames|..]
    && |frames| <= asked && |frames| <= capacity
    && (|frames| == asked || |frames| == capacity || |frames| == |published|)
  }

  lemma ReplayFrames(o: SubscribeOptions, capacity: int, published: seq<Frame>)
    requires capacity > 0 && o.since == 0 && o.replay > 0
    ensures ReplayFor(published, o, capacity).Replayed?
    ensures LatestOf(ReplayFor(published, o, capacity).frames, published, o.replay, capacity)
  {
    LastIsTail(published, capacity, o.replay);
  }

  lemma ReplayLoaded(
    log: Log, input: SubscribeOptions, buffer: nat, capacity: int, published: seq<Frame>, frames: seq<Frame>)
    requires !input.prefix && capacity > 0 && input.since == 0 && input.replay > 0
    requires LatestOf(frames, published, input.replay, capacity) && Loaded(log, buffer, frames)
    ensures QueueAsked(log, input, buffer, capacity, published)
  {
    AvailableIs(input.replay, capacity, |published|, |frames|);
  }

  lemma ReplayAsked(input: SubscribeOptions, o: SubscribeOptions, capacity: int, published: seq<Frame>)
    requires !input.prefix && capacity > 0 && input.since == o.since == 0 && input.replay == o.replay > 0
    requires 1 <= o.buffer
    ensures ReplayFor(published, o, capacity).Replayed?
    ensures var frames := ReplayFor(published, o, capacity).frames;
            QueueAsked(AdmitAll(Empty(o.buffer), frames), input, o.buffer, capacity, published)
  {
    ReplayFrames(o, capacity, published);
    var frames := ReplayFor(published, o, capacity).frames;
    FreshPreload(o.buffer, frames);
    ReplayLoaded(AdmitAll(Empty(o.buffer), frames), input, o.buffer, capacity, published, frames);
  }

  lemma ResumeAsked(input: SubscribeOptions, o: SubscribeOptions, capacity: int, published: seq<Frame>)
    requires !input.prefix && capacity > 0 && input.since == o.since > 0 && 1 <= o.buffer
    requires ReplayFor(published, o, capacity).Replayed?
    ensures var frames := ReplayFor(published, o, capacity).frames;
            QueueAsked(AdmitAll(Empty(o.buffer), frames), input, o.buffer, capacity, published)
  {
    var frames := ReplayFor(published, o, capacity).frames;
    FreshPreload(o.buffer, frames);
    if Increasing(published) {
      GrantedResumeIsComplete(published, o, capacity);
    }
  }

  lemma NothingAsked(input: SubscribeOptions, o: SubscribeOptions, capacity: int, published: seq<Frame>)
    requires input.prefix || capacity <= 0 || (input.since == 0 && input.replay <= 0)
    requires 1 <= o.buffer && ReplayFor(published, o, capacity) == Replayed([])
    ensures QueueAsked(AdmitAll(Empty(o.buffer), []), input, o.buffer, capacity, published)
  {
    FreshPreload(o.buffer, []);
  }

  lemma GrantedAsAsked(input: SubscribeOptions, config: Config, published: seq<Frame>)
    requires 1 <= Effective(input, config).buffer
    requires ReplayFor(published, Effective(input, config), config.replayCapacity).Replayed?
    ensures var o := Effective(input, config);
            var frames := ReplayFor(published, o, config.replayCapacity).frames;
            QueueAsked(AdmitAll(Empty(o.buffer), frames), input, o.buffer, config.replayCapacity, published)
  {
    var o, capacity := Effective(input, config), config.replayCapacity;
    if input.prefix || capacity <= 0 || (input.since == 0 && input.replay <= 0) {
      NothingAsked(input, o, capacity, published);
    } else if input.since > 0 {
      ResumeAsked(input, o, capacity, published);
    } else {
      ReplayAsked(input, o, capacity, published);
    }
  }

  lemma FreshPreload(buffer: nat, frames: seq<Frame>)
    requires buffer >= 1
    ensures Loaded(AdmitAll(Empty(buffer), frames), buffer, frames)
  {
    AdmitAllCounts(Empty(buffer), frames);
    AdmitAllFacts(Empty(buffer), frames);
    assert [] + frames == frames;
    if |frames| <= buffer {
      FreshPreloadFits(buffer, frames);
    }
  }

  lemma FreshPreloadFits(buffer: nat, frames: seq<Frame>)
    requires buffer >= 1 && |frames| <= buffer
    ensures var log := AdmitAll(Empty(buffer), frames);
            log.queue == frames && log.Dropped() == 0 && log.Enqueued() == |frames|
  {
    var start := Empty(buffer);
    AdmitAllFits(start, frames);
    AdmitAllFacts(start, frames);
    FreshLoad(start, AdmitAll(start, frames), frames);
  }

  lemma FreshLoad(start: Log, log: Log, frames: seq<Frame>)
    requires Loads(start, log, frames) && log.queue == start.queue + frames && log.evicted == start.evicted
    requires start.queue == [] && start.accepted == [] && start.refused == [] && start.evicted == []
    ensures log.queue == frames && log.Dropped() == 0 && log.Enqueued() == |frames|
  {
    assert [] + frames == frames;
  }

  /**
    A resume that is granted on a bus with a journal replays every frame of the topic newer than `since`,
    and all of them fit into the buffer of the new subscription.
  */
  lemma GrantedResumeIsComplete(history: seq<Frame>, o: SubscribeOptions, capacity: int)
    requires o.since > 0 && Increasing(history) && 1 <= o.buffer
    requires ReplayFor(history, o, capacity).Replayed?
    ensures capacity > 0 ==> ReplayFor(history, o, capacity).frames == Filter(history, NewerThan(o.since))
    ensures var frames := ReplayFor(history, o, capacity).frames;
            var log := AdmitAll(Empty(o.buffer), frames);
            log.queue == frames && log.Dropped() == 0 && log.Enqueued() == |frames|
  {
    var frames := ReplayFor(history, o, capacity).frames;
    if capacity > 0 && history != [] {
      ResumeComplete(history, capacity, o.since);
    }
    FreshPreloadFits(o.buffer, frames);
  }

  /**
    A negative `ReplayCapacity` keeps no journal but is not refused either, so such a bus grants every
    resume; the replay is complete exactly when nothing newer was published.
  */
  lemma NegativeCapacityResume(history: seq<Frame>, o: SubscribeOptions, capacity: int)
    requires o.since > 0 && capacity < 0
    ensures ReplayFor(history, o, capacity) == Replayed([])
    ensures ReplayFor(history, o, capacity).frames == Filter(history, NewerThan(o.since)) <==>
            forall f :: f in history ==> f.sequence <= o.since
  {
    if forall f :: f in history ==> f.sequence <= o.since {
      FilterNone(history, NewerThan(o.since));
    } else {
      var f :| f in history && f.sequence > o.since;
      FilterMember(history, NewerThan(o.since), f);
    }
  }

  /** The replay journals, one per topic that was published on. */
  class Journals {
    const capacity: Int64
    var replay: map<Topic, ReplayBuffer>
    ghost var published: map<Topic, seq<Frame>>
    ghost var buffers: map<ReplayBuffer, Topic>
    ghost var slots: map<array<Frame>, Topic>

    ghost function Published(topic: Topic): seq<Frame>
      reads this`published
    {
      if topic in published then published[topic] else []
    }

    /** The journal of a topic, and its slots, belong to that topic only. */
    ghost predicate Owns(topic: Topic)
      requires topic in replay
      reads this
    {
      var journal := replay[topic];
      && journal in buffers && buffers[journal] == topic
      && journal.frames in slots && slots[journal.frames] == topic
    }

    ghost predicate JournalOf(topic: Topic)
      requires topic in replay
      reads this, buffers.Keys, slots.Keys
    {
      Owns(topic) && Keeps(replay[topic], Published(topic))
    }

    /** The journal has recorded `history`. */
    ghost predicate Keeps(journal: ReplayBuffer, history: seq<Frame>)
      reads journal, journal.frames
    {
      journal.frames.Length == capacity && journal.history == history && journal.Valid()
    }

    ghost predicate Valid()
      reads this, buffers.Keys, slots.Keys
    {
      && (capacity <= 0 ==> replay == map[])
      && (capacity > 0 ==> forall t :: t in replay <==> t in published)
      && (forall t :: t in published ==> published[t] != [])
      && (forall t :: t in replay ==> JournalOf(t))
    }

    constructor (capacity: Int64)
      ensures Valid() && this.capacity == capacity && published == map[]
      ensures buffers == map[] && slots == map[]
    {
      this.capacity := capacity;
      replay, published := map[], map[];
      buffers, slots := map[], map[];
    }

    /** Appends to the topic's journal, creating it with its first frame. */
    method Add(frame: Frame)
      requires Valid()
      modifies this, buffers.Keys, slots.Keys
      ensures Valid()
      ensures published == old(published)[frame.topic := old(Published(frame.topic)) + [frame]]
      ensures fresh(buffers.Keys - old(buffers.Keys)) && fresh(slots.Keys - old(slots.Keys))
    {
      if capacity > 0 && frame.topic !in replay {
        var journal := StartJournal(frame);
        Install(frame, journal);
        assert [] + [frame] == [frame];
      } else if capacity > 0 {
        Append(frame);
      } else {
        published := published[frame.topic := Published(frame.topic) + [frame]];
      }
    }

    method Append(frame: Frame)
      requires Valid() && frame.topic in replay
      modifies this`published, buffers.Keys, slots.Keys
      ensures Valid()
      ensures published == old(published)[frame.topic := old(Published(frame.topic)) + [frame]]
    {
      var journal := replay[frame.topic];
      assert JournalOf(frame.topic);
      AppendTo(journal, frame);
    }

    /** Only the journal of one topic changes. */
    method AppendTo(journal: ReplayBuffer, frame: Frame)
      requires frame.topic in replay && replay[frame.topic] == journal && JournalOf(frame.topic)
      requires forall t :: t in replay ==> JournalOf(t)
      modifies this`published, journal, journal.frames
      ensures published == old(published)[frame.topic := old(Published(frame.topic)) + [frame]]
      ensures forall t :: t in replay ==> JournalOf(t)
    {
      journal.Add(frame);
      published := published[frame.topic := Published(frame.topic) + [frame]];
      forall t | t in replay && t != frame.topic
        ensures JournalOf(t)
      {
        assert old(JournalOf(t));
        Kept(t);
      }
    }

    /** A journal that was not touched is still the journal of its topic. */
    twostate lemma Kept(t: Topic)
      requires t in old(replay) && t in replay && replay[t] == old(replay[t])
      requires old(JournalOf(t)) && Owns(t)
      requires unchanged(replay[t]) && unchanged(replay[t].frames)
      requires Published(t) == old(Published(t))
      ensures JournalOf(t)
    {
    }

    method Install(frame: Frame, journal: ReplayBuffer)
      requires Valid() && capacity > 0 && frame.topic !in replay
      requires journal !in buffers && journal.frames !in slots
      requires journal.Valid() && journal.frames.Length == capacity && journal.history == [frame]
      modifies this
      ensures Valid()
      ensures published == old(published)[frame.topic := [frame]]
      ensures buffers == old(buffers)[journal := frame.topic] && slots == old(slots)[journal.frames := frame.topic]
    {
      Claim(journal, frame.topic);
      label Claimed:
      replay, published := replay[frame.topic := journal], published[frame.topic := [frame]];
      assert JournalOf(frame.topic);
      forall t | t in replay && t != frame.topic
        ensures JournalOf(t)
      {
        Kept@Claimed(t);
      }
    }

    /** A new journal and its slots are set aside for a topic. */
    method Claim(journal: ReplayBuffer, topic: Topic)
      requires Valid() && journal !in buffers && journal.frames !in slots
      modifies this`buffers, this`slots
      ensures Valid() && buffers == old(buffers)[journal := topic] && slots == old(slots)[journal.frames := topic]
    {
      buffers, slots := buffers[journal := topic], slots[journal.frames := topic];
      forall t | t in replay
        ensures JournalOf(t)
      {
        Kept(t);
      }
    }

    method StartJournal(frame: Frame) returns (journal: ReplayBuffer)
      requires capacity > 0
      ensures fresh(journal) && fresh(journal.frames)
      ensures journal.Valid() && journal.frames.Length == capacity && journal.history == [frame]
    {
      journal := new ReplayBuffer(capacity);
      journal.Add(frame);
    }

    /** The replay read of `Subscribe`. */
    method Read(options: SubscribeOptions) returns (r: Replay)
      requires Valid()
      ensures r == ReplayFor(Published(options.topic), options, capacity)
    {
      if options.topic in replay {
        var journal := replay[options.topic];
        assert JournalOf(options.topic);
        if options.since > 0 {
          var frames, gap := journal.FramesAfter(options.since);
          if gap || |frames| > options.buffer {
            return Unavailable;
          }
          return Replayed(frames);
        } else if options.replay > 0 {
          var frames := journal.LastFrames(options.replay);
          return Replayed(frames);
        }
        return Replayed([]);
      } else if options.since > 0 && capacity == 0 {
        return Unavailable;
      }
      return Replayed([]);
    }
  }

  class InMemory {
    const config: Config
    const router: Router
    const journals: Journals
    var sequence: Uint64
    var subscriptions: nat
    var closed: bool

    ghost predicate Valid()
      reads this, router, router.index.Values, journals, journals.buffers.Keys, journals.slots.Keys
    {
      && config == Normalized(config)
      && journals.capacity == config.replayCapacity
      && router.Valid()
      && journals.Valid()
      && (forall id :: id in router.registered ==> id <= subscriptions)
    }

    constructor (config: Config)
      ensures Valid()
      ensures this.config == Normalized(config) && !closed && journals.published == map[]
      ensures router.registered == map[]
    {
      this.config := Normalized(config);
      router := new Router();
      journals := new Journals(config.replayCapacity);
      sequence, subscriptions := 0, 0;
      closed := false;
      NormalizedOnce(config);
    }

    /** The checks before a frame is numbered. */
    function PublishCheck(input: Frame, cancelled: bool): Error {
      if input.topic == [] then ErrInvalidTopic
      else if |input.payload| > config.maxPayloadBytes then ErrPayloadTooLarge
      else if cancelled then ErrContext
      else ErrNone
    }

    /**
      `Publish` up to the fan-out: the frame is numbered, journaled and handed to exactly the
      subscriptions a scan of the registry selects.
    */
    method Publish(input: Frame, cancelled: bool, now: Timestamp) returns (frame: Frame, targets: set<nat>, err: Error)
      requires Valid()
      modifies this`sequence, journals, journals.buffers.Keys, journals.slots.Keys
      ensures Valid()
      ensures err == if PublishCheck(input, cancelled) != ErrNone then PublishCheck(input, cancelled)
                     else if closed then ErrClosed
                     else ErrNone
      ensures err == ErrInvalidTopic <==> input.topic == []
      ensures err == ErrPayloadTooLarge <==> input.topic != [] && |input.payload| > config.maxPayloadBytes
      ensures err == ErrContext <==> input.topic != [] && |input.payload| <= config.maxPayloadBytes && cancelled
      ensures err in {ErrNone, ErrClosed} <==>
                input.topic != [] && |input.payload| <= config.maxPayloadBytes && !cancelled
      ensures sequence == if PublishCheck(input, cancelled) != ErrNone then old(sequence)
                          else (old(sequence) + 1) % 0x1_0000_0000_0000_0000
      ensures err != ErrNone ==> journals.published == old(journals.published) && targets == {}
      ensures err == ErrNone ==>
                && frame == input.(sequence := sequence,
                                   timestamp := if input.timestamp == ZeroTime then now else input.timestamp)
                && journals.published ==
                     old(journals.published)[frame.topic := old(journals.Published(frame.topic)) + [frame]]
                && targets == Scan(router.registered, frame.topic)
    {
      frame, targets, err := input, {}, PublishCheck(input, cancelled);
      if err != ErrNone {
        return;
      }
      sequence := (sequence + 1) % 0x1_0000_0000_0000_0000;
      frame := frame.(sequence := sequence, timestamp := if input.timestamp == ZeroTime then now else input.timestamp);
      if closed {
        return frame, targets, ErrClosed;
      }
      targets := Accept(frame);
    }

    /** The locked part of `Publish`. */
    method Accept(frame: Frame) returns (targets: set<nat>)
      requires Valid()
      modifies journals, journals.buffers.Keys, journals.slots.Keys
      ensures Valid()
      ensures targets == Scan(router.registered, frame.topic)
      ensures journals.published ==
              old(journals.published)[frame.topic := old(journals.Published(frame.topic)) + [frame]]
    {
      targets := router.Targets(frame.topic);
      Journal(frame);
    }

    method Journal(frame: Frame)
      requires Valid()
      modifies journals, journals.buffers.Keys, journals.slots.Keys
      ensures Valid()
      ensures journals.published ==
              old(journals.published)[frame.topic := old(journals.Published(frame.topic)) + [frame]]
    {
      journals.Add(frame);
    }

    /** A fresh subscription with the replayed frames already queued. */
    method Create(id: nat, options: SubscribeOptions, frames: seq<Frame>) returns (sub: Subscription)
      requires 1 <= options.buffer
      ensures fresh(sub) && fresh(sub.queue) && fresh(sub.queue.Repr)
      ensures sub.Valid() && !sub.closed && sub.id == id && sub.options == options
      ensures sub.log == AdmitAll(Empty(options.buffer), frames)
    {
      sub := new Subscription(id, options);
      if |frames| > 0 {
        var _ := sub.Preload(frames);
      }
    }

    /** The locked part of `Subscribe` that registers. */
    method Register(id: nat, options: SubscribeOptions)
      requires Valid() && options.topic != [] && id !in router.registered && id <= subscriptions
      modifies router, router.index.Values
      ensures Valid()
      ensures router.registered == old(router.registered)[id := options]
      ensures fresh(router.index.Values - old(router.index.Values))
    {
      router.Add(id, options);
    }

    /**
      `Subscribe`: a granted subscription starts with the replayed frames and is registered; a refused
      one leaves the registry as it was.
    */
    method Subscribe(input: SubscribeOptions, cancelled: bool) returns (sub: Subscription?, err: Error)
      requires Valid()
      modifies this`subscriptions, router, router.index.Values
      ensures Valid()
      ensures err == if SubscribeCheck(input, config, cancelled) != ErrNone
                     then SubscribeCheck(input, config, cancelled)
                     else LockedVerdict(Effective(input, config))
      ensures ErrorAsked(err, input, config, cancelled, closed, journals.Published(input.topic))
      ensures err == ErrNone ==>
                && sub != null && 1 <= sub.options.buffer
                && OptionsAsked(sub.options, input, config)
                && sub.queue.arrivals == sub.log.queue && sub.dropped == sub.log.Dropped()
                && QueueAsked(sub.log, input, sub.options.buffer, config.replayCapacity,
                              journals.Published(input.topic))
      ensures err != ErrNone ==> router.registered == old(router.registered)
      ensures err == ErrNone ==>
                var options := Effective(input, config);
                && sub != null && 1 <= options.buffer
                && Starts(sub, options,
                          ReplayFor(journals.Published(input.topic), options, config.replayCapacity).frames)
                && sub.id !in old(router.registered)
                && router.registered == old(router.registered)[sub.id := options]
    {
      err := SubscribeCheck(input, config, cancelled);
      if err != ErrNone {
        VerdictAsked(err, input, config, cancelled, closed, journals.Published(input.topic));
        return null, err;
      }
      NextId();
      sub, err := SubscribeLocked(Effective(input, config));
      VerdictAsked(err, input, config, cancelled, closed, journals.Published(input.topic));
      if err == ErrNone {
        EffectiveAsked(input, config);
        GrantedAsAsked(input, config, journals.Published(input.topic));
      }
    }

    /** `Subscribe` once the options are checked and an id is drawn. */
    method SubscribeLocked(options: SubscribeOptions) returns (sub: Subscription?, err: Error)
      requires Valid() && options.topic != [] && 1 <= options.buffer && subscriptions !in router.registered
      modifies router, router.index.Values
      ensures Valid()
      ensures err == LockedVerdict(options)
      ensures err != ErrNone ==> router.registered == old(router.registered)
      ensures err == ErrNone ==>
                && sub != null
                && Starts(sub, options,
                          ReplayFor(journals.Published(options.topic), options, config.replayCapacity).frames)
                && sub.id == subscriptions
                && router.registered == old(router.registered)[sub.id := options]
    {
      var frames;
      frames, err := Answer(options);
      if err != ErrNone {
        return null, err;
      }
      sub := Grant(options, frames);
    }

    /** The frames to replay, or why there will be no subscription. */
    method Answer(options: SubscribeOptions) returns (frames: seq<Frame>, err: Error)
      requires Valid()
      ensures err == LockedVerdict(options)
      ensures err == ErrNone ==>
                frames == ReplayFor(journals.Published(options.topic), options, config.replayCapacity).frames
    {
      if closed {
        return [], ErrClosed;
      }
      var r := journals.Read(options);
      match r {
        case Unavailable => return [], ErrReplayUnavailable;
        case Replayed(found) => return found, ErrNone;
      }
    }

    method NextId()
      requires Valid()
      modifies this`subscriptions
      ensures Valid() && subscriptions == old(subscriptions) + 1 && subscriptions !in router.registered
    {
      subscriptions := subscriptions + 1;
    }

    ghost function LockedVerdict(options: SubscribeOptions): (e: Error)
      reads this`closed, journals`published
      ensures e == ErrNone ==> ReplayFor(journals.Published(options.topic), options, config.replayCapacity).Replayed?
    {
      if closed then ErrClosed
      else if ReplayFor(journals.Published(options.topic), options, config.replayCapacity).Unavailable?
      then ErrReplayUnavailable
      else ErrNone
    }

    /** A subscription as it is handed out. */
    ghost predicate Starts(sub: Subscription, options: SubscribeOptions, frames: seq<Frame>)
      requires 1 <= options.buffer
      reads sub, sub.queue, sub.queue.Repr
    {
      sub.Valid() && !sub.closed && sub.options == options && sub.log == AdmitAll(Empty(options.buffer), frames)
    }

    method Grant(options: SubscribeOptions, frames: seq<Frame>) returns (sub: Subscription)
      requires Valid() && options.topic != [] && subscriptions !in router.registered && 1 <= options.buffer
      modifies router, router.index.Values
      ensures Valid()
      ensures router.registered == old(router.registered)[subscriptions := options]
      ensures sub.id == subscriptions && Starts(sub, options, frames)
    {
      Register(subscriptions, options);
      sub := Create(subscriptions, options, frames);
    }

    /** What closing a subscription does to the bus. */
    method Unsubscribe(id: nat, options: SubscribeOptions)
      requires Valid() && (id in router.registered ==> router.registered[id] == options)
      modifies router, router.index.Values
      ensures Valid()
      ensures router.registered == old(router.registered) - {id}
    {
      router.Remove(id, options);
    }

    /** Closing the bus empties the registry and names every live subscription once, to be closed. */
    method Close() returns (unique: set<nat>)
      requires Valid()
      modifies this`closed, router
      ensures Valid() && closed
      ensures old(closed) ==> unique == {} && router.registered == old(router.registered)
      ensures !old(closed) ==> unique == old(router.registered).Keys && router.registered == map[]
    {
      if closed {
        return {};
      }
      unique := Drain();
      closed := true;
    }

    method Drain() returns (unique: set<nat>)
      requires Valid()
      modifies router
      ensures Valid()
      ensures unique == old(router.registered).Keys && router.registered == map[]
    {
      unique := router.Close();
    }
  }
}
