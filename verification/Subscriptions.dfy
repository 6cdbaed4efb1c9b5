/**
  The locked sections of a subscription as methods on its fields.  Each method moves the history of
  `QueueLog` exactly as the corresponding action of `SubscriptionSteps` does, and the counters always
  agree with that history.
*/
module Subscriptions {
  import opened Frames
  import opened Sequences
  import opened QueueModel
  import opened QueueLog
  import opened FrameQueues

  /** How one pass of the `enqueue` loop ends. */
  datatype Outcome =
    | SubscriptionDone // ErrSubscriptionDone
    | Pushed // return nil after signalling `notify`
    | Discarded // return nil, frame dropped
    | WaitForSpace // unlock and wait

  class Subscription {
    const id: nat
    const options: SubscribeOptions
    const queue: FrameQueue
    var closed: bool
    var enqueued: nat
    var dropped: nat
    ghost var log: Log

    ghost predicate Valid()
      reads this, queue, queue.Repr
    {
      && this !in queue.Repr
      && queue.Valid()
      && queue.capacity == log.capacity == options.buffer
      && log.capacity >= 1
      && queue.arrivals == log.queue
      && enqueued == log.Enqueued()
      && dropped == log.Dropped()
    }

    constructor (id: nat, options: SubscribeOptions)
      requires options.buffer >= 1
      ensures Valid() && fresh(queue) && fresh(queue.Repr)
      ensures this.id == id && this.options == options && !closed
      ensures log == Empty(options.buffer)
    {
      this.id := id;
      this.options := options;
      queue := new FrameQueue(options.buffer);
      closed := false;
      enqueued, dropped := 0, 0;
      log := Empty(options.buffer);
    }

    /** Queues the replayed frames, making room by evicting the oldest; tells whether to signal `notify`. */
    method Preload(frames: seq<Frame>) returns (signal: bool)
      requires Valid()
      modifies this`enqueued, this`dropped, this`log, queue, queue.Repr
      ensures Valid()
      ensures log == AdmitAll(old(log), frames)
      ensures signal == (queue.arrivals != [])
      ensures enqueued == old(enqueued) + |frames|
      ensures var all := |old(queue.arrivals)| + |frames|;
              if all <= options.buffer then queue.arrivals == old(queue.arrivals) + frames && dropped == old(dropped)
              else |queue.arrivals| == options.buffer && dropped == old(dropped) + all - options.buffer
    {
      AdmitAllCounts(log, frames);
      AdmitAllFacts(log, frames);
      if |log.queue| + |frames| <= log.capacity {
        AdmitAllFits(log, frames);
      }
      LoadAll(frames);
      signal := queue.len > 0;
    }

    method LoadAll(frames: seq<Frame>)
      requires Valid()
      modifies this`enqueued, this`dropped, this`log, queue, queue.Repr
      ensures Valid() && log == AdmitAll(old(log), frames)
    {
      var i := 0;
      assert frames[..0] == [];
      while i < |frames|
        invariant 0 <= i <= |frames|
        invariant Valid()
        invariant log == AdmitAll(old(log), frames[..i])
      {
        assert frames[..i + 1][..i] == frames[..i];
        AdmitOne(frames[i]);
        i := i + 1;
      }
      assert frames[..i] == frames;
    }

    method AdmitOne(frame: Frame)
      requires Valid()
      modifies this`enqueued, this`dropped, this`log, queue, queue.Repr
      ensures Valid()
      ensures log == Admit(old(log), frame)
    {
      var ok := queue.Push(frame);
      if ok {
        log := Push(log, frame);
        enqueued := enqueued + 1;
      } else {
        ReplaceOldest(frame);
      }
    }

    /** Evicts the oldest frame of a full queue for a new one. */
    method ReplaceOldest(frame: Frame)
      requires Valid() && log.Full()
      modifies this`enqueued, this`dropped, this`log, queue, queue.Repr
      ensures Valid()
      ensures log == Push(EvictOldest(old(log)), frame)
    {
      var _, _ := queue.PopOldest();
      var _ := queue.Push(frame);
      dropped := dropped + 1;
      enqueued := enqueued + 1;
      log := Push(EvictOldest(log), frame);
    }

    /** Clears the queue for a new frame. */
    method ReplaceAll(frame: Frame)
      requires Valid()
      modifies this`enqueued, this`dropped, this`log, queue, queue.Repr
      ensures Valid()
      ensures log == Push(EvictAll(old(log)), frame)
    {
      var count := queue.Clear();
      var _ := queue.Push(frame);
      dropped := dropped + count;
      enqueued := enqueued + 1;
      log := Push(EvictAll(log), frame);
    }

    /** The outcome of an attempt by what it does to the queue and the counters: policies 1 to 3 drop, others block. */
    ghost predicate Outside(outcome: Outcome, frame: Frame, before: seq<Frame>, accepted: nat, lost: nat)
      reads this, queue
    {
      var now, full := queue.arrivals, |before| >= options.buffer;
      if closed then outcome.SubscriptionDone? && now == before && enqueued == accepted && dropped == lost
      else if !full then outcome.Pushed? && now == before + [frame] && enqueued == accepted + 1 && dropped == lost
      else if options.overflow == 1 then
        outcome.Discarded? && now == before && enqueued == accepted && dropped == lost + 1
      else if options.overflow == 2 then
        && outcome.Pushed? && |now| == options.buffer && enqueued == accepted + 1 && dropped == lost + 1
        && exists i: nat :: IsOldest(before, i) && now == before[..i] + before[i + 1..] + [frame]
      else if options.overflow == 3 then
        outcome.Pushed? && now == [frame] && enqueued == accepted + 1 && dropped == lost + |before|
      else
        outcome.WaitForSpace? && now == before && enqueued == accepted && dropped == lost
    }

    /** One pass of the `enqueue` loop. */
    method TryEnqueue(frame: Frame) returns (outcome: Outcome)
      requires Valid()
      modifies this`enqueued, this`dropped, this`log, queue, queue.Repr
      ensures Valid()
      ensures outcome.SubscriptionDone? <==> closed
      ensures closed ==> log == old(log)
      ensures !closed ==>
                match Offer(old(log), options.overflow, frame)
                case MustWait => outcome.WaitForSpace? && log == old(log)
                case Decided(l, pushed) => outcome == (if pushed then Pushed else Discarded) && log == l
      ensures Outside(outcome, frame, old(queue.arrivals), old(enqueued), old(dropped))
    {
      OfferExactly(log, options.overflow, frame);
      if closed {
        return SubscriptionDone;
      }
      var ok := queue.Push(frame);
      if ok {
        enqueued := enqueued + 1;
        log := Push(log, frame);
        return Pushed;
      }
      if options.overflow == DROP_NEWEST {
        dropped := dropped + 1;
        log := Refuse(log, frame);
        return Discarded;
      } else if options.overflow == DROP_OLDEST {
        ReplaceOldest(frame);
        return Pushed;
      } else if options.overflow == LATEST_ONLY {
        ReplaceAll(frame);
        return Pushed;
      }
      return WaitForSpace;
    }

    /** The locked pop of `run`. */
    method TakeFrame() returns (frame: Frame, ok: bool)
      requires Valid()
      modifies this`log, queue, queue.Repr
      ensures Valid()
      ensures ok == (old(log).queue != [])
      ensures ok ==> frame == old(log).queue[NextIndex(old(log).queue)] && log == QueueLog.Pop(old(log))
      ensures !ok ==> log == old(log)
      ensures enqueued == old(enqueued) && dropped == old(dropped)
      ensures ok ==> exists i: nat ::
                IsNext(old(queue.arrivals), i) && frame == old(queue.arrivals)[i] &&
                queue.arrivals == old(queue.arrivals)[..i] + old(queue.arrivals)[i + 1..]
    {
      frame, ok := queue.Pop();
      if ok {
        log := QueueLog.Pop(log);
      }
    }
  }
}
