/**
  A subscription's queue together with the history of everything offered to it.  The history
  explains each counter of the subscription: `enqueued` is the number of accepted frames and
  `dropped` the number of refused plus evicted ones.
*/
module QueueLog {
  import opened Frames
  import opened Sequences
  import opened QueueModel

  datatype Log = Log(
    capacity: nat,
    queue: seq<Frame>,
    offered: seq<Frame>,
    accepted: seq<Frame>,
    refused: seq<Frame>,
    evicted: seq<Frame>,
    popped: seq<Frame>)
  {
    function Enqueued(): nat {
      |accepted|
    }

    function Dropped(): nat {
      |refused| + |evicted|
    }

    predicate Full() {
      |queue| == capacity
    }
  }

  function Empty(capacity: nat): Log {
    Log(capacity, [], [], [], [], [], [])
  }

  // ----- The locked steps of the subscription, on the log -----

  function Push(l: Log, f: Frame): Log {
    l.(queue := l.queue + [f], offered := l.offered + [f], accepted := l.accepted + [f])
  }

  function Refuse(l: Log, f: Frame): Log {
    l.(offered := l.offered + [f], refused := l.refused + [f])
  }

  function EvictOldest(l: Log): Log
    requires l.queue != []
  {
    var i := OldestIndex(l.queue);
    l.(queue := RemoveAt(l.queue, i), evicted := l.evicted + [l.queue[i]])
  }

  function EvictAll(l: Log): Log {
    l.(queue := [], evicted := l.evicted + l.queue)
  }

  function Pop(l: Log): Log
    requires l.queue != []
  {
    var i := NextIndex(l.queue);
    l.(queue := RemoveAt(l.queue, i), popped := l.popped + [l.queue[i]])
  }

  /** Push a frame, first evicting the oldest one when the queue is full. */
  function Admit(l: Log, f: Frame): Log
    requires l.capacity >= 1
  {
    if l.Full() then Push(EvictOldest(l), f) else Push(l, f)
  }

  function AdmitAll(l: Log, frames: seq<Frame>): (r: Log)
    requires l.capacity >= 1
    ensures r.capacity == l.capacity
    decreases |frames|
  {
    if frames == [] then l
    else Admit(AdmitAll(l, frames[..|frames| - 1]), frames[|frames| - 1])
  }

  datatype Verdict = Decided(log: Log, pushed: bool) | MustWait

  /** One attempt of `enqueue`, under the lock. */
  function Offer(l: Log, policy: Byte, f: Frame): Verdict
    requires l.capacity >= 1
  {
    if !l.Full() then Decided(Push(l, f), true)
    else if policy == DROP_NEWEST then Decided(Refuse(l, f), false)
    else if policy == DROP_OLDEST then Decided(Admit(l, f), true)
    else if policy == LATEST_ONLY then Decided(Push(EvictAll(l), f), true)
    else MustWait
  }

  /** What a decided attempt changes, seen from outside. */
  lemma OfferFacts(l: Log, policy: Byte, f: Frame)
    requires l.capacity >= 1 && |l.queue| <= l.capacity
    ensures Offer(l, policy, f).MustWait? <==> l.Full() && policy !in {DROP_NEWEST, DROP_OLDEST, LATEST_ONLY}
    ensures match Offer(l, policy, f)
            case MustWait => true
            case Decided(r, true) =>
              && Admits(l, r, f)
              && r.refused == l.refused
            case Decided(r, false) =>
              && l.Full() && policy == DROP_NEWEST
              && r == Refuse(l, f)
  {
  }

  /** `r` is `l` with the oldest queued frame, and nothing else, given up for `f`. */
  ghost predicate ReplacesOldest(l: Log, r: Log, f: Frame) {
    && r.refused == l.refused
    && exists i: nat :: IsOldest(l.queue, i) && r.evicted == l.evicted + [l.queue[i]] &&
                        r.queue == l.queue[..i] + l.queue[i + 1..] + [f]
  }

  /** What becomes of the queue, policy by policy. */
  lemma OfferExactly(l: Log, policy: Byte, f: Frame)
    requires l.capacity >= 1 && |l.queue| <= l.capacity
    ensures match Offer(l, policy, f)
            case MustWait => |l.queue| == l.capacity && policy !in {1, 2, 3}
            case Decided(r, pushed) =>
              if |l.queue| < l.capacity then
                pushed && r.queue == l.queue + [f] && r.evicted == l.evicted && r.refused == l.refused
              else if policy == 1 then
                !pushed && r.queue == l.queue && r.evicted == l.evicted && r.refused == l.refused + [f]
              else if policy == 2 then
                pushed && ReplacesOldest(l, r, f)
              else
                && pushed && policy == 3
                && r.queue == [f] && r.evicted == l.evicted + l.queue && r.refused == l.refused
  {
    if l.Full() && policy == DROP_OLDEST {
      assert IsOldest(l.queue, OldestIndex(l.queue));
    }
  }

  /** A preload gives up exactly as many frames as do not fit. */
  lemma {:induction false} AdmitAllCounts(l: Log, frames: seq<Frame>)
    requires l.capacity >= 1 && |l.queue| <= l.capacity
    ensures var r, all := AdmitAll(l, frames), |l.queue| + |frames|;
            if all <= l.capacity then |r.queue| == all && r.evicted == l.evicted
            else |r.queue| == l.capacity && |r.evicted| == |l.evicted| + all - l.capacity
    decreases |frames|
  {
    if frames != [] {
      AdmitAllCounts(l, frames[..|frames| - 1]);
    }
  }

  /** `r` is `l` with `f` accepted and queued last, within the capacity. */
  predicate Admits(l: Log, r: Log, f: Frame) {
    && r.capacity == l.capacity
    && 1 <= |r.queue| <= r.capacity
    && r.queue[|r.queue| - 1] == f
    && r.accepted == l.accepted + [f]
    && r.offered == l.offered + [f]
    && r.popped == l.popped
  }

  lemma AdmitFacts(l: Log, f: Frame)
    requires l.capacity >= 1 && |l.queue| <= l.capacity
    ensures Admits(l, Admit(l, f), f) && Admit(l, f).refused == l.refused
  {
  }

  /** `r` is `l` with `frames` accepted in order, the last one queued last. */
  predicate Loads(l: Log, r: Log, frames: seq<Frame>) {
    && |r.queue| <= r.capacity
    && r.popped == l.popped && r.refused == l.refused
    && r.accepted == l.accepted + frames && r.offered == l.offered + frames
    && (frames != [] ==> r.queue != [] && r.queue[|r.queue| - 1] == frames[|frames| - 1])
  }

  lemma {:induction false} AdmitAllFacts(l: Log, frames: seq<Frame>)
    requires l.capacity >= 1 && |l.queue| <= l.capacity
    ensures Loads(l, AdmitAll(l, frames), frames)
    decreases |frames|
  {
    if frames == [] {
      assert l.accepted + frames == l.accepted;
      assert l.offered + frames == l.offered;
    } else {
      var front, last := frames[..|frames| - 1], frames[|frames| - 1];
      assert frames == front + [last];
      AdmitAllFacts(l, front);
      AdmitAllStep(l, AdmitAll(l, front), front, last);
    }
  }

  lemma AdmitAllStep(l: Log, m: Log, front: seq<Frame>, last: Frame)
    requires m.capacity >= 1 && Loads(l, m, front)
    ensures Loads(l, Admit(m, last), front + [last])
  {
    AdmitFacts(m, last);
  }

  /** Frames that fit are appended without evicting anything. */
  lemma {:induction false} AdmitAllFits(l: Log, frames: seq<Frame>)
    requires l.capacity >= 1 && |l.queue| + |frames| <= l.capacity
    ensures AdmitAll(l, frames).queue == l.queue + frames
    ensures AdmitAll(l, frames).evicted == l.evicted
    decreases |frames|
  {
    if frames == [] {
      assert l.queue + frames == l.queue;
    } else {
      var front, last := frames[..|frames| - 1], frames[|frames| - 1];
      AdmitAllFits(l, front);
      assert l.queue + frames == (l.queue + front) + [last];
    }
  }

  /** What taking a frame changes, seen from outside. */
  lemma PopFacts(l: Log, f: Frame)
    requires l.queue != []
    ensures Pop(l).popped == l.popped + [l.queue[NextIndex(l.queue)]]
    ensures |Pop(l).queue| == |l.queue| - 1
    ensures f in l.queue ==> f in Pop(l).queue || f in Pop(l).popped
  {
    var i := NextIndex(l.queue);
    assert l.queue == l.queue[..i] + [l.queue[i]] + l.queue[i + 1..];
  }

  // ----- What every history keeps -----

  ghost predicate Bounded(l: Log) {
    l.capacity >= 1 && |l.queue| <= l.capacity
  }

  /** Every offered frame has exactly one fate. */
  ghost predicate Conserved(l: Log) {
    && multiset(l.offered) == multiset(l.accepted) + multiset(l.refused)
    && multiset(l.accepted) == multiset(l.popped) + multiset(l.queue) + multiset(l.evicted)
  }

  /** Within a class, frames leave and wait in the order in which they were accepted. */
  ghost predicate ClassFifo(l: Log, c: nat) {
    IsSubseq(Lane(l.popped, c) + Lane(l.queue, c), Lane(l.accepted, c))
  }

  ghost predicate Fifo(l: Log) {
    forall c :: 0 <= c < 4 ==> ClassFifo(l, c)
  }

  /** If frames were accepted in sequence order, whatever was evicted is older than whatever is queued. */
  ghost predicate EvictedAreOlder(l: Log) {
    Increasing(l.accepted) ==>
      && Increasing(l.queue)
      && (forall f, g :: f in l.evicted && g in l.queue ==> f.sequence < g.sequence)
  }

  ghost predicate Good(l: Log) {
    Bounded(l) && Conserved(l) && Fifo(l) && EvictedAreOlder(l)
  }

  lemma EmptyIsGood(capacity: nat)
    requires capacity >= 1
    ensures Good(Empty(capacity))
  {
  }

  lemma PushFifo(l: Log, f: Frame, c: nat)
    requires ClassFifo(l, c)
    ensures ClassFifo(Push(l, f), c)
  {
    LaneAppend(l.queue, f, c);
    LaneAppend(l.accepted, f, c);
    if Class(f) == c {
      SubseqExtend(Lane(l.popped, c), Lane(l.queue, c), Lane(l.accepted, c), f);
    }
  }

  lemma EvictFifo(l: Log, c: nat)
    requires l.queue != [] && ClassFifo(l, c)
    ensures ClassFifo(EvictOldest(l), c)
  {
    var i := OldestIndex(l.queue);
    OldestTakesLaneHead(l.queue, c);
    if c == Class(l.queue[i]) {
      SubseqDropHead(Lane(l.popped, c), l.queue[i], Lane(RemoveAt(l.queue, i), c), Lane(l.accepted, c));
    }
  }

  lemma PopFifo(l: Log, c: nat)
    requires l.queue != [] && ClassFifo(l, c)
    ensures ClassFifo(Pop(l), c)
  {
    var i := NextIndex(l.queue);
    var f, rest := l.queue[i], RemoveAt(l.queue, i);
    NextTakesLaneHead(l.queue, c);
    LaneAppend(l.popped, f, c);
    if c == Class(f) {
      MoveHead(Lane(l.popped, c), f, Lane(rest, c));
    }
  }

  lemma MoveHead<T>(p: seq<T>, x: T, q: seq<T>)
    ensures (p + [x]) + q == p + ([x] + q)
  {
  }

  /** A sequence-ordered queue always evicts its first arrival. */
  lemma IncreasingEvictsFirst(q: seq<Frame>)
    requires q != [] && Increasing(q)
    ensures OldestIndex(q) == 0
  {
    assert IsHead(q, 0);
    assert NoYounger(q[OldestIndex(q)], q[0]);
  }

  /** A frame accepted in sequence order is younger than everything accepted before it. */
  lemma AcceptedBound(l: Log, f: Frame)
    requires Conserved(l) && Increasing(l.accepted + [f])
    ensures forall g :: g in l.queue || g in l.evicted ==> g.sequence < f.sequence
  {
    forall g | g in l.queue || g in l.evicted
      ensures g.sequence < f.sequence
    {
      assert g in multiset(l.queue) || g in multiset(l.evicted);
      assert g in multiset(l.accepted);
      var i :| 0 <= i < |l.accepted| && l.accepted[i] == g;
      assert (l.accepted + [f])[i].sequence < (l.accepted + [f])[|l.accepted|].sequence;
    }
  }

  lemma PushOlder(l: Log, f: Frame)
    requires Conserved(l) && EvictedAreOlder(l)
    ensures EvictedAreOlder(Push(l, f))
  {
    if Increasing(l.accepted + [f]) {
      AcceptedBound(l, f);
      IncreasingFront(l.accepted, f);
    }
  }

  lemma IncreasingFront(s: seq<Frame>, f: Frame)
    requires Increasing(s + [f])
    ensures Increasing(s)
  {
    assert forall i :: 0 <= i < |s| ==> s[i] == (s + [f])[i];
  }

  lemma PushGood(l: Log, f: Frame)
    requires Good(l) && !l.Full()
    ensures Good(Push(l, f))
  {
    forall c | 0 <= c < 4
      ensures ClassFifo(Push(l, f), c)
    {
      PushFifo(l, f, c);
    }
    PushOlder(l, f);
    assert Conserved(Push(l, f));
  }

  lemma EvictOlder(l: Log)
    requires l.queue != [] && EvictedAreOlder(l)
    ensures EvictedAreOlder(EvictOldest(l))
  {
    if Increasing(l.accepted) {
      IncreasingEvictsFirst(l.queue);
    }
  }

  lemma EvictConserved(l: Log)
    requires l.queue != [] && Conserved(l)
    ensures Conserved(EvictOldest(l))
  {
    MultisetRemove(l.queue, OldestIndex(l.queue));
  }

  lemma EvictGood(l: Log)
    requires Good(l) && l.queue != []
    ensures Good(EvictOldest(l)) && !EvictOldest(l).Full()
  {
    forall c | 0 <= c < 4
      ensures ClassFifo(EvictOldest(l), c)
    {
      EvictFifo(l, c);
    }
    EvictConserved(l);
    EvictOlder(l);
  }

  lemma EvictAllGood(l: Log)
    requires Good(l)
    ensures Good(EvictAll(l)) && !EvictAll(l).Full()
  {
    forall c | 0 <= c < 4
      ensures ClassFifo(EvictAll(l), c)
    {
      assert ClassFifo(l, c);
      SubseqPrefix(Lane(l.popped, c), Lane(l.queue, c), Lane(l.accepted, c));
      assert Lane(l.popped, c) + [] == Lane(l.popped, c);
    }
  }

  lemma RefuseGood(l: Log, f: Frame)
    requires Good(l)
    ensures Good(Refuse(l, f))
  {
    forall c | 0 <= c < 4
      ensures ClassFifo(Refuse(l, f), c)
    {
      assert ClassFifo(l, c);
    }
  }

  lemma PopOlder(l: Log)
    requires l.queue != [] && EvictedAreOlder(l)
    ensures EvictedAreOlder(Pop(l))
  {
    var i := NextIndex(l.queue);
    var rest := RemoveAt(l.queue, i);
    assert forall k :: 0 <= k < |rest| ==> rest[k] == l.queue[if k < i then k else k + 1];
  }

  lemma PopConserved(l: Log)
    requires l.queue != [] && Conserved(l)
    ensures Conserved(Pop(l))
  {
    MultisetRemove(l.queue, NextIndex(l.queue));
  }

  lemma PopGood(l: Log)
    requires Good(l) && l.queue != []
    ensures Good(Pop(l))
  {
    forall c | 0 <= c < 4
      ensures ClassFifo(Pop(l), c)
    {
      PopFifo(l, c);
    }
    PopConserved(l);
    PopOlder(l);
  }

  lemma AdmitGood(l: Log, f: Frame)
    requires Good(l)
    ensures Good(Admit(l, f))
  {
    if l.Full() {
      EvictGood(l);
      PushGood(EvictOldest(l), f);
    } else {
      PushGood(l, f);
    }
  }

  lemma {:induction false} AdmitAllGood(l: Log, frames: seq<Frame>)
    requires Good(l)
    ensures Good(AdmitAll(l, frames))
    decreases |frames|
  {
    if frames != [] {
      AdmitAllGood(l, frames[..|frames| - 1]);
      AdmitGood(AdmitAll(l, frames[..|frames| - 1]), frames[|frames| - 1]);
    }
  }

  /** Every attempt that is decided keeps the history good, under every policy. */
  lemma OfferGood(l: Log, policy: Byte, f: Frame)
    requires Good(l)
    ensures Offer(l, policy, f).Decided? ==> Good(Offer(l, policy, f).log)
  {
    if !l.Full() {
      PushGood(l, f);
    } else if policy == DROP_NEWEST {
      RefuseGood(l, f);
    } else if policy == DROP_OLDEST {
      AdmitGood(l, f);
    } else if policy == LATEST_ONLY {
      EvictAllGood(l);
      PushGood(EvictAll(l), f);
    }
  }

  // ----- Consequences -----

  /** Unless something accepted was evicted, a class is popped and queued exactly as it was accepted. */
  lemma NothingEvictedMeansExactFifo(l: Log, c: nat)
    requires Good(l) && l.evicted == [] && c < 4
    ensures Lane(l.popped, c) + Lane(l.queue, c) == Lane(l.accepted, c)
  {
    var all := l.popped + l.queue;
    FilterAppend(l.popped, l.queue, InLane(c));
    assert multiset(all) == multiset(l.accepted);
    FilterLength(all, l.accepted, InLane(c));
    assert ClassFifo(l, c);
    SubseqLength(Lane(all, c), Lane(l.accepted, c));
  }

  /** `LatestOnly` leaves just the offered frame exactly when the queue was empty or full. */
  lemma LatestOnlyCollapsesExactly(l: Log, f: Frame)
    requires l.capacity >= 1 && |l.queue| <= l.capacity
    ensures Offer(l, LATEST_ONLY, f).Decided? && Offer(l, LATEST_ONLY, f).log.queue != []
    ensures Offer(l, LATEST_ONLY, f).log.queue == [f] <==> l.queue == [] || l.Full()
  {
    if !l.Full() && l.queue != [] {
      assert |l.queue + [f]| > 1;
    } else if l.queue == [] {
      assert [] + [f] == [f];
    }
  }
}
