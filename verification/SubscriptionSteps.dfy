/**
  The concurrent protocol of one subscription as a step system.  Publishers run `enqueue`, one
  consumer goroutine runs `run`, and `notify` and `space` are one-slot channels.  A step is one
  locked section, one channel operation or one change of the `closed`/`done` state, so every
  interleaving of the goroutines is a sequence of actions.
*/
module SubscriptionSteps {
  import opened Frames
  import opened Sequences
  import opened QueueModel
  import opened QueueLog

  /** Where a call of `enqueue` stands. */
  datatype Publisher = Trying(frame: Frame) | Waiting(frame: Frame) | PostPush | Returned

  /** Where `run` stands. */
  datatype Consumer = Idle | Draining | Popped(frame: Frame) | Sending(frame: Frame) | Exited

  datatype State = State(
    policy: Byte,
    log: Log,
    closed: bool,
    done: bool,
    notify: bool,
    space: bool,
    pubs: seq<Publisher>,
    consumer: Consumer,
    delivered: seq<Frame>,
    abandoned: seq<Frame>)

  datatype Action =
    | Arrive(frame: Frame)
    | Preload(frames: seq<Frame>)
    | Attempt(p: nat)
    | SignalNotify(p: nat)
    | TakeSpace(p: nat)
    | SeeDone(p: nat)
    | Cancel(p: nat)
    | TakeNotify
    | TakeFrame
    | SignalSpace
    | Deliver
    | Exit
    | MarkClosed
    | CloseDone

  function Initial(policy: Byte, capacity: nat): State {
    State(policy, Empty(capacity), false, false, false, false, [], Idle, [], [])
  }

  predicate Enabled(s: State, a: Action) {
    match a
    case Arrive(_) => true
    case Preload(_) => s.log.capacity >= 1
    case Attempt(p) => s.log.capacity >= 1 && p < |s.pubs| && s.pubs[p].Trying?
    case SignalNotify(p) => p < |s.pubs| && s.pubs[p].PostPush?
    case TakeSpace(p) => p < |s.pubs| && s.pubs[p].Waiting? && s.space
    case SeeDone(p) => p < |s.pubs| && s.pubs[p].Waiting? && s.done
    case Cancel(p) => p < |s.pubs| && s.pubs[p].Waiting?
    case TakeNotify => s.consumer.Idle? && s.notify
    case TakeFrame => s.consumer.Draining?
    case SignalSpace => s.consumer.Popped?
    case Deliver => s.consumer.Sending?
    case Exit => s.done && (s.consumer.Idle? || s.consumer.Sending?)
    case MarkClosed => true
    case CloseDone => s.closed
  }

  /** One pass of the `enqueue` loop up to the point where it unlocks. */
  function AttemptStep(s: State, p: nat): State
    requires s.log.capacity >= 1 && p < |s.pubs| && s.pubs[p].Trying?
  {
    var frame := s.pubs[p].frame;
    if s.closed then
      s.(pubs := s.pubs[p := Returned])
    else
      match Offer(s.log, s.policy, frame)
      case Decided(log, pushed) => s.(log := log, pubs := s.pubs[p := if pushed then PostPush else Returned])
      case MustWait => s.(pubs := s.pubs[p := Waiting(frame)])
  }

  function Apply(s: State, a: Action): State
    requires Enabled(s, a)
  {
    match a
    case Arrive(f) => s.(pubs := s.pubs + [Trying(f)])
    case Preload(frames) =>
      var log := AdmitAll(s.log, frames);
      s.(log := log, notify := s.notify || log.queue != [])
    case Attempt(p) => AttemptStep(s, p)
    case SignalNotify(p) => s.(notify := true, pubs := s.pubs[p := Returned])
    case TakeSpace(p) => s.(space := false, pubs := s.pubs[p := Trying(s.pubs[p].frame)])
    case SeeDone(p) => s.(pubs := s.pubs[p := Returned])
    case Cancel(p) => s.(pubs := s.pubs[p := Returned])
    case TakeNotify => s.(notify := false, consumer := Draining)
    case TakeFrame =>
      if s.log.queue == [] then s.(consumer := Idle)
      else s.(log := Pop(s.log), consumer := Popped(s.log.queue[NextIndex(s.log.queue)]))
    case SignalSpace => s.(space := true, consumer := Sending(s.consumer.frame))
    case Deliver => s.(delivered := s.delivered + [s.consumer.frame], consumer := Draining)
    case Exit =>
      s.(abandoned := s.abandoned + InFlight(s), consumer := Exited)
    case MarkClosed => s.(closed := true)
    case CloseDone => s.(done := true)
  }

  /** The frame the consumer holds between taking it from the queue and handing it over. */
  function InFlight(s: State): seq<Frame> {
    if s.consumer.Popped? || s.consumer.Sending? then [s.consumer.frame] else []
  }

  /** `acts` is a run of the system from `s`. */
  predicate Runs(s: State, acts: seq<Action>)
    decreases |acts|
  {
    acts == [] || (Enabled(s, acts[0]) && Runs(Apply(s, acts[0]), acts[1..]))
  }

  function Final(s: State, acts: seq<Action>): State
    requires Runs(s, acts)
    decreases |acts|
  {
    if acts == [] then s else Final(Apply(s, acts[0]), acts[1..])
  }

  // ----- Invariants -----

  predicate Busy(c: Consumer) {
    c.Draining? || c.Popped? || c.Sending?
  }

  predicate SomePostPush(s: State) {
    exists p :: 0 <= p < |s.pubs| && s.pubs[p].PostPush?
  }

  predicate SomeTrying(s: State) {
    exists p :: 0 <= p < |s.pubs| && s.pubs[p].Trying?
  }

  predicate SomeWaiting(s: State) {
    exists p :: 0 <= p < |s.pubs| && s.pubs[p].Waiting?
  }

  /** Until the consumer has exited, a queued frame is never forgotten. */
  predicate QueueWillBeSeen(s: State) {
    !s.consumer.Exited? && s.log.queue != [] ==> s.notify || Busy(s.consumer) || SomePostPush(s)
  }

  /** While the subscription is open, a waiting publisher is never forgotten. */
  predicate WaiterWillBeWoken(s: State) {
    !s.closed && SomeWaiting(s) ==>
      s.space || s.log.queue != [] || s.consumer.Popped? || SomeTrying(s)
  }

  predicate CloseOrder(s: State) {
    (s.done ==> s.closed) && (s.consumer.Exited? ==> s.done)
  }

  /** What left the queue was delivered, is in flight, or was abandoned on exit. */
  predicate PoppedAccounted(s: State) {
    && s.log.popped == s.delivered + InFlight(s) + s.abandoned
    && (!s.consumer.Exited? ==> s.abandoned == [])
  }

  /** Policies that admit every frame lose only older frames: the newest accepted one survives. */
  predicate NewestKept(s: State) {
    s.log.accepted != [] ==>
      var newest := s.log.accepted[|s.log.accepted| - 1];
      newest in s.log.queue || newest in s.log.popped
  }

  /** Under `DropOldest` and `LatestOnly` nothing is refused. */
  predicate AdmittingPolicies(s: State) {
    s.policy == DROP_OLDEST || s.policy == LATEST_ONLY ==> s.log.refused == [] && s.log.offered == s.log.accepted
  }

  /** The part of the invariant that the goroutines rely on. */
  predicate Protocol(s: State) {
    && s.log.capacity >= 1
    && |s.log.queue| <= s.log.capacity
    && QueueWillBeSeen(s)
    && WaiterWillBeWoken(s)
    && CloseOrder(s)
    && PoppedAccounted(s)
    && NewestKept(s)
    && AdmittingPolicies(s)
  }

  ghost predicate Inv(s: State) {
    Protocol(s) && Good(s.log)
  }

  lemma InitialInv(policy: Byte, capacity: nat)
    requires capacity >= 1
    ensures Inv(Initial(policy, capacity))
  {
    EmptyIsGood(capacity);
  }

  // ----- The protocol part -----

  lemma PreloadProtocol(s: State, frames: seq<Frame>)
    requires Protocol(s)
    ensures Protocol(Apply(s, Preload(frames)))
  {
    AdmitAllFacts(s.log, frames);
    var r := AdmitAll(s.log, frames);
    if frames != [] {
      assert r.accepted[|r.accepted| - 1] == frames[|frames| - 1];
    }
  }

  lemma PushedProtocol(s: State, p: nat, log: Log)
    requires Protocol(s) && p < |s.pubs| && s.pubs[p].Trying?
    requires Admits(s.log, log, s.pubs[p].frame) && log.refused == s.log.refused
    ensures Protocol(s.(log := log, pubs := s.pubs[p := PostPush]))
  {
    var t := s.(log := log, pubs := s.pubs[p := PostPush]);
    assert t.pubs[p].PostPush?;
    assert log.accepted[|log.accepted| - 1] == s.pubs[p].frame;
  }

  lemma FullProtocol(s: State, p: nat, next: Publisher)
    requires Protocol(s) && p < |s.pubs| && s.pubs[p].Trying? && !next.Trying?
    requires s.log.Full() || s.closed
    ensures Protocol(s.(pubs := s.pubs[p := next]))
  {
    var t := s.(pubs := s.pubs[p := next]);
    assert forall q :: 0 <= q < |s.pubs| && q != p ==> t.pubs[q] == s.pubs[q];
  }

  lemma AttemptProtocol(s: State, p: nat)
    requires Protocol(s) && Enabled(s, Attempt(p))
    ensures Protocol(Apply(s, Attempt(p)))
  {
    var frame := s.pubs[p].frame;
    if s.closed {
      FullProtocol(s, p, Returned);
    } else {
      OfferFacts(s.log, s.policy, frame);
      match Offer(s.log, s.policy, frame)
      case MustWait => FullProtocol(s, p, Waiting(frame));
      case Decided(log, pushed) =>
        if pushed {
          PushedProtocol(s, p, log);
        } else {
          FullProtocol(s, p, Returned);
        }
    }
  }

  lemma PublisherProtocol(s: State, a: Action)
    requires Protocol(s) && Enabled(s, a)
    requires a.Arrive? || a.SignalNotify? || a.TakeSpace? || a.SeeDone? || a.Cancel?
    ensures Protocol(Apply(s, a))
  {
    var t := Apply(s, a);
    if a.Arrive? {
      assert forall q :: 0 <= q < |s.pubs| ==> t.pubs[q] == s.pubs[q];
      assert t.pubs[|s.pubs|].Trying?;
    } else {
      assert forall q :: 0 <= q < |s.pubs| && q != a.p ==> t.pubs[q] == s.pubs[q];
      assert a.TakeSpace? ==> t.pubs[a.p].Trying?;
    }
  }

  lemma PoppedProtocol(s: State, log: Log, f: Frame)
    requires Protocol(s) && s.consumer.Draining? && s.log.queue != []
    requires log == s.log.(queue := log.queue, popped := s.log.popped + [f])
    requires |log.queue| == |s.log.queue| - 1
    requires forall g :: g in s.log.queue ==> g in log.queue || g in log.popped
    ensures Protocol(s.(log := log, consumer := Popped(f)))
  {
  }

  lemma TakeFrameProtocol(s: State)
    requires Protocol(s) && Enabled(s, TakeFrame)
    ensures Protocol(Apply(s, TakeFrame))
  {
    if s.log.queue != [] {
      forall g | g in s.log.queue
        ensures g in Pop(s.log).queue || g in Pop(s.log).popped
      {
        PopFacts(s.log, g);
      }
      PopFacts(s.log, s.log.queue[0]);
      PoppedProtocol(s, Pop(s.log), s.log.queue[NextIndex(s.log.queue)]);
    }
  }

  lemma ConsumerProtocol(s: State, a: Action)
    requires Protocol(s) && Enabled(s, a)
    requires a.TakeNotify? || a.SignalSpace? || a.Deliver? || a.Exit? || a.MarkClosed? || a.CloseDone?
    ensures Protocol(Apply(s, a))
  {
  }

  lemma StepProtocol(s: State, a: Action)
    requires Protocol(s) && Enabled(s, a)
    ensures Protocol(Apply(s, a))
  {
    match a
    case Preload(frames) => PreloadProtocol(s, frames);
    case Attempt(p) => AttemptProtocol(s, p);
    case TakeFrame => TakeFrameProtocol(s);
    case Arrive(_) => PublisherProtocol(s, a);
    case SignalNotify(_) => PublisherProtocol(s, a);
    case TakeSpace(_) => PublisherProtocol(s, a);
    case SeeDone(_) => PublisherProtocol(s, a);
    case Cancel(_) => PublisherProtocol(s, a);
    case _ => ConsumerProtocol(s, a);
  }

  // ----- The history part -----

  lemma StepGood(s: State, a: Action)
    requires Good(s.log) && Enabled(s, a)
    ensures Good(Apply(s, a).log)
  {
    match a
    case Preload(frames) => AdmitAllGood(s.log, frames);
    case Attempt(p) => OfferGood(s.log, s.policy, s.pubs[p].frame);
    case TakeFrame =>
      if s.log.queue != [] {
        PopGood(s.log);
      }
    case _ => assert Apply(s, a).log == s.log;
  }

  lemma {:induction false} RunInv(s: State, acts: seq<Action>)
    requires Inv(s) && Runs(s, acts)
    ensures Inv(Final(s, acts))
    decreases |acts|
  {
    if acts != [] {
      StepProtocol(s, acts[0]);
      StepGood(s, acts[0]);
      RunInv(Apply(s, acts[0]), acts[1..]);
    }
  }

  // ----- Main results -----

  /**
    No lost wake-up.  Whatever the interleaving, while the subscription is open a queued frame has a
    notify token, a busy consumer or a publisher about to signal, and a waiting publisher has a space
    token, a queued frame, a consumer about to signal or a publisher retrying.
  */
  lemma NoLostWakeup(policy: Byte, capacity: nat, acts: seq<Action>)
    requires capacity >= 1 && Runs(Initial(policy, capacity), acts)
    ensures var s := Final(Initial(policy, capacity), acts);
            && |s.log.queue| <= capacity
            && (!s.done && s.log.queue != [] ==> s.notify || Busy(s.consumer) || SomePostPush(s))
            && (!s.closed && SomeWaiting(s) ==>
                  s.space || s.log.queue != [] || s.consumer.Popped? || SomeTrying(s))
  {
    InitialInv(policy, capacity);
    RunInv(Initial(policy, capacity), acts);
    RunConstants(Initial(policy, capacity), acts);
  }

  lemma StepConstants(s: State, a: Action)
    requires Enabled(s, a)
    ensures Apply(s, a).policy == s.policy && Apply(s, a).log.capacity == s.log.capacity
  {
  }

  lemma {:induction false} RunConstants(s: State, acts: seq<Action>)
    requires Runs(s, acts)
    ensures Final(s, acts).policy == s.policy && Final(s, acts).log.capacity == s.log.capacity
    decreases |acts|
  {
    if acts != [] {
      StepConstants(s, acts[0]);
      RunConstants(Apply(s, acts[0]), acts[1..]);
    }
  }

  /**
    Conservation.  In every reachable state each offered frame is accounted for exactly once:
    delivered, in flight, abandoned on exit, queued, evicted or refused.  Before the consumer exits
    nothing is abandoned.
  */
  lemma Conservation(policy: Byte, capacity: nat, acts: seq<Action>)
    requires capacity >= 1 && Runs(Initial(policy, capacity), acts)
    ensures var s := Final(Initial(policy, capacity), acts);
            && multiset(s.log.offered) ==
                 multiset(s.delivered) + multiset(InFlight(s)) + multiset(s.abandoned) +
                 multiset(s.log.queue) + multiset(s.log.evicted) + multiset(s.log.refused)
            && |s.log.offered| ==
                 |s.delivered| + |InFlight(s)| + |s.abandoned| + |s.log.queue| + s.log.Dropped()
            && (!s.done ==> s.abandoned == [])
  {
    InitialInv(policy, capacity);
    RunInv(Initial(policy, capacity), acts);
    var s := Final(Initial(policy, capacity), acts);
    ConservedCounts(s);
  }

  lemma ConservedCounts(s: State)
    requires Conserved(s.log) && PoppedAccounted(s)
    ensures multiset(s.log.offered) ==
              multiset(s.delivered) + multiset(InFlight(s)) + multiset(s.abandoned) +
              multiset(s.log.queue) + multiset(s.log.evicted) + multiset(s.log.refused)
    ensures |s.log.offered| ==
              |s.delivered| + |InFlight(s)| + |s.abandoned| + |s.log.queue| + s.log.Dropped()
  {
    assert multiset(s.log.popped) == multiset(s.delivered) + multiset(InFlight(s)) + multiset(s.abandoned);
    assert |s.log.offered| == |multiset(s.log.offered)|;
    assert |s.log.accepted| == |multiset(s.log.accepted)|;
    assert |s.log.popped| == |multiset(s.log.popped)|;
  }

  /** The consumer exits at some point of the run while it is sending a frame. */
  predicate ExitsSending(s: State, acts: seq<Action>)
    requires Runs(s, acts)
    decreases |acts|
  {
    acts != [] && ((acts[0].Exit? && s.consumer.Sending?) || ExitsSending(Apply(s, acts[0]), acts[1..]))
  }

  lemma StepAbandons(s: State, a: Action)
    requires Enabled(s, a)
    ensures Apply(s, a).abandoned == if a.Exit? && s.consumer.Sending? then s.abandoned + InFlight(s) else s.abandoned
    ensures a.Exit? && s.consumer.Sending? ==> |InFlight(s)| == 1
  {
  }

  lemma {:induction false} AbandonedExactly(s: State, acts: seq<Action>)
    requires Runs(s, acts)
    ensures Final(s, acts).abandoned == [] <==> s.abandoned == [] && !ExitsSending(s, acts)
    decreases |acts|
  {
    if acts != [] {
      StepAbandons(s, acts[0]);
      AbandonedExactly(Apply(s, acts[0]), acts[1..]);
    }
  }

  /**
    Exactly when the counters balance: the delivered, in-flight, queued and dropped frames make up all the
    offered ones if and only if the consumer did not exit while it was sending.
  */
  lemma CountersBalanceExactly(policy: Byte, capacity: nat, acts: seq<Action>)
    requires capacity >= 1 && Runs(Initial(policy, capacity), acts)
    ensures var s := Final(Initial(policy, capacity), acts);
            |s.log.offered| == |s.delivered| + |InFlight(s)| + |s.log.queue| + s.log.Dropped()
            <==> !ExitsSending(Initial(policy, capacity), acts)
  {
    Conservation(policy, capacity, acts);
    AbandonedExactly(Initial(policy, capacity), acts);
  }

  /** The only frame is queued and announced. */
  function Announced(policy: Byte, capacity: nat, f: Frame): State {
    Initial(policy, capacity).(log := Push(Empty(capacity), f), notify := true)
  }

  /** The consumer has taken it and is sending. */
  function SendingOnly(policy: Byte, capacity: nat, f: Frame): State {
    Initial(policy, capacity).(log := Log(capacity, [], [f], [f], [], [], [f]), space := true, consumer := Sending(f))
  }

  lemma OneTaken(policy: Byte, capacity: nat, f: Frame, acts: seq<Action>)
    requires acts == [TakeNotify, TakeFrame, SignalSpace]
    ensures Runs(Announced(policy, capacity, f), acts)
    ensures Final(Announced(policy, capacity, f), acts) == SendingOnly(policy, capacity, f)
  {
    var s := Announced(policy, capacity, f);
    assert s.log.queue == [f] && NextIndex([f]) == 0 && RemoveAt([f], 0) == [];
    var s2 := Apply(Apply(s, acts[0]), acts[1]);
    assert Apply(s2, acts[2]) == SendingOnly(policy, capacity, f);
    ThreeSteps(s, acts);
  }

  lemma ThreeSteps(s: State, acts: seq<Action>)
    requires |acts| == 3 && Enabled(s, acts[0]) && Enabled(Apply(s, acts[0]), acts[1])
    requires Enabled(Apply(Apply(s, acts[0]), acts[1]), acts[2])
    ensures Runs(s, acts) && Final(s, acts) == Apply(Apply(Apply(s, acts[0]), acts[1]), acts[2])
  {
    var s1 := Apply(s, acts[0]);
    var s2 := Apply(s1, acts[1]);
    var s3 := Apply(s2, acts[2]);
    RunsOne(s2, acts[2], []);
    RunsOne(s1, acts[1], [acts[2]]);
    RunsOne(s, acts[0], [acts[1], acts[2]]);
    assert acts == [acts[0]] + ([acts[1]] + ([acts[2]] + []));
  }

  lemma RunsOne(s: State, a: Action, rest: seq<Action>)
    requires Enabled(s, a) && Runs(Apply(s, a), rest)
    ensures Runs(s, [a] + rest) && Final(s, [a] + rest) == Final(Apply(s, a), rest)
  {
    assert ([a] + rest)[0] == a && ([a] + rest)[1..] == rest;
  }

  lemma OneLeft(s: State, f: Frame, acts: seq<Action>)
    requires acts == [MarkClosed, CloseDone, Exit] && s.consumer == Sending(f)
    ensures Runs(s, acts)
    ensures Final(s, acts) == s.(closed := true, done := true, abandoned := s.abandoned + [f], consumer := Exited)
  {
    ThreeSteps(s, acts);
  }

  lemma {:induction false} RunsAppend(s: State, a: seq<Action>, b: seq<Action>)
    requires Runs(s, a) && Runs(Final(s, a), b)
    ensures Runs(s, a + b) && Final(s, a + b) == Final(Final(s, a), b)
    decreases |a|
  {
    if a == [] {
      assert a + b == b;
    } else {
      assert (a + b)[0] == a[0] && (a + b)[1..] == a[1..] + b;
      RunsAppend(Apply(s, a[0]), a[1..], b);
    }
  }

  /** A run that ends with a frame neither delivered nor counted as dropped. */
  lemma FrameAbandoned(policy: Byte, capacity: nat, f: Frame) returns (acts: seq<Action>)
    requires capacity >= 1
    ensures Runs(Initial(policy, capacity), acts)
    ensures var s := Final(Initial(policy, capacity), acts);
            s.log.offered == [f] && s.abandoned == [f] && s.delivered == [] && s.log.queue == [] && s.log.Dropped() == 0
  {
    var s0, s1 := Initial(policy, capacity), Announced(policy, capacity, f);
    var first, taking, closing := Preload([f]), [TakeNotify, TakeFrame, SignalSpace], [MarkClosed, CloseDone, Exit];
    assert [f][..0] == [] && AdmitAll(Empty(capacity), [f]) == Push(Empty(capacity), f);
    assert Apply(s0, first) == s1;
    OneTaken(policy, capacity, f, taking);
    OneLeft(SendingOnly(policy, capacity, f), f, closing);
    RunsAppend(s1, taking, closing);
    acts := [first] + (taking + closing);
    RunsOne(s0, first, taking + closing);
  }

  /** The last `n` of a list, or all of it. */
  function LastOf(s: seq<Frame>, n: nat): seq<Frame> {
    if |s| <= n then s else s[|s| - n..]
  }

  /** As long as nothing is taken and frames come in sequence order, the queue holds the latest ones. */
  predicate HoldsLatest(l: Log) {
    l.popped == [] && Increasing(l.accepted) ==> l.queue == LastOf(l.accepted, l.capacity)
  }

  lemma LastOfNext(s: seq<Frame>, f: Frame, n: nat)
    requires n >= 1
    ensures var q := LastOf(s, n);
            |q| <= n && LastOf(s + [f], n) == if |q| == n then q[1..] + [f] else q + [f]
  {
    var q := LastOf(s, n);
    if |s| >= n {
      assert |q| == n && q == s[|s| - n..];
      assert (s + [f])[|s| + 1 - n..] == s[|s| + 1 - n..] + [f];
    }
  }

  lemma AdmitHoldsLatest(l: Log, f: Frame)
    requires Good(l) && HoldsLatest(l)
    ensures HoldsLatest(Admit(l, f))
  {
    if l.popped == [] && Increasing(l.accepted + [f]) {
      IncreasingFront(l.accepted, f);
      LastOfNext(l.accepted, f, l.capacity);
      if l.Full() {
        EvictsFirst(l, f);
      }
    }
  }

  lemma EvictsFirst(l: Log, f: Frame)
    requires Good(l) && l.Full() && Increasing(l.accepted)
    ensures Admit(l, f).queue == l.queue[1..] + [f]
  {
    IncreasingEvictsFirst(l.queue);
    assert l.queue[..0] + l.queue[1..] == l.queue[1..];
  }

  lemma {:induction false} AdmitAllHoldsLatest(l: Log, frames: seq<Frame>)
    requires Good(l) && HoldsLatest(l)
    ensures HoldsLatest(AdmitAll(l, frames))
    decreases |frames|
  {
    if frames != [] {
      AdmitAllGood(l, frames[..|frames| - 1]);
      AdmitAllHoldsLatest(l, frames[..|frames| - 1]);
      AdmitHoldsLatest(AdmitAll(l, frames[..|frames| - 1]), frames[|frames| - 1]);
    }
  }

  lemma StepHoldsLatest(s: State, a: Action)
    requires Inv(s) && Enabled(s, a) && s.policy != LATEST_ONLY && HoldsLatest(s.log)
    ensures HoldsLatest(Apply(s, a).log)
  {
    match a
    case Preload(frames) => AdmitAllHoldsLatest(s.log, frames);
    case Attempt(p) => AttemptHoldsLatest(s, p);
    case _ =>
  }

  lemma AttemptHoldsLatest(s: State, p: nat)
    requires Inv(s) && Enabled(s, Attempt(p)) && s.policy != LATEST_ONLY && HoldsLatest(s.log)
    ensures HoldsLatest(Apply(s, Attempt(p)).log)
  {
    AdmitHoldsLatest(s.log, s.pubs[p].frame);
    assert !s.log.Full() ==> Admit(s.log, s.pubs[p].frame) == Push(s.log, s.pubs[p].frame);
  }

  lemma {:induction false} RunHoldsLatest(s: State, acts: seq<Action>)
    requires Inv(s) && Runs(s, acts) && s.policy != LATEST_ONLY && HoldsLatest(s.log)
    ensures HoldsLatest(Final(s, acts).log)
    decreases |acts|
  {
    if acts != [] {
      StepHoldsLatest(s, acts[0]);
      StepConstants(s, acts[0]);
      StepProtocol(s, acts[0]);
      StepGood(s, acts[0]);
      RunHoldsLatest(Apply(s, acts[0]), acts[1..]);
    }
  }

  /**
    What a full queue keeps.  Under every policy but `LatestOnly`, if frames were accepted in sequence order
    and none was taken yet, the queue is exactly the latest accepted frames, as many as it can hold.
  */
  lemma QueueHoldsLatest(policy: Byte, capacity: nat, acts: seq<Action>)
    requires capacity >= 1 && policy != LATEST_ONLY && Runs(Initial(policy, capacity), acts)
    ensures var l := Final(Initial(policy, capacity), acts).log;
            l.popped == [] && Increasing(l.accepted) ==>
              l.queue == if |l.accepted| <= capacity then l.accepted else l.accepted[|l.accepted| - capacity..]
  {
    InitialInv(policy, capacity);
    RunHoldsLatest(Initial(policy, capacity), acts);
    RunConstants(Initial(policy, capacity), acts);
  }

  /** Under `DropOldest` an attempt evicts only from a full queue, one frame, and leaves it full. */
  lemma DropOldestEvictsOne(s: State, p: nat)
    requires Protocol(s) && Enabled(s, Attempt(p)) && s.policy == DROP_OLDEST
    ensures var l, r := s.log, Apply(s, Attempt(p)).log;
            r.evicted == l.evicted ||
            (&& |l.queue| == |r.queue| == l.capacity
             && exists i: nat :: IsOldest(l.queue, i) && r.evicted == l.evicted + [l.queue[i]])
  {
    OfferExactly(s.log, s.policy, s.pubs[p].frame);
  }

  /** One, two, and so on up to the capacity, and one again. */
  function Round(n: nat, capacity: nat): nat {
    if n == 0 then 0 else if Round(n - 1, capacity) == capacity then 1 else Round(n - 1, capacity) + 1
  }

  lemma {:induction false} RoundBound(n: nat, capacity: nat)
    ensures Round(n, capacity) <= n
  {
    if n > 0 {
      RoundBound(n - 1, capacity);
    }
  }

  /** `LatestOnly` starts over with every frame that finds the queue full. */
  predicate CountsRound(l: Log) {
    l.popped == [] ==> |l.queue| == Round(|l.accepted|, l.capacity) && l.queue == LastOf(l.accepted, |l.queue|)
  }

  lemma OfferCountsRound(l: Log, f: Frame)
    requires l.capacity >= 1 && |l.queue| <= l.capacity && CountsRound(l)
    ensures CountsRound(Offer(l, LATEST_ONLY, f).log)
  {
    OfferExactly(l, LATEST_ONLY, f);
    RoundBound(|l.accepted|, l.capacity);
    if l.popped == [] {
      LastOfMore(l.accepted, f, if |l.queue| < l.capacity then |l.queue| else 0);
    }
  }

  lemma LastOfMore(s: seq<Frame>, f: Frame, n: nat)
    requires n <= |s|
    ensures LastOf(s + [f], n + 1) == LastOf(s, n) + [f]
  {
  }

  lemma {:induction false} RunCountsRound(s: State, acts: seq<Action>)
    requires Protocol(s) && Runs(s, acts) && s.policy == LATEST_ONLY && CountsRound(s.log)
    requires forall a :: a in acts ==> !a.Preload?
    ensures CountsRound(Final(s, acts).log)
    decreases |acts|
  {
    if acts != [] {
      assert acts[0] in acts && forall a :: a in acts[1..] ==> a in acts;
      if acts[0].Attempt? {
        OfferCountsRound(s.log, s.pubs[acts[0].p].frame);
      }
      StepConstants(s, acts[0]);
      StepProtocol(s, acts[0]);
      RunCountsRound(Apply(s, acts[0]), acts[1..]);
    }
  }

  /** Under `LatestOnly`, with nothing taken or preloaded, the queue is the latest frames, counted round. */
  lemma LatestOnlyCountsRound(capacity: nat, acts: seq<Action>)
    requires capacity >= 1 && Runs(Initial(LATEST_ONLY, capacity), acts) && forall a :: a in acts ==> !a.Preload?
    ensures var l := Final(Initial(LATEST_ONLY, capacity), acts).log;
            l.popped == [] ==>
              && Round(|l.accepted|, capacity) <= |l.accepted|
              && l.queue == l.accepted[|l.accepted| - Round(|l.accepted|, capacity)..]
  {
    InitialInv(LATEST_ONLY, capacity);
    RunCountsRound(Initial(LATEST_ONLY, capacity), acts);
    RunConstants(Initial(LATEST_ONLY, capacity), acts);
    RoundBound(|Final(Initial(LATEST_ONLY, capacity), acts).log.accepted|, capacity);
  }

  /** Once closed, a subscription takes no more frames from publishers, and every attempt returns. */
  lemma ClosedTakesNothing(s: State, p: nat)
    requires Enabled(s, Attempt(p)) && s.closed
    ensures Apply(s, Attempt(p)).log == s.log && Apply(s, Attempt(p)).pubs[p].Returned?
  {
  }

  /**
    Per-class order.  Under every policy the popped frames of a class followed by its queued frames
    are a subsequence of the accepted ones; they are all of them when nothing accepted was evicted.
  */
  lemma PerClassFifo(policy: Byte, capacity: nat, acts: seq<Action>, c: nat)
    requires capacity >= 1 && Runs(Initial(policy, capacity), acts) && c < 4
    ensures var l := Final(Initial(policy, capacity), acts).log;
            && IsSubseq(Lane(l.popped, c) + Lane(l.queue, c), Lane(l.accepted, c))
            && (l.evicted == [] ==> Lane(l.popped, c) + Lane(l.queue, c) == Lane(l.accepted, c))
  {
    InitialInv(policy, capacity);
    RunInv(Initial(policy, capacity), acts);
    var l := Final(Initial(policy, capacity), acts).log;
    assert ClassFifo(l, c);
    if l.evicted == [] {
      NothingEvictedMeansExactFifo(l, c);
    }
  }

  /** A preload that fits into the free part of the queue. */
  predicate Fits(s: State, a: Action) {
    a.Preload? ==> |s.log.queue| + |a.frames| <= s.log.capacity
  }

  predicate PreloadsFit(s: State, acts: seq<Action>)
    requires Runs(s, acts)
    decreases |acts|
  {
    acts == [] || (Fits(s, acts[0]) && PreloadsFit(Apply(s, acts[0]), acts[1..]))
  }

  lemma StepNoEviction(s: State, a: Action)
    requires Enabled(s, a) && Fits(s, a)
    requires s.policy != DROP_OLDEST && s.policy != LATEST_ONLY
    ensures Apply(s, a).log.evicted == s.log.evicted
  {
    if a.Preload? {
      AdmitAllFits(s.log, a.frames);
    }
  }

  /** `Block` and `DropNewest` never evict an accepted frame once preloads fit. */
  lemma {:induction false} NoEviction(s: State, acts: seq<Action>)
    requires Runs(s, acts) && PreloadsFit(s, acts)
    requires s.policy != DROP_OLDEST && s.policy != LATEST_ONLY
    ensures Final(s, acts).log.evicted == s.log.evicted
    decreases |acts|
  {
    if acts != [] {
      StepNoEviction(s, acts[0]);
      StepConstants(s, acts[0]);
      NoEviction(Apply(s, acts[0]), acts[1..]);
    }
  }

  lemma BlockIsExactFifo(policy: Byte, capacity: nat, acts: seq<Action>, c: nat)
    requires capacity >= 1 && c < 4 && policy != DROP_OLDEST && policy != LATEST_ONLY
    requires Runs(Initial(policy, capacity), acts) && PreloadsFit(Initial(policy, capacity), acts)
    ensures var l := Final(Initial(policy, capacity), acts).log;
            Lane(l.popped, c) + Lane(l.queue, c) == Lane(l.accepted, c)
  {
    InitialInv(policy, capacity);
    NoEviction(Initial(policy, capacity), acts);
    PerClassFifo(policy, capacity, acts, c);
  }

  /**
    Drop policy.  If frames are accepted in sequence order, everything evicted is older than everything
    queued.  `DropOldest` and `LatestOnly` refuse nothing, and the newest offer is queued, in flight,
    delivered or abandoned on exit.
  */
  lemma DropPolicy(policy: Byte, capacity: nat, acts: seq<Action>)
    requires capacity >= 1 && Runs(Initial(policy, capacity), acts)
    ensures var s := Final(Initial(policy, capacity), acts);
            && (Increasing(s.log.accepted) ==>
                  forall f, g :: f in s.log.evicted && g in s.log.queue ==> f.sequence < g.sequence)
            && ((policy == DROP_OLDEST || policy == LATEST_ONLY) && s.log.offered != [] ==>
                  var newest := s.log.offered[|s.log.offered| - 1];
                  newest in s.log.queue || newest in InFlight(s) || newest in s.delivered || newest in s.abandoned)
  {
    InitialInv(policy, capacity);
    RunInv(Initial(policy, capacity), acts);
    RunConstants(Initial(policy, capacity), acts);
  }

  // ----- Progress -----

  /** The steps of the protocol itself, with a receiver that keeps receiving. */
  predicate Internal(a: Action) {
    a.Attempt? || a.SignalNotify? || a.TakeSpace? || a.TakeNotify? || a.TakeFrame? || a.SignalSpace? || a.Deliver?
  }

  predicate AllInternal(acts: seq<Action>) {
    forall a :: a in acts ==> Internal(a)
  }

  function PublisherWork(p: Publisher): nat {
    match p
    case Trying(_) => 9
    case Waiting(_) => 8
    case PostPush => 3
    case Returned => 0
  }

  function ConsumerWork(c: Consumer): nat {
    match c
    case Popped(_) => 5
    case Sending(_) => 2
    case Draining => 1
    case _ => 0
  }

  function PublishersWork(pubs: seq<Publisher>): nat {
    if pubs == [] then 0 else PublishersWork(pubs[..|pubs| - 1]) + PublisherWork(pubs[|pubs| - 1])
  }

  /** An upper bound on the internal steps still to come. */
  function Work(s: State): nat {
    PublishersWork(s.pubs) + 5 * |s.log.queue| + (if s.notify then 2 else 0) + (if s.space then 2 else 0)
    + ConsumerWork(s.consumer)
  }

  lemma {:induction false} PublishersWorkUpdate(pubs: seq<Publisher>, p: nat, next: Publisher)
    requires p < |pubs|
    ensures PublishersWork(pubs[p := next]) + PublisherWork(pubs[p]) == PublishersWork(pubs) + PublisherWork(next)
    decreases |pubs|
  {
    var front := pubs[..|pubs| - 1];
    if p == |pubs| - 1 {
      assert pubs[p := next][..p] == front;
    } else {
      assert pubs[p := next][..|pubs| - 1] == front[p := next];
      PublishersWorkUpdate(front, p, next);
    }
  }

  lemma AttemptWork(s: State, p: nat)
    requires Protocol(s) && Enabled(s, Attempt(p))
    ensures Work(Apply(s, Attempt(p))) < Work(s)
  {
    PublishersWorkUpdate(s.pubs, p, Apply(s, Attempt(p)).pubs[p]);
  }

  /** Every internal step uses up work, so no interleaving runs forever. */
  lemma InternalStepWorks(s: State, a: Action)
    requires Protocol(s) && Enabled(s, a) && Internal(a)
    ensures Work(Apply(s, a)) < Work(s)
  {
    match a
    case Attempt(p) => AttemptWork(s, p);
    case SignalNotify(p) => PublishersWorkUpdate(s.pubs, p, Returned);
    case TakeSpace(p) => PublishersWorkUpdate(s.pubs, p, Trying(s.pubs[p].frame));
    case _ =>
  }

  /** Nothing is queued, in flight or waiting, and every `enqueue` has returned. */
  predicate Drained(s: State) {
    && s.log.queue == []
    && s.consumer.Idle?
    && forall p :: 0 <= p < |s.pubs| ==> s.pubs[p].Returned?
  }

  /** While the subscription is open, only a drained state has no internal step left. */
  lemma OnlyDrainedIsStuck(s: State)
    requires Protocol(s) && !s.closed
    requires forall a :: Internal(a) ==> !Enabled(s, a)
    ensures Drained(s)
  {
    assert !Enabled(s, TakeFrame) && !Enabled(s, SignalSpace) && !Enabled(s, Deliver) && !Enabled(s, TakeNotify);
    forall p | 0 <= p < |s.pubs|
      ensures !s.pubs[p].Trying? && !s.pubs[p].PostPush? && !(s.pubs[p].Waiting? && s.space)
    {
      assert !Enabled(s, Attempt(p)) && !Enabled(s, SignalNotify(p)) && !Enabled(s, TakeSpace(p));
    }
    assert s.log.queue == [];
    assert !SomeWaiting(s);
  }

  lemma {:induction false} InternalRunBounded(s: State, acts: seq<Action>)
    requires Protocol(s) && Runs(s, acts) && AllInternal(acts)
    ensures |acts| + Work(Final(s, acts)) <= Work(s)
    ensures Final(s, acts).closed == s.closed
    decreases |acts|
  {
    if acts != [] {
      assert acts[0] in acts;
      InternalStepWorks(s, acts[0]);
      StepProtocol(s, acts[0]);
      StepOpen(s, acts[0]);
      assert forall a :: a in acts[1..] ==> a in acts;
      InternalRunBounded(Apply(s, acts[0]), acts[1..]);
    }
  }

  lemma StepOpen(s: State, a: Action)
    requires Enabled(s, a) && Internal(a)
    ensures Apply(s, a).closed == s.closed
  {
  }

  /**
    Every interleaving drains.  From any reachable open state, with a receiver that keeps receiving, the
    goroutines take at most `Work` further steps, and they can stop only when every publisher has
    returned, the queue is empty and everything accepted and not evicted has been delivered, each class
    in the order of acceptance.
  */
  lemma EveryRunDrains(policy: Byte, capacity: nat, before: seq<Action>, acts: seq<Action>)
    requires capacity >= 1 && Runs(Initial(policy, capacity), before)
    requires var s := Final(Initial(policy, capacity), before);
             !s.closed && Runs(s, acts) && AllInternal(acts)
    ensures var s := Final(Initial(policy, capacity), before);
            var t := Final(s, acts);
            && |acts| <= Work(s)
            && ((forall a :: Internal(a) ==> !Enabled(t, a)) ==>
                  && Drained(t)
                  && multiset(t.log.accepted) == multiset(t.delivered) + multiset(t.log.evicted)
                  && (forall c :: 0 <= c < 4 ==> IsSubseq(Lane(t.delivered, c), Lane(t.log.accepted, c))))
  {
    InitialInv(policy, capacity);
    RunInv(Initial(policy, capacity), before);
    var s := Final(Initial(policy, capacity), before);
    RunInv(s, acts);
    InternalRunBounded(s, acts);
    var t := Final(s, acts);
    if forall a :: Internal(a) ==> !Enabled(t, a) {
      OnlyDrainedIsStuck(t);
      DrainedDelivered(t);
    }
  }

  lemma DrainedDelivered(t: State)
    requires Protocol(t) && Good(t.log) && Drained(t) && !t.closed
    ensures multiset(t.log.accepted) == multiset(t.delivered) + multiset(t.log.evicted)
    ensures forall c :: 0 <= c < 4 ==> IsSubseq(Lane(t.delivered, c), Lane(t.log.accepted, c))
  {
    assert t.log.popped == t.delivered;
    forall c | 0 <= c < 4
      ensures IsSubseq(Lane(t.delivered, c), Lane(t.log.accepted, c))
    {
      assert ClassFifo(t.log, c);
      assert Lane(t.log.queue, c) == [];
      assert Lane(t.delivered, c) + [] == Lane(t.delivered, c);
    }
  }
}
