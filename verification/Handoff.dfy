/**
  The hand-over from replay to live delivery.  One topic of the bus and one resuming subscription run
  interleaved: publishes and the subscribe are atomic under the bus lock, the fan-out of a publish
  happens later, and the subscription runs its own protocol in between.
*/
module Handoff {
  import opened Frames
  import opened Sequences
  import opened QueueModel
  import opened QueueLog
  import opened ReplayBuffers
  import opened StreamBus
  import Sub = SubscriptionSteps

  datatype State =
    /** Nothing subscribed yet. */
    | Before(capacity: int, journal: seq<Frame>)
    /**
      Subscribed: `replayed` came from the journal, `live` are the frames published since, in lock order,
      and `lost` are those whose publisher gave up on this subscription.
    */
    | During(
        capacity: int,
        journal: seq<Frame>,
        options: SubscribeOptions,
        replayed: seq<Frame>,
        live: seq<Frame>,
        pending: seq<Frame>,
        lost: seq<Frame>,
        sub: Sub.State)

  datatype Step =
    /** The locked section of `Publish`: journal the frame, take the target set. */
    | Publish(frame: Frame)
    /** The locked section of `Subscribe`. */
    | Subscribe(options: SubscribeOptions)
    /** The publisher of `pending[i]` reaches this subscription in its fan-out. */
    | Fanout(i: nat)
    /** Its fan-out ends early on a cancelled context. */
    | GiveUp(i: nat)
    /** A step of the subscription's own goroutines. */
    | Run(action: Sub.Action)

  predicate Enabled(s: State, a: Step) {
    match a
    case Publish(_) => true
    case Subscribe(o) => s.Before? && o.buffer >= 1 && !o.prefix && ReplayFor(s.journal, o, s.capacity).Replayed?
    case Fanout(i) => s.During? && i < |s.pending|
    case GiveUp(i) => s.During? && i < |s.pending|
    case Run(x) => s.During? && !x.Arrive? && !x.Preload? && Sub.Enabled(s.sub, x)
  }

  function Apply(s: State, a: Step): State
    requires Enabled(s, a)
  {
    match a
    case Publish(f) =>
      if s.Before? then s.(journal := s.journal + [f])
      else s.(journal := s.journal + [f], live := s.live + [f], pending := s.pending + [f])
    case Subscribe(o) =>
      var frames := ReplayFor(s.journal, o, s.capacity).frames;
      During(s.capacity, s.journal, o, frames, [], [], [],
             Sub.Apply(Sub.Initial(o.overflow, o.buffer), Sub.Preload(frames)))
    case Fanout(i) =>
      s.(pending := RemoveAt(s.pending, i), sub := Sub.Apply(s.sub, Sub.Arrive(s.pending[i])))
    case GiveUp(i) => s.(pending := RemoveAt(s.pending, i), lost := s.lost + [s.pending[i]])
    case Run(x) => s.(sub := Sub.Apply(s.sub, x), lost := s.lost + Losses(s.sub, x))
  }

  /** The frame of a publisher that leaves `enqueue` without an answer: cancelled, or because of a close. */
  function Losses(s: Sub.State, x: Sub.Action): seq<Frame>
    requires Sub.Enabled(s, x)
  {
    match x
    case Attempt(p) => if s.closed then [s.pubs[p].frame] else []
    case SeeDone(p) => [s.pubs[p].frame]
    case Cancel(p) => [s.pubs[p].frame]
    case _ => []
  }

  predicate Runs(s: State, acts: seq<Step>)
    decreases |acts|
  {
    acts == [] || (Enabled(s, acts[0]) && Runs(Apply(s, acts[0]), acts[1..]))
  }

  function Final(s: State, acts: seq<Step>): State
    requires Runs(s, acts)
    decreases |acts|
  {
    if acts == [] then s else Final(Apply(s, acts[0]), acts[1..])
  }

  // ----- Routes -----

  /** What was published before the subscription registered. */
  function Earlier(s: State): seq<Frame>
    requires s.During? && |s.live| <= |s.journal|
  {
    s.journal[..|s.journal| - |s.live|]
  }

  /** The journal is what was published earlier followed by what the live route carries. */
  ghost predicate RoutesOk(s: State) {
    s.During? ==>
      && |s.live| <= |s.journal|
      && s.journal == Earlier(s) + s.live
      && ReplayFor(Earlier(s), s.options, s.capacity) == Replayed(s.replayed)
      && s.options.buffer >= 1
  }

  /** How many publishers inside `enqueue` still hold `f`. */
  function HeldCount(pubs: seq<Sub.Publisher>, f: Frame): nat {
    if pubs == [] then 0 else HeldCount(pubs[..|pubs| - 1], f) + Holds(pubs[|pubs| - 1], f)
  }

  function Holds(p: Sub.Publisher, f: Frame): nat {
    if (p.Trying? || p.Waiting?) && p.frame == f then 1 else 0
  }

  lemma {:induction false} HeldUpdate(pubs: seq<Sub.Publisher>, p: nat, next: Sub.Publisher, f: Frame)
    requires p < |pubs|
    ensures HeldCount(pubs[p := next], f) + Holds(pubs[p], f) == HeldCount(pubs, f) + Holds(next, f)
    decreases |pubs|
  {
    var front := pubs[..|pubs| - 1];
    if p == |pubs| - 1 {
      assert pubs[p := next][..p] == front;
    } else {
      assert pubs[p := next][..|pubs| - 1] == front[p := next];
      HeldUpdate(front, p, next, f);
    }
  }

  function Count(s: seq<Frame>, f: Frame): nat {
    multiset(s)[f]
  }

  /** How often `f` has entered the subscription or is held by a publisher inside `enqueue`. */
  function Spent(s: Sub.State, f: Frame): nat {
    Count(s.log.accepted, f) + Count(s.log.refused, f) + HeldCount(s.pubs, f)
  }

  /** `f` has entered, is held, is still to be handed over or was lost exactly as often as the two routes carry it. */
  ghost predicate CountOk(s: State, f: Frame) {
    s.During? ==>
      Spent(s.sub, f) + Count(s.pending, f) + Count(s.lost, f) == Count(s.replayed, f) + Count(s.live, f)
  }

  /** The replay was accepted first, and every frame of the two routes is accounted for. */
  ghost predicate LiveOk(s: State) {
    s.During? ==>
      && s.replayed <= s.sub.log.accepted
      && (forall f :: CountOk(s, f))
  }

  ghost predicate SubOk(s: State) {
    s.During? ==> Sub.Protocol(s.sub) && Good(s.sub.log)
  }

  lemma StepSub(s: State, a: Step)
    requires SubOk(s) && Enabled(s, a)
    ensures SubOk(Apply(s, a))
  {
    match a
    case Subscribe(o) =>
      var frames := ReplayFor(s.journal, o, s.capacity).frames;
      Sub.InitialInv(o.overflow, o.buffer);
      Sub.StepProtocol(Sub.Initial(o.overflow, o.buffer), Sub.Preload(frames));
      Sub.StepGood(Sub.Initial(o.overflow, o.buffer), Sub.Preload(frames));
    case Fanout(i) =>
      Sub.StepProtocol(s.sub, Sub.Arrive(s.pending[i]));
      Sub.StepGood(s.sub, Sub.Arrive(s.pending[i]));
    case Run(x) =>
      Sub.StepProtocol(s.sub, x);
      Sub.StepGood(s.sub, x);
    case _ =>
  }

  lemma StepRoutes(s: State, a: Step)
    requires RoutesOk(s) && Enabled(s, a)
    ensures RoutesOk(Apply(s, a))
  {
    if a.Subscribe? {
      assert Earlier(Apply(s, a)) == s.journal;
    } else if a.Publish? && s.During? {
      var t := Apply(s, a);
      assert Earlier(t) == Earlier(s);
      assert s.journal + [a.frame] == Earlier(s) + (s.live + [a.frame]);
    }
  }

  /** A subscription's own step only appends to the accepted frames. */
  lemma RunAccepts(s: Sub.State, x: Sub.Action)
    requires Sub.Protocol(s) && Sub.Enabled(s, x) && !x.Arrive? && !x.Preload?
    ensures s.log.accepted <= Sub.Apply(s, x).log.accepted
  {
    if x.Attempt? && !s.closed {
      OfferFacts(s.log, s.policy, s.pubs[x.p].frame);
    }
  }

  /** A subscription's own step neither invents nor forgets a frame. */
  lemma RunSpends(s: Sub.State, x: Sub.Action, f: Frame)
    requires |s.log.queue| <= s.log.capacity && Sub.Enabled(s, x) && !x.Arrive? && !x.Preload?
    ensures Spent(Sub.Apply(s, x), f) + Count(Losses(s, x), f) == Spent(s, f)
  {
    if x.Attempt? {
      AttemptSpends(s, x.p, f);
    } else if x.SignalNotify? || x.TakeSpace? || x.SeeDone? || x.Cancel? {
      WakingSpends(s, x, f);
    } else {
      OthersSpend(s, x, f);
    }
  }

  /** A publisher that is woken or gives up. */
  lemma WakingSpends(s: Sub.State, x: Sub.Action, f: Frame)
    requires Sub.Enabled(s, x) && (x.SignalNotify? || x.TakeSpace? || x.SeeDone? || x.Cancel?)
    ensures Spent(Sub.Apply(s, x), f) + Count(Losses(s, x), f) == Spent(s, f)
  {
    HeldUpdate(s.pubs, x.p, if x.TakeSpace? then Sub.Trying(s.pubs[x.p].frame) else Sub.Returned, f);
  }

  lemma OthersSpend(s: Sub.State, x: Sub.Action, f: Frame)
    requires Sub.Enabled(s, x) && !x.Arrive? && !x.Preload? && !x.Attempt?
    requires !x.SignalNotify? && !x.TakeSpace? && !x.SeeDone? && !x.Cancel?
    ensures Spent(Sub.Apply(s, x), f) + Count(Losses(s, x), f) == Spent(s, f)
  {
  }

  lemma AttemptSpends(s: Sub.State, p: nat, f: Frame)
    requires |s.log.queue| <= s.log.capacity && Sub.Enabled(s, Sub.Attempt(p))
    ensures Spent(Sub.Apply(s, Sub.Attempt(p)), f) + Count(Losses(s, Sub.Attempt(p)), f) == Spent(s, f)
  {
    var frame := s.pubs[p].frame;
    if s.closed {
      SpentAfter(s, p, s.log, Sub.Returned, f);
    } else {
      OfferFacts(s.log, s.policy, frame);
      var verdict := Offer(s.log, s.policy, frame);
      if verdict.MustWait? {
        SpentAfter(s, p, s.log, Sub.Waiting(frame), f);
      } else {
        VerdictSpends(s, p, verdict.log, if verdict.pushed then Sub.PostPush else Sub.Returned, f);
      }
    }
  }

  lemma VerdictSpends(s: Sub.State, p: nat, log: Log, next: Sub.Publisher, f: Frame)
    requires p < |s.pubs| && s.pubs[p].Trying? && (next == Sub.PostPush || next == Sub.Returned)
    requires (Admits(s.log, log, s.pubs[p].frame) && log.refused == s.log.refused) ||
             log == Refuse(s.log, s.pubs[p].frame)
    ensures Spent(s.(log := log, pubs := s.pubs[p := next]), f) == Spent(s, f)
  {
    DecidedCount(s.log, log, s.pubs[p].frame, f);
    SpentAfter(s, p, log, next, f);
  }

  lemma SpentAfter(s: Sub.State, p: nat, log: Log, next: Sub.Publisher, f: Frame)
    requires p < |s.pubs|
    ensures var t := s.(log := log, pubs := s.pubs[p := next]);
            Spent(t, f) + Count(s.log.accepted, f) + Count(s.log.refused, f) + Holds(s.pubs[p], f) ==
              Spent(s, f) + Count(log.accepted, f) + Count(log.refused, f) + Holds(next, f)
  {
    HeldUpdate(s.pubs, p, next, f);
  }

  lemma DecidedCount(l: Log, r: Log, frame: Frame, f: Frame)
    requires (Admits(l, r, frame) && r.refused == l.refused) || r == Refuse(l, frame)
    ensures Count(r.accepted, f) + Count(r.refused, f) ==
            Count(l.accepted, f) + Count(l.refused, f) + (if frame == f then 1 else 0)
  {
  }

  /** An arriving publisher holds one frame more. */
  lemma ArriveSpends(s: Sub.State, frame: Frame, f: Frame)
    ensures Spent(Sub.Apply(s, Sub.Arrive(frame)), f) == Spent(s, f) + (if frame == f then 1 else 0)
  {
    var t := Sub.Apply(s, Sub.Arrive(frame));
    assert t.pubs[..|s.pubs|] == s.pubs;
  }

  lemma RemovedCount(pending: seq<Frame>, i: nat, f: Frame)
    requires i < |pending|
    ensures Count(RemoveAt(pending, i), f) == Count(pending, f) - (if pending[i] == f then 1 else 0)
  {
    MultisetRemove(pending, i);
  }

  /** The preload accepts exactly the replayed frames. */
  lemma PreloadAccepts(o: SubscribeOptions, frames: seq<Frame>)
    requires o.buffer >= 1
    ensures var t := Sub.Apply(Sub.Initial(o.overflow, o.buffer), Sub.Preload(frames));
            t.log.accepted == frames && t.log.refused == [] && t.pubs == []
  {
    assert [] + frames == frames;
    AdmitAllFacts(Empty(o.buffer), frames);
  }

  lemma StepCount(s: State, a: Step, f: Frame)
    requires CountOk(s, f) && Enabled(s, a) && (s.During? ==> |s.sub.log.queue| <= s.sub.log.capacity)
    ensures CountOk(Apply(s, a), f)
  {
    match a
    case Publish(g) =>
    case Subscribe(o) => PreloadAccepts(o, ReplayFor(s.journal, o, s.capacity).frames);
    case Fanout(i) =>
      RemovedCount(s.pending, i, f);
      ArriveSpends(s.sub, s.pending[i], f);
    case GiveUp(i) => RemovedCount(s.pending, i, f);
    case Run(x) => RunSpends(s.sub, x, f);
  }

  lemma StepAccepts(s: State, a: Step)
    requires LiveOk(s) && SubOk(s) && Enabled(s, a)
    ensures var t := Apply(s, a); t.During? ==> t.replayed <= t.sub.log.accepted
  {
    if a.Subscribe? {
      PreloadAccepts(a.options, ReplayFor(s.journal, a.options, s.capacity).frames);
    } else if a.Run? {
      RunAccepts(s.sub, a.action);
    }
  }

  lemma StepLive(s: State, a: Step)
    requires LiveOk(s) && SubOk(s) && Enabled(s, a)
    ensures LiveOk(Apply(s, a))
  {
    StepAccepts(s, a);
    forall f
      ensures CountOk(Apply(s, a), f)
    {
      StepCount(s, a, f);
    }
  }

  lemma {:induction false} RunOk(s: State, acts: seq<Step>)
    requires RoutesOk(s) && SubOk(s) && LiveOk(s) && Runs(s, acts)
    ensures RoutesOk(Final(s, acts)) && SubOk(Final(s, acts)) && LiveOk(Final(s, acts))
    decreases |acts|
  {
    if acts != [] {
      StepRoutes(s, acts[0]);
      StepLive(s, acts[0]);
      StepSub(s, acts[0]);
      RunOk(Apply(s, acts[0]), acts[1..]);
    }
  }

  // ----- Main result -----

  predicate DistinctSequences(s: seq<Frame>) {
    forall i, j :: 0 <= i < j < |s| ==> s[i].sequence != s[j].sequence
  }

  /**
    Routes.  In every interleaving, if the topic was journaled in sequence order up to the subscribe,
    the frames of the topic newer than `since` are the replayed ones followed by the newer live ones: each
    takes exactly one of the two routes.
  */
  lemma EveryNewerFrameTakesOneRoute(capacity: int, acts: seq<Step>)
    requires capacity > 0 && Runs(Before(capacity, []), acts)
    ensures var s := Final(Before(capacity, []), acts);
            s.During? && s.options.since > 0 && |s.live| <= |s.journal| && Increasing(Earlier(s)) ==>
              && Filter(s.journal, NewerThan(s.options.since)) ==
                   s.replayed + Filter(s.live, NewerThan(s.options.since))
              && (DistinctSequences(s.journal) ==>
                    forall f :: f in s.journal && f.sequence > s.options.since ==>
                      Count(s.replayed + s.live, f) == 1)
  {
    RunOk(Before(capacity, []), acts);
    RunCapacity(Before(capacity, []), acts);
    var s := Final(Before(capacity, []), acts);
    if s.During? && s.options.since > 0 && Increasing(Earlier(s)) {
      var since := s.options.since;
      GrantedResumeIsComplete(Earlier(s), s.options, s.capacity);
      FilterAppend(Earlier(s), s.live, NewerThan(since));
      if DistinctSequences(s.journal) {
        forall f | f in s.journal && f.sequence > since
          ensures Count(s.replayed + s.live, f) == 1
        {
          OneRoute(Earlier(s), s.live, since, f);
        }
      }
    }
  }

  lemma OneRoute(earlier: seq<Frame>, live: seq<Frame>, since: Uint64, f: Frame)
    requires DistinctSequences(earlier + live) && f in earlier + live && f.sequence > since
    ensures multiset(Filter(earlier, NewerThan(since)) + live)[f] == 1
  {
    FilterCount(earlier, NewerThan(since), f);
    DistinctCount(earlier + live, f);
    assert multiset(earlier + live) == multiset(earlier) + multiset(live);
  }

  lemma {:induction false} DistinctCount(s: seq<Frame>, f: Frame)
    requires DistinctSequences(s) && f in s
    ensures multiset(s)[f] == 1
  {
    var front, last := s[..|s| - 1], s[|s| - 1];
    assert s == front + [last];
    if f in front {
      DistinctCount(front, f);
    }
  }

  lemma {:induction false} RunCapacity(s: State, acts: seq<Step>)
    requires Runs(s, acts)
    ensures Final(s, acts).capacity == s.capacity
    decreases |acts|
  {
    if acts != [] {
      RunCapacity(Apply(s, acts[0]), acts[1..]);
    }
  }

  /** Accounting.  In every interleaving each frame of the two routes has entered, is held, pending or lost. */
  lemma EveryFrameAccountedFor(capacity: int, acts: seq<Step>, f: Frame)
    requires Runs(Before(capacity, []), acts)
    ensures var s := Final(Before(capacity, []), acts);
            s.During? ==>
              Count(s.sub.log.accepted, f) + Count(s.sub.log.refused, f) + HeldCount(s.sub.pubs, f) +
              Count(s.pending, f) + Count(s.lost, f) == Count(s.replayed, f) + Count(s.live, f)
  {
    RunOk(Before(capacity, []), acts);
    assert CountOk(Final(Before(capacity, []), acts), f);
  }

  // ----- Exactly once -----

  predicate GivesUp(a: Step) {
    a.GiveUp? || (a.Run? && a.action.Cancel?)
  }

  lemma NoLosses(s: Sub.State, x: Sub.Action)
    requires Sub.Enabled(s, x) && !x.Cancel? && !s.closed && (s.done ==> s.closed)
    ensures Losses(s, x) == []
  {
  }

  lemma StaysClosed(s: Sub.State, x: Sub.Action)
    requires Sub.Enabled(s, x) && s.closed
    ensures Sub.Apply(s, x).closed
  {
  }

  lemma StepLoses(s: State, a: Step)
    requires s.During? && (s.sub.done ==> s.sub.closed)
    requires Enabled(s, a) && !GivesUp(a) && !Apply(s, a).sub.closed
    ensures Apply(s, a).lost == s.lost && !s.sub.closed
  {
    if a.Run? {
      if s.sub.closed {
        StaysClosed(s.sub, a.action);
      }
      NoLosses(s.sub, a.action);
    }
  }

  /** Nothing is lost while the subscription is open and no context is cancelled. */
  lemma {:induction false} NothingLost(s: State, acts: seq<Step>)
    requires Runs(s, acts) && SubOk(s) && (forall a :: a in acts ==> !GivesUp(a))
    requires s.During? ==> s.lost == []
    requires Final(s, acts).During? && !Final(s, acts).sub.closed
    ensures Final(s, acts).lost == [] && (s.During? ==> !s.sub.closed)
    decreases |acts|
  {
    if acts != [] {
      var t := Apply(s, acts[0]);
      StepSub(s, acts[0]);
      assert acts[0] in acts && forall a :: a in acts[1..] ==> a in acts;
      if t.During? && t.lost != [] {
        StillClosed(t, acts[1..]);
        StepLoses(s, acts[0]);
      }
      NothingLost(t, acts[1..]);
      if s.During? {
        StepLoses(s, acts[0]);
      }
    }
  }

  /** A closed subscription stays closed. */
  lemma {:induction false} StillClosed(s: State, acts: seq<Step>)
    requires Runs(s, acts) && s.During?
    ensures Final(s, acts).During? && (s.sub.closed ==> Final(s, acts).sub.closed)
    decreases |acts|
  {
    if acts != [] {
      if acts[0].Run? && s.sub.closed {
        StaysClosed(s.sub, acts[0].action);
      }
      StillClosed(Apply(s, acts[0]), acts[1..]);
    }
  }

  /** No publisher is on its way to, or inside, `enqueue` with a frame. */
  predicate Settled(s: State) {
    && s.During? && s.pending == []
    && forall p :: 0 <= p < |s.sub.pubs| ==> !s.sub.pubs[p].Trying? && !s.sub.pubs[p].Waiting?
  }

  lemma {:induction false} NoneHeld(pubs: seq<Sub.Publisher>, f: Frame)
    requires forall p :: 0 <= p < |pubs| ==> !pubs[p].Trying? && !pubs[p].Waiting?
    ensures HeldCount(pubs, f) == 0
  {
    if pubs != [] {
      NoneHeld(pubs[..|pubs| - 1], f);
    }
  }

  /**
    Exactly once.  In every interleaving without a cancelled publisher, once an open subscription has
    settled, the frames it accepted or refused are the replayed and the live ones; if the topic was
    journaled in order, every frame newer than `since` is among them exactly once.
  */
  lemma EveryNewerFrameEntersOnce(capacity: int, acts: seq<Step>, f: Frame)
    requires capacity > 0 && Runs(Before(capacity, []), acts) && (forall a :: a in acts ==> !GivesUp(a))
    requires var s := Final(Before(capacity, []), acts); Settled(s) && !s.sub.closed
    ensures var s := Final(Before(capacity, []), acts);
            && Count(s.sub.log.accepted, f) + Count(s.sub.log.refused, f) == Count(s.replayed, f) + Count(s.live, f)
            && (&& s.options.since > 0 && |s.live| <= |s.journal|
                && Increasing(Earlier(s)) && DistinctSequences(s.journal)
                && f in s.journal && f.sequence > s.options.since ==>
                  Count(s.sub.log.accepted, f) + Count(s.sub.log.refused, f) == 1)
  {
    var s := Final(Before(capacity, []), acts);
    EveryFrameAccountedFor(capacity, acts, f);
    EveryNewerFrameTakesOneRoute(capacity, acts);
    NothingLost(Before(capacity, []), acts);
    NoneHeld(s.sub.pubs, f);
    SumCount(s.replayed, s.live, f);
  }

  lemma SumCount(a: seq<Frame>, b: seq<Frame>, f: Frame)
    ensures Count(a + b, f) == Count(a, f) + Count(b, f)
  {
    assert multiset(a + b) == multiset(a) + multiset(b);
  }

  // ----- Order -----

  /**
    Replay comes first.  Whatever the interleaving, the accepted frames start with the replayed ones, the
    rest came over the live route, and under every policy the frames of a class taken and still queued are
    in that order, all of them unless something was evicted.
  */
  lemma ReplayPrecedesLive(capacity: int, acts: seq<Step>, c: nat)
    requires Runs(Before(capacity, []), acts) && c < 4
    ensures var s := Final(Before(capacity, []), acts);
            s.During? ==>
              && s.replayed <= s.sub.log.accepted
              && var rest := s.sub.log.accepted[|s.replayed|..];
                 && (forall f :: Count(rest, f) <= Count(s.live, f))
                 && IsSubseq(Lane(s.sub.log.popped, c) + Lane(s.sub.log.queue, c), Lane(s.replayed, c) + Lane(rest, c))
                 && (s.sub.log.evicted == [] ==>
                       Lane(s.sub.log.popped, c) + Lane(s.sub.log.queue, c) == Lane(s.replayed, c) + Lane(rest, c))
  {
    RunOk(Before(capacity, []), acts);
    var s := Final(Before(capacity, []), acts);
    if s.During? {
      var accepted := s.sub.log.accepted;
      var rest := accepted[|s.replayed|..];
      assert accepted == s.replayed + rest;
      forall f
        ensures Count(rest, f) <= Count(s.live, f)
      {
        assert CountOk(s, f);
        SumCount(s.replayed, rest, f);
      }
      FilterAppend(s.replayed, rest, InLane(c));
      assert ClassFifo(s.sub.log, c);
      if s.sub.log.evicted == [] {
        NothingEvictedMeansExactFifo(s.sub.log, c);
      }
    }
  }

  // ----- Delivery -----

  predicate Blocks(policy: Byte) {
    policy != DROP_NEWEST && policy != DROP_OLDEST && policy != LATEST_ONLY
  }

  /** A resumed subscription that blocks its publishers drops nothing. */
  ghost predicate KeepsAll(s: State) {
    s.During? ==>
      && s.sub.policy == s.options.overflow
      && (Blocks(s.options.overflow) && s.options.since > 0 ==> s.sub.log.evicted == [] && s.sub.log.refused == [])
  }

  lemma StepKeepsAll(s: State, a: Step)
    requires KeepsAll(s) && Enabled(s, a)
    ensures KeepsAll(Apply(s, a))
  {
    match a
    case Subscribe(o) =>
      var frames := ReplayFor(s.journal, o, s.capacity).frames;
      PreloadAccepts(o, frames);
      if o.since > 0 {
        AdmitAllFits(Empty(o.buffer), frames);
      }
    case Run(x) => Sub.StepConstants(s.sub, x);
    case _ =>
  }

  lemma {:induction false} RunKeepsAll(s: State, acts: seq<Step>)
    requires KeepsAll(s) && Runs(s, acts)
    ensures KeepsAll(Final(s, acts))
    decreases |acts|
  {
    if acts != [] {
      StepKeepsAll(s, acts[0]);
      RunKeepsAll(Apply(s, acts[0]), acts[1..]);
    }
  }

  lemma DrainedLanes(s: Sub.State, c: nat)
    requires Sub.PoppedAccounted(s) && Sub.Drained(s)
    ensures s.delivered == s.log.popped && Lane(s.delivered, c) == Lane(s.log.popped, c) + Lane(s.log.queue, c)
    ensures forall p :: 0 <= p < |s.pubs| ==> !s.pubs[p].Trying? && !s.pubs[p].Waiting?
  {
    assert Lane(s.log.queue, c) == [];
  }

  /**
    Delivered exactly once.  Take any interleaving in which a blocking subscription resumes, nobody is
    cancelled and the subscription is still open, and let the receiver keep receiving until no goroutine
    has a step left.  Then every frame of the topic newer than `since` has been delivered exactly once,
    and each class was delivered with its replayed frames first.
  */
  lemma EveryNewerFrameIsDeliveredOnce(capacity: int, acts: seq<Step>, f: Frame, c: nat)
    requires capacity > 0 && c < 4 && Runs(Before(capacity, []), acts) && (forall a :: a in acts ==> !GivesUp(a))
    requires var s := Final(Before(capacity, []), acts);
             && s.During? && !s.sub.closed && s.pending == []
             && s.options.since > 0 && Blocks(s.options.overflow)
             && (forall x :: Sub.Internal(x) ==> !Sub.Enabled(s.sub, x))
             && |s.live| <= |s.journal| && Increasing(Earlier(s)) && DistinctSequences(s.journal)
    ensures var s := Final(Before(capacity, []), acts);
            && (f in s.journal && f.sequence > s.options.since ==> Count(s.sub.delivered, f) == 1)
            && s.replayed <= s.sub.log.accepted
            && Lane(s.sub.delivered, c) == Lane(s.replayed, c) + Lane(s.sub.log.accepted[|s.replayed|..], c)
  {
    var s := Final(Before(capacity, []), acts);
    RunOk(Before(capacity, []), acts);
    RunKeepsAll(Before(capacity, []), acts);
    Sub.OnlyDrainedIsStuck(s.sub);
    DrainedLanes(s.sub, c);
    ReplayPrecedesLive(capacity, acts, c);
    EveryNewerFrameEntersOnce(capacity, acts, f);
  }

  // ----- The same, told from the calls alone -----

  /** The frames a run publishes, in the order of the bus lock. */
  function PublishedBy(acts: seq<Step>): seq<Frame> {
    if acts == [] then []
    else if acts[0].Publish? then [acts[0].frame] + PublishedBy(acts[1..])
    else PublishedBy(acts[1..])
  }

  /** Before the subscribe, a run only journals what it publishes. */
  lemma {:induction false} Journaled(s: State, acts: seq<Step>)
    requires s.Before? && Runs(s, acts) && forall a :: a in acts ==> !a.Subscribe?
    ensures Final(s, acts) == Before(s.capacity, s.journal + PublishedBy(acts))
    decreases |acts|
  {
    if acts != [] {
      assert acts[0] in acts && forall a :: a in acts[1..] ==> a in acts;
      Journaled(Apply(s, acts[0]), acts[1..]);
      assert s.journal + [acts[0].frame] + PublishedBy(acts[1..]) ==
             s.journal + ([acts[0].frame] + PublishedBy(acts[1..]));
    }
  }

  /** After it, everything that is published is journaled and goes over the live route. */
  lemma {:induction false} Relayed(s: State, acts: seq<Step>)
    requires s.During? && Runs(s, acts)
    ensures var t := Final(s, acts);
            && t.During? && t.options == s.options && t.replayed == s.replayed
            && t.journal == s.journal + PublishedBy(acts) && t.live == s.live + PublishedBy(acts)
            && t.sub.policy == s.sub.policy && t.sub.log.capacity == s.sub.log.capacity
    decreases |acts|
  {
    if acts != [] {
      var rest := PublishedBy(acts[1..]);
      Relayed(Apply(s, acts[0]), acts[1..]);
      if acts[0].Publish? {
        assert s.journal + [acts[0].frame] + rest == s.journal + ([acts[0].frame] + rest);
        assert s.live + [acts[0].frame] + rest == s.live + ([acts[0].frame] + rest);
      } else if acts[0].Run? {
        Sub.StepConstants(s.sub, acts[0].action);
      }
    }
  }

  lemma {:induction false} RunsInTwo(s: State, a: seq<Step>, b: seq<Step>)
    requires Runs(s, a + b)
    ensures Runs(s, a) && Runs(Final(s, a), b) && Final(s, a + b) == Final(Final(s, a), b)
    decreases |a|
  {
    if a == [] {
      assert a + b == b;
    } else {
      assert (a + b)[0] == a[0] && (a + b)[1..] == a[1..] + b;
      RunsInTwo(Apply(s, a[0]), a[1..], b);
    }
  }

  lemma SubscribeTells(before: State, o: SubscribeOptions, later: seq<Step>)
    requires before.Before? && Enabled(before, Subscribe(o)) && Runs(Apply(before, Subscribe(o)), later)
    ensures var s := Final(Apply(before, Subscribe(o)), later);
            && s.During? && s.options == o
            && s.journal == before.journal + PublishedBy(later) && s.live == PublishedBy(later)
            && s.sub.policy == o.overflow && s.sub.log.capacity == o.buffer
  {
    AdmitAllFacts(Empty(o.buffer), ReplayFor(before.journal, o, before.capacity).frames);
    Relayed(Apply(before, Subscribe(o)), later);
    assert [] + PublishedBy(later) == PublishedBy(later);
  }

  /** What a run leaves of its calls: the journal is what was published, and the live route what came after. */
  lemma RunTells(capacity: int, earlier: seq<Step>, o: SubscribeOptions, later: seq<Step>)
    requires Runs(Before(capacity, []), earlier + ([Subscribe(o)] + later))
    requires forall a :: a in earlier ==> !a.Subscribe?
    ensures var s := Final(Before(capacity, []), earlier + ([Subscribe(o)] + later));
            && s.During? && s.options == o
            && s.journal == PublishedBy(earlier) + PublishedBy(later) && s.live == PublishedBy(later)
            && s.sub.policy == o.overflow && s.sub.log.capacity == o.buffer
            && Earlier(s) == PublishedBy(earlier)
  {
    var start, rest := Before(capacity, []), [Subscribe(o)] + later;
    RunsInTwo(start, earlier, rest);
    Journaled(start, earlier);
    assert [] + PublishedBy(earlier) == PublishedBy(earlier);
    assert rest[0] == Subscribe(o) && rest[1..] == later;
    SubscribeTells(Before(capacity, PublishedBy(earlier)), o, later);
  }

  /**
    Resuming, told from the calls: a blocking subscription asks for what is newer than `since`; whatever was
    published before and after, each frame newer than that is delivered exactly once, when nobody gives up
    and all goroutines have come to rest.
  */
  lemma ResumeDeliversOnce(capacity: int, earlier: seq<Step>, o: SubscribeOptions, later: seq<Step>, f: Frame)
    requires capacity > 0 && o.since > 0 && Blocks(o.overflow)
    requires Runs(Before(capacity, []), earlier + ([Subscribe(o)] + later))
    requires (forall a :: a in earlier ==> !a.Subscribe? && !GivesUp(a)) && (forall a :: a in later ==> !GivesUp(a))
    requires Increasing(PublishedBy(earlier)) && DistinctSequences(PublishedBy(earlier) + PublishedBy(later))
    requires var s := Final(Before(capacity, []), earlier + ([Subscribe(o)] + later));
             s.During? && !s.sub.closed && s.pending == [] && forall x :: Sub.Internal(x) ==> !Sub.Enabled(s.sub, x)
    ensures f in PublishedBy(earlier) + PublishedBy(later) && f.sequence > o.since ==>
              Count(Final(Before(capacity, []), earlier + ([Subscribe(o)] + later)).sub.delivered, f) == 1
  {
    RunTells(capacity, earlier, o, later);
    EveryNewerFrameIsDeliveredOnce(capacity, earlier + ([Subscribe(o)] + later), f, 0);
  }
}
