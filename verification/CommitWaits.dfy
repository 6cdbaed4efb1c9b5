/**
  When a commit changes anything before every strong key is acknowledged, and what a quorum that is not
  reached leaves behind.
*/
module CommitWaits {
  import opened Merging
  import opened Options
  import opened Commits
  import opened CommitLaws
  import opened CommitOrder
  import opened CommitCaches
  import opened RecencyLists

  // ----- Effects that only read, wait and announce -----

  predicate Changes<T>(e: Effect<T>) {
    e.CacheSet? || e.CacheDropped? || e.StoreSet? || e.BatchSet? || e.BatchDropped? || e.BatchCommitted?
  }

  ghost predicate Quiet<T>(log: seq<Effect<T>>) {
    forall i :: 0 <= i < |log| ==> !Changes(log[i])
  }

  lemma QuietThen<T>(a: Out<T>, b: Out<T>)
    requires Quiet(a.log) && (a.err.None? ==> Quiet(b.log))
    ensures Quiet(Then(a, b).log)
  {
  }

  /** After a quiet log the cache has lost nothing but expired entries. */
  lemma {:induction false} QuietWorld<T>(limits: Limits, w: World<T>, log: seq<Effect<T>>, e: Entry<Value<T>>)
    requires Quiet(log) && Distinct(Keys(w.cache))
    ensures var after := PerformAll(limits, w, log);
            && Distinct(Keys(after.cache))
            && (e in after.cache ==> e in w.cache)
            && (e in w.cache && e !in after.cache ==>
                  exists i :: 0 <= i < |log| && log[i].CacheRead? && log[i].key == e.key && Expired(e.item, log[i].at))
    decreases |log|
  {
    if log != [] {
      assert !Changes(log[0]);
      var next := Perform(limits, w, log[0]);
      if log[0].CacheRead? {
        var op: Op<Value<T>> := Get(log[0].key, log[0].at);
        StepDistinct(w.cache, op, limits);
        if e in next.cache {
          StepMember(w.cache, op, limits, e);
        }
        if e in w.cache {
          FindUnique(w.cache, e);
          WithoutMember(w.cache, log[0].key, e);
        }
      }
      QuietWorld(limits, next, log[1..], e);
      if e in next.cache && e !in PerformAll(limits, w, log).cache {
        var i :| 0 <= i < |log[1..]| && log[1..][i].CacheRead? && log[1..][i].key == e.key &&
                 Expired(e.item, log[1..][i].at);
        assert log[i + 1] == log[1..][i];
      }
    }
  }

  /** A quiet log of a commit leaves everything as it was. */
  lemma QuietUntouched<T>(c: Context<T>, sets: seq<Key>, deletes: seq<Key>, w: World<T>, log: seq<Effect<T>>)
    requires Quiet(log) && AllTypical(c, sets, deletes, log) && Distinct(Keys(w.cache))
    requires forall k :: k in sets ==> k in c.queued.sets
    ensures Untouched(c, w, PerformAll(c.setup.limits, w, log))
  {
    var after := PerformAll(c.setup.limits, w, log);
    forall e | e in after.cache ensures e in w.cache {
      QuietWorld(c.setup.limits, w, log, e);
    }
    forall e | e in w.cache && e !in after.cache
      ensures e.key in c.queued.sets && Expired(e.item, c.env.readAt(e.key))
    {
      QuietWorld(c.setup.limits, w, log, e);
      var i :| 0 <= i < |log| && log[i].CacheRead? && log[i].key == e.key && Expired(e.item, log[i].at);
      assert Typical(c, sets, deletes, log[i]);
    }
    QuietStore(c.setup.limits, w, log);
  }

  lemma {:induction false} QuietStore<T>(limits: Limits, w: World<T>, log: seq<Effect<T>>)
    requires Quiet(log)
    ensures var after := PerformAll(limits, w, log); after.store == w.store && after.batch == w.batch
    decreases |log|
  {
    if log != [] {
      assert !Changes(log[0]);
      QuietStore(limits, Perform(limits, w, log[0]), log[1..]);
    }
  }

  // ----- Waiting for the quorum -----

  ghost predicate AckedBefore<T>(log: seq<Effect<T>>, i: nat, k: Key)
    requires i <= |log|
  {
    exists j :: 0 <= j < i && log[j] == Acked(k)
  }

  ghost predicate StrongKey<T>(c: Context<T>, k: Key) {
    (k in c.queued.sets || k in c.queued.deletes) && IsStrong(c, k)
  }

  /** No change to the cache, the store or the batch before every strong key is acknowledged. */
  ghost predicate WaitsForAll<T>(c: Context<T>, log: seq<Effect<T>>) {
    forall i, k :: 0 <= i < |log| && Changes(log[i]) && StrongKey(c, k) ==> AckedBefore(log, i, k)
  }

  /** As long as a strong key is not acknowledged, the cache and the store are as they were. */
  ghost predicate HoldsBack<T>(c: Context<T>, w: World<T>, log: seq<Effect<T>>) {
    forall i, k :: 0 <= i <= |log| && StrongKey(c, k) && !AckedBefore(log, i, k) ==>
      Untouched(c, w, PerformAll(c.setup.limits, w, log[..i]))
  }

  lemma WaitingHoldsBack<T>(c: Context<T>, sets: seq<Key>, deletes: seq<Key>, w: World<T>, log: seq<Effect<T>>)
    requires WaitsForAll(c, log) && AllTypical(c, sets, deletes, log) && Distinct(Keys(w.cache))
    requires forall k :: k in sets ==> k in c.queued.sets
    ensures HoldsBack(c, w, log)
  {
    forall i, k | 0 <= i <= |log| && StrongKey(c, k) && !AckedBefore(log, i, k)
      ensures Untouched(c, w, PerformAll(c.setup.limits, w, log[..i]))
    {
      forall j | 0 <= j < i ensures !Changes(log[j]) {
        if Changes(log[j]) {
          assert false;
        }
      }
      QuietUntouched(c, sets, deletes, w, log[..i]);
    }
  }

  /** The transaction mixes modes in a way that lets a change overtake an acknowledgement. */
  ghost predicate Overtakes<T>(c: Context<T>) {
    || (exists a, b :: a in c.queued.sets && !IsStrong(c, a) && StrongKey(c, b))
    || (exists a, b :: a in c.queued.deletes && !IsStrong(c, a) && b in c.queued.deletes && IsStrong(c, b))
  }

  /** The first two loops, in which strong keys are acknowledged. */
  predicate Acknowledges(phase: Phase) {
    phase.Sets? || phase.Deletes?
  }

  ghost predicate StrongIn<T>(c: Context<T>, phase: Phase, k: Key) {
    IsStrong(c, k) && Acknowledges(phase) && (phase.Sets? ==> k in c.queued.sets)
  }

  lemma StrongStage<T>(c: Context<T>, phase: Phase, w: World<T>, k: Key)
    requires StrongIn(c, phase, k)
    ensures Quiet(Stage(c, phase, k, w).log)
    ensures Stage(c, phase, k, w).err.None? ==> Acked(k) in Stage(c, phase, k, w).log
  {
    if phase.Sets? && Stage(c, phase, k, w).err.None? {
      assert Stage(c, phase, k, w).log[1] == Acked(k);
    }
  }

  /** A loop over strong keys changes nothing; if it gets through, every key is acknowledged. */
  lemma {:induction false} StrongLoop<T>(c: Context<T>, phase: Phase, keys: seq<Key>, w: World<T>, k: Key)
    requires forall x :: x in keys ==> StrongIn(c, phase, x)
    ensures Quiet(RunAll(c, phase, keys, w).log)
    ensures RunAll(c, phase, keys, w).err.None? && k in keys ==> Acked(k) in RunAll(c, phase, keys, w).log
    decreases |keys|
  {
    if keys != [] {
      var first := Stage(c, phase, keys[0], w);
      StrongStage(c, phase, w, keys[0]);
      assert forall x :: x in keys[1..] ==> x in keys;
      StrongLoop(c, phase, keys[1..], Next(c, w, first), k);
      QuietThen(first, RunAll(c, phase, keys[1..], Next(c, w, first)));
    }
  }

  /** A log that is quiet up to the last strong acknowledgement waits for all. */
  lemma QuietFirst<T>(c: Context<T>, quiet: Out<T>, rest: Out<T>)
    requires Quiet(quiet.log)
    requires quiet.err.None? ==> forall k :: StrongKey(c, k) ==> Acked(k) in quiet.log
    ensures WaitsForAll(c, Then(quiet, rest).log)
  {
    var log := Then(quiet, rest).log;
    forall i, k | 0 <= i < |log| && Changes(log[i]) && StrongKey(c, k) ensures AckedBefore(log, i, k) {
      assert quiet.err.None? && i >= |quiet.log|;
      var j :| 0 <= j < |quiet.log| && quiet.log[j] == Acked(k);
      assert log[j] == Acked(k);
    }
  }

  lemma ThenAssociates<T>(a: Out<T>, b: Out<T>, d: Out<T>)
    ensures Then(a, Then(b, d)) == Then(Then(a, b), d)
  {
    if a.err.None? && b.err.None? {
      assert a.log + (b.log + d.log) == a.log + b.log + d.log;
    }
  }

  /** All strong keys are among the sets: after the first loop everything is acknowledged. */
  lemma WaitsAtSets<T>(c: Context<T>, sets: seq<Key>, w: World<T>, rest: Out<T>)
    requires forall x :: x in sets ==> StrongIn(c, Sets, x)
    requires forall k :: StrongKey(c, k) ==> k in sets
    ensures WaitsForAll(c, Then(RunAll(c, Sets, sets, w), rest).log)
  {
    StrongLoop(c, Sets, sets, w, "");
    forall k | RunAll(c, Sets, sets, w).err.None? && StrongKey(c, k) ensures Acked(k) in RunAll(c, Sets, sets, w).log {
      StrongLoop(c, Sets, sets, w, k);
    }
    QuietFirst(c, RunAll(c, Sets, sets, w), rest);
  }

  /** The two acknowledging loops. */
  function Acknowledged<T(==)>(c: Context<T>, sets: seq<Key>, deletes: seq<Key>, w: World<T>): Out<T> {
    var first := RunAll(c, Sets, sets, w);
    Then(first, RunAll(c, Deletes, deletes, Next(c, w, first)))
  }

  lemma StrongLoops<T>(c: Context<T>, sets: seq<Key>, deletes: seq<Key>, w: World<T>, k: Key)
    requires forall x :: x in sets ==> StrongIn(c, Sets, x)
    requires forall x :: x in deletes ==> StrongIn(c, Deletes, x)
    ensures Quiet(Acknowledged(c, sets, deletes, w).log)
    ensures Acknowledged(c, sets, deletes, w).err.None? && (k in sets || k in deletes) ==>
              Acked(k) in Acknowledged(c, sets, deletes, w).log
  {
    var first := RunAll(c, Sets, sets, w);
    StrongLoop(c, Sets, sets, w, k);
    StrongLoop(c, Deletes, deletes, Next(c, w, first), k);
    QuietThen(first, RunAll(c, Deletes, deletes, Next(c, w, first)));
  }

  /** All keys are strong: after the second loop everything is acknowledged. */
  lemma WaitsAtDeletes<T>(c: Context<T>, sets: seq<Key>, deletes: seq<Key>, w: World<T>, rest: Out<T>)
    requires forall x :: x in sets ==> StrongIn(c, Sets, x)
    requires forall x :: x in deletes ==> StrongIn(c, Deletes, x)
    requires forall k :: StrongKey(c, k) ==> k in sets || k in deletes
    ensures WaitsForAll(c, Then(Acknowledged(c, sets, deletes, w), rest).log)
  {
    var acks := Acknowledged(c, sets, deletes, w);
    StrongLoops(c, sets, deletes, w, "");
    forall k | acks.err.None? && StrongKey(c, k) ensures Acked(k) in acks.log {
      StrongLoops(c, sets, deletes, w, k);
    }
    QuietFirst(c, acks, rest);
  }

  /** What is left of a commit after the two acknowledging loops. */
  function Remainder<T(==)>(c: Context<T>, sets: seq<Key>, deletes: seq<Key>, w: World<T>): Out<T> {
    var w1 := Next(c, w, RunAll(c, Sets, sets, w));
    Applied(c, sets, deletes, Next(c, w1, RunAll(c, Deletes, deletes, w1)))
  }

  lemma BodySplits<T>(c: Context<T>, sets: seq<Key>, deletes: seq<Key>, w: World<T>)
    ensures Body(c, sets, deletes, w) == Then(Acknowledged(c, sets, deletes, w), Remainder(c, sets, deletes, w))
  {
    var first := RunAll(c, Sets, sets, w);
    var second := RunAll(c, Deletes, deletes, Next(c, w, first));
    ThenAssociates(first, second, Remainder(c, sets, deletes, w));
  }

  lemma NoStrongWaits<T>(c: Context<T>, log: seq<Effect<T>>)
    requires forall k :: !StrongKey(c, k)
    ensures WaitsForAll(c, log)
  {
  }

  lemma ChangesWait<T>(c: Context<T>, sets: seq<Key>, deletes: seq<Key>, w: World<T>)
    requires IsOrder(sets, c.queued.sets.Keys) && IsOrder(deletes, c.queued.deletes) && !Overtakes(c)
    ensures WaitsForAll(c, Commit(c, sets, deletes, w).log)
  {
    if b :| StrongKey(c, b) {
      if d :| d in c.queued.deletes && IsStrong(c, d) {
        WaitsAtDeletes(c, sets, deletes, w, Remainder(c, sets, deletes, w));
        BodySplits(c, sets, deletes, w);
      } else {
        WaitsAtSets(c, sets, w, AfterSets(c, sets, deletes, Next(c, w, RunAll(c, Sets, sets, w))));
      }
    } else {
      NoStrongWaits(c, Commit(c, sets, deletes, w).log);
    }
  }

  /**
    Unless modes are mixed that way, nothing is applied or batched before every strong key is acknowledged,
    and until then the cache and the store are as they were.
  */
  lemma CommitWaitsForAll<T>(c: Context<T>, sets: seq<Key>, deletes: seq<Key>, w: World<T>)
    requires IsOrder(sets, c.queued.sets.Keys) && IsOrder(deletes, c.queued.deletes) && !Overtakes(c)
    ensures WaitsForAll(c, Commit(c, sets, deletes, w).log)
    ensures Distinct(Keys(w.cache)) ==> HoldsBack(c, w, Commit(c, sets, deletes, w).log)
  {
    ChangesWait(c, sets, deletes, w);
    CommitTypical(c, sets, deletes, w);
    if Distinct(Keys(w.cache)) {
      WaitingHoldsBack(c, sets, deletes, w, Commit(c, sets, deletes, w).log);
    }
  }

  // ----- A quorum that is not reached -----

  lemma AwaitFailsStage<T>(c: Context<T>, phase: Phase, w: World<T>, k: Key)
    requires Stage(c, phase, k, w).err == Some(ErrCall(Await))
    ensures IsStrong(c, k) && c.env.fails(Await, k)
  {
  }

  lemma {:induction false} AwaitFails<T>(c: Context<T>, phase: Phase, keys: seq<Key>, w: World<T>) returns (k: Key)
    requires RunAll(c, phase, keys, w).err == Some(ErrCall(Await))
    ensures k in keys && IsStrong(c, k) && c.env.fails(Await, k)
    decreases |keys|
  {
    var first := Stage(c, phase, keys[0], w);
    if first.err.Some? {
      AwaitFailsStage(c, phase, w, keys[0]);
      k := keys[0];
    } else {
      k := AwaitFails(c, phase, keys[1..], Next(c, w, first));
    }
  }

  lemma UnansweredKey<T>(c: Context<T>, sets: seq<Key>, deletes: seq<Key>, w: World<T>) returns (k: Key)
    requires IsOrder(sets, c.queued.sets.Keys) && IsOrder(deletes, c.queued.deletes)
    requires Commit(c, sets, deletes, w).err == Some(ErrCall(Await))
    ensures StrongKey(c, k) && c.env.fails(Await, k)
  {
    var first := RunAll(c, Sets, sets, w);
    if first.err.Some? {
      k := AwaitFails(c, Sets, sets, w);
    } else {
      var w1 := Next(c, w, first);
      var second := RunAll(c, Deletes, deletes, w1);
      if second.err.Some? {
        k := AwaitFails(c, Deletes, deletes, w1);
      } else {
        k := UnansweredLater(c, sets, deletes, Next(c, w1, second));
      }
    }
  }

  lemma UnansweredLater<T>(c: Context<T>, sets: seq<Key>, deletes: seq<Key>, w: World<T>) returns (k: Key)
    requires IsOrder(sets, c.queued.sets.Keys) && IsOrder(deletes, c.queued.deletes)
    requires Applied(c, sets, deletes, w).err == Some(ErrCall(Await))
    ensures StrongKey(c, k) && c.env.fails(Await, k)
  {
    var third := RunAll(c, StrongSets, sets, w);
    if third.err.Some? {
      k := AwaitFails(c, StrongSets, sets, w);
    } else {
      k := AwaitFails(c, StrongDeletes, deletes, Next(c, w, third));
    }
  }

  lemma LocalNeverAcks<T>(c: Context<T>, x: Key, v: Value<T>, k: Key)
    requires x in c.setup.regs
    ensures Acked(k) !in ApplySet(c, x, v).log
  {
  }

  lemma AckedByMode<T>(c: Context<T>, x: Key, acked: seq<Effect<T>>, applied: Out<T>, k: Key)
    requires x in c.setup.regs && Acked(k) !in applied.log && Acked(k) in ByMode(c, x, acked, applied).log
    ensures Acked(k) in acked && IsStrong(c, x) && !c.env.fails(Await, x)
  {
  }

  lemma AckedStage<T>(c: Context<T>, phase: Phase, w: World<T>, x: Key, k: Key)
    requires Acked(k) in Stage(c, phase, x, w).log
    ensures x == k && IsStrong(c, k) && !c.env.fails(Await, k)
  {
    match phase
    case Sets =>
      var p := PreparedIn(c, x, w.cache);
      if p.Ready? {
        LocalNeverAcks(c, x, p.value, k);
        AckedByMode(c, x, [Acked(x), Held(x, p.value)], ApplySet(c, x, p.value), k);
      }
    case Deletes =>
      LocalDropNeverAcks(c, x, k);
      AckedByMode(c, x, [Acked(x)], ApplyDrop(c, x), k);
    case StrongSets => LocalNeverAcks(c, x, w.later[x], k);
    case StrongDeletes => LocalDropNeverAcks(c, x, k);
  }

  lemma LocalDropNeverAcks<T>(c: Context<T>, x: Key, k: Key)
    ensures Acked(k) !in ApplyDrop(c, x).log
  {
  }

  lemma {:induction false} AckedLoop<T>(c: Context<T>, phase: Phase, keys: seq<Key>, w: World<T>, k: Key)
    requires Acked(k) in RunAll(c, phase, keys, w).log
    ensures k in keys && !c.env.fails(Await, k)
    decreases |keys|
  {
    var first := Stage(c, phase, keys[0], w);
    if Acked(k) in first.log {
      AckedStage(c, phase, w, keys[0], k);
    } else {
      AckedLoop(c, phase, keys[1..], Next(c, w, first), k);
    }
  }

  /** Only an answered wait is logged. */
  lemma AckedAnswered<T>(c: Context<T>, sets: seq<Key>, deletes: seq<Key>, w: World<T>, k: Key)
    requires Acked(k) in Commit(c, sets, deletes, w).log
    ensures !c.env.fails(Await, k)
  {
    var w1 := Next(c, w, RunAll(c, Sets, sets, w));
    var w2 := Next(c, w1, RunAll(c, Deletes, deletes, w1));
    if Acked(k) in RunAll(c, Sets, sets, w).log {
      AckedLoop(c, Sets, sets, w, k);
    } else if Acked(k) in RunAll(c, Deletes, deletes, w1).log {
      AckedLoop(c, Deletes, deletes, w1, k);
    } else {
      AckedLater(c, sets, deletes, w2, k);
    }
  }

  lemma AckedLater<T>(c: Context<T>, sets: seq<Key>, deletes: seq<Key>, w: World<T>, k: Key)
    requires Acked(k) in Applied(c, sets, deletes, w).log
    ensures !c.env.fails(Await, k)
  {
    var w1 := Next(c, w, RunAll(c, StrongSets, sets, w));
    if Acked(k) in RunAll(c, StrongSets, sets, w).log {
      AckedLoop(c, StrongSets, sets, w, k);
    } else {
      AckedLoop(c, StrongDeletes, deletes, w1, k);
    }
  }

  /** When a quorum is not reached, a commit that does not mix modes that way has changed nothing. */
  lemma MissedQuorumChangesNothing<T>(c: Context<T>, sets: seq<Key>, deletes: seq<Key>, w: World<T>)
    requires IsOrder(sets, c.queued.sets.Keys) && IsOrder(deletes, c.queued.deletes) && Distinct(Keys(w.cache))
    requires !Overtakes(c) && Commit(c, sets, deletes, w).err == Some(ErrCall(Await))
    ensures var after := Next(c, w, Commit(c, sets, deletes, w));
            Untouched(c, w, after) && after.batch == w.batch
  {
    var log := Commit(c, sets, deletes, w).log;
    var k := UnansweredKey(c, sets, deletes, w);
    ChangesWait(c, sets, deletes, w);
    forall i | 0 <= i < |log| ensures !Changes(log[i]) {
      if Changes(log[i]) {
        assert AckedBefore(log, i, k);
        AckedAnswered(c, sets, deletes, w, k);
        assert false;
      }
    }
    CommitTypical(c, sets, deletes, w);
    QuietUntouched(c, sets, deletes, w, log);
    QuietStore(c.setup.limits, w, log);
  }

  // ----- Mixed modes do overtake -----

  /** The same commit with no failing call, every value being written at the moment its key is read. */
  function Smooth<T>(c: Context<T>): Context<T> {
    c.(env := c.env.(fails := (call, k) => false, storedAt := c.env.readAt))
  }

  /** Every key is registered, and there is a bus if one is strong. */
  ghost predicate Viable<T>(c: Context<T>) {
    forall k :: k in c.queued.sets || k in c.queued.deletes ==> k in c.setup.regs && (IsStrong(c, k) ==> c.setup.bus)
  }

  /** The cache can hold all the values that are compared. */
  ghost predicate CanCompare<T>(c: Context<T>) {
    FitsCount(|c.queued.cas.Keys * c.queued.sets.Keys|, c.setup.limits, c.setup.valueSize)
  }

  function ComparedEntry<T>(c: Context<T>, k: Key): Entry<Value<T>>
    requires k in c.queued.cas
  {
    Cached(c, k, c.queued.cas[k])
  }

  /** A cached value that would expire at the moment its key is read. */
  function Cached<T>(c: Context<T>, k: Key, data: T): Entry<Value<T>> {
    Entry(k, Item(Value(data, 0, Nil, ""), c.setup.valueSize, At(c.env.readAt(k))))
  }

  function Compared<T>(c: Context<T>, keys: seq<Key>): (r: Cache<T>)
    requires forall k :: k in keys ==> k in c.queued.cas
    ensures Keys(r) == keys
  {
    seq(|keys|, i requires 0 <= i < |keys| => ComparedEntry(c, keys[i]))
  }

  /** And one entry more. */
  ghost predicate RoomToSpare<T>(c: Context<T>) {
    FitsCount(|c.queued.cas.Keys * c.queued.sets.Keys| + 1, c.setup.limits, c.setup.valueSize)
  }

  /** The compared values, and `a` with the value `d` unless it is set. */
  function Witness<T>(c: Context<T>, d: T, a: Key, keys: seq<Key>): (r: Cache<T>)
    requires forall k :: k in keys ==> k in c.queued.cas
    ensures |r| <= |keys| + 1
  {
    if a in c.queued.sets then Compared(c, keys) else [Cached(c, a, d)] + Compared(c, keys)
  }

  lemma WitnessDistinct<T>(c: Context<T>, d: T, a: Key, keys: seq<Key>)
    requires (forall k :: k in keys ==> k in c.queued.cas && k in c.queued.sets) && Distinct(keys)
    ensures Distinct(Keys(Witness(c, d, a, keys)))
  {
    if a !in c.queued.sets {
      var r := Witness(c, d, a, keys);
      forall i, j | 0 <= i < j < |r| ensures Keys(r)[i] != Keys(r)[j] {
        assert Keys(r)[j] == keys[j - 1] && keys[j - 1] in keys;
        assert i > 0 ==> Keys(r)[i] == keys[i - 1];
      }
    }
  }

  lemma WitnessMarked<T>(c: Context<T>, d: T, a: Key, keys: seq<Key>, e: Entry<Value<T>>)
    requires (forall k :: k in keys ==> k in c.queued.cas) && e in Witness(c, d, a, keys)
    ensures e.item.size == c.setup.valueSize && e.item.expiresAt == At(c.env.readAt(e.key))
  {
  }

  lemma WitnessOk<T>(c: Context<T>, d: T, a: Key, keys: seq<Key>)
    requires (forall k :: k in keys ==> k in c.queued.cas && k in c.queued.sets) && Distinct(keys)
    requires FitsCount(|Witness(c, d, a, keys)|, c.setup.limits, c.setup.valueSize)
    ensures CacheOk(c.setup, Witness(c, d, a, keys))
    ensures forall e :: e in Witness(c, d, a, keys) ==> e.item.expiresAt == At(c.env.readAt(e.key))
  {
    var r := Witness(c, d, a, keys);
    WitnessDistinct(c, d, a, keys);
    forall e | e in r ensures e.item.size == c.setup.valueSize && e.item.expiresAt == At(c.env.readAt(e.key)) {
      WitnessMarked(c, d, a, keys, e);
    }
    UniformFits(r, c.setup.limits, c.setup.valueSize);
  }

  lemma WitnessPrepares<T>(c: Context<T>, d: T, a: Key, keys: seq<Key>, k: Key)
    requires (forall x :: x in keys ==> x in c.queued.cas && x in c.queued.sets) && Distinct(keys)
    requires k in c.queued.sets && (k in c.queued.cas ==> k in keys)
    ensures PreparedIn(c, k, Witness(c, d, a, keys)).Ready?
  {
    if k in c.queued.cas {
      var r := Witness(c, d, a, keys);
      var i :| 0 <= i < |keys| && keys[i] == k;
      assert Compared(c, keys)[i] == ComparedEntry(c, k);
      assert ComparedEntry(c, k) in r;
      WitnessDistinct(c, d, a, keys);
      FindUnique(r, ComparedEntry(c, k));
    }
  }

  /** A cache from which every key can be prepared and which holds `a` unless it is set. */
  lemma WitnessCache<T>(c: Context<T>, d: T, a: Key) returns (r: Cache<T>)
    requires RoomToSpare(c)
    ensures CacheOk(c.setup, r) && AllReady(c, r) && (a !in c.queued.sets ==> Cached(c, a, d) in r)
    ensures forall e :: e in r ==> e.item.expiresAt == At(c.env.readAt(e.key))
  {
    var compared := c.queued.cas.Keys * c.queued.sets.Keys;
    var keys := SomeOrder(compared);
    r := Witness(c, d, a, keys);
    DistinctCount(keys, compared);
    FewerFit(|r|, |compared| + 1, c.setup.limits, c.setup.valueSize);
    WitnessOk(c, d, a, keys);
    forall k | k in c.queued.sets ensures PreparedIn(c, k, r).Ready? {
      WitnessPrepares(c, d, a, keys, k);
    }
  }

  /** If the cache cannot hold them all, no order and no cache lets the commit through. */
  lemma CannotCompareFails<T>(c: Context<T>, sets: seq<Key>, deletes: seq<Key>, w: World<T>)
    requires IsOrder(sets, c.queued.sets.Keys) && IsOrder(deletes, c.queued.deletes)
    requires CacheOk(c.setup, w.cache) && !CanCompare(c)
    ensures Commit(c, sets, deletes, w).err.Some?
  {
    var compared, cached := c.queued.cas.Keys * c.queued.sets.Keys, KeySet(Keys(w.cache));
    if compared <= cached {
      SubsetSize(compared, cached);
      KeySetSize(Keys(w.cache));
      UniformFits(w.cache, c.setup.limits, c.setup.valueSize);
      FewerFit(|compared|, |w.cache|, c.setup.limits, c.setup.valueSize);
      assert false;
    } else {
      var k :| k in compared && k !in cached;
      RefusedFails(c, w.cache, sets, w, k);
    }
  }

  /** A weak set that comes first is applied first. */
  lemma WeakSetFirst<T>(c: Context<T>, sets: seq<Key>, deletes: seq<Key>, w: World<T>, a: Key)
    requires sets != [] && sets[0] == a && a in c.queued.sets && a in c.setup.regs && !IsStrong(c, a)
    requires PreparedIn(c, a, w.cache).Ready?
    requires !c.env.fails(OpenBatch, "") && !c.env.fails(GetCache, a) && !c.env.fails(SetCache, a)
    ensures var log := Commit(c, sets, deletes, w).log; |log| > 1 && log[0].CacheRead? && log[1].CacheSet?
  {
    var v := PreparedIn(c, a, w.cache).value;
    var applied := ApplySet(c, a, v).log;
    assert |applied| > 0 && applied[0].CacheSet?;
    var out := WritePrepared(c, a, Ready(v)).log;
    assert |out| > 0 && out[0].CacheSet?;
    var log := Stage(c, Sets, a, w).log;
    assert |log| > 1 && log[0].CacheRead? && log[1].CacheSet?;
  }

  /** A weak delete that comes first is applied right after the sets. */
  lemma WeakDeleteFirst<T>(c: Context<T>, sets: seq<Key>, deletes: seq<Key>, w: World<T>, a: Key)
    requires deletes != [] && deletes[0] == a && a in c.setup.regs && !IsStrong(c, a)
    requires RunAll(c, Sets, sets, w).err.None? && !c.env.fails(OpenBatch, "") && !c.env.fails(DropCache, a)
    ensures var first, log := RunAll(c, Sets, sets, w).log, Commit(c, sets, deletes, w).log;
            |log| > |first| && log[..|first|] == first && log[|first|] == CacheDropped(a)
  {
    var first := RunAll(c, Sets, sets, w);
    var applied := ApplyDrop(c, a).log;
    assert |applied| > 0 && applied[0] == CacheDropped(a);
    var stage := Stage(c, Deletes, a, Next(c, w, first)).log;
    assert |stage| > 0 && stage[0] == CacheDropped(a);
  }

  lemma SmoothPasses<T>(c: Context<T>)
    requires Viable(c)
    ensures CallsPass(Smooth(c))
  {
    forall k | k in c.queued.sets || k in c.queued.deletes ensures ModePasses(Smooth(c), k) {
      assert k in c.setup.regs;
    }
  }

  /** When all sets are strong the first loop gets through from any cache that holds what is compared. */
  lemma StrongSetsGetThrough<T>(c: Context<T>, sets: seq<Key>, deletes: seq<Key>, w: World<T>)
    requires Visits(c, sets, deletes)
    requires CacheOk(c.setup, w.cache) && Starts(w) && Viable(c) && AllReady(Smooth(c), w.cache)
    requires forall k :: k in c.queued.sets ==> IsStrong(c, k)
    ensures RunAll(Smooth(c), Sets, sets, w).err.None?
  {
    var s := Smooth(c);
    assert forall k :: k in c.queued.sets ==> IsStrong(s, k);
    SmoothPasses(c);
    forall k | Sensitive(s, w.cache, k) ensures Room(s, w.cache, k) {
      StrongSetsHaveRoom(s, w.cache, k);
    }
    RoomSuffices(s, sets, deletes, w);
    var w1, w2, w3, w4 := CommitWorlds(s, sets, deletes, w);
  }

  lemma SetOvertakes<T>(c: Context<T>, sets: seq<Key>, deletes: seq<Key>, w: World<T>, a: Key, b: Key)
    requires Visits(c, sets, deletes) && CacheOk(c.setup, w.cache) && Marked(c, w)
    requires FitsCount(1, c.setup.limits, c.setup.valueSize)
    requires sets != [] && sets[0] == a && a in c.queued.sets && a in c.setup.regs && !IsStrong(c, a) && StrongKey(c, b)
    requires PreparedIn(c, a, w.cache).Ready?
    requires !c.env.fails(OpenBatch, "") && !c.env.fails(GetCache, a) && !c.env.fails(SetCache, a)
    ensures !HoldsBack(c, w, Commit(c, sets, deletes, w).log)
  {
    var log := Commit(c, sets, deletes, w).log;
    WeakSetFirst(c, sets, deletes, w, a);
    CommitTypical(c, sets, deletes, w);
    assert log[..2][1].CacheSet?;
    WriteShows(c, sets, deletes, w, log[..2]);
    assert !AckedBefore(log, 2, b);
  }

  lemma NotAckedBySets<T>(c: Context<T>, sets: seq<Key>, w: World<T>, b: Key, log: seq<Effect<T>>)
    requires var first := RunAll(c, Sets, sets, w).log;
             b !in sets && |log| > |first| && log[..|first|] == first && !log[|first|].Acked?
    ensures !AckedBefore(log, |RunAll(c, Sets, sets, w).log| + 1, b)
  {
    var first := RunAll(c, Sets, sets, w).log;
    assert Acked(b) !in first by {
      if Acked(b) in first {
        AckedLoop(c, Sets, sets, w, b);
      }
    }
    NotAckedIn(first, log, b);
  }

  lemma NotAckedIn<T>(first: seq<Effect<T>>, log: seq<Effect<T>>, b: Key)
    requires Acked(b) !in first && |log| > |first| && log[..|first|] == first && !log[|first|].Acked?
    ensures !AckedBefore(log, |first| + 1, b)
  {
    assert forall j :: 0 <= j < |first| ==> log[j] == first[j];
  }

  lemma DeleteOvertakes<T>(c: Context<T>, sets: seq<Key>, deletes: seq<Key>, w: World<T>, x: Entry<Value<T>>, b: Key)
    requires Visits(c, sets, deletes) && x in w.cache
    requires deletes != [] && deletes[0] == x.key && x.key in c.setup.regs && !IsStrong(c, x.key)
    requires StrongKey(c, b) && b !in sets
    requires RunAll(c, Sets, sets, w).err.None? && !c.env.fails(OpenBatch, "") && !c.env.fails(DropCache, x.key)
    ensures !HoldsBack(c, w, Commit(c, sets, deletes, w).log)
  {
    WeakDeleteFirst(c, sets, deletes, w, x.key);
    CommitTypical(c, sets, deletes, w);
    var first, log := RunAll(c, Sets, sets, w).log, Commit(c, sets, deletes, w).log;
    NotAckedBySets(c, sets, w, b, log);
    assert x.key in deletes;
    DropShows(c, sets, deletes, w, log[..|first| + 1], x, |first|);
  }

  /**
    With modes mixed that way, some cache and some order change the cache before a quorum has answered. (`d` is
    any value to have cached.)
  */
  lemma MixedModesOvertake<T>(c: Context<T>, d: T) returns (w: World<T>, sets: seq<Key>, deletes: seq<Key>)
    requires Viable(c) && RoomToSpare(c) && Overtakes(c) && c.queued.sets.Keys !! c.queued.deletes
    ensures Visits(c, sets, deletes) && CacheOk(c.setup, w.cache) && Starts(w)
    ensures !HoldsBack(Smooth(c), w, Commit(Smooth(c), sets, deletes, w).log)
  {
    if a, b :| a in c.queued.sets && !IsStrong(c, a) && StrongKey(c, b) {
      w, sets, deletes := SetFirst(c, d, a, b);
    } else {
      var a, b :| a in c.queued.deletes && !IsStrong(c, a) && b in c.queued.deletes && IsStrong(c, b);
      assert StrongKey(c, b);
      w, sets, deletes := DeleteFirst(c, d, a, b);
    }
  }

  lemma SetFirst<T>(c: Context<T>, d: T, a: Key, b: Key) returns (w: World<T>, sets: seq<Key>, deletes: seq<Key>)
    requires Viable(c) && RoomToSpare(c) && c.queued.sets.Keys !! c.queued.deletes
    requires a in c.queued.sets && !IsStrong(c, a) && StrongKey(c, b)
    ensures Visits(c, sets, deletes) && CacheOk(c.setup, w.cache) && Starts(w)
    ensures !HoldsBack(Smooth(c), w, Commit(Smooth(c), sets, deletes, w).log)
  {
    var r := WitnessCache(Smooth(c), d, a);
    w := World(r, map[], Batch(map[], {}), map[]);
    sets := OrderFrom(c.queued.sets.Keys, a);
    deletes := SomeOrder(c.queued.deletes);
    FewerFit(1, |c.queued.cas.Keys * c.queued.sets.Keys| + 1, c.setup.limits, c.setup.valueSize);
    SetOvertakes(Smooth(c), sets, deletes, w, a, b);
  }

  lemma DeleteFirst<T>(c: Context<T>, d: T, a: Key, b: Key) returns (w: World<T>, sets: seq<Key>, deletes: seq<Key>)
    requires Viable(c) && RoomToSpare(c) && c.queued.sets.Keys !! c.queued.deletes
    requires forall k :: k in c.queued.sets ==> IsStrong(c, k)
    requires a in c.queued.deletes && !IsStrong(c, a) && b in c.queued.deletes && IsStrong(c, b)
    ensures Visits(c, sets, deletes) && CacheOk(c.setup, w.cache) && Starts(w)
    ensures !HoldsBack(Smooth(c), w, Commit(Smooth(c), sets, deletes, w).log)
  {
    var r := WitnessCache(Smooth(c), d, a);
    w := World(r, map[], Batch(map[], {}), map[]);
    sets := SomeOrder(c.queued.sets.Keys);
    deletes := OrderFrom(c.queued.deletes, a);
    StrongSetsGetThrough(c, sets, deletes, w);
    DeleteOvertakes(Smooth(c), sets, deletes, w, Cached(Smooth(c), a, d), b);
  }

  /** Whatever fails, from any cache and in any order, nothing changes before all strong keys are acknowledged. */
  ghost predicate AlwaysWaits<T(!new)>(c: Context<T>) {
    forall env: Env<T>, w: World<T>, sets: seq<Key>, deletes: seq<Key> ::
      Visits(c, sets, deletes) && CacheOk(c.setup, w.cache) && Starts(w) ==>
        HoldsBack(c.(env := env), w, Commit(c.(env := env), sets, deletes, w).log)
  }

  /** A transaction whose keys are registered always waits if and only if it does not mix modes that way. */
  lemma WaitsExactly<T(!new)>(c: Context<T>, d: T)
    requires Viable(c) && RoomToSpare(c) && c.queued.sets.Keys !! c.queued.deletes
    ensures AlwaysWaits(c) <==> !Overtakes(c)
  {
    if Overtakes(c) {
      var w, sets, deletes := MixedModesOvertake(c, d);
      assert Smooth(c) == c.(env := Smooth(c).env);
    } else {
      forall env: Env<T>, w: World<T>, sets: seq<Key>, deletes: seq<Key> |
        Visits(c, sets, deletes) && CacheOk(c.setup, w.cache) && Starts(w)
        ensures HoldsBack(c.(env := env), w, Commit(c.(env := env), sets, deletes, w).log)
      {
        SameMix(c, env);
        CommitWaitsForAll(c.(env := env), sets, deletes, w);
      }
    }
  }

  lemma SameMix<T>(c: Context<T>, env: Env<T>)
    ensures Overtakes(c.(env := env)) <==> Overtakes(c)
  {
    var d := c.(env := env);
    assert forall k :: StrongKey(d, k) <==> StrongKey(c, k);
    assert forall k :: IsStrong(d, k) <==> IsStrong(c, k);
  }
}
