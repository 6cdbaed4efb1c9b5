/**
  What a failed commit leaves behind. A commit is announced as atomic; the lemmas below say for which
  transactions it is, whatever call fails.
*/
module CommitFailures {
  import opened Merging
  import opened Options
  import opened Commits
  import opened CommitLaws
  import opened CommitOrder
  import opened CommitCaches
  import opened CommitWaits
  import opened RecencyLists

  // ----- Over a store that is not written directly -----

  ghost predicate StoreUntouched<T>(log: seq<Effect<T>>) {
    forall i :: 0 <= i < |log| ==> !log[i].StoreSet? && !log[i].BatchCommitted?
  }

  lemma {:induction false} UntouchedStore<T>(limits: Limits, w: World<T>, log: seq<Effect<T>>)
    requires StoreUntouched(log)
    ensures PerformAll(limits, w, log).store == w.store
    decreases |log|
  {
    if log != [] {
      assert !log[0].StoreSet? && !log[0].BatchCommitted?;
      UntouchedStore(limits, Perform(limits, w, log[0]), log[1..]);
    }
  }

  lemma LocalLeavesStore<T>(c: Context<T>, k: Key, v: Value<T>)
    requires !c.setup.store.PlainStore? && k in c.setup.regs
    ensures StoreUntouched(ApplySet(c, k, v).log)
  {
  }

  lemma DropLeavesStore<T>(c: Context<T>, k: Key)
    ensures StoreUntouched(ApplyDrop(c, k).log)
  {
  }

  lemma ModeLeavesStore<T>(c: Context<T>, k: Key, acked: seq<Effect<T>>, applied: Out<T>)
    requires k in c.setup.regs && StoreUntouched(acked) && StoreUntouched(applied.log)
    ensures StoreUntouched(ByMode(c, k, acked, applied).log)
  {
  }

  lemma StageLeavesStore<T>(c: Context<T>, phase: Phase, k: Key, w: World<T>)
    requires !c.setup.store.PlainStore?
    ensures StoreUntouched(Stage(c, phase, k, w).log)
  {
    match phase
    case Sets =>
      if k in c.queued.sets && k in c.setup.regs && PreparedIn(c, k, w.cache).Ready? {
        var v := PreparedIn(c, k, w.cache).value;
        LocalLeavesStore(c, k, v);
        ModeLeavesStore(c, k, [Acked(k), Held(k, v)], ApplySet(c, k, v));
      }
    case Deletes =>
      DropLeavesStore(c, k);
      if k in c.setup.regs {
        ModeLeavesStore(c, k, [Acked(k)], ApplyDrop(c, k));
      }
    case StrongSets =>
      if k in w.later && k in c.setup.regs {
        LocalLeavesStore(c, k, w.later[k]);
      }
    case StrongDeletes =>
      DropLeavesStore(c, k);
  }

  lemma JoinedUntouched<T>(a: Out<T>, b: Out<T>)
    requires StoreUntouched(a.log) && StoreUntouched(b.log)
    ensures StoreUntouched(Then(a, b).log)
  {
  }

  lemma {:induction false} LoopLeavesStore<T>(c: Context<T>, phase: Phase, keys: seq<Key>, w: World<T>)
    requires !c.setup.store.PlainStore?
    ensures StoreUntouched(RunAll(c, phase, keys, w).log)
    decreases |keys|
  {
    if keys != [] {
      var first := Stage(c, phase, keys[0], w);
      StageLeavesStore(c, phase, keys[0], w);
      LoopLeavesStore(c, phase, keys[1..], Next(c, w, first));
      JoinedUntouched(first, RunAll(c, phase, keys[1..], Next(c, w, first)));
    }
  }

  lemma FailureInApplied<T>(c: Context<T>, sets: seq<Key>, deletes: seq<Key>, w: World<T>)
    requires !c.setup.store.PlainStore? && Commits.Applied(c, sets, deletes, w).err.Some?
    ensures StoreUntouched(Commits.Applied(c, sets, deletes, w).log)
  {
    var third := RunAll(c, StrongSets, sets, w);
    LoopLeavesStore(c, StrongSets, sets, w);
    LoopLeavesStore(c, StrongDeletes, deletes, Next(c, w, third));
  }

  lemma FailureAfterSets<T>(c: Context<T>, sets: seq<Key>, deletes: seq<Key>, w: World<T>)
    requires !c.setup.store.PlainStore? && AfterSets(c, sets, deletes, w).err.Some?
    ensures StoreUntouched(AfterSets(c, sets, deletes, w).log)
  {
    var second := RunAll(c, Deletes, deletes, w);
    LoopLeavesStore(c, Deletes, deletes, w);
    if second.err.None? {
      FailureInApplied(c, sets, deletes, Next(c, w, second));
      JoinedUntouched(second, Commits.Applied(c, sets, deletes, Next(c, w, second)));
    }
  }

  lemma FailureKeepsStore<T>(c: Context<T>, sets: seq<Key>, deletes: seq<Key>, w: World<T>)
    requires !c.setup.store.PlainStore? && Commit(c, sets, deletes, w).err.Some?
    ensures Next(c, w, Commit(c, sets, deletes, w)).store == w.store
  {
    var first := RunAll(c, Sets, sets, w);
    LoopLeavesStore(c, Sets, sets, w);
    if first.err.None? && Body(c, sets, deletes, w).err.Some? {
      FailureAfterSets(c, sets, deletes, Next(c, w, first));
    }
    UntouchedStore(c.setup.limits, w, Commit(c, sets, deletes, w).log);
  }

  /** Over a batching store, a commit that fails leaves the store as it was, whatever the modes. */
  lemma FailureKeepsBatchingStore<T>(c: Context<T>, sets: seq<Key>, deletes: seq<Key>, w: World<T>)
    requires c.setup.store.BatchingStore? && Commit(c, sets, deletes, w).err.Some?
    ensures Next(c, w, Commit(c, sets, deletes, w)).store == w.store
  {
    FailureKeepsStore(c, sets, deletes, w);
  }

  // ----- All keys strong -----

  /** The calls that apply an operation, after everything is acknowledged. */
  predicate Applies(e: Error) {
    e.ErrCall? && (e.call.SetCache? || e.call.DropCache? || e.call.SetStore? || e.call.SetBatch? || e.call.DropBatch? ||
                   e.call.CommitBatch?)
  }

  lemma LocalErrors<T>(c: Context<T>, k: Key, v: Value<T>)
    ensures k in c.setup.regs && ApplySet(c, k, v).err.Some? ==> Applies(ApplySet(c, k, v).err.value)
    ensures ApplyDrop(c, k).err.Some? ==> Applies(ApplyDrop(c, k).err.value)
  {
  }

  lemma {:induction false} ApplyingErrors<T>(c: Context<T>, phase: Phase, keys: seq<Key>, w: World<T>)
    requires !Acknowledges(phase) && RunAll(c, phase, keys, w).err.Some?
    ensures Applies(RunAll(c, phase, keys, w).err.value)
    decreases |keys|
  {
    var first := Stage(c, phase, keys[0], w);
    if first.err.Some? {
      if phase.StrongSets? {
        LocalErrors(c, keys[0], w.later[keys[0]]);
      }
    } else {
      ApplyingErrors(c, phase, keys[1..], Next(c, w, first));
    }
  }

  lemma StrongRefusalIsQuiet<T>(c: Context<T>, sets: seq<Key>, deletes: seq<Key>, w: World<T>)
    requires IsOrder(sets, c.queued.sets.Keys) && IsOrder(deletes, c.queued.deletes)
    requires forall k :: k in c.queued.sets || k in c.queued.deletes ==> IsStrong(c, k)
    requires Commit(c, sets, deletes, w).err.Some? && !Applies(Commit(c, sets, deletes, w).err.value)
    ensures Quiet(Commit(c, sets, deletes, w).log)
  {
    StrongLoops(c, sets, deletes, w, "");
    BodySplits(c, sets, deletes, w);
    var w1 := Next(c, w, RunAll(c, Sets, sets, w));
    var w2 := Next(c, w1, RunAll(c, Deletes, deletes, w1));
    if Remainder(c, sets, deletes, w).err.Some? {
      RemainderErrors(c, sets, deletes, w2);
    }
  }

  /** A commit of strong keys that fails for any reason but a failing application has changed nothing. */
  lemma StrongRefusalChangesNothing<T>(c: Context<T>, sets: seq<Key>, deletes: seq<Key>, w: World<T>)
    requires IsOrder(sets, c.queued.sets.Keys) && IsOrder(deletes, c.queued.deletes)
    requires forall k :: k in c.queued.sets || k in c.queued.deletes ==> IsStrong(c, k)
    requires Commit(c, sets, deletes, w).err.Some? && !Applies(Commit(c, sets, deletes, w).err.value)
    ensures Quiet(Commit(c, sets, deletes, w).log)
    ensures Distinct(Keys(w.cache)) ==> Untouched(c, w, Next(c, w, Commit(c, sets, deletes, w)))
  {
    StrongRefusalIsQuiet(c, sets, deletes, w);
    CommitTypical(c, sets, deletes, w);
    if Distinct(Keys(w.cache)) {
      QuietUntouched(c, sets, deletes, w, Commit(c, sets, deletes, w).log);
    }
  }

  lemma RemainderErrors<T>(c: Context<T>, sets: seq<Key>, deletes: seq<Key>, w: World<T>)
    requires Commits.Applied(c, sets, deletes, w).err.Some?
    ensures Applies(Commits.Applied(c, sets, deletes, w).err.value)
  {
    var third := RunAll(c, StrongSets, sets, w);
    if third.err.Some? {
      ApplyingErrors(c, StrongSets, sets, w);
    } else if RunAll(c, StrongDeletes, deletes, Next(c, w, third)).err.Some? {
      ApplyingErrors(c, StrongDeletes, deletes, Next(c, w, third));
    }
  }

  // ----- Exactly when a failed commit has changed nothing -----

  /** Applying the key is one call, and nothing is announced after it. */
  predicate OneCall<T>(c: Context<T>, k: Key) {
    && (c.setup.store.NoStore? || (c.setup.store.PlainStore? && k !in c.queued.sets))
    && !(k in c.setup.regs && c.setup.regs[k].mode.EventualDistributed? && c.setup.bus)
  }

  predicate Involves<T>(c: Context<T>, k: Key) {
    k in c.queued.sets || k in c.queued.deletes
  }

  /** The transaction has at most one key, and applying it is one call. */
  ghost predicate SingleCall<T>(c: Context<T>) {
    && (forall a, b :: Involves(c, a) && Involves(c, b) ==> a == b)
    && (forall k :: Involves(c, k) ==> OneCall(c, k))
  }

  lemma OneKey(keys: seq<Key>, all: set<Key>, k: Key)
    requires IsOrder(keys, all) && k in all && forall x :: x in all ==> x == k
    ensures keys == [k]
  {
    assert all == {k} && k in keys;
    DistinctCount(keys, {k});
  }

  lemma NoOrder(keys: seq<Key>)
    requires IsOrder(keys, {})
    ensures keys == []
  {
    DistinctCount(keys, {});
  }

  lemma RunOne<T>(c: Context<T>, phase: Phase, k: Key, w: World<T>)
    ensures RunAll(c, phase, [k], w) == Stage(c, phase, k, w)
  {
    var first := Stage(c, phase, k, w);
    assert [k][1..] == [] && first.log + [] == first.log;
  }

  /** A single weak operation that fails has done nothing, and one that succeeds leaves nothing to do. */
  lemma OneWeakCall<T>(c: Context<T>, phase: Phase, k: Key, w: World<T>)
    requires Acknowledges(phase) && OneCall(c, k) && !IsStrong(c, k) && (phase.Sets? <==> k in c.queued.sets)
    ensures Stage(c, phase, k, w).err.Some? ==> Quiet(Stage(c, phase, k, w).log)
  {
  }

  lemma OneStrongCall<T>(c: Context<T>, phase: Phase, k: Key, w: World<T>)
    requires !Acknowledges(phase) && OneCall(c, k) && (phase.StrongSets? <==> k in c.queued.sets)
    ensures Stage(c, phase, k, w).err.Some? ==> Quiet(Stage(c, phase, k, w).log)
  {
  }

  lemma SingleSet<T>(c: Context<T>, k: Key, w: World<T>)
    requires OneCall(c, k) && k in c.queued.sets && Starts(w) && Body(c, [k], [], w).err.Some?
    ensures Quiet(Body(c, [k], [], w).log)
  {
    var first := Stage(c, Sets, k, w);
    RunOne(c, Sets, k, w);
    var w1 := Next(c, w, first);
    assert RunAll(c, Deletes, [], w1) == Done([]) && Next(c, w1, Done([])) == w1;
    RunOne(c, StrongSets, k, w1);
    if IsStrong(c, k) {
      StrongStage(c, Sets, w, k);
      OneStrongCall(c, StrongSets, k, w1);
    } else {
      OneWeakCall(c, Sets, k, w);
      if first.err.None? {
        SetStageSlot(c, w, k, PreparedIn(c, k, w.cache).value);
        assert false;
      }
    }
  }

  lemma SingleDelete<T>(c: Context<T>, k: Key, w: World<T>)
    requires OneCall(c, k) && k !in c.queued.sets && Body(c, [], [k], w).err.Some?
    ensures Quiet(Body(c, [], [k], w).log)
  {
    assert RunAll(c, Sets, [], w) == Done([]) && Next(c, w, Done([])) == w;
    var second := Stage(c, Deletes, k, w);
    RunOne(c, Deletes, k, w);
    var w2 := Next(c, w, second);
    assert RunAll(c, StrongSets, [], w2) == Done([]) && Next(c, w2, Done([])) == w2;
    RunOne(c, StrongDeletes, k, w2);
    OneStrongCall(c, StrongDeletes, k, w2);
    if IsStrong(c, k) {
      StrongStage(c, Deletes, w, k);
    } else {
      OneWeakCall(c, Deletes, k, w);
    }
  }

  lemma NoKeys<T>(c: Context<T>, w: World<T>)
    ensures Body(c, [], [], w) == Finish(c)
  {
  }

  lemma SingleCallIsQuiet<T>(c: Context<T>, sets: seq<Key>, deletes: seq<Key>, w: World<T>)
    requires Visits(c, sets, deletes)
    requires Starts(w) && SingleCall(c) && Commit(c, sets, deletes, w).err.Some?
    ensures Quiet(Commit(c, sets, deletes, w).log)
  {
    if k :| k in c.queued.sets {
      assert Involves(c, k);
      assert forall x :: x in c.queued.sets || x in c.queued.deletes ==> Involves(c, x);
      OneKey(sets, c.queued.sets.Keys, k);
      NoOrder(deletes);
      if Body(c, sets, deletes, w).err.Some? {
        SingleSet(c, k, w);
      }
    } else if k :| k in c.queued.deletes {
      assert Involves(c, k);
      assert forall x :: x in c.queued.deletes ==> Involves(c, x);
      OneKey(deletes, c.queued.deletes, k);
      NoOrder(sets);
      if Body(c, sets, deletes, w).err.Some? {
        SingleDelete(c, k, w);
      }
    } else {
      NoOrder(sets);
      NoOrder(deletes);
      NoKeys(c, w);
    }
  }

  /** A failed commit of at most one single-call operation has changed nothing, whatever call failed. */
  lemma SingleCallIsAtomic<T>(c: Context<T>, sets: seq<Key>, deletes: seq<Key>, w: World<T>)
    requires Visits(c, sets, deletes) && Starts(w) && SingleCall(c) && Commit(c, sets, deletes, w).err.Some?
    ensures Quiet(Commit(c, sets, deletes, w).log)
    ensures Distinct(Keys(w.cache)) ==> Untouched(c, w, Next(c, w, Commit(c, sets, deletes, w)))
  {
    SingleCallIsQuiet(c, sets, deletes, w);
    CommitTypical(c, sets, deletes, w);
    if Distinct(Keys(w.cache)) {
      QuietUntouched(c, sets, deletes, w, Commit(c, sets, deletes, w).log);
    }
  }

  // ----- Every other transaction can fail half-way -----

  /** The same commit with exactly one failing call, every value being written at the moment its key is read. */
  function FailingAt<T>(c: Context<T>, bad: Call, at: Key): Context<T> {
    c.(env := c.env.(fails := (call, k) => call == bad && k == at, storedAt := c.env.readAt))
  }

  predicate AppliesOrAnnounces(call: Call) {
    call.SetCache? || call.DropCache? || call.SetStore? || call.SetBatch? || call.DropBatch? || call.Publish?
  }

  /** The failing call comes after the first one on `a`. */
  predicate LaterThan(bad: Call, at: Key, a: Key) {
    AppliesOrAnnounces(bad) && !(at == a && (bad.SetCache? || bad.DropCache?))
  }

  lemma FailingLocal<T>(c: Context<T>, b: Key) returns (bad: Call)
    requires Involves(c, b)
    ensures (bad.SetCache? || bad.DropCache?) && !CallsPass(FailingAt(c, bad, b))
  {
    bad := if b in c.queued.sets then SetCache else DropCache;
    if b in c.queued.sets {
      assert !SetPasses(FailingAt(c, bad, b), b);
    } else {
      assert !DropPasses(FailingAt(c, bad, b), b);
    }
  }

  lemma FailingSecond<T>(c: Context<T>, a: Key) returns (bad: Call)
    requires Involves(c, a) && Viable(c) && !OneCall(c, a)
    ensures AppliesOrAnnounces(bad) && !bad.SetCache? && !bad.DropCache? && !CallsPass(FailingAt(c, bad, a))
  {
    bad :=
      if c.setup.store.BatchingStore? then (if a in c.queued.sets then SetBatch else DropBatch)
      else if c.setup.store.PlainStore? && a in c.queued.sets then SetStore
      else Publish;
    if a in c.queued.sets {
      assert !SetPasses(FailingAt(c, bad, a), a);
    } else {
      assert !DropPasses(FailingAt(c, bad, a), a);
    }
  }

  /** Unless the transaction is a single call, there is a call after the first on `a` without which it fails. */
  lemma FailingCall<T>(c: Context<T>, a: Key) returns (bad: Call, at: Key)
    requires Involves(c, a) && Viable(c) && !SingleCall(c)
    ensures LaterThan(bad, at, a) && !CallsPass(FailingAt(c, bad, at))
  {
    if b :| Involves(c, b) && b != a {
      at := b;
      bad := FailingLocal(c, b);
    } else {
      at := a;
      bad := FailingSecond(c, a);
    }
  }

  /** In a loop of strong keys the calls that apply do not matter. */
  lemma {:induction false} SameAcks<T>(c: Context<T>, keys: seq<Key>, w: World<T>, bad: Call, at: Key)
    requires AppliesOrAnnounces(bad) && forall k :: k in keys ==> k in c.queued.sets && IsStrong(c, k)
    ensures RunAll(FailingAt(c, bad, at), Sets, keys, w) == RunAll(Smooth(c), Sets, keys, w)
    decreases |keys|
  {
    if keys != [] {
      var f, s := FailingAt(c, bad, at), Smooth(c);
      SameAck(c, keys[0], w, bad, at);
      assert forall k :: k in keys[1..] ==> k in keys;
      SameAcks(c, keys[1..], Next(f, w, Stage(f, Sets, keys[0], w)), bad, at);
    }
  }

  lemma SameAck<T>(c: Context<T>, k: Key, w: World<T>, bad: Call, at: Key)
    requires AppliesOrAnnounces(bad) && k in c.queued.sets && IsStrong(c, k)
    ensures Stage(FailingAt(c, bad, at), Sets, k, w) == Stage(Smooth(c), Sets, k, w)
  {
  }

  lemma {:induction false} StrongDropsAck<T>(c: Context<T>, keys: seq<Key>, w: World<T>)
    requires forall k :: k in keys ==> IsStrong(c, k) && c.setup.bus && !c.env.fails(Await, k)
    ensures RunAll(c, Deletes, keys, w).err.None?
    decreases |keys|
  {
    if keys != [] {
      assert keys[0] in keys && forall k :: k in keys[1..] ==> k in keys;
      StrongDropsAck(c, keys[1..], Next(c, w, Stage(c, Deletes, keys[0], w)));
    }
  }

  /** A strong set that comes first is applied first, once everything is acknowledged. */
  lemma StrongSetFirst<T>(c: Context<T>, sets: seq<Key>, deletes: seq<Key>, w: World<T>, a: Key)
    requires Visits(c, sets, deletes)
    requires Starts(w) && sets != [] && sets[0] == a && IsStrong(c, a) && Acknowledged(c, sets, deletes, w).err.None?
    requires !c.env.fails(OpenBatch, "") && !c.env.fails(SetCache, a)
    ensures HasWrite(Commit(c, sets, deletes, w).log)
  {
    var w1 := Next(c, w, RunAll(c, Sets, sets, w));
    var w2 := Next(c, w1, RunAll(c, Deletes, deletes, w1));
    assert a in sets;
    PassedMeansPrepared(c, sets, w);
    HeldAfterLoops(c, ValuesOf(c, sets, w), sets, deletes, w, w1, w2, a);
    assert a in w2.later;
    var third := Stage(c, StrongSets, a, w2).log;
    assert |third| > 0 && third[0].CacheSet?;
    assert RunAll(c, StrongSets, sets, w2).log[0] == third[0];
    BodySplits(c, sets, deletes, w);
    FirstOfLater(Acknowledged(c, sets, deletes, w), Remainder(c, sets, deletes, w));
  }

  ghost predicate HasWrite<T>(log: seq<Effect<T>>) {
    exists i :: 0 <= i < |log| && log[i].CacheSet?
  }

  lemma FirstOfLater<T>(a: Out<T>, b: Out<T>)
    requires a.err.None? && |b.log| > 0
    ensures |Then(a, b).log| > |a.log| && Then(a, b).log[|a.log|] == b.log[0]
  {
  }

  /** A strong delete that comes first is applied first when nothing is set. */
  lemma StrongDeleteFirst<T>(c: Context<T>, deletes: seq<Key>, w: World<T>, a: Key)
    requires deletes != [] && deletes[0] == a && IsStrong(c, a) && RunAll(c, Deletes, deletes, w).err.None?
    requires !c.env.fails(OpenBatch, "") && !c.env.fails(DropCache, a)
    ensures CacheDropped(a) in Commit(c, [], deletes, w).log
  {
    assert RunAll(c, Sets, [], w) == Done([]) && Next(c, w, Done([])) == w;
    var w2 := Next(c, w, RunAll(c, Deletes, deletes, w));
    assert RunAll(c, StrongSets, [], w2) == Done([]) && Next(c, w2, Done([])) == w2;
    var fourth := Stage(c, StrongDeletes, a, w2).log;
    assert |fourth| > 0 && fourth[0] == CacheDropped(a);
    assert RunAll(c, StrongDeletes, deletes, w2).log[0] == fourth[0];
    BodySplits(c, [], deletes, w);
    assert Acknowledged(c, [], deletes, w) == RunAll(c, Deletes, deletes, w);
    FirstOfLater(RunAll(c, Deletes, deletes, w), Remainder(c, [], deletes, w));
  }

  /** The key whose operation is applied first in a suitable order: weak before strong, sets before deletes. */
  lemma AppliedFirst<T>(c: Context<T>) returns (a: Key)
    requires c.queued.sets.Keys + c.queued.deletes != {}
    ensures Involves(c, a)
    ensures a !in c.queued.sets || IsStrong(c, a) ==> forall k :: k in c.queued.sets ==> IsStrong(c, k)
    ensures IsStrong(c, a) ==> forall k :: k in c.queued.deletes ==> IsStrong(c, k)
    ensures a !in c.queued.sets && IsStrong(c, a) ==> c.queued.sets.Keys == {}
  {
    if x :| x in c.queued.sets && !IsStrong(c, x) {
      a := x;
    } else if x :| x in c.queued.deletes && !IsStrong(c, x) {
      a := x;
    } else if x :| x in c.queued.sets {
      a := x;
    } else {
      a :| a in c.queued.deletes;
    }
  }

  lemma FirstIsApplied<T>(c: Context<T>, sets: seq<Key>, deletes: seq<Key>, w: World<T>, a: Key, bad: Call, at: Key)
    requires Visits(c, sets, deletes)
    requires CacheOk(c.setup, w.cache) && Starts(w) && Viable(c) && AllReady(Smooth(c), w.cache) &&
             LaterThan(bad, at, a)
    requires if a in c.queued.sets then sets != [] && sets[0] == a else deletes != [] && deletes[0] == a
    requires a !in c.queued.sets || IsStrong(c, a) ==> forall k :: k in c.queued.sets ==> IsStrong(c, k)
    requires IsStrong(c, a) ==> forall k :: k in c.queued.deletes ==> IsStrong(c, k)
    requires a !in c.queued.sets && IsStrong(c, a) ==> c.queued.sets.Keys == {}
    ensures var log := Commit(FailingAt(c, bad, at), sets, deletes, w).log;
            if a in c.queued.sets then HasWrite(log) else CacheDropped(a) in log
  {
    var f := FailingAt(c, bad, at);
    if a in c.queued.sets && !IsStrong(c, a) {
      assert PreparedIn(f, a, w.cache) == PreparedIn(Smooth(c), a, w.cache);
      WeakSetFirst(f, sets, deletes, w, a);
    } else {
      StrongSetsGetThrough(c, sets, deletes, w);
      SameAcks(c, sets, w, bad, at);
      StrongFirst(f, sets, deletes, w, a);
    }
  }

  lemma StrongFirst<T>(c: Context<T>, sets: seq<Key>, deletes: seq<Key>, w: World<T>, a: Key)
    requires Visits(c, sets, deletes)
    requires Starts(w) && Viable(c) && RunAll(c, Sets, sets, w).err.None?
    requires if a in c.queued.sets then sets != [] && sets[0] == a && IsStrong(c, a)
             else deletes != [] && deletes[0] == a
    requires IsStrong(c, a) ==> forall k :: k in c.queued.deletes ==> IsStrong(c, k) && !c.env.fails(Await, k)
    requires a !in c.queued.sets && IsStrong(c, a) ==> c.queued.sets.Keys == {}
    requires !c.env.fails(OpenBatch, "") && !c.env.fails(SetCache, a) && !c.env.fails(DropCache, a)
    ensures var log := Commit(c, sets, deletes, w).log;
            if a in c.queued.sets then HasWrite(log) else CacheDropped(a) in log
  {
    var w1 := Next(c, w, RunAll(c, Sets, sets, w));
    if !IsStrong(c, a) {
      assert a in deletes;
      WeakDeleteFirst(c, sets, deletes, w, a);
    } else {
      StrongDropsAck(c, deletes, w1);
      if a in c.queued.sets {
        StrongSetFirst(c, sets, deletes, w, a);
      } else {
        NoOrder(sets);
        StrongDeleteFirst(c, deletes, w, a);
      }
    }
  }

  /** The first application shows. */
  lemma ApplicationShows<T>(c: Context<T>, sets: seq<Key>, deletes: seq<Key>, w: World<T>, a: Key, d: T)
    requires Visits(c, sets, deletes) && CacheOk(c.setup, w.cache) && Marked(c, w)
    requires FitsCount(1, c.setup.limits, c.setup.valueSize)
    requires if a in c.queued.sets then HasWrite(Commit(c, sets, deletes, w).log)
             else CacheDropped(a) in Commit(c, sets, deletes, w).log && Cached(c, a, d) in w.cache
    ensures !Untouched(c, w, Next(c, w, Commit(c, sets, deletes, w)))
  {
    var log := Commit(c, sets, deletes, w).log;
    CommitTypical(c, sets, deletes, w);
    if a in c.queued.sets {
      WriteShows(c, sets, deletes, w, log);
    } else {
      var i :| 0 <= i < |log| && log[i] == CacheDropped(a);
      DropShows(c, sets, deletes, w, log, Cached(c, a, d), i);
    }
  }

  /**
    Every other transaction can fail half-way: one failing call, some cache and some order make the commit
    fail and leave the cache or the store changed. (`d` is any value to have cached.)
  */
  lemma OthersFailHalfWay<T>(c: Context<T>, d: T)
    returns (bad: Call, at: Key, w: World<T>, sets: seq<Key>, deletes: seq<Key>)
    requires Viable(c) && RoomToSpare(c) && c.queued.sets.Keys !! c.queued.deletes && !SingleCall(c)
    ensures Visits(c, sets, deletes) && CacheOk(c.setup, w.cache) && Starts(w)
    ensures var f := FailingAt(c, bad, at);
            var out := Commit(f, sets, deletes, w);
            out.err.Some? && !Untouched(f, w, Next(f, w, out))
  {
    var a := AppliedFirst(c);
    bad, at := FailingCall(c, a);
    w := WitnessWorld(c, d, a);
    sets, deletes := OrdersFrom(c, a);
    FirstIsApplied(c, sets, deletes, w, a, bad, at);
    FailsAfterApplication(FailingAt(c, bad, at), sets, deletes, w, a, d);
  }

  lemma WitnessWorld<T>(c: Context<T>, d: T, a: Key) returns (w: World<T>)
    requires RoomToSpare(c)
    ensures CacheOk(c.setup, w.cache) && Starts(w) && AllReady(Smooth(c), w.cache)
    ensures a !in c.queued.sets ==> Cached(c, a, d) in w.cache
    ensures forall e :: e in w.cache ==> e.item.expiresAt == At(c.env.readAt(e.key))
    ensures FitsCount(1, c.setup.limits, c.setup.valueSize)
  {
    var r := WitnessCache(Smooth(c), d, a);
    w := World(r, map[], Batch(map[], {}), map[]);
    FewerFit(1, |c.queued.cas.Keys * c.queued.sets.Keys| + 1, c.setup.limits, c.setup.valueSize);
  }

  lemma FailsAfterApplication<T>(c: Context<T>, sets: seq<Key>, deletes: seq<Key>, w: World<T>, a: Key, d: T)
    requires Visits(c, sets, deletes) && CacheOk(c.setup, w.cache) && Marked(c, w) && Starts(w) && !CallsPass(c)
    requires FitsCount(1, c.setup.limits, c.setup.valueSize)
    requires if a in c.queued.sets then HasWrite(Commit(c, sets, deletes, w).log)
             else CacheDropped(a) in Commit(c, sets, deletes, w).log && Cached(c, a, d) in w.cache
    ensures var out := Commit(c, sets, deletes, w); out.err.Some? && !Untouched(c, w, Next(c, w, out))
  {
    ApplicationShows(c, sets, deletes, w, a, d);
    if Commit(c, sets, deletes, w).err.None? {
      SuccessMeansCallsPass(c, sets, deletes, w);
      assert false;
    }
  }

  /** Orders that visit `a` first. */
  lemma OrdersFrom<T>(c: Context<T>, a: Key) returns (sets: seq<Key>, deletes: seq<Key>)
    requires Involves(c, a) && c.queued.sets.Keys !! c.queued.deletes
    ensures Visits(c, sets, deletes)
    ensures if a in c.queued.sets then sets != [] && sets[0] == a else deletes != [] && deletes[0] == a
  {
    if a in c.queued.sets {
      sets := OrderFrom(c.queued.sets.Keys, a);
      deletes := SomeOrder(c.queued.deletes);
    } else {
      sets := SomeOrder(c.queued.sets.Keys);
      deletes := OrderFrom(c.queued.deletes, a);
    }
  }

  /** Whatever fails, from any cache and in any order, a failed commit leaves the cache and the store as they were. */
  ghost predicate IsAtomic<T(!new)>(c: Context<T>) {
    forall env: Env<T>, w: World<T>, sets: seq<Key>, deletes: seq<Key> ::
      Visits(c, sets, deletes) && CacheOk(c.setup, w.cache) && Starts(w) ==>
        var out := Commit(c.(env := env), sets, deletes, w);
        out.err.Some? ==> Untouched(c.(env := env), w, Next(c.(env := env), w, out))
  }

  /** A transaction whose keys are registered is atomic if and only if it is at most a single call. */
  lemma AtomicExactly<T(!new)>(c: Context<T>, d: T)
    requires Viable(c) && RoomToSpare(c) && c.queued.sets.Keys !! c.queued.deletes
    ensures IsAtomic(c) <==> SingleCall(c)
  {
    if SingleCall(c) {
      forall env: Env<T>, w: World<T>, sets: seq<Key>, deletes: seq<Key> |
        Visits(c, sets, deletes) && CacheOk(c.setup, w.cache) && Starts(w) &&
        Commit(c.(env := env), sets, deletes, w).err.Some?
        ensures Untouched(c.(env := env), w, Next(c.(env := env), w, Commit(c.(env := env), sets, deletes, w)))
      {
        var e := c.(env := env);
        assert SingleCall(e) by {
          assert forall k :: Involves(e, k) ==> Involves(c, k) && OneCall(c, k);
        }
        SingleCallIsAtomic(e, sets, deletes, w);
      }
    } else {
      var bad, at, w, sets, deletes := OthersFailHalfWay(c, d);
      assert FailingAt(c, bad, at) == c.(env := FailingAt(c, bad, at).env);
    }
  }

  /** The room matters: over a cache that can hold nothing, with no store written directly, all are atomic. */
  lemma HoldingNothingIsAtomic<T(!new)>(c: Context<T>)
    requires !FitsCount(1, c.setup.limits, c.setup.valueSize) && !c.setup.store.PlainStore?
    ensures IsAtomic(c)
  {
    forall env: Env<T>, w: World<T>, sets: seq<Key>, deletes: seq<Key> |
      Visits(c, sets, deletes) && CacheOk(c.setup, w.cache) && Starts(w) &&
      Commit(c.(env := env), sets, deletes, w).err.Some?
      ensures Untouched(c.(env := env), w, Next(c.(env := env), w, Commit(c.(env := env), sets, deletes, w)))
    {
      var e := c.(env := env);
      CommitKeepsCacheOk(e, sets, deletes, w);
      HoldsNothing(e.setup, w.cache);
      HoldsNothing(e.setup, Next(e, w, Commit(e, sets, deletes, w)).cache);
      FailureKeepsStore(e, sets, deletes, w);
    }
  }
}
