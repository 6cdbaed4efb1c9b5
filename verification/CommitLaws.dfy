/**
  What a transaction's commit guarantees, for every order in which the keys are visited, whatever the cache
  evicts on the way and whatever call fails.
*/
module CommitLaws {
  import opened Merging
  import opened Options
  import opened Commits

  // ----- When a commit gets through -----

  predicate LocalSetPasses<T>(c: Context<T>, k: Key) {
    && !c.env.fails(SetCache, k)
    && (c.setup.store.PlainStore? ==> !c.env.fails(SetStore, k))
    && (c.setup.store.BatchingStore? ==> !c.env.fails(SetBatch, k))
  }

  predicate LocalDropPasses<T>(c: Context<T>, k: Key) {
    !c.env.fails(DropCache, k) && (c.setup.store.BatchingStore? ==> !c.env.fails(DropBatch, k))
  }

  predicate ModePasses<T>(c: Context<T>, k: Key) {
    && k in c.setup.regs
    && match c.setup.regs[k].mode
       case EventualDistributed => c.setup.bus ==> !c.env.fails(Publish, k)
       case StrongDistributed => c.setup.bus && !c.env.fails(Await, k)
       case StrongLocal => true
  }

  predicate SetPasses<T>(c: Context<T>, k: Key) {
    ModePasses(c, k) && !c.env.fails(GetCache, k) && LocalSetPasses(c, k)
  }

  predicate DropPasses<T>(c: Context<T>, k: Key) {
    ModePasses(c, k) && LocalDropPasses(c, k)
  }

  /** Every key is registered and no call the commit makes fails. */
  ghost predicate CallsPass<T>(c: Context<T>) {
    && (forall k :: k in c.queued.sets ==> SetPasses(c, k))
    && (forall k :: k in c.queued.deletes ==> DropPasses(c, k))
    && (c.setup.store.BatchingStore? ==> !c.env.fails(OpenBatch, "") && !c.env.fails(CommitBatch, ""))
  }

  /** In this run every key is prepared as `values` say. */
  ghost predicate PreparedAs<T>(c: Context<T>, values: map<Key, Value<T>>, keys: seq<Key>, w: World<T>)
    decreases |keys|
  {
    keys == [] ||
    (&& keys[0] in c.queued.sets && keys[0] in values
     && PreparedIn(c, keys[0], w.cache) == Ready(values[keys[0]])
     && PreparedAs(c, values, keys[1..], Next(c, w, Stage(c, Sets, keys[0], w))))
  }

  lemma ApplySetPasses<T>(c: Context<T>, k: Key, v: Value<T>)
    requires k in c.setup.regs
    ensures ApplySet(c, k, v).err.None? <==> LocalSetPasses(c, k)
  {
  }

  lemma ApplyDropPasses<T>(c: Context<T>, k: Key)
    ensures ApplyDrop(c, k).err.None? <==> LocalDropPasses(c, k)
  {
  }

  lemma ByModePasses<T>(c: Context<T>, k: Key, acked: seq<Effect<T>>, applied: Out<T>)
    requires k in c.setup.regs
    ensures ByMode(c, k, acked, applied).err.None? <==> ModePasses(c, k) && (!IsStrong(c, k) ==> applied.err.None?)
  {
  }

  /** With no call failing, a set gets through exactly when its value could be prepared. */
  lemma SetStagePasses<T>(c: Context<T>, k: Key, cache: Cache<T>)
    requires k in c.queued.sets && SetPasses(c, k)
    ensures SetStage(c, k, cache).err.None? <==> PreparedIn(c, k, cache).Ready?
  {
    var p := PreparedIn(c, k, cache);
    if p.Ready? {
      ApplySetPasses(c, k, p.value);
      ByModePasses(c, k, [Acked(k), Held(k, p.value)], ApplySet(c, k, p.value));
    }
  }

  lemma {:induction false} SetsPass<T>(c: Context<T>, values: map<Key, Value<T>>, keys: seq<Key>, w: World<T>)
    requires PreparedAs(c, values, keys, w) && forall k :: k in keys ==> SetPasses(c, k)
    ensures RunAll(c, Sets, keys, w).err.None?
    decreases |keys|
  {
    if keys != [] {
      SetStagePasses(c, keys[0], w.cache);
      assert forall k :: k in keys[1..] ==> k in keys;
      SetsPass(c, values, keys[1..], Next(c, w, Stage(c, Sets, keys[0], w)));
    }
  }

  lemma {:induction false} DropsPass<T>(c: Context<T>, phase: Phase, keys: seq<Key>, w: World<T>)
    requires phase.Deletes? || phase.StrongDeletes?
    requires forall k :: k in keys ==> DropPasses(c, k)
    ensures RunAll(c, phase, keys, w).err.None?
    decreases |keys|
  {
    if keys != [] {
      assert DropPasses(c, keys[0]);
      ApplyDropPasses(c, keys[0]);
      ByModePasses(c, keys[0], [Acked(keys[0])], ApplyDrop(c, keys[0]));
      assert forall k :: k in keys[1..] ==> k in keys;
      DropsPass(c, phase, keys[1..], Next(c, w, Stage(c, phase, keys[0], w)));
    }
  }

  lemma {:induction false} StrongSetsPass<T>(c: Context<T>, keys: seq<Key>, w: World<T>)
    requires forall k :: k in keys ==> SetPasses(c, k)
    ensures RunAll(c, StrongSets, keys, w).err.None?
    decreases |keys|
  {
    if keys != [] {
      assert SetPasses(c, keys[0]);
      if keys[0] in w.later {
        ApplySetPasses(c, keys[0], w.later[keys[0]]);
      }
      assert forall k :: k in keys[1..] ==> k in keys;
      StrongSetsPass(c, keys[1..], Next(c, w, Stage(c, StrongSets, keys[0], w)));
    }
  }

  /** With no call failing, a commit succeeds when every value can be prepared. */
  lemma CommitPasses<T>(c: Context<T>, values: map<Key, Value<T>>, sets: seq<Key>, deletes: seq<Key>, w: World<T>)
    requires IsOrder(sets, c.queued.sets.Keys) && IsOrder(deletes, c.queued.deletes)
    requires CallsPass(c) && PreparedAs(c, values, sets, w)
    ensures Commit(c, sets, deletes, w).err.None?
  {
    SetsPass(c, values, sets, w);
    var w1 := Next(c, w, RunAll(c, Sets, sets, w));
    DropsPass(c, Deletes, deletes, w1);
    var w2 := Next(c, w1, RunAll(c, Deletes, deletes, w1));
    StrongSetsPass(c, sets, w2);
    var w3 := Next(c, w2, RunAll(c, StrongSets, sets, w2));
    DropsPass(c, StrongDeletes, deletes, w3);
  }

  /** The values a run of the first loop prepares. */
  ghost function ValuesOf<T>(c: Context<T>, keys: seq<Key>, w: World<T>): map<Key, Value<T>>
    decreases |keys|
  {
    if keys == [] then map[]
    else
      var rest := ValuesOf(c, keys[1..], Next(c, w, Stage(c, Sets, keys[0], w)));
      if keys[0] in c.queued.sets && PreparedIn(c, keys[0], w.cache).Ready?
      then rest[keys[0] := PreparedIn(c, keys[0], w.cache).value]
      else rest
  }

  lemma {:induction false} PreparedAgrees<T>(c: Context<T>, values: map<Key, Value<T>>, more: map<Key, Value<T>>,
                                             keys: seq<Key>, w: World<T>)
    requires PreparedAs(c, values, keys, w)
    requires forall k :: k in keys && k in values ==> k in more && more[k] == values[k]
    ensures PreparedAs(c, more, keys, w)
    decreases |keys|
  {
    if keys != [] {
      assert keys[0] in keys && forall k :: k in keys[1..] ==> k in keys;
      PreparedAgrees(c, values, more, keys[1..], Next(c, w, Stage(c, Sets, keys[0], w)));
    }
  }

  /** A first loop that gets through has prepared every key. */
  lemma {:induction false} PassedMeansPrepared<T>(c: Context<T>, keys: seq<Key>, w: World<T>)
    requires RunAll(c, Sets, keys, w).err.None?
    requires forall i, j :: 0 <= i < j < |keys| ==> keys[i] != keys[j]
    requires forall k :: k in keys ==> k in c.queued.sets
    ensures PreparedAs(c, ValuesOf(c, keys, w), keys, w)
    decreases |keys|
  {
    if keys != [] {
      var next := Next(c, w, Stage(c, Sets, keys[0], w));
      assert keys[0] in keys && keys[0] !in keys[1..] && forall k :: k in keys[1..] ==> k in keys;
      PassedMeansPrepared(c, keys[1..], next);
      PreparedAgrees(c, ValuesOf(c, keys[1..], next), ValuesOf(c, keys, w), keys[1..], next);
    }
  }

  // ----- What one key's effects do to the store -----

  /** Everything the world holds about one key outside the cache. */
  datatype Slot<T> = Slot(stored: Option<T>, batched: Option<T>, dropped: bool, held: Option<Value<T>>)

  function Lookup<V>(m: map<Key, V>, k: Key): Option<V> {
    if k in m then Some(m[k]) else None
  }

  function SlotAt<T>(w: World<T>, k: Key): Slot<T> {
    Slot(Lookup(w.store, k), Lookup(w.batch.sets, k), k in w.batch.deletes, Lookup(w.later, k))
  }

  ghost predicate Only<T>(log: seq<Effect<T>>, k: Key) {
    forall i :: 0 <= i < |log| ==> !log[i].BatchCommitted? && log[i].key == k
  }

  lemma {:induction false} OthersUntouched<T>(c: Context<T>, w: World<T>, log: seq<Effect<T>>, k: Key, other: Key)
    requires Only(log, k) && other != k
    ensures SlotAt(PerformAll(c.setup.limits, w, log), other) == SlotAt(w, other)
    decreases |log|
  {
    if log != [] {
      assert log[0].key == k;
      assert SlotAt(Perform(c.setup.limits, w, log[0]), other) == SlotAt(w, other);
      assert Only(log[1..], k);
      OthersUntouched(c, Perform(c.setup.limits, w, log[0]), log[1..], k, other);
    }
  }

  function WriteSlot<T>(c: Context<T>, s: Slot<T>, v: Value<T>): Slot<T> {
    s.(stored := if c.setup.store.PlainStore? then Some(v.data) else s.stored,
       batched := if c.setup.store.BatchingStore? then Some(v.data) else s.batched)
  }

  function DropSlot<T>(c: Context<T>, s: Slot<T>): Slot<T> {
    s.(dropped := s.dropped || c.setup.store.BatchingStore?)
  }

  function StageSlot<T>(c: Context<T>, values: map<Key, Value<T>>, phase: Phase, k: Key, s: Slot<T>): Slot<T> {
    match phase
    case Sets =>
      if k !in values then s
      else if IsStrong(c, k) then s.(held := Some(values[k]))
      else WriteSlot(c, s, values[k])
    case Deletes => if IsStrong(c, k) then s else DropSlot(c, s)
    case StrongSets => if s.held.Some? && k in c.setup.regs then WriteSlot(c, s, s.held.value) else s
    case StrongDeletes => if IsStrong(c, k) then DropSlot(c, s) else s
  }

  lemma ApplySetSlot<T>(c: Context<T>, w: World<T>, k: Key, v: Value<T>)
    requires k in c.setup.regs && ApplySet(c, k, v).err.None?
    ensures Only(ApplySet(c, k, v).log, k)
    ensures SlotAt(Next(c, w, ApplySet(c, k, v)), k) == WriteSlot(c, SlotAt(w, k), v)
  {
    var e: Effect<T> := CacheSet(k, NewItem(c, k, v));
    match c.setup.store
    case NoStore => PerformOne(c.setup.limits, w, e);
    case PlainStore =>
      assert ApplySet(c, k, v).log == [e, StoreSet(k, v.data)];
      PerformTwo(c.setup.limits, w, e, StoreSet(k, v.data));
    case BatchingStore =>
      assert ApplySet(c, k, v).log == [e, BatchSet(k, v.data)];
      PerformTwo(c.setup.limits, w, e, BatchSet(k, v.data));
  }

  lemma ApplyDropSlot<T>(c: Context<T>, w: World<T>, k: Key)
    requires ApplyDrop(c, k).err.None?
    ensures Only(ApplyDrop(c, k).log, k)
    ensures SlotAt(Next(c, w, ApplyDrop(c, k)), k) == DropSlot(c, SlotAt(w, k))
  {
    var e: Effect<T> := CacheDropped(k);
    if c.setup.store.BatchingStore? {
      assert ApplyDrop(c, k).log == [e, BatchDropped(k)];
      PerformTwo(c.setup.limits, w, e, BatchDropped(k));
    } else {
      PerformOne(c.setup.limits, w, e);
    }
  }

  /** The mode adds an announcement, which changes nothing, or does something else altogether. */
  lemma ByModeWorld<T>(c: Context<T>, w: World<T>, k: Key, acked: seq<Effect<T>>, applied: Out<T>)
    requires k in c.setup.regs && ByMode(c, k, acked, applied).err.None?
    requires Only(acked, k) && (applied.err.None? ==> Only(applied.log, k))
    ensures Only(ByMode(c, k, acked, applied).log, k)
    ensures !IsStrong(c, k) ==> applied.err.None? && Next(c, w, ByMode(c, k, acked, applied)) == Next(c, w, applied)
    ensures IsStrong(c, k) ==> ByMode(c, k, acked, applied).log == acked
  {
    if c.setup.regs[k].mode.EventualDistributed? && c.setup.bus {
      PerformAppend(c.setup.limits, w, applied.log, [Published(k)]);
      PerformOne(c.setup.limits, Next(c, w, applied), Published(k));
    }
  }

  lemma WritePreparedSlot<T>(c: Context<T>, w: World<T>, k: Key, v: Value<T>)
    requires k in c.setup.regs && WritePrepared(c, k, Ready(v)).err.None?
    ensures var out := WritePrepared(c, k, Ready(v));
            && Only(out.log, k)
            && SlotAt(Next(c, w, out), k) ==
                 if IsStrong(c, k) then SlotAt(w, k).(held := Some(v)) else WriteSlot(c, SlotAt(w, k), v)
  {
    var acked: seq<Effect<T>>, applied := [Acked(k), Held(k, v)], ApplySet(c, k, v);
    if applied.err.None? {
      ApplySetSlot(c, w, k, v);
    }
    ByModeWorld(c, w, k, acked, applied);
    PerformTwo(c.setup.limits, w, Acked(k), Held(k, v));
  }

  lemma SetStageSlot<T>(c: Context<T>, w: World<T>, k: Key, v: Value<T>)
    requires k in c.queued.sets && SetStage(c, k, w.cache).err.None? && PreparedIn(c, k, w.cache) == Ready(v)
    ensures var out := SetStage(c, k, w.cache);
            && Only(out.log, k)
            && SlotAt(Next(c, w, out), k) ==
                 if IsStrong(c, k) then SlotAt(w, k).(held := Some(v)) else WriteSlot(c, SlotAt(w, k), v)
  {
    var read: Effect<T> := CacheRead(k, c.env.readAt(k));
    var rest := WritePrepared(c, k, Ready(v));
    PerformAppend(c.setup.limits, w, [read], rest.log);
    PerformOne(c.setup.limits, w, read);
    WritePreparedSlot(c, Perform(c.setup.limits, w, read), k, v);
  }

  lemma StageSlotAt<T>(c: Context<T>, values: map<Key, Value<T>>, phase: Phase, w: World<T>, k: Key)
    requires Stage(c, phase, k, w).err.None?
    requires phase.Sets? ==> k in c.queued.sets && k in values && PreparedIn(c, k, w.cache) == Ready(values[k])
    ensures Only(Stage(c, phase, k, w).log, k)
    ensures SlotAt(Next(c, w, Stage(c, phase, k, w)), k) == StageSlot(c, values, phase, k, SlotAt(w, k))
  {
    match phase
    case Sets => SetStageSlot(c, w, k, values[k]);
    case Deletes =>
      if ApplyDrop(c, k).err.None? {
        ApplyDropSlot(c, w, k);
      }
      ByModeWorld(c, w, k, [Acked(k)], ApplyDrop(c, k));
      PerformOne(c.setup.limits, w, Acked(k));
    case StrongSets =>
      if k in w.later && k in c.setup.regs {
        ApplySetSlot(c, w, k, w.later[k]);
      }
    case StrongDeletes =>
      if IsStrong(c, k) {
        ApplyDropSlot(c, w, k);
      }
  }

  // ----- What a loop does to every key -----

  lemma {:induction false} RunAllSlot<T>(c: Context<T>, values: map<Key, Value<T>>, phase: Phase, keys: seq<Key>,
                                         w: World<T>, k: Key)
    requires RunAll(c, phase, keys, w).err.None? && (phase.Sets? ==> PreparedAs(c, values, keys, w))
    requires forall i, j :: 0 <= i < j < |keys| ==> keys[i] != keys[j]
    ensures SlotAt(Next(c, w, RunAll(c, phase, keys, w)), k) ==
              if k in keys then StageSlot(c, values, phase, k, SlotAt(w, k)) else SlotAt(w, k)
    decreases |keys|
  {
    if keys != [] {
      var x, rest := keys[0], keys[1..];
      var first := Stage(c, phase, x, w);
      var next := Next(c, w, first);
      PerformAppend(c.setup.limits, w, first.log, RunAll(c, phase, rest, next).log);
      StageSlotAt(c, values, phase, w, x);
      RunAllSlot(c, values, phase, rest, next, k);
      assert x !in rest;
      if k != x {
        OthersUntouched(c, w, first.log, x, k);
        assert k in keys <==> k in rest;
      }
    }
  }

  /** The worlds between the loops of a successful commit. */
  lemma CommitWorlds<T>(c: Context<T>, sets: seq<Key>, deletes: seq<Key>, w: World<T>)
    returns (w1: World<T>, w2: World<T>, w3: World<T>, w4: World<T>)
    requires Commit(c, sets, deletes, w).err.None?
    ensures RunAll(c, Sets, sets, w).err.None? && w1 == Next(c, w, RunAll(c, Sets, sets, w))
    ensures RunAll(c, Deletes, deletes, w1).err.None? && w2 == Next(c, w1, RunAll(c, Deletes, deletes, w1))
    ensures RunAll(c, StrongSets, sets, w2).err.None? && w3 == Next(c, w2, RunAll(c, StrongSets, sets, w2))
    ensures RunAll(c, StrongDeletes, deletes, w3).err.None? && w4 == Next(c, w3, RunAll(c, StrongDeletes, deletes, w3))
    ensures Finish(c).err.None? && Next(c, w, Commit(c, sets, deletes, w)) == Next(c, w4, Finish(c))
  {
    var a := RunAll(c, Sets, sets, w);
    w1 := Next(c, w, a);
    var b := RunAll(c, Deletes, deletes, w1);
    w2 := Next(c, w1, b);
    var d := RunAll(c, StrongSets, sets, w2);
    w3 := Next(c, w2, d);
    var e := RunAll(c, StrongDeletes, deletes, w3);
    w4 := Next(c, w3, e);
    PerformAppend(c.setup.limits, w, a.log, AfterSets(c, sets, deletes, w1).log);
    PerformAppend(c.setup.limits, w1, b.log, Applied(c, sets, deletes, w2).log);
    PerformAppend(c.setup.limits, w2, d.log, AfterApplied(c, deletes, w3).log);
    PerformAppend(c.setup.limits, w3, e.log, Finish(c).log);
  }

  lemma CommitLog<T>(c: Context<T>, sets: seq<Key>, deletes: seq<Key>, w: World<T>, w1: World<T>, w2: World<T>,
                     w3: World<T>)
    requires Commit(c, sets, deletes, w).err.None? && w1 == Next(c, w, RunAll(c, Sets, sets, w))
    requires w2 == Next(c, w1, RunAll(c, Deletes, deletes, w1)) && w3 == Next(c, w2, RunAll(c, StrongSets, sets, w2))
    ensures Commit(c, sets, deletes, w).log ==
              RunAll(c, Sets, sets, w).log + (RunAll(c, Deletes, deletes, w1).log +
                (RunAll(c, StrongSets, sets, w2).log + (RunAll(c, StrongDeletes, deletes, w3).log + Finish(c).log)))
  {
    assert AfterSets(c, sets, deletes, w1).err.None?;
    assert Applied(c, sets, deletes, w2).err.None?;
  }

  // ----- What a success says about the calls -----

  lemma {:induction false} PassedSetCalls<T>(c: Context<T>, keys: seq<Key>, w: World<T>, k: Key)
    requires RunAll(c, Sets, keys, w).err.None? && k in keys && k in c.queued.sets
    ensures ModePasses(c, k) && !c.env.fails(GetCache, k) && (!IsStrong(c, k) ==> LocalSetPasses(c, k))
    decreases |keys|
  {
    if k == keys[0] {
      var p := PreparedIn(c, k, w.cache);
      if p.Ready? {
        ApplySetPasses(c, k, p.value);
        ByModePasses(c, k, [Acked(k), Held(k, p.value)], ApplySet(c, k, p.value));
      }
    } else {
      PassedSetCalls(c, keys[1..], Next(c, w, Stage(c, Sets, keys[0], w)), k);
    }
  }

  lemma {:induction false} PassedDropCalls<T>(c: Context<T>, phase: Phase, keys: seq<Key>, w: World<T>, k: Key)
    requires phase.Deletes? || phase.StrongDeletes?
    requires RunAll(c, phase, keys, w).err.None? && k in keys
    ensures phase.Deletes? ==> ModePasses(c, k)
    ensures IsStrong(c, k) == phase.StrongDeletes? ==> LocalDropPasses(c, k)
    decreases |keys|
  {
    if k == keys[0] {
      ApplyDropPasses(c, k);
      if k in c.setup.regs {
        ByModePasses(c, k, [Acked(k)], ApplyDrop(c, k));
      }
    } else {
      PassedDropCalls(c, phase, keys[1..], Next(c, w, Stage(c, phase, keys[0], w)), k);
    }
  }

  lemma {:induction false} PassedHeldCalls<T>(c: Context<T>, values: map<Key, Value<T>>, keys: seq<Key>, w: World<T>,
                                              k: Key)
    requires RunAll(c, StrongSets, keys, w).err.None? && k in keys && k in w.later && k in c.setup.regs
    ensures LocalSetPasses(c, k)
    decreases |keys|
  {
    var x := keys[0];
    if k == x {
      ApplySetPasses(c, k, w.later[k]);
    } else {
      StageSlotAt(c, values, StrongSets, w, x);
      OthersUntouched(c, w, Stage(c, StrongSets, x, w).log, x, k);
      PassedHeldCalls(c, values, keys[1..], Next(c, w, Stage(c, StrongSets, x, w)), k);
    }
  }

  /** A commit succeeds only if none of its calls fails. */
  lemma SuccessMeansCallsPass<T>(c: Context<T>, sets: seq<Key>, deletes: seq<Key>, w: World<T>)
    requires Visits(c, sets, deletes)
    requires Starts(w) && Commit(c, sets, deletes, w).err.None?
    ensures CallsPass(c)
  {
    var w1, w2, w3, w4 := CommitWorlds(c, sets, deletes, w);
    var values := ValuesOf(c, sets, w);
    PassedMeansPrepared(c, sets, w);
    forall k | k in c.queued.sets ensures SetPasses(c, k) {
      PassedSetCalls(c, sets, w, k);
      if IsStrong(c, k) {
        PreparedKeys(c, values, sets, w, k);
        RunAllSlot(c, values, Sets, sets, w, k);
        RunAllSlot(c, values, Deletes, deletes, w1, k);
        PassedHeldCalls(c, values, sets, w2, k);
      }
    }
    forall k | k in c.queued.deletes ensures DropPasses(c, k) {
      PassedDropCalls(c, Deletes, deletes, w1, k);
      PassedDropCalls(c, StrongDeletes, deletes, w3, k);
    }
  }

  // ----- The store after a successful commit -----

  /** What the store holds about a key: a delete reaches it only through a batch. */
  function FinalStored<T>(c: Context<T>, values: map<Key, Value<T>>, k: Key, before: Option<T>): Option<T> {
    if c.setup.store.NoStore? then before
    else if k in c.queued.sets && k in values then Some(values[k].data)
    else if k in c.queued.deletes && c.setup.store.BatchingStore? then None
    else before
  }

  lemma FinishSlot<T>(c: Context<T>, w: World<T>, k: Key)
    requires Finish(c).err.None?
    ensures Next(c, w, Finish(c)).cache == w.cache
    ensures var s := SlotAt(w, k);
            SlotAt(Next(c, w, Finish(c)), k).stored ==
              if !c.setup.store.BatchingStore? then s.stored
              else if s.batched.Some? then s.batched
              else if s.dropped then None
              else s.stored
  {
    if c.setup.store.BatchingStore? {
      PerformOne(c.setup.limits, w, BatchCommitted);
    }
  }

  lemma {:induction false} PreparedKeys<T>(c: Context<T>, values: map<Key, Value<T>>, keys: seq<Key>, w: World<T>,
                                           k: Key)
    requires PreparedAs(c, values, keys, w) && k in keys
    ensures k in c.queued.sets && k in values
    decreases |keys|
  {
    if k != keys[0] {
      PreparedKeys(c, values, keys[1..], Next(c, w, Stage(c, Sets, keys[0], w)), k);
    }
  }

  /** What the four loops make of one key's slot. */
  function LoopsSlot<T>(c: Context<T>, values: map<Key, Value<T>>, k: Key, s: Slot<T>): Slot<T> {
    if k in c.queued.sets then StageSlot(c, values, StrongSets, k, StageSlot(c, values, Sets, k, s))
    else if k in c.queued.deletes then StageSlot(c, values, StrongDeletes, k, StageSlot(c, values, Deletes, k, s))
    else s
  }

  lemma LoopsSlotFinal<T>(c: Context<T>, values: map<Key, Value<T>>, k: Key, s: Slot<T>)
    requires s.batched.None? && !s.dropped && s.held.None?
    requires k in c.queued.sets ==> k in values && k in c.setup.regs
    ensures var t := LoopsSlot(c, values, k, s);
            FinalStored(c, values, k, s.stored) ==
              if !c.setup.store.BatchingStore? then t.stored
              else if t.batched.Some? then t.batched
              else if t.dropped then None
              else t.stored
  {
  }

  lemma LoopsSlotAt<T>(c: Context<T>, values: map<Key, Value<T>>, sets: seq<Key>, deletes: seq<Key>, w: World<T>,
                       k: Key)
    returns (w4: World<T>)
    requires Visits(c, sets, deletes)
    requires Commit(c, sets, deletes, w).err.None? && PreparedAs(c, values, sets, w)
    ensures SlotAt(w4, k) == LoopsSlot(c, values, k, SlotAt(w, k))
    ensures Next(c, w, Commit(c, sets, deletes, w)) == Next(c, w4, Finish(c)) && Finish(c).err.None?
  {
    var w1, w2, w3;
    w1, w2, w3, w4 := CommitWorlds(c, sets, deletes, w);
    RunAllSlot(c, values, Sets, sets, w, k);
    RunAllSlot(c, values, Deletes, deletes, w1, k);
    RunAllSlot(c, values, StrongSets, sets, w2, k);
    RunAllSlot(c, values, StrongDeletes, deletes, w3, k);
  }

  lemma {:induction false} PassedMeansRegistered<T>(c: Context<T>, keys: seq<Key>, w: World<T>, k: Key)
    requires RunAll(c, Sets, keys, w).err.None? && k in keys && k in c.queued.sets
    ensures k in c.setup.regs
    decreases |keys|
  {
    if k != keys[0] {
      PassedMeansRegistered(c, keys[1..], Next(c, w, Stage(c, Sets, keys[0], w)), k);
    }
  }

  /** A successful commit leaves in the store, key by key, exactly what was prepared and deleted. */
  lemma StoreResult<T>(c: Context<T>, values: map<Key, Value<T>>, sets: seq<Key>, deletes: seq<Key>, w: World<T>,
                       k: Key)
    requires Visits(c, sets, deletes)
    requires Starts(w) && Commit(c, sets, deletes, w).err.None? && PreparedAs(c, values, sets, w)
    ensures Lookup(Next(c, w, Commit(c, sets, deletes, w)).store, k) == FinalStored(c, values, k, Lookup(w.store, k))
  {
    var w4 := LoopsSlotAt(c, values, sets, deletes, w, k);
    FinishSlot(c, w4, k);
    if k in c.queued.sets {
      PreparedKeys(c, values, sets, w, k);
      PassedMeansRegistered(c, sets, w, k);
    }
    LoopsSlotFinal(c, values, k, SlotAt(w, k));
  }

  // ----- Orders -----

  lemma {:induction false} SomeOrder(all: set<Key>) returns (keys: seq<Key>)
    ensures IsOrder(keys, all)
    decreases all
  {
    if all == {} {
      keys := [];
    } else {
      var k :| k in all;
      var rest := SomeOrder(all - {k});
      keys := [k] + rest;
    }
  }

  lemma OrderFrom(all: set<Key>, k: Key) returns (keys: seq<Key>)
    requires k in all
    ensures IsOrder(keys, all) && keys[0] == k
  {
    var rest := SomeOrder(all - {k});
    keys := [k] + rest;
  }
}
