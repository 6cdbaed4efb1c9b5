/**
  What a successful commit leaves in the cache: nothing but the written values and the entries it was not
  concerned with, and all of those when the cache has room for them together.
*/
module CommitCaches {
  import opened Merging
  import opened Options
  import opened Commits
  import opened CommitLaws
  import opened CommitOrder
  import opened RecencyLists

  predicate OnCache<T>(e: Effect<T>, k: Key) {
    (e.CacheRead? || e.CacheSet? || e.CacheDropped?) && e.key == k
  }

  /** The last effect on the cached value of a key. */
  function LastOn<T>(log: seq<Effect<T>>, k: Key): Option<Effect<T>> {
    if log == [] then None
    else if OnCache(log[|log| - 1], k) then Some(log[|log| - 1])
    else LastOn(log[..|log| - 1], k)
  }

  lemma {:induction false} LastOnAppend<T>(a: seq<Effect<T>>, b: seq<Effect<T>>, k: Key)
    ensures LastOn(a + b, k) == if LastOn(b, k).Some? then LastOn(b, k) else LastOn(a, k)
    decreases |b|
  {
    if b == [] {
      assert a + b == a;
    } else {
      var front := b[..|b| - 1];
      assert (a + b)[..|a + b| - 1] == a + front;
      LastOnAppend(a, front, k);
    }
  }

  lemma {:induction false} LastOnNone<T>(log: seq<Effect<T>>, k: Key)
    requires forall i :: 0 <= i < |log| ==> !OnCache(log[i], k)
    ensures LastOn(log, k) == None
  {
    if log != [] {
      LastOnNone(log[..|log| - 1], k);
    }
  }

  // ----- What the last effect says about the cache -----

  lemma PerformSnoc<T>(limits: Limits, w: World<T>, log: seq<Effect<T>>)
    requires log != []
    ensures PerformAll(limits, w, log) == Perform(limits, PerformAll(limits, w, log[..|log| - 1]), log[|log| - 1])
  {
    var front, last := log[..|log| - 1], log[|log| - 1];
    assert log == front + [last];
    PerformAppend(limits, w, front, [last]);
    PerformOne(limits, PerformAll(limits, w, front), last);
  }

  function AsOp<T>(e: Effect<T>): Op<Value<T>>
    requires e.CacheRead? || e.CacheSet? || e.CacheDropped?
  {
    match e
    case CacheRead(k, at) => Get(k, at)
    case CacheSet(k, item) => Set(k, item)
    case CacheDropped(k) => Invalidate(k)
  }

  /** Whatever is cached was put there last, or was there and has not been replaced since. */
  lemma {:induction false} CachedSince<T>(limits: Limits, w: World<T>, log: seq<Effect<T>>, e: Entry<Value<T>>)
    requires e in PerformAll(limits, w, log).cache
    ensures match LastOn(log, e.key)
            case None => e in w.cache
            case Some(last) => !last.CacheDropped? && (last.CacheSet? ==> last.item == e.item)
  {
    if log != [] {
      var front, last := log[..|log| - 1], log[|log| - 1];
      var r := PerformAll(limits, w, front).cache;
      PerformSnoc(limits, w, log);
      if last.CacheRead? || last.CacheSet? || last.CacheDropped? {
        StepMember(r, AsOp(last), limits, e);
      }
      if !OnCache(last, e.key) {
        CachedSince(limits, w, front, e);
      }
    }
  }

  /** The log caches nothing but keys of `all`, every value counting `size` bytes. */
  ghost predicate Within<T>(log: seq<Effect<T>>, all: set<Key>, size: Size) {
    forall i :: 0 <= i < |log| && log[i].CacheSet? ==> log[i].key in all && log[i].item.size == size
  }

  ghost predicate CachedWithin<T>(r: Cache<T>, all: set<Key>, size: Size) {
    Distinct(Keys(r)) && forall e :: e in r ==> e.key in all && e.item.size == size
  }

  lemma StepWithin<T>(r: Cache<T>, op: Op<Value<T>>, limits: Limits, all: set<Key>, size: Size)
    requires CachedWithin(r, all, size) && (op.Set? ==> op.key in all && op.item.size == size)
    ensures CachedWithin(Step(r, op, limits), all, size)
  {
    StepDistinct(r, op, limits);
    forall e | e in Step(r, op, limits) ensures e.key in all && e.item.size == size {
      StepMember(r, op, limits, e);
    }
  }

  lemma {:induction false} StaysWithin<T>(limits: Limits, w: World<T>, log: seq<Effect<T>>, all: set<Key>, size: Size)
    requires CachedWithin(w.cache, all, size) && Within(log, all, size)
    ensures CachedWithin(PerformAll(limits, w, log).cache, all, size)
  {
    if log != [] {
      var front, last := log[..|log| - 1], log[|log| - 1];
      PerformSnoc(limits, w, log);
      StaysWithin(limits, w, front, all, size);
      if last.CacheRead? || last.CacheSet? || last.CacheDropped? {
        StepWithin(PerformAll(limits, w, front).cache, AsOp(last), limits, all, size);
      }
    }
  }

  /** A cache that can hold all keys evicts nothing. */
  lemma PutKeepsAll<T>(r: Cache<T>, e: Entry<Value<T>>, limits: Limits, all: set<Key>, size: Size)
    requires CachedWithin(r, all, size) && e.key in all && e.item.size == size && FitsCount(|all|, limits, size)
    ensures Put(r, e, limits) == [e] + Without(r, e.key)
  {
    var f := [e] + Without(r, e.key);
    FrontDistinct(r, e);
    FrontUniform(r, e, size);
    forall k | k in Keys(f) ensures k in all {
      var i :| 0 <= i < |f| && Keys(f)[i] == k;
      WithoutMember(r, e.key, f[i]);
    }
    DistinctCount(Keys(f), all);
    FewerFit(|f|, |all|, limits, size);
    UniformFits(f, limits, size);
  }

  lemma PerformKeeps<T>(limits: Limits, w: World<T>, last: Effect<T>, e: Entry<Value<T>>, all: set<Key>, size: Size)
    requires CachedWithin(w.cache, all, size) && FitsCount(|all|, limits, size)
    requires last.CacheSet? ==> last.key in all && last.item.size == size
    requires if OnCache(last, e.key) then last.CacheSet? && last.item == e.item else e in w.cache
    ensures e in Perform(limits, w, last).cache
  {
    if last.CacheSet? {
      PutKeepsAll(w.cache, Entry(last.key, last.item), limits, all, size);
      WithoutMember(w.cache, last.key, e);
    } else if last.CacheRead? || last.CacheDropped? {
      WithoutMember(w.cache, last.key, e);
    }
  }

  /** With room for all keys, what was put last is still cached, and so is what was not touched. */
  lemma {:induction false} RoomKeeps<T>(limits: Limits, w: World<T>, log: seq<Effect<T>>, e: Entry<Value<T>>,
                                        all: set<Key>, size: Size)
    requires CachedWithin(w.cache, all, size) && Within(log, all, size) && FitsCount(|all|, limits, size)
    requires match LastOn(log, e.key)
             case None => e in w.cache
             case Some(last) => last.CacheSet? && last.item == e.item
    ensures e in PerformAll(limits, w, log).cache
  {
    if log != [] {
      var front, last := log[..|log| - 1], log[|log| - 1];
      PerformSnoc(limits, w, log);
      StaysWithin(limits, w, front, all, size);
      if !OnCache(last, e.key) {
        RoomKeeps(limits, w, front, e, all, size);
      }
      PerformKeeps(limits, PerformAll(limits, w, front), last, e, all, size);
    }
  }

  // ----- The last effect of a successful commit on each key -----

  lemma {:induction false} LastOnOnly<T>(log: seq<Effect<T>>, x: Key, k: Key)
    requires Only(log, x) && x != k
    ensures LastOn(log, k) == None
  {
    LastOnNone(log, k);
  }

  lemma ApplySetLast<T>(c: Context<T>, k: Key, v: Value<T>)
    requires k in c.setup.regs && ApplySet(c, k, v).err.None?
    ensures LastOn(ApplySet(c, k, v).log, k) == Some(CacheSet(k, NewItem(c, k, v)))
  {
    var log := ApplySet(c, k, v).log;
    assert log == [CacheSet(k, NewItem(c, k, v))] + log[1..];
    LastOnNone(log[1..], k);
    LastOnAppend([CacheSet(k, NewItem(c, k, v))], log[1..], k);
  }

  lemma ApplyDropLast<T>(c: Context<T>, k: Key)
    requires ApplyDrop(c, k).err.None?
    ensures LastOn(ApplyDrop(c, k).log, k) == Some(CacheDropped(k))
  {
    var log := ApplyDrop(c, k).log;
    assert log == [CacheDropped(k)] + log[1..];
    LastOnNone(log[1..], k);
    LastOnAppend([CacheDropped(k)], log[1..], k);
  }

  lemma ByModeLast<T>(c: Context<T>, k: Key, acked: seq<Effect<T>>, applied: Out<T>)
    requires k in c.setup.regs && ByMode(c, k, acked, applied).err.None?
    requires forall i :: 0 <= i < |acked| ==> !OnCache(acked[i], k)
    ensures LastOn(ByMode(c, k, acked, applied).log, k) == if IsStrong(c, k) then None else LastOn(applied.log, k)
  {
    if IsStrong(c, k) {
      LastOnNone(acked, k);
    } else {
      LastOnNone<T>([Published(k)], k);
      LastOnAppend(applied.log, [Published(k)], k);
    }
  }

  /** What a key's turn in a loop does last to its cached value. */
  function StageLast<T>(c: Context<T>, values: map<Key, Value<T>>, phase: Phase, k: Key,
                        held: Option<Value<T>>): Option<Effect<T>>
    requires k in c.setup.regs && (phase.Sets? ==> k in values)
  {
    match phase
    case Sets => Some(if IsStrong(c, k) then CacheRead(k, c.env.readAt(k)) else CacheSet(k, NewItem(c, k, values[k])))
    case Deletes => if IsStrong(c, k) then None else Some(CacheDropped(k))
    case StrongSets => if held.Some? then Some(CacheSet(k, NewItem(c, k, held.value))) else None
    case StrongDeletes => if IsStrong(c, k) then Some(CacheDropped(k)) else None
  }

  lemma SetStageLast<T>(c: Context<T>, w: World<T>, k: Key, v: Value<T>)
    requires k in c.queued.sets && SetStage(c, k, w.cache).err.None? && PreparedIn(c, k, w.cache) == Ready(v)
    ensures k in c.setup.regs
    ensures LastOn(SetStage(c, k, w.cache).log, k) ==
              Some(if IsStrong(c, k) then CacheRead(k, c.env.readAt(k)) else CacheSet(k, NewItem(c, k, v)))
  {
    var read: Effect<T>, applied := CacheRead(k, c.env.readAt(k)), ApplySet(c, k, v);
    var rest := WritePrepared(c, k, Ready(v));
    ByModeLast(c, k, [Acked(k), Held(k, v)], applied);
    if !IsStrong(c, k) {
      ApplySetLast(c, k, v);
    }
    LastOnAppend([read], rest.log, k);
    assert LastOn([read], k) == Some(read);
  }

  lemma StageLastOn<T>(c: Context<T>, values: map<Key, Value<T>>, phase: Phase, w: World<T>, k: Key)
    requires k in c.setup.regs && Stage(c, phase, k, w).err.None?
    requires phase.Sets? ==> k in c.queued.sets && k in values && PreparedIn(c, k, w.cache) == Ready(values[k])
    ensures LastOn(Stage(c, phase, k, w).log, k) == StageLast(c, values, phase, k, Lookup(w.later, k))
  {
    match phase
    case Sets => SetStageLast(c, w, k, values[k]);
    case Deletes =>
      ByModeLast(c, k, [Acked(k)], ApplyDrop(c, k));
      if !IsStrong(c, k) {
        ApplyDropLast(c, k);
      }
    case StrongSets =>
      if k in w.later {
        ApplySetLast(c, k, w.later[k]);
      }
    case StrongDeletes =>
      if IsStrong(c, k) {
        ApplyDropLast(c, k);
      }
  }

  lemma {:induction false} RunAllLast<T>(c: Context<T>, values: map<Key, Value<T>>, phase: Phase, keys: seq<Key>,
                                         w: World<T>, k: Key)
    requires RunAll(c, phase, keys, w).err.None? && (phase.Sets? ==> PreparedAs(c, values, keys, w))
    requires forall i, j :: 0 <= i < j < |keys| ==> keys[i] != keys[j]
    requires k in keys ==> k in c.setup.regs && (phase.Sets? ==> k in values)
    ensures LastOn(RunAll(c, phase, keys, w).log, k) ==
              if k in keys then StageLast(c, values, phase, k, Lookup(w.later, k)) else None
    decreases |keys|
  {
    if keys != [] {
      var x, rest := keys[0], keys[1..];
      var first := Stage(c, phase, x, w);
      var next := Next(c, w, first);
      StageSlotAt(c, values, phase, w, x);
      RunAllLast(c, values, phase, rest, next, k);
      LastOnAppend(first.log, RunAll(c, phase, rest, next).log, k);
      assert x !in rest;
      if k == x {
        StageLastOn(c, values, phase, w, x);
      } else {
        LastOnOnly(first.log, x, k);
        OthersUntouched(c, w, first.log, x, k);
        assert Lookup(next.later, k) == SlotAt(next, k).held;
        assert k in keys <==> k in rest;
      }
    }
  }

  lemma LastOnFour<T>(a: seq<Effect<T>>, b: seq<Effect<T>>, d: seq<Effect<T>>, e: seq<Effect<T>>, f: seq<Effect<T>>,
                      k: Key)
    requires LastOn(f, k) == None
    ensures LastOn(a + (b + (d + (e + f))), k) ==
              if LastOn(e, k).Some? then LastOn(e, k)
              else if LastOn(d, k).Some? then LastOn(d, k)
              else if LastOn(b, k).Some? then LastOn(b, k)
              else LastOn(a, k)
  {
    LastOnAppend(a, b + (d + (e + f)), k);
    LastOnAppend(b, d + (e + f), k);
    LastOnAppend(d, e + f, k);
    LastOnAppend(e, f, k);
  }

  lemma LastOfLoops<T>(c: Context<T>, sets: seq<Key>, deletes: seq<Key>, w: World<T>, w1: World<T>, w2: World<T>,
                       w3: World<T>, k: Key)
    requires Commit(c, sets, deletes, w).err.None? && w1 == Next(c, w, RunAll(c, Sets, sets, w))
    requires w2 == Next(c, w1, RunAll(c, Deletes, deletes, w1)) && w3 == Next(c, w2, RunAll(c, StrongSets, sets, w2))
    ensures LastOn(Commit(c, sets, deletes, w).log, k) ==
              if LastOn(RunAll(c, StrongDeletes, deletes, w3).log, k).Some?
              then LastOn(RunAll(c, StrongDeletes, deletes, w3).log, k)
              else if LastOn(RunAll(c, StrongSets, sets, w2).log, k).Some?
              then LastOn(RunAll(c, StrongSets, sets, w2).log, k)
              else if LastOn(RunAll(c, Deletes, deletes, w1).log, k).Some?
              then LastOn(RunAll(c, Deletes, deletes, w1).log, k)
              else LastOn(RunAll(c, Sets, sets, w).log, k)
  {
    CommitLog(c, sets, deletes, w, w1, w2, w3);
    LastOnNone(Finish(c).log, k);
    LastOnFour(RunAll(c, Sets, sets, w).log, RunAll(c, Deletes, deletes, w1).log, RunAll(c, StrongSets, sets, w2).log,
               RunAll(c, StrongDeletes, deletes, w3).log, Finish(c).log, k);
  }

  /** What a successful commit does last to a cached value. */
  function CommitLast<T>(c: Context<T>, values: map<Key, Value<T>>, k: Key): Option<Effect<T>> {
    if k in c.queued.sets && k in values && k in c.setup.regs then Some(CacheSet(k, NewItem(c, k, values[k])))
    else if k in c.queued.deletes then Some(CacheDropped(k))
    else None
  }

  lemma SetLoopsLast<T>(c: Context<T>, values: map<Key, Value<T>>, sets: seq<Key>, w: World<T>, w2: World<T>, k: Key)
    requires forall i, j :: 0 <= i < j < |sets| ==> sets[i] != sets[j]
    requires RunAll(c, Sets, sets, w).err.None? && PreparedAs(c, values, sets, w) &&
             RunAll(c, StrongSets, sets, w2).err.None?
    requires k in sets ==> k in values && k in c.setup.regs
    requires Lookup(w2.later, k) == if k in sets && IsStrong(c, k) then Some(values[k]) else None
    ensures var written := if k in sets then Some(CacheSet(k, NewItem(c, k, values[k]))) else None;
            && (if k in sets && IsStrong(c, k) then LastOn(RunAll(c, StrongSets, sets, w2).log, k) == written
                else && LastOn(RunAll(c, Sets, sets, w).log, k) == written
                     && LastOn(RunAll(c, StrongSets, sets, w2).log, k) == None)
  {
    RunAllLast(c, values, Sets, sets, w, k);
    RunAllLast(c, values, StrongSets, sets, w2, k);
  }

  lemma DropLoopsLast<T>(c: Context<T>, deletes: seq<Key>, w1: World<T>, w3: World<T>, k: Key)
    requires forall i, j :: 0 <= i < j < |deletes| ==> deletes[i] != deletes[j]
    requires RunAll(c, Deletes, deletes, w1).err.None? && RunAll(c, StrongDeletes, deletes, w3).err.None?
    ensures var dropped := if k in deletes then Some(CacheDropped(k)) else None;
            && (if IsStrong(c, k) then LastOn(RunAll(c, StrongDeletes, deletes, w3).log, k) == dropped
                else LastOn(RunAll(c, Deletes, deletes, w1).log, k) == dropped)
            && (!IsStrong(c, k) || k !in deletes ==> LastOn(RunAll(c, StrongDeletes, deletes, w3).log, k) == None)
            && (IsStrong(c, k) || k !in deletes ==> LastOn(RunAll(c, Deletes, deletes, w1).log, k) == None)
  {
    if k in deletes {
      PassedDropCalls(c, Deletes, deletes, w1, k);
    }
    RunAllLast(c, map[], Deletes, deletes, w1, k);
    RunAllLast(c, map[], StrongDeletes, deletes, w3, k);
  }

  lemma CommitLastOn<T>(c: Context<T>, values: map<Key, Value<T>>, sets: seq<Key>, deletes: seq<Key>, w: World<T>,
                        k: Key)
    requires Visits(c, sets, deletes)
    requires Starts(w) && Commit(c, sets, deletes, w).err.None? && PreparedAs(c, values, sets, w)
    ensures k in c.queued.sets ==> k in values && k in c.setup.regs
    ensures LastOn(Commit(c, sets, deletes, w).log, k) == CommitLast(c, values, k)
  {
    var w1, w2, w3, w4 := CommitWorlds(c, sets, deletes, w);
    HeldAfterLoops(c, values, sets, deletes, w, w1, w2, k);
    if k in sets {
      PassedMeansRegistered(c, sets, w, k);
    }
    SetLoopsLast(c, values, sets, w, w2, k);
    DropLoopsLast(c, deletes, w1, w3, k);
    LastOfLoops(c, sets, deletes, w, w1, w2, w3, k);
  }

  // ----- The cache after a successful commit -----

  /** The written values, and every entry the commit neither sets nor deletes. */
  ghost predicate Expected<T>(c: Context<T>, values: map<Key, Value<T>>, base: Cache<T>, e: Entry<Value<T>>) {
    if e.key in c.queued.sets
    then e.key in c.setup.regs && e.key in values && e.item == NewItem(c, e.key, values[e.key])
    else e in base && e.key !in c.queued.deletes
  }

  /** After a successful commit the cache holds nothing unexpected, whatever its limits. */
  lemma NothingUnexpected<T>(c: Context<T>, values: map<Key, Value<T>>, sets: seq<Key>, deletes: seq<Key>, w: World<T>,
                             e: Entry<Value<T>>)
    requires Visits(c, sets, deletes)
    requires Starts(w) && Commit(c, sets, deletes, w).err.None? && PreparedAs(c, values, sets, w)
    requires e in Next(c, w, Commit(c, sets, deletes, w)).cache
    ensures Expected(c, values, w.cache, e)
  {
    CommitLastOn(c, values, sets, deletes, w, e.key);
    CachedSince(c.setup.limits, w, Commit(c, sets, deletes, w).log, e);
  }

  /** A deleted key leaves the cache, and stays in the store exactly when it was there and nothing is batched. */
  lemma DeletedKeySurvives<T>(c: Context<T>, sets: seq<Key>, deletes: seq<Key>, w: World<T>, k: Key)
    requires Visits(c, sets, deletes)
    requires Starts(w) && Commit(c, sets, deletes, w).err.None? && k in c.queued.deletes
    ensures !Has(Next(c, w, Commit(c, sets, deletes, w)).cache, k)
    ensures k in Next(c, w, Commit(c, sets, deletes, w)).store <==> k in w.store && !c.setup.store.BatchingStore?
  {
    var w1, w2, w3, w4 := CommitWorlds(c, sets, deletes, w);
    PassedMeansPrepared(c, sets, w);
    StoreResult(c, ValuesOf(c, sets, w), sets, deletes, w, k);
    if Has(Next(c, w, Commit(c, sets, deletes, w)).cache, k) {
      NothingUnexpected(c, ValuesOf(c, sets, w), sets, deletes, w,
                        Find(Next(c, w, Commit(c, sets, deletes, w)).cache, k));
      assert false;
    }
  }

  /** All the keys that are cached or set. */
  function Concerned<T>(c: Context<T>, base: Cache<T>): set<Key> {
    KeySet(Keys(base)) + c.queued.sets.Keys
  }

  /** With room for everything cached or set, it holds all that is expected. */
  lemma EverythingExpected<T>(c: Context<T>, values: map<Key, Value<T>>, sets: seq<Key>, deletes: seq<Key>, w: World<T>,
                              e: Entry<Value<T>>)
    requires Visits(c, sets, deletes)
    requires CacheOk(c.setup, w.cache) && FitsCount(|Concerned(c, w.cache)|, c.setup.limits, c.setup.valueSize)
    requires Starts(w) && Commit(c, sets, deletes, w).err.None? && PreparedAs(c, values, sets, w)
    requires Expected(c, values, w.cache, e)
    ensures e in Next(c, w, Commit(c, sets, deletes, w)).cache
  {
    var all, log := Concerned(c, w.cache), Commit(c, sets, deletes, w).log;
    forall x | x in w.cache ensures x.key in all {
      var i :| 0 <= i < |w.cache| && w.cache[i] == x;
      assert Keys(w.cache)[i] == x.key;
    }
    forall i | 0 <= i < |log| && log[i].CacheSet? ensures log[i].key in all && log[i].item.size == c.setup.valueSize {
      CommitWrites(c, values, sets, deletes, w, log[i].key, log[i].item);
    }
    CommitLastOn(c, values, sets, deletes, w, e.key);
    RoomKeeps(c.setup.limits, w, log, e, all, c.setup.valueSize);
  }

  /** Room for everything is room for every sensitive key. */
  lemma RoomForAll<T>(c: Context<T>, base: Cache<T>)
    requires CacheOk(c.setup, base) && FitsCount(|Concerned(c, base)|, c.setup.limits, c.setup.valueSize)
    ensures AllHaveRoom(c, base)
  {
    forall k | Sensitive(c, base, k) ensures Room(c, base, k) {
      BeforeWithin(base, k);
      CrowdWithin(c, base, k, Concerned(c, base));
    }
  }

  /** With room for everything cached or set, every order leaves the same entries in the cache: the expected ones. */
  lemma CacheIgnoresOrder<T>(c: Context<T>, sets: seq<Key>, deletes: seq<Key>, w: World<T>, e: Entry<Value<T>>)
    requires Visits(c, sets, deletes)
    requires CacheOk(c.setup, w.cache) && FitsCount(|Concerned(c, w.cache)|, c.setup.limits, c.setup.valueSize)
    requires Starts(w) && CallsPass(c) && AllReady(c, w.cache)
    ensures Commit(c, sets, deletes, w).err.None?
    ensures e in Next(c, w, Commit(c, sets, deletes, w)).cache <==> Expected(c, Intended(c, w.cache), w.cache, e)
  {
    RoomForAll(c, w.cache);
    RoomSuffices(c, sets, deletes, w);
    WritesIffPrepared(c, sets, deletes, w);
    if e in Next(c, w, Commit(c, sets, deletes, w)).cache {
      NothingUnexpected(c, Intended(c, w.cache), sets, deletes, w, e);
    }
    if Expected(c, Intended(c, w.cache), w.cache, e) {
      EverythingExpected(c, Intended(c, w.cache), sets, deletes, w, e);
    }
  }

  // ----- Every commit keeps the cache as the core keeps it -----

  /** What a commit that visits `sets` and `deletes` does to the cache: each key its own, in its own way. */
  ghost predicate Typical<T>(c: Context<T>, sets: seq<Key>, deletes: seq<Key>, e: Effect<T>) {
    match e
    case CacheRead(k, at) => k in sets && at == c.env.readAt(k)
    case CacheSet(k, item) => k in sets && k in c.setup.regs && item == NewItem(c, k, item.value)
    case CacheDropped(k) => k in deletes
    case _ => true
  }

  ghost predicate AllTypical<T>(c: Context<T>, sets: seq<Key>, deletes: seq<Key>, log: seq<Effect<T>>) {
    forall i :: 0 <= i < |log| ==> Typical(c, sets, deletes, log[i])
  }

  lemma TypicalThen<T>(c: Context<T>, sets: seq<Key>, deletes: seq<Key>, a: Out<T>, b: Out<T>)
    requires AllTypical(c, sets, deletes, a.log) && AllTypical(c, sets, deletes, b.log)
    ensures AllTypical(c, sets, deletes, Then(a, b).log)
  {
  }

  lemma SetTypical<T>(c: Context<T>, sets: seq<Key>, deletes: seq<Key>, k: Key, v: Value<T>)
    requires k in c.setup.regs && k in sets
    ensures AllTypical(c, sets, deletes, ApplySet(c, k, v).log)
  {
  }

  lemma DropTypical<T>(c: Context<T>, sets: seq<Key>, deletes: seq<Key>, k: Key)
    requires k in deletes
    ensures AllTypical(c, sets, deletes, ApplyDrop(c, k).log)
  {
  }

  lemma ModeTypical<T>(c: Context<T>, sets: seq<Key>, deletes: seq<Key>, k: Key, acked: seq<Effect<T>>, applied: Out<T>)
    requires k in c.setup.regs
    requires AllTypical(c, sets, deletes, acked) && AllTypical(c, sets, deletes, applied.log)
    ensures AllTypical(c, sets, deletes, ByMode(c, k, acked, applied).log)
  {
  }

  /** The keys a loop visits. */
  predicate VisitedIn(phase: Phase, sets: seq<Key>, deletes: seq<Key>, k: Key) {
    if phase.Sets? || phase.StrongSets? then k in sets else k in deletes
  }

  lemma SetStageTypical<T>(c: Context<T>, sets: seq<Key>, deletes: seq<Key>, k: Key, cache: Cache<T>)
    requires k in c.queued.sets && k in sets
    ensures AllTypical(c, sets, deletes, SetStage(c, k, cache).log)
  {
    if k in c.setup.regs && PreparedIn(c, k, cache).Ready? {
      var v := PreparedIn(c, k, cache).value;
      SetTypical(c, sets, deletes, k, v);
      ModeTypical(c, sets, deletes, k, [Acked(k), Held(k, v)], ApplySet(c, k, v));
    }
  }

  lemma StageTypical<T>(c: Context<T>, phase: Phase, sets: seq<Key>, deletes: seq<Key>, k: Key, w: World<T>)
    requires VisitedIn(phase, sets, deletes, k)
    ensures AllTypical(c, sets, deletes, Stage(c, phase, k, w).log)
  {
    match phase
    case Sets =>
      if k in c.queued.sets {
        SetStageTypical(c, sets, deletes, k, w.cache);
      }
    case Deletes =>
      DropTypical(c, sets, deletes, k);
      if k in c.setup.regs {
        ModeTypical(c, sets, deletes, k, [Acked(k)], ApplyDrop(c, k));
      }
    case StrongSets =>
      if k in w.later && k in c.setup.regs {
        SetTypical(c, sets, deletes, k, w.later[k]);
      }
    case StrongDeletes => DropTypical(c, sets, deletes, k);
  }

  lemma {:induction false} RunAllTypical<T>(c: Context<T>, phase: Phase, sets: seq<Key>, deletes: seq<Key>,
                                            keys: seq<Key>, w: World<T>)
    requires forall k :: k in keys ==> VisitedIn(phase, sets, deletes, k)
    ensures AllTypical(c, sets, deletes, RunAll(c, phase, keys, w).log)
    decreases |keys|
  {
    if keys != [] {
      var first := Stage(c, phase, keys[0], w);
      assert keys[0] in keys && forall k :: k in keys[1..] ==> k in keys;
      StageTypical(c, phase, sets, deletes, keys[0], w);
      RunAllTypical(c, phase, sets, deletes, keys[1..], Next(c, w, first));
      TypicalThen(c, sets, deletes, first, RunAll(c, phase, keys[1..], Next(c, w, first)));
    }
  }

  lemma CommitTypical<T>(c: Context<T>, sets: seq<Key>, deletes: seq<Key>, w: World<T>)
    ensures AllTypical(c, sets, deletes, Commit(c, sets, deletes, w).log)
  {
    var w1 := Next(c, w, RunAll(c, Sets, sets, w));
    var w2 := Next(c, w1, RunAll(c, Deletes, deletes, w1));
    var w3 := Next(c, w2, RunAll(c, StrongSets, sets, w2));
    RunAllTypical(c, StrongDeletes, sets, deletes, deletes, w3);
    TypicalThen(c, sets, deletes, RunAll(c, StrongDeletes, deletes, w3), Finish(c));
    RunAllTypical(c, StrongSets, sets, deletes, sets, w2);
    TypicalThen(c, sets, deletes, RunAll(c, StrongSets, sets, w2), AfterApplied(c, deletes, w3));
    RunAllTypical(c, Deletes, sets, deletes, deletes, w1);
    TypicalThen(c, sets, deletes, RunAll(c, Deletes, deletes, w1), Applied(c, sets, deletes, w2));
    RunAllTypical(c, Sets, sets, deletes, sets, w);
    TypicalThen(c, sets, deletes, RunAll(c, Sets, sets, w), AfterSets(c, sets, deletes, w1));
  }

  lemma StepOk<T>(setup: Setup, r: Cache<T>, op: Op<Value<T>>)
    requires CacheOk(setup, r) && !op.Sweep? && (op.Set? ==> op.item.size == setup.valueSize)
    ensures CacheOk(setup, Step(r, op, setup.limits))
  {
    var t := Step(r, op, setup.limits);
    StepDistinct(r, op, setup.limits);
    forall e | e in t ensures e.item.size == setup.valueSize {
      StepMember(r, op, setup.limits, e);
    }
    if !op.Set? {
      WithoutLength(r, op.key);
      UniformFits(r, setup.limits, setup.valueSize);
      UniformFits(t, setup.limits, setup.valueSize);
      FewerFit(|t|, |r|, setup.limits, setup.valueSize);
    }
  }

  lemma {:induction false} LogKeepsCacheOk<T>(c: Context<T>, sets: seq<Key>, deletes: seq<Key>, w: World<T>,
                                              log: seq<Effect<T>>)
    requires CacheOk(c.setup, w.cache) && AllTypical(c, sets, deletes, log)
    ensures CacheOk(c.setup, PerformAll(c.setup.limits, w, log).cache)
    decreases |log|
  {
    if log != [] {
      assert Typical(c, sets, deletes, log[0]);
      if log[0].CacheRead? || log[0].CacheSet? || log[0].CacheDropped? {
        StepOk(c.setup, w.cache, AsOp(log[0]));
      }
      LogKeepsCacheOk(c, sets, deletes, Perform(c.setup.limits, w, log[0]), log[1..]);
    }
  }

  /** Whatever a commit does and wherever it fails, the cache keeps distinct keys, equal sizes and its limits. */
  lemma CommitKeepsCacheOk<T>(c: Context<T>, sets: seq<Key>, deletes: seq<Key>, w: World<T>)
    requires CacheOk(c.setup, w.cache)
    ensures CacheOk(c.setup, Next(c, w, Commit(c, sets, deletes, w)).cache)
  {
    CommitTypical(c, sets, deletes, w);
    LogKeepsCacheOk(c, sets, deletes, w, Commit(c, sets, deletes, w).log);
  }

  // ----- What shows in the cache -----

  /** The effect leaves a cached entry where it is. */
  predicate Spares<T>(e: Effect<T>, x: Entry<Value<T>>) {
    match e
    case CacheSet(_, _) => false
    case CacheRead(k, at) => k == x.key ==> !Expired(x.item, at)
    case CacheDropped(k) => k != x.key
    case _ => true
  }

  lemma Spared<T>(limits: Limits, w: World<T>, e: Effect<T>, x: Entry<Value<T>>)
    requires Distinct(Keys(w.cache)) && x in w.cache && Spares(e, x)
    ensures x in Perform(limits, w, e).cache
  {
    if e.CacheRead? || e.CacheDropped? {
      FindUnique(w.cache, x);
      WithoutMember(w.cache, e.key, x);
    }
  }

  lemma FrontKept<T>(r: Cache<T>, e: Entry<Value<T>>, limits: Limits, size: Size)
    requires e.item.size == size && FitsCount(1, limits, size)
    ensures e in Put(r, e, limits)
  {
    var f := [e] + Without(r, e.key);
    assert f[..1] == [e];
    UniformFits([e], limits, size);
    TrimIsLongestFit(f, limits, 1);
    assert Trim(f, limits)[0] == e;
  }

  /** What a write put into the cache is still there if every later effect spares it. */
  lemma {:induction false} WriteKept<T>(c: Context<T>, sets: seq<Key>, deletes: seq<Key>, w: World<T>,
                                        log: seq<Effect<T>>, i: nat)
    requires CacheOk(c.setup, w.cache) && AllTypical(c, sets, deletes, log)
    requires FitsCount(1, c.setup.limits, c.setup.valueSize)
    requires i < |log| && log[i].CacheSet?
    requires forall j :: i < j < |log| ==> Spares(log[j], Entry(log[i].key, log[i].item))
    ensures Entry(log[i].key, log[i].item) in PerformAll(c.setup.limits, w, log).cache
    decreases |log|
  {
    var front, last, x := log[..|log| - 1], log[|log| - 1], Entry(log[i].key, log[i].item);
    var before := PerformAll(c.setup.limits, w, front);
    PerformSnoc(c.setup.limits, w, log);
    LogKeepsCacheOk(c, sets, deletes, w, front);
    if i == |log| - 1 {
      assert Typical(c, sets, deletes, last);
      FrontKept(before.cache, x, c.setup.limits, c.setup.valueSize);
    } else {
      WriteKept(c, sets, deletes, w, front, i);
      Spared(c.setup.limits, before, last, x);
    }
  }

  /** Nothing that can be seen has changed: the store is the same and the cache has lost expired entries only. */
  ghost predicate Untouched<T>(c: Context<T>, w: World<T>, after: World<T>) {
    && after.store == w.store
    && (forall e :: e in after.cache ==> e in w.cache)
    && (forall e :: e in w.cache && e !in after.cache ==>
          e.key in c.queued.sets && Expired(e.item, c.env.readAt(e.key)))
  }

  lemma {:induction false} LastWrite<T>(log: seq<Effect<T>>) returns (i: nat)
    requires exists j :: 0 <= j < |log| && log[j].CacheSet?
    ensures i < |log| && log[i].CacheSet? && forall j :: i < j < |log| ==> !log[j].CacheSet?
    decreases |log|
  {
    if log[|log| - 1].CacheSet? {
      i := |log| - 1;
    } else {
      var front := log[..|log| - 1];
      var j :| 0 <= j < |log| && log[j].CacheSet?;
      assert front[j].CacheSet?;
      i := LastWrite(front);
    }
  }

  /** Every cached value would expire at the moment its key is read, which no value written at that moment does. */
  ghost predicate Marked<T>(c: Context<T>, w: World<T>) {
    && (forall e :: e in w.cache ==> e.item.expiresAt == At(c.env.readAt(e.key)))
    && (forall k :: c.env.storedAt(k) == c.env.readAt(k))
  }

  /** In such a world every write shows. */
  lemma WriteShows<T>(c: Context<T>, sets: seq<Key>, deletes: seq<Key>, w: World<T>, log: seq<Effect<T>>)
    requires CacheOk(c.setup, w.cache) && AllTypical(c, sets, deletes, log) && Marked(c, w)
    requires FitsCount(1, c.setup.limits, c.setup.valueSize) && forall k :: k in sets ==> k !in deletes
    requires exists j :: 0 <= j < |log| && log[j].CacheSet?
    ensures !Untouched(c, w, PerformAll(c.setup.limits, w, log))
  {
    var i := LastWrite(log);
    var x := Entry(log[i].key, log[i].item);
    assert Typical(c, sets, deletes, log[i]);
    forall j | i < j < |log| ensures Spares(log[j], x) {
      assert Typical(c, sets, deletes, log[j]);
    }
    WriteKept(c, sets, deletes, w, log, i);
    assert x !in w.cache;
  }

  lemma {:induction false} LastOnSome<T>(log: seq<Effect<T>>, k: Key, i: nat)
    requires i < |log| && OnCache(log[i], k)
    ensures LastOn(log, k).Some? && LastOn(log, k).value in log && OnCache(LastOn(log, k).value, k)
    decreases |log|
  {
    if !OnCache(log[|log| - 1], k) {
      LastOnSome(log[..|log| - 1], k, i);
    }
  }

  /** Dropping a cached key shows. */
  lemma DropShows<T>(c: Context<T>, sets: seq<Key>, deletes: seq<Key>, w: World<T>, log: seq<Effect<T>>,
                     x: Entry<Value<T>>, i: nat)
    requires AllTypical(c, sets, deletes, log) && x in w.cache && x.key !in sets && x.key !in c.queued.sets
    requires i < |log| && log[i] == CacheDropped(x.key)
    ensures !Untouched(c, w, PerformAll(c.setup.limits, w, log))
  {
    LastOnSome(log, x.key, i);
    var last := LastOn(log, x.key).value;
    var j :| 0 <= j < |log| && log[j] == last;
    assert Typical(c, sets, deletes, log[j]);
    if x in PerformAll(c.setup.limits, w, log).cache {
      CachedSince(c.setup.limits, w, log, x);
      assert false;
    }
  }
}
