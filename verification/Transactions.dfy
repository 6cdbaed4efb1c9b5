/**
  The transaction builder and its commit, as they change maps in place. The builder is specified by
  the last operation queued for each key, the commit by the effects it performs.
*/
module Transactions {
  import opened Merging
  import opened Options
  import opened Commits
  import opened CommitLaws
  import opened CommitSwaps
  import Lru = RecencyLists
  import LruCaches

  // ----- The store and its batch -----

  function Elements(s: seq<Key>): (all: set<Key>)
    ensures forall k :: k in all <==> k in s
  {
    set k | k in s
  }

  class InMemoryStore<T> {
    var items: map<Key, T>

    constructor ()
      ensures items == map[]
    {
      items := map[];
    }

    method Set(k: Key, value: T)
      modifies this
      ensures items == old(items)[k := value]
    {
      items := items[k := value];
    }
  }

  class InMemoryBatch<T> {
    const store: InMemoryStore<T>
    var sets: map<Key, T>
    var deletes: seq<Key>

    /** What the batch has been told, as the effects describe it. */
    function Contents(): Batch<T>
      reads this
    {
      Batch(sets, Elements(deletes))
    }

    constructor (store: InMemoryStore<T>)
      ensures this.store == store && sets == map[] && deletes == [] && Contents() == Batch(map[], {})
    {
      this.store := store;
      sets, deletes := map[], [];
    }

    method Set(k: Key, value: T)
      modifies this
      ensures sets == old(sets)[k := value] && deletes == old(deletes)
      ensures Contents() == old(Contents()).(sets := old(sets)[k := value])
    {
      sets := sets[k := value];
    }

    method Delete(k: Key)
      modifies this
      ensures deletes == old(deletes) + [k] && sets == old(sets)
      ensures Contents() == old(Contents()).(deletes := old(Contents()).deletes + {k})
    {
      deletes := deletes + [k];
    }

    /** Apply the deletes, then the sets. */
    method Commit()
      modifies store
      ensures store.items == DeleteThenSet(old(store.items), Contents())
    {
      var i := 0;
      while i < |deletes|
        invariant 0 <= i <= |deletes|
        invariant store.items == old(store.items) - Elements(deletes[..i])
      {
        assert deletes[..i + 1] == deletes[..i] + [deletes[i]];
        store.items := store.items - {deletes[i]};
        i := i + 1;
      }
      assert deletes[..i] == deletes;
      ghost var left := store.items;
      var todo := sets.Keys;
      while todo != {}
        invariant todo <= sets.Keys
        invariant store.items == left + map k | k in sets && k !in todo :: sets[k]
        decreases todo
      {
        var k :| k in todo;
        store.items := store.items[k := sets[k]];
        todo := todo - {k};
      }
    }
  }

  // ----- The builder -----

  datatype Op<T> = SetOp(key: Key, value: T) | DeleteOp(key: Key) | SwapOp(key: Key, expected: T, value: T)

  /** The last operation queued for a key. */
  function LastOp<T>(history: seq<Op<T>>, k: Key): Option<Op<T>> {
    if history == [] then None
    else if history[|history| - 1].key == k then Some(history[|history| - 1])
    else LastOp(history[..|history| - 1], k)
  }

  /** The queue holds about `k` exactly what its last operation says. */
  predicate Encodes<T(==)>(q: Queued<T>, k: Key, last: Option<Op<T>>) {
    match last
    case None => k !in q.sets && k !in q.deletes && k !in q.cas
    case Some(SetOp(_, v)) => k in q.sets && q.sets[k] == v && k !in q.deletes && k !in q.cas
    case Some(DeleteOp(_)) => k in q.deletes && k !in q.sets && k !in q.cas
    case Some(SwapOp(_, e, v)) => k in q.sets && q.sets[k] == v && k !in q.deletes && k in q.cas && q.cas[k] == e
  }

  ghost predicate EncodesAll<T>(q: Queued<T>, history: seq<Op<T>>) {
    forall k :: Encodes(q, k, LastOp(history, k))
  }

  lemma LastOpNext<T>(history: seq<Op<T>>, op: Op<T>, k: Key)
    ensures LastOp(history + [op], k) == if op.key == k then Some(op) else LastOp(history, k)
  {
    assert (history + [op])[..|history|] == history;
  }

  /** A queue that encodes last operations never sets and deletes the same key, so both stores agree on it. */
  lemma QueuedSetsAndDeletesDisjoint<T>(q: Queued<T>, history: seq<Op<T>>, items: map<Key, T>)
    requires EncodesAll(q, history)
    ensures q.sets.Keys !! q.deletes && q.cas.Keys <= q.sets.Keys
    ensures DeleteThenSet(items, Batch(q.sets, q.deletes)) == SetThenDelete(items, Batch(q.sets, q.deletes))
  {
    forall k ensures !(k in q.sets && k in q.deletes) && (k in q.cas ==> k in q.sets) {
      assert Encodes(q, k, LastOp(history, k));
    }
    BatchOrdersAgree(items, Batch(q.sets, q.deletes));
  }

  class Txn<T(==)> {
    var sets: map<Key, T>
    var deletes: set<Key>
    var cas: map<Key, T>
    ghost var history: seq<Op<T>>

    ghost function Queue(): Queued<T>
      reads this
    {
      Queued(sets, deletes, cas)
    }

    ghost predicate Valid()
      reads this
    {
      EncodesAll(Queue(), history)
    }

    constructor ()
      ensures Valid() && history == []
    {
      sets, deletes, cas, history := map[], {}, map[], [];
    }

    method Set(k: Key, value: T)
      requires Valid()
      modifies this
      ensures Valid() && history == old(history) + [SetOp(k, value)]
    {
      sets := sets[k := value];
      deletes := deletes - {k};
      cas := cas - {k};
      history := history + [SetOp(k, value)];
      forall x ensures Encodes(Queue(), x, LastOp(history, x)) {
        LastOpNext(old(history), SetOp(k, value), x);
      }
    }

    method Delete(k: Key)
      requires Valid()
      modifies this
      ensures Valid() && history == old(history) + [DeleteOp(k)]
    {
      deletes := deletes + {k};
      sets := sets - {k};
      cas := cas - {k};
      history := history + [DeleteOp(k)];
      forall x ensures Encodes(Queue(), x, LastOp(history, x)) {
        LastOpNext(old(history), DeleteOp(k), x);
      }
    }

    method CompareAndSwap(k: Key, expected: T, value: T)
      requires Valid()
      modifies this
      ensures Valid() && history == old(history) + [SwapOp(k, expected, value)]
    {
      sets := sets[k := value];
      cas := cas[k := expected];
      deletes := deletes - {k};
      history := history + [SwapOp(k, expected, value)];
      forall x ensures Encodes(Queue(), x, LastOp(history, x)) {
        LastOpNext(old(history), SwapOp(k, expected, value), x);
      }
    }
  }

  // ----- Committing -----

  /** Every compared key was cached with the expected data. */
  ghost predicate Compared<T>(q: Queued<T>, env: Env<T>, before: Cache<T>) {
    forall k :: k in q.sets && k in q.cas ==>
      var seen := Lru.Peek(before, k, env.readAt(k)); seen.Some? && seen.value.data == q.cas[k]
  }

  /**
    A store holds the data of every set key, merged after the value that was cached, if it still was at its
    turn; loses what was deleted in a batch; and is otherwise as it was.
  */
  ghost predicate Stored<T>(c: Context<T>, before: Cache<T>, items: map<Key, T>, after: map<Key, T>) {
    forall k ::
      if c.setup.store.NoStore? then Lookup(after, k) == Lookup(items, k)
      else if k in c.queued.sets then
        || Lookup(after, k) == Some(MergedOver(c, k, Lru.Peek(before, k, c.env.readAt(k))).data)
        || Lookup(after, k) == Some(MergedOver(c, k, None).data)
      else if k in c.queued.deletes && c.setup.store.BatchingStore? then Lookup(after, k) == None
      else Lookup(after, k) == Lookup(items, k)
  }

  lemma SuccessAsQueued<T>(c: Context<T>, sets: seq<Key>, deletes: seq<Key>, w: World<T>)
    requires IsOrder(sets, c.queued.sets.Keys) && IsOrder(deletes, c.queued.deletes)
    requires Starts(w) && Lru.Distinct(Lru.Keys(w.cache))
    ensures c.queued.sets.Keys !! c.queued.deletes && Commits.Commit(c, sets, deletes, w).err.None? ==>
              && Compared(c.queued, c.env, w.cache)
              && Stored(c, w.cache, w.store, Next(c, w, Commits.Commit(c, sets, deletes, w)).store)
  {
    if c.queued.sets.Keys !! c.queued.deletes && Commits.Commit(c, sets, deletes, w).err.None? {
      forall k | k in c.queued.sets && k in c.queued.cas
        ensures var seen := Lru.Peek(w.cache, k, c.env.readAt(k)); seen.Some? && seen.value.data == c.queued.cas[k]
      {
        SuccessMeansCompared(c, sets, deletes, w, k);
      }
      var w1, w2, w3, w4 := CommitWorlds(c, sets, deletes, w);
      forall k
        ensures StoredAs(c, k, SeenAt(c, sets, w, k), Lookup(w.store, k),
                         Lookup(Next(c, w, Commits.Commit(c, sets, deletes, w)).store, k))
        ensures k in sets ==>
                  var seen := SeenAt(c, sets, w, k); seen == None || seen == Lru.Peek(w.cache, k, c.env.readAt(k))
      {
        StoredExactly(c, sets, deletes, w, k);
        if k in sets {
          SeenIsOriginal(c, w.cache, sets, w, k);
        }
      }
    }
  }

  class Warp<T(==)> {
    const setup: Setup
    const cache: LruCaches.InMemoryCache<Value<T>>
    const store: InMemoryStore<T>
    var batch: InMemoryBatch<T>

    ghost predicate Valid()
      reads this, cache
    {
      cache.Valid() && cache.limits == setup.limits && batch.store == store
    }

    /** The effects' world; `later` is what the commit under way holds back. */
    ghost function State(later: map<Key, Value<T>>): World<T>
      reads this, cache, store, batch
    {
      World(cache.recency, store.items, batch.Contents(), later)
    }

    constructor (setup: Setup)
      ensures Valid() && this.setup == setup && fresh(cache) && fresh(store) && fresh(batch)
      ensures State(map[]) == World([], map[], Batch(map[], {}), map[])
    {
      this.setup := setup;
      cache := new LruCaches.InMemoryCache(setup.limits.maxEntries, setup.limits.maxMemory);
      var items := new InMemoryStore();
      store := items;
      batch := new InMemoryBatch(items);
    }

    /** Commits what is queued; `sets` and `deletes` are the orders in which the maps happen to be visited. */
    method Commit(q: Queued<T>, env: Env<T>, sets: seq<Key>, deletes: seq<Key>) returns (err: Option<Error>)
      requires Valid() && IsOrder(sets, q.sets.Keys) && IsOrder(deletes, q.deletes)
      modifies this`batch, cache, store
      ensures Valid()
      ensures var c := Context(q, setup, env);
              var start := World(old(cache.recency), old(store.items), Batch(map[], {}), map[]);
              var out := Commits.Commit(c, sets, deletes, start);
              err == out.err && cache.recency == Next(c, start, out).cache && store.items == Next(c, start, out).store
      ensures err.None? && q.sets.Keys !! q.deletes ==>
                && Compared(q, env, old(cache.recency))
                && Stored(Context(q, setup, env), old(cache.recency), old(store.items), store.items)
    {
      ghost var c, start := Context(q, setup, env), World(cache.recency, store.items, Batch(map[], {}), map[]);
      SuccessAsQueued(c, sets, deletes, start);
      if setup.store.BatchingStore? && env.fails(OpenBatch, "") {
        return Some(ErrCall(OpenBatch));
      }
      batch := new InMemoryBatch(store);
      err := RunLoops(Context(q, setup, env), sets, deletes);
    }

    /** The commit once its batch is open. */
    method RunLoops(c: Context<T>, sets: seq<Key>, deletes: seq<Key>) returns (err: Option<Error>)
      requires Valid() && c.setup == setup && forall k :: k in sets ==> k in c.queued.sets
      modifies cache, store, batch
      ensures Valid()
      ensures var start := old(State(map[]));
              var out := Body(c, sets, deletes, start);
              err == out.err && cache.recency == Next(c, start, out).cache && store.items == Next(c, start, out).store
    {
      ghost var start := State(map[]);
      var later: map<Key, Value<T>>;
      err, later := CommitSets(c, sets);
      if err.Some? {
        return;
      }
      ghost var afterSets := State(later);
      ghost var second := RunAll(c, Deletes, deletes, afterSets);
      PerformAppend(c.setup.limits, start, RunAll(c, Sets, sets, start).log,
                    AfterSets(c, sets, deletes, afterSets).log);
      err := CommitDeletes(c, deletes, later);
      if err.Some? {
        return;
      }
      ghost var afterDeletes := State(later);
      PerformAppend(c.setup.limits, afterSets, second.log, Applied(c, sets, deletes, afterDeletes).log);
      err := Apply(c, sets, deletes, later);
    }

    /** The first loop: weak sets are applied at once, strong ones wait for a quorum and are kept for later. */
    method CommitSets(c: Context<T>, sets: seq<Key>) returns (err: Option<Error>, later: map<Key, Value<T>>)
      requires Valid() && c.setup == setup && forall k :: k in sets ==> k in c.queued.sets
      modifies cache, store, batch
      ensures Valid()
      ensures var out := RunAll(c, Sets, sets, old(State(map[])));
              err == out.err && State(later) == Next(c, old(State(map[])), out)
    {
      later := map[];
      var i := 0;
      ghost var start := State(later);
      assert sets[0..] == sets;
      while i < |sets|
        invariant 0 <= i <= |sets| && Valid()
        invariant Remaining(c, Sets, sets, i, start, State(later))
      {
        RunNext(c, Sets, sets, i, start, State(later));
        err, later := SetKey(c, sets[i], later);
        if err.Some? {
          return;
        }
        i := i + 1;
      }
      return None, later;
    }

    /** `applyLocal` of a set: the cache, then the store or its batch. */
    method ApplyLocalSet(c: Context<T>, k: Key, v: Value<T>, ghost later: map<Key, Value<T>>)
      returns (err: Option<Error>)
      requires Valid() && c.setup == setup && k in setup.regs
      modifies cache, store, batch
      ensures Valid()
      ensures err == ApplySet(c, k, v).err && State(later) == Next(c, old(State(later)), ApplySet(c, k, v))
    {
      ghost var e: Effect<T> := CacheSet(k, NewItem(c, k, v));
      PerformOne(setup.limits, State(later), e);
      PerformTwo(setup.limits, State(later), e, StoreSet(k, v.data));
      PerformTwo(setup.limits, State(later), e, BatchSet(k, v.data));
      var ok := cache.Set(k, v, setup.valueSize, setup.regs[k].effectiveTtl, c.env.storedAt(k),
                          c.env.fails(SetCache, k), false);
      if !ok {
        return Some(ErrCall(SetCache));
      }
      match setup.store {
        case NoStore =>
        case PlainStore =>
          if c.env.fails(SetStore, k) {
            return Some(ErrCall(SetStore));
          }
          store.Set(k, v.data);
          assert ApplySet(c, k, v).log == [e, StoreSet(k, v.data)];
        case BatchingStore =>
          if c.env.fails(SetBatch, k) {
            return Some(ErrCall(SetBatch));
          }
          batch.Set(k, v.data);
          assert ApplySet(c, k, v).log == [e, BatchSet(k, v.data)];
      }
      return None;
    }

    /** `applyLocal` of a delete: only a batch tells the store. */
    method ApplyLocalDrop(c: Context<T>, k: Key, ghost later: map<Key, Value<T>>) returns (err: Option<Error>)
      requires Valid() && c.setup == setup
      modifies cache, store, batch
      ensures Valid()
      ensures err == ApplyDrop(c, k).err && State(later) == Next(c, old(State(later)), ApplyDrop(c, k))
    {
      ghost var e: Effect<T> := CacheDropped(k);
      PerformOne(setup.limits, State(later), e);
      PerformTwo(setup.limits, State(later), e, BatchDropped(k));
      var ok := cache.Invalidate(k, c.env.fails(DropCache, k));
      if !ok {
        return Some(ErrCall(DropCache));
      }
      if setup.store.BatchingStore? {
        if c.env.fails(DropBatch, k) {
          return Some(ErrCall(DropBatch));
        }
        batch.Delete(k);
        assert ApplyDrop(c, k).log == [e, BatchDropped(k)];
      }
      return None;
    }

    /** Announce an applied operation on the bus. */
    method Announce(c: Context<T>, k: Key, ghost acked: seq<Effect<T>>, ghost applied: Out<T>)
      returns (err: Option<Error>)
      requires c.setup == setup && k in setup.regs && setup.regs[k].mode.EventualDistributed? && applied.err.None?
      ensures err == ByMode(c, k, acked, applied).err
    {
      if setup.bus && c.env.fails(Publish, k) {
        return Some(ErrCall(Publish));
      }
      return None;
    }

    method AwaitQuorum(c: Context<T>, k: Key, ghost acked: seq<Effect<T>>, ghost applied: Out<T>)
      returns (err: Option<Error>)
      requires c.setup == setup && k in setup.regs && setup.regs[k].mode.StrongDistributed?
      ensures err == ByMode(c, k, acked, applied).err
    {
      if !setup.bus {
        return Some(ErrBusRequired);
      }
      if c.env.fails(Await, k) {
        return Some(ErrCall(Await));
      }
      return None;
    }

    /** Read the key, check the compare-and-swap and merge. */
    method PrepareKey(c: Context<T>, k: Key) returns (p: Prepared<T>)
      requires Valid() && c.setup == setup && k in c.queued.sets && !c.env.fails(GetCache, k)
      modifies cache
      ensures Valid() && p == PreparedIn(c, k, old(cache.recency))
      ensures var seen := Lru.Peek(old(cache.recency), k, c.env.readAt(k));
              && (p.Ready? <==> AsExpected(c, k, seen))
              && (p.Ready? ==> p.value == MergedOver(c, k, seen))
              && (p.Refused? ==> p.err == ErrCasMismatch)
      ensures cache.recency == Lru.Touch(old(cache.recency), k, c.env.readAt(k))
    {
      var value := Value(c.queued.sets[k], c.env.now(k), Nil, "");
      var found := cache.Get(k, c.env.readAt(k), false, false);
      if found.Hit? {
        if k in c.queued.cas && found.value.data != c.queued.cas[k] {
          return Refused(ErrCasMismatch);
        }
        var merged := c.env.merge(k, found.value, value);
        if merged.Ok? {
          value := merged.value;
        }
      } else if k in c.queued.cas {
        return Refused(ErrCasMismatch);
      }
      return Ready(value);
    }

    /** Apply, announce or hold back a prepared value, as the mode says. */
    method WriteKey(c: Context<T>, k: Key, v: Value<T>, later: map<Key, Value<T>>)
      returns (err: Option<Error>, held: map<Key, Value<T>>)
      requires Valid() && c.setup == setup && k in setup.regs
      modifies cache, store, batch
      ensures Valid()
      ensures var out := WritePrepared(c, k, Ready(v)); err == out.err && State(held) == Next(c, old(State(later)), out)
    {
      held := later;
      ghost var acked: seq<Effect<T>>, applied, start := [Acked(k), Held(k, v)], ApplySet(c, k, v), State(later);
      ByModeStates(c, k, acked, applied, start);
      match setup.regs[k].mode {
        case EventualDistributed =>
          err := ApplyLocalSet(c, k, v, later);
          if err.None? {
            err := Announce(c, k, acked, applied);
          }
        case StrongDistributed =>
          err := AwaitQuorum(c, k, acked, applied);
          PerformTwo(setup.limits, start, Acked(k), Held(k, v));
          if err.None? {
            held := later[k := v];
          }
        case StrongLocal =>
          err := ApplyLocalSet(c, k, v, later);
      }
    }

    /** One turn of the first loop. */
    method SetKey(c: Context<T>, k: Key, later: map<Key, Value<T>>)
      returns (err: Option<Error>, held: map<Key, Value<T>>)
      requires Valid() && c.setup == setup && k in c.queued.sets
      modifies cache, store, batch
      ensures Valid()
      ensures var out := Stage(c, Sets, k, old(State(later)));
              err == out.err && State(held) == Next(c, old(State(later)), out)
      ensures err == SetError(c, k, Lru.Peek(old(cache.recency), k, c.env.readAt(k)))
    {
      TurnErrors(c, k, State(later));
      if k !in setup.regs {
        return Some(ErrUnregistered), later;
      }
      if c.env.fails(GetCache, k) {
        return Some(ErrCall(GetCache)), later;
      }
      ghost var start := State(later);
      ghost var read: Effect<T> := CacheRead(k, c.env.readAt(k));
      var p := PrepareKey(c, k);
      PerformAppend(setup.limits, start, [read], WritePrepared(c, k, p).log);
      PerformOne(setup.limits, start, read);
      match p {
        case Refused(e) => return Some(e), later;
        case Ready(v) => err, held := WriteKey(c, k, v, later);
      }
    }

    /** One turn of the second loop. */
    method DeleteKey(c: Context<T>, k: Key, ghost later: map<Key, Value<T>>) returns (err: Option<Error>)
      requires Valid() && c.setup == setup
      modifies cache, store, batch
      ensures Valid()
      ensures var out := Stage(c, Deletes, k, old(State(later)));
              err == out.err && State(later) == Next(c, old(State(later)), out)
      ensures err == DeleteError(c, k)
    {
      TurnErrors(c, k, State(later));
      if k !in setup.regs {
        return Some(ErrUnregistered);
      }
      ghost var acked: seq<Effect<T>>, applied, start := [Acked(k)], ApplyDrop(c, k), State(later);
      ByModeStates(c, k, acked, applied, start);
      PerformOne(setup.limits, start, Acked(k));
      match setup.regs[k].mode {
        case EventualDistributed =>
          err := ApplyLocalDrop(c, k, later);
          if err.None? {
            err := Announce(c, k, acked, applied);
          }
        case StrongDistributed =>
          err := AwaitQuorum(c, k, acked, applied);
        case StrongLocal =>
          err := ApplyLocalDrop(c, k, later);
      }
    }

    method CommitDeletes(c: Context<T>, deletes: seq<Key>, ghost later: map<Key, Value<T>>) returns (err: Option<Error>)
      requires Valid() && c.setup == setup
      modifies cache, store, batch
      ensures Valid()
      ensures var out := RunAll(c, Deletes, deletes, old(State(later)));
              err == out.err && State(later) == Next(c, old(State(later)), out)
    {
      var i := 0;
      ghost var start := State(later);
      assert deletes[0..] == deletes;
      while i < |deletes|
        invariant 0 <= i <= |deletes| && Valid()
        invariant Remaining(c, Deletes, deletes, i, start, State(later))
      {
        RunNext(c, Deletes, deletes, i, start, State(later));
        err := DeleteKey(c, deletes[i], later);
        if err.Some? {
          return;
        }
        i := i + 1;
      }
      return None;
    }

    /** The last two loops apply what was held back, sets first, and the batch is committed. */
    method Apply(c: Context<T>, sets: seq<Key>, deletes: seq<Key>, later: map<Key, Value<T>>)
      returns (err: Option<Error>)
      requires Valid() && c.setup == setup
      modifies cache, store, batch
      ensures Valid()
      ensures var out := Applied(c, sets, deletes, old(State(later)));
              err == out.err && State(later) == Next(c, old(State(later)), out)
    {
      ghost var start := State(later);
      err := ApplySets(c, sets, later);
      if err.Some? {
        return;
      }
      ghost var middle := State(later);
      PerformAppend(setup.limits, start, RunAll(c, StrongSets, sets, start).log, AfterApplied(c, deletes, middle).log);
      PerformAppend(setup.limits, middle, RunAll(c, StrongDeletes, deletes, middle).log, Finish(c).log);
      err := ApplyDeletes(c, deletes, later);
      if err.Some? {
        return;
      }
      if setup.store.BatchingStore? {
        PerformOne(setup.limits, State(later), BatchCommitted);
        if c.env.fails(CommitBatch, "") {
          return Some(ErrCall(CommitBatch));
        }
        batch.Commit();
      }
      return None;
    }

    method ApplySets(c: Context<T>, sets: seq<Key>, later: map<Key, Value<T>>) returns (err: Option<Error>)
      requires Valid() && c.setup == setup
      modifies cache, store, batch
      ensures Valid()
      ensures var out := RunAll(c, StrongSets, sets, old(State(later)));
              err == out.err && State(later) == Next(c, old(State(later)), out)
    {
      var i := 0;
      ghost var start := State(later);
      assert sets[0..] == sets;
      while i < |sets|
        invariant 0 <= i <= |sets| && Valid()
        invariant Remaining(c, StrongSets, sets, i, start, State(later))
      {
        var k := sets[i];
        RunNext(c, StrongSets, sets, i, start, State(later));
        if k in later && k in setup.regs {
          err := ApplyLocalSet(c, k, later[k], later);
          if err.Some? {
            return;
          }
        }
        i := i + 1;
      }
      return None;
    }

    method ApplyDeletes(c: Context<T>, deletes: seq<Key>, ghost later: map<Key, Value<T>>) returns (err: Option<Error>)
      requires Valid() && c.setup == setup
      modifies cache, store, batch
      ensures Valid()
      ensures var out := RunAll(c, StrongDeletes, deletes, old(State(later)));
              err == out.err && State(later) == Next(c, old(State(later)), out)
    {
      var i := 0;
      ghost var start := State(later);
      assert deletes[0..] == deletes;
      while i < |deletes|
        invariant 0 <= i <= |deletes| && Valid()
        invariant Remaining(c, StrongDeletes, deletes, i, start, State(later))
      {
        var k := deletes[i];
        RunNext(c, StrongDeletes, deletes, i, start, State(later));
        if IsStrong(c, k) {
          err := ApplyLocalDrop(c, k, later);
          if err.Some? {
            return;
          }
        }
        i := i + 1;
      }
      return None;
    }
  }

  /** An announcement changes nothing, whether or not it gets through. */
  lemma ByModeStates<T>(c: Context<T>, k: Key, acked: seq<Effect<T>>, applied: Out<T>, start: World<T>)
    requires k in c.setup.regs
    ensures !IsStrong(c, k) ==> Next(c, start, ByMode(c, k, acked, applied)) == Next(c, start, applied)
  {
    if applied.err.None? && c.setup.regs[k].mode.EventualDistributed? && c.setup.bus {
      PerformAppend(c.setup.limits, start, applied.log, [Published(k)]);
      PerformOne(c.setup.limits, Next(c, start, applied), Published(k));
      assert applied.log + [] == applied.log;
    }
  }

  /** After `i` turns a loop that has brought `start` to `now` still has the rest of its keys to run. */
  ghost predicate Remaining<T>(c: Context<T>, phase: Phase, keys: seq<Key>, i: nat, start: World<T>, now: World<T>)
    requires i <= |keys|
  {
    var whole, rest := RunAll(c, phase, keys, start), RunAll(c, phase, keys[i..], now);
    whole.err == rest.err && Next(c, start, whole) == Next(c, now, rest)
  }

  /** One more turn. */
  lemma RunNext<T>(c: Context<T>, phase: Phase, keys: seq<Key>, i: nat, start: World<T>, now: World<T>)
    requires i < |keys| && Remaining(c, phase, keys, i, start, now)
    ensures var stage, whole := Stage(c, phase, keys[i], now), RunAll(c, phase, keys, start);
            if stage.err.None? then Remaining(c, phase, keys, i + 1, start, Next(c, now, stage))
            else whole.err == stage.err && Next(c, start, whole) == Next(c, now, stage)
  {
    var rest, stage := keys[i..], Stage(c, phase, keys[i], now);
    assert rest[0] == keys[i] && rest[1..] == keys[i + 1..];
    PerformAppend(c.setup.limits, now, stage.log, RunAll(c, phase, keys[i + 1..], Next(c, now, stage)).log);
  }
}
