/**
  What committing a transaction does, as the list of its effects: cache reads, acknowledgements, cache and
  store updates and batched store operations, in order, up to the first error. Keys are visited in any
  order, and every read sees the cache as the effects before it have left it, evictions included.
*/
module Commits {
  import opened Merging
  import opened Options
  import Lru = RecencyLists

  type Key = Lru.Key

  type Cache<T> = seq<Lru.Entry<Value<T>>>

  /** What the builder has queued. */
  datatype Queued<T> = Queued(sets: map<Key, T>, deletes: set<Key>, cas: map<Key, T>)

  datatype Mode = StrongDistributed | EventualDistributed | StrongLocal

  datatype Registration = Registration(mode: Mode, effectiveTtl: int)

  datatype StoreKind = NoStore | PlainStore | BatchingStore

  type Size = n: int | n > 0 witness 1

  /** The cached values are structs without a size of their own, so they all count the same `valueSize` bytes. */
  datatype Setup = Setup(
    regs: map<Key, Registration>,
    bus: bool,
    store: StoreKind,
    limits: Lru.Limits,
    valueSize: Size)

  /** The calls that may fail. */
  datatype Call =
    | OpenBatch
    | GetCache
    | SetCache
    | DropCache
    | SetStore
    | SetBatch
    | DropBatch
    | Publish
    | Await
    | CommitBatch

  datatype Error = ErrUnregistered | ErrCasMismatch | ErrBusRequired | ErrCall(call: Call)

  /** Which calls fail, what the clock says at each key, and how values merge. */
  datatype Env<!T> = Env(
    fails: (Call, Key) -> bool,
    now: Key -> int,
    readAt: Key -> int,
    storedAt: Key -> int,
    merge: (Key, Value<T>, Value<T>) -> Merged<Value<T>>)

  datatype Context<!T> = Context(queued: Queued<T>, setup: Setup, env: Env<T>)

  datatype Effect<T> =
    | CacheRead(key: Key, at: int)
    | Acked(key: Key)
    | Held(key: Key, value: Value<T>)
    | Published(key: Key)
    | CacheSet(key: Key, item: Lru.Item<Value<T>>)
    | CacheDropped(key: Key)
    | StoreSet(key: Key, data: T)
    | BatchSet(key: Key, data: T)
    | BatchDropped(key: Key)
    | BatchCommitted

  datatype Out<T> = Out(log: seq<Effect<T>>, err: Option<Error>)

  // ----- What the effects do -----

  /** `later` holds the values of acknowledged strong sets until they are applied. */
  datatype World<T> = World(cache: Cache<T>, store: map<Key, T>, batch: Batch<T>, later: map<Key, Value<T>>)

  datatype Batch<T> = Batch(sets: map<Key, T>, deletes: set<Key>)

  function Perform<T>(limits: Lru.Limits, w: World<T>, e: Effect<T>): World<T> {
    match e
    case CacheRead(k, at) => w.(cache := Lru.Touch(w.cache, k, at))
    case CacheSet(k, item) => w.(cache := Lru.Put(w.cache, Lru.Entry(k, item), limits))
    case CacheDropped(k) => w.(cache := Lru.Without(w.cache, k))
    case StoreSet(k, d) => w.(store := w.store[k := d])
    case BatchSet(k, d) => w.(batch := w.batch.(sets := w.batch.sets[k := d]))
    case BatchDropped(k) => w.(batch := w.batch.(deletes := w.batch.deletes + {k}))
    case BatchCommitted => w.(store := DeleteThenSet(w.store, w.batch))
    case Held(k, v) => w.(later := w.later[k := v])
    case Acked(_) => w
    case Published(_) => w
  }

  function PerformAll<T>(limits: Lru.Limits, w: World<T>, log: seq<Effect<T>>): World<T>
    decreases |log|
  {
    if log == [] then w else PerformAll(limits, Perform(limits, w, log[0]), log[1..])
  }

  lemma {:induction false} PerformAppend<T>(limits: Lru.Limits, w: World<T>, a: seq<Effect<T>>, b: seq<Effect<T>>)
    ensures PerformAll(limits, w, a + b) == PerformAll(limits, PerformAll(limits, w, a), b)
    decreases |a|
  {
    if a == [] {
      assert a + b == b;
    } else {
      assert (a + b)[0] == a[0] && (a + b)[1..] == a[1..] + b;
      PerformAppend(limits, Perform(limits, w, a[0]), a[1..], b);
    }
  }

  lemma PerformOne<T>(limits: Lru.Limits, w: World<T>, e: Effect<T>)
    ensures PerformAll(limits, w, [e]) == Perform(limits, w, e)
  {
    assert [e][1..] == [];
  }

  lemma PerformTwo<T>(limits: Lru.Limits, w: World<T>, a: Effect<T>, b: Effect<T>)
    ensures PerformAll(limits, w, [a, b]) == Perform(limits, Perform(limits, w, a), b)
  {
    assert [a, b][1..] == [b];
    PerformOne(limits, Perform(limits, w, a), b);
  }

  // ----- One key -----

  function Done<T>(log: seq<Effect<T>>): Out<T> {
    Out(log, None)
  }

  function Failed<T>(e: Error): Out<T> {
    Out([], Some(e))
  }

  function Then<T>(a: Out<T>, b: Out<T>): Out<T> {
    if a.err.None? then Out(a.log + b.log, b.err) else a
  }

  function Try<T>(c: Context<T>, call: Call, k: Key, log: seq<Effect<T>>): Out<T> {
    if c.env.fails(call, k) then Failed(ErrCall(call)) else Done(log)
  }

  datatype Prepared<T> = Ready(value: Value<T>) | Refused(err: Error)

  /** The value to be written: checked against the compare-and-swap and merged with the cached one. */
  function Prepare<T(==)>(c: Context<T>, k: Key, seen: Option<Value<T>>): Prepared<T>
    requires k in c.queued.sets
  {
    var wanted := Value(c.queued.sets[k], c.env.now(k), Nil, "");
    match seen
    case None => if k in c.queued.cas then Refused(ErrCasMismatch) else Ready(wanted)
    case Some(v) =>
      if k in c.queued.cas && v.data != c.queued.cas[k] then Refused(ErrCasMismatch)
      else
        match c.env.merge(k, v, wanted)
        case Ok(merged) => Ready(merged)
        case Err(_) => Ready(wanted)
  }

  function PreparedIn<T(==)>(c: Context<T>, k: Key, cache: Cache<T>): Prepared<T>
    requires k in c.queued.sets
  {
    Prepare(c, k, Lru.Peek(cache, k, c.env.readAt(k)))
  }

  function NewItem<T>(c: Context<T>, k: Key, v: Value<T>): Lru.Item<Value<T>>
    requires k in c.setup.regs
  {
    var ttl := c.setup.regs[k].effectiveTtl;
    Lru.Item(v, c.setup.valueSize, if ttl > 0 then Lru.At(c.env.storedAt(k) + ttl) else Lru.Never)
  }

  /** `applyLocal` of a set. */
  function ApplySet<T>(c: Context<T>, k: Key, v: Value<T>): Out<T>
    requires k in c.setup.regs
  {
    var cached := Try(c, SetCache, k, [CacheSet(k, NewItem(c, k, v))]);
    match c.setup.store
    case NoStore => cached
    case PlainStore => Then(cached, Try(c, SetStore, k, [StoreSet(k, v.data)]))
    case BatchingStore => Then(cached, Try(c, SetBatch, k, [BatchSet(k, v.data)]))
  }

  /** `applyLocal` of a delete: a store without batches is not told. */
  function ApplyDrop<T>(c: Context<T>, k: Key): Out<T> {
    var dropped := Try(c, DropCache, k, [CacheDropped(k)]);
    if c.setup.store.BatchingStore? then Then(dropped, Try(c, DropBatch, k, [BatchDropped(k)])) else dropped
  }

  /** What the mode makes of an operation: announce it afterwards, wait for a quorum first, or just do it. */
  function ByMode<T>(c: Context<T>, k: Key, acked: seq<Effect<T>>, applied: Out<T>): Out<T>
    requires k in c.setup.regs
  {
    match c.setup.regs[k].mode
    case EventualDistributed => if c.setup.bus then Then(applied, Try(c, Publish, k, [Published(k)])) else applied
    case StrongDistributed => if c.setup.bus then Try(c, Await, k, acked) else Failed(ErrBusRequired)
    case StrongLocal => applied
  }

  predicate IsStrong<T>(c: Context<T>, k: Key) {
    k in c.setup.regs && c.setup.regs[k].mode.StrongDistributed?
  }

  // ----- The four loops of Commit -----

  datatype Phase = Sets | Deletes | StrongSets | StrongDeletes

  function WritePrepared<T>(c: Context<T>, k: Key, p: Prepared<T>): Out<T>
    requires k in c.setup.regs
  {
    match p
    case Refused(e) => Failed(e)
    case Ready(v) => ByMode(c, k, [Acked(k), Held(k, v)], ApplySet(c, k, v))
  }

  /** One turn of the first loop. */
  function SetStage<T(==)>(c: Context<T>, k: Key, cache: Cache<T>): Out<T>
    requires k in c.queued.sets
  {
    if k !in c.setup.regs then Failed(ErrUnregistered)
    else if c.env.fails(GetCache, k) then Failed(ErrCall(GetCache))
    else Then(Done([CacheRead(k, c.env.readAt(k))]), WritePrepared(c, k, PreparedIn(c, k, cache)))
  }

  function Stage<T(==)>(c: Context<T>, phase: Phase, k: Key, w: World<T>): Out<T> {
    match phase
    case Sets => if k in c.queued.sets then SetStage(c, k, w.cache) else Done([])
    case Deletes => if k in c.setup.regs then ByMode(c, k, [Acked(k)], ApplyDrop(c, k)) else Failed(ErrUnregistered)
    case StrongSets => if k in w.later && k in c.setup.regs then ApplySet(c, k, w.later[k]) else Done([])
    case StrongDeletes => if IsStrong(c, k) then ApplyDrop(c, k) else Done([])
  }

  function Next<T>(c: Context<T>, w: World<T>, out: Out<T>): World<T> {
    PerformAll(c.setup.limits, w, out.log)
  }

  function RunAll<T(==)>(c: Context<T>, phase: Phase, keys: seq<Key>, w: World<T>): Out<T>
    decreases |keys|
  {
    if keys == [] then Done([])
    else
      var first := Stage(c, phase, keys[0], w);
      Then(first, RunAll(c, phase, keys[1..], Next(c, w, first)))
  }

  function Finish<T>(c: Context<T>): Out<T> {
    if c.setup.store.BatchingStore? then Try(c, CommitBatch, "", [BatchCommitted]) else Done([])
  }

  /** Strong keys are acknowledged in the first two loops and applied in the last two. */
  function Body<T(==)>(c: Context<T>, sets: seq<Key>, deletes: seq<Key>, w: World<T>): Out<T> {
    var first := RunAll(c, Sets, sets, w);
    Then(first, AfterSets(c, sets, deletes, Next(c, w, first)))
  }

  function AfterSets<T(==)>(c: Context<T>, sets: seq<Key>, deletes: seq<Key>, w: World<T>): Out<T> {
    var second := RunAll(c, Deletes, deletes, w);
    Then(second, Applied(c, sets, deletes, Next(c, w, second)))
  }

  function Applied<T(==)>(c: Context<T>, sets: seq<Key>, deletes: seq<Key>, w: World<T>): Out<T> {
    var third := RunAll(c, StrongSets, sets, w);
    Then(third, AfterApplied(c, deletes, Next(c, w, third)))
  }

  function AfterApplied<T(==)>(c: Context<T>, deletes: seq<Key>, w: World<T>): Out<T> {
    Then(RunAll(c, StrongDeletes, deletes, w), Finish(c))
  }

  function Commit<T(==)>(c: Context<T>, sets: seq<Key>, deletes: seq<Key>, w: World<T>): Out<T> {
    if c.setup.store.BatchingStore? && c.env.fails(OpenBatch, "") then Failed(ErrCall(OpenBatch))
    else Body(c, sets, deletes, w)
  }

  /** `keys` visits every element of `all` once. */
  ghost predicate IsOrder(keys: seq<Key>, all: set<Key>) {
    (forall i, j :: 0 <= i < j < |keys| ==> keys[i] != keys[j]) && (forall k :: k in keys <==> k in all)
  }

  /** The lists visit every queued key once; the builder never both sets and deletes a key. */
  ghost predicate Visits<T>(c: Context<T>, sets: seq<Key>, deletes: seq<Key>) {
    && IsOrder(sets, c.queued.sets.Keys)
    && IsOrder(deletes, c.queued.deletes)
    && c.queued.sets.Keys !! c.queued.deletes
  }

  /** A commit begins with an empty batch and nothing held back. */
  predicate Starts<T>(w: World<T>) {
    w.batch == Batch(map[], {}) && w.later == map[]
  }

  // ----- The two store batches -----

  /** The in-memory store applies a batch's deletes, then its sets. */
  function DeleteThenSet<T>(items: map<Key, T>, b: Batch<T>): map<Key, T> {
    (items - b.deletes) + b.sets
  }

  /** The Redis pipeline sends the sets, then the deletes. */
  function SetThenDelete<T>(items: map<Key, T>, b: Batch<T>): map<Key, T> {
    (items + b.sets) - b.deletes
  }

  /** The two stores agree on a batch exactly when it does not set and delete the same key. */
  lemma BatchOrdersAgree<T>(items: map<Key, T>, b: Batch<T>)
    ensures DeleteThenSet(items, b) == SetThenDelete(items, b) <==> b.sets.Keys !! b.deletes
  {
    var x, y := DeleteThenSet(items, b), SetThenDelete(items, b);
    if b.sets.Keys !! b.deletes {
      forall k | k in x ensures k in y && x[k] == y[k] {
      }
    } else {
      var k :| k in b.sets.Keys && k in b.deletes;
      assert k in x && k !in y;
    }
  }
}
