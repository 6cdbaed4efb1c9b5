/**
  When the order in which a commit visits its keys matters. Weak sets are applied while other keys are still
  to be read, so a bounded cache may evict a key before its own turn; its compare-and-swap then fails and its
  merge has nothing to merge with. The condition below says exactly when that cannot happen.
*/
module CommitOrder {
  import opened Merging
  import opened Options
  import opened Commits
  import opened CommitLaws
  import opened RecencyLists

  // ----- Caches whose values all count the same -----

  predicate FitsCount(n: nat, limits: Limits, size: Size) {
    && (limits.maxEntries > 0 ==> n <= limits.maxEntries)
    && (limits.maxMemory > 0 ==> n * size <= limits.maxMemory)
  }

  ghost predicate Uniform<T>(r: Cache<T>, size: Size) {
    forall e :: e in r ==> e.item.size == size
  }

  lemma {:induction false} UniformMemory<T>(r: Cache<T>, size: Size)
    requires Uniform(r, size)
    ensures Memory(r) == |r| * size
  {
    if r != [] {
      assert r[0] in r;
      UniformMemory(r[1..], size);
      Distributes(|r| - 1, size);
    }
  }

  lemma Distributes(n: nat, size: Size)
    ensures (n + 1) * size == n * size + size
  {
  }

  lemma UniformFits<T>(r: Cache<T>, limits: Limits, size: Size)
    requires Uniform(r, size)
    ensures Fits(r, limits) <==> FitsCount(|r|, limits, size)
  {
    UniformMemory(r, size);
  }

  lemma FewerFit(m: nat, n: nat, limits: Limits, size: Size)
    requires m <= n && FitsCount(n, limits, size)
    ensures FitsCount(m, limits, size)
  {
    assert n * size == m * size + (n - m) * size;
    assert (n - m) * size >= 0;
  }

  /** A cache as the core keeps it: distinct keys, equal sizes, within its limits. */
  ghost predicate CacheOk<T>(setup: Setup, r: Cache<T>) {
    Distinct(Keys(r)) && Uniform(r, setup.valueSize) && Fits(r, setup.limits)
  }

  lemma HoldsNothing<T>(setup: Setup, r: Cache<T>)
    requires CacheOk(setup, r) && !FitsCount(1, setup.limits, setup.valueSize)
    ensures r == []
  {
    UniformFits(r, setup.limits, setup.valueSize);
    if r != [] {
      FewerFit(1, |r|, setup.limits, setup.valueSize);
    }
  }

  // ----- Who is in front of a key -----

  function KeysBefore<T>(r: seq<Entry<T>>, k: Key): set<Key> {
    if r == [] || r[0].key == k then {} else {r[0].key} + KeysBefore(r[1..], k)
  }

  lemma {:induction false} KeysBeforeWithout<T>(r: seq<Entry<T>>, x: Key, k: Key)
    requires x != k
    ensures KeysBefore(Without(r, x), k) == KeysBefore(r, k) - {x}
    ensures Has(Without(r, x), k) <==> Has(r, k)
  {
    if r != [] {
      var rest := r[1..];
      KeysBeforeWithout(rest, x, k);
      assert r == [r[0]] + rest;
      HasFront(r[0], rest, k);
      if r[0].key != x {
        var left := Without(rest, x);
        assert ([r[0]] + left)[1..] == left;
        HasFront(r[0], left, k);
      }
    }
  }

  lemma HasFront<T>(e: Entry<T>, r: seq<Entry<T>>, k: Key)
    ensures Has([e] + r, k) <==> e.key == k || Has(r, k)
    ensures e.key != k ==> KeysBefore([e] + r, k) == {e.key} + KeysBefore(r, k)
  {
    var f := [e] + r;
    assert f[1..] == r;
    if Has(r, k) {
      var i :| 0 <= i < |r| && r[i].key == k;
      assert f[i + 1].key == k;
    }
    if e.key == k {
      assert f[0].key == k;
    }
    if Has(f, k) && e.key != k {
      var i :| 0 <= i < |f| && f[i].key == k;
      assert r[i - 1].key == k;
    }
  }

  lemma {:induction false} BeforeIsCached<T>(r: seq<Entry<T>>, k: Key, x: Key)
    requires x in KeysBefore(r, k)
    ensures x in Keys(r)
  {
    if x == r[0].key {
      assert Keys(r)[0] == x;
    } else {
      BeforeIsCached(r[1..], k, x);
      var i :| 0 <= i < |r[1..]| && Keys(r[1..])[i] == x;
      assert Keys(r)[i + 1] == x;
    }
  }

  lemma HeadUnique<T>(r: seq<Entry<T>>, x: Key)
    requires r != [] && Distinct(Keys(r)) && x in Keys(r[1..])
    ensures x != r[0].key
  {
    var i :| 0 <= i < |r[1..]| && Keys(r[1..])[i] == x;
    assert Keys(r)[0] != Keys(r)[i + 1];
  }

  lemma HeadNotBehind<T>(r: seq<Entry<T>>, k: Key)
    requires r != [] && Distinct(Keys(r))
    ensures r[0].key !in KeysBefore(r[1..], k)
  {
    forall x | x in KeysBefore(r[1..], k) ensures x != r[0].key {
      BeforeIsCached(r[1..], k, x);
      HeadUnique(r, x);
    }
  }

  /** With distinct keys, the keys in front of `k` number its position. */
  lemma {:induction false} Position<T>(r: seq<Entry<T>>, k: Key) returns (p: nat)
    requires Distinct(Keys(r)) && Has(r, k)
    ensures p < |r| && r[p].key == k && |KeysBefore(r, k)| == p
  {
    if r[0].key == k {
      p := 0;
    } else {
      PositionNext(r, k);
      var q := Position(r[1..], k);
      p := q + 1;
    }
  }

  lemma PositionNext<T>(r: seq<Entry<T>>, k: Key)
    requires Distinct(Keys(r)) && Has(r, k) && r[0].key != k
    ensures Has(r[1..], k) && Distinct(Keys(r[1..])) && |KeysBefore(r, k)| == |KeysBefore(r[1..], k)| + 1
  {
    var i :| 0 <= i < |r| && r[i].key == k;
    assert r[1..][i - 1].key == k;
    DistinctTail(r);
    HeadNotBehind(r, k);
  }

  /** Cutting a list behind `k` does not change who is in front of it. */
  lemma {:induction false} KeysBeforePrefix<T>(r: seq<Entry<T>>, n: nat, k: Key)
    requires n <= |r| && Has(r[..n], k)
    ensures KeysBefore(r[..n], k) == KeysBefore(r, k)
  {
    if r[0].key != k {
      var i :| 0 <= i < n && r[..n][i].key == k;
      assert r[..n][1..] == r[1..][..n - 1];
      assert r[1..][..n - 1][i - 1].key == k;
      KeysBeforePrefix(r[1..], n - 1, k);
    }
  }

  // ----- What a visit does to the cache -----

  /** The cache after a key's turn in the first loop. */
  function Visited<T>(c: Context<T>, r: Cache<T>, x: Key, v: Value<T>): Cache<T>
    requires x in c.setup.regs
  {
    if IsStrong(c, x) then Touch(r, x, c.env.readAt(x)) else Put(r, Entry(x, NewItem(c, x, v)), c.setup.limits)
  }

  lemma WithoutTwice<T>(r: seq<Entry<T>>, k: Key)
    ensures Without(Without(r, k), k) == Without(r, k)
  {
    forall e | e in Without(r, k) ensures e.key != k {
      WithoutMember(r, k, e);
    }
    WithoutAbsent(Without(r, k), k);
  }

  lemma TouchThenPut<T>(r: seq<Entry<T>>, e: Entry<T>, now: int, limits: Limits)
    ensures Put(Touch(r, e.key, now), e, limits) == Put(r, e, limits)
  {
    WithoutTwice(r, e.key);
    if Has(r, e.key) && !Expired(Find(r, e.key).item, now) {
      assert ([Find(r, e.key)] + Without(r, e.key))[1..] == Without(r, e.key);
    }
  }

  lemma {:induction false} CacheOnlySet<T>(c: Context<T>, w: World<T>, log: seq<Effect<T>>)
    requires forall i :: 0 <= i < |log| ==> !log[i].CacheRead? && !log[i].CacheSet? && !log[i].CacheDropped?
    ensures PerformAll(c.setup.limits, w, log).cache == w.cache
    decreases |log|
  {
    if log != [] {
      assert !log[0].CacheRead? && !log[0].CacheSet? && !log[0].CacheDropped?;
      CacheOnlySet(c, Perform(c.setup.limits, w, log[0]), log[1..]);
    }
  }

  lemma ApplySetCache<T>(c: Context<T>, w: World<T>, x: Key, v: Value<T>)
    requires x in c.setup.regs && ApplySet(c, x, v).err.None?
    ensures Next(c, w, ApplySet(c, x, v)).cache == Put(w.cache, Entry(x, NewItem(c, x, v)), c.setup.limits)
  {
    var e: Effect<T>, log := CacheSet(x, NewItem(c, x, v)), ApplySet(c, x, v).log;
    assert log == [e] + log[1..];
    PerformAppend(c.setup.limits, w, [e], log[1..]);
    PerformOne(c.setup.limits, w, e);
    CacheOnlySet(c, Perform(c.setup.limits, w, e), log[1..]);
  }

  lemma WriteCache<T>(c: Context<T>, w: World<T>, x: Key, v: Value<T>)
    requires x in c.setup.regs && WritePrepared(c, x, Ready(v)).err.None?
    ensures Next(c, w, WritePrepared(c, x, Ready(v))).cache ==
              if IsStrong(c, x) then w.cache else Put(w.cache, Entry(x, NewItem(c, x, v)), c.setup.limits)
  {
    var acked: seq<Effect<T>>, applied := [Acked(x), Held(x, v)], ApplySet(c, x, v);
    if applied.err.None? {
      ApplySetSlot(c, w, x, v);
      ApplySetCache(c, w, x, v);
    }
    ByModeWorld(c, w, x, acked, applied);
    CacheOnlySet(c, w, acked);
  }

  lemma VisitCache<T>(c: Context<T>, w: World<T>, x: Key, v: Value<T>)
    requires x in c.queued.sets && SetStage(c, x, w.cache).err.None? && PreparedIn(c, x, w.cache) == Ready(v)
    ensures x in c.setup.regs && Next(c, w, Stage(c, Sets, x, w)).cache == Visited(c, w.cache, x, v)
  {
    var at := c.env.readAt(x);
    var read: Effect<T>, rest := CacheRead(x, at), WritePrepared(c, x, Ready(v));
    PerformAppend(c.setup.limits, w, [read], rest.log);
    PerformOne(c.setup.limits, w, read);
    WriteCache(c, Perform(c.setup.limits, w, read), x, v);
    TouchThenPut(w.cache, Entry(x, NewItem(c, x, v)), at, c.setup.limits);
  }

  /** The list before trimming when a key is put in front. */
  function InFront<T>(r: seq<Entry<T>>, e: Entry<T>): seq<Entry<T>> {
    [e] + Without(r, e.key)
  }

  lemma VisitOk<T>(c: Context<T>, r: Cache<T>, x: Key, v: Value<T>)
    requires x in c.setup.regs && CacheOk(c.setup, r)
    ensures CacheOk(c.setup, Visited(c, r, x, v))
    ensures forall e :: e in Visited(c, r, x, v) ==> e in r || e.key == x
  {
    var op: Op<Value<T>> := if IsStrong(c, x) then Get(x, c.env.readAt(x)) else Set(x, NewItem(c, x, v));
    var t := Step(r, op, c.setup.limits);
    StepDistinct(r, op, c.setup.limits);
    forall e | e in t ensures (e in r || e.key == x) && e.item.size == c.setup.valueSize {
      StepMember(r, op, c.setup.limits, e);
    }
    if IsStrong(c, x) {
      WithoutLength(r, x);
      UniformFits(r, c.setup.limits, c.setup.valueSize);
      UniformFits(t, c.setup.limits, c.setup.valueSize);
      FewerFit(|t|, |r|, c.setup.limits, c.setup.valueSize);
    }
  }

  // ----- The condition -----

  /** What the key would read if its turn came first, and so what the commit is meant to write. */
  ghost function Intended<T>(c: Context<T>, base: Cache<T>): map<Key, Value<T>> {
    map k | k in c.queued.sets && PreparedIn(c, k, base).Ready? :: PreparedIn(c, k, base).value
  }

  /** Losing its cached value before its turn would change what is written for `k`, or fail the commit. */
  predicate Sensitive<T(==)>(c: Context<T>, base: Cache<T>, k: Key) {
    k in c.queued.sets && Prepare(c, k, None) != PreparedIn(c, k, base)
  }

  /** The other set keys whose turn moves them to the front: weak ones, and strong ones that are cached. */
  function Rivals<T>(c: Context<T>, base: Cache<T>, k: Key): set<Key> {
    set x | x in c.queued.sets && x != k && (!IsStrong(c, x) || Peek(base, x, c.env.readAt(x)).Some?)
  }

  /** Everything that can be in front of `k` before its turn. */
  function Crowd<T>(c: Context<T>, base: Cache<T>, k: Key): set<Key> {
    KeysBefore(base, k) + Rivals(c, base, k)
  }

  /** The cache holds `k` and everything that can get in front of it. */
  predicate Room<T>(c: Context<T>, base: Cache<T>, k: Key) {
    FitsCount(|Crowd(c, base, k)| + 1, c.setup.limits, c.setup.valueSize)
  }

  ghost predicate AllHaveRoom<T>(c: Context<T>, base: Cache<T>) {
    forall k :: Sensitive(c, base, k) ==> Room(c, base, k)
  }

  // ----- With room, no order evicts a key before its turn -----

  /** `k` is cached as at the start, with nobody but its crowd in front. */
  ghost predicate Sheltered<T>(c: Context<T>, base: Cache<T>, r: Cache<T>, k: Key) {
    Has(r, k) && KeysBefore(r, k) <= Crowd(c, base, k)
  }

  lemma TouchShelters<T>(c: Context<T>, base: Cache<T>, r: Cache<T>, x: Key, k: Key)
    requires Sheltered(c, base, r, k) && x != k
    requires Peek(r, x, c.env.readAt(x)).Some? ==> x in Crowd(c, base, k)
    ensures Sheltered(c, base, Touch(r, x, c.env.readAt(x)), k)
  {
    KeysBeforeWithout(r, x, k);
    if Peek(r, x, c.env.readAt(x)).Some? {
      HasFront(Find(r, x), Without(r, x), k);
    }
  }

  /** A trim keeps a key when it and all in front of it fit. */
  lemma TrimKeeps<T>(f: Cache<T>, limits: Limits, size: Size, k: Key)
    requires Distinct(Keys(f)) && Uniform(f, size) && Has(f, k) && FitsCount(|KeysBefore(f, k)| + 1, limits, size)
    ensures Has(Trim(f, limits), k) && KeysBefore(Trim(f, limits), k) == KeysBefore(f, k)
  {
    var p := Position(f, k);
    UniformFits(f[..p + 1], limits, size);
    TrimIsLongestFit(f, limits, p + 1);
    var n := |Trim(f, limits)|;
    assert f[..n][p].key == k;
    KeysBeforePrefix(f, n, k);
  }

  lemma CrowdFits<T>(c: Context<T>, base: Cache<T>, k: Key, ahead: set<Key>)
    requires Room(c, base, k) && ahead <= Crowd(c, base, k)
    ensures FitsCount(|ahead| + 1, c.setup.limits, c.setup.valueSize)
  {
    SubsetSize(ahead, Crowd(c, base, k));
    FewerFit(|ahead| + 1, |Crowd(c, base, k)| + 1, c.setup.limits, c.setup.valueSize);
  }

  lemma InFrontOf<T>(r: seq<Entry<T>>, e: Entry<T>, k: Key)
    requires e.key != k
    ensures Has(InFront(r, e), k) <==> Has(r, k)
    ensures KeysBefore(InFront(r, e), k) == {e.key} + (KeysBefore(r, k) - {e.key})
  {
    KeysBeforeWithout(r, e.key, k);
    HasFront(e, Without(r, e.key), k);
  }

  lemma PutShelters<T>(c: Context<T>, base: Cache<T>, r: Cache<T>, e: Entry<Value<T>>, k: Key)
    requires Sheltered(c, base, r, k) && Room(c, base, k) && e.key != k && e.key in Crowd(c, base, k)
    requires Distinct(Keys(r)) && Uniform(r, c.setup.valueSize) && e.item.size == c.setup.valueSize
    ensures Sheltered(c, base, Put(r, e, c.setup.limits), k)
  {
    var f := InFront(r, e);
    InFrontOf(r, e, k);
    CrowdFits(c, base, k, KeysBefore(f, k));
    FrontDistinct(r, e);
    FrontUniform(r, e, c.setup.valueSize);
    TrimKeeps(f, c.setup.limits, c.setup.valueSize, k);
  }

  lemma FrontUniform<T>(r: Cache<T>, e: Entry<Value<T>>, size: Size)
    requires Uniform(r, size) && e.item.size == size
    ensures Uniform(InFront(r, e), size)
  {
    forall x | x in InFront(r, e) ensures x.item.size == size {
      WithoutMember(r, e.key, x);
    }
  }

  lemma {:induction false} SubsetSize(a: set<Key>, b: set<Key>)
    requires a <= b
    ensures |a| <= |b|
  {
    if a != {} {
      var x :| x in a;
      SubsetSize(a - {x}, b - {x});
    }
  }

  lemma {:induction false} DistinctCount(keys: seq<Key>, all: set<Key>)
    requires Distinct(keys) && forall k :: k in keys ==> k in all
    ensures |keys| <= |all|
  {
    if keys != [] {
      assert forall i :: 0 < i < |keys| ==> keys[0] != keys[i];
      DistinctCount(keys[1..], all - {keys[0]});
    }
  }

  /** What is cached about the keys still to be visited is what was cached at the start. */
  ghost predicate Original<T>(base: Cache<T>, r: Cache<T>, rest: seq<Key>) {
    forall e :: e in r && e.key in rest ==> e in base
  }

  lemma OriginalPeek<T>(base: Cache<T>, r: Cache<T>, rest: seq<Key>, x: Key, at: int)
    requires Distinct(Keys(base)) && Original(base, r, rest) && x in rest
    ensures Has(r, x) ==> Peek(r, x, at) == Peek(base, x, at)
  {
    if Has(r, x) {
      FindUnique(base, Find(r, x));
    }
  }

  lemma VisitShelters<T>(c: Context<T>, base: Cache<T>, r: Cache<T>, x: Key, v: Value<T>, k: Key)
    requires x in c.setup.regs && x in c.queued.sets && x != k && CacheOk(c.setup, r)
    requires Sheltered(c, base, r, k) && Room(c, base, k)
    requires Has(r, x) ==> Peek(r, x, c.env.readAt(x)) == Peek(base, x, c.env.readAt(x))
    ensures Sheltered(c, base, Visited(c, r, x, v), k)
  {
    if IsStrong(c, x) {
      TouchShelters(c, base, r, x, k);
    } else {
      PutShelters(c, base, r, Entry(x, NewItem(c, x, v)), k);
    }
  }

  ghost predicate AllSheltered<T>(c: Context<T>, base: Cache<T>, r: Cache<T>, rest: seq<Key>) {
    forall k :: k in rest && Sensitive(c, base, k) ==> Sheltered(c, base, r, k)
  }

  lemma PreparedAsIntended<T>(c: Context<T>, base: Cache<T>, r: Cache<T>, rest: seq<Key>, k: Key)
    requires Distinct(Keys(base)) && Original(base, r, rest) && AllSheltered(c, base, r, rest)
    requires k in rest && k in c.queued.sets && PreparedIn(c, k, base).Ready?
    ensures PreparedIn(c, k, r) == Ready(Intended(c, base)[k])
  {
    OriginalPeek(base, r, rest, k, c.env.readAt(k));
  }

  lemma {:induction false} EveryOrderPrepares<T>(c: Context<T>, base: Cache<T>, rest: seq<Key>, w: World<T>)
    requires Distinct(Keys(base)) && CacheOk(c.setup, w.cache)
    requires Original(base, w.cache, rest) && AllSheltered(c, base, w.cache, rest)
    requires forall i, j :: 0 <= i < j < |rest| ==> rest[i] != rest[j]
    requires forall k :: k in rest ==> k in c.queued.sets && SetPasses(c, k) && PreparedIn(c, k, base).Ready?
    requires forall k :: k in rest && Sensitive(c, base, k) ==> Room(c, base, k)
    ensures PreparedAs(c, Intended(c, base), rest, w)
    decreases |rest|
  {
    if rest != [] {
      var x, left := rest[0], rest[1..];
      var v := Intended(c, base)[x];
      assert x in rest && x !in left && forall k :: k in left ==> k in rest;
      PreparedAsIntended(c, base, w.cache, rest, x);
      SetStagePasses(c, x, w.cache);
      VisitCache(c, w, x, v);
      VisitOk(c, w.cache, x, v);
      OriginalPeek(base, w.cache, rest, x, c.env.readAt(x));
      forall k | k in left && Sensitive(c, base, k) ensures Sheltered(c, base, Visited(c, w.cache, x, v), k) {
        VisitShelters(c, base, w.cache, x, v, k);
      }
      EveryOrderPrepares(c, base, left, Next(c, w, Stage(c, Sets, x, w)));
    }
  }

  // ----- Without room, some order does -----

  /** If `k` is cached at all, `ahead` is in front of it. */
  ghost predicate Led<T>(r: seq<Entry<T>>, k: Key, ahead: set<Key>) {
    Has(r, k) ==> ahead <= KeysBefore(r, k)
  }

  lemma PutLeads<T>(r: seq<Entry<T>>, e: Entry<T>, limits: Limits, k: Key, ahead: set<Key>)
    requires Led(r, k, ahead) && e.key != k
    ensures Led(Put(r, e, limits), k, ahead + {e.key})
  {
    var f := InFront(r, e);
    InFrontOf(r, e, k);
    TrimIsLongestFit(f, limits, 0);
    var n := |Trim(f, limits)|;
    if Has(f[..n], k) {
      var i :| 0 <= i < n && f[..n][i].key == k;
      assert f[i].key == k;
      KeysBeforePrefix(f, n, k);
    }
  }

  lemma TouchLeads<T>(r: seq<Entry<T>>, x: Key, now: int, k: Key, ahead: set<Key>)
    requires Led(r, k, ahead) && x != k && Peek(r, x, now).Some?
    ensures Led(Touch(r, x, now), k, ahead + {x})
  {
    KeysBeforeWithout(r, x, k);
    HasFront(Find(r, x), Without(r, x), k);
  }

  function KeySet(keys: seq<Key>): (all: set<Key>)
    ensures forall k :: k in all <==> k in keys
  {
    set k | k in keys
  }

  lemma KeySetNext(keys: seq<Key>)
    requires keys != []
    ensures KeySet(keys) == {keys[0]} + KeySet(keys[1..])
  {
    assert keys == [keys[0]] + keys[1..];
  }

  lemma TouchKeepsHits<T>(r: seq<Entry<T>>, x: Key, now: int, e: Entry<T>)
    requires Peek(r, x, now).Some? && Distinct(Keys(r)) && e in r
    ensures e in Touch(r, x, now)
  {
    WithoutMember(r, x, e);
    FindUnique(r, e);
  }

  ghost predicate Contains<T>(r: Cache<T>, base: Cache<T>) {
    forall e :: e in base ==> e in r
  }

  ghost predicate StrongHit<T>(c: Context<T>, base: Cache<T>, x: Key) {
    IsStrong(c, x) && SetPasses(c, x) && Peek(base, x, c.env.readAt(x)).Some?
  }

  /** Reading a cached strong key only moves it to the front. */
  lemma StrongVisitLeads<T>(c: Context<T>, base: Cache<T>, w: World<T>, x: Key, v: Value<T>, k: Key, ahead: set<Key>)
    requires CacheOk(c.setup, w.cache) && Contains(w.cache, base) && Led(w.cache, k, ahead)
    requires StrongHit(c, base, x) && x != k && x in c.queued.sets && PreparedIn(c, x, w.cache) == Ready(v)
    ensures var out := Stage(c, Sets, x, w);
            var r := Next(c, w, out).cache;
            out.err.None? && CacheOk(c.setup, r) && Contains(r, base) && Led(r, k, ahead + {x})
  {
    var at := c.env.readAt(x);
    SetStagePasses(c, x, w.cache);
    VisitCache(c, w, x, v);
    VisitOk(c, w.cache, x, v);
    FindUnique(w.cache, Find(base, x));
    TouchLeads(w.cache, x, at, k, ahead);
    forall e | e in base ensures e in Touch(w.cache, x, at) {
      TouchKeepsHits(w.cache, x, at, e);
    }
  }

  lemma {:induction false} StrongVisitsLead<T>(c: Context<T>, base: Cache<T>, keys: seq<Key>, w: World<T>, k: Key,
                                               ahead: set<Key>, values: map<Key, Value<T>>)
    requires CacheOk(c.setup, w.cache) && Contains(w.cache, base) && Led(w.cache, k, ahead)
    requires PreparedAs(c, values, keys, w) && forall x :: x in keys ==> x != k && StrongHit(c, base, x)
    ensures var r := Next(c, w, RunAll(c, Sets, keys, w)).cache;
            CacheOk(c.setup, r) && Led(r, k, ahead + KeySet(keys))
    decreases |keys|
  {
    if keys == [] {
      assert ahead + KeySet(keys) == ahead;
    } else {
      var x, rest := keys[0], keys[1..];
      var first := Stage(c, Sets, x, w);
      var next := Next(c, w, first);
      assert forall y :: y in rest ==> y in keys;
      StrongVisitLeads(c, base, w, x, values[x], k, ahead);
      PerformAppend(c.setup.limits, w, first.log, RunAll(c, Sets, rest, next).log);
      StrongVisitsLead(c, base, rest, next, k, ahead + {x}, values);
      KeySetNext(keys);
      assert ahead + {x} + KeySet(rest) == ahead + KeySet(keys);
    }
  }

  lemma WeakVisitLeads<T>(c: Context<T>, w: World<T>, x: Key, v: Value<T>, k: Key, ahead: set<Key>)
    requires CacheOk(c.setup, w.cache) && Led(w.cache, k, ahead)
    requires !IsStrong(c, x) && SetPasses(c, x) && x != k && x in c.queued.sets && PreparedIn(c, x, w.cache) == Ready(v)
    ensures var out := Stage(c, Sets, x, w);
            var r := Next(c, w, out).cache;
            out.err.None? && CacheOk(c.setup, r) && Led(r, k, ahead + {x})
  {
    SetStagePasses(c, x, w.cache);
    VisitCache(c, w, x, v);
    VisitOk(c, w.cache, x, v);
    PutLeads(w.cache, Entry(x, NewItem(c, x, v)), c.setup.limits, k, ahead);
  }

  lemma {:induction false} WeakVisitsLead<T>(c: Context<T>, keys: seq<Key>, w: World<T>, k: Key, ahead: set<Key>,
                                             values: map<Key, Value<T>>)
    requires CacheOk(c.setup, w.cache) && Led(w.cache, k, ahead) && PreparedAs(c, values, keys, w)
    requires forall x :: x in keys ==> !IsStrong(c, x) && x != k && SetPasses(c, x)
    ensures var r := Next(c, w, RunAll(c, Sets, keys, w)).cache;
            CacheOk(c.setup, r) && Led(r, k, ahead + KeySet(keys))
    decreases |keys|
  {
    if keys == [] {
      assert ahead + KeySet(keys) == ahead;
    } else {
      var x, rest := keys[0], keys[1..];
      var first := Stage(c, Sets, x, w);
      var next := Next(c, w, first);
      assert forall y :: y in rest ==> y in keys;
      WeakVisitLeads(c, w, x, values[x], k, ahead);
      PerformAppend(c.setup.limits, w, first.log, RunAll(c, Sets, rest, next).log);
      WeakVisitsLead(c, rest, next, k, ahead + {x}, values);
      KeySetNext(keys);
      assert ahead + {x} + KeySet(rest) == ahead + KeySet(keys);
    }
  }

  lemma {:induction false} PreparedSplit<T>(c: Context<T>, values: map<Key, Value<T>>, a: seq<Key>, b: seq<Key>,
                                            w: World<T>)
    requires PreparedAs(c, values, a + b, w) && forall k :: k in a ==> SetPasses(c, k)
    ensures PreparedAs(c, values, a, w) && PreparedAs(c, values, b, Next(c, w, RunAll(c, Sets, a, w)))
    decreases |a|
  {
    if a == [] {
      assert a + b == b;
    } else {
      assert (a + b)[0] == a[0] && (a + b)[1..] == a[1..] + b;
      assert a[0] in a && forall k :: k in a[1..] ==> k in a;
      var first := Stage(c, Sets, a[0], w);
      var next := Next(c, w, first);
      SetStagePasses(c, a[0], w.cache);
      PreparedSplit(c, values, a[1..], b, next);
      PerformAppend(c.setup.limits, w, first.log, RunAll(c, Sets, a[1..], next).log);
    }
  }

  /** A cached key that is led by its whole crowd has room. */
  lemma LedMeansRoom<T>(c: Context<T>, base: Cache<T>, r: Cache<T>, k: Key)
    requires CacheOk(c.setup, r) && Has(r, k) && Led(r, k, Crowd(c, base, k))
    ensures Room(c, base, k)
  {
    var p := Position(r, k);
    SubsetSize(Crowd(c, base, k), KeysBefore(r, k));
    UniformFits(r, c.setup.limits, c.setup.valueSize);
    FewerFit(|Crowd(c, base, k)| + 1, |r|, c.setup.limits, c.setup.valueSize);
  }

  /** If `k` is prepared as intended after the cached strong keys and then the weak ones, there was room. */
  lemma CrowdFirst<T>(c: Context<T>, strong: seq<Key>, weak: seq<Key>, rest: seq<Key>, w: World<T>, k: Key)
    requires CacheOk(c.setup, w.cache) && Sensitive(c, w.cache, k)
    requires forall x :: x in strong ==> x != k && StrongHit(c, w.cache, x)
    requires forall x :: x in weak ==> !IsStrong(c, x) && x != k && SetPasses(c, x)
    requires Rivals(c, w.cache, k) <= KeySet(strong) + KeySet(weak)
    requires PreparedAs(c, Intended(c, w.cache), strong + (weak + ([k] + rest)), w)
    ensures Room(c, w.cache, k)
  {
    var values, ahead := Intended(c, w.cache), KeysBefore(w.cache, k);
    PreparedSplit(c, values, strong, weak + ([k] + rest), w);
    var w1 := Next(c, w, RunAll(c, Sets, strong, w));
    StrongVisitsLead(c, w.cache, strong, w, k, ahead, values);
    PreparedSplit(c, values, weak, [k] + rest, w1);
    var w2 := Next(c, w1, RunAll(c, Sets, weak, w1));
    WeakVisitsLead(c, weak, w1, k, ahead + KeySet(strong), values);
    assert ([k] + rest)[0] == k;
    assert PreparedIn(c, k, w2.cache) == Ready(values[k]);
    assert Has(w2.cache, k);
    assert Crowd(c, w.cache, k) <= ahead + KeySet(strong) + KeySet(weak);
    LedMeansRoom(c, w.cache, w2.cache, k);
  }

  // ----- What is written -----

  /** The commit puts `v` into the cache, and with it its data into the store, under `k`. */
  ghost predicate Writes<T>(c: Context<T>, log: seq<Effect<T>>, k: Key, v: Value<T>) {
    k in c.setup.regs && CacheSet(k, NewItem(c, k, v)) in log
  }

  /** The commit succeeds and writes for every key what was intended. */
  ghost predicate WritesIntended<T>(c: Context<T>, sets: seq<Key>, deletes: seq<Key>, w: World<T>) {
    var out, values := Commit(c, sets, deletes, w), Intended(c, w.cache);
    out.err.None? && forall k :: k in c.queued.sets ==> k in values && Writes(c, out.log, k, values[k])
  }

  /** A cache write of the first loop is the prepared value. */
  lemma SetStageWrites<T>(c: Context<T>, w: World<T>, x: Key, k: Key, item: Item<Value<T>>)
    requires x in c.queued.sets && SetStage(c, x, w.cache).err.None?
    ensures PreparedIn(c, x, w.cache).Ready? && x in c.setup.regs
    ensures CacheSet(k, item) in SetStage(c, x, w.cache).log <==>
              k == x && !IsStrong(c, x) && item == NewItem(c, x, PreparedIn(c, x, w.cache).value)
  {
    var v := PreparedIn(c, x, w.cache).value;
    ApplySetWrites(c, x, v, k, item);
    ByModeWrites(c, x, v, k, item);
  }

  lemma ApplySetWrites<T>(c: Context<T>, x: Key, v: Value<T>, k: Key, item: Item<Value<T>>)
    requires x in c.setup.regs
    ensures ApplySet(c, x, v).err.None? ==>
              (CacheSet(k, item) in ApplySet(c, x, v).log <==> k == x && item == NewItem(c, x, v))
  {
    if ApplySet(c, x, v).err.None? {
      assert ApplySet(c, x, v).log[0] == CacheSet(x, NewItem(c, x, v));
    }
  }

  lemma ByModeWrites<T>(c: Context<T>, x: Key, v: Value<T>, k: Key, item: Item<Value<T>>)
    requires x in c.setup.regs
    ensures var out := ByMode(c, x, [Acked(x), Held(x, v)], ApplySet(c, x, v));
            out.err.None? ==>
              && (!IsStrong(c, x) ==> ApplySet(c, x, v).err.None?)
              && (CacheSet(k, item) in out.log <==> !IsStrong(c, x) && CacheSet(k, item) in ApplySet(c, x, v).log)
  {
  }

  /** In the first loop the weak keys are written, each as prepared. */
  lemma {:induction false} SetsWrite<T>(c: Context<T>, values: map<Key, Value<T>>, keys: seq<Key>, w: World<T>, k: Key,
                                        item: Item<Value<T>>)
    requires RunAll(c, Sets, keys, w).err.None? && PreparedAs(c, values, keys, w)
    ensures CacheSet(k, item) in RunAll(c, Sets, keys, w).log <==>
              k in keys && k in values && k in c.setup.regs && !IsStrong(c, k) && item == NewItem(c, k, values[k])
    decreases |keys|
  {
    if keys != [] {
      var x := keys[0];
      SetStageWrites(c, w, x, k, item);
      SetsWrite(c, values, keys[1..], Next(c, w, Stage(c, Sets, x, w)), k, item);
    }
  }

  /** The second and fourth loops write nothing. */
  lemma {:induction false} DropsWriteNothing<T>(c: Context<T>, phase: Phase, keys: seq<Key>, w: World<T>, k: Key,
                                                item: Item<Value<T>>)
    requires phase.Deletes? || phase.StrongDeletes?
    ensures CacheSet(k, item) !in RunAll(c, phase, keys, w).log
    decreases |keys|
  {
    if keys != [] {
      DropWritesNothing(c, keys[0], k, item);
      DropsWriteNothing(c, phase, keys[1..], Next(c, w, Stage(c, phase, keys[0], w)), k, item);
    }
  }

  lemma DropWritesNothing<T>(c: Context<T>, x: Key, k: Key, item: Item<Value<T>>)
    ensures CacheSet(k, item) !in ApplyDrop(c, x).log
    ensures x in c.setup.regs ==> CacheSet(k, item) !in ByMode(c, x, [Acked(x)], ApplyDrop(c, x)).log
  {
  }

  /** In the third loop the strong keys are written, each as it was held. */
  lemma {:induction false} StrongSetsWrite<T>(c: Context<T>, keys: seq<Key>, w: World<T>, k: Key, item: Item<Value<T>>)
    requires RunAll(c, StrongSets, keys, w).err.None?
    ensures CacheSet(k, item) in RunAll(c, StrongSets, keys, w).log <==>
              k in keys && k in w.later && k in c.setup.regs && item == NewItem(c, k, w.later[k])
    decreases |keys|
  {
    if keys != [] {
      var x := keys[0];
      var first := Stage(c, StrongSets, x, w);
      var next := Next(c, w, first);
      if x in w.later && x in c.setup.regs {
        ApplySetWrites(c, x, w.later[x], k, item);
      }
      StillHeld(c, w, first.log);
      StrongSetsWrite(c, keys[1..], next, k, item);
    }
  }

  lemma {:induction false} StillHeld<T>(c: Context<T>, w: World<T>, log: seq<Effect<T>>)
    requires forall i :: 0 <= i < |log| ==> !log[i].Held?
    ensures PerformAll(c.setup.limits, w, log).later == w.later
    decreases |log|
  {
    if log != [] {
      assert !log[0].Held?;
      StillHeld(c, Perform(c.setup.limits, w, log[0]), log[1..]);
    }
  }

  /** After the first two loops the strong keys are held, each as prepared. */
  lemma HeldAfterLoops<T>(c: Context<T>, values: map<Key, Value<T>>, sets: seq<Key>, deletes: seq<Key>,
                          w: World<T>, w1: World<T>, w2: World<T>, k: Key)
    requires Visits(c, sets, deletes)
    requires Starts(w) && PreparedAs(c, values, sets, w)
    requires RunAll(c, Sets, sets, w).err.None? && w1 == Next(c, w, RunAll(c, Sets, sets, w))
    requires RunAll(c, Deletes, deletes, w1).err.None? && w2 == Next(c, w1, RunAll(c, Deletes, deletes, w1))
    ensures k in sets ==> k in values
    ensures Lookup(w2.later, k) == if k in sets && IsStrong(c, k) then Some(values[k]) else None
  {
    RunAllSlot(c, values, Sets, sets, w, k);
    RunAllSlot(c, values, Deletes, deletes, w1, k);
    assert SlotAt(w, k).held == None;
    assert Lookup(w2.later, k) == SlotAt(w2, k).held;
    if k in sets {
      PreparedKeys(c, values, sets, w, k);
    }
  }

  /** A successful commit writes every set key once prepared, and nothing else. */
  lemma CommitWrites<T>(c: Context<T>, values: map<Key, Value<T>>, sets: seq<Key>, deletes: seq<Key>, w: World<T>,
                        k: Key, item: Item<Value<T>>)
    requires Visits(c, sets, deletes)
    requires Starts(w) && Commit(c, sets, deletes, w).err.None? && PreparedAs(c, values, sets, w)
    ensures CacheSet(k, item) in Commit(c, sets, deletes, w).log <==>
              k in c.queued.sets && k in values && k in c.setup.regs && item == NewItem(c, k, values[k])
  {
    var w1, w2, w3, w4 := CommitWorlds(c, sets, deletes, w);
    SetsWrite(c, values, sets, w, k, item);
    DropsWriteNothing(c, Deletes, deletes, w1, k, item);
    StrongSetsWrite(c, sets, w2, k, item);
    DropsWriteNothing(c, StrongDeletes, deletes, w3, k, item);
    HeldAfterLoops(c, values, sets, deletes, w, w1, w2, k);
    assert CacheSet(k, item) !in Finish(c).log;
  }

  ghost predicate AllReady<T>(c: Context<T>, base: Cache<T>) {
    forall k :: k in c.queued.sets ==> PreparedIn(c, k, base).Ready?
  }

  lemma WritesIffPrepared<T>(c: Context<T>, sets: seq<Key>, deletes: seq<Key>, w: World<T>)
    requires Visits(c, sets, deletes)
    requires Starts(w) && CallsPass(c) && AllReady(c, w.cache)
    ensures WritesIntended(c, sets, deletes, w) <==> PreparedAs(c, Intended(c, w.cache), sets, w)
  {
    var values := Intended(c, w.cache);
    if PreparedAs(c, values, sets, w) {
      CommitPasses(c, values, sets, deletes, w);
      forall k | k in c.queued.sets ensures Writes(c, Commit(c, sets, deletes, w).log, k, values[k]) {
        assert SetPasses(c, k);
        CommitWrites(c, values, sets, deletes, w, k, NewItem(c, k, values[k]));
      }
    }
    if WritesIntended(c, sets, deletes, w) {
      var w1, w2, w3, w4 := CommitWorlds(c, sets, deletes, w);
      var found := ValuesOf(c, sets, w);
      PassedMeansPrepared(c, sets, w);
      forall k | k in sets ensures k in found && found[k] == values[k] {
        PreparedKeys(c, found, sets, w, k);
        CommitWrites(c, found, sets, deletes, w, k, NewItem(c, k, values[k]));
      }
      PreparedAgrees(c, found, values, sets, w);
    }
  }

  lemma OrderConcat(a: seq<Key>, x: set<Key>, b: seq<Key>, y: set<Key>)
    requires IsOrder(a, x) && IsOrder(b, y) && x !! y
    ensures IsOrder(a + b, x + y)
  {
    forall i, j | 0 <= i < j < |a + b| ensures (a + b)[i] != (a + b)[j] {
      if i < |a| <= j {
        assert a[i] in x && b[j - |a|] in y;
      }
    }
  }

  /** An order that visits the crowd of `k` first, then `k`. */
  lemma CrowdFirstOrder<T>(c: Context<T>, base: Cache<T>, k: Key)
    returns (strong: seq<Key>, weak: seq<Key>, rest: seq<Key>)
    requires k in c.queued.sets
    ensures IsOrder(strong + (weak + ([k] + rest)), c.queued.sets.Keys)
    ensures forall x :: x in strong ==> x in Rivals(c, base, k) && IsStrong(c, x)
    ensures forall x :: x in weak ==> x in Rivals(c, base, k) && !IsStrong(c, x)
    ensures Rivals(c, base, k) <= KeySet(strong) + KeySet(weak)
  {
    var all, rivals := c.queued.sets.Keys, Rivals(c, base, k);
    var s := set x | x in rivals && IsStrong(c, x);
    strong := SomeOrder(s);
    weak := SomeOrder(rivals - s);
    rest := SomeOrder(all - rivals - {k});
    OrderConcat([k], {k}, rest, all - rivals - {k});
    OrderConcat(weak, rivals - s, [k] + rest, {k} + (all - rivals - {k}));
    OrderConcat(strong, s, weak + ([k] + rest), (rivals - s) + ({k} + (all - rivals - {k})));
    assert s + ((rivals - s) + ({k} + (all - rivals - {k}))) == all;
  }

  /** With room for every sensitive key, any order writes what was intended. */
  lemma RoomSuffices<T>(c: Context<T>, sets: seq<Key>, deletes: seq<Key>, w: World<T>)
    requires Visits(c, sets, deletes)
    requires CacheOk(c.setup, w.cache) && Starts(w) && CallsPass(c) && AllReady(c, w.cache)
    requires AllHaveRoom(c, w.cache)
    ensures WritesIntended(c, sets, deletes, w)
  {
    EveryOrderPrepares(c, w.cache, sets, w);
    WritesIffPrepared(c, sets, deletes, w);
  }

  /** Without room for one, the order that visits its crowd first does not. */
  lemma RoomNeeded<T>(c: Context<T>, w: World<T>, k: Key) returns (sets: seq<Key>, deletes: seq<Key>)
    requires CacheOk(c.setup, w.cache) && Starts(w) && c.queued.sets.Keys !! c.queued.deletes
    requires CallsPass(c) && AllReady(c, w.cache) && Sensitive(c, w.cache, k) && !Room(c, w.cache, k)
    ensures Visits(c, sets, deletes)
    ensures !WritesIntended(c, sets, deletes, w)
  {
    var strong, weak, rest := CrowdFirstOrder(c, w.cache, k);
    sets := strong + (weak + ([k] + rest));
    deletes := SomeOrder(c.queued.deletes);
    WritesIffPrepared(c, sets, deletes, w);
    if PreparedAs(c, Intended(c, w.cache), sets, w) {
      CrowdFirst(c, strong, weak, rest, w, k);
      assert false;
    }
  }

  // ----- One order always works -----

  ghost predicate StillCached<T>(base: Cache<T>, r: Cache<T>, rest: seq<Key>) {
    forall k :: k in rest && Has(base, k) ==> Has(r, k)
  }

  /** Visiting a cached key evicts nothing. */
  lemma CachedVisitKeeps<T>(c: Context<T>, r: Cache<T>, x: Key, v: Value<T>, k: Key)
    requires x in c.setup.regs && CacheOk(c.setup, r) && Has(r, x) && x != k && Has(r, k)
    ensures Has(Visited(c, r, x, v), k)
  {
    if IsStrong(c, x) {
      KeysBeforeWithout(r, x, k);
      HasFront(Find(r, x), Without(r, x), k);
    } else {
      var e := Entry(x, NewItem(c, x, v));
      InFrontOf(r, e, k);
      WithoutLength(r, x);
      FrontUniform(r, e, c.setup.valueSize);
      UniformFits(r, c.setup.limits, c.setup.valueSize);
      UniformFits(InFront(r, e), c.setup.limits, c.setup.valueSize);
    }
  }

  lemma NotCachedStays<T>(base: Cache<T>, r: Cache<T>, rest: seq<Key>, x: Key)
    requires Original(base, r, rest) && x in rest && Has(r, x)
    ensures Has(base, x)
  {
    var e := Find(r, x);
    var i :| 0 <= i < |base| && base[i] == e;
    assert base[i].key == x;
  }

  /** A key that is cached if it was at the start is prepared as intended. */
  lemma CachedVisit<T>(c: Context<T>, base: Cache<T>, rest: seq<Key>, w: World<T>, x: Key)
    requires Distinct(Keys(base)) && CacheOk(c.setup, w.cache) && Original(base, w.cache, rest) && x in rest
    requires x in c.queued.sets && SetPasses(c, x) && PreparedIn(c, x, base).Ready? &&
             (Has(base, x) ==> Has(w.cache, x))
    ensures PreparedIn(c, x, w.cache) == Ready(Intended(c, base)[x])
    ensures var next := Next(c, w, Stage(c, Sets, x, w)).cache;
            next == Visited(c, w.cache, x, Intended(c, base)[x]) && CacheOk(c.setup, next)
    ensures forall e :: e in Next(c, w, Stage(c, Sets, x, w)).cache ==> e in w.cache || e.key == x
  {
    var v := Intended(c, base)[x];
    OriginalPeek(base, w.cache, rest, x, c.env.readAt(x));
    if Has(w.cache, x) {
      NotCachedStays(base, w.cache, rest, x);
    }
    SetStagePasses(c, x, w.cache);
    VisitCache(c, w, x, v);
    VisitOk(c, w.cache, x, v);
  }

  ghost predicate Candidates<T>(c: Context<T>, base: Cache<T>, keys: seq<Key>) {
    && (forall i, j :: 0 <= i < j < |keys| ==> keys[i] != keys[j])
    && (forall k :: k in keys ==> k in c.queued.sets && SetPasses(c, k) && PreparedIn(c, k, base).Ready?)
  }

  /** Keys that were not cached at the start may come last, in any order. */
  lemma {:induction false} AbsentLast<T>(c: Context<T>, base: Cache<T>, keys: seq<Key>, w: World<T>)
    requires Distinct(Keys(base)) && CacheOk(c.setup, w.cache) && Original(base, w.cache, keys)
    requires Candidates(c, base, keys) && forall k :: k in keys ==> !Has(base, k)
    ensures PreparedAs(c, Intended(c, base), keys, w)
    decreases |keys|
  {
    if keys != [] {
      var x, left := keys[0], keys[1..];
      assert x in keys && x !in left && forall k :: k in left ==> k in keys;
      CachedVisit(c, base, keys, w, x);
      AbsentLast(c, base, left, Next(c, w, Stage(c, Sets, x, w)));
    }
  }

  lemma {:induction false} CachedFirst<T>(c: Context<T>, base: Cache<T>, keys: seq<Key>, rest: seq<Key>, w: World<T>)
    requires Distinct(Keys(base)) && CacheOk(c.setup, w.cache)
    requires Original(base, w.cache, keys + rest) && StillCached(base, w.cache, keys)
    requires Candidates(c, base, keys + rest)
    requires (forall k :: k in keys ==> Has(base, k)) && (forall k :: k in rest ==> !Has(base, k))
    ensures PreparedAs(c, Intended(c, base), keys + rest, w)
    decreases |keys|
  {
    if keys == [] {
      assert keys + rest == rest;
      AbsentLast(c, base, rest, w);
    } else {
      var all, x, left := keys + rest, keys[0], keys[1..] + rest;
      assert all[0] == x && all[1..] == left;
      assert x in all && x !in left && forall k :: k in left ==> k in all;
      CachedVisit(c, base, all, w, x);
      var next := Next(c, w, Stage(c, Sets, x, w));
      forall k | k in keys[1..] && Has(base, k) ensures Has(next.cache, k) {
        assert k in left && k in keys;
        CachedVisitKeeps(c, w.cache, x, Intended(c, base)[x], k);
      }
      CandidatesLeft(c, base, all);
      CachedFirst(c, base, keys[1..], rest, next);
    }
  }

  lemma CandidatesLeft<T>(c: Context<T>, base: Cache<T>, keys: seq<Key>)
    requires keys != [] && Candidates(c, base, keys)
    ensures Candidates(c, base, keys[1..])
  {
  }

  /** Visiting the cached keys first always works, whatever the limits. */
  lemma CachedFirstWorks<T>(c: Context<T>, w: World<T>) returns (sets: seq<Key>, deletes: seq<Key>)
    requires CacheOk(c.setup, w.cache) && Starts(w) && c.queued.sets.Keys !! c.queued.deletes
    requires CallsPass(c) && AllReady(c, w.cache)
    ensures Visits(c, sets, deletes)
    ensures WritesIntended(c, sets, deletes, w)
  {
    var all := c.queued.sets.Keys;
    var cached := set x | x in all && Has(w.cache, x);
    var a := SomeOrder(cached);
    var b := SomeOrder(all - cached);
    sets := a + b;
    deletes := SomeOrder(c.queued.deletes);
    OrderConcat(a, cached, b, all - cached);
    assert cached + (all - cached) == all;
    CachedFirst(c, w.cache, a, b, w);
    WritesIffPrepared(c, sets, deletes, w);
  }

  // ----- What fails in one order fails in all -----

  /** A key that is refused with its cached value is refused without it, so no order gets past it. */
  lemma {:induction false} RefusedFails<T>(c: Context<T>, base: Cache<T>, keys: seq<Key>, w: World<T>, k: Key)
    requires Distinct(Keys(base)) && CacheOk(c.setup, w.cache) && Original(base, w.cache, keys) && k in keys
    requires forall i, j :: 0 <= i < j < |keys| ==> keys[i] != keys[j]
    requires forall x :: x in keys ==> x in c.queued.sets
    requires PreparedIn(c, k, base).Refused?
    ensures RunAll(c, Sets, keys, w).err.Some?
    decreases |keys|
  {
    var x := keys[0];
    OriginalPeek(base, w.cache, keys, k, c.env.readAt(k));
    assert PreparedIn(c, k, w.cache).Refused?;
    if x != k && SetStage(c, x, w.cache).err.None? {
      var v := PreparedIn(c, x, w.cache).value;
      assert x in keys && x !in keys[1..] && forall y :: y in keys[1..] ==> y in keys;
      VisitCache(c, w, x, v);
      VisitOk(c, w.cache, x, v);
      RefusedFails(c, base, keys[1..], Next(c, w, Stage(c, Sets, x, w)), k);
    }
  }

  /** Whenever a commit succeeds, no call failed and every key could be prepared at the start. */
  lemma SuccessMeansReady<T>(c: Context<T>, sets: seq<Key>, deletes: seq<Key>, w: World<T>)
    requires Visits(c, sets, deletes)
    requires CacheOk(c.setup, w.cache) && Starts(w) && Commit(c, sets, deletes, w).err.None?
    ensures CallsPass(c) && AllReady(c, w.cache)
  {
    SuccessMeansCallsPass(c, sets, deletes, w);
    var w1, w2, w3, w4 := CommitWorlds(c, sets, deletes, w);
    forall k | k in c.queued.sets ensures PreparedIn(c, k, w.cache).Ready? {
      if PreparedIn(c, k, w.cache).Refused? {
        RefusedFails(c, w.cache, sets, w, k);
        assert false;
      }
    }
  }

  // ----- The main result -----

  /** Two commits both fail, or both succeed, write the same to the cache and leave the same store. */
  ghost predicate SameOutcome<T(!new)>(c: Context<T>, w: World<T>, a: Out<T>, b: Out<T>) {
    && (a.err.None? <==> b.err.None?)
    && (a.err.None? ==>
          && (forall k, item :: CacheSet(k, item) in a.log <==> CacheSet(k, item) in b.log)
          && Next(c, w, a).store == Next(c, w, b).store)
  }

  ghost predicate OrderNeverMatters<T(!new)>(c: Context<T>, w: World<T>) {
    forall s, d, s2, d2 ::
      Visits(c, s, d) && Visits(c, s2, d2) ==> SameOutcome(c, w, Commit(c, s, d, w), Commit(c, s2, d2, w))
  }

  /** What a successful commit that prepares as intended writes. */
  lemma IntendedWrites<T>(c: Context<T>, sets: seq<Key>, deletes: seq<Key>, w: World<T>, k: Key, item: Item<Value<T>>)
    requires Visits(c, sets, deletes)
    requires CacheOk(c.setup, w.cache) && Starts(w) && CallsPass(c) && AllReady(c, w.cache)
    requires WritesIntended(c, sets, deletes, w)
    ensures CacheSet(k, item) in Commit(c, sets, deletes, w).log <==>
              k in c.queued.sets && k in c.setup.regs && item == NewItem(c, k, Intended(c, w.cache)[k])
  {
    WritesIffPrepared(c, sets, deletes, w);
    CommitWrites(c, Intended(c, w.cache), sets, deletes, w, k, item);
  }

  /** With room for its sensitive keys, a commit leaves the same store in every order. */
  lemma StoreIgnoresOrder<T>(c: Context<T>, sets: seq<Key>, deletes: seq<Key>, w: World<T>, k: Key)
    requires Visits(c, sets, deletes)
    requires CacheOk(c.setup, w.cache) && Starts(w) && CallsPass(c) && AllReady(c, w.cache)
    requires AllHaveRoom(c, w.cache)
    ensures Commit(c, sets, deletes, w).err.None?
    ensures Lookup(Next(c, w, Commit(c, sets, deletes, w)).store, k) ==
              FinalStored(c, Intended(c, w.cache), k, Lookup(w.store, k))
  {
    RoomSuffices(c, sets, deletes, w);
    WritesIffPrepared(c, sets, deletes, w);
    StoreResult(c, Intended(c, w.cache), sets, deletes, w, k);
  }

  lemma SameMaps<V>(a: map<Key, V>, b: map<Key, V>)
    requires forall k :: Lookup(a, k) == Lookup(b, k)
    ensures a == b
  {
    forall k | k in a ensures k in b && a[k] == b[k] {
      assert Lookup(a, k) == Lookup(b, k);
    }
    forall k | k in b ensures k in a {
      assert Lookup(a, k) == Lookup(b, k);
    }
  }

  lemma RoomMeansSame<T(!new)>(c: Context<T>, w: World<T>, s: seq<Key>, d: seq<Key>, s2: seq<Key>, d2: seq<Key>)
    requires Visits(c, s, d) && Visits(c, s2, d2) && CacheOk(c.setup, w.cache) && Starts(w)
    requires CallsPass(c) && AllReady(c, w.cache) ==> AllHaveRoom(c, w.cache)
    ensures SameOutcome(c, w, Commit(c, s, d, w), Commit(c, s2, d2, w))
  {
    if CallsPass(c) && AllReady(c, w.cache) {
      RoomSuffices(c, s, d, w);
      RoomSuffices(c, s2, d2, w);
      forall k
        ensures Lookup(Next(c, w, Commit(c, s, d, w)).store, k) == Lookup(Next(c, w, Commit(c, s2, d2, w)).store, k)
      {
        StoreIgnoresOrder(c, s, d, w, k);
        StoreIgnoresOrder(c, s2, d2, w, k);
      }
      SameMaps(Next(c, w, Commit(c, s, d, w)).store, Next(c, w, Commit(c, s2, d2, w)).store);
      forall k, item
        ensures CacheSet(k, item) in Commit(c, s, d, w).log <==> CacheSet(k, item) in Commit(c, s2, d2, w).log
      {
        IntendedWrites(c, s, d, w, k, item);
        IntendedWrites(c, s2, d2, w, k, item);
      }
    } else {
      if Commit(c, s, d, w).err.None? {
        SuccessMeansReady(c, s, d, w);
      }
      if Commit(c, s2, d2, w).err.None? {
        SuccessMeansReady(c, s2, d2, w);
      }
    }
  }

  /** One order writes as intended and another does not: their outcomes differ. */
  lemma Differ<T(!new)>(c: Context<T>, w: World<T>, s: seq<Key>, d: seq<Key>, s2: seq<Key>, d2: seq<Key>)
    requires WritesIntended(c, s, d, w) && !WritesIntended(c, s2, d2, w)
    ensures !SameOutcome(c, w, Commit(c, s, d, w), Commit(c, s2, d2, w))
  {
    var values := Intended(c, w.cache);
    if Commit(c, s2, d2, w).err.None? {
      var k :| k in c.queued.sets && !(k in values && Writes(c, Commit(c, s2, d2, w).log, k, values[k]));
      assert Writes(c, Commit(c, s, d, w).log, k, values[k]);
      assert CacheSet(k, NewItem(c, k, values[k])) in Commit(c, s, d, w).log;
    }
  }

  lemma OrderMatters<T(!new)>(c: Context<T>, w: World<T>, k: Key)
    requires CacheOk(c.setup, w.cache) && Starts(w) && c.queued.sets.Keys !! c.queued.deletes
    requires CallsPass(c) && AllReady(c, w.cache) && Sensitive(c, w.cache, k) && !Room(c, w.cache, k)
    ensures !OrderNeverMatters(c, w)
  {
    var s, d := CachedFirstWorks(c, w);
    var s2, d2 := RoomNeeded(c, w, k);
    Differ(c, w, s, d, s2, d2);
  }

  /**
    The order in which a commit visits its keys never matters, to whether it succeeds, to what it writes and
    to what the store ends with, if and only if each sensitive key has room: the cache can hold it together
    with all that was used more recently and with the other set keys that are weak or cached. (If a call
    fails or a key cannot be prepared even from the cache as it is at the start, every order fails.)
  */
  lemma OrderNeverMattersExactly<T(!new)>(c: Context<T>, w: World<T>)
    requires CacheOk(c.setup, w.cache) && Starts(w) && c.queued.sets.Keys !! c.queued.deletes
    ensures OrderNeverMatters(c, w) <==>
            (CallsPass(c) && AllReady(c, w.cache) ==> AllHaveRoom(c, w.cache))
  {
    if CallsPass(c) && AllReady(c, w.cache) && exists k :: Sensitive(c, w.cache, k) && !Room(c, w.cache, k) {
      var k :| Sensitive(c, w.cache, k) && !Room(c, w.cache, k);
      OrderMatters(c, w, k);
    } else {
      forall s, d, s2, d2 | Visits(c, s, d) && Visits(c, s2, d2)
        ensures SameOutcome(c, w, Commit(c, s, d, w), Commit(c, s2, d2, w))
      {
        RoomMeansSame(c, w, s, d, s2, d2);
      }
    }
  }

  lemma {:induction false} KeySetSize(keys: seq<Key>)
    ensures |KeySet(keys)| <= |keys|
  {
    if keys != [] {
      KeySetNext(keys);
      KeySetSize(keys[1..]);
    }
  }

  /** There is room for `k` if `all`, which holds it and its crowd, fits. */
  lemma CrowdWithin<T>(c: Context<T>, base: Cache<T>, k: Key, all: set<Key>)
    requires k in all && FitsCount(|all|, c.setup.limits, c.setup.valueSize)
    requires KeysBefore(base, k) <= all && Rivals(c, base, k) <= all
    ensures Room(c, base, k)
  {
    NotBeforeItself(base, k);
    var crowd := Crowd(c, base, k);
    assert k !in crowd;
    assert |crowd + {k}| == |crowd| + 1;
    SubsetSize(crowd + {k}, all);
    FewerFit(|crowd| + 1, |all|, c.setup.limits, c.setup.valueSize);
  }

  lemma BeforeWithin<T>(base: Cache<T>, k: Key)
    ensures KeysBefore(base, k) <= KeySet(Keys(base))
  {
    forall x | x in KeysBefore(base, k) ensures x in KeySet(Keys(base)) {
      BeforeIsCached(base, k, x);
    }
  }

  lemma HasKey<T>(base: Cache<T>, x: Key)
    requires Has(base, x)
    ensures x in KeySet(Keys(base))
  {
    var i :| 0 <= i < |base| && base[i].key == x;
    assert Keys(base)[i] == x;
  }

  /** When all sets are strong everything is read before anything is applied, and there is always room. */
  lemma StrongSetsHaveRoom<T>(c: Context<T>, base: Cache<T>, k: Key)
    requires CacheOk(c.setup, base) && Sensitive(c, base, k) && forall x :: x in c.queued.sets ==> IsStrong(c, x)
    ensures Room(c, base, k)
  {
    var cached := KeySet(Keys(base));
    forall x | x in Rivals(c, base, k) ensures x in cached {
      HasKey(base, x);
    }
    HasKey(base, k);
    BeforeWithin(base, k);
    KeySetSize(Keys(base));
    UniformFits(base, c.setup.limits, c.setup.valueSize);
    FewerFit(|cached|, |base|, c.setup.limits, c.setup.valueSize);
    CrowdWithin(c, base, k, cached);
  }

  lemma {:induction false} NotBeforeItself<T>(r: seq<Entry<T>>, k: Key)
    ensures k !in KeysBefore(r, k)
  {
    if r != [] && r[0].key != k {
      NotBeforeItself(r[1..], k);
    }
  }

  /** A compare-and-swap of `a` and a plain set of `b`, over a cache that holds one entry, the value of `a`. */
  function TwoSets<T>(from: T, to: T, other: T, env: Env<T>): Context<T> {
    var reg := Registration(StrongLocal, 0);
    Context(Queued(map["a" := to, "b" := other], {}, map["a" := from]),
            Setup(map["a" := reg, "b" := reg], false, NoStore, Limits(1, 0), 1),
            env.(fails := (call, k) => false))
  }

  function HoldingA<T>(from: T): World<T> {
    World([Entry("a", Item(Value(from, 0, Nil, ""), 1, Never))], map[], Batch(map[], {}), map[])
  }

  lemma SecondEvictsFirst<T>(a: Entry<T>, b: Entry<T>)
    requires a.key != b.key
    ensures Put([a], b, Limits(1, 0)) == [b]
  {
    assert Without([a], b.key) == [a] + Without([], b.key);
    var f := [b] + [a];
    assert |f| == 2 && f[..1] == [b];
    assert Trim(f, Limits(1, 0)) == Trim([b], Limits(1, 0));
  }

  /** Setting `b` first evicts `a`, and the compare-and-swap of `a` fails. */
  lemma PlainSetFirst<T>(from: T, to: T, other: T, env: Env<T>)
    ensures Commit(TwoSets(from, to, other, env), ["b", "a"], [], HoldingA(from)).err == Some(ErrCasMismatch)
  {
    var c, w := TwoSets(from, to, other, env), HoldingA(from);
    assert !Has(w.cache, "b");
    var v := Value(other, env.now("b"), Nil, "");
    assert PreparedIn(c, "b", w.cache) == Ready(v);
    SetStagePasses(c, "b", w.cache);
    VisitCache(c, w, "b", v);
    SecondEvictsFirst(w.cache[0], Entry("b", NewItem(c, "b", v)));
    var next := Next(c, w, Stage(c, Sets, "b", w));
    assert !Has(next.cache, "a");
    assert ["b", "a"][1..] == ["a"];
    assert RunAll(c, Sets, ["a"], next).err == Some(ErrCasMismatch);
  }

  /** Swapping `a` first, both get through. */
  lemma CompareFirst<T>(from: T, to: T, other: T, env: Env<T>)
    ensures Commit(TwoSets(from, to, other, env), ["a", "b"], [], HoldingA(from)).err == None
  {
    var c, w := TwoSets(from, to, other, env), HoldingA(from);
    assert w.cache[0].key == "a";
    FindUnique(w.cache, w.cache[0]);
    assert PreparedIn(c, "a", w.cache).Ready?;
    SetStagePasses(c, "a", w.cache);
    var next := Next(c, w, Stage(c, Sets, "a", w));
    SetStagePasses(c, "b", next.cache);
    assert ["a", "b"][1..] == ["b"] && ["b"][1..] == [];
    var first := RunAll(c, Sets, ["b"], next);
    assert first.err.None?;
    assert RunAll(c, Sets, ["a", "b"], w).err.None?;
    var w2 := Next(c, w, RunAll(c, Sets, ["a", "b"], w));
    assert RunAll(c, Deletes, [], w2) == Done([]) && Next(c, w2, Done([])) == w2;
    StrongSetsPass(c, ["a", "b"], w2);
  }

  /** So with a bounded cache the order can matter: the same commit succeeds in one and fails in the other. */
  lemma EvictionMakesOrderMatter<T>(from: T, to: T, other: T, env: Env<T>)
    ensures Commit(TwoSets(from, to, other, env), ["a", "b"], [], HoldingA(from)).err == None
    ensures Commit(TwoSets(from, to, other, env), ["b", "a"], [], HoldingA(from)).err == Some(ErrCasMismatch)
  {
    CompareFirst(from, to, other, env);
    PlainSetFirst(from, to, other, env);
  }

  /** The order of an all-strong commit never matters, whatever the limits. */
  lemma StrongCommitIgnoresOrder<T(!new)>(c: Context<T>, w: World<T>)
    requires CacheOk(c.setup, w.cache) && Starts(w) && c.queued.sets.Keys !! c.queued.deletes
    requires forall x :: x in c.queued.sets ==> IsStrong(c, x)
    ensures OrderNeverMatters(c, w)
  {
    forall k | Sensitive(c, w.cache, k) ensures Room(c, w.cache, k) {
      StrongSetsHaveRoom(c, w.cache, k);
    }
    OrderNeverMattersExactly(c, w);
  }

  /** Nor does the order of a commit on an unlimited cache. */
  lemma UnlimitedCommitIgnoresOrder<T(!new)>(c: Context<T>, w: World<T>)
    requires CacheOk(c.setup, w.cache) && Starts(w) && c.queued.sets.Keys !! c.queued.deletes
    requires c.setup.limits.maxEntries <= 0 && c.setup.limits.maxMemory <= 0
    ensures OrderNeverMatters(c, w)
  {
    OrderNeverMattersExactly(c, w);
  }
}
