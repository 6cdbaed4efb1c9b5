/**
  When the entries that a bounded cache retains after a commit depend on the order of its keys. A cache that
  always drops the least recently used entry holds the front of the list an unbounded one would hold; the
  set keys are at its front, in the order of their turns, and the rest does not depend on that order.
*/
module CommitRetention {
  import opened Merging
  import opened Options
  import opened Commits
  import opened CommitLaws
  import opened CommitOrder
  import opened CommitCaches
  import opened RecencyLists

  // ----- Leaving out several keys -----

  function Except<T>(r: seq<Entry<T>>, ks: set<Key>): seq<Entry<T>> {
    if r == [] then []
    else if r[0].key in ks then Except(r[1..], ks)
    else [r[0]] + Except(r[1..], ks)
  }

  lemma {:induction false} ExceptNone<T>(r: seq<Entry<T>>)
    ensures Except(r, {}) == r
  {
    if r != [] {
      ExceptNone(r[1..]);
    }
  }

  lemma {:induction false} ExceptMember<T>(r: seq<Entry<T>>, ks: set<Key>, e: Entry<T>)
    ensures e in Except(r, ks) <==> e in r && e.key !in ks
  {
    if r != [] {
      ExceptMember(r[1..], ks, e);
      assert r == [r[0]] + r[1..];
    }
  }

  lemma {:induction false} ExceptWithout<T>(r: seq<Entry<T>>, k: Key, ks: set<Key>)
    ensures Except(Without(r, k), ks) == Except(r, ks + {k})
  {
    if r != [] {
      ExceptWithout(r[1..], k, ks);
      if r[0].key != k {
        var rest := Without(r[1..], k);
        assert ([r[0]] + rest)[1..] == rest;
      }
    }
  }

  lemma {:induction false} ExceptTwice<T>(r: seq<Entry<T>>, ks: set<Key>, more: set<Key>)
    ensures Except(Except(r, ks), more) == Except(r, ks + more)
  {
    if r != [] {
      ExceptTwice(r[1..], ks, more);
      if r[0].key !in ks {
        var rest := Except(r[1..], ks);
        assert ([r[0]] + rest)[1..] == rest;
      }
    }
  }

  /** Using a key that is left out anyway changes nothing. */
  lemma ExceptTouch<T>(r: seq<Entry<T>>, k: Key, now: int, ks: set<Key>)
    requires k in ks
    ensures Except(Touch(r, k, now), ks) == Except(r, ks)
  {
    assert ks + {k} == ks;
    ExceptWithout(r, k, ks);
    if Has(r, k) && !Expired(Find(r, k).item, now) {
      assert ([Find(r, k)] + Without(r, k))[1..] == Without(r, k);
    }
  }

  // ----- Putting several entries -----

  function PutAll<T>(r: seq<Entry<T>>, es: seq<Entry<T>>, limits: Limits): seq<Entry<T>>
    decreases |es|
  {
    if es == [] then r else PutAll(Put(r, es[0], limits), es[1..], limits)
  }

  function Reversed<T>(es: seq<Entry<T>>): (f: seq<Entry<T>>)
    ensures |f| == |es| && forall i :: 0 <= i < |es| ==> f[i] == es[|es| - 1 - i]
  {
    seq(|es|, i requires 0 <= i < |es| => es[|es| - 1 - i])
  }

  function KeysIn<T>(es: seq<Entry<T>>): set<Key> {
    KeySet(Keys(es))
  }

  /** The list an unbounded cache would hold. */
  function Stacked<T>(r: seq<Entry<T>>, es: seq<Entry<T>>): seq<Entry<T>> {
    Reversed(es) + Except(r, KeysIn(es))
  }

  lemma StackedNext<T>(r: seq<Entry<T>>, es: seq<Entry<T>>)
    requires es != [] && Distinct(Keys(es))
    ensures Stacked([es[0]] + Without(r, es[0].key), es[1..]) == Stacked(r, es)
  {
    var e, rest := es[0], es[1..];
    var f := [e] + Without(r, e.key);
    assert f[1..] == Without(r, e.key);
    KeysInNext(es);
    ReversedNext(es);
    ExceptWithout(r, e.key, KeysIn(rest));
    assert Reversed(rest) + ([e] + Except(r, KeysIn(es))) == Reversed(rest) + [e] + Except(r, KeysIn(es));
  }

  lemma KeysInNext<T>(es: seq<Entry<T>>)
    requires es != [] && Distinct(Keys(es))
    ensures KeysIn(es) == KeysIn(es[1..]) + {es[0].key} && es[0].key !in KeysIn(es[1..])
  {
    assert Keys(es) == [es[0].key] + Keys(es[1..]);
  }

  lemma ReversedNext<T>(es: seq<Entry<T>>)
    requires es != []
    ensures Reversed(es) == Reversed(es[1..]) + [es[0]]
  {
  }

  /** How much of a list of equal sizes is kept depends on its length only. */
  lemma TrimCount<T>(f: Cache<T>, limits: Limits, size: Size, n: nat)
    requires Uniform(f, size) && n <= |f|
    ensures n <= |Trim(f, limits)| <==> FitsCount(n, limits, size)
  {
    var t := Trim(f, limits);
    TrimIsLongestFit(f, limits, n);
    UniformFits(f[..n], limits, size);
    assert Uniform(t, size);
    UniformFits(t, limits, size);
    if n <= |t| {
      FewerFit(n, |t|, limits, size);
    }
  }

  lemma {:induction false} WithoutPrefix<T>(f: seq<Entry<T>>, n: nat, k: Key) returns (m: nat)
    requires n <= |f| && Distinct(Keys(f))
    ensures m <= |Without(f, k)| && Without(f[..n], k) == Without(f, k)[..m] && n - 1 <= m <= n
  {
    if n == 0 {
      m := 0;
    } else if f[0].key == k {
      DistinctTail(f);
      forall e | e in f[1..] ensures e.key != k {
        var i :| 0 <= i < |f[1..]| && f[1..][i] == e;
        assert Keys(f)[0] != Keys(f)[i + 1];
      }
      WithoutAbsent(f[1..], k);
      assert f[..n][1..] == f[1..][..n - 1];
      WithoutAbsent(f[1..][..n - 1], k);
      m := n - 1;
    } else {
      DistinctTail(f);
      var q := WithoutPrefix(f[1..], n - 1, k);
      assert f[..n][1..] == f[1..][..n - 1];
      m := q + 1;
    }
  }

  /** Putting an entry into a trimmed list is putting it into the whole list: what was cut off stays cut off. */
  lemma PutTrim<T>(f: Cache<T>, e: Entry<Value<T>>, limits: Limits, size: Size)
    requires Uniform(f, size) && Distinct(Keys(f)) && e.item.size == size
    ensures Put(Trim(f, limits), e, limits) == Put(f, e, limits)
  {
    TrimIsLongestFit(f, limits, 0);
    var n := |Trim(f, limits)|;
    if n == |f| {
      assert f[..n] == f;
    } else {
      var m := WithoutPrefix(f, n, e.key);
      var whole, part := InFront(f, e), InFront(f[..n], e);
      assert part == whole[..m + 1];
      FrontUniform(f, e, size);
      FrontUniform(f[..n], e, size);
      TrimCount(f, limits, size, n + 1);
      TrimPrefix(whole, m + 1, limits, size, n);
    }
  }

  /** Trimming a list that is already cut beyond what fits changes nothing. */
  lemma TrimPrefix<T>(f: Cache<T>, k: nat, limits: Limits, size: Size, n: nat)
    requires Uniform(f, size) && n <= k <= |f| && !FitsCount(n + 1, limits, size)
    ensures Trim(f[..k], limits) == Trim(f, limits)
  {
    var a, b := Trim(f[..k], limits), Trim(f, limits);
    TrimIsLongestFit(f[..k], limits, 0);
    TrimIsLongestFit(f, limits, 0);
    TrimCount(f[..k], limits, size, |a|);
    TrimCount(f, limits, size, |b|);
    if |b| > n {
      FewerFit(n + 1, |b|, limits, size);
    }
    TrimCount(f[..k], limits, size, |b|);
    TrimCount(f, limits, size, |a|);
    assert f[..k][..|a|] == f[..|a|];
  }

  ghost predicate Puttable<T>(es: Cache<T>, size: Size) {
    Distinct(Keys(es)) && Uniform(es, size)
  }

  lemma {:induction false} PutAllTrims<T>(f: Cache<T>, es: Cache<T>, limits: Limits, size: Size)
    requires Uniform(f, size) && Distinct(Keys(f)) && Puttable(es, size)
    ensures PutAll(Trim(f, limits), es, limits) == Trim(Stacked(f, es), limits)
    decreases |es|
  {
    if es == [] {
      assert KeysIn(es) == {};
      ExceptNone(f);
      assert Stacked(f, es) == f;
    } else {
      var e, rest := es[0], es[1..];
      assert e in es && forall x :: x in rest ==> x in es;
      DistinctTail(es);
      PutTrim(f, e, limits, size);
      FrontDistinct(f, e);
      FrontUniform(f, e, size);
      StackedNext(f, es);
      PutAllTrims(InFront(f, e), rest, limits, size);
    }
  }

  // ----- The same entries in every order -----

  ghost predicate SameEntries<T>(a: seq<Entry<T>>, b: seq<Entry<T>>) {
    (forall e :: e in a ==> e in b) && (forall e :: e in b ==> e in a)
  }

  lemma StackedUniform<T>(r: Cache<T>, es: Cache<T>, size: Size)
    requires Uniform(r, size) && Uniform(es, size)
    ensures Uniform(Stacked(r, es), size)
  {
    forall e | e in Stacked(r, es) ensures e.item.size == size {
      ExceptMember(r, KeysIn(es), e);
      ReversedMember(es, e);
    }
  }

  lemma ReversedMember<T>(es: seq<Entry<T>>, e: Entry<T>)
    ensures e in Reversed(es) <==> e in es
  {
    if e in es {
      var i :| 0 <= i < |es| && es[i] == e;
      assert Reversed(es)[|es| - 1 - i] == e;
    }
  }

  /** When all the entries fit, what is kept is they and the front of the rest. */
  lemma StackedFits<T>(r: Cache<T>, es: Cache<T>, limits: Limits, size: Size)
    requires Uniform(r, size) && Uniform(es, size) && FitsCount(|es|, limits, size)
    ensures var t, rest := Trim(Stacked(r, es), limits), Except(r, KeysIn(es));
            |es| <= |t| <= |es| + |rest| && t == Reversed(es) + rest[..|t| - |es|]
  {
    var f := Stacked(r, es);
    StackedUniform(r, es, size);
    TrimIsLongestFit(f, limits, 0);
    TrimCount(f, limits, size, |es|);
  }

  /** Then the order in which they are put does not matter, nor where they were before. */
  lemma SameKept<T>(r: Cache<T>, es: Cache<T>, r2: Cache<T>, es2: Cache<T>, limits: Limits, size: Size)
    requires Uniform(r, size) && Uniform(es, size) && Uniform(r2, size) && Uniform(es2, size)
    requires |es| == |es2| && SameEntries(es, es2) && Except(r, KeysIn(es)) == Except(r2, KeysIn(es2))
    requires FitsCount(|es|, limits, size)
    ensures SameEntries(Trim(Stacked(r, es), limits), Trim(Stacked(r2, es2), limits))
  {
    var f, g := Stacked(r, es), Stacked(r2, es2);
    var t, u := Trim(f, limits), Trim(g, limits);
    StackedFits(r, es, limits, size);
    StackedFits(r2, es2, limits, size);
    StackedUniform(r, es, size);
    StackedUniform(r2, es2, size);
    TrimCount(f, limits, size, |t|);
    TrimCount(g, limits, size, |t|);
    TrimCount(f, limits, size, |u|);
    TrimCount(g, limits, size, |u|);
    assert |t| == |u|;
    forall e ensures e in Reversed(es) <==> e in Reversed(es2) {
      ReversedMember(es, e);
      ReversedMember(es2, e);
    }
  }

  /** When they do not all fit, the first one put is not kept. */
  lemma FirstNotKept<T>(r: Cache<T>, es: Cache<T>, limits: Limits, size: Size)
    requires Uniform(r, size) && Puttable(es, size) && es != [] && !FitsCount(|es|, limits, size)
    ensures es[0] !in Trim(Stacked(r, es), limits)
  {
    var f := Stacked(r, es);
    var n := |Trim(f, limits)|;
    StackedUniform(r, es, size);
    TrimIsLongestFit(f, limits, 0);
    TrimCount(f, limits, size, |es|);
    forall i | 0 <= i < n ensures f[..n][i] != es[0] {
      assert f[i] == es[|es| - 1 - i];
      assert Keys(es)[0] != Keys(es)[|es| - 1 - i];
    }
  }

  /** If anything fits, the last one is. */
  lemma LastKept<T>(r: Cache<T>, es: Cache<T>, limits: Limits, size: Size)
    requires Uniform(r, size) && Uniform(es, size) && es != [] && FitsCount(1, limits, size)
    ensures es[|es| - 1] in Trim(Stacked(r, es), limits)
  {
    var f := Stacked(r, es);
    StackedUniform(r, es, size);
    TrimIsLongestFit(f, limits, 0);
    TrimCount(f, limits, size, 1);
    assert f[..|Trim(f, limits)|][0] == es[|es| - 1];
  }

  // ----- What the loops do to the cache -----

  /** The entries a commit writes, in the order of their turns. */
  function Written<T>(c: Context<T>, values: map<Key, Value<T>>, keys: seq<Key>): (es: Cache<T>)
    requires forall k :: k in keys ==> k in values && k in c.setup.regs
    ensures Keys(es) == keys
  {
    seq(|keys|, i requires 0 <= i < |keys| => Entry(keys[i], NewItem(c, keys[i], values[keys[i]])))
  }

  lemma WrittenNext<T>(c: Context<T>, values: map<Key, Value<T>>, keys: seq<Key>)
    requires keys != [] && forall k :: k in keys ==> k in values && k in c.setup.regs
    ensures forall k :: k in keys[1..] ==> k in keys
    ensures Written(c, values, keys)[0] == Entry(keys[0], NewItem(c, keys[0], values[keys[0]]))
    ensures Written(c, values, keys)[1..] == Written(c, values, keys[1..])
  {
  }

  lemma {:induction false} WeakSetsPut<T>(c: Context<T>, values: map<Key, Value<T>>, keys: seq<Key>, w: World<T>)
    requires RunAll(c, Sets, keys, w).err.None? && PreparedAs(c, values, keys, w)
    requires forall k :: k in keys ==> k in values && k in c.setup.regs && !IsStrong(c, k)
    ensures Next(c, w, RunAll(c, Sets, keys, w)).cache == PutAll(w.cache, Written(c, values, keys), c.setup.limits)
    decreases |keys|
  {
    if keys != [] {
      var first := Stage(c, Sets, keys[0], w);
      var next := Next(c, w, first);
      assert keys[0] in keys;
      WrittenNext(c, values, keys);
      VisitCache(c, w, keys[0], values[keys[0]]);
      PerformAppend(c.setup.limits, w, first.log, RunAll(c, Sets, keys[1..], next).log);
      WeakSetsPut(c, values, keys[1..], next);
    }
  }

  lemma StrongSetPuts<T>(c: Context<T>, w: World<T>, k: Key, v: Value<T>)
    requires k in c.setup.regs && Lookup(w.later, k) == Some(v) && Stage(c, StrongSets, k, w).err.None?
    ensures var next := Next(c, w, Stage(c, StrongSets, k, w));
            next.cache == Put(w.cache, Entry(k, NewItem(c, k, v)), c.setup.limits) && next.later == w.later
  {
    ApplySetCache(c, w, k, v);
    StillHeld(c, w, ApplySet(c, k, v).log);
  }

  lemma {:induction false} StrongSetsPut<T>(c: Context<T>, values: map<Key, Value<T>>, keys: seq<Key>, w: World<T>)
    requires RunAll(c, StrongSets, keys, w).err.None?
    requires forall k :: k in keys ==> k in values && k in c.setup.regs && Lookup(w.later, k) == Some(values[k])
    ensures Next(c, w, RunAll(c, StrongSets, keys, w)).cache ==
              PutAll(w.cache, Written(c, values, keys), c.setup.limits)
    decreases |keys|
  {
    if keys != [] {
      var first := Stage(c, StrongSets, keys[0], w);
      var next := Next(c, w, first);
      assert keys[0] in keys;
      WrittenNext(c, values, keys);
      StrongSetPuts(c, w, keys[0], values[keys[0]]);
      PerformAppend(c.setup.limits, w, first.log, RunAll(c, StrongSets, keys[1..], next).log);
      StrongSetsPut(c, values, keys[1..], next);
    }
  }

  /** Nothing was held back, so the third loop does nothing. */
  lemma {:induction false} NothingHeld<T>(c: Context<T>, keys: seq<Key>, w: World<T>)
    requires forall k :: k in keys ==> Lookup(w.later, k) == None
    ensures RunAll(c, StrongSets, keys, w) == Done([])
    decreases |keys|
  {
    if keys != [] {
      assert keys[0] in keys && forall k :: k in keys[1..] ==> k in keys;
      assert Stage(c, StrongSets, keys[0], w) == Done([]);
      NothingHeld(c, keys[1..], w);
    }
  }

  /** Reading strong keys moves only them. */
  lemma {:induction false} StrongSetsTouch<T>(c: Context<T>, values: map<Key, Value<T>>, keys: seq<Key>, w: World<T>,
                                              ks: set<Key>)
    requires RunAll(c, Sets, keys, w).err.None? && PreparedAs(c, values, keys, w) && CacheOk(c.setup, w.cache)
    requires forall k :: k in keys ==> IsStrong(c, k) && k in ks
    ensures var after := Next(c, w, RunAll(c, Sets, keys, w)).cache;
            CacheOk(c.setup, after) && Except(after, ks) == Except(w.cache, ks)
    decreases |keys|
  {
    if keys != [] {
      var first := Stage(c, Sets, keys[0], w);
      var next := Next(c, w, first);
      assert keys[0] in keys && forall k :: k in keys[1..] ==> k in keys;
      VisitCache(c, w, keys[0], values[keys[0]]);
      VisitOk(c, w.cache, keys[0], values[keys[0]]);
      ExceptTouch(w.cache, keys[0], c.env.readAt(keys[0]), ks);
      PerformAppend(c.setup.limits, w, first.log, RunAll(c, Sets, keys[1..], next).log);
      StrongSetsTouch(c, values, keys[1..], next, ks);
    }
  }

  lemma ApplyDropCache<T>(c: Context<T>, w: World<T>, k: Key)
    requires ApplyDrop(c, k).err.None?
    ensures Next(c, w, ApplyDrop(c, k)).cache == Without(w.cache, k)
  {
    var e: Effect<T>, log := CacheDropped(k), ApplyDrop(c, k).log;
    assert log == [e] + log[1..];
    PerformAppend(c.setup.limits, w, [e], log[1..]);
    PerformOne(c.setup.limits, w, e);
    CacheOnlySet(c, Perform(c.setup.limits, w, e), log[1..]);
  }

  /** The keys a loop of deletes drops. */
  function DroppedBy<T>(c: Context<T>, phase: Phase, keys: seq<Key>): set<Key> {
    set k | k in keys && IsStrong(c, k) == phase.StrongDeletes?
  }

  lemma DropStage<T>(c: Context<T>, phase: Phase, w: World<T>, k: Key)
    requires (phase.Deletes? || phase.StrongDeletes?) && Stage(c, phase, k, w).err.None?
    ensures Next(c, w, Stage(c, phase, k, w)).cache ==
              if IsStrong(c, k) == phase.StrongDeletes? then Without(w.cache, k) else w.cache
  {
    var acked: seq<Effect<T>> := [Acked(k)];
    if ApplyDrop(c, k).err.None? {
      ApplyDropCache(c, w, k);
      ApplyDropSlot(c, w, k);
    }
    if phase.Deletes? {
      ByModeWorld(c, w, k, acked, ApplyDrop(c, k));
      CacheOnlySet(c, w, acked);
    }
  }

  lemma {:induction false} DropLoop<T>(c: Context<T>, phase: Phase, keys: seq<Key>, w: World<T>)
    requires (phase.Deletes? || phase.StrongDeletes?) && RunAll(c, phase, keys, w).err.None?
    ensures Next(c, w, RunAll(c, phase, keys, w)).cache == Except(w.cache, DroppedBy(c, phase, keys))
    decreases |keys|
  {
    if keys == [] {
      assert DroppedBy(c, phase, keys) == {};
      ExceptNone(w.cache);
    } else {
      var k, rest := keys[0], keys[1..];
      var first := Stage(c, phase, k, w);
      var next := Next(c, w, first);
      PerformAppend(c.setup.limits, w, first.log, RunAll(c, phase, rest, next).log);
      DropStage(c, phase, w, k);
      DropLoop(c, phase, rest, next);
      ExceptWithout(w.cache, k, DroppedBy(c, phase, rest));
      DroppedByNext(c, phase, keys);
    }
  }

  lemma DroppedByNext<T>(c: Context<T>, phase: Phase, keys: seq<Key>)
    requires keys != []
    ensures DroppedBy(c, phase, keys) ==
              if IsStrong(c, keys[0]) == phase.StrongDeletes? then DroppedBy(c, phase, keys[1..]) + {keys[0]}
              else DroppedBy(c, phase, keys[1..])
  {
    assert keys == [keys[0]] + keys[1..];
  }

  // ----- The cache after a successful commit of one kind of sets -----

  ghost predicate AllWeak<T>(c: Context<T>) {
    forall k :: k in c.queued.sets ==> !IsStrong(c, k)
  }

  ghost predicate AllStrong<T>(c: Context<T>) {
    forall k :: k in c.queued.sets ==> IsStrong(c, k)
  }

  /** A successful commit from an orderly start that prepares `values`. */
  ghost predicate Succeeds<T>(c: Context<T>, values: map<Key, Value<T>>, sets: seq<Key>, deletes: seq<Key>,
                              w: World<T>) {
    && Visits(c, sets, deletes) && Starts(w) && CacheOk(c.setup, w.cache)
    && Commit(c, sets, deletes, w).err.None? && PreparedAs(c, values, sets, w)
    && (forall k :: k in sets ==> k in values && k in c.setup.regs)
  }

  lemma DropsTogether<T>(c: Context<T>, deletes: seq<Key>)
    requires IsOrder(deletes, c.queued.deletes)
    ensures DroppedBy(c, Deletes, deletes) + DroppedBy(c, StrongDeletes, deletes) == c.queued.deletes
  {
  }

  lemma PutAllKept<T>(setup: Setup, r: Cache<T>, es: Cache<T>)
    requires CacheOk(setup, r) && Puttable(es, setup.valueSize)
    ensures PutAll(r, es, setup.limits) == Trim(Stacked(r, es), setup.limits)
  {
    PutAllTrims(r, es, setup.limits, setup.valueSize);
  }

  lemma WrittenPuttable<T>(c: Context<T>, values: map<Key, Value<T>>, keys: seq<Key>)
    requires forall k :: k in keys ==> k in values && k in c.setup.regs
    requires forall i, j :: 0 <= i < j < |keys| ==> keys[i] != keys[j]
    ensures Puttable(Written(c, values, keys), c.setup.valueSize)
  {
  }

  lemma WeakRetained<T>(c: Context<T>, values: map<Key, Value<T>>, sets: seq<Key>, deletes: seq<Key>, w: World<T>)
    requires Succeeds(c, values, sets, deletes, w) && AllWeak(c)
    ensures Next(c, w, Commit(c, sets, deletes, w)).cache ==
              Except(Trim(Stacked(w.cache, Written(c, values, sets)), c.setup.limits), c.queued.deletes)
  {
    var w1, w2, w3, w4 := CommitWorlds(c, sets, deletes, w);
    WeakSetsPut(c, values, sets, w);
    WrittenPuttable(c, values, sets);
    PutAllKept(c.setup, w.cache, Written(c, values, sets));
    DropLoop(c, Deletes, deletes, w1);
    forall k | k in sets ensures Lookup(w2.later, k) == None {
      HeldAfterLoops(c, values, sets, deletes, w, w1, w2, k);
    }
    NothingHeld(c, sets, w2);
    DropLoop(c, StrongDeletes, deletes, w3);
    ExceptTwice(w1.cache, DroppedBy(c, Deletes, deletes), DroppedBy(c, StrongDeletes, deletes));
    DropsTogether(c, deletes);
    FinishSlot(c, w4, "");
  }

  lemma StrongRetained<T>(c: Context<T>, values: map<Key, Value<T>>, sets: seq<Key>, deletes: seq<Key>, w: World<T>)
    returns (r: Cache<T>)
    requires Succeeds(c, values, sets, deletes, w) && AllStrong(c)
    ensures Uniform(r, c.setup.valueSize)
    ensures Except(r, c.queued.sets.Keys) == Except(w.cache, c.queued.sets.Keys + DroppedBy(c, Deletes, deletes))
    ensures Next(c, w, Commit(c, sets, deletes, w)).cache ==
              Except(Trim(Stacked(r, Written(c, values, sets)), c.setup.limits), DroppedBy(c, StrongDeletes, deletes))
  {
    var w1, w2, w3, w4 := CommitWorlds(c, sets, deletes, w);
    r := w2.cache;
    BeforeStrongSets(c, values, sets, deletes, w, w1, w2);
    forall k | k in sets ensures Lookup(w2.later, k) == Some(values[k]) {
      HeldAfterLoops(c, values, sets, deletes, w, w1, w2, k);
    }
    StrongSetsPut(c, values, sets, w2);
    WrittenPuttable(c, values, sets);
    PutAllKept(c.setup, w2.cache, Written(c, values, sets));
    DropLoop(c, StrongDeletes, deletes, w3);
    FinishSlot(c, w4, "");
  }

  /** What strong sets find in the cache when their values are applied. */
  lemma BeforeStrongSets<T>(c: Context<T>, values: map<Key, Value<T>>, sets: seq<Key>, deletes: seq<Key>, w: World<T>,
                            w1: World<T>, w2: World<T>)
    requires Succeeds(c, values, sets, deletes, w) && AllStrong(c)
    requires RunAll(c, Sets, sets, w).err.None? && w1 == Next(c, w, RunAll(c, Sets, sets, w))
    requires RunAll(c, Deletes, deletes, w1).err.None? && w2 == Next(c, w1, RunAll(c, Deletes, deletes, w1))
    ensures CacheOk(c.setup, w2.cache)
    ensures Except(w2.cache, c.queued.sets.Keys) == Except(w.cache, c.queued.sets.Keys + DroppedBy(c, Deletes, deletes))
  {
    var ks, dropped := c.queued.sets.Keys, DroppedBy(c, Deletes, deletes);
    StrongSetsTouch(c, values, sets, w, ks);
    DropLoop(c, Deletes, deletes, w1);
    RunAllTypical(c, Deletes, sets, deletes, deletes, w1);
    LogKeepsCacheOk(c, sets, deletes, w1, RunAll(c, Deletes, deletes, w1).log);
    ExceptTwice(w1.cache, dropped, ks);
    ExceptTwice(w1.cache, ks, dropped);
    ExceptTwice(w.cache, ks, dropped);
    assert dropped + ks == ks + dropped;
  }

  /** The keys dropped before the sets are written, and those dropped after. */
  ghost function DroppedEarly<T>(c: Context<T>): set<Key> {
    if AllWeak(c) then {} else set k | k in c.queued.deletes && !IsStrong(c, k)
  }

  ghost function DroppedLate<T>(c: Context<T>): set<Key> {
    if AllWeak(c) then c.queued.deletes else set k | k in c.queued.deletes && IsStrong(c, k)
  }

  lemma DroppedInTurn<T>(c: Context<T>, deletes: seq<Key>)
    requires IsOrder(deletes, c.queued.deletes) && !AllWeak(c)
    ensures DroppedBy(c, Deletes, deletes) == DroppedEarly(c) && DroppedBy(c, StrongDeletes, deletes) == DroppedLate(c)
  {
  }

  /** Up to the order of the written entries the cache afterwards depends on the transaction and the cache before. */
  lemma Retained<T>(c: Context<T>, values: map<Key, Value<T>>, sets: seq<Key>, deletes: seq<Key>, w: World<T>)
    returns (r: Cache<T>)
    requires Succeeds(c, values, sets, deletes, w) && (AllWeak(c) || AllStrong(c))
    ensures Uniform(r, c.setup.valueSize)
    ensures Except(r, c.queued.sets.Keys) == Except(w.cache, c.queued.sets.Keys + DroppedEarly(c))
    ensures Next(c, w, Commit(c, sets, deletes, w)).cache ==
              Except(Trim(Stacked(r, Written(c, values, sets)), c.setup.limits), DroppedLate(c))
  {
    if AllWeak(c) {
      r := w.cache;
      WeakRetained(c, values, sets, deletes, w);
      assert c.queued.sets.Keys + DroppedEarly(c) == c.queued.sets.Keys;
    } else {
      r := StrongRetained(c, values, sets, deletes, w);
      DroppedInTurn(c, deletes);
    }
  }

  // ----- The main result -----

  lemma OrderSize(keys: seq<Key>, all: set<Key>)
    requires IsOrder(keys, all)
    ensures |keys| == |all|
  {
    DistinctCount(keys, all);
    assert KeySet(keys) == all;
    KeySetSize(keys);
  }

  lemma WrittenKeys<T>(c: Context<T>, values: map<Key, Value<T>>, keys: seq<Key>, all: set<Key>)
    requires IsOrder(keys, all) && forall k :: k in keys ==> k in values && k in c.setup.regs
    ensures KeysIn(Written(c, values, keys)) == all
  {
  }

  lemma WrittenSame<T>(c: Context<T>, values: map<Key, Value<T>>, a: seq<Key>, b: seq<Key>, e: Entry<Value<T>>)
    requires (forall k :: k in a ==> k in b) && (forall k :: k in b ==> k in values && k in c.setup.regs)
    requires e in Written(c, values, a)
    ensures e in Written(c, values, b)
  {
    var i :| 0 <= i < |a| && Written(c, values, a)[i] == e;
    assert a[i] in a && a[i] in b;
    var j :| 0 <= j < |b| && b[j] == a[i];
    assert Written(c, values, b)[j] == e;
  }

  /** The order never matters to what the cache holds afterwards. */
  ghost predicate CacheNeverDiffers<T>(c: Context<T>, w: World<T>) {
    forall s, d, s2, d2 :: Visits(c, s, d) && Visits(c, s2, d2) ==>
      SameEntries(Next(c, w, Commit(c, s, d, w)).cache, Next(c, w, Commit(c, s2, d2, w)).cache)
  }

  /** Two orders write the same entries. */
  lemma WrittenAlike<T>(c: Context<T>, values: map<Key, Value<T>>, s: seq<Key>, s2: seq<Key>, all: set<Key>)
    requires IsOrder(s, all) && IsOrder(s2, all) && forall k :: k in all ==> k in values && k in c.setup.regs
    ensures |Written(c, values, s)| == |Written(c, values, s2)| == |all|
    ensures KeysIn(Written(c, values, s)) == KeysIn(Written(c, values, s2)) == all
    ensures SameEntries(Written(c, values, s), Written(c, values, s2))
    ensures Puttable(Written(c, values, s), c.setup.valueSize) && Puttable(Written(c, values, s2), c.setup.valueSize)
  {
    OrderSize(s, all);
    OrderSize(s2, all);
    WrittenKeys(c, values, s, all);
    WrittenKeys(c, values, s2, all);
    WrittenPuttable(c, values, s);
    WrittenPuttable(c, values, s2);
    forall e | e in Written(c, values, s) ensures e in Written(c, values, s2) {
      WrittenSame(c, values, s, s2, e);
    }
    forall e | e in Written(c, values, s2) ensures e in Written(c, values, s) {
      WrittenSame(c, values, s2, s, e);
    }
  }

  lemma SameExcept<T>(a: seq<Entry<T>>, b: seq<Entry<T>>, ks: set<Key>)
    requires SameEntries(a, b)
    ensures SameEntries(Except(a, ks), Except(b, ks))
  {
    forall e | e in Except(a, ks) ensures e in Except(b, ks) {
      ExceptMember(a, ks, e);
      ExceptMember(b, ks, e);
    }
    forall e | e in Except(b, ks) ensures e in Except(a, ks) {
      ExceptMember(a, ks, e);
      ExceptMember(b, ks, e);
    }
  }

  lemma FitsMeansSame<T>(c: Context<T>, values: map<Key, Value<T>>, w: World<T>,
                         s: seq<Key>, d: seq<Key>, s2: seq<Key>, d2: seq<Key>)
    requires Succeeds(c, values, s, d, w) && Succeeds(c, values, s2, d2, w) && (AllWeak(c) || AllStrong(c))
    requires FitsCount(|c.queued.sets.Keys|, c.setup.limits, c.setup.valueSize)
    ensures SameEntries(Next(c, w, Commit(c, s, d, w)).cache, Next(c, w, Commit(c, s2, d2, w)).cache)
  {
    WrittenAlike(c, values, s, s2, c.queued.sets.Keys);
    var r := Retained(c, values, s, d, w);
    var r2 := Retained(c, values, s2, d2, w);
    var es, es2 := Written(c, values, s), Written(c, values, s2);
    SameKept(r, es, r2, es2, c.setup.limits, c.setup.valueSize);
    SameExcept(Trim(Stacked(r, es), c.setup.limits), Trim(Stacked(r2, es2), c.setup.limits), DroppedLate(c));
  }

  /** The entry written for a key. */
  function EntryFor<T>(c: Context<T>, values: map<Key, Value<T>>, k: Key): Entry<Value<T>>
    requires k in values && k in c.setup.regs
  {
    Entry(k, NewItem(c, k, values[k]))
  }

  /** If the written entries do not all fit, the first one is gone. */
  lemma FirstGone<T>(c: Context<T>, values: map<Key, Value<T>>, sets: seq<Key>, deletes: seq<Key>, w: World<T>, x: Key)
    requires Succeeds(c, values, sets, deletes, w) && (AllWeak(c) || AllStrong(c)) && sets != [] && sets[0] == x
    requires !FitsCount(|c.queued.sets.Keys|, c.setup.limits, c.setup.valueSize)
    requires x in values && x in c.setup.regs
    ensures EntryFor(c, values, x) !in Next(c, w, Commit(c, sets, deletes, w)).cache
  {
    WrittenAlike(c, values, sets, sets, c.queued.sets.Keys);
    var es := Written(c, values, sets);
    var r := Retained(c, values, sets, deletes, w);
    FirstNotKept(r, es, c.setup.limits, c.setup.valueSize);
    assert es[0] == EntryFor(c, values, x);
    ExceptMember(Trim(Stacked(r, es), c.setup.limits), DroppedLate(c), es[0]);
  }

  /** If anything fits, the last one is cached. */
  lemma LastCached<T>(c: Context<T>, values: map<Key, Value<T>>, sets: seq<Key>, deletes: seq<Key>, w: World<T>, x: Key)
    requires Succeeds(c, values, sets, deletes, w) && (AllWeak(c) || AllStrong(c))
    requires sets != [] && sets[|sets| - 1] == x && FitsCount(1, c.setup.limits, c.setup.valueSize)
    requires x in values && x in c.setup.regs
    ensures EntryFor(c, values, x) in Next(c, w, Commit(c, sets, deletes, w)).cache
  {
    WrittenAlike(c, values, sets, sets, c.queued.sets.Keys);
    var es := Written(c, values, sets);
    var r := Retained(c, values, sets, deletes, w);
    LastKept(r, es, c.setup.limits, c.setup.valueSize);
    assert es[|es| - 1] == EntryFor(c, values, x) && x in sets;
    ExceptMember(Trim(Stacked(r, es), c.setup.limits), DroppedLate(c), es[|es| - 1]);
  }

  lemma IntendedSucceeds<T>(c: Context<T>, sets: seq<Key>, deletes: seq<Key>, w: World<T>)
    requires Visits(c, sets, deletes) && CacheOk(c.setup, w.cache) && Starts(w)
    requires CallsPass(c) && AllReady(c, w.cache) && AllHaveRoom(c, w.cache)
    ensures Succeeds(c, Intended(c, w.cache), sets, deletes, w)
  {
    RoomSuffices(c, sets, deletes, w);
    WritesIffPrepared(c, sets, deletes, w);
    assert forall k :: k in sets ==> SetPasses(c, k);
  }

  lemma FirstAndLast(all: set<Key>, x: Key) returns (s: seq<Key>, s2: seq<Key>)
    requires x in all
    ensures IsOrder(s, all) && s[0] == x && IsOrder(s2, all) && s2[|s2| - 1] == x
  {
    var rest := SomeOrder(all - {x});
    s, s2 := [x] + rest, rest + [x];
  }

  /** Two orders that end with different caches: one visits a key first, the other visits it last. */
  lemma CachesDiffer<T>(c: Context<T>, w: World<T>) returns (s: seq<Key>, s2: seq<Key>, d: seq<Key>)
    requires CacheOk(c.setup, w.cache) && Starts(w) && c.queued.sets.Keys !! c.queued.deletes
    requires CallsPass(c) && AllReady(c, w.cache) && AllHaveRoom(c, w.cache) && (AllWeak(c) || AllStrong(c))
    requires !FitsCount(|c.queued.sets.Keys|, c.setup.limits, c.setup.valueSize)
    requires FitsCount(1, c.setup.limits, c.setup.valueSize)
    ensures Visits(c, s, d) && Visits(c, s2, d)
    ensures !SameEntries(Next(c, w, Commit(c, s, d, w)).cache, Next(c, w, Commit(c, s2, d, w)).cache)
  {
    FewerFit(0, 1, c.setup.limits, c.setup.valueSize);
    var x :| x in c.queued.sets.Keys;
    s, s2 := FirstAndLast(c.queued.sets.Keys, x);
    d := SomeOrder(c.queued.deletes);
    IntendedSucceeds(c, s, d, w);
    IntendedSucceeds(c, s2, d, w);
    assert x in s;
    FirstGone(c, Intended(c, w.cache), s, d, w, x);
    LastCached(c, Intended(c, w.cache), s2, d, w, x);
  }

  /**
    For a commit that succeeds in every order and whose sets are all weak or all strong: every order leaves
    the same entries in the cache if and only if the cache can hold all the set keys, or nothing at all.
  */
  lemma CacheNeverDiffersExactly<T>(c: Context<T>, w: World<T>)
    requires CacheOk(c.setup, w.cache) && Starts(w) && c.queued.sets.Keys !! c.queued.deletes
    requires CallsPass(c) && AllReady(c, w.cache) && AllHaveRoom(c, w.cache) && (AllWeak(c) || AllStrong(c))
    ensures CacheNeverDiffers(c, w) <==>
            || FitsCount(|c.queued.sets.Keys|, c.setup.limits, c.setup.valueSize)
            || !FitsCount(1, c.setup.limits, c.setup.valueSize)
  {
    if FitsCount(|c.queued.sets.Keys|, c.setup.limits, c.setup.valueSize) {
      forall s, d, s2, d2 | Visits(c, s, d) && Visits(c, s2, d2)
        ensures SameEntries(Next(c, w, Commit(c, s, d, w)).cache, Next(c, w, Commit(c, s2, d2, w)).cache)
      {
        IntendedSucceeds(c, s, d, w);
        IntendedSucceeds(c, s2, d2, w);
        FitsMeansSame(c, Intended(c, w.cache), w, s, d, s2, d2);
      }
    } else if FitsCount(1, c.setup.limits, c.setup.valueSize) {
      var s, s2, d := CachesDiffer(c, w);
    } else {
      forall s, d | Visits(c, s, d) ensures Next(c, w, Commit(c, s, d, w)).cache == [] {
        CommitKeepsCacheOk(c, s, d, w);
        HoldsNothing(c.setup, Next(c, w, Commit(c, s, d, w)).cache);
      }
    }
  }
}
