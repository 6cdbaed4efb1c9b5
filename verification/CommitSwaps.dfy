/**
  What a commit compares and what it writes, told from the cache lookups alone: when a commit succeeds, what
  each value becomes, and which of the keys are announced.
*/
module CommitSwaps {
  import opened Merging
  import opened Options
  import opened Commits
  import opened CommitLaws
  import opened CommitOrder
  import opened CommitCaches
  import opened CommitWaits
  import opened CommitFailures
  import opened RecencyLists

  // ----- One key -----

  /** A compared key is as expected if the lookup finds a value with the expected data. */
  ghost predicate AsExpected<T>(c: Context<T>, k: Key, seen: Option<Value<T>>) {
    k in c.queued.cas ==> seen.Some? && seen.value.data == c.queued.cas[k]
  }

  /** The queued value, merged after what was seen; a miss or a failing merge leaves it as queued. */
  ghost function MergedOver<T>(c: Context<T>, k: Key, seen: Option<Value<T>>): Value<T>
    requires k in c.queued.sets
  {
    var queued := Value(c.queued.sets[k], c.env.now(k), Nil, "");
    if seen.Some? && c.env.merge(k, seen.value, queued).Ok? then c.env.merge(k, seen.value, queued).value else queued
  }

  /** A key is cached for its registered time to live from the moment it is stored, or for good. */
  ghost predicate CachedAs<T>(c: Context<T>, k: Key, item: Item<Value<T>>) {
    && k in c.setup.regs
    && item.size == c.setup.valueSize
    && (c.setup.regs[k].effectiveTtl > 0 ==>
          item.expiresAt == At(c.env.storedAt(k) + c.setup.regs[k].effectiveTtl))
    && (c.setup.regs[k].effectiveTtl <= 0 ==> item.expiresAt == Never)
  }

  lemma PreparedExactly<T>(c: Context<T>, k: Key, seen: Option<Value<T>>)
    requires k in c.queued.sets
    ensures Prepare(c, k, seen).Ready? <==> AsExpected(c, k, seen)
    ensures Prepare(c, k, seen).Ready? ==> Prepare(c, k, seen).value == MergedOver(c, k, seen)
    ensures Prepare(c, k, seen).Refused? ==> Prepare(c, k, seen).err == ErrCasMismatch
  {
  }

  lemma ItemExactly<T>(c: Context<T>, k: Key, v: Value<T>, item: Item<Value<T>>)
    requires k in c.setup.regs
    ensures item == NewItem(c, k, v) <==> CachedAs(c, k, item) && item.value == v
  {
  }

  // ----- Which error -----

  predicate IsEventual<T>(c: Context<T>, k: Key) {
    k in c.setup.regs && c.setup.regs[k].mode.EventualDistributed?
  }

  /** The error of a local update, in the order of its calls: the cache comes before the store. */
  ghost function LocalError<T>(c: Context<T>, k: Key, cacheCall: Call, plain: Option<Call>, batched: Call):
    Option<Error>
  {
    if c.env.fails(cacheCall, k) then Some(ErrCall(cacheCall))
    else if c.setup.store.PlainStore? && plain.Some? && c.env.fails(plain.value, k) then Some(ErrCall(plain.value))
    else if c.setup.store.BatchingStore? && c.env.fails(batched, k) then Some(ErrCall(batched))
    else None
  }

  /** The error of an operation on a registered key: a strong one only waits, a weak one is applied here. */
  ghost function ModeError<T>(c: Context<T>, k: Key, local: Option<Error>): Option<Error> {
    if IsStrong(c, k) && !c.setup.bus then Some(ErrBusRequired)
    else if IsStrong(c, k) then if c.env.fails(Await, k) then Some(ErrCall(Await)) else None
    else if local.Some? then local
    else if IsEventual(c, k) && c.setup.bus && c.env.fails(Publish, k) then Some(ErrCall(Publish))
    else None
  }

  ghost function SetError<T>(c: Context<T>, k: Key, seen: Option<Value<T>>): Option<Error> {
    if k !in c.setup.regs then Some(ErrUnregistered)
    else if c.env.fails(GetCache, k) then Some(ErrCall(GetCache))
    else if !AsExpected(c, k, seen) then Some(ErrCasMismatch)
    else ModeError(c, k, LocalError(c, k, SetCache, Some(SetStore), SetBatch))
  }

  ghost function DeleteError<T>(c: Context<T>, k: Key): Option<Error> {
    if k !in c.setup.regs then Some(ErrUnregistered)
    else ModeError(c, k, LocalError(c, k, DropCache, None, DropBatch))
  }

  lemma SetErrorsExactly<T>(c: Context<T>, k: Key, v: Value<T>)
    requires k in c.setup.regs
    ensures ApplySet(c, k, v).err == LocalError(c, k, SetCache, Some(SetStore), SetBatch)
  {
  }

  lemma DropErrorsExactly<T>(c: Context<T>, k: Key)
    ensures ApplyDrop(c, k).err == LocalError(c, k, DropCache, None, DropBatch)
  {
  }

  lemma ModeErrorsExactly<T>(c: Context<T>, k: Key, acked: seq<Effect<T>>, applied: Out<T>)
    requires k in c.setup.regs
    ensures ByMode(c, k, acked, applied).err == ModeError(c, k, applied.err)
  {
  }

  /** The error of a key's turn, in the order of the checks and calls. */
  lemma TurnErrors<T>(c: Context<T>, k: Key, w: World<T>)
    ensures k in c.queued.sets ==>
              Stage(c, Sets, k, w).err == SetError(c, k, Peek(w.cache, k, c.env.readAt(k)))
    ensures Stage(c, Deletes, k, w).err == DeleteError(c, k)
  {
    if k in c.setup.regs {
      DropErrorsExactly(c, k);
      ModeErrorsExactly(c, k, [Acked(k)], ApplyDrop(c, k));
      if k in c.queued.sets {
        var seen := Peek(w.cache, k, c.env.readAt(k));
        var v := MergedOver(c, k, seen);
        PreparedExactly(c, k, seen);
        SetErrorsExactly(c, k, v);
        ModeErrorsExactly(c, k, [Acked(k), Held(k, v)], ApplySet(c, k, v));
      }
    }
  }

  // ----- The cache at a key's turn -----

  /** What the first loop's lookup of `k` finds when the keys before it have been visited. */
  ghost function SeenAt<T>(c: Context<T>, keys: seq<Key>, w: World<T>, k: Key): Option<Value<T>>
    decreases |keys|
  {
    if keys == [] || keys[0] == k then Peek(w.cache, k, c.env.readAt(k))
    else SeenAt(c, keys[1..], Next(c, w, Stage(c, Sets, keys[0], w)), k)
  }

  ghost predicate AllAsExpected<T>(c: Context<T>, keys: seq<Key>, w: World<T>) {
    forall k :: k in keys ==> AsExpected(c, k, SeenAt(c, keys, w, k))
  }

  lemma {:induction false} PreparedAtTurn<T>(c: Context<T>, values: map<Key, Value<T>>, keys: seq<Key>, w: World<T>,
                                             k: Key)
    requires PreparedAs(c, values, keys, w) && k in keys
    ensures k in c.queued.sets && k in values
    ensures AsExpected(c, k, SeenAt(c, keys, w, k)) && values[k] == MergedOver(c, k, SeenAt(c, keys, w, k))
    decreases |keys|
  {
    if keys[0] == k {
      PreparedExactly(c, k, Peek(w.cache, k, c.env.readAt(k)));
    } else {
      PreparedAtTurn(c, values, keys[1..], Next(c, w, Stage(c, Sets, keys[0], w)), k);
    }
  }

  /** Later keys see the same in the rest of the loop. */
  lemma SeenLater<T>(c: Context<T>, keys: seq<Key>, w: World<T>)
    requires keys != [] && keys[0] !in keys[1..] && AllAsExpected(c, keys, w)
    ensures AllAsExpected(c, keys[1..], Next(c, w, Stage(c, Sets, keys[0], w)))
  {
    var rest, next := keys[1..], Next(c, w, Stage(c, Sets, keys[0], w));
    forall k | k in rest ensures AsExpected(c, k, SeenAt(c, rest, next, k)) {
      assert k in keys && SeenAt(c, keys, w, k) == SeenAt(c, rest, next, k);
    }
  }

  lemma {:induction false} ExpectedPasses<T>(c: Context<T>, keys: seq<Key>, w: World<T>)
    requires forall i, j :: 0 <= i < j < |keys| ==> keys[i] != keys[j]
    requires forall k :: k in keys ==> k in c.queued.sets && SetPasses(c, k)
    requires AllAsExpected(c, keys, w)
    ensures RunAll(c, Sets, keys, w).err.None?
    decreases |keys|
  {
    if keys != [] {
      var x := keys[0];
      assert x in keys && x !in keys[1..] && forall k :: k in keys[1..] ==> k in keys;
      assert SeenAt(c, keys, w, x) == Peek(w.cache, x, c.env.readAt(x));
      PreparedExactly(c, x, Peek(w.cache, x, c.env.readAt(x)));
      SetStagePasses(c, x, w.cache);
      SeenLater(c, keys, w);
      ExpectedPasses(c, keys[1..], Next(c, w, Stage(c, Sets, x, w)));
    }
  }

  // ----- When a commit succeeds -----

  /**
    A commit succeeds if and only if every key is registered, no call fails, and each compared key is found
    with the expected data when its turn comes.
  */
  lemma CommitSucceedsExactly<T>(c: Context<T>, sets: seq<Key>, deletes: seq<Key>, w: World<T>)
    requires Visits(c, sets, deletes) && Starts(w)
    ensures Commit(c, sets, deletes, w).err.None? <==> CallsPass(c) && AllAsExpected(c, sets, w)
  {
    if Commit(c, sets, deletes, w).err.None? {
      var w1, w2, w3, w4 := CommitWorlds(c, sets, deletes, w);
      SuccessMeansCallsPass(c, sets, deletes, w);
      PassedMeansPrepared(c, sets, w);
      forall k | k in sets ensures AsExpected(c, k, SeenAt(c, sets, w, k)) {
        PreparedAtTurn(c, ValuesOf(c, sets, w), sets, w, k);
      }
    }
    if CallsPass(c) && AllAsExpected(c, sets, w) {
      ExpectedPasses(c, sets, w);
      PassedMeansPrepared(c, sets, w);
      CommitPasses(c, ValuesOf(c, sets, w), sets, deletes, w);
    }
  }

  lemma {:induction false} MismatchIsTheError<T>(c: Context<T>, keys: seq<Key>, w: World<T>)
    requires forall k :: k in keys ==> k in c.queued.sets && SetPasses(c, k)
    requires RunAll(c, Sets, keys, w).err.Some?
    ensures RunAll(c, Sets, keys, w).err == Some(ErrCasMismatch)
    decreases |keys|
  {
    var x := keys[0];
    assert x in keys && forall k :: k in keys[1..] ==> k in keys;
    SetStagePasses(c, x, w.cache);
    PreparedExactly(c, x, Peek(w.cache, x, c.env.readAt(x)));
    if SetStage(c, x, w.cache).err.None? {
      MismatchIsTheError(c, keys[1..], Next(c, w, Stage(c, Sets, x, w)));
    }
  }

  /** With no call failing, the only error is the failed comparison. */
  lemma OnlyMismatchFails<T>(c: Context<T>, sets: seq<Key>, deletes: seq<Key>, w: World<T>)
    requires Visits(c, sets, deletes) && Starts(w) && CallsPass(c) && Commit(c, sets, deletes, w).err.Some?
    ensures Commit(c, sets, deletes, w).err == Some(ErrCasMismatch)
  {
    if RunAll(c, Sets, sets, w).err.None? {
      PassedMeansPrepared(c, sets, w);
      CommitPasses(c, ValuesOf(c, sets, w), sets, deletes, w);
      assert false;
    } else {
      MismatchIsTheError(c, sets, w);
    }
  }

  // ----- What was cached at the start -----

  lemma {:induction false} SeenIsOriginal<T>(c: Context<T>, base: Cache<T>, keys: seq<Key>, w: World<T>, k: Key)
    requires Distinct(Keys(base)) && Distinct(Keys(w.cache)) && Original(base, w.cache, keys) && k in keys
    requires forall i, j :: 0 <= i < j < |keys| ==> keys[i] != keys[j]
    requires (forall x :: x in keys ==> x in c.queued.sets) && RunAll(c, Sets, keys, w).err.None?
    ensures var seen := SeenAt(c, keys, w, k); seen == None || seen == Peek(base, k, c.env.readAt(k))
    decreases |keys|
  {
    var x, left := keys[0], keys[1..];
    if x == k {
      OriginalPeek(base, w.cache, keys, k, c.env.readAt(k));
    } else {
      assert x in keys && x !in left && forall y :: y in left ==> y in keys;
      var next := Next(c, w, Stage(c, Sets, x, w));
      VisitIsOriginal(c, base, left, w, x);
      SeenIsOriginal(c, base, left, next, k);
    }
  }

  lemma VisitIsOriginal<T>(c: Context<T>, base: Cache<T>, left: seq<Key>, w: World<T>, x: Key)
    requires Distinct(Keys(w.cache)) && Original(base, w.cache, left) && x !in left
    requires x in c.queued.sets && SetStage(c, x, w.cache).err.None?
    ensures var next := Next(c, w, Stage(c, Sets, x, w)).cache; Distinct(Keys(next)) && Original(base, next, left)
  {
    var v := PreparedIn(c, x, w.cache).value;
    VisitCache(c, w, x, v);
    var op: Op<Value<T>> := if IsStrong(c, x) then Get(x, c.env.readAt(x)) else Set(x, NewItem(c, x, v));
    StepDistinct(w.cache, op, c.setup.limits);
    forall e | e in Step(w.cache, op, c.setup.limits) && e.key in left ensures e in base {
      StepMember(w.cache, op, c.setup.limits, e);
    }
  }

  /** A successful commit found every compared key cached with the expected data before it began. */
  lemma SuccessMeansCompared<T>(c: Context<T>, sets: seq<Key>, deletes: seq<Key>, w: World<T>, k: Key)
    requires Visits(c, sets, deletes) && Starts(w) && Distinct(Keys(w.cache))
    requires Commit(c, sets, deletes, w).err.None? && k in c.queued.sets && k in c.queued.cas
    ensures var seen := Peek(w.cache, k, c.env.readAt(k)); seen.Some? && seen.value.data == c.queued.cas[k]
  {
    CommitSucceedsExactly(c, sets, deletes, w);
    var w1, w2, w3, w4 := CommitWorlds(c, sets, deletes, w);
    SeenIsOriginal(c, w.cache, sets, w, k);
    assert AsExpected(c, k, SeenAt(c, sets, w, k));
  }

  ghost predicate ReadyAtStart<T>(c: Context<T>, base: Cache<T>) {
    forall k :: k in c.queued.sets && k in c.queued.cas ==>
      var seen := Peek(base, k, c.env.readAt(k)); seen.Some? && seen.value.data == c.queued.cas[k]
  }

  /** With no call failing, some order succeeds if and only if each compared key is cached as expected. */
  lemma SomeOrderSucceedsExactly<T>(c: Context<T>, w: World<T>)
    requires CacheOk(c.setup, w.cache) && Starts(w) && c.queued.sets.Keys !! c.queued.deletes && CallsPass(c)
    ensures (exists sets, deletes :: Visits(c, sets, deletes) && Commit(c, sets, deletes, w).err.None?) <==>
            ReadyAtStart(c, w.cache)
  {
    if sets, deletes :| Visits(c, sets, deletes) && Commit(c, sets, deletes, w).err.None? {
      forall k | k in c.queued.sets && k in c.queued.cas
        ensures var seen := Peek(w.cache, k, c.env.readAt(k)); seen.Some? && seen.value.data == c.queued.cas[k]
      {
        SuccessMeansCompared(c, sets, deletes, w, k);
      }
    }
    if ReadyAtStart(c, w.cache) {
      forall k | k in c.queued.sets ensures PreparedIn(c, k, w.cache).Ready? {
        PreparedExactly(c, k, Peek(w.cache, k, c.env.readAt(k)));
      }
      var sets, deletes := CachedFirstWorks(c, w);
      assert Visits(c, sets, deletes) && Commit(c, sets, deletes, w).err.None?;
    }
  }

  // ----- Comparing one key -----

  /**
    Swapping one key, with no call failing: it succeeds exactly when the cached data is the expected one, and
    otherwise leaves the store and the cached values as they were.
  */
  lemma SwapExactly<T>(c: Context<T>, sets: seq<Key>, deletes: seq<Key>, w: World<T>, k: Key)
    requires Visits(c, sets, deletes) && Starts(w) && CallsPass(c) && Distinct(Keys(w.cache))
    requires c.queued.sets.Keys == {k} && c.queued.deletes == {} && k in c.queued.cas
    ensures var out, seen := Commit(c, sets, deletes, w), Peek(w.cache, k, c.env.readAt(k));
            && (out.err.None? <==> seen.Some? && seen.value.data == c.queued.cas[k])
            && (out.err.Some? ==> out.err == Some(ErrCasMismatch) && Untouched(c, w, Next(c, w, out)))
  {
    OneKey(sets, c.queued.sets.Keys, k);
    CommitSucceedsExactly(c, sets, deletes, w);
    assert SeenAt(c, sets, w, k) == Peek(w.cache, k, c.env.readAt(k));
    if Commit(c, sets, deletes, w).err.Some? {
      OnlyMismatchFails(c, sets, deletes, w);
      RefusedReadsOnly(c, sets, deletes, w, k);
      CommitTypical(c, sets, deletes, w);
      QuietUntouched(c, sets, deletes, w, Commit(c, sets, deletes, w).log);
    }
  }

  lemma RefusedReadsOnly<T>(c: Context<T>, sets: seq<Key>, deletes: seq<Key>, w: World<T>, k: Key)
    requires sets == [k] && k in c.queued.sets && SetPasses(c, k)
    requires !AsExpected(c, k, Peek(w.cache, k, c.env.readAt(k)))
    requires c.setup.store.BatchingStore? ==> !c.env.fails(OpenBatch, "")
    ensures Commit(c, sets, deletes, w).log == [CacheRead(k, c.env.readAt(k))]
    ensures Quiet(Commit(c, sets, deletes, w).log)
  {
    PreparedExactly(c, k, Peek(w.cache, k, c.env.readAt(k)));
    assert Stage(c, Sets, k, w).log == [CacheRead(k, c.env.readAt(k))];
  }

  // ----- What is written -----

  /**
    For every set key, and no other, a successful commit writes into the cache the queued value merged after
    what the lookup at its turn found, for the registered time to live.
  */
  lemma WrittenExactly<T>(c: Context<T>, sets: seq<Key>, deletes: seq<Key>, w: World<T>, k: Key,
                          item: Item<Value<T>>)
    requires Visits(c, sets, deletes) && Starts(w) && Commit(c, sets, deletes, w).err.None?
    ensures CacheSet(k, item) in Commit(c, sets, deletes, w).log <==>
              && k in c.queued.sets && CachedAs(c, k, item)
              && item.value == MergedOver(c, k, SeenAt(c, sets, w, k))
  {
    var w1, w2, w3, w4 := CommitWorlds(c, sets, deletes, w);
    var values := ValuesOf(c, sets, w);
    PassedMeansPrepared(c, sets, w);
    CommitWrites(c, values, sets, deletes, w, k, item);
    if k in c.queued.sets {
      PreparedAtTurn(c, values, sets, w, k);
      PassedMeansRegistered(c, sets, w, k);
      ItemExactly(c, k, values[k], item);
    }
  }

  /** What a store ends with, key by key. */
  ghost predicate StoredAs<T>(c: Context<T>, k: Key, seen: Option<Value<T>>, before: Option<T>, after: Option<T>) {
    if c.setup.store.NoStore? then after == before
    else if k in c.queued.sets then after == Some(MergedOver(c, k, seen).data)
    else if k in c.queued.deletes && c.setup.store.BatchingStore? then after == None
    else after == before
  }

  /** The store ends with the data of what was written, without what was deleted in a batch, and otherwise as it was. */
  lemma StoredExactly<T>(c: Context<T>, sets: seq<Key>, deletes: seq<Key>, w: World<T>, k: Key)
    requires Visits(c, sets, deletes) && Starts(w) && Commit(c, sets, deletes, w).err.None?
    ensures StoredAs(c, k, SeenAt(c, sets, w, k), Lookup(w.store, k),
                     Lookup(Next(c, w, Commit(c, sets, deletes, w)).store, k))
  {
    var w1, w2, w3, w4 := CommitWorlds(c, sets, deletes, w);
    var values := ValuesOf(c, sets, w);
    PassedMeansPrepared(c, sets, w);
    StoreResult(c, values, sets, deletes, w, k);
    if k in c.queued.sets {
      PreparedAtTurn(c, values, sets, w, k);
    }
  }

  // ----- What is announced -----

  /** A turn of the first two loops announces an eventual key, and awaits a quorum for a strong one. */
  lemma StageAnnounces<T>(c: Context<T>, phase: Phase, x: Key, w: World<T>, k: Key)
    requires Stage(c, phase, x, w).err.None? && (phase.Sets? ==> x in c.queued.sets)
    ensures var log, first := Stage(c, phase, x, w).log, phase.Sets? || phase.Deletes?;
            && (Published(k) in log <==> k == x && first && IsEventual(c, k) && c.setup.bus)
            && (Acked(k) in log <==> k == x && first && IsStrong(c, k))
  {
    if x in c.setup.regs {
      match phase
      case Sets => SetAnnounces(c, x, PreparedIn(c, x, w.cache).value, k);
      case Deletes => ModeAnnounces(c, x, [Acked(x)], ApplyDrop(c, x), k);
      case StrongSets =>
      case StrongDeletes =>
    }
  }

  lemma ModeAnnounces<T>(c: Context<T>, x: Key, acked: seq<Effect<T>>, applied: Out<T>, k: Key)
    requires x in c.setup.regs && ByMode(c, x, acked, applied).err.None?
    requires Published(k) !in applied.log && Acked(k) !in applied.log && Published(k) !in acked
    ensures var log := ByMode(c, x, acked, applied).log;
            && (Published(k) in log <==> k == x && IsEventual(c, k) && c.setup.bus)
            && (Acked(k) in log <==> Acked(k) in acked && IsStrong(c, x))
  {
    if c.setup.regs[x].mode.EventualDistributed? && c.setup.bus {
      var log := ByMode(c, x, acked, applied).log;
      assert log == applied.log + [Published(x)] && log[|applied.log|] == Published(x);
    }
  }

  lemma SetAnnounces<T>(c: Context<T>, x: Key, v: Value<T>, k: Key)
    requires x in c.setup.regs && WritePrepared(c, x, Ready(v)).err.None?
    ensures var log := WritePrepared(c, x, Ready(v)).log;
            && (Published(k) in log <==> k == x && IsEventual(c, k) && c.setup.bus)
            && (Acked(k) in log <==> k == x && IsStrong(c, k))
  {
    var acked: seq<Effect<T>> := [Acked(x), Held(x, v)];
    assert Acked(k) in acked <==> k == x by {
      assert acked[0] == Acked(x);
    }
    ModeAnnounces(c, x, acked, ApplySet(c, x, v), k);
  }

  lemma {:induction false} LoopAnnounces<T>(c: Context<T>, phase: Phase, keys: seq<Key>, w: World<T>, k: Key)
    requires RunAll(c, phase, keys, w).err.None? && (phase.Sets? ==> forall x :: x in keys ==> x in c.queued.sets)
    ensures var log, first := RunAll(c, phase, keys, w).log, phase.Sets? || phase.Deletes?;
            && (Published(k) in log <==> k in keys && first && IsEventual(c, k) && c.setup.bus)
            && (Acked(k) in log <==> k in keys && first && IsStrong(c, k))
    decreases |keys|
  {
    if keys != [] {
      var x, rest := keys[0], keys[1..];
      assert keys == [x] + rest;
      StageAnnounces(c, phase, x, w, k);
      LoopAnnounces(c, phase, rest, Next(c, w, Stage(c, phase, x, w)), k);
    }
  }

  lemma InOne<E>(whole: seq<E>, a: seq<E>, b: seq<E>, d: seq<E>, f: seq<E>, g: seq<E>, e: E)
    requires whole == a + (b + (d + (f + g))) && e !in g
    ensures e in whole <==> e in a || e in b || e in d || e in f
  {
  }

  /**
    A successful commit announces exactly its eventual keys, if there is a bus, and has a quorum for exactly its
    strong ones.
  */
  lemma AnnouncedExactly<T>(c: Context<T>, sets: seq<Key>, deletes: seq<Key>, w: World<T>, k: Key)
    requires Visits(c, sets, deletes) && Starts(w) && Commit(c, sets, deletes, w).err.None?
    ensures var log, queued := Commit(c, sets, deletes, w).log, k in c.queued.sets || k in c.queued.deletes;
            && (Published(k) in log <==> queued && IsEventual(c, k) && c.setup.bus)
            && (Acked(k) in log <==> queued && IsStrong(c, k))
  {
    var w1, w2, w3, w4 := CommitWorlds(c, sets, deletes, w);
    CommitLog(c, sets, deletes, w, w1, w2, w3);
    var whole := Commit(c, sets, deletes, w).log;
    var a, b := RunAll(c, Sets, sets, w).log, RunAll(c, Deletes, deletes, w1).log;
    var d, f := RunAll(c, StrongSets, sets, w2).log, RunAll(c, StrongDeletes, deletes, w3).log;
    InOne(whole, a, b, d, f, Finish(c).log, Published(k));
    InOne(whole, a, b, d, f, Finish(c).log, Acked(k));
    LoopAnnounces(c, Sets, sets, w, k);
    LoopAnnounces(c, Deletes, deletes, w1, k);
    LoopAnnounces(c, StrongSets, sets, w2, k);
    LoopAnnounces(c, StrongDeletes, deletes, w3, k);
  }
}
