/**
  Reading through the cache: how old a served value can be, and when a logically stale one is served.
  Keys have a fixed time to live and no sliding; sizes, clock readings, fetches and merges are inputs.
*/
module ReadPaths {
  import opened Options
  import opened RecencyLists
  import opened LruCaches
  import opened Merging

  datatype Registration = Registration(ttl: int, grace: int, softTimeout: int)

  /** How long the cache keeps a value: the grace period lets a stale one survive. */
  function EffectiveTtl(reg: Registration): int {
    reg.ttl + reg.grace
  }

  datatype Fetch<T> = Found(data: T, at: int) | Missing | Broken

  /** `Stored` was read from the store in this call, `Kept` came from the cache; `Outdated` comes with ErrNotFound. */
  datatype Answer<T> =
    | Stored(data: T)
    | Kept(data: T)
    | Outdated(data: T)
    | NotFound
    | StoreError
    | Unregistered

  // ----- What Get decides -----

  /** A value is logically stale once its own time to live has passed; only a grace period makes it matter. */
  predicate Stale<T>(v: Value<T>, reg: Registration, currentTtl: int, now: int) {
    reg.grace > 0 && now > v.timestamp + currentTtl
  }

  predicate GivesUp(reg: Registration, slow: bool) {
    reg.softTimeout > 0 && slow
  }

  /** The answer of `Get`; `slow` says that the fetch had not returned when the soft timeout fired. */
  function Decide<T>(reg: Registration, currentTtl: int, hasStore: bool, seen: Option<Value<T>>, now: int,
                     fetch: Fetch<T>, slow: bool): Answer<T> {
    match seen
    case Some(v) =>
      if !Stale(v, reg, currentTtl, now) || !hasStore then Kept(v.data)
      else if GivesUp(reg, slow) then Kept(v.data)
      else (match fetch
            case Found(data, _) => Stored(data)
            case Missing => Outdated(v.data)
            case Broken => Kept(v.data))
    case None =>
      if !hasStore then NotFound
      else (match fetch
            case Found(data, _) => Stored(data)
            case Missing => NotFound
            case Broken => StoreError)
  }

  // ----- How long the cache serves a value -----

  function CacheItem<T>(v: Value<T>, size: int, cachedAt: int, ttl: int): Item<Value<T>> {
    Item(v, size, if ttl > 0 then At(cachedAt + ttl) else Never)
  }

  /** The age at which a value can still be served is bounded by its time to live exactly when that is positive. */
  lemma AgeBoundedExactly<T>(v: Value<T>, size: int, cachedAt: int, ttl: int)
    ensures (forall now :: !Expired(CacheItem(v, size, cachedAt, ttl), now) ==> now - cachedAt <= ttl) <==> ttl > 0
  {
    if ttl <= 0 {
      assert !Expired(CacheItem(v, size, cachedAt, ttl), cachedAt + 1);
    }
  }

  /**
    A value can still be cached after its own time to live has passed if and only if it never expires or
    was cached, grace period included, after it was stamped. Without a grace period such a value is served
    unseen, since staleness is then not looked at.
  */
  lemma StaleWindowExactly<T>(reg: Registration, v: Value<T>, size: int, cachedAt: int)
    ensures (exists now :: && !Expired(CacheItem(v, size, cachedAt, EffectiveTtl(reg)), now)
                           && now > v.timestamp + reg.ttl)
            <==> EffectiveTtl(reg) <= 0 || v.timestamp < cachedAt + reg.grace
  {
    var item := CacheItem(v, size, cachedAt, EffectiveTtl(reg));
    var first := v.timestamp + reg.ttl + 1;
    if EffectiveTtl(reg) <= 0 || v.timestamp < cachedAt + reg.grace {
      assert !Expired(item, first);
    }
  }

  /** Every cached entry carries the expiry it was given when it was cached. */
  ghost predicate Stamped<T>(r: seq<Entry<Value<T>>>, regs: map<Key, Registration>, cachedAt: map<Key, int>) {
    forall e {:trigger e in r} :: e in r ==> EntryStamped(e, regs, cachedAt)
  }

  ghost predicate EntryStamped<T>(e: Entry<Value<T>>, regs: map<Key, Registration>, cachedAt: map<Key, int>) {
    e.key in regs && e.key in cachedAt &&
    e.item == CacheItem(e.item.value, e.item.size, cachedAt[e.key], EffectiveTtl(regs[e.key]))
  }

  lemma PutStamped<T>(r: seq<Entry<Value<T>>>, e: Entry<Value<T>>, limits: Limits, regs: map<Key, Registration>,
                      cachedAt: map<Key, int>, now: int)
    requires Stamped(r, regs, cachedAt) && EntryStamped(e, regs, cachedAt[e.key := now])
    ensures Stamped(Put(r, e, limits), regs, cachedAt[e.key := now])
  {
    forall x | x in Put(r, e, limits) ensures EntryStamped(x, regs, cachedAt[e.key := now]) {
      StepMember(r, Set(e.key, e.item), limits, x);
    }
  }

  lemma TouchStamped<T>(r: seq<Entry<Value<T>>>, k: Key, now: int, limits: Limits, regs: map<Key, Registration>,
                        cachedAt: map<Key, int>)
    requires Stamped(r, regs, cachedAt)
    ensures Stamped(Touch(r, k, now), regs, cachedAt)
  {
    forall x | x in Touch(r, k, now) ensures EntryStamped(x, regs, cachedAt) {
      StepMember(r, RecencyLists.Get(k, now), limits, x);
    }
  }

  lemma WithoutStamped<T>(r: seq<Entry<Value<T>>>, k: Key, regs: map<Key, Registration>, cachedAt: map<Key, int>)
    requires Stamped(r, regs, cachedAt)
    ensures Stamped(Without(r, k), regs, cachedAt)
  {
    forall x | x in Without(r, k) ensures EntryStamped(x, regs, cachedAt) {
      WithoutMember(r, k, x);
    }
  }

  /** What a lookup finds, unless the context ends before it returns. */
  function SeenIn<T>(r: seq<Entry<Value<T>>>, k: Key, at: int, ctx: Context): Option<Value<T>> {
    if ctx == Done || ctx == DoneInside then None else Peek(r, k, at)
  }

  /** When the caller's context ends: before the cache is read, during that read, after it, or not in this call. */
  datatype Context = Done | DoneInside | DoneLater | Live

  // ----- Reading through -----

  /** What further operations on the cache make of it. */
  ghost function After<T>(r: seq<Entry<T>>, ops: seq<Op<T>>, limits: Limits): seq<Entry<T>> {
    if ops == [] then r else Step(After(r, ops[..|ops| - 1], limits), ops[|ops| - 1], limits)
  }

  /** As long as a key is not set again, it is cached as it was or not at all. */
  lemma {:induction false} NotSetAgain<T>(r: seq<Entry<T>>, e: Entry<T>, ops: seq<Op<T>>, limits: Limits, x: Entry<T>)
    requires forall y :: y in r && y.key == e.key ==> y == e
    requires forall op :: op in ops && op.Set? ==> op.key != e.key
    requires x in After(r, ops, limits) && x.key == e.key
    ensures x == e
  {
    if ops != [] {
      var front, last := ops[..|ops| - 1], ops[|ops| - 1];
      assert last in ops && forall op :: op in front ==> op in ops;
      StepMember(After(r, front, limits), last, limits, x);
      NotSetAgain(r, e, front, limits, x);
    }
  }

  /**
    What a live `Get` has fetched, or a `Set` or a refresh has written, is read from the cache: as long as the
    key is cached and not set again, a lookup finds the value exactly until its lifetime ends, and a `Get`
    before it is stale keeps it, whatever the store would say.
  */
  lemma ReadThrough<T>(
    reg: Registration, hasStore: bool, r: seq<Entry<Value<T>>>, k: Key, v: Value<T>, size: int, storedAt: int,
    limits: Limits, ops: seq<Op<Value<T>>>, readAt: int, now: int, fetch: Fetch<T>, slow: bool, ctx: Context)
    requires ctx == DoneLater || ctx == Live
    requires forall op :: op in ops && op.Set? ==> op.key != k
    requires Has(After(Put(r, Entry(k, CacheItem(v, size, storedAt, EffectiveTtl(reg))), limits), ops, limits), k)
    ensures var e, life := Entry(k, CacheItem(v, size, storedAt, EffectiveTtl(reg))), reg.ttl + reg.grace;
            var seen := SeenIn(After(Put(r, e, limits), ops, limits), k, readAt, ctx);
            && (seen.Some? <==> life <= 0 || readAt <= storedAt + life)
            && (seen.Some? ==> seen.value == v)
            && (seen.Some? && (reg.grace <= 0 || now <= v.timestamp + reg.ttl) ==>
                  Decide(reg, reg.ttl, hasStore, seen, now, fetch, slow) == Kept(v.data))
  {
    var e := Entry(k, CacheItem(v, size, storedAt, EffectiveTtl(reg)));
    var first := Put(r, e, limits);
    forall y | y in first && y.key == k ensures y == e {
      StepMember(r, Set(k, e.item), limits, y);
    }
    NotSetAgain(first, e, ops, limits, Find(After(first, ops, limits), k));
  }

  // ----- The read and write paths over the cache -----

  class Warp<T> {
    const cache: InMemoryCache<Value<T>>
    const hasStore: bool
    const regs: map<Key, Registration>
    var currentTtl: map<Key, int>
    ghost var cachedAt: map<Key, int>

    ghost predicate Valid()
      reads this, cache
    {
      && cache.Valid()
      && currentTtl.Keys == regs.Keys
      && (forall k :: k in regs ==> currentTtl[k] == regs[k].ttl)
      && Stamped(cache.recency, regs, cachedAt)
    }

    constructor (cache: InMemoryCache<Value<T>>, hasStore: bool, regs: map<Key, Registration>)
      requires cache.Valid() && cache.recency == []
      ensures Valid() && this.cache == cache && this.hasStore == hasStore && this.regs == regs
    {
      this.cache, this.hasStore, this.regs := cache, hasStore, regs;
      currentTtl := map k | k in regs :: regs[k].ttl;
      cachedAt := map[];
    }

    /** Put a value into the cache with the effective time to live, unless the context is done. */
    method Store(k: Key, v: Value<T>, size: int, at: int, cancelled: bool)
      requires Valid() && k in regs
      modifies this`cachedAt, cache
      ensures Valid()
      ensures cache.recency == if cancelled then old(cache.recency) else Putting(old(cache.recency), k, v, size, at)
      ensures !cancelled ==>
                var life := regs[k].ttl + regs[k].grace;
                var item := Item(v, size, if life > 0 then At(at + life) else Never);
                cache.recency == Put(old(cache.recency), Entry(k, item), cache.limits)
      ensures cachedAt == if cancelled then old(cachedAt) else old(cachedAt)[k := at]
    {
      ghost var before := cache.recency;
      var ttl := regs[k].ttl + regs[k].grace;
      var ok := cache.Set(k, v, size, ttl, at, cancelled, false);
      if ok {
        PutStamped(before, Entry(k, CacheItem(v, size, at, EffectiveTtl(regs[k]))), cache.limits, regs, cachedAt, at);
        cachedAt := cachedAt[k := at];
      }
    }

    ghost function Putting(r: seq<Entry<Value<T>>>, k: Key, v: Value<T>, size: int, at: int): seq<Entry<Value<T>>>
      requires k in regs
    {
      Put(r, Entry(k, CacheItem(v, size, at, EffectiveTtl(regs[k]))), cache.limits)
    }

    /** What the cache says at time `at`: a lookup that fails counts as a miss. */
    method Look(k: Key, at: int, ctx: Context) returns (seen: Option<Value<T>>)
      requires Valid() && k in regs
      modifies cache
      ensures Valid()
      ensures seen == SeenIn(old(cache.recency), k, at, ctx)
      ensures cache.recency == if ctx == Done then old(cache.recency) else Touch(old(cache.recency), k, at)
      ensures seen.Some? ==> WithinBound(k, at)
    {
      ghost var before := cache.recency;
      TouchStamped(before, k, at, cache.limits, regs, cachedAt);
      var hit := cache.Get(k, at, ctx == Done, ctx == DoneInside);
      if hit.Hit? {
        assert EntryStamped(Find(before, k), regs, cachedAt);
        return Some(hit.value);
      }
      return None;
    }

    /** The value of `k` was cached, and if the effective time to live is positive, at most that long ago. */
    ghost predicate WithinBound(k: Key, at: int)
      reads this`cachedAt
    {
      k in regs && k in cachedAt && (EffectiveTtl(regs[k]) > 0 ==> at - cachedAt[k] <= EffectiveTtl(regs[k]))
    }

    /**
      `Get`, with the cache read at `readAt`, staleness judged at `now` and a fetched value cached at `storedAt`.
      A value kept from the cache was cached at most the effective time to live before it was read. Over a
      store, a value past its own time to live is kept exactly when there is no grace period, the soft
      timeout fired or the fetch failed.
    */
    method Get(k: Key, readAt: int, now: int, storedAt: int, size: int, fetch: Fetch<T>, slow: bool, ctx: Context)
      returns (answer: Answer<T>)
      requires Valid()
      modifies this, cache
      ensures Valid()
      ensures k !in regs ==> answer == Unregistered && cache.recency == old(cache.recency)
      ensures k in regs ==>
                var seen := SeenIn(old(cache.recency), k, readAt, ctx);
                var looked := if ctx == Done then old(cache.recency) else Touch(old(cache.recency), k, readAt);
                && answer == Decide(regs[k], regs[k].ttl, hasStore, seen, now, fetch, slow)
                && cache.recency == if !answer.Stored? || ctx != Live then looked
                                    else Putting(looked, k, Value(fetch.data, fetch.at, Nil, ""), size, storedAt)
      ensures answer.Kept? || answer.Outdated? ==> old(WithinBound(k, readAt))
      ensures k in regs ==>
                var hit := (ctx == DoneLater || ctx == Live) && old(Peek(cache.recency, k, readAt)).Some?;
                && (!hit && !hasStore ==> answer == NotFound)
                && (!hit && hasStore && fetch.Found? ==> answer == Stored(fetch.data))
                && (!hit && hasStore && fetch.Missing? ==> answer == NotFound)
                && (!hit && hasStore && fetch.Broken? ==> answer == StoreError)
      ensures k in regs && (ctx == DoneLater || ctx == Live) && old(Peek(cache.recency, k, readAt)).Some? ==>
                var v, reg := old(Peek(cache.recency, k, readAt)).value, regs[k];
                var current := !hasStore || reg.grace <= 0 || now <= v.timestamp + reg.ttl;
                var inTime := reg.softTimeout <= 0 || !slow;
                && (current || !inTime ==> answer == Kept(v.data))
                && (!current && inTime && fetch.Found? ==> answer == Stored(fetch.data))
                && (!current && inTime && fetch.Missing? ==> answer == Outdated(v.data))
                && (!current && inTime && fetch.Broken? ==> answer == Kept(v.data))
      ensures k in regs && hasStore ==>
                var seen := SeenIn(old(cache.recency), k, readAt, ctx);
                seen.Some? && now > seen.value.timestamp + regs[k].ttl ==>
                  (answer == Kept(seen.value.data) <==> regs[k].grace <= 0 || GivesUp(regs[k], slow) || fetch.Broken?)
      ensures answer.Stored? && ctx == Live ==>
                var life := regs[k].ttl + regs[k].grace;
                var item := Item(Value(fetch.data, fetch.at, Nil, ""), size,
                                 if life > 0 then At(storedAt + life) else Never);
                cache.recency == Put(Touch(old(cache.recency), k, readAt), Entry(k, item), cache.limits)
    {
      if k !in regs {
        return Unregistered;
      }
      var reg := regs[k];
      var looked := Look(k, readAt, ctx);
      if looked.Some? {
        var v := looked.value;
        if reg.grace == 0 {
          return Kept(v.data);
        }
        var ttl := currentTtl[k];
        if Stale(v, reg, ttl, now) && hasStore {
          if GivesUp(reg, slow) {
            return Kept(v.data);
          }
          match fetch {
            case Broken => return Kept(v.data);
            case Missing => return Outdated(v.data);
            case Found(data, at) =>
              Store(k, Value(data, at, Nil, ""), size, storedAt, ctx != Live);
              return Stored(data);
          }
        }
        return Kept(v.data);
      }
      if !hasStore {
        return NotFound;
      }
      match fetch {
        case Broken => return StoreError;
        case Missing => return NotFound;
        case Found(data, at) =>
          currentTtl := currentTtl[k := reg.ttl];
          Store(k, Value(data, at, Nil, ""), size, storedAt, ctx != Live);
          return Stored(data);
      }
    }

    /** A refresh left in the background, after a soft timeout or ahead of expiry, lands at some later time. */
    method Refresh(k: Key, data: T, at: int, storedAt: int, size: int)
      requires Valid() && k in regs
      modifies this, cache
      ensures Valid() && cache.recency == Putting(old(cache.recency), k, Value(data, at, Nil, ""), size, storedAt)
    {
      Store(k, Value(data, at, Nil, ""), size, storedAt, false);
    }

    /** `Set`: `merged` is the merged value; `acked` and `saved` say whether the quorum and the store went along. */
    method Set(k: Key, merged: Value<T>, readAt: int, storedAt: int, size: int, ctx: Context, acked: bool, saved: bool)
      returns (ok: bool)
      requires Valid()
      modifies this, cache
      ensures Valid()
      ensures ok <==> k in regs && ctx == Live && acked && (hasStore ==> saved)
      ensures k !in regs || ctx == Done ==> cache.recency == old(cache.recency)
      ensures k in regs && ctx != Done ==>
                var looked := Touch(old(cache.recency), k, readAt);
                cache.recency == if ctx == Live && acked then Putting(looked, k, merged, size, storedAt) else looked
    {
      if k !in regs {
        return false;
      }
      var looked := Look(k, readAt, ctx);
      if ctx == Done || ctx == DoneInside || !acked {
        return false;
      }
      Store(k, merged, size, storedAt, ctx != Live);
      if ctx != Live || (hasStore && !saved) {
        return false;
      }
      currentTtl := currentTtl[k := regs[k].ttl];
      return true;
    }

    /** An invalidation from the bus or a caller only removes. */
    method Invalidate(k: Key)
      requires Valid()
      modifies cache
      ensures Valid() && cache.recency == Without(old(cache.recency), k)
    {
      WithoutStamped(cache.recency, k, regs, cachedAt);
      var ok := cache.Invalidate(k, false);
    }
  }
}
