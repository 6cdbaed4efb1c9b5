/**
  The in-memory cache as it is built: a map of items, a list of keys in order of use and a running
  total of sizes, updated in place. Every method is proved against the recency list.
*/
module LruCaches {
  import opened RecencyLists

  // ----- The map and the list of keys that represent a recency list -----

  /** The map holds exactly the entries of the list. */
  ghost predicate Agrees<T>(items: map<Key, Item<T>>, r: seq<Entry<T>>) {
    && (forall k {:trigger Has(r, k)} :: k in items ==> Has(r, k))
    && (forall e :: e in r ==> e.key in items && items[e.key] == e.item)
  }

  ghost predicate Represents<T>(order: seq<Key>, items: map<Key, Item<T>>, r: seq<Entry<T>>) {
    order == Keys(r) && Distinct(order) && Agrees(items, r)
  }

  /** `list.Remove` of the element that holds `k`. */
  function RemoveKey(order: seq<Key>, k: Key): seq<Key> {
    if order == [] then []
    else if order[0] == k then RemoveKey(order[1..], k)
    else [order[0]] + RemoveKey(order[1..], k)
  }

  lemma {:induction false} RemoveKeyIsWithout<T>(r: seq<Entry<T>>, k: Key)
    ensures RemoveKey(Keys(r), k) == Keys(Without(r, k))
  {
    if r != [] {
      assert Keys(r)[1..] == Keys(r[1..]);
      RemoveKeyIsWithout(r[1..], k);
      var rest := Without(r[1..], k);
      assert Keys([r[0]] + rest) == [r[0].key] + Keys(rest);
    }
  }

  lemma PresentIffHas<T>(items: map<Key, Item<T>>, r: seq<Entry<T>>, k: Key)
    requires Agrees(items, r)
    ensures k in items <==> Has(r, k)
    ensures k in items ==> Find(r, k) == Entry(k, items[k])
  {
    if Has(r, k) {
      assert Find(r, k) in r;
    }
  }

  lemma RemovedAgrees<T>(items: map<Key, Item<T>>, r: seq<Entry<T>>, k: Key)
    requires Agrees(items, r)
    ensures Agrees(items - {k}, Without(r, k))
  {
    var rest, left := Without(r, k), items - {k};
    forall x | x in left ensures Has(rest, x) {
      PresentIffHas(items, r, x);
      WithoutMember(r, k, Entry(x, items[x]));
      var i :| 0 <= i < |rest| && rest[i] == Entry(x, items[x]);
    }
    forall e | e in rest ensures e.key in left && left[e.key] == e.item {
      WithoutMember(r, k, e);
    }
  }

  lemma RemovedRepresents<T>(order: seq<Key>, items: map<Key, Item<T>>, r: seq<Entry<T>>, k: Key)
    requires Represents(order, items, r)
    ensures Represents(RemoveKey(order, k), items - {k}, Without(r, k))
    ensures Memory(Without(r, k)) == Memory(r) - if k in items then items[k].size else 0
  {
    RemoveKeyIsWithout(r, k);
    WithoutDistinct(r, k);
    PresentIffHas(items, r, k);
    RemovedAgrees(items, r, k);
    MemoryWithout(r, k);
  }

  lemma MemoryWithout<T>(r: seq<Entry<T>>, k: Key)
    requires Distinct(Keys(r))
    ensures Memory(Without(r, k)) == Memory(r) - if Has(r, k) then Find(r, k).item.size else 0
  {
    if Has(r, k) {
      var i :| 0 <= i < |r| && r[i].key == k;
      FindUnique(r, r[i]);
      WithoutAt(r, i);
      MemoryCut(r, i);
    } else {
      WithoutAbsent(r, k);
    }
  }

  lemma KeysFront<T>(e: Entry<T>, r: seq<Entry<T>>)
    ensures Keys([e] + r) == [e.key] + Keys(r)
  {
  }

  lemma FrontAgrees<T>(items: map<Key, Item<T>>, r: seq<Entry<T>>, e: Entry<T>)
    requires Agrees(items, r) && !Has(r, e.key)
    ensures Agrees(items[e.key := e.item], [e] + r)
  {
    var f, more := [e] + r, items[e.key := e.item];
    forall k | k in more ensures Has(f, k) {
      if k == e.key {
        assert f[0].key == k;
      } else {
        assert Has(r, k);
        var i :| 0 <= i < |r| && r[i].key == k;
        assert f[i + 1].key == k;
      }
    }
    forall x | x in f ensures x.key in more && more[x.key] == x.item {
      if x != e {
        var i :| 0 <= i < |r| && r[i] == x;
      }
    }
  }

  lemma FrontRepresents<T>(order: seq<Key>, items: map<Key, Item<T>>, r: seq<Entry<T>>, e: Entry<T>)
    requires Represents(order, items, r) && !Has(r, e.key)
    ensures Represents([e.key] + order, items[e.key := e.item], [e] + r)
    ensures Memory([e] + r) == Memory(r) + e.item.size
  {
    KeysFront(e, r);
    FrontAgrees(items, r, e);
    WithoutAbsent(r, e.key);
    FrontDistinct(r, e);
    assert ([e] + r)[1..] == r;
  }

  lemma KeysPrefix<T>(r: seq<Entry<T>>, n: nat)
    requires n <= |r|
    ensures Keys(r[..n]) == Keys(r)[..n]
  {
  }

  /** Dropping the tail is removing its key. */
  lemma LastIsWithout<T>(r: seq<Entry<T>>)
    requires r != [] && Distinct(Keys(r))
    ensures r[..|r| - 1] == Without(r, r[|r| - 1].key)
  {
    var n := |r| - 1;
    WithoutAt(r, n);
    assert r[..n] + r[n + 1..] == r[..n];
  }

  lemma LastRepresents<T>(order: seq<Key>, items: map<Key, Item<T>>, r: seq<Entry<T>>)
    requires Represents(order, items, r) && r != []
    ensures var n := |r| - 1;
            && Represents(order[..n], items - {order[n]}, r[..n])
            && order[n] in items
            && Memory(r[..n]) == Memory(r) - items[order[n]].size
  {
    var n := |r| - 1;
    var k := r[n].key;
    KeysPrefix(r, n);
    LastIsWithout(r);
    assert r[n] in r;
    RemovedRepresents(order, items, r, k);
    PresentIffHas(items, r, k);
  }

  /** The map holds exactly as many items as the list has keys. */
  lemma {:induction false} CountsAgree<T>(order: seq<Key>, items: map<Key, Item<T>>, r: seq<Entry<T>>)
    requires Represents(order, items, r)
    ensures |items| == |r|
    decreases |r|
  {
    if r == [] {
      assert forall k :: k in items ==> Has(r, k);
      assert items.Keys == {};
    } else {
      var n := |r| - 1;
      LastRepresents(order, items, r);
      CountsAgree(order[..n], items - {order[n]}, r[..n]);
      assert items.Keys == (items - {order[n]}).Keys + {order[n]};
    }
  }

  /** Dropping the tail of a list that does not fit does not change what it is trimmed to. */
  lemma TrimStep<T>(r: seq<Entry<T>>, limits: Limits)
    requires !Fits(r, limits)
    ensures r != [] && Trim(r, limits) == Trim(r[..|r| - 1], limits)
  {
  }

  datatype Lookup<T> = Hit(value: T) | Miss | Cancelled

  class InMemoryCache<T> {
    const limits: Limits
    var items: map<Key, Item<T>>
    var order: seq<Key>
    var currentMemory: int
    ghost var recency: seq<Entry<T>>

    ghost predicate Accounted()
      reads this
    {
      Represents(order, items, recency) && currentMemory == Memory(recency)
    }

    ghost predicate Valid()
      reads this
    {
      Accounted() && CountFits(recency, limits)
    }

    constructor (maxEntries: int, maxMemory: int)
      ensures Valid() && limits == Limits(maxEntries, maxMemory) && recency == []
    {
      limits := Limits(maxEntries, maxMemory);
      items, order, currentMemory, recency := map[], [], 0, [];
    }

    method Remove(k: Key)
      requires Accounted() && k in items
      modifies this
      ensures Accounted() && recency == Without(old(recency), k) && |recency| == old(|recency|) - 1
      ensures items == old(items) - {k}
    {
      RemovedRepresents(order, items, recency, k);
      PresentIffHas(items, recency, k);
      WithoutLength(recency, k);
      order := RemoveKey(order, k);
      currentMemory := currentMemory - items[k].size;
      items := items - {k};
      recency := Without(recency, k);
    }

    method Front(k: Key, item: Item<T>)
      requires Accounted() && k !in items
      modifies this
      ensures Accounted() && recency == [Entry(k, item)] + old(recency)
    {
      PresentIffHas(items, recency, k);
      FrontRepresents(order, items, recency, Entry(k, item));
      order := [k] + order;
      currentMemory := currentMemory + item.size;
      items := items[k := item];
      recency := [Entry(k, item)] + recency;
    }

    /** Remove the least recently used entry. */
    method Evict()
      requires Accounted() && recency != []
      modifies this
      ensures Accounted() && recency == old(recency[..|recency| - 1])
    {
      LastRepresents(order, items, recency);
      var n := |order| - 1;
      var k := order[n];
      order := order[..n];
      currentMemory := currentMemory - items[k].size;
      items := items - {k};
      recency := recency[..n];
    }

    /** Look up a key at time `now`; the flags say whether the context is done on entry and on exit. */
    method Get(k: Key, now: int, doneBefore: bool, doneAfter: bool) returns (r: Lookup<T>)
      requires Valid()
      modifies this
      ensures Valid()
      ensures recency == if doneBefore then old(recency) else Touch(old(recency), k, now)
      ensures r.Cancelled? <==>
                doneBefore || (doneAfter && old(Has(recency, k) && !Expired(Find(recency, k).item, now)))
      ensures r.Hit? <==> !doneBefore && !doneAfter && old(Has(recency, k) && !Expired(Find(recency, k).item, now))
      ensures r.Hit? ==> r.value == old(Find(recency, k)).item.value
      ensures r.Hit? <==>
                && !doneBefore && !doneAfter && k in old(items)
                && (old(items)[k].expiresAt.At? ==> now <= old(items)[k].expiresAt.time)
      ensures r.Hit? ==> r.value == old(items)[k].value
    {
      if doneBefore {
        return Cancelled;
      }
      PresentIffHas(items, recency, k);
      if k !in items {
        return Miss;
      }
      var it := items[k];
      Remove(k);
      if Expired(it, now) {
        return Miss;
      }
      Front(k, it);
      if doneAfter {
        return Cancelled;
      }
      return Hit(it.value);
    }

    /** Store a value; `size` is its estimated size and `now` the clock read before the lock is taken. */
    method Set(k: Key, value: T, size: int, ttl: int, now: int, doneBefore: bool, doneLocked: bool) returns (ok: bool)
      requires Valid()
      modifies this
      ensures Valid()
      ensures ok == !(doneBefore || doneLocked)
      ensures ok ==>
                var item := Item(value, size, if ttl > 0 then At(now + ttl) else Never);
                recency == Put(old(recency), Entry(k, item), limits)
      ensures !ok ==> recency == old(recency)
    {
      if doneBefore || doneLocked {
        return false;
      }
      Insert(k, Item(value, size, if ttl > 0 then At(now + ttl) else Never));
      return true;
    }

    /** Put an item in front and enforce the limits. */
    method Insert(k: Key, item: Item<T>)
      requires Valid()
      modifies this
      ensures Valid() && recency == Put(old(recency), Entry(k, item), limits)
    {
      PresentIffHas(items, recency, k);
      WithoutLength(recency, k);
      if k in items {
        Remove(k);
      } else {
        WithoutAbsent(recency, k);
      }
      Front(k, item);
      EnforceEntries();
      EnforceMemory();
    }

    /** One eviction is enough for the entry limit, since it held before the insertion. */
    method EnforceEntries()
      requires Accounted() && (limits.maxEntries > 0 ==> |recency| <= limits.maxEntries + 1)
      modifies this
      ensures Accounted() && CountFits(recency, limits) && Trim(recency, limits) == Trim(old(recency), limits)
    {
      CountsAgree(order, items, recency);
      if limits.maxEntries > 0 && |items| > limits.maxEntries {
        TrimStep(recency, limits);
        Evict();
      }
    }

    method EnforceMemory()
      requires Valid()
      modifies this
      ensures Valid() && recency == Trim(old(recency), limits)
    {
      if limits.maxMemory > 0 {
        while currentMemory > limits.maxMemory
          invariant Valid() && Trim(recency, limits) == Trim(old(recency), limits)
          decreases |recency|
        {
          TrimStep(recency, limits);
          Evict();
        }
      }
    }

    method Invalidate(k: Key, done: bool) returns (ok: bool)
      requires Valid()
      modifies this
      ensures Valid() && ok == !done
      ensures recency == if done then old(recency) else Without(old(recency), k)
    {
      if done {
        return false;
      }
      PresentIffHas(items, recency, k);
      if k in items {
        Remove(k);
      } else {
        WithoutAbsent(recency, k);
      }
      return true;
    }

    // ----- The sweeper -----

    /** Remove one item if it has expired. */
    method SweepOne(k: Key, now: int) returns (expired: bool)
      requires Valid() && k in items
      modifies this
      ensures Valid() && recency == Drop(old(recency), k, now)
      ensures expired == Expired(old(items)[k], now)
      ensures items == if expired then old(items) - {k} else old(items)
    {
      PresentIffHas(items, recency, k);
      expired := Expired(items[k], now);
      if expired {
        Remove(k);
      }
    }

    /**
      One round: look at up to 20 items in any order and remove those that have expired. `looked`
      lists the sampled keys: the effect is that of as many Sweep operations.
    */
    method SweepRound(now: int) returns (expired: nat, checked: nat, ghost looked: seq<Key>)
      requires Valid()
      modifies this
      ensures Valid() && recency == StepAll(old(recency), Sweeps(looked, now), limits)
      ensures |looked| == checked <= SAMPLE_SIZE && expired <= checked
      ensures checked == if old(|items|) < 20 then old(|items|) else 20
      ensures OnlyExpiredGone(old(items), items, now) && |items| == old(|items|) - expired
      ensures checked < SAMPLE_SIZE ==> NoneExpired(items, items.Keys, now)
    {
      expired, checked, looked := 0, 0, [];
      var todo := items.Keys;
      while todo != {} && checked < SAMPLE_SIZE
        invariant Valid() && recency == StepAll(old(recency), Sweeps(looked, now), limits)
        invariant |looked| == checked <= SAMPLE_SIZE && expired <= checked && checked + |todo| == old(|items|)
        invariant OnlyExpiredGone(old(items), items, now) && |items| == old(|items|) - expired
        invariant todo <= items.Keys && NoneExpired(items, items.Keys - todo, now)
        decreases todo
      {
        var k :| k in todo;
        ghost var before := items;
        SweepNext(old(recency), looked, k, now, limits);
        var gone := SweepOne(k, now);
        LookedAt(old(items), before, todo, k, now);
        todo, checked, looked := todo - {k}, checked + 1, looked + [k];
        if gone {
          expired := expired + 1;
        }
      }
      assert todo == {} ==> items.Keys - todo == items.Keys;
    }

    method Do(op: Op<T>)
      requires Valid()
      modifies this
      ensures Valid() && recency == Step(old(recency), op, limits)
    {
      match op {
        case Set(k, item) => Insert(k, item);
        case Get(k, now) => var found := Get(k, now, false, false);
        case Invalidate(k) => var ok := Invalidate(k, false);
        case Sweep(k, now) =>
          PresentIffHas(items, recency, k);
          if k in items {
            var gone := SweepOne(k, now);
          }
      }
    }

    /** What other goroutines do to the cache while the sweeper does not hold the lock. */
    method Meanwhile(ops: seq<Op<T>>)
      requires Valid()
      modifies this
      ensures Valid() && recency == StepAll(old(recency), ops, limits)
    {
      var i := 0;
      while i < |ops|
        invariant 0 <= i <= |ops| && Valid() && recency == StepAll(old(recency), ops[..i], limits)
      {
        assert ops[..i + 1] == ops[..i] + [ops[i]];
        StepAllSnoc(old(recency), ops[..i], ops[i], limits);
        Do(ops[i]);
        i := i + 1;
      }
      assert ops[..i] == ops;
    }

    /** A round, and if it is to be repeated, what the others do before the next. */
    method SweepTurn(now: int, others: seq<Op<T>>) returns (expired: nat, checked: nat, ghost looked: seq<Key>)
      requires Valid()
      modifies this
      ensures Valid() && |looked| == checked <= SAMPLE_SIZE
      ensures var swept := StepAll(old(recency), Sweeps(looked, now), limits);
              && recency == StepAll(swept, if expired >= REPEAT_AT then others else [], limits)
              && |swept| == old(|recency|) - expired
      ensures expired < REPEAT_AT && checked < SAMPLE_SIZE ==> NoneExpired(items, items.Keys, now)
      ensures |items| == |recency| && (expired >= REPEAT_AT && others == [] ==> |items| < old(|items|))
    {
      CountsAgree(order, items, recency);
      expired, checked, looked := SweepRound(now);
      CountsAgree(order, items, recency);
      if expired >= REPEAT_AT {
        Meanwhile(others);
        CountsAgree(order, items, recency);
      }
    }

    /**
      A tick of the sweeper: rounds repeat while at least a quarter of a full sample had expired, `clock`
      giving the time of each round. The lock is free between rounds: `others[i]` is done to the cache
      after round `i`. `looked` and `ran` record what the rounds sampled and what was done in between.
      Every repeated round removes five items, so the tick ends.
    */
    method SweepTick(clock: nat -> int, others: seq<seq<Op<T>>>)
      returns (rounds: nat, checked: nat, expired: nat, ghost looked: seq<seq<Key>>, ghost ran: seq<seq<Op<T>>>)
      requires Valid()
      modifies this
      ensures Valid() && |looked| == |ran| == rounds && RanBetween(ran, others)
      ensures recency == StepAll(old(recency), TickOps(looked, ran, clock), limits)
      ensures |recency| == 0 || expired < 5
      ensures 5 * rounds <= old(|recency|) + CountSets(TickOps(looked, ran, clock)) + 5
      ensures |recency| != 0 && checked < 20 ==>
                rounds > 0 && NoneExpired(items, items.Keys, clock(rounds - 1))
    {
      rounds, checked, expired, looked, ran := SweepRounds(clock, others);
    }

    method SweepRounds(clock: nat -> int, others: seq<seq<Op<T>>>)
      returns (rounds: nat, checked: nat, expired: nat, ghost looked: seq<seq<Key>>, ghost ran: seq<seq<Op<T>>>)
      requires Valid()
      modifies this
      ensures Valid() && (|recency| == 0 || expired < REPEAT_AT)
      ensures Ticked(old(recency), recency, looked, ran, clock, others, limits, rounds, expired >= REPEAT_AT)
      ensures expired < REPEAT_AT && checked < SAMPLE_SIZE ==>
                rounds > 0 && NoneExpired(items, items.Keys, clock(rounds - 1))
    {
      rounds, checked, expired, looked, ran := 0, 0, REPEAT_AT, [], [];
      CountsAgree(order, items, recency);
      while |items| != 0 && expired >= REPEAT_AT
        invariant Valid() && |items| == |recency|
        invariant Ticked(old(recency), recency, looked, ran, clock, others, limits, rounds, expired >= REPEAT_AT)
        invariant expired < REPEAT_AT && checked < SAMPLE_SIZE ==>
                    rounds > 0 && NoneExpired(items, items.Keys, clock(rounds - 1))
        decreases expired >= REPEAT_AT, if rounds < |others| then |others| - rounds else 0, |items|
      {
        ghost var keys, before := [], recency;
        expired, checked, keys := SweepTurn(clock(rounds), if rounds < |others| then others[rounds] else []);
        TickedNext(old(recency), before, looked, ran, clock, others, limits, rounds, keys, expired);
        looked, ran := looked + [keys], ran + [if expired >= REPEAT_AT then Between(others, rounds) else []];
        rounds := rounds + 1;
      }
    }
  }

  const SAMPLE_SIZE: nat := 20

  /** A quarter of the sample. */
  const REPEAT_AT: nat := 5

  /** `after` is `before` less some items that had expired. */
  ghost predicate OnlyExpiredGone<T>(before: map<Key, Item<T>>, after: map<Key, Item<T>>, now: int) {
    && (forall k :: k in after ==> k in before && after[k] == before[k])
    && (forall k :: k in before && k !in after ==> Expired(before[k], now))
  }

  ghost predicate NoneExpired<T>(items: map<Key, Item<T>>, ks: set<Key>, now: int) {
    forall k :: k in ks && k in items ==> !Expired(items[k], now)
  }

  lemma LookedAt<T>(start: map<Key, Item<T>>, items: map<Key, Item<T>>, todo: set<Key>, k: Key, now: int)
    requires k in todo && todo <= items.Keys && OnlyExpiredGone(start, items, now)
    requires NoneExpired(items, items.Keys - todo, now)
    ensures var left := if Expired(items[k], now) then items - {k} else items;
            && OnlyExpiredGone(start, left, now)
            && |left| == |items| - (if Expired(items[k], now) then 1 else 0)
            && todo - {k} <= left.Keys && NoneExpired(left, left.Keys - (todo - {k}), now)
  {
    assert (items - {k}).Keys == items.Keys - {k};
    assert |items.Keys - {k}| == |items| - 1;
  }

  // ----- The effect of a tick -----

  /** The effect of several operations, one after the other. */
  ghost function StepAll<T>(r: seq<Entry<T>>, ops: seq<Op<T>>, limits: Limits): seq<Entry<T>> {
    if ops == [] then r else Step(StepAll(r, ops[..|ops| - 1], limits), ops[|ops| - 1], limits)
  }

  lemma StepAllSnoc<T>(r: seq<Entry<T>>, ops: seq<Op<T>>, op: Op<T>, limits: Limits)
    ensures StepAll(r, ops + [op], limits) == Step(StepAll(r, ops, limits), op, limits)
  {
    assert (ops + [op])[..|ops|] == ops;
  }

  lemma {:induction false} StepAllAppend<T>(r: seq<Entry<T>>, a: seq<Op<T>>, b: seq<Op<T>>, limits: Limits)
    ensures StepAll(r, a + b, limits) == StepAll(StepAll(r, a, limits), b, limits)
    decreases |b|
  {
    if b == [] {
      assert a + b == a;
    } else {
      var front := b[..|b| - 1];
      assert (a + b)[..|a + b| - 1] == a + front;
      StepAllAppend(r, a, front, limits);
    }
  }

  /** A tick in the course of a run is part of the run, so whatever holds of every run holds across ticks. */
  lemma {:induction false} TickIsPartOfTheRun<T>(before: seq<Op<T>>, tick: seq<Op<T>>, limits: Limits)
    ensures StepAll(Run(before, limits), tick, limits) == Run(before + tick, limits)
    decreases |tick|
  {
    if tick == [] {
      assert before + tick == before;
    } else {
      var front, last := tick[..|tick| - 1], tick[|tick| - 1];
      assert before + tick == before + front + [last];
      TickIsPartOfTheRun(before, front, limits);
      RunSnoc(before + front, last, limits);
    }
  }

  function Sweeps<T>(ks: seq<Key>, now: int): (ops: seq<Op<T>>)
    ensures |ops| == |ks| && forall i :: 0 <= i < |ks| ==> ops[i] == Op.Sweep(ks[i], now)
  {
    seq(|ks|, i requires 0 <= i < |ks| => Op.Sweep(ks[i], now))
  }

  lemma SweepsSnoc<T>(ks: seq<Key>, k: Key, now: int)
    ensures Sweeps<T>(ks + [k], now) == Sweeps<T>(ks, now) + [Op.Sweep(k, now)]
  {
  }

  lemma SweepNext<T>(r: seq<Entry<T>>, ks: seq<Key>, k: Key, now: int, limits: Limits)
    ensures StepAll(r, Sweeps(ks + [k], now), limits) == Drop(StepAll(r, Sweeps(ks, now), limits), k, now)
  {
    SweepsSnoc<T>(ks, k, now);
    StepAllSnoc(r, Sweeps(ks, now), Op.Sweep(k, now), limits);
  }

  function Between<T>(others: seq<seq<Op<T>>>, i: nat): seq<Op<T>> {
    if i < |others| then others[i] else []
  }

  function AllBetween<T>(others: seq<seq<Op<T>>>, n: nat): (all: seq<seq<Op<T>>>)
    ensures |all| == n && forall i :: 0 <= i < n ==> all[i] == Between(others, i)
  {
    seq(n, i requires 0 <= i < n => Between(others, i))
  }

  /** After every round but perhaps the last the others had their turn. */
  ghost predicate RanBetween<T>(ran: seq<seq<Op<T>>>, others: seq<seq<Op<T>>>) {
    forall i :: 0 <= i < |ran| ==> ran[i] == Between(others, i) || (i == |ran| - 1 && ran[i] == [])
  }

  /** The operations of a tick: the sweeps of each round, then what ran in between. */
  ghost function TickOps<T>(looked: seq<seq<Key>>, ran: seq<seq<Op<T>>>, clock: nat -> int): seq<Op<T>>
    requires |looked| == |ran|
    decreases |looked|
  {
    if looked == [] then []
    else
      var n := |looked| - 1;
      TickOps(looked[..n], ran[..n], clock) + Sweeps(looked[n], clock(n)) + ran[n]
  }

  ghost function CountSets<T>(ops: seq<Op<T>>): nat {
    if ops == [] then 0 else CountSets(ops[..|ops| - 1]) + if ops[|ops| - 1].Set? then 1 else 0
  }

  lemma {:induction false} CountSetsAppend<T>(a: seq<Op<T>>, b: seq<Op<T>>)
    ensures CountSets(a + b) == CountSets(a) + CountSets(b)
    decreases |b|
  {
    if b == [] {
      assert a + b == a;
    } else {
      assert (a + b)[..|a + b| - 1] == a + b[..|b| - 1];
      CountSetsAppend(a, b[..|b| - 1]);
    }
  }

  lemma {:induction false} SweepsSetNothing<T>(ks: seq<Key>, now: int)
    ensures CountSets<T>(Sweeps(ks, now)) == 0
    decreases |ks|
  {
    if ks != [] {
      var front := ks[..|ks| - 1];
      assert ks == front + [ks[|ks| - 1]];
      SweepsSnoc<T>(front, ks[|ks| - 1], now);
      SweepsSetNothing<T>(front, now);
      assert Sweeps<T>(ks, now)[..|ks| - 1] == Sweeps<T>(front, now);
    }
  }

  /** A Set adds at most one entry, and nothing else adds any. */
  lemma {:induction false} StepAllLength<T>(r: seq<Entry<T>>, ops: seq<Op<T>>, limits: Limits)
    requires Distinct(Keys(r))
    ensures Distinct(Keys(StepAll(r, ops, limits))) && |StepAll(r, ops, limits)| <= |r| + CountSets(ops)
    decreases |ops|
  {
    if ops != [] {
      var front, last := ops[..|ops| - 1], ops[|ops| - 1];
      var before := StepAll(r, front, limits);
      StepAllLength(r, front, limits);
      StepDistinct(before, last, limits);
      WithoutLength(before, last.key);
      if last.Set? {
        TrimIsLongestFit([Entry(last.key, last.item)] + Without(before, last.key), limits, 0);
      }
    }
  }

  lemma OneMoreRound<T>(start: seq<Entry<T>>, looked: seq<seq<Key>>, ran: seq<seq<Op<T>>>, clock: nat -> int,
                        keys: seq<Key>, group: seq<Op<T>>, limits: Limits)
    requires |looked| == |ran| && Distinct(Keys(start))
    ensures var before := TickOps(looked, ran, clock);
            var after := TickOps(looked + [keys], ran + [group], clock);
            var swept := StepAll(StepAll(start, before, limits), Sweeps(keys, clock(|looked|)), limits);
            && StepAll(start, after, limits) == StepAll(swept, group, limits)
            && CountSets(after) == CountSets(before) + CountSets(group)
            && |StepAll(start, after, limits)| <= |swept| + CountSets(group)
  {
    var n := |looked|;
    assert (looked + [keys])[..n] == looked && (ran + [group])[..n] == ran;
    var before, sweeps := TickOps(looked, ran, clock), Sweeps<T>(keys, clock(n));
    StepAllAppend(start, before, sweeps, limits);
    StepAllAppend(start, before + sweeps, group, limits);
    CountSetsAppend(before, sweeps);
    CountSetsAppend(before + sweeps, group);
    SweepsSetNothing<T>(keys, clock(n));
    StepAllLength(start, before + sweeps, limits);
    StepAllLength(StepAll(start, before + sweeps, limits), group, limits);
  }

  /** Where a tick stands after some rounds; `more` says whether another is due. */
  ghost predicate Ticked<T>(start: seq<Entry<T>>, now: seq<Entry<T>>, looked: seq<seq<Key>>, ran: seq<seq<Op<T>>>,
                            clock: nat -> int, others: seq<seq<Op<T>>>, limits: Limits, rounds: nat, more: bool)
  {
    && |looked| == |ran| == rounds
    && (if more then ran == AllBetween(others, rounds) else RanBetween(ran, others))
    && now == StepAll(start, TickOps(looked, ran, clock), limits)
    && 5 * rounds + |now| <= |start| + CountSets(TickOps(looked, ran, clock)) + if more then 0 else 5
  }

  lemma TickedNext<T>(start: seq<Entry<T>>, now: seq<Entry<T>>, looked: seq<seq<Key>>, ran: seq<seq<Op<T>>>,
                      clock: nat -> int, others: seq<seq<Op<T>>>, limits: Limits, rounds: nat, keys: seq<Key>,
                      expired: nat)
    requires Distinct(Keys(start)) && Ticked(start, now, looked, ran, clock, others, limits, rounds, true)
    requires |StepAll(now, Sweeps(keys, clock(rounds)), limits)| == |now| - expired
    ensures var more := expired >= REPEAT_AT;
            var group := if more then Between(others, rounds) else [];
            var after := StepAll(StepAll(now, Sweeps(keys, clock(rounds)), limits), group, limits);
            Ticked(start, after, looked + [keys], ran + [group], clock, others, limits, rounds + 1, more)
  {
    var group := if expired >= REPEAT_AT then Between(others, rounds) else [];
    OneMoreRound(start, looked, ran, clock, keys, group, limits);
    BetweenNext(others, rounds);
  }

  lemma BetweenNext<T>(others: seq<seq<Op<T>>>, n: nat)
    ensures AllBetween(others, n) + [Between(others, n)] == AllBetween(others, n + 1)
    ensures RanBetween(AllBetween(others, n) + [[]], others)
  {
  }

  // ----- What a tick may remove -----

  /** The operation may take the entry away: by replacing or evicting it, on request, or because it has expired. */
  predicate MayRemove<T>(op: Op<T>, e: Entry<T>) {
    match op
    case Set(_, _) => true
    case Get(k, now) => k == e.key && Expired(e.item, now)
    case Invalidate(k) => k == e.key
    case Sweep(k, now) => k == e.key && Expired(e.item, now)
  }

  lemma StepRemoves<T>(r: seq<Entry<T>>, op: Op<T>, limits: Limits, e: Entry<T>)
    requires Distinct(Keys(r)) && e in r && e !in Step(r, op, limits)
    ensures MayRemove(op, e)
  {
    WithoutMember(r, op.key, e);
    FindUnique(r, e);
  }

  lemma {:induction false} RemovedBy<T>(r: seq<Entry<T>>, ops: seq<Op<T>>, limits: Limits, e: Entry<T>) returns (i: nat)
    requires Distinct(Keys(r)) && e in r && e !in StepAll(r, ops, limits)
    ensures i < |ops| && MayRemove(ops[i], e)
    decreases |ops|
  {
    var front, last := ops[..|ops| - 1], ops[|ops| - 1];
    StepAllLength(r, front, limits);
    if e in StepAll(r, front, limits) {
      StepRemoves(StepAll(r, front, limits), last, limits, e);
      i := |ops| - 1;
    } else {
      i := RemovedBy(r, front, limits, e);
    }
  }

  /** Every operation of a tick is a sweep at the time of its round, or was done by the others. */
  lemma {:induction false} TickOp<T>(looked: seq<seq<Key>>, ran: seq<seq<Op<T>>>, clock: nat -> int, i: nat)
    returns (n: nat)
    requires |looked| == |ran| && i < |TickOps(looked, ran, clock)|
    ensures n < |looked|
    ensures var op := TickOps(looked, ran, clock)[i]; op in ran[n] || (op.Sweep? && op.now == clock(n))
    decreases |looked|
  {
    n := |looked| - 1;
    var before, sweeps := TickOps(looked[..n], ran[..n], clock), Sweeps<T>(looked[n], clock(n));
    if i < |before| {
      n := TickOp(looked[..n], ran[..n], clock, i);
    } else if i < |before| + |sweeps| {
      assert TickOps(looked, ran, clock)[i] == sweeps[i - |before|];
    } else {
      assert TickOps(looked, ran, clock)[i] == ran[n][i - |before| - |sweeps|];
    }
  }

  /** Whatever a tick takes away had expired at one of its rounds, or the others could take it away. */
  lemma TickRemovesOnlyExpired<T>(r: seq<Entry<T>>, looked: seq<seq<Key>>, ran: seq<seq<Op<T>>>, clock: nat -> int,
                                  limits: Limits, e: Entry<T>)
    returns (n: nat)
    requires |looked| == |ran| && Distinct(Keys(r)) && e in r && e !in StepAll(r, TickOps(looked, ran, clock), limits)
    ensures n < |looked| && (Expired(e.item, clock(n)) || exists op :: op in ran[n] && MayRemove(op, e))
  {
    var i := RemovedBy(r, TickOps(looked, ran, clock), limits, e);
    n := TickOp(looked, ran, clock, i);
  }
}
