/**
  The reference behaviour of the in-memory cache: a list of entries, most recently used first, and
  what every run of Set, Get, Invalidate and sweeping does to it.
*/
module RecencyLists {
  import opened Options

  type Key = string

  datatype Expiry = Never | At(time: int)

  datatype Item<T> = Item(value: T, size: int, expiresAt: Expiry)

  datatype Entry<T> = Entry(key: Key, item: Item<T>)

  /** Expiry is strict: an item is still served at the very instant it expires. */
  predicate Expired<T>(item: Item<T>, now: int) {
    item.expiresAt.At? && now > item.expiresAt.time
  }

  function Keys<T>(r: seq<Entry<T>>): (ks: seq<Key>)
    ensures |ks| == |r| && forall i :: 0 <= i < |r| ==> ks[i] == r[i].key
  {
    seq(|r|, i requires 0 <= i < |r| => r[i].key)
  }

  predicate Distinct(ks: seq<Key>) {
    forall i, j :: 0 <= i < j < |ks| ==> ks[i] != ks[j]
  }

  function Memory<T>(r: seq<Entry<T>>): int {
    if r == [] then 0 else r[0].item.size + Memory(r[1..])
  }

  lemma {:induction false} MemoryAppend<T>(a: seq<Entry<T>>, b: seq<Entry<T>>)
    ensures Memory(a + b) == Memory(a) + Memory(b)
  {
    if a == [] {
      assert a + b == b;
    } else {
      assert (a + b)[1..] == a[1..] + b;
      MemoryAppend(a[1..], b);
    }
  }

  // ----- Removing a key -----

  function Without<T>(r: seq<Entry<T>>, k: Key): seq<Entry<T>> {
    if r == [] then []
    else if r[0].key == k then Without(r[1..], k)
    else [r[0]] + Without(r[1..], k)
  }

  lemma {:induction false} WithoutMember<T>(r: seq<Entry<T>>, k: Key, e: Entry<T>)
    ensures e in Without(r, k) <==> e in r && e.key != k
  {
    if r != [] {
      WithoutMember(r[1..], k, e);
      assert r == [r[0]] + r[1..];
    }
  }

  lemma {:induction false} WithoutAbsent<T>(r: seq<Entry<T>>, k: Key)
    requires forall e :: e in r ==> e.key != k
    ensures Without(r, k) == r
  {
    if r != [] {
      assert r[0] in r;
      WithoutAbsent(r[1..], k);
    }
  }

  /** Removing a key cuts out exactly its position. */
  lemma {:induction false} WithoutAt<T>(r: seq<Entry<T>>, i: nat)
    requires i < |r| && Distinct(Keys(r))
    ensures Without(r, r[i].key) == r[..i] + r[i + 1..]
  {
    var tail := r[1..];
    if i == 0 {
      forall e | e in tail ensures e.key != r[0].key {
        var j :| 0 <= j < |tail| && tail[j] == e;
        assert Keys(r)[0] != Keys(r)[j + 1];
      }
      WithoutAbsent(tail, r[0].key);
    } else {
      assert Keys(r)[0] != Keys(r)[i];
      DistinctTail(r);
      assert tail[i - 1] == r[i];
      assert r[..i] + r[i + 1..] == [r[0]] + (tail[..i - 1] + tail[i..]);
      WithoutAt(tail, i - 1);
    }
  }

  lemma DistinctTail<T>(r: seq<Entry<T>>)
    requires r != [] && Distinct(Keys(r))
    ensures Distinct(Keys(r[1..]))
  {
    forall i, j | 0 <= i < j < |r[1..]| ensures Keys(r[1..])[i] != Keys(r[1..])[j] {
      assert Keys(r)[i + 1] != Keys(r)[j + 1];
    }
  }

  lemma DistinctCut<T>(r: seq<Entry<T>>, i: nat)
    requires i < |r| && Distinct(Keys(r))
    ensures Distinct(Keys(r[..i] + r[i + 1..]))
  {
    var c := r[..i] + r[i + 1..];
    forall a, b | 0 <= a < b < |c| ensures Keys(c)[a] != Keys(c)[b] {
      var x := if a < i then a else a + 1;
      var y := if b < i then b else b + 1;
      assert c[a] == r[x] && c[b] == r[y];
      assert Keys(r)[x] != Keys(r)[y];
    }
  }

  lemma MemoryCut<T>(r: seq<Entry<T>>, i: nat)
    requires i < |r|
    ensures Memory(r[..i] + r[i + 1..]) == Memory(r) - r[i].item.size
  {
    var tail, rest := r[i..], r[i + 1..];
    assert r == r[..i] + tail;
    assert tail[1..] == rest;
    MemoryAppend(r[..i], tail);
    MemoryAppend(r[..i], rest);
  }

  // ----- Trimming to the limits -----

  datatype Limits = Limits(maxEntries: int, maxMemory: int)

  /** A non-positive limit is no limit. */
  predicate CountFits<T>(r: seq<Entry<T>>, limits: Limits) {
    limits.maxEntries > 0 ==> |r| <= limits.maxEntries
  }

  predicate MemoryFits<T>(r: seq<Entry<T>>, limits: Limits) {
    limits.maxMemory > 0 ==> Memory(r) <= limits.maxMemory
  }

  predicate Fits<T>(r: seq<Entry<T>>, limits: Limits) {
    CountFits(r, limits) && MemoryFits(r, limits)
  }

  /** Drop least recently used entries until the rest fits. */
  function Trim<T>(r: seq<Entry<T>>, limits: Limits): (t: seq<Entry<T>>)
    ensures Fits(t, limits)
    decreases |r|
  {
    if Fits(r, limits) then r else Trim(r[..|r| - 1], limits)
  }

  /** What survives a trim is the longest prefix that fits. */
  lemma {:induction false} TrimIsLongestFit<T>(r: seq<Entry<T>>, limits: Limits, m: nat)
    ensures |Trim(r, limits)| <= |r| && Trim(r, limits) == r[..|Trim(r, limits)|]
    ensures |Trim(r, limits)| < m <= |r| ==> !Fits(r[..m], limits)
    decreases |r|
  {
    if Fits(r, limits) {
      assert r[..|r|] == r;
    } else {
      var front := r[..|r| - 1];
      TrimIsLongestFit(front, limits, m);
      assert front[..|Trim(front, limits)|] == r[..|Trim(front, limits)|];
      if m == |r| {
        assert r[..m] == r;
      } else if m < |r| {
        assert front[..m] == r[..m];
      }
    }
  }

  // ----- The operations -----

  datatype Op<T> =
    | Set(key: Key, item: Item<T>)
    | Get(key: Key, now: int)
    | Invalidate(key: Key)
    | Sweep(key: Key, now: int)

  function Put<T>(r: seq<Entry<T>>, e: Entry<T>, limits: Limits): seq<Entry<T>> {
    Trim([e] + Without(r, e.key), limits)
  }

  /**
    A Set puts its entry in front and keeps the longest part of the list that the limits allow: it evicts no
    more than it has to, and nothing but the least recently used.
  */
  lemma PutKeepsLongestFit<T>(r: seq<Entry<T>>, e: Entry<T>, limits: Limits, m: nat)
    ensures var all, kept := [e] + Without(r, e.key), Put(r, e, limits);
            && |kept| <= |all| && kept == all[..|kept|]
            && (limits.maxEntries > 0 ==> |kept| <= limits.maxEntries)
            && (limits.maxMemory > 0 ==> Memory(kept) <= limits.maxMemory)
            && (|kept| < m <= |all| ==>
                  || 0 < limits.maxEntries < m
                  || 0 < limits.maxMemory < Memory(all[..m]))
  {
    TrimIsLongestFit([e] + Without(r, e.key), limits, m);
  }

  predicate Has<T>(r: seq<Entry<T>>, k: Key) {
    exists i :: 0 <= i < |r| && r[i].key == k
  }

  function Find<T>(r: seq<Entry<T>>, k: Key): (e: Entry<T>)
    requires Has(r, k)
    ensures e in r && e.key == k
  {
    if r[0].key == k then r[0] else
      var i :| 0 <= i < |r| && r[i].key == k;
      assert r[1..][i - 1].key == k;
      Find(r[1..], k)
  }

  /** What a lookup at time `now` finds. */
  function Peek<T>(r: seq<Entry<T>>, k: Key, now: int): Option<T> {
    if Has(r, k) && !Expired(Find(r, k).item, now) then Some(Find(r, k).item.value) else None
  }

  function Touch<T>(r: seq<Entry<T>>, k: Key, now: int): seq<Entry<T>> {
    if !Has(r, k) then r
    else if Expired(Find(r, k).item, now) then Without(r, k)
    else [Find(r, k)] + Without(r, k)
  }

  function Drop<T>(r: seq<Entry<T>>, k: Key, now: int): seq<Entry<T>> {
    if Has(r, k) && Expired(Find(r, k).item, now) then Without(r, k) else r
  }

  function Step<T>(r: seq<Entry<T>>, op: Op<T>, limits: Limits): seq<Entry<T>> {
    match op
    case Set(k, item) => Put(r, Entry(k, item), limits)
    case Get(k, now) => Touch(r, k, now)
    case Invalidate(k) => Without(r, k)
    case Sweep(k, now) => Drop(r, k, now)
  }

  function Run<T>(ops: seq<Op<T>>, limits: Limits): seq<Entry<T>> {
    if ops == [] then [] else Step(Run(ops[..|ops| - 1], limits), ops[|ops| - 1], limits)
  }

  lemma FindUnique<T>(r: seq<Entry<T>>, e: Entry<T>)
    requires Distinct(Keys(r)) && e in r
    ensures Has(r, e.key) && Find(r, e.key) == e
  {
    var i :| 0 <= i < |r| && r[i] == e;
    var f := Find(r, e.key);
    var j :| 0 <= j < |r| && r[j] == f;
    DistinctIndex(Keys(r), i, j);
  }

  lemma DistinctIndex(ks: seq<Key>, i: nat, j: nat)
    requires Distinct(ks) && i < |ks| && j < |ks| && ks[i] == ks[j]
    ensures i == j
  {
  }

  /** Every entry after a step was there before, or was just set. */
  lemma StepMember<T>(r: seq<Entry<T>>, op: Op<T>, limits: Limits, e: Entry<T>)
    requires e in Step(r, op, limits)
    ensures if op.Set? && op.key == e.key then e.item == op.item else e in r
    ensures op.Invalidate? ==> op.key != e.key
  {
    WithoutMember(r, op.key, e);
    if op.Set? {
      TrimIsLongestFit([Entry(op.key, op.item)] + Without(r, op.key), limits, 0);
    }
  }

  /** What a step that neither evicts nor expires the entry leaves behind. */
  lemma StepKeeps<T>(r: seq<Entry<T>>, op: Op<T>, limits: Limits, e: Entry<T>)
    requires Distinct(Keys(r)) && limits.maxEntries <= 0 && limits.maxMemory <= 0
    requires if op.Set? && op.key == e.key then e.item == op.item else e in r
    requires op.Invalidate? ==> op.key != e.key
    requires (op.Get? || op.Sweep?) && op.key == e.key ==> !Expired(e.item, op.now)
    ensures e in Step(r, op, limits)
  {
    WithoutMember(r, op.key, e);
    if e in r {
      FindUnique(r, e);
    }
  }

  lemma WithoutDistinct<T>(r: seq<Entry<T>>, k: Key)
    requires Distinct(Keys(r))
    ensures Distinct(Keys(Without(r, k)))
  {
    if Has(r, k) {
      var i :| 0 <= i < |r| && r[i].key == k;
      WithoutAt(r, i);
      DistinctCut(r, i);
    } else {
      WithoutAbsent(r, k);
    }
  }

  lemma FrontDistinct<T>(r: seq<Entry<T>>, e: Entry<T>)
    requires Distinct(Keys(r))
    ensures Distinct(Keys([e] + Without(r, e.key)))
  {
    var rest := Without(r, e.key);
    var f := [e] + rest;
    WithoutDistinct(r, e.key);
    forall i, j | 0 <= i < j < |f| ensures Keys(f)[i] != Keys(f)[j] {
      if i == 0 {
        WithoutMember(r, e.key, rest[j - 1]);
      } else {
        assert Keys(rest)[i - 1] != Keys(rest)[j - 1];
      }
    }
  }

  lemma StepDistinct<T>(r: seq<Entry<T>>, op: Op<T>, limits: Limits)
    requires Distinct(Keys(r))
    ensures Distinct(Keys(Step(r, op, limits)))
  {
    WithoutDistinct(r, op.key);
    match op
    case Set(k, item) =>
      var e := Entry(k, item);
      var f := [e] + Without(r, k);
      FrontDistinct(r, e);
      TrimIsLongestFit(f, limits, 0);
      PrefixDistinct(f, |Trim(f, limits)|);
    case Get(k, now) =>
      if Has(r, k) {
        FrontDistinct(r, Find(r, k));
      }
    case Invalidate(k) =>
    case Sweep(k, now) =>
  }

  lemma PrefixDistinct<T>(r: seq<Entry<T>>, n: nat)
    requires Distinct(Keys(r)) && n <= |r|
    ensures Distinct(Keys(r[..n]))
  {
    forall i, j | 0 <= i < j < n ensures Keys(r[..n])[i] != Keys(r[..n])[j] {
      assert Keys(r)[i] != Keys(r)[j];
    }
  }

  // ----- Over every run -----

  lemma {:induction false} RunDistinct<T>(ops: seq<Op<T>>, limits: Limits)
    ensures Distinct(Keys(Run(ops, limits)))
  {
    if ops != [] {
      RunDistinct(ops[..|ops| - 1], limits);
      StepDistinct(Run(ops[..|ops| - 1], limits), ops[|ops| - 1], limits);
    }
  }

  /** The last Set of a key, unless it was invalidated since. */
  function LastSet<T>(ops: seq<Op<T>>, k: Key): Option<Item<T>> {
    if ops == [] then None
    else
      var op := ops[|ops| - 1];
      if op.Set? && op.key == k then Some(op.item)
      else if op.Invalidate? && op.key == k then None
      else LastSet(ops[..|ops| - 1], k)
  }

  /** Whatever the cache holds is the last uninvalidated Set of its key. */
  lemma {:induction false} HoldsLastSet<T>(ops: seq<Op<T>>, limits: Limits, e: Entry<T>)
    requires e in Run(ops, limits)
    ensures LastSet(ops, e.key) == Some(e.item)
  {
    var before, op := ops[..|ops| - 1], ops[|ops| - 1];
    StepMember(Run(before, limits), op, limits, e);
    if !(op.Set? && op.key == e.key) {
      HoldsLastSet(before, limits, e);
    }
  }

  /** No clock reading in the run was past the item's expiry. */
  predicate NeverExpired<T>(ops: seq<Op<T>>, item: Item<T>) {
    forall i :: 0 <= i < |ops| && (ops[i].Get? || ops[i].Sweep?) ==> !Expired(item, ops[i].now)
  }

  /** Without limits nothing but expiry and invalidation loses a Set. */
  lemma {:induction false} UnboundedKeepsLastSet<T>(ops: seq<Op<T>>, limits: Limits, k: Key)
    requires limits.maxEntries <= 0 && limits.maxMemory <= 0
    requires LastSet(ops, k).Some? && NeverExpired(ops, LastSet(ops, k).value)
    ensures Entry(k, LastSet(ops, k).value) in Run(ops, limits)
  {
    var before, op := ops[..|ops| - 1], ops[|ops| - 1];
    if !(op.Set? && op.key == k) {
      UnboundedKeepsLastSet(before, limits, k);
    }
    RunDistinct(before, limits);
    StepKeeps(Run(before, limits), op, limits, Entry(k, LastSet(ops, k).value));
  }

  predicate SizesAtLeast<T>(ops: seq<Op<T>>, least: int) {
    forall i :: 0 <= i < |ops| && ops[i].Set? ==> ops[i].item.size >= least
  }

  /** Cutting out one key never makes a list with natural sizes larger. */
  lemma WithoutShrinks<T>(r: seq<Entry<T>>, k: Key)
    requires Distinct(Keys(r)) && forall e :: e in r ==> e.item.size >= 0
    ensures |Without(r, k)| <= |r| && Memory(Without(r, k)) <= Memory(r)
    ensures Has(r, k) ==> |Without(r, k)| == |r| - 1 && Memory(Without(r, k)) == Memory(r) - Find(r, k).item.size
  {
    if Has(r, k) {
      var i :| 0 <= i < |r| && r[i].key == k;
      FindUnique(r, r[i]);
      WithoutAt(r, i);
      MemoryCut(r, i);
    } else {
      WithoutAbsent(r, k);
    }
  }

  /** Both limits hold after every operation of every run whose sizes are not negative. */
  lemma {:induction false} LimitsHold<T>(ops: seq<Op<T>>, limits: Limits)
    requires SizesAtLeast(ops, 0)
    ensures Fits(Run(ops, limits), limits)
    ensures limits.maxEntries > 0 ==> |Run(ops, limits)| <= limits.maxEntries
    ensures limits.maxMemory > 0 ==> Memory(Run(ops, limits)) <= limits.maxMemory
    ensures forall e :: e in Run(ops, limits) ==> e.item.size >= 0
  {
    if ops != [] {
      var before, op := ops[..|ops| - 1], ops[|ops| - 1];
      var r := Run(before, limits);
      LimitsHold(before, limits);
      RunDistinct(before, limits);
      WithoutShrinks(r, op.key);
      forall e | e in Run(ops, limits) ensures e.item.size >= 0 {
        StepMember(r, op, limits, e);
      }
    }
  }

  /** The entry limit needs no condition on sizes. */
  lemma {:induction false} EntryLimitHolds<T>(ops: seq<Op<T>>, limits: Limits)
    ensures CountFits(Run(ops, limits), limits)
    ensures limits.maxEntries > 0 ==> |Run(ops, limits)| <= limits.maxEntries
  {
    if ops != [] {
      var before, op := ops[..|ops| - 1], ops[|ops| - 1];
      EntryLimitHolds(before, limits);
      RunDistinct(before, limits);
      WithoutLength(Run(before, limits), op.key);
    }
  }

  lemma WithoutLength<T>(r: seq<Entry<T>>, k: Key)
    requires Distinct(Keys(r))
    ensures |Without(r, k)| == if Has(r, k) then |r| - 1 else |r|
  {
    if Has(r, k) {
      var i :| 0 <= i < |r| && r[i].key == k;
      WithoutAt(r, i);
    } else {
      WithoutAbsent(r, k);
    }
  }

  /** A negative size lets an invalidation push a cache of two or more entries over any byte limit. */
  lemma NegativeSizeBreaksTheByteLimit<T>(v: T, size: int, limits: Limits) returns (ops: seq<Op<T>>)
    requires size < 0 < limits.maxMemory && limits.maxEntries != 1
    ensures SizesAtLeast(ops, size) && !MemoryFits(Run(ops, limits), limits)
  {
    var a, b := Entry("a", Item(v, size, Never)), Entry("b", Item(v, limits.maxMemory - size, Never));
    var o1, o2, o3 := Set("a", a.item), Set("b", b.item), Invalidate("a");
    RunSnoc([], o1, limits);
    RunSnoc([o1], o2, limits);
    RunSnoc([o1, o2], o3, limits);
    TwoEntries(a, b, limits);
    assert [] + [o1] == [o1] && [o1] + [o2] == [o1, o2] && [o1, o2] + [o3] == [o1, o2, o3];
    ops := [o1, o2, o3];
  }

  lemma TwoEntries<T>(a: Entry<T>, b: Entry<T>, limits: Limits)
    requires a.key != b.key && limits.maxEntries != 1 && 0 < limits.maxMemory
    requires a.item.size < 0 && b.item.size == limits.maxMemory - a.item.size
    ensures Put([], a, limits) == [a] && Put([a], b, limits) == [b, a]
    ensures Without([b, a], a.key) == [b] && Memory([b]) == b.item.size
  {
    assert [a] + [] == [a] && Memory([a]) == a.item.size;
    assert Without([a], b.key) == [a] + Without([], b.key);
    assert [b] + [a] == [b, a] && [b, a][1..] == [a];
    assert Memory([b, a]) == limits.maxMemory;
    assert Without([a], a.key) == [];
  }

  lemma ShortWithout<T>(r: seq<Entry<T>>, k: Key)
    requires |r| <= 1
    ensures Without(r, k) == if Has(r, k) then [] else r
    ensures Has(r, k) ==> r == [Find(r, k)]
  {
    if r != [] {
      assert r == [r[0]] && r[1..] == [];
    }
  }

  /** A cache of one entry keeps its byte limit whatever the sizes. */
  lemma {:induction false} SingleEntryFits<T>(ops: seq<Op<T>>, limits: Limits)
    requires limits.maxEntries == 1
    ensures MemoryFits(Run(ops, limits), limits)
  {
    if ops != [] {
      var before, op := ops[..|ops| - 1], ops[|ops| - 1];
      SingleEntryFits(before, limits);
      EntryLimitHolds(before, limits);
      ShortWithout(Run(before, limits), op.key);
    }
  }

  /**
    The byte limit holds in every run whose sizes are at least `least` if and only if that bound is not
    negative or the cache holds a single entry.
  */
  lemma ByteLimitExactly<T(!new)>(v: T, least: int, limits: Limits)
    requires limits.maxMemory > 0
    ensures (forall ops: seq<Op<T>> :: SizesAtLeast(ops, least) ==> MemoryFits(Run(ops, limits), limits))
            <==> least >= 0 || limits.maxEntries == 1
  {
    if least >= 0 || limits.maxEntries == 1 {
      forall ops: seq<Op<T>> | SizesAtLeast(ops, least) ensures MemoryFits(Run(ops, limits), limits) {
        if least >= 0 {
          LimitsHold(ops, limits);
        } else {
          SingleEntryFits(ops, limits);
        }
      }
    } else {
      var ops := NegativeSizeBreaksTheByteLimit(v, least, limits);
    }
  }

  lemma RunSnoc<T>(ops: seq<Op<T>>, op: Op<T>, limits: Limits)
    ensures Run(ops + [op], limits) == Step(Run(ops, limits), op, limits)
  {
    assert (ops + [op])[..|ops|] == ops;
  }

  // ----- Least recently used -----

  /** The position of the last Set or Get of a key. */
  function LastUse<T>(ops: seq<Op<T>>, k: Key): (n: int)
    ensures -1 <= n < |ops|
  {
    if ops == [] then -1
    else
      var op := ops[|ops| - 1];
      if (op.Set? || op.Get?) && op.key == k then |ops| - 1 else LastUse(ops[..|ops| - 1], k)
  }

  ghost predicate ByLastUse<T>(r: seq<Entry<T>>, ops: seq<Op<T>>) {
    forall i, j :: 0 <= i < j < |r| ==> LastUse(ops, r[i].key) > LastUse(ops, r[j].key)
  }

  lemma CutOrdered<T>(r: seq<Entry<T>>, i: nat, ops: seq<Op<T>>)
    requires i < |r| && ByLastUse(r, ops)
    ensures ByLastUse(r[..i] + r[i + 1..], ops)
  {
    var c := r[..i] + r[i + 1..];
    forall a, b | 0 <= a < b < |c| ensures LastUse(ops, c[a].key) > LastUse(ops, c[b].key) {
      var x := if a < i then a else a + 1;
      var y := if b < i then b else b + 1;
      assert c[a] == r[x] && c[b] == r[y];
    }
  }

  lemma WithoutOrdered<T>(r: seq<Entry<T>>, k: Key, ops: seq<Op<T>>)
    requires Distinct(Keys(r)) && ByLastUse(r, ops)
    ensures ByLastUse(Without(r, k), ops)
  {
    if Has(r, k) {
      var i :| 0 <= i < |r| && r[i].key == k;
      WithoutAt(r, i);
      CutOrdered(r, i, ops);
    } else {
      WithoutAbsent(r, k);
    }
  }

  /** Uses of other keys do not change the order of a list that lacks the key. */
  lemma OrderedLater<T>(r: seq<Entry<T>>, before: seq<Op<T>>, op: Op<T>)
    requires ByLastUse(r, before)
    requires op.Set? || op.Get? ==> !Has(r, op.key)
    ensures ByLastUse(r, before + [op])
  {
    var ops := before + [op];
    assert ops[..|ops| - 1] == before;
    forall i | 0 <= i < |r| ensures LastUse(ops, r[i].key) == LastUse(before, r[i].key) {
    }
  }

  lemma FrontOrdered<T>(e: Entry<T>, rest: seq<Entry<T>>, before: seq<Op<T>>, op: Op<T>)
    requires ByLastUse(rest, before) && (op.Set? || op.Get?) && op.key == e.key && !Has(rest, e.key)
    ensures ByLastUse([e] + rest, before + [op])
  {
    var ops, f := before + [op], [e] + rest;
    assert ops[..|ops| - 1] == before;
    OrderedLater(rest, before, op);
    forall i, j | 0 <= i < j < |f| ensures LastUse(ops, f[i].key) > LastUse(ops, f[j].key) {
      assert f[j] == rest[j - 1];
      assert i > 0 ==> f[i] == rest[i - 1];
    }
  }

  lemma WithoutHasNot<T>(r: seq<Entry<T>>, k: Key)
    ensures !Has(Without(r, k), k)
  {
    if Has(Without(r, k), k) {
      WithoutMember(r, k, Find(Without(r, k), k));
    }
  }

  /** The list is ordered by last use, after every run. */
  lemma {:induction false} RunByLastUse<T>(ops: seq<Op<T>>, limits: Limits)
    ensures ByLastUse(Run(ops, limits), ops)
  {
    if ops != [] {
      var before, op := ops[..|ops| - 1], ops[|ops| - 1];
      assert ops == before + [op];
      var r := Run(before, limits);
      RunByLastUse(before, limits);
      RunDistinct(before, limits);
      StepByLastUse(r, before, op, limits);
    }
  }

  lemma StepByLastUse<T>(r: seq<Entry<T>>, before: seq<Op<T>>, op: Op<T>, limits: Limits)
    requires Distinct(Keys(r)) && ByLastUse(r, before)
    ensures ByLastUse(Step(r, op, limits), before + [op])
  {
    var rest := Without(r, op.key);
    WithoutOrdered(r, op.key, before);
    WithoutHasNot(r, op.key);
    match op
    case Set(k, item) =>
      var e := Entry(k, item);
      FrontOrdered(e, rest, before, op);
      TrimIsLongestFit([e] + rest, limits, 0);
    case Get(k, now) =>
      if !Has(r, k) {
        OrderedLater(r, before, op);
      } else if Expired(Find(r, k).item, now) {
        OrderedLater(rest, before, op);
      } else {
        FrontOrdered(Find(r, k), rest, before, op);
      }
    case Invalidate(k) =>
      OrderedLater(rest, before, op);
    case Sweep(k, now) =>
      OrderedLater(rest, before, op);
      OrderedLater(r, before, op);
  }

  /** A trimmed list splits the order: everything kept precedes everything dropped. */
  lemma TrimSplits<T>(all: seq<Entry<T>>, limits: Limits, gone: Entry<T>, kept: Entry<T>) returns (i: nat, j: nat)
    requires gone in all && gone !in Trim(all, limits) && kept in Trim(all, limits)
    ensures j < i < |all| && all[i] == gone && all[j] == kept
  {
    TrimIsLongestFit(all, limits, 0);
    var n := |Trim(all, limits)|;
    assert all == all[..n] + all[n..];
    var m :| 0 <= m < |all[n..]| && all[n..][m] == gone;
    i := n + m;
    j :| 0 <= j < n && all[..n][j] == kept;
  }

  /** In every run, whatever a Set evicts was used less recently than everything it keeps. */
  lemma EvictsLeastRecentlyUsed<T>(before: seq<Op<T>>, e: Entry<T>, limits: Limits, gone: Entry<T>, kept: Entry<T>)
    requires var after := Run(before + [Set(e.key, e.item)], limits);
             && gone in [e] + Without(Run(before, limits), e.key) && gone !in after
             && kept in after
    ensures var ops := before + [Set(e.key, e.item)];
            LastUse(ops, kept.key) > LastUse(ops, gone.key)
  {
    var r, op := Run(before, limits), Set(e.key, e.item);
    var rest := Without(r, e.key);
    RunSnoc(before, op, limits);
    RunByLastUse(before, limits);
    RunDistinct(before, limits);
    WithoutOrdered(r, e.key, before);
    WithoutHasNot(r, e.key);
    FrontOrdered(e, rest, before, op);
    var i, j := TrimSplits([e] + rest, limits, gone, kept);
  }
}
