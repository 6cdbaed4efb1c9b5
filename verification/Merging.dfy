/**
  Vector clocks, the last-write-wins rule and the merge engine. A clock is a map whose missing
  regions count as zero; folding last-write-wins over concurrent writes converges exactly when one
  write beats every other in either order.
*/
module Merging {
  import opened Frames

  type Region = string

  type Clock = map<Region, Uint64>

  // ----- The pointwise order -----

  function At(c: Clock, r: Region): Uint64 {
    if r in c then c[r] else 0
  }

  ghost predicate Below(a: Clock, b: Clock) {
    forall r :: At(a, r) <= At(b, r)
  }

  ghost predicate Dominates(a: Clock, b: Clock) {
    Below(b, a) && !Below(a, b)
  }

  /** Every region carries the larger of the two counters. */
  ghost predicate IsJoin(j: Clock, a: Clock, b: Clock) {
    forall r :: At(j, r) == if At(a, r) >= At(b, r) then At(a, r) else At(b, r)
  }

  /** A join is the least upper bound. */
  lemma JoinIsLeastUpperBound(j: Clock, a: Clock, b: Clock)
    requires IsJoin(j, a, b)
    ensures Below(a, j) && Below(b, j)
    ensures forall u :: Below(a, u) && Below(b, u) ==> Below(j, u)
  {
    forall u | Below(a, u) && Below(b, u) ensures Below(j, u) {
      forall r ensures At(j, r) <= At(u, r) {
        assert At(a, r) <= At(u, r) && At(b, r) <= At(u, r);
      }
    }
  }

  const GREATER := 1
  const SMALLER := -1
  const EQUAL := 0
  const CONCURRENT := -2

  /** What `Compare` decides. */
  ghost function Order(a: Clock, b: Clock): int {
    if Below(a, b) && Below(b, a) then EQUAL
    else if Below(b, a) then GREATER
    else if Below(a, b) then SMALLER
    else CONCURRENT
  }

  class VectorClock {
    var entries: Clock

    /** `Copy`; the copy of a missing clock is empty. */
    constructor (entries: Clock)
      ensures this.entries == entries
    {
      this.entries := entries;
    }

    /** One region moves on by one, modulo 2^64; every other region stays where it was. */
    method Increment(region: Region)
      modifies this
      ensures At(entries, region) == (At(old(entries), region) + 1) % (MAX_COUNT + 1)
      ensures forall r :: r != region ==> At(entries, r) == At(old(entries), r)
      ensures Dominates(entries, old(entries)) <==> At(old(entries), region) < MAX_COUNT
    {
      ghost var before := entries;
      entries := entries[region := if At(entries, region) == MAX_COUNT then 0 else At(entries, region) + 1];
      IncrementDominates(before, region);
    }

    /** Take the larger counter of every region of `other`. */
    method Merge(other: Clock)
      modifies this
      ensures IsJoin(entries, old(entries), other)
    {
      var todo := other.Keys;
      while todo != {}
        invariant todo <= other.Keys
        invariant JoinedOutside(entries, old(entries), other, todo)
        decreases todo
      {
        var k :| k in todo;
        if other[k] > At(entries, k) {
          entries := entries[k := other[k]];
        }
        todo := todo - {k};
      }
    }

    /** Decide the pointwise order from the entries that are present. */
    method Compare(other: Clock) returns (order: int)
      ensures order == Order(entries, other)
      ensures order == 1 <==> Dominates(entries, other)
      ensures order == -1 <==> Dominates(other, entries)
      ensures order == 0 <==> forall r :: At(entries, r) == At(other, r)
      ensures order in {1, 0, -1, -2}
    {
      var greater, smaller := false, false;
      var todo := entries.Keys;
      while todo != {}
        invariant todo <= entries.Keys
        invariant greater <==> exists r :: r in entries.Keys - todo && At(entries, r) > At(other, r)
        invariant smaller <==> exists r :: r in entries.Keys - todo && At(entries, r) < At(other, r)
        decreases todo
      {
        var k :| k in todo;
        var v, ov := entries[k], At(other, k);
        todo := todo - {k};
        assert forall r :: r in entries.Keys - todo <==> r == k || r in entries.Keys - (todo + {k});
        if v > ov {
          greater := true;
        } else if v < ov {
          smaller := true;
        }
      }
      smaller := CompareMissing(other, smaller);
      NotBelow(entries, other);
      NotBelowMissing(other, entries);
      return if greater && smaller then CONCURRENT else if greater then GREATER else if smaller then SMALLER else EQUAL;
    }

    /** The second loop: regions of `other` that this clock has never seen. */
    method CompareMissing(other: Clock, seen: bool) returns (smaller: bool)
      ensures smaller <==> seen || exists r :: r in other && r !in entries && other[r] > 0
    {
      smaller := seen;
      var todo := other.Keys;
      while todo != {}
        invariant todo <= other.Keys
        invariant smaller <==> seen || exists r :: r in other && r !in todo && r !in entries && other[r] > 0
        decreases todo
      {
        var k :| k in todo;
        todo := todo - {k};
        if k !in entries && other[k] > 0 {
          smaller := true;
        }
      }
    }
  }

  lemma NotBelow(a: Clock, b: Clock)
    ensures !Below(a, b) <==> exists r :: r in a.Keys && At(a, r) > At(b, r)
  {
    if !Below(a, b) {
      var r :| At(a, r) > At(b, r);
      assert r in a.Keys;
    }
  }

  /** A clock exceeds another at a region the other has, or at one it lacks. */
  lemma NotBelowMissing(b: Clock, a: Clock)
    ensures !Below(b, a) <==>
              (exists r :: r in a.Keys && At(a, r) < At(b, r)) || (exists r :: r in b && r !in a && b[r] > 0)
  {
    if !Below(b, a) {
      var r :| At(b, r) > At(a, r);
      if r in a {
        assert r in a.Keys && At(a, r) < At(b, r);
      } else {
        assert r in b && b[r] > 0;
      }
    }
    if r :| r in b && r !in a && b[r] > 0 {
      assert At(b, r) > At(a, r);
    }
  }

  const MAX_COUNT: Uint64 := 0xffff_ffff_ffff_ffff

  ghost predicate JoinedOutside(j: Clock, a: Clock, b: Clock, todo: set<Region>) {
    forall r :: At(j, r) == if r !in todo && At(b, r) > At(a, r) then At(b, r) else At(a, r)
  }

  /** An increment moves the clock forward exactly when the counter does not wrap. */
  lemma IncrementDominates(c: Clock, region: Region)
    ensures var next := c[region := if At(c, region) == MAX_COUNT then 0 else At(c, region) + 1];
            Dominates(next, c) <==> At(c, region) < MAX_COUNT
  {
    var next := c[region := if At(c, region) == MAX_COUNT then 0 else At(c, region) + 1];
    assert At(next, region) != At(c, region);
    if At(c, region) == MAX_COUNT {
      assert At(next, region) < At(c, region);
    } else {
      assert At(c, region) < At(next, region);
      forall r ensures At(c, r) <= At(next, r) {
      }
    }
  }

  // ----- Last write wins -----

  datatype Vector = Vector(clock: Clock) | Nil

  datatype Value<T> = Value(data: T, timestamp: int, vector: Vector, region: Region)

  ghost predicate Newer<T>(a: Value<T>, b: Value<T>) {
    a.vector.Vector? && b.vector.Vector? && Dominates(a.vector.clock, b.vector.clock)
  }

  /** A dominating clock wins; otherwise the later timestamp does, and the old value on a tie. */
  ghost function LastWriteWins<T>(a: Value<T>, b: Value<T>): (w: Value<T>)
    ensures w == a || w == b
  {
    if Newer(b, a) then b
    else if Newer(a, b) then a
    else if b.timestamp > a.timestamp then b
    else a
  }

  /**
    What the outcome of a merge is: one of the two, dominated by neither; if neither dominates, the one with
    the later timestamp, and the old value on a tie.
  */
  ghost predicate Prevails<T>(w: Value<T>, a: Value<T>, b: Value<T>) {
    && (w == a || w == b)
    && !Newer(a, w) && !Newer(b, w)
    && (!Newer(a, b) && !Newer(b, a) ==> if a.timestamp >= b.timestamp then w == a else w == b)
  }

  lemma NewerIsOneWay<T>(a: Value<T>, b: Value<T>)
    ensures !(Newer(a, b) && Newer(b, a)) && !Newer(a, a)
  {
  }

  /** That describes one value, and it is the one that is chosen. */
  lemma PrevailsExactly<T>(w: Value<T>, a: Value<T>, b: Value<T>)
    ensures Prevails(w, a, b) <==> w == LastWriteWins(a, b)
  {
    NewerIsOneWay(a, b);
    NewerIsOneWay(b, a);
  }

  /** The strategy as it is written, over `Compare`. */
  method MergeLastWrite<T>(a: Value<T>, b: Value<T>) returns (w: Value<T>)
    ensures w == LastWriteWins(a, b) && Prevails(w, a, b)
  {
    PrevailsExactly(LastWriteWins(a, b), a, b);
    if a.vector.Vector? && b.vector.Vector? {
      var clock := new VectorClock(b.vector.clock);
      var cmp := clock.Compare(a.vector.clock);
      if cmp == GREATER {
        return b;
      }
      if cmp == SMALLER {
        return a;
      }
    }
    return if b.timestamp > a.timestamp then b else a;
  }

  /** Values arriving one after the other. */
  ghost function Fold<T>(ws: seq<Value<T>>): (w: Value<T>)
    requires ws != []
    ensures w in ws
  {
    if |ws| == 1 then ws[0] else LastWriteWins(Fold(ws[..|ws| - 1]), ws[|ws| - 1])
  }

  /** `w` wins against every other write, whichever comes first. */
  ghost predicate Winner<T>(w: Value<T>, ws: seq<Value<T>>) {
    w in ws && forall i :: 0 <= i < |ws| && ws[i] != w ==> LastWriteWins(w, ws[i]) == w && LastWriteWins(ws[i], w) == w
  }

  lemma {:induction false} WinnerIsFold<T>(w: Value<T>, ws: seq<Value<T>>)
    requires Winner(w, ws)
    ensures Fold(ws) == w
  {
    if |ws| > 1 {
      var front, last := ws[..|ws| - 1], ws[|ws| - 1];
      assert ws == front + [last];
      if w in front {
        WinnerIsFold(w, front);
        assert last == ws[|ws| - 1];
      } else {
        var acc := Fold(front);
        var i :| 0 <= i < |front| && front[i] == acc;
        assert ws[i] == acc;
      }
    }
  }

  ghost predicate Reordered<T>(a: seq<Value<T>>, b: seq<Value<T>>) {
    multiset(a) == multiset(b)
  }

  lemma ReorderedMember<T>(a: seq<Value<T>>, b: seq<Value<T>>, w: Value<T>)
    requires Reordered(a, b)
    ensures w in a <==> w in b
  {
    assert w in multiset(a) <==> w in multiset(b);
  }

  lemma WinnerReordered<T>(w: Value<T>, a: seq<Value<T>>, b: seq<Value<T>>)
    requires Winner(w, a) && Reordered(a, b)
    ensures Winner(w, b)
  {
    ReorderedMember(a, b, w);
    forall i | 0 <= i < |b| && b[i] != w ensures LastWriteWins(w, b[i]) == w && LastWriteWins(b[i], w) == w {
      ReorderedMember(a, b, b[i]);
      var j :| 0 <= j < |a| && a[j] == b[i];
    }
  }

  ghost predicate NoRepeats<T>(ws: seq<Value<T>>) {
    forall i, j :: 0 <= i < j < |ws| ==> ws[i] != ws[j]
  }

  ghost predicate Converges<T(!new)>(ws: seq<Value<T>>)
    requires ws != []
  {
    forall p: seq<Value<T>> :: Reordered(ws, p) ==> p != [] && Fold(p) == Fold(ws)
  }

  /** The values at `i` and `j` brought to the front, in that order. */
  function Moved<T>(ws: seq<Value<T>>, i: nat, j: nat): seq<Value<T>>
    requires i < |ws| && j < |ws| && i != j
  {
    [ws[i], ws[j]] + if i < j then Rest(ws, i, j) else Rest(ws, j, i)
  }

  function Rest<T>(ws: seq<Value<T>>, a: nat, b: nat): seq<Value<T>>
    requires a < b < |ws|
  {
    ws[..a] + ws[a + 1..b] + ws[b + 1..]
  }

  lemma RestReorders<T>(ws: seq<Value<T>>, a: nat, b: nat)
    requires a < b < |ws|
    ensures multiset(ws) == multiset{ws[a], ws[b]} + multiset(Rest(ws, a, b))
  {
    assert ws == ws[..a] + [ws[a]] + ws[a + 1..b] + [ws[b]] + ws[b + 1..];
  }

  lemma MovedReorders<T>(ws: seq<Value<T>>, i: nat, j: nat)
    requires i < |ws| && j < |ws| && i != j
    ensures Reordered(ws, Moved(ws, i, j))
  {
    if i < j {
      RestReorders(ws, i, j);
    } else {
      RestReorders(ws, j, i);
    }
  }

  /** The rest of a fold never returns to a value that has been consumed and does not occur again. */
  lemma {:induction false} FoldLeaves<T>(ws: seq<Value<T>>, n: nat, x: Value<T>)
    requires 0 < n <= |ws| && Fold(ws[..n]) != x && x !in ws[n..]
    ensures Fold(ws) != x
  {
    if n == |ws| {
      assert ws[..n] == ws;
    } else {
      var front := ws[..|ws| - 1];
      assert ws[n..] == front[n..] + [ws[|ws| - 1]];
      assert front[..n] == ws[..n];
      FoldLeaves(front, n, x);
      assert ws[|ws| - 1] in ws[n..];
    }
  }

  /** Putting a value that beats the winner in some order next to it at the front changes the outcome. */
  lemma RivalChangesFold<T>(ws: seq<Value<T>>, i: nat, j: nat, x: Value<T>)
    requires i < |ws| && j < |ws| && i != j && NoRepeats(ws) && (ws[i] == x || ws[j] == x)
    requires LastWriteWins(ws[i], ws[j]) != x
    ensures Fold(Moved(ws, i, j)) != x
  {
    var p := Moved(ws, i, j);
    assert p[..2] == [ws[i], ws[j]];
    assert [ws[i], ws[j]][..1] == [ws[i]];
    assert Fold(p[..2]) == LastWriteWins(ws[i], ws[j]);
    var a, b := if i < j then i else j, if i < j then j else i;
    assert p[2..] == Rest(ws, a, b);
    NotInRest(ws, a, b, x);
    FoldLeaves(p, 2, x);
  }

  lemma NotInRest<T>(ws: seq<Value<T>>, a: nat, b: nat, x: Value<T>)
    requires a < b < |ws| && NoRepeats(ws) && (ws[a] == x || ws[b] == x)
    ensures x !in Rest(ws, a, b)
  {
  }

  /**
    Convergence, exactly: every order of arrival of distinct writes ends with the same value if and
    only if one of them beats each of the others in either order.
  */
  lemma ConvergesExactly<T(!new)>(ws: seq<Value<T>>)
    requires ws != [] && NoRepeats(ws)
    ensures Converges(ws) <==> exists w :: Winner(w, ws)
  {
    if w :| Winner(w, ws) {
      WinnerIsFold(w, ws);
      forall p | Reordered(ws, p) ensures p != [] && Fold(p) == w {
        WinnerReordered(w, ws, p);
        WinnerIsFold(w, p);
      }
    } else {
      var x := Fold(ws);
      var i :| 0 <= i < |ws| && ws[i] == x;
      assert !Winner(x, ws);
      var j :| 0 <= j < |ws| && ws[j] != x && !(LastWriteWins(x, ws[j]) == x && LastWriteWins(ws[j], x) == x);
      if LastWriteWins(x, ws[j]) != x {
        RivalChangesFold(ws, i, j, x);
        MovedReorders(ws, i, j);
        assert !Converges(ws);
      } else {
        RivalChangesFold(ws, j, i, x);
        MovedReorders(ws, j, i);
        assert !Converges(ws);
      }
    }
  }

  /** A write that dominates all others is what every order of arrival ends with, whatever the timestamps. */
  lemma DominatingWriteWins<T>(ws: seq<Value<T>>, p: seq<Value<T>>, w: Value<T>)
    requires w in ws && Reordered(ws, p) && forall v :: v in ws && v != w ==> Newer(w, v)
    ensures p != [] && Fold(p) == w
  {
    forall i | 0 <= i < |ws| && ws[i] != w ensures LastWriteWins(w, ws[i]) == w && LastWriteWins(ws[i], w) == w {
      assert ws[i] in ws && Newer(w, ws[i]);
      NewerIsOneWay(w, ws[i]);
    }
    WinnerReordered(w, ws, p);
    WinnerIsFold(w, p);
  }

  /** Timestamps are distinct and a write that dominates another is also later. */
  ghost predicate TimestampsRespectDominance<T>(ws: seq<Value<T>>) {
    forall i, j :: 0 <= i < |ws| && 0 <= j < |ws| && i != j ==>
      ws[i].timestamp != ws[j].timestamp && (Newer(ws[i], ws[j]) ==> ws[i].timestamp > ws[j].timestamp)
  }

  ghost predicate Latest<T>(w: Value<T>, ws: seq<Value<T>>) {
    w in ws && forall i :: 0 <= i < |ws| ==> ws[i].timestamp <= w.timestamp
  }

  lemma {:induction false} LatestExists<T>(ws: seq<Value<T>>) returns (w: Value<T>)
    requires ws != []
    ensures Latest(w, ws)
  {
    if |ws| == 1 {
      w := ws[0];
    } else {
      var front, last := ws[..|ws| - 1], ws[|ws| - 1];
      var v := LatestExists(front);
      w := if last.timestamp > v.timestamp then last else v;
      assert ws == front + [last];
      forall i | 0 <= i < |ws| ensures ws[i].timestamp <= w.timestamp {
        assert i < |front| ==> ws[i] == front[i];
      }
    }
  }

  /** With such timestamps every order of arrival ends with the latest write. */
  lemma LatestWriteWins<T>(ws: seq<Value<T>>, p: seq<Value<T>>)
    requires ws != [] && TimestampsRespectDominance(ws) && Reordered(ws, p)
    ensures p != [] && Latest(Fold(p), ws)
  {
    var w := LatestExists(ws);
    var k :| 0 <= k < |ws| && ws[k] == w;
    forall i | 0 <= i < |ws| && ws[i] != w ensures LastWriteWins(w, ws[i]) == w && LastWriteWins(ws[i], w) == w {
      assert i != k;
    }
    WinnerReordered(w, ws, p);
    WinnerIsFold(w, p);
  }

  function FirstInCircle<T>(d: T): Value<T> {
    Value(d, 3, Vector(map["x" := 1]), "x")
  }

  function SecondInCircle<T>(d: T): Value<T> {
    Value(d, 1, Vector(map["x" := 2]), "x")
  }

  function ThirdInCircle<T>(d: T): Value<T> {
    Value(d, 2, Vector(map["y" := 1]), "y")
  }

  lemma CircleClocks()
    ensures Dominates(map["x" := 2], map["x" := 1])
    ensures !Dominates(map["x" := 2], map["y" := 1]) && !Dominates(map["y" := 1], map["x" := 2])
    ensures !Dominates(map["x" := 1], map["y" := 1]) && !Dominates(map["y" := 1], map["x" := 1])
  {
    var a: Clock, b: Clock, c: Clock := map["x" := 1], map["x" := 2], map["y" := 1];
    assert At(a, "x") == 1 && At(b, "x") == 2 && At(c, "x") == 0;
    assert At(a, "y") == 0 && At(b, "y") == 0 && At(c, "y") == 1;
    assert Below(a, b);
  }

  /** Each of the three beats the one before it. */
  lemma CircleWins<T>(d: T)
    ensures var a, b, c := FirstInCircle(d), SecondInCircle(d), ThirdInCircle(d);
            LastWriteWins(a, b) == b && LastWriteWins(b, c) == c && LastWriteWins(c, a) == a
  {
    CircleClocks();
  }

  lemma FoldThree<T>(a: Value<T>, b: Value<T>, c: Value<T>)
    ensures Fold([a, b, c]) == LastWriteWins(LastWriteWins(a, b), c)
  {
    assert [a, b, c][..2] == [a, b] && [a, b][..1] == [a];
    assert Fold([a, b]) == LastWriteWins(a, b);
  }

  /** Three writes that beat each other in a circle: the outcome depends on the order. */
  lemma ThreeWritesInACircle<T(!new)>(d: T)
    ensures var a, b, c := FirstInCircle(d), SecondInCircle(d), ThirdInCircle(d);
            Fold([a, b, c]) == c && Fold([b, c, a]) == a && !Converges([a, b, c])
  {
    var a, b, c := FirstInCircle(d), SecondInCircle(d), ThirdInCircle(d);
    CircleWins(d);
    FoldThree(a, b, c);
    FoldThree(b, c, a);
    assert Reordered([a, b, c], [b, c, a]);
  }

  // ----- The engine -----

  datatype Merged<T> = Ok(value: T) | Err(error: string)

  type MergeFn<!T> = (T, T) -> Merged<T>

  function ClockOf(v: Vector): Clock {
    if v.Vector? then v.clock else map[]
  }

  class Engine<T(!new)> {
    var custom: map<string, MergeFn<T>>

    constructor ()
      ensures custom == map[]
    {
      custom := map[];
    }

    method Register(key: string, fn: MergeFn<T>)
      modifies this
      ensures custom == old(custom)[key := fn]
    {
      custom := custom[key := fn];
    }

    /** A registered function merges the data and joins the clocks; otherwise the last write wins. */
    method Merge(key: string, a: Value<T>, b: Value<T>) returns (r: Merged<Value<T>>)
      ensures key !in custom ==> r.Ok? && Prevails(r.value, a, b)
      ensures key in custom && custom[key](a.data, b.data).Err? ==> r == Err(custom[key](a.data, b.data).error)
      ensures key in custom && custom[key](a.data, b.data).Ok? ==>
                && r.Ok? && r.value.data == custom[key](a.data, b.data).value
                && r.value.timestamp == b.timestamp && r.value.region == b.region
                && r.value.vector.Vector? && IsJoin(r.value.vector.clock, ClockOf(a.vector), ClockOf(b.vector))
    {
      if key in custom {
        var v := custom[key](a.data, b.data);
        if v.Err? {
          return Err(v.error);
        }
        var clock := new VectorClock(ClockOf(a.vector));
        clock.Merge(ClockOf(b.vector));
        return Ok(Value(v.value, b.timestamp, Vector(clock.entries), b.region));
      }
      var w := MergeLastWrite(a, b);
      return Ok(w);
    }
  }
}
