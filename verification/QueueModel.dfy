/**
  The reference queue of a subscription: one list of frames in arrival order.  Taking a frame,
  evicting the oldest frame and offering a frame under an overflow policy are all scans of that list.
  The ring-based queue in `FrameQueues` and the step system in `Subscriptions` are both stated against it.
*/
module QueueModel {
  import opened Frames
  import opened Sequences

  function InLane(c: nat): Frame -> bool {
    (f: Frame) => Class(f) == c
  }

  /** The frames of priority class `c`, in arrival order. */
  function Lane(q: seq<Frame>, c: nat): seq<Frame> {
    Filter(q, InLane(c))
  }

  lemma LaneAppend(q: seq<Frame>, f: Frame, c: nat)
    ensures Lane(q + [f], c) == if Class(f) == c then Lane(q, c) + [f] else Lane(q, c)
  {
    assert (q + [f])[..|q|] == q;
  }

  /** `q[i]` is the earliest arrival of its class. */
  predicate IsHead(q: seq<Frame>, i: nat) {
    i < |q| && forall j :: 0 <= j < i ==> Class(q[j]) != Class(q[i])
  }

  /** `q[i]` is the earliest arrival of the highest class present. */
  predicate IsNext(q: seq<Frame>, i: nat) {
    && i < |q|
    && (forall j :: 0 <= j < |q| ==> Class(q[j]) <= Class(q[i]))
    && (forall j :: 0 <= j < i ==> Class(q[j]) < Class(q[i]))
  }

  /** Among the earliest arrivals of the classes, `q[i]` has the least sequence; ties go to the lower class. */
  predicate IsOldest(q: seq<Frame>, i: nat) {
    IsHead(q, i) && forall j :: 0 <= j < |q| && IsHead(q, j) ==> NoYounger(q[i], q[j])
  }

  predicate NoYounger(f: Frame, g: Frame) {
    f.sequence < g.sequence || (f.sequence == g.sequence && Class(f) <= Class(g))
  }

  function NextIndex(q: seq<Frame>): (i: nat)
    requires q != []
    ensures IsNext(q, i)
  {
    var last := |q| - 1;
    if last == 0 then 0
    else
      var i := NextIndex(q[..last]);
      assert forall j :: 0 <= j < last ==> q[..last][j] == q[j];
      if Class(q[last]) > Class(q[i]) then last else i
  }

  lemma HeadsOfPrefix(q: seq<Frame>, front: seq<Frame>, j: nat)
    requires |front| <= |q| && front == q[..|front|]
    ensures IsHead(front, j) <==> j < |front| && IsHead(q, j)
  {
  }

  lemma NoYoungerOrder(f: Frame, g: Frame, h: Frame)
    ensures NoYounger(f, g) && NoYounger(g, h) ==> NoYounger(f, h)
    ensures NoYounger(f, g) || NoYounger(g, f)
  {
  }

  /** One more arrival is the oldest head, or the oldest head stays. */
  lemma OldestGrows(q: seq<Frame>, i: nat, k: nat)
    requires |q| > 1 && IsOldest(q[..|q| - 1], i)
    requires k == if IsHead(q, |q| - 1) && !NoYounger(q[i], q[|q| - 1]) then |q| - 1 else i
    ensures IsOldest(q, k)
  {
    var front := q[..|q| - 1];
    HeadsOfPrefix(q, front, i);
    forall j | 0 <= j < |q| && IsHead(q, j)
      ensures NoYounger(q[k], q[j])
    {
      NoYoungerOrder(q[k], q[i], q[j]);
      if j < |front| {
        HeadsOfPrefix(q, front, j);
        assert front[i] == q[i] && front[j] == q[j];
        NoYoungerOrder(q[i], q[k], q[i]);
      }
    }
  }

  function OldestIndex(q: seq<Frame>): (i: nat)
    requires q != []
    ensures IsOldest(q, i)
  {
    var last := |q| - 1;
    if last == 0 then 0
    else
      var i := OldestIndex(q[..last]);
      var k := if IsHead(q, last) && !NoYounger(q[i], q[last]) then last else i;
      OldestGrows(q, i, k);
      k
  }

  lemma OldestUnique(q: seq<Frame>, i: nat)
    requires IsOldest(q, i)
    ensures i == OldestIndex(q)
  {
    var k := OldestIndex(q);
    assert NoYounger(q[i], q[k]) && NoYounger(q[k], q[i]);
  }

  /** Taking the next frame removes the head of the highest non-empty lane and leaves the other lanes alone. */
  lemma NextTakesLaneHead(q: seq<Frame>, c: nat)
    requires q != []
    ensures var i := NextIndex(q);
            && (c == Class(q[i]) ==> Lane(q, c) == [q[i]] + Lane(RemoveAt(q, i), c))
            && (c != Class(q[i]) ==> Lane(q, c) == Lane(RemoveAt(q, i), c))
            && (c > Class(q[i]) ==> Lane(q, c) == [])
  {
    var i := NextIndex(q);
    FilterRemove(q, i, InLane(c));
    if c > Class(q[i]) {
      FilterNone(q, InLane(c));
    }
  }

  lemma OldestTakesLaneHead(q: seq<Frame>, c: nat)
    requires q != []
    ensures var i := OldestIndex(q);
            && (c == Class(q[i]) ==> Lane(q, c) == [q[i]] + Lane(RemoveAt(q, i), c))
            && (c != Class(q[i]) ==> Lane(q, c) == Lane(RemoveAt(q, i), c))
  {
    FilterRemove(q, OldestIndex(q), InLane(c));
  }

  /** Every class arrived in sequence order. */
  predicate LanesSorted(q: seq<Frame>) {
    forall i, j :: 0 <= i < j < |q| && Class(q[i]) == Class(q[j]) ==> q[i].sequence <= q[j].sequence
  }

  ghost function HeadOf(q: seq<Frame>, j: nat): (h: nat)
    requires j < |q|
    ensures h <= j && IsHead(q, h) && Class(q[h]) == Class(q[j])
    decreases j
  {
    if IsHead(q, j) then j
    else
      var k: nat :| k < j && Class(q[k]) == Class(q[j]);
      HeadOf(q, k)
  }

  /** With every class in sequence order, the evicted frame is the oldest of the whole queue. */
  lemma OldestIsGlobalMinimum(q: seq<Frame>)
    requires q != [] && LanesSorted(q)
    ensures forall j :: 0 <= j < |q| ==> q[OldestIndex(q)].sequence <= q[j].sequence
  {
    forall j | 0 <= j < |q|
      ensures q[OldestIndex(q)].sequence <= q[j].sequence
    {
      var h := HeadOf(q, j);
      assert NoYounger(q[OldestIndex(q)], q[h]);
    }
  }
}
