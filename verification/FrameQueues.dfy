/**
  The ring buffers of a subscription and the four-class queue built from them, updated in place.
  The queue is specified by its arrivals, the list model of `QueueModel`.
*/
module FrameQueues {
  import opened Frames
  import opened Sequences
  import opened QueueModel
  import opened Rings

  class RingQueue {
    const items: array<Frame>
    var head: nat
    var len: nat
    ghost var contents: seq<Frame>

    /** The live slots, read from `head` with wrap-around, are the contents. */
    ghost predicate Valid()
      reads this, items
    {
      && len == |contents| <= items.Length
      && (items.Length > 0 ==> head < items.Length)
      && (forall i :: 0 <= i < len ==>
           Slot(head, i, items.Length) < items.Length && contents[i] == items[Slot(head, i, items.Length)])
    }

    constructor (capacity: nat)
      ensures Valid() && fresh(items) && items.Length == capacity && contents == []
    {
      items := new Frame[capacity](_ => ZERO_FRAME);
      head, len := 0, 0;
      contents := [];
    }

    /** Overwrites a free slot only: the live slots keep their frames. */
    method Push(frame: Frame)
      requires Valid() && len < items.Length
      modifies this, items
      ensures Valid() && head == old(head)
      ensures contents == old(contents) + [frame]
    {
      var idx := Wrap(head, len, items.Length);
      items[idx] := frame;
      len := len + 1;
      contents := contents + [frame];
    }

    method Peek() returns (frame: Frame, ok: bool)
      requires Valid()
      ensures ok == (contents != [])
      ensures ok ==> frame == contents[0]
    {
      if len == 0 {
        return ZERO_FRAME, false;
      }
      assert Slot(head, 0, items.Length) == head;
      return items[head], true;
    }

    method Pop() returns (frame: Frame, ok: bool)
      requires Valid()
      modifies this, items
      ensures Valid()
      ensures ok == (old(contents) != [])
      ensures ok ==> frame == old(contents)[0] && contents == old(contents)[1..]
      ensures !ok ==> contents == old(contents)
    {
      if len == 0 {
        return ZERO_FRAME, false;
      }
      assert Slot(head, 0, items.Length) == head;
      frame, ok := items[head], true;
      items[head] := ZERO_FRAME;
      ghost var before := head;
      head := Wrap(head, 1, items.Length);
      len := len - 1;
      contents := contents[1..];
      assert forall i :: 0 <= i < len ==> Slot(head, i, items.Length) == Slot(before, i + 1, items.Length);
    }
  }

  // ----- Facts about lanes -----

  lemma {:induction false} LaneLength(q: seq<Frame>)
    ensures |q| == |Lane(q, 0)| + |Lane(q, 1)| + |Lane(q, 2)| + |Lane(q, 3)|
  {
    if q != [] {
      var front, last := q[..|q| - 1], q[|q| - 1];
      LaneLength(front);
    }
  }

  /** A non-empty lane starts with the earliest arrival of its class. */
  lemma LaneHead(q: seq<Frame>, c: nat) returns (h: nat)
    requires Lane(q, c) != []
    ensures IsHead(q, h) && Class(q[h]) == c && Lane(q, c)[0] == q[h]
  {
    FilterMember(q, InLane(c), Lane(q, c)[0]);
    var j: nat :| j < |q| && Class(q[j]) == c;
    h := HeadOf(q, j);
    FilterRemove(q, h, InLane(c));
  }

  /** The highest non-empty lane is the class of the next frame. */
  lemma HighestLane(q: seq<Frame>, p: nat)
    requires p < 4 && Lane(q, p) != []
    requires forall c :: p < c < 4 ==> Lane(q, c) == []
    ensures q != [] && Class(q[NextIndex(q)]) == p && Lane(q, p)[0] == q[NextIndex(q)]
  {
    NextTakesLaneHead(q, p);
    NextTakesLaneHead(q, Class(q[NextIndex(q)]));
  }

  /** `lanes` are the four classes of `q`. */
  ghost predicate IsSplit(lanes: seq<seq<Frame>>, q: seq<Frame>) {
    |lanes| == 4 && forall c :: 0 <= c < 4 ==> lanes[c] == Lane(q, c)
  }

  lemma SplitPush(lanes: seq<seq<Frame>>, q: seq<Frame>, f: Frame)
    requires IsSplit(lanes, q)
    ensures |lanes[Class(f)]| <= |q|
    ensures IsSplit(lanes[Class(f) := lanes[Class(f)] + [f]], q + [f])
  {
    LaneLength(q);
    forall c | 0 <= c < 4
      ensures lanes[Class(f) := lanes[Class(f)] + [f]][c] == Lane(q + [f], c)
    {
      LaneAppend(q, f, c);
    }
  }

  lemma SplitPop(lanes: seq<seq<Frame>>, q: seq<Frame>, p: nat)
    requires IsSplit(lanes, q) && p < 4 && lanes[p] != []
    requires forall c :: p < c < 4 ==> lanes[c] == []
    ensures q != [] && lanes[p][0] == q[NextIndex(q)]
    ensures IsSplit(lanes[p := lanes[p][1..]], RemoveAt(q, NextIndex(q)))
  {
    HighestLane(q, p);
    forall c | 0 <= c < 4
      ensures lanes[p := lanes[p][1..]][c] == Lane(RemoveAt(q, NextIndex(q)), c)
    {
      NextTakesLaneHead(q, c);
    }
  }

  /** Lane `s` starts with the earliest-numbered lane head below `bound`, the lower class winning a tie. */
  ghost predicate SelectsOldest(lanes: seq<seq<Frame>>, s: nat, bound: nat)
    requires |lanes| == 4
  {
    && s < bound <= 4 && lanes[s] != []
    && (forall c :: 0 <= c < s && lanes[c] != [] ==> lanes[s][0].sequence < lanes[c][0].sequence)
    && (forall c :: s < c < bound && lanes[c] != [] ==> lanes[s][0].sequence <= lanes[c][0].sequence)
  }

  lemma SplitPopOldest(lanes: seq<seq<Frame>>, q: seq<Frame>, s: nat)
    requires IsSplit(lanes, q) && SelectsOldest(lanes, s, 4)
    ensures q != [] && lanes[s][0] == q[OldestIndex(q)]
    ensures IsSplit(lanes[s := lanes[s][1..]], RemoveAt(q, OldestIndex(q)))
  {
    forall c | 0 <= c < 4 && Lane(q, c) != []
      ensures NoYounger(Lane(q, s)[0], Lane(q, c)[0])
    {
      var g := LaneHead(q, s);
      var h := LaneHead(q, c);
    }
    OldestLane(q, s);
    forall c | 0 <= c < 4
      ensures lanes[s := lanes[s][1..]][c] == Lane(RemoveAt(q, OldestIndex(q)), c)
    {
      OldestTakesLaneHead(q, c);
    }
  }

  lemma SplitEmpty(lanes: seq<seq<Frame>>, q: seq<Frame>)
    requires IsSplit(lanes, q)
    ensures (forall c :: 0 <= c < 4 ==> lanes[c] == []) <==> q == []
  {
    LaneLength(q);
  }

  /** The lanes of all classes above `p` are empty. */
  ghost predicate EmptyAbove(lanes: seq<seq<Frame>>, p: int) {
    forall c :: p < c < |lanes| && 0 <= c ==> lanes[c] == []
  }

  lemma SplitOfNothing()
    ensures IsSplit([[], [], [], []], [])
  {
  }

  class FrameQueue {
    const queues: seq<RingQueue>
    const capacity: nat
    var len: nat
    ghost var lanes: seq<seq<Frame>>
    ghost var arrivals: seq<Frame>
    ghost const Repr: set<object>

    /** Four distinct rings of the same capacity. */
    ghost predicate Shape() {
      && |queues| == 4
      && this !in Repr
      && (forall c :: 0 <= c < 4 ==>
            queues[c] in Repr && queues[c].items in Repr && queues[c].items.Length == capacity)
      && (forall c, d :: 0 <= c < d < 4 ==> queues[c] != queues[d] && queues[c].items != queues[d].items)
    }

    ghost predicate RingsValid()
      reads this, Repr
    {
      && Shape()
      && |lanes| == 4
      && (forall c :: 0 <= c < 4 ==> queues[c].Valid() && queues[c].contents == lanes[c])
    }

    ghost predicate Valid()
      reads this, Repr
    {
      RingsValid() && len == |arrivals| <= capacity && IsSplit(lanes, arrivals)
    }

    constructor (capacity: nat)
      ensures Valid() && fresh(Repr)
      ensures this.capacity == capacity && arrivals == []
    {
      var q0 := new RingQueue(capacity);
      var q1 := new RingQueue(capacity);
      var q2 := new RingQueue(capacity);
      var q3 := new RingQueue(capacity);
      queues := [q0, q1, q2, q3];
      this.capacity := capacity;
      len := 0;
      lanes, arrivals := [[], [], [], []], [];
      Repr := {q0, q1, q2, q3, q0.items, q1.items, q2.items, q3.items};
      new;
      SplitOfNothing();
      assert Shape();
    }

    method PushRing(c: nat, frame: Frame)
      requires RingsValid() && c < 4 && |lanes[c]| < capacity
      modifies this`lanes, Repr
      ensures RingsValid()
      ensures lanes == old(lanes)[c := old(lanes)[c] + [frame]]
    {
      queues[c].Push(frame);
      lanes := lanes[c := lanes[c] + [frame]];
    }

    method PopRing(c: nat) returns (frame: Frame, ok: bool)
      requires RingsValid() && c < 4
      modifies this`lanes, Repr
      ensures RingsValid()
      ensures ok == (old(lanes)[c] != [])
      ensures ok ==> frame == old(lanes)[c][0] && lanes == old(lanes)[c := old(lanes)[c][1..]]
      ensures !ok ==> lanes == old(lanes)
    {
      frame, ok := queues[c].Pop();
      if ok {
        lanes := lanes[c := lanes[c][1..]];
      }
    }

    method Push(frame: Frame) returns (ok: bool)
      requires Valid()
      modifies this, Repr
      ensures Valid()
      ensures ok == (|old(arrivals)| < capacity)
      ensures arrivals == if ok then old(arrivals) + [frame] else old(arrivals)
    {
      if len == capacity {
        return false;
      }
      var priority: nat := frame.priority;
      if priority < PRIORITY_BULK || priority > PRIORITY_CRITICAL {
        priority := PRIORITY_NORMAL;
      }
      SplitPush(lanes, arrivals, frame);
      PushRing(priority, frame);
      len := len + 1;
      arrivals := arrivals + [frame];
      return true;
    }

    /** Returns the earliest arrival of the highest class present. */
    method Pop() returns (frame: Frame, ok: bool)
      requires Valid()
      modifies this, Repr
      ensures Valid()
      ensures ok == (old(arrivals) != [])
      ensures ok ==>
                && frame == old(arrivals)[NextIndex(old(arrivals))]
                && arrivals == RemoveAt(old(arrivals), NextIndex(old(arrivals)))
      ensures !ok ==> arrivals == old(arrivals)
    {
      var priority: int := PRIORITY_CRITICAL;
      while priority >= PRIORITY_BULK
        invariant -1 <= priority <= PRIORITY_CRITICAL
        invariant Valid() && arrivals == old(arrivals) && EmptyAbove(lanes, priority)
      {
        frame, ok := PopFrom(priority);
        if ok {
          return;
        }
        priority := priority - 1;
      }
      SplitEmpty(lanes, arrivals);
      return ZERO_FRAME, false;
    }

    /** Pops the ring of class `c` when all higher rings are empty. */
    method PopFrom(c: nat) returns (frame: Frame, ok: bool)
      requires Valid() && c < 4 && EmptyAbove(lanes, c)
      modifies this, Repr
      ensures Valid()
      ensures ok ==>
                && old(arrivals) != []
                && frame == old(arrivals)[NextIndex(old(arrivals))]
                && arrivals == RemoveAt(old(arrivals), NextIndex(old(arrivals)))
      ensures !ok ==> arrivals == old(arrivals) && EmptyAbove(lanes, c - 1)
    {
      if lanes[c] != [] {
        SplitPop(lanes, arrivals, c);
      }
      frame, ok := PopRing(c);
      if ok {
        len := len - 1;
        arrivals := RemoveAt(arrivals, NextIndex(arrivals));
      }
    }

    /** Returns the earliest-numbered of the lane heads, the lower class winning a tie. */
    method PopOldest() returns (frame: Frame, ok: bool)
      requires Valid()
      modifies this, Repr
      ensures Valid()
      ensures ok == (old(arrivals) != [])
      ensures ok ==>
                && frame == old(arrivals)[OldestIndex(old(arrivals))]
                && arrivals == RemoveAt(old(arrivals), OldestIndex(old(arrivals)))
      ensures !ok ==> arrivals == old(arrivals)
    {
      var selected := OldestRing();
      SplitEmpty(lanes, arrivals);
      if selected == -1 {
        return ZERO_FRAME, false;
      }
      SplitPopOldest(lanes, arrivals, selected);
      frame, ok := PopRing(selected);
      len := len - 1;
      arrivals := RemoveAt(arrivals, OldestIndex(arrivals));
    }

    /** The scan over the ring heads that `PopOldest` starts with. */
    method OldestRing() returns (selected: int)
      requires RingsValid()
      ensures -1 <= selected < 4
      ensures selected == -1 <==> forall c :: 0 <= c < 4 ==> lanes[c] == []
      ensures selected != -1 ==> SelectsOldest(lanes, selected, 4)
    {
      selected := -1;
      var oldest := ZERO_FRAME;
      var priority := 0;
      while priority <= PRIORITY_CRITICAL
        invariant 0 <= priority <= 4 && -1 <= selected < priority
        invariant selected == -1 ==> forall c :: 0 <= c < priority ==> lanes[c] == []
        invariant selected != -1 ==> SelectsOldest(lanes, selected, priority) && oldest == lanes[selected][0]
      {
        var f, found := queues[priority].Peek();
        if found && (selected == -1 || f.sequence < oldest.sequence) {
          selected := priority;
          oldest := f;
        }
        priority := priority + 1;
      }
    }

    /** Empties every ring and returns how many frames were queued. */
    method Clear() returns (dropped: nat)
      requires Valid()
      modifies this, Repr
      ensures Valid()
      ensures dropped == |old(arrivals)| && arrivals == []
    {
      dropped := len;
      var priority := 0;
      while priority < 4
        invariant 0 <= priority <= 4
        invariant RingsValid()
        invariant forall c :: 0 <= c < priority ==> lanes[c] == []
      {
        while queues[priority].len > 0
          invariant RingsValid()
          invariant forall c :: 0 <= c < priority ==> lanes[c] == []
          decreases |lanes[priority]|
        {
          var _, _ := PopRing(priority);
        }
        priority := priority + 1;
      }
      len := 0;
      arrivals := [];
    }
  }

  /** The selected lane head is the frame the list model calls oldest. */
  lemma OldestLane(q: seq<Frame>, s: nat)
    requires s < 4 && Lane(q, s) != []
    requires forall c :: 0 <= c < 4 && Lane(q, c) != [] ==> NoYounger(Lane(q, s)[0], Lane(q, c)[0])
    ensures q != [] && Class(q[OldestIndex(q)]) == s && Lane(q, s)[0] == q[OldestIndex(q)]
  {
    var h := LaneHead(q, s);
    var i := OldestIndex(q);
    OldestTakesLaneHead(q, Class(q[i]));
    assert NoYounger(q[i], q[h]) && NoYounger(q[h], q[i]);
    OldestTakesLaneHead(q, s);
  }
}
