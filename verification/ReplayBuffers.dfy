/**
  The per-topic replay journal: a ring that keeps the most recent frames of a topic, and the resume
  query over it.  `history` is everything ever journaled on the topic; the ring is its tail.
*/
module ReplayBuffers {
  import opened Frames
  import opened Rings
  import opened Sequences

  /** The frames a journal of the given capacity still holds. */
  function Retained(history: seq<Frame>, capacity: nat): (ring: seq<Frame>)
    ensures |ring| <= capacity
  {
    if |history| <= capacity then history else history[|history| - capacity..]
  }

  /** They are the last ones, as many as the journal can hold. */
  lemma RetainedIsTail(history: seq<Frame>, capacity: nat)
    ensures var ring := Retained(history, capacity);
            && |ring| == (if |history| <= capacity then |history| else capacity)
            && ring == history[|history| - |ring|..]
  {
  }

  /** The frames that were pushed out of the journal. */
  function Evicted(history: seq<Frame>, capacity: nat): seq<Frame> {
    history[..|history| - |Retained(history, capacity)|]
  }

  function NewerThan(since: Uint64): Frame -> bool {
    (f: Frame) => f.sequence > since
  }

  datatype Resume = Resume(frames: seq<Frame>, gap: bool)

  /** `after`: the retained frames newer than `since`, or a report that some may be missing. */
  function After(ring: seq<Frame>, capacity: nat, since: Uint64): Resume {
    if ring == [] then Resume([], false)
    else if |ring| == capacity && since != 0 && since < ring[0].sequence then Resume([], true)
    else Resume(Filter(ring, NewerThan(since)), false)
  }

  /** `last`: up to `count` most recent frames. */
  function Last(ring: seq<Frame>, count: nat): seq<Frame> {
    if count >= |ring| then ring else ring[|ring| - count..]
  }

  lemma LastOfTail(s: seq<Frame>, kept: nat, count: nat)
    requires kept <= |s|
    ensures var n := if count < kept then count else kept; Last(s[|s| - kept..], count) == s[|s| - n..]
  {
  }

  /** They are the last ones published, as many as asked for, retained and published. */
  lemma LastIsTail(history: seq<Frame>, capacity: nat, count: nat)
    ensures var out := Last(Retained(history, capacity), count);
            && |out| <= |history| && out == history[|history| - |out|..]
            && |out| <= count && |out| <= capacity && (|out| == count || |out| == capacity || |out| == |history|)
  {
    RetainedIsTail(history, capacity);
    LastOfTail(history, |Retained(history, capacity)|, count);
  }

  /** A gap is reported exactly when the journal is full and the resume point precedes all it holds. */
  lemma GapExactly(history: seq<Frame>, capacity: nat, since: Uint64)
    ensures After(Retained(history, capacity), capacity, since).gap <==>
              0 < capacity <= |history| && 0 < since < history[|history| - capacity].sequence
  {
    RetainedIsTail(history, capacity);
  }

  // ----- Resuming is complete -----

  lemma RetainedSplit(history: seq<Frame>, capacity: nat)
    ensures history == Evicted(history, capacity) + Retained(history, capacity)
    ensures Evicted(history, capacity) != [] ==> |Retained(history, capacity)| == capacity
  {
  }

  /** Without a reported gap, what is missing from the answer is exactly what was evicted and is newer. */
  lemma ResumeMisses(history: seq<Frame>, capacity: nat, since: Uint64)
    requires capacity > 0 && !After(Retained(history, capacity), capacity, since).gap
    ensures Filter(history, NewerThan(since)) ==
            Filter(Evicted(history, capacity), NewerThan(since)) +
            After(Retained(history, capacity), capacity, since).frames
  {
    RetainedSplit(history, capacity);
    FilterAppend(Evicted(history, capacity), Retained(history, capacity), NewerThan(since));
  }

  /**
    With frames journaled in sequence order, a resume that reports no gap returns every frame ever
    journaled on the topic with a larger sequence, in order, however often the ring wrapped.
  */
  lemma ResumeComplete(history: seq<Frame>, capacity: nat, since: Uint64)
    requires capacity > 0 && since > 0 && Increasing(history)
    requires !After(Retained(history, capacity), capacity, since).gap
    ensures After(Retained(history, capacity), capacity, since).frames == Filter(history, NewerThan(since))
  {
    ResumeMisses(history, capacity, since);
    var gone, ring := Evicted(history, capacity), Retained(history, capacity);
    assert forall i :: 0 <= i < |gone| ==> gone[i].sequence < history[|gone|].sequence;
    FilterNone(gone, NewerThan(since));
  }

  /** The least positive sequence from which a full journal answers. */
  function Threshold(ring: seq<Frame>): Uint64
    requires ring != []
  {
    if ring[0].sequence == 0 then 1 else ring[0].sequence
  }

  /**
    Whatever the journaling order, every gap-free resume is complete exactly when no evicted frame is
    numbered above the oldest retained one.
  */
  lemma ResumeCompleteExactly(history: seq<Frame>, capacity: nat)
    requires 0 < capacity <= |history|
    ensures (forall since: Uint64 ::
               since > 0 && !After(Retained(history, capacity), capacity, since).gap ==>
                 After(Retained(history, capacity), capacity, since).frames == Filter(history, NewerThan(since)))
            <==>
            (forall f :: f in Evicted(history, capacity) ==>
               f.sequence <= Threshold(Retained(history, capacity)))
  {
    var gone, ring := Evicted(history, capacity), Retained(history, capacity);
    var least := Threshold(ring);
    if forall f :: f in gone ==> f.sequence <= least {
      forall since: Uint64 | since > 0 && !After(ring, capacity, since).gap
        ensures After(ring, capacity, since).frames == Filter(history, NewerThan(since))
      {
        ResumeMisses(history, capacity, since);
        FilterNone(gone, NewerThan(since));
      }
    } else {
      var f :| f in gone && f.sequence > least;
      ResumeMisses(history, capacity, least);
      FilterMember(gone, NewerThan(least), f);
      assert After(ring, capacity, least).frames != Filter(history, NewerThan(least));
    }
  }

  function Numbered(sequence: Uint64): Frame {
    ZERO_FRAME.(sequence := sequence)
  }

  /**
    `Publish` draws its sequence number before it takes the bus lock, so a topic can be journaled out of
    order; then a resume may skip a frame without reporting a gap.
  */
  lemma OutOfOrderJournalHidesAGap()
    ensures exists history: seq<Frame>, since: Uint64 ::
              && since > 0
              && !After(Retained(history, 1), 1, since).gap
              && After(Retained(history, 1), 1, since).frames == []
              && Filter(history, NewerThan(since)) != []
  {
    var history := [Numbered(2), Numbered(1)];
    assert Retained(history, 1) == [Numbered(1)];
    assert Filter([Numbered(1)], NewerThan(1)) == [];
    FilterMember(history, NewerThan(1), Numbered(2));
    assert !After(Retained(history, 1), 1, 1).gap;
  }

  /** A frame newer than `since` is no longer in the journal. */
  predicate Lost(history: seq<Frame>, capacity: nat, since: Uint64) {
    exists f :: f in Evicted(history, capacity) && f.sequence > since
  }

  /** With frames in sequence order every real loss is reported. */
  lemma LossIsReported(history: seq<Frame>, capacity: nat, since: Uint64)
    requires 0 < capacity && since > 0 && Increasing(history) && Lost(history, capacity, since)
    ensures After(Retained(history, capacity), capacity, since).gap
  {
    var gone, ring := Evicted(history, capacity), Retained(history, capacity);
    var f :| f in gone && f.sequence > since;
    var i :| 0 <= i < |gone| && gone[i] == f;
    assert ring[0] == history[|gone|] && history[i] == f;
  }

  /** The sequence of the newest evicted frame; zero when nothing was evicted. */
  function LastGone(history: seq<Frame>, capacity: nat): nat {
    var gone := Evicted(history, capacity);
    if gone == [] then 0 else gone[|gone| - 1].sequence
  }

  /**
    A report without a loss is possible too: on a full ring, exactly from the newest evicted sequence up
    to the last one before the oldest retained frame.
  */
  lemma FalseAlarmInterval(history: seq<Frame>, capacity: nat, since: Uint64)
    requires 0 < capacity && since > 0 && Increasing(history)
    ensures After(Retained(history, capacity), capacity, since).gap && !Lost(history, capacity, since) <==>
            |history| >= capacity && LastGone(history, capacity) <= since < Retained(history, capacity)[0].sequence
  {
    var gone, ring := Evicted(history, capacity), Retained(history, capacity);
    if gone != [] {
      assert ring[0] == history[|gone|];
      assert forall i :: 0 <= i < |gone| ==> gone[i].sequence <= gone[|gone| - 1].sequence < ring[0].sequence;
      assert gone[|gone| - 1] in gone;
    }
  }

  // ----- The ring in place -----

  class ReplayBuffer {
    const frames: array<Frame>
    var next: nat
    var len: nat
    ghost var ring: seq<Frame>
    ghost var history: seq<Frame>

    /** The slot of the oldest retained frame. */
    ghost function Start(): nat
      requires len <= frames.Length
      reads this
    {
      Back(next, len, frames.Length)
    }

    /** The slots from `Start` on, with wrap-around, hold `ring`. */
    ghost predicate Holds()
      reads this, frames
    {
      && len == |ring| <= frames.Length
      && next <= frames.Length
      && (frames.Length > 0 ==> next < frames.Length)
      && (forall i :: 0 <= i < len ==>
            Slot(Start(), i, frames.Length) < frames.Length && frames[Slot(Start(), i, frames.Length)] == ring[i])
    }

    ghost predicate Valid()
      reads this, frames
    {
      Holds() && ring == Retained(history, frames.Length)
    }

    constructor (capacity: nat)
      ensures Valid() && fresh(frames) && frames.Length == capacity && history == []
    {
      frames := new Frame[capacity](_ => ZERO_FRAME);
      next, len := 0, 0;
      ring, history := [], [];
    }

    method Add(frame: Frame)
      requires Valid()
      modifies this, frames
      ensures Valid() && history == old(history) + [frame]
    {
      RetainedGrows(history, frame, frames.Length);
      history := history + [frame];
      if frames.Length == 0 {
        return;
      }
      Store(frame);
    }

    /** Writes the next slot; a full ring loses its oldest frame. */
    method Store(frame: Frame)
      requires Holds() && frames.Length > 0
      modifies this`next, this`len, this`ring, frames
      ensures Holds()
      ensures ring == (if |old(ring)| < frames.Length then old(ring) else old(ring)[1..]) + [frame]
    {
      ghost var start := Start();
      frames[next] := frame;
      next := Wrap(next, 1, frames.Length);
      if len < frames.Length {
        len := len + 1;
        ring := ring + [frame];
        assert Start() == start;
      } else {
        ring := ring[1..] + [frame];
        assert forall i :: 0 <= i < len - 1 ==> Slot(Start(), i, frames.Length) == Slot(start, i + 1, frames.Length);
      }
    }

    method LastFrames(count: nat) returns (out: seq<Frame>)
      requires Valid() && frames.Length > 0
      ensures out == Last(Retained(history, frames.Length), count)
    {
      var n := frames.Length;
      var take := if count > len then len else count;
      var start := StepBack(next, take, n);
      ghost var skip := len - take;
      out := [];
      for i := 0 to take
        invariant out == ring[skip..skip + i]
      {
        var slot := Wrap(start, i, n);
        BackSkip(next, len, take, i, n);
        out := out + [frames[slot]];
      }
      assert out == Last(ring, count);
    }

    method FramesAfter(since: Uint64) returns (out: seq<Frame>, gap: bool)
      requires Valid()
      ensures Resume(out, gap) == After(Retained(history, frames.Length), frames.Length, since)
    {
      if len == 0 {
        return [], false;
      }
      var n := frames.Length;
      var start := StepBack(next, len, n);
      assert Slot(Start(), 0, n) == start;
      var oldest := frames[start].sequence;
      if len == n && since != 0 && since < oldest {
        return [], true;
      }
      out, gap := [], false;
      for i := 0 to len
        invariant out == Filter(ring[..i], NewerThan(since))
      {
        var slot := Wrap(start, i, n);
        var frame := frames[slot];
        assert ring[..i + 1][..i] == ring[..i];
        if frame.sequence > since {
          out := out + [frame];
        }
      }
      assert ring[..len] == ring;
    }
  }

  lemma RetainedGrows(history: seq<Frame>, frame: Frame, capacity: nat)
    ensures capacity == 0 ==> Retained(history + [frame], capacity) == []
    ensures capacity > 0 ==>
              var ring := Retained(history, capacity);
              Retained(history + [frame], capacity) == (if |ring| < capacity then ring else ring[1..]) + [frame]
  {
  }
}
