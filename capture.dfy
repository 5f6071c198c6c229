/** The growable gesture buffer of mousepass.c (struct MousePassword) and the two
    operations that work on it in place: appending a captured event (the storing half
    of add_mouse_event) and normalize_events. */
module Capture {
  import opened Gesture

  /** Cells added to a full buffer at a time. */
  const GROWTH: nat := 50

  /** The first count cells of events hold the gesture; capacity cells are allocated. */
  class MousePassword {
    var events: array<MouseEvent>
    var count: int
    var capacity: int

    ghost predicate Valid()
      reads this, events
    {
      0 <= count <= capacity && capacity == events.Length && AllInRange(events[..count])
    }

    /** The gesture held in the buffer. */
    ghost function Contents(): seq<MouseEvent>
      reads this, events
      requires Valid()
    {
      events[..count]
    }

    constructor (initialCapacity: nat)
      ensures Valid() && fresh(events)
      ensures Contents() == [] && capacity == initialCapacity
    {
      events := new MouseEvent[initialCapacity];
      count := 0;
      capacity := initialCapacity;
    }

    /** Stores e after the last event, first growing a full buffer by GROWTH cells and
        copying the old cells over (realloc). Earlier events are left as they were. */
    method Append(e: MouseEvent)
      requires Valid() && InRange(e)
      modifies this, events
      ensures Valid()
      ensures Contents() == old(Contents()) + [e]
      ensures count == old(count) + 1
      ensures capacity == if old(count) == old(capacity) then old(capacity) + GROWTH else old(capacity)
      ensures events == old(events) || fresh(events)
    {
      if count >= capacity {
        capacity := capacity + GROWTH;
        var grown := new MouseEvent[capacity];
        forall i | 0 <= i < events.Length {
          grown[i] := events[i];
        }
        events := grown;
      }
      events[count] := e;
      count := count + 1;
    }

    /** Empties the buffer (count = 0), keeping its cells and capacity. */
    method Clear()
      requires Valid()
      modifies this
      ensures Valid() && Contents() == []
      ensures events == old(events) && capacity == old(capacity)
    {
      count := 0;
    }

    /** normalize_events: finds the bounding box in one pass, then rewrites every
        stored event in a second pass. Cells past count are not touched. */
    method Normalize()
      requires Valid()
      modifies events
      ensures Valid()
      ensures Contents() == Normalized(old(Contents()))
      ensures events[count..] == old(events[count..])
    {
      if count == 0 {
        return;
      }
      ghost var before := events[..count];
      var minX, minY := DBL_MAX, DBL_MAX;
      var maxX, maxY := -DBL_MAX, -DBL_MAX;
      for i := 0 to count
        invariant minX == Lowest(events[..i], X) && minY == Lowest(events[..i], Y)
        invariant maxX == Highest(events[..i], X) && maxY == Highest(events[..i], Y)
      {
        assert events[..i + 1][..i] == events[..i];
        minX := Min(minX, events[i].x);
        minY := Min(minY, events[i].y);
        maxX := Max(maxX, events[i].x);
        maxY := Max(maxY, events[i].y);
      }
      assert events[..count] == before;
      var width := maxX - minX;
      var height := maxY - minY;
      var scale := Max(width, height);
      if scale < MIN_SCALE {
        scale := 1.0;
      }
      assert scale == Scale(before);
      for i := 0 to count
        invariant forall j :: 0 <= j < i ==> events[j] == Rescaled(before[j], minX, minY, scale)
        invariant forall j :: i <= j < events.Length ==> events[j] == old(events[j])
      {
        events[i] := events[i].(x := (events[i].x - minX) / scale, y := (events[i].y - minY) / scale);
      }
      assert events[..count] == Normalized(before);
      NormalizedInUnitBox(before);
    }
  }
}
