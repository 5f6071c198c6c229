/** The Python prototype of the gesture password (pass.py): class MousePassword, its
    normalizer and scorer, and the key and timeout handling of its main loop. It is a
    separate design from the C lock and shares no definitions with it. */
module Prototype {

  /** Seconds a gesture may last (RECORD_TIME). */
  const RECORD_TIME: real := 4.0
  /** Score a gesture must reach (non-strictly) to be accepted. */
  const THRESHOLD: real := 0.85
  const POSITION_WEIGHT: real := 0.6
  const TIME_WEIGHT: real := 0.3
  const SEQUENCE_WEIGHT: real := 0.1
  /** Moves closer than this to the last event are dropped. */
  const MIN_DISTANCE: real := 2.0

  datatype Kind = Move | Click

  /** One entry of the events list: its "type", "pos" and "time". */
  datatype Event = Event(kind: Kind, x: real, y: real, time: real)

  /** The texts message takes; Accepted and Rejected carry the similarity they show. */
  datatype Message =
    | NoMessage
    | RecordPrompt      // start_recording
    | VerifyPrompt      // start_verification
    | NoReference       // start_verification without a reference
    | NotEntered        // finish_input without events
    | Saved             // finish_input while recording
    | Accepted(similarity: real)
    | Rejected(similarity: real)
    | ResetDone         // key C

  /** message_color: the default text colour, green for a match, red for a mismatch. */
  datatype Color = TextColor | Green | Red

  /** compare_events either returns a score or raises ZeroDivisionError (no event to
      average over and equal click counts). */
  datatype Comparison = Score(value: real) | ZeroDivision

  datatype KeyName = KeyR | KeyV | KeyC | Escape | OtherKey

  /** The pygame events the main loop reacts to. */
  datatype PyEvent =
    | Quit
    | KeyDown(key: KeyName)
    | MouseMotion(x: int, y: int)
    | MouseButtonDown(x: int, y: int)

  function Smaller(a: real, b: real): real { if a <= b then a else b }
  function Larger(a: real, b: real): real { if a >= b then a else b }
  function Abs(a: real): real { if a < 0.0 then -a else a }

  // ---------------------------------------------------------------- normalize_events

  /** Python's min over a non-empty list. */
  function Least(v: seq<real>): real
    requires |v| > 0
  {
    if |v| == 1 then v[0] else Smaller(Least(v[..|v| - 1]), v[|v| - 1])
  }

  /** Python's max over a non-empty list. */
  function Greatest(v: seq<real>): real
    requires |v| > 0
  {
    if |v| == 1 then v[0] else Larger(Greatest(v[..|v| - 1]), v[|v| - 1])
  }

  lemma {:induction false} LeastIsMinimum(v: seq<real>)
    requires |v| > 0
    ensures forall i :: 0 <= i < |v| ==> Least(v) <= v[i]
    ensures exists i :: 0 <= i < |v| && Least(v) == v[i]
  {
    if |v| > 1 {
      var w := v[..|v| - 1];
      LeastIsMinimum(w);
      var k :| 0 <= k < |w| && Least(w) == w[k];
      if Least(w) <= v[|v| - 1] {
        assert v[k] == w[k];
      }
      forall i | 0 <= i < |v| - 1 ensures Least(v) <= v[i] {
        assert v[i] == w[i];
      }
    } else {
      assert Least(v) == v[0];
    }
  }

  lemma {:induction false} GreatestIsMaximum(v: seq<real>)
    requires |v| > 0
    ensures forall i :: 0 <= i < |v| ==> v[i] <= Greatest(v)
  {
    if |v| > 1 {
      var w := v[..|v| - 1];
      GreatestIsMaximum(w);
      forall i | 0 <= i < |v| - 1 ensures v[i] <= Greatest(v) {
        assert v[i] == w[i];
      }
    }
  }

  function Xs(events: seq<Event>): (r: seq<real>)
    ensures |r| == |events| && forall i :: 0 <= i < |r| ==> r[i] == events[i].x
  {
    seq(|events|, i requires 0 <= i < |events| => events[i].x)
  }

  function Ys(events: seq<Event>): (r: seq<real>)
    ensures |r| == |events| && forall i :: 0 <= i < |r| ==> r[i] == events[i].y
  {
    seq(|events|, i requires 0 <= i < |events| => events[i].y)
  }

  /** scale = max(width, height), each side taken as at least 1. */
  function SideScale(events: seq<Event>): (r: real)
    requires |events| > 0
    ensures r >= 1.0
  {
    var width := Larger(1.0, Greatest(Xs(events)) - Least(Xs(events)));
    var height := Larger(1.0, Greatest(Ys(events)) - Least(Ys(events)));
    Larger(width, height)
  }

  /** normalize_events: a new list; the input is not touched. */
  function NormalizeEvents(events: seq<Event>): (r: seq<Event>)
    ensures |r| == |events|
    ensures forall i :: 0 <= i < |r| ==> r[i].kind == events[i].kind && r[i].time == events[i].time / RECORD_TIME
  {
    if events == [] then []
    else
      var minX := Least(Xs(events));
      var minY := Least(Ys(events));
      var scale := SideScale(events);
      seq(|events|, i requires 0 <= i < |events| =>
        Event(events[i].kind, (events[i].x - minX) / scale, (events[i].y - minY) / scale, events[i].time / RECORD_TIME))
  }

  lemma ShiftedInUnit(v: real, lo: real, hi: real, scale: real)
    requires lo <= v <= hi && scale >= 1.0 && hi - lo <= scale
    ensures 0.0 <= (v - lo) / scale <= 1.0
  {
    QuotientMonotone(v - lo, scale, scale);
    QuotientMonotone(0.0, v - lo, scale);
    assert scale / scale == 1.0;
  }

  /** Every normalized coordinate lies in [0, 1], since the scale is at least 1 and covers
      both sides of the bounding box. */
  lemma NormalizeEventsInUnitBox(events: seq<Event>)
    ensures var r := NormalizeEvents(events);
      forall i :: 0 <= i < |r| ==> 0.0 <= r[i].x <= 1.0 && 0.0 <= r[i].y <= 1.0
  {
    if events != [] {
      var r := NormalizeEvents(events);
      var xs, ys := Xs(events), Ys(events);
      LeastIsMinimum(xs);
      LeastIsMinimum(ys);
      GreatestIsMaximum(xs);
      GreatestIsMaximum(ys);
      forall i | 0 <= i < |r| ensures 0.0 <= r[i].x <= 1.0 && 0.0 <= r[i].y <= 1.0 {
        ShiftedInUnit(xs[i], Least(xs), Greatest(xs), SideScale(events));
        ShiftedInUnit(ys[i], Least(ys), Greatest(ys), SideScale(events));
      }
    }
  }

  /** The leftmost and the topmost event land on 0. */
  lemma NormalizeEventsTouchesAxes(events: seq<Event>)
    requires events != []
    ensures var r := NormalizeEvents(events);
      (exists i :: 0 <= i < |r| && r[i].x == 0.0) && (exists j :: 0 <= j < |r| && r[j].y == 0.0)
  {
    var r := NormalizeEvents(events);
    LeastIsMinimum(Xs(events));
    LeastIsMinimum(Ys(events));
    var scale := SideScale(events);
    var i :| 0 <= i < |events| && Least(Xs(events)) == Xs(events)[i];
    var j :| 0 <= j < |events| && Least(Ys(events)) == Ys(events)[j];
    assert r[i].x == (events[i].x - Least(Xs(events))) / scale;
    assert r[i].x == 0.0;
    assert r[j].y == (events[j].y - Least(Ys(events))) / scale;
    assert r[j].y == 0.0;
  }

  // ---------------------------------------------------------------- compare_events

  /** The square root behind "** 0.5", known only to give 0 at 0 and never be negative. */
  ghost predicate RootLike(sqrt: real -> real)
  {
    sqrt(0.0) == 0.0 && forall v :: v >= 0.0 ==> sqrt(v) >= 0.0
  }

  function Clicks(s: seq<Event>): nat
  {
    if s == [] then 0 else Clicks(s[..|s| - 1]) + (if s[|s| - 1].kind == Click then 1 else 0)
  }

  function SquaredGap(a: Event, b: Event): real
  {
    (a.x - b.x) * (a.x - b.x) + (a.y - b.y) * (a.y - b.y)
  }

  function PositionPoints(a: Event, b: Event, sqrt: real -> real): real
  {
    1.0 - Smaller(1.0, sqrt(SquaredGap(a, b)))
  }

  function TimePoints(a: Event, b: Event): real
  {
    1.0 - Smaller(1.0, Abs(a.time - b.time))
  }

  function SequencePoints(a: Event, b: Event): real
  {
    if a.kind == b.kind then 1.0 else 0.0
  }

  /** position_score before averaging: over the first n pairs. */
  function PositionTotal(r: seq<Event>, c: seq<Event>, n: nat, sqrt: real -> real): real
    requires n <= |r| && n <= |c|
  {
    if n == 0 then 0.0 else PositionTotal(r, c, n - 1, sqrt) + PositionPoints(r[n - 1], c[n - 1], sqrt)
  }

  function TimeTotal(r: seq<Event>, c: seq<Event>, n: nat): real
    requires n <= |r| && n <= |c|
  {
    if n == 0 then 0.0 else TimeTotal(r, c, n - 1) + TimePoints(r[n - 1], c[n - 1])
  }

  function SequenceTotal(r: seq<Event>, c: seq<Event>, n: nat): real
    requires n <= |r| && n <= |c|
  {
    if n == 0 then 0.0 else SequenceTotal(r, c, n - 1) + SequencePoints(r[n - 1], c[n - 1])
  }

  function MinLength(r: seq<Event>, c: seq<Event>): nat
  {
    if |r| < |c| then |r| else |c|
  }

  /** compare_events as a value: zero on a click-count mismatch, otherwise the weighted
      mean of the position, time and sequence terms over the first min_length pairs. */
  function Compared(ref: seq<Event>, input: seq<Event>, sqrt: real -> real): Comparison
  {
    if Clicks(ref) != Clicks(input) then Score(0.0)
    else
      var n := MinLength(ref, input);
      if n == 0 then ZeroDivision
      else
        Score(POSITION_WEIGHT * (PositionTotal(ref, input, n, sqrt) / n as real)
              + TIME_WEIGHT * (TimeTotal(ref, input, n) / n as real)
              + SEQUENCE_WEIGHT * (SequenceTotal(ref, input, n) / n as real))
  }

  lemma {:induction false} TotalsBounded(r: seq<Event>, c: seq<Event>, n: nat, sqrt: real -> real)
    requires RootLike(sqrt) && n <= |r| && n <= |c|
    ensures 0.0 <= PositionTotal(r, c, n, sqrt) <= n as real
    ensures 0.0 <= TimeTotal(r, c, n) <= n as real
    ensures 0.0 <= SequenceTotal(r, c, n) <= n as real
  {
    if n > 0 {
      TotalsBounded(r, c, n - 1, sqrt);
      assert SquaredGap(r[n - 1], c[n - 1]) >= 0.0;
    }
  }

  lemma AverageInUnit(total: real, n: real)
    requires n > 0.0 && 0.0 <= total <= n
    ensures 0.0 <= total / n <= 1.0
  {
    QuotientMonotone(total, n, n);
    assert n / n == 1.0;
  }

  lemma QuotientMonotone(a: real, b: real, n: real)
    requires n > 0.0 && a <= b
    ensures a / n <= b / n
  {
  }

  /** The score: zero on a click-count mismatch, a ZeroDivisionError exactly when the counts
      agree but one list is empty, and otherwise a value in [0, 1]. */
  lemma ComparedInUnitInterval(ref: seq<Event>, input: seq<Event>, sqrt: real -> real)
    requires RootLike(sqrt)
    ensures Clicks(ref) != Clicks(input) ==> Compared(ref, input, sqrt) == Score(0.0)
    ensures Compared(ref, input, sqrt).ZeroDivision? <==> Clicks(ref) == Clicks(input) && MinLength(ref, input) == 0
    ensures Compared(ref, input, sqrt).Score? ==> 0.0 <= Compared(ref, input, sqrt).value <= 1.0
  {
    var n := MinLength(ref, input);
    if Clicks(ref) == Clicks(input) && n > 0 {
      TotalsBounded(ref, input, n, sqrt);
      AverageInUnit(PositionTotal(ref, input, n, sqrt), n as real);
      AverageInUnit(TimeTotal(ref, input, n), n as real);
      AverageInUnit(SequenceTotal(ref, input, n), n as real);
    }
  }

  lemma {:induction false} TotalsOfItself(s: seq<Event>, n: nat, sqrt: real -> real)
    requires RootLike(sqrt) && n <= |s|
    ensures PositionTotal(s, s, n, sqrt) == n as real
    ensures TimeTotal(s, s, n) == n as real
    ensures SequenceTotal(s, s, n) == n as real
  {
    if n > 0 {
      TotalsOfItself(s, n - 1, sqrt);
      assert SquaredGap(s[n - 1], s[n - 1]) == 0.0;
    }
  }

  /** A non-empty gesture scores exactly 1.0 against itself: 0.6 + 0.3 + 0.1. */
  lemma ComparedWithItself(s: seq<Event>, sqrt: real -> real)
    requires RootLike(sqrt) && |s| > 0
    ensures Compared(s, s, sqrt) == Score(1.0)
  {
    var n := |s|;
    TotalsOfItself(s, n, sqrt);
    assert n as real / n as real == 1.0;
  }

  // ---------------------------------------------------------------- the class

  class MousePassword {
    var events: seq<Event>
    var recording: bool
    var verifying: bool
    var startTime: real
    var message: Message
    var messageColor: Color
    /** The saved gesture; empty when there is none (None or an empty list in Python). */
    var reference: seq<Event>
    /** The square root behind "** 0.5". */
    const sqrt: real -> real

    /** At most one session at a time, and a verification always has a reference. */
    ghost predicate Valid()
      reads this
    {
      !(recording && verifying) && (verifying ==> |reference| > 0)
    }

    /** __init__, with the list load_password read from the file passed in as stored. */
    constructor (stored: seq<Event>, sqrt: real -> real)
      ensures Valid() && events == [] && !recording && !verifying && startTime == 0.0
      ensures message == NoMessage && messageColor == TextColor && reference == stored && this.sqrt == sqrt
    {
      events := [];
      recording, verifying := false, false;
      startTime := 0.0;
      message, messageColor := NoMessage, TextColor;
      reference := stored;
      this.sqrt := sqrt;
    }

    /** reset: clears the session and the message but keeps the reference. */
    method Reset()
      modifies this
      ensures Valid() && events == [] && !recording && !verifying && startTime == 0.0
      ensures message == NoMessage && messageColor == TextColor && reference == old(reference)
    {
      events := [];
      recording, verifying := false, false;
      startTime := 0.0;
      message, messageColor := NoMessage, TextColor;
    }

    /** start_recording. */
    method StartRecording(now: real)
      modifies this
      ensures Valid() && events == [] && recording && !verifying && startTime == now
      ensures message == RecordPrompt && messageColor == TextColor && reference == old(reference)
    {
      Reset();
      recording := true;
      startTime := now;
      message := RecordPrompt;
    }

    /** start_verification: without a reference only the message changes. */
    method StartVerification(now: real)
      requires Valid()
      modifies this
      ensures Valid() && reference == old(reference)
      ensures old(reference) == [] ==>
        message == NoReference && events == old(events) && recording == old(recording)
        && verifying == old(verifying) && startTime == old(startTime) && messageColor == old(messageColor)
      ensures old(reference) != [] ==>
        events == [] && !recording && verifying && startTime == now
        && message == VerifyPrompt && messageColor == TextColor
    {
      if reference == [] {
        message := NoReference;
        return;
      }
      Reset();
      verifying := true;
      startTime := now;
      message := VerifyPrompt;
    }

    /** compare_events; ZeroDivision stands for the ZeroDivisionError it raises. */
    method CompareEvents(ref: seq<Event>, input: seq<Event>) returns (result: Comparison)
      ensures result == Compared(ref, input, sqrt)
    {
      if Clicks(ref) != Clicks(input) {
        return Score(0.0);
      }
      var positionScore := 0.0;
      var timeScore := 0.0;
      var minLength := if |ref| < |input| then |ref| else |input|;
      for i := 0 to minLength
        invariant positionScore == PositionTotal(ref, input, i, sqrt)
        invariant timeScore == TimeTotal(ref, input, i)
      {
        var dx := ref[i].x - input[i].x;
        var dy := ref[i].y - input[i].y;
        assert dx * dx + dy * dy == SquaredGap(ref[i], input[i]);
        positionScore := positionScore + (1.0 - Smaller(1.0, sqrt(dx * dx + dy * dy)));
        var timeDiff := Abs(ref[i].time - input[i].time);
        timeScore := timeScore + (1.0 - Smaller(1.0, timeDiff));
      }
      if minLength == 0 {
        return ZeroDivision;
      }
      positionScore := positionScore / minLength as real;
      timeScore := timeScore / minLength as real;
      var sequenceScore := SequenceTotal(ref, input, minLength) / minLength as real;
      return Score(positionScore * POSITION_WEIGHT + timeScore * TIME_WEIGHT + sequenceScore * SEQUENCE_WEIGHT);
    }

    /** What finish_input leaves behind. Without events: a message and no session. Otherwise
        a recording keeps the normalized events as the reference, and a verification is
        accepted iff its score is at least 0.85. The events list itself is kept. */
    twostate predicate FinishedInput()
      reads this
    {
      events == old(events) && startTime == old(startTime) && !recording && !verifying
      && if old(events) == [] then
        message == NotEntered && messageColor == old(messageColor) && reference == old(reference)
      else if old(recording) then
        reference == NormalizeEvents(old(events)) && message == Saved && messageColor == old(messageColor)
      else if old(verifying) then
        reference == old(reference)
        && var score := Compared(old(reference), NormalizeEvents(old(events)), sqrt);
        score.Score?
        && (if score.value >= THRESHOLD then message == Accepted(score.value) && messageColor == Green
            else message == Rejected(score.value) && messageColor == Red)
      else
        reference == old(reference) && message == old(message) && messageColor == old(messageColor)
    }

    /** finish_input. */
    method FinishInput()
      requires Valid()
      modifies this
      ensures Valid() && FinishedInput()
    {
      if events == [] {
        message := NotEntered;
        recording, verifying := false, false;
        return;
      }
      var normalized := NormalizeEvents(events);
      if recording {
        reference := normalized;
        message := Saved;
        recording := false;
      } else if verifying {
        var result := CompareEvents(reference, normalized);
        match result
        case ZeroDivision =>
          assert false;
        case Score(similarity) =>
          if similarity >= THRESHOLD {
            message, messageColor := Accepted(similarity), Green;
          } else {
            message, messageColor := Rejected(similarity), Red;
          }
        verifying := false;
      }
    }

    /** Whether a move to (x, y) is within distance 2 of the last event of either kind. */
    predicate TooClose(x: int, y: int)
      reads this
    {
      |events| > 0
      && var dx := x as real - events[|events| - 1].x;
         var dy := y as real - events[|events| - 1].y;
         dx * dx + dy * dy < MIN_DISTANCE * MIN_DISTANCE
    }

    /** What record_event leaves behind during a session: once the time is up the input is
        finished and the event dropped; a move too close to the last event is dropped;
        anything else is appended with its time since the start. */
    twostate predicate RecordedEvent(kind: Kind, x: int, y: int, now: real)
      reads this
    {
      if now - old(startTime) >= RECORD_TIME then FinishedInput()
      else
        recording == old(recording) && verifying == old(verifying) && startTime == old(startTime)
        && reference == old(reference) && message == old(message) && messageColor == old(messageColor)
        && events == if kind == Move && old(TooClose(x, y)) then old(events)
                     else old(events) + [Event(kind, x as real, y as real, now - old(startTime))]
    }

    /** record_event: nothing without a session. */
    method RecordEvent(kind: Kind, x: int, y: int, now: real)
      requires Valid()
      modifies this
      ensures Valid()
      ensures !old(recording || verifying) ==> unchanged(this)
      ensures old(recording || verifying) ==> RecordedEvent(kind, x, y, now)
    {
      if !(recording || verifying) {
        return;
      }
      var currentTime := now - startTime;
      if currentTime >= RECORD_TIME {
        FinishInput();
        return;
      }
      if kind == Move && |events| > 0 {
        var dx := x as real - events[|events| - 1].x;
        var dy := y as real - events[|events| - 1].y;
        if dx * dx + dy * dy < MIN_DISTANCE * MIN_DISTANCE {
          return;
        }
      }
      events := events + [Event(kind, x as real, y as real, currentTime)];
    }

    /** One pygame event of the main loop; running says whether the loop goes on. */
    method HandleEvent(ev: PyEvent, now: real) returns (running: bool)
      requires Valid()
      modifies this
      ensures Valid()
      ensures running <==> !(ev.Quit? || ev == KeyDown(Escape))
      ensures reference != old(reference) ==> old(recording) && old(events) != [] && reference == NormalizeEvents(old(events))
      ensures ev == KeyDown(KeyR) ==>
        events == [] && recording && !verifying && startTime == now
        && message == RecordPrompt && messageColor == TextColor && reference == old(reference)
      ensures ev == KeyDown(KeyV) && old(reference) == [] ==>
        message == NoReference && events == old(events) && recording == old(recording)
        && verifying == old(verifying) && startTime == old(startTime)
        && messageColor == old(messageColor) && reference == old(reference)
      ensures ev == KeyDown(KeyV) && old(reference) != [] ==>
        events == [] && !recording && verifying && startTime == now
        && message == VerifyPrompt && messageColor == TextColor && reference == old(reference)
      ensures ev == KeyDown(KeyC) ==>
        events == [] && !recording && !verifying && startTime == 0.0
        && message == ResetDone && messageColor == TextColor && reference == old(reference)
      ensures ev.Quit? || ev == KeyDown(Escape) || ev == KeyDown(OtherKey) ==> unchanged(this)
      ensures (ev.MouseMotion? || ev.MouseButtonDown?) && !old(recording || verifying) ==> unchanged(this)
      ensures ev.MouseMotion? && old(recording || verifying) ==> RecordedEvent(Move, ev.x, ev.y, now)
      ensures ev.MouseButtonDown? && old(recording || verifying) ==> RecordedEvent(Click, ev.x, ev.y, now)
    {
      running := true;
      match ev
      case Quit =>
        running := false;
      case KeyDown(key) =>
        if key == KeyR {
          StartRecording(now);
        } else if key == KeyV {
          StartVerification(now);
        } else if key == KeyC {
          Reset();
          message := ResetDone;
        } else if key == Escape {
          running := false;
        }
      case MouseMotion(x, y) =>
        if recording || verifying {
          RecordEvent(Move, x, y, now);
        }
      case MouseButtonDown(x, y) =>
        if recording || verifying {
          RecordEvent(Click, x, y, now);
        }
    }

    /** The timeout check after each batch of events. */
    method Tick(now: real)
      requires Valid()
      modifies this
      ensures Valid()
      ensures (recording || verifying) ==> now - startTime < RECORD_TIME
      ensures old(recording || verifying) && now - old(startTime) >= RECORD_TIME ==> FinishedInput()
      ensures !(old(recording || verifying) && now - old(startTime) >= RECORD_TIME) ==> unchanged(this)
    {
      if recording || verifying {
        var elapsed := now - startTime;
        if elapsed >= RECORD_TIME {
          FinishInput();
        }
      }
    }
  }
}
