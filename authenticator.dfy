/** The authenticator of mousepass.c as a state machine on values: the fields of LockState
    that lock_loop reads and writes, and one transition per input of the loop (an X event
    or an idle poll) plus the status-expiry rule of redraw_screen. The class in lockstate.dfy
    is proved to follow these transitions; the properties of the lock are proved here. */
module Authenticator {
  import opened Gesture
  import opened Credential
  import Capture

  /** Seconds a gesture may last (RECORD_TIME). */
  const RECORD_TIME: real := 5.0
  /** Seconds a status message stays on screen. */
  const STATUS_TIME: real := 3.0
  /** Size of the keyboard buffer pass, terminating NUL included. */
  const PASS_SIZE: int := 64
  /** Similarity a gesture must exceed (strictly) to unlock. */
  const THRESHOLD: real := 0.90
  /** The hard-coded keyboard password. */
  const KEYBOARD_PASSWORD: string := "123"
  /** Extra cells save_reference_password allocates for the reference. */
  const REFERENCE_SPARE: int := 10

  /** The status texts the lock shows; NoMessage is an empty status_msg. */
  datatype Message =
    | NoMessage
    | RecordingPrompt   // start_mouse_recording
    | VerifyingPrompt   // start_mouse_verification
    | Saved             // Return while recording
    | AutoSaved         // timeout while recording
    | WrongGesture      // rejected gesture
    | WrongKeyboard     // rejected keyboard password
    | NotRecorded       // F2 with no reference
    | KeyboardMode      // F2 back to the keyboard

  /** The key symbols the loop tells apart; every other key is OtherKey. */
  datatype KeySym = Return | BackSpace | F2 | F3 | OtherKey

  /** An X event, with the text XLookupString produced for a key. */
  datatype Input =
    | Motion(x: int, y: int)
    | ButtonPress(x: int, y: int)
    | KeyPress(sym: KeySym, text: string)

  predicate IsInt32(v: int) { -0x8000_0000 <= v < 0x8000_0000 }

  /** Pointer coordinates are C ints. */
  predicate ValidInput(ev: Input)
  {
    ev.KeyPress? || (IsInt32(ev.x) && IsInt32(ev.y))
  }

  /** The lock's state: mode flags, the capture buffer (password) and its capacity, the
      last stored pointer position, the reference gesture with the count and capacity
      load or save gave it, the credential file, the failed attempts, the keyboard
      buffer with its length, the status message and whether the loop has unlocked. */
  datatype State = State(
    mouseMode: bool, recording: bool, verifying: bool, startTime: real,
    buffer: seq<MouseEvent>, capacity: int, lastX: int, lastY: int,
    reference: seq<MouseEvent>, referenceCount: int, referenceCapacity: int,
    file: Option<seq<Token>>, attempts: int,
    pass: seq<char>, passLen: int, status: Message, statusTime: real, unlocked: bool)

  /** The capture buffer holds at most capacity events, all within double range. */
  predicate BufferOk(buffer: seq<MouseEvent>, capacity: int)
  {
    |buffer| <= capacity && AllInRange(buffer)
  }

  /** pass holds 64 chars, pass_len is at most 63 and a NUL follows the typed text. */
  predicate PassOk(pass: seq<char>, passLen: int)
  {
    |pass| == PASS_SIZE && 0 <= passLen < PASS_SIZE && pass[passLen] == '\0'
  }

  /** A negative loaded count is kept, with no reference events behind it. */
  predicate ReferenceOk(reference: seq<MouseEvent>, count: int)
  {
    if count >= 0 then |reference| == count else reference == []
  }

  /** What every reachable state satisfies. */
  predicate Inv(s: State)
  {
    BufferOk(s.buffer, s.capacity) && PassOk(s.pass, s.passLen)
    && ReferenceOk(s.reference, s.referenceCount) && s.attempts >= 0
  }

  /** Cells the capture buffer is first given. */
  const PASSWORD_CAPACITY: int := 100

  /** The state lock_loop starts from: init_x11 loads the reference (an empty one with one
      cell when the file is missing or unreadable), everything else starts cleared, the
      keyboard buffer all NULs, and lock_loop sets attempts to 0. */
  function Initial(file: Option<seq<Token>>): (r: State)
    ensures Inv(r) && r.file == file
    ensures !r.mouseMode && !Active(r) && !r.unlocked && r.attempts == 0 && r.passLen == 0 && r.buffer == []
    ensures Load(file).None? ==> r.reference == [] && r.referenceCount == 0 && r.referenceCapacity == 1
    ensures Load(file).Some? ==> r.referenceCount == Load(file).value.count && r.reference == Load(file).value.events
  {
    var loaded := Load(file);
    var count := if loaded.Some? then loaded.value.count else 0;
    var capacity := if loaded.Some? then loaded.value.capacity else 1;
    var events := if loaded.Some? then loaded.value.events else [];
    State(false, false, false, 0.0, [], PASSWORD_CAPACITY, -1, -1, events, count, capacity, file, 0,
          seq(PASS_SIZE, _ => '\0'), 0, NoMessage, 0.0, false)
  }

  /** The string strcmp sees in a char buffer: everything before the first NUL. */
  function CString(t: string): (r: string)
    ensures r <= t && '\0' !in r
    ensures |r| < |t| ==> t[|r|] == '\0'
  {
    if t == [] || t[0] == '\0' then [] else [t[0]] + CString(t[1..])
  }

  /** The characters typed so far. */
  function Typed(s: State): string
    requires PassOk(s.pass, s.passLen)
  {
    s.pass[..s.passLen]
  }

  predicate Active(s: State) { s.recording || s.verifying }

  /** set_status_message. */
  function SetStatus(s: State, msg: Message, now: real): State
  {
    s.(status := msg, statusTime := now)
  }

  /** start_mouse_recording: a new session that empties the buffer. verifying is left alone. */
  function StartRecording(s: State, now: real): State
  {
    SetStatus(s.(recording := true, buffer := [], lastX := -1, lastY := -1, startTime := now), RecordingPrompt, now)
  }

  /** start_mouse_verification. recording is left alone. */
  function StartVerification(s: State, now: real): State
  {
    SetStatus(s.(verifying := true, buffer := [], lastX := -1, lastY := -1, startTime := now), VerifyingPrompt, now)
  }

  /** Whether add_mouse_event stores an event: a session is active, the gesture time has not
      run out, and it is not a move onto the last stored position. */
  predicate Accepts(s: State, kind: char, x: int, y: int, now: real)
  {
    Active(s) && !(now - s.startTime >= RECORD_TIME) && !(kind == 'm' && s.lastX == x && s.lastY == y)
  }

  /** add_mouse_event: a full buffer grows by Capture.GROWTH cells first. */
  function AddEvent(s: State, kind: char, x: int, y: int, now: real): State
  {
    if !Accepts(s, kind, x, y, now) then s
    else
      var capacity := if |s.buffer| >= s.capacity then s.capacity + Capture.GROWTH else s.capacity;
      s.(buffer := s.buffer + [MouseEvent(x as real, y as real, kind, now - s.startTime)],
         capacity := capacity, lastX := x, lastY := y)
  }

  /** save_reference_password: the reference becomes a copy of the buffer, which is also
      written to the credential file. */
  function SaveReference(s: State): State
  {
    s.(reference := s.buffer, referenceCount := |s.buffer|, referenceCapacity := |s.buffer| + REFERENCE_SPARE,
       file := Some(Serialize(s.buffer)))
  }

  /** Ending a gesture, by Return in mouse mode (auto false) or by the timeout (auto true).
      Recording takes precedence over verifying. An accepted gesture unlocks and leaves
      every flag as it was; the buffer stays normalized either way. */
  function Confirm(s: State, now: real, auto: bool, sqrt: real -> real): State
  {
    if s.recording then
      var saved := SaveReference(s.(buffer := Normalized(s.buffer)));
      SetStatus(saved.(recording := false), if auto then AutoSaved else Saved, now)
    else if s.verifying then
      var n := s.(buffer := Normalized(s.buffer));
      if Similarity(s.reference, n.buffer, sqrt) > THRESHOLD then n.(unlocked := true)
      else SetStatus(n.(attempts := s.attempts + 1, verifying := false), WrongGesture, now)
    else s
  }

  /** The KeyPress branch of lock_loop. Return in keyboard mode unlocks on strcmp(pass, "123")
      == 0; BackSpace on an empty buffer falls through to the character branch. */
  function Key(s: State, sym: KeySym, text: string, now: real, sqrt: real -> real): State
    requires Inv(s)
  {
    if sym == Return then
      if s.mouseMode then Confirm(s, now, false, sqrt)
      else if CString(s.pass) == KEYBOARD_PASSWORD then s.(unlocked := true)
      else SetStatus(s.(attempts := s.attempts + 1, pass := s.pass[0 := '\0'], passLen := 0), WrongKeyboard, now)
    else if sym == BackSpace && s.passLen > 0 then
      s.(pass := s.pass[s.passLen - 1 := '\0'], passLen := s.passLen - 1)
    else if sym == F2 then
      var toggled := s.(mouseMode := !s.mouseMode);
      var next :=
        if !toggled.mouseMode then SetStatus(toggled, KeyboardMode, now)
        else if s.referenceCount > 0 then StartVerification(toggled, now)
        else SetStatus(toggled, NotRecorded, now);
      next.(buffer := [])
    else if sym == F3 then
      StartRecording(s.(mouseMode := true), now)
    else if s.passLen < PASS_SIZE - 1 && |text| > 0 then
      s.(pass := s.pass[s.passLen := text[0]][s.passLen + 1 := '\0'], passLen := s.passLen + 1)
    else s
  }

  /** One X event taken by lock_loop. A pointer event during a session is followed by a
      redraw, which expires an old status message. */
  function Step(s: State, ev: Input, now: real, sqrt: real -> real): State
    requires Inv(s)
  {
    match ev
    case Motion(x, y) => if Active(s) then Expire(AddEvent(s, 'm', x, y, now), now) else s
    case ButtonPress(x, y) => if Active(s) then Expire(AddEvent(s, 'c', x, y, now), now) else s
    case KeyPress(sym, text) => Key(s, sym, text, now, sqrt)
  }

  /** Whether an idle poll ends the gesture. */
  predicate TimedOut(s: State, now: real)
  {
    Active(s) && now - s.startTime >= RECORD_TIME
  }

  /** An idle poll (no X event pending): a session that has run out is confirmed and,
      unless that unlocked, the buffer is emptied. */
  function Idle(s: State, now: real, sqrt: real -> real): State
  {
    if !TimedOut(s, now) then s
    else
      var c := Confirm(s, now, true, sqrt);
      if c.unlocked then c else c.(buffer := [])
  }

  /** The status-expiry rule of redraw_screen. */
  function Expire(s: State, now: real): State
  {
    if s.status != NoMessage && !(now - s.statusTime < STATUS_TIME) then s.(status := NoMessage) else s
  }

  // ---------------------------------------------------------------- properties

  /** Normalizing keeps the buffer in range, since every coordinate lands in [0, 1]. */
  lemma NormalizedStaysInRange(b: seq<MouseEvent>)
    requires AllInRange(b)
    ensures AllInRange(Normalized(b)) && |Normalized(b)| == |b|
  {
    NormalizedInUnitBox(b);
  }

  lemma ConfirmKeepsInv(s: State, now: real, auto: bool, sqrt: real -> real)
    requires Inv(s)
    ensures Inv(Confirm(s, now, auto, sqrt))
    ensures Confirm(s, now, auto, sqrt).attempts >= s.attempts
  {
    if Active(s) {
      NormalizedStaysInRange(s.buffer);
    }
  }

  /** Every event keeps the invariant: pass_len stays at most 63 with a NUL after it, count
      stays within capacity, and attempts never decreases. */
  lemma StepKeepsInv(s: State, ev: Input, now: real, sqrt: real -> real)
    requires Inv(s) && ValidInput(ev)
    ensures Inv(Step(s, ev, now, sqrt))
    ensures Step(s, ev, now, sqrt).attempts >= s.attempts
  {
    match ev
    case Motion(x, y) => AddEventKeepsInv(s, 'm', x, y, now);
    case ButtonPress(x, y) => AddEventKeepsInv(s, 'c', x, y, now);
    case KeyPress(sym, text) => KeyKeepsInv(s, sym, text, now, sqrt);
  }

  lemma AddEventKeepsInv(s: State, kind: char, x: int, y: int, now: real)
    requires Inv(s) && IsInt32(x) && IsInt32(y)
    ensures Inv(AddEvent(s, kind, x, y, now)) && AddEvent(s, kind, x, y, now).attempts == s.attempts
  {
    if Accepts(s, kind, x, y, now) {
      var e := MouseEvent(x as real, y as real, kind, now - s.startTime);
      assert InRange(e);
      assert AllInRange(s.buffer + [e]);
    }
  }

  lemma KeyKeepsInv(s: State, sym: KeySym, text: string, now: real, sqrt: real -> real)
    requires Inv(s)
    ensures Inv(Key(s, sym, text, now, sqrt)) && Key(s, sym, text, now, sqrt).attempts >= s.attempts
  {
    var r := Key(s, sym, text, now, sqrt);
    if sym == Return {
      if s.mouseMode {
        ConfirmKeepsInv(s, now, false, sqrt);
      } else if CString(s.pass) != KEYBOARD_PASSWORD {
        assert PassOk(r.pass, r.passLen);
      }
    } else if sym == BackSpace && s.passLen > 0 {
      assert PassOk(r.pass, r.passLen);
    } else if sym == F2 || sym == F3 {
      assert BufferOk(r.buffer, r.capacity) && r.pass == s.pass && r.passLen == s.passLen;
    } else if s.passLen < PASS_SIZE - 1 && |text| > 0 {
      assert PassOk(r.pass, r.passLen);
    }
  }

  lemma IdleKeepsInv(s: State, now: real, sqrt: real -> real)
    requires Inv(s)
    ensures Inv(Idle(s, now, sqrt))
    ensures Idle(s, now, sqrt).attempts >= s.attempts
  {
    if TimedOut(s, now) {
      ConfirmKeepsInv(s, now, true, sqrt);
    }
  }

  /** The lock opens only on Return: in mouse mode when a verification (and no recording)
      scores strictly above 0.90, in keyboard mode when the buffer reads "123". */
  lemma UnlockOnlyOnMatch(s: State, ev: Input, now: real, sqrt: real -> real)
    requires Inv(s) && !s.unlocked
    ensures Step(s, ev, now, sqrt).unlocked <==>
      ev.KeyPress? && ev.sym == Return &&
      if s.mouseMode then
        !s.recording && s.verifying && Similarity(s.reference, Normalized(s.buffer), sqrt) > THRESHOLD
      else
        CString(Typed(s)) == KEYBOARD_PASSWORD
  {
    match ev
    case KeyPress(sym, text) =>
      if sym == Return {
        if s.mouseMode {
          UnlockByGesture(s, now, sqrt);
        } else {
          CStringOfTyped(s);
        }
      } else {
        assert !Key(s, sym, text, now, sqrt).unlocked;
      }
    case Motion(x, y) =>
    case ButtonPress(x, y) =>
  }

  lemma UnlockByGesture(s: State, now: real, sqrt: real -> real)
    requires !s.unlocked
    ensures Confirm(s, now, false, sqrt).unlocked <==>
      !s.recording && s.verifying && Similarity(s.reference, Normalized(s.buffer), sqrt) > THRESHOLD
  {
  }

  /** strcmp stops at the NUL after the typed characters. */
  lemma CStringOfTyped(s: State)
    requires Inv(s)
    ensures CString(s.pass) == CString(Typed(s))
  {
    CStringStopsAtNul(s.pass, s.passLen);
  }

  lemma {:induction false} CStringStopsAtNul(t: string, n: nat)
    requires n < |t| && t[n] == '\0'
    ensures CString(t) == CString(t[..n])
  {
    if n > 0 && t[0] != '\0' {
      assert t[1..][n - 1] == '\0';
      CStringStopsAtNul(t[1..], n - 1);
      assert t[1..][..n - 1] == t[..n][1..];
    }
  }

  /** Typed characters without a NUL are compared as they are. */
  lemma {:induction false} CStringWithoutNul(t: string)
    requires '\0' !in t
    ensures CString(t) == t
  {
    if t != [] {
      assert '\0' !in t[1..];
      CStringWithoutNul(t[1..]);
    }
  }

  /** Return in keyboard mode: unlocks iff strcmp sees "123" in the typed text, that is,
      iff the text is "123" when no NUL was typed; otherwise one more failed attempt, an
      empty buffer and the keyboard error message. */
  lemma KeyboardReturn(s: State, now: real, sqrt: real -> real)
    requires Inv(s) && !s.unlocked && !s.mouseMode
    ensures var r := Key(s, Return, [], now, sqrt);
      (r.unlocked <==> CString(Typed(s)) == KEYBOARD_PASSWORD)
      && ('\0' !in Typed(s) ==> (r.unlocked <==> Typed(s) == KEYBOARD_PASSWORD))
      && (!r.unlocked ==> r.attempts == s.attempts + 1 && Typed(r) == [] && r.status == WrongKeyboard)
  {
    CStringOfTyped(s);
    if '\0' !in Typed(s) {
      CStringWithoutNul(Typed(s));
    }
  }

  /** BackSpace removes exactly the last character when there is one. On an empty buffer
      the key's own text is appended instead, like any other character. */
  lemma Backspace(s: State, text: string, now: real, sqrt: real -> real)
    requires Inv(s)
    ensures var r := Key(s, BackSpace, text, now, sqrt);
      (s.passLen > 0 ==> Typed(r) == Typed(s)[..s.passLen - 1])
      && (s.passLen == 0 && |text| > 0 ==> Typed(r) == [text[0]])
  {
    var r := Key(s, BackSpace, text, now, sqrt);
    if s.passLen > 0 {
      assert Typed(r) == Typed(s)[..s.passLen - 1];
    } else if |text| > 0 {
      assert Typed(r) == [text[0]];
    }
  }

  /** Any other key with text appends its first character, in either mode, until 63
      characters are held; a full buffer ignores it. */
  lemma TypeCharacter(s: State, text: string, now: real, sqrt: real -> real)
    requires Inv(s) && |text| > 0
    ensures var r := Key(s, OtherKey, text, now, sqrt);
      (s.passLen < PASS_SIZE - 1 ==> Typed(r) == Typed(s) + [text[0]])
      && (s.passLen == PASS_SIZE - 1 ==> r == s)
  {
    var r := Key(s, OtherKey, text, now, sqrt);
    if s.passLen < PASS_SIZE - 1 {
      assert Typed(r) == Typed(s) + [text[0]];
    }
  }

  /** add_mouse_event either leaves the state alone (no session, time over, or a move onto
      the last stored position) or stores exactly one event after the others. */
  lemma AddEventAppends(s: State, kind: char, x: int, y: int, now: real)
    ensures var r := AddEvent(s, kind, x, y, now);
      if Accepts(s, kind, x, y, now) then
        r.buffer[..|s.buffer|] == s.buffer && |r.buffer| == |s.buffer| + 1
        && r.buffer[|s.buffer|] == MouseEvent(x as real, y as real, kind, now - s.startTime)
        && r.capacity == (if |s.buffer| >= s.capacity then s.capacity + Capture.GROWTH else s.capacity)
        && r.lastX == x && r.lastY == y
      else r == s
  {
    var r := AddEvent(s, kind, x, y, now);
    if Accepts(s, kind, x, y, now) {
      assert r.buffer[..|s.buffer|] == s.buffer;
    }
  }

  /** Ending a recording replaces the reference with the normalized gesture and clears
      recording; the file then loads back to that gesture, rounded to six decimals. */
  lemma ConfirmRecording(s: State, now: real, auto: bool, sqrt: real -> real)
    requires s.recording && !s.unlocked
    ensures var r := Confirm(s, now, auto, sqrt);
      r.reference == Normalized(s.buffer) && r.referenceCount == |s.buffer|
      && !r.recording && r.verifying == s.verifying && !r.unlocked && r.attempts == s.attempts
      && Load(r.file) == Some(Loaded(|s.buffer|, |s.buffer| + SPARE, Quantized(Normalized(s.buffer))))
  {
    LoadSerialized(Normalized(s.buffer));
  }

  /** Ending a verification unlocks iff the similarity is strictly above 0.90; a rejected
      gesture costs one attempt and ends the session. */
  lemma ConfirmVerifying(s: State, now: real, auto: bool, sqrt: real -> real)
    requires !s.recording && s.verifying && !s.unlocked
    ensures var r := Confirm(s, now, auto, sqrt);
      var score := Similarity(s.reference, Normalized(s.buffer), sqrt);
      (r.unlocked <==> score > THRESHOLD)
      && (r.unlocked ==> r.attempts == s.attempts && r.verifying)
      && (!r.unlocked ==> r.attempts == s.attempts + 1 && !r.verifying && r.status == WrongGesture)
      && r.reference == s.reference
  {
  }

  /** A score of exactly 0.90 is rejected. */
  lemma BoundaryRejected(s: State, now: real, sqrt: real -> real)
    requires !s.recording && s.verifying && !s.unlocked
    requires Similarity(s.reference, Normalized(s.buffer), sqrt) == 0.9
    ensures !Confirm(s, now, false, sqrt).unlocked
    ensures Confirm(s, now, false, sqrt).attempts == s.attempts + 1
  {
  }

  /** Return and the timeout end a gesture alike. They differ only in the saved message and
      in the timeout emptying the buffer when it does not unlock. */
  lemma TimeoutLikeReturn(s: State, now: real, sqrt: real -> real)
    requires Inv(s) && !s.unlocked && s.mouseMode && TimedOut(s, now)
    ensures var byKey := Key(s, Return, [], now, sqrt);
      var byTime := Idle(s, now, sqrt);
      var message := if s.recording then AutoSaved else byKey.status;
      byTime == if byKey.unlocked then byKey else byKey.(buffer := [], status := message)
  {
  }

  /** The timeout never fires while an X event is handled, nor before RECORD_TIME seconds. */
  lemma NoTimeoutEarly(s: State, now: real, sqrt: real -> real)
    requires now - s.startTime < RECORD_TIME
    ensures Idle(s, now, sqrt) == s
  {
  }

  /** F2 toggles the mode and always empties the buffer, but leaves recording set and only
      ever sets verifying. */
  lemma F2KeepsSession(s: State, text: string, now: real, sqrt: real -> real)
    requires Inv(s)
    ensures var r := Key(s, F2, text, now, sqrt);
      r.mouseMode == !s.mouseMode && r.buffer == [] && r.recording == s.recording
      && r.verifying == (s.verifying || (r.mouseMode && s.referenceCount > 0))
      && r.attempts == s.attempts && r.reference == s.reference
  {
  }

  /** F3 starts a recording in mouse mode without clearing verifying. */
  lemma F3KeepsVerifying(s: State, text: string, now: real, sqrt: real -> real)
    requires Inv(s)
    ensures var r := Key(s, F3, text, now, sqrt);
      r.mouseMode && r.recording && r.verifying == s.verifying && r.buffer == [] && r.startTime == now
  {
  }

  /** A status message disappears once it is at least three seconds old, and only then. */
  lemma ExpireAfterThreeSeconds(s: State, now: real)
    ensures var r := Expire(s, now);
      (r.status == NoMessage <==> s.status == NoMessage || now - s.statusTime >= STATUS_TIME)
      && r == s.(status := r.status)
  {
  }

  /** A pointer event during a session records the event as add_mouse_event does and then
      redraws, which clears a status message at least 3 seconds old; nothing else differs. */
  lemma PointerEventRedraws(s: State, ev: Input, now: real, sqrt: real -> real)
    requires Inv(s) && Active(s) && !ev.KeyPress?
    ensures var added := AddEvent(s, if ev.Motion? then 'm' else 'c', ev.x, ev.y, now);
      var r := Step(s, ev, now, sqrt);
      r == added.(status := r.status)
      && (r.status == NoMessage <==> s.status == NoMessage || now - s.statusTime >= STATUS_TIME)
      && (r.status != NoMessage ==> r.status == s.status)
  {
    var added := AddEvent(s, if ev.Motion? then 'm' else 'c', ev.x, ev.y, now);
    assert added.status == s.status && added.statusTime == s.statusTime;
    ExpireAfterThreeSeconds(added, now);
  }

  // ---------------------------------------------------------------- a worked scenario

  /** A move from (0, 0) to (10, 0) and then, at (10, 0), an event of the given kind. */
  predicate IsScenario(g: seq<MouseEvent>, last: char)
  {
    |g| == 3 && g[0] == MouseEvent(0.0, 0.0, 'm', 0.0) && g[1] == MouseEvent(10.0, 0.0, 'm', 0.1)
    && g[2] == MouseEvent(10.0, 0.0, last, 0.2)
  }

  lemma BoundsSnoc(s: seq<MouseEvent>, e: MouseEvent, a: Axis)
    ensures Lowest(s + [e], a) == Min(Lowest(s, a), Coord(e, a))
    ensures Highest(s + [e], a) == Max(Highest(s, a), Coord(e, a))
  {
    assert (s + [e])[..|s|] == s;
  }

  /** Three points at x = 0, 10, 10 on the x axis: the box runs from 0 to 10 and is flat along y. */
  lemma ScenarioBounds(g: seq<MouseEvent>)
    requires |g| == 3 && g[0].x == 0.0 && g[1].x == 10.0 && g[2].x == 10.0
    requires g[0].y == 0.0 && g[1].y == 0.0 && g[2].y == 0.0
    ensures Lowest(g, X) == 0.0 && Highest(g, X) == 10.0 && Lowest(g, Y) == 0.0 && Highest(g, Y) == 0.0
    ensures Scale(g) == 10.0
  {
    assert g == [] + [g[0]] + [g[1]] + [g[2]];
    forall a: Axis ensures Lowest(g, a) == Min(Min(Min(DBL_MAX, Coord(g[0], a)), Coord(g[1], a)), Coord(g[2], a))
      ensures Highest(g, a) == Max(Max(Max(-DBL_MAX, Coord(g[0], a)), Coord(g[1], a)), Coord(g[2], a))
    {
      BoundsSnoc([], g[0], a);
      BoundsSnoc([] + [g[0]], g[1], a);
      BoundsSnoc([] + [g[0]] + [g[1]], g[2], a);
    }
  }

  /** They normalize onto the unit segment, the 10-wide side setting the scale. */
  lemma ScenarioNormalized(g: seq<MouseEvent>)
    requires |g| == 3 && g[0].x == 0.0 && g[1].x == 10.0 && g[2].x == 10.0
    requires g[0].y == 0.0 && g[1].y == 0.0 && g[2].y == 0.0
    ensures Normalized(g) == [g[0], g[1].(x := 1.0), g[2].(x := 1.0)]
  {
    ScenarioBounds(g);
    var n := Normalized(g);
    assert n[0] == Rescaled(g[0], 0.0, 0.0, 10.0) == g[0];
    assert n[1] == Rescaled(g[1], 0.0, 0.0, 10.0) == g[1].(x := 1.0);
    assert n[2] == Rescaled(g[2], 0.0, 0.0, 10.0) == g[2].(x := 1.0);
  }

  /** Normalized with the click replaced by a move: every point coincides, two kinds of three agree. */
  lemma ScenarioSums(r: seq<MouseEvent>, c: seq<MouseEvent>, sqrt: real -> real)
    requires SqrtLike(sqrt) && |r| == 3 && |c| == 3
    requires forall i :: 0 <= i < 3 ==> r[i].x == c[i].x && r[i].y == c[i].y
    requires r[0].kind == c[0].kind && r[1].kind == c[1].kind && r[2].kind != c[2].kind
    ensures PositionSum(r, c, 3, sqrt) == 3.0
    ensures TypeSum(r, c, 3) == 2.0
  {
    assert sqrt(0.0) == 0.0;
    forall i | 0 <= i < 3 ensures PositionTerm(r[i], c[i], sqrt) == 1.0 {
      assert SquaredDistance(r[i], c[i]) == 0.0;
    }
    assert PositionSum(r, c, 1, sqrt) == 1.0;
    assert PositionSum(r, c, 2, sqrt) == 2.0;
    assert TypeSum(r, c, 1) == 1.0;
    assert TypeSum(r, c, 2) == 2.0;
  }

  /** Replacing the click by a move scores 0.7 * 1 + 0.3 * 2/3 = 0.9 exactly. */
  lemma ScenarioScore(enrolled: seq<MouseEvent>, attempt: seq<MouseEvent>, sqrt: real -> real)
    requires SqrtLike(sqrt) && IsScenario(enrolled, 'c') && IsScenario(attempt, 'm')
    ensures Similarity(Normalized(enrolled), Normalized(attempt), sqrt) == 0.9
  {
    ScenarioNormalized(enrolled);
    ScenarioNormalized(attempt);
    var r, c := Normalized(enrolled), Normalized(attempt);
    ScenarioSums(r, c, sqrt);
    assert ShorterLength(r, c) == 3;
    assert Similarity(r, c, sqrt) == 0.7 * (3.0 / 3.0) + 0.3 * (2.0 / 3.0);
  }

  /** After enrolling the gesture, repeating it unlocks; repeating it with the click
      replaced by a move sits exactly on the threshold, which the strict comparison rejects. */
  lemma ScenarioVerification(s: State, enrolled: seq<MouseEvent>, now: real, sqrt: real -> real)
    requires SqrtLike(sqrt) && !s.recording && s.verifying && !s.unlocked
    requires IsScenario(enrolled, 'c') && s.reference == Normalized(enrolled)
    ensures IsScenario(s.buffer, 'c') ==> Confirm(s, now, false, sqrt).unlocked
    ensures IsScenario(s.buffer, 'm') ==>
      !Confirm(s, now, false, sqrt).unlocked && Confirm(s, now, false, sqrt).attempts == s.attempts + 1
  {
    UnlockByGesture(s, now, sqrt);
    if IsScenario(s.buffer, 'c') {
      assert s.buffer == enrolled;
      SimilarityOfItself(s.reference, sqrt);
    }
    if IsScenario(s.buffer, 'm') {
      ScenarioScore(enrolled, s.buffer, sqrt);
    }
  }
}
