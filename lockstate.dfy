/** LockState of mousepass.c: the fields lock_loop updates in place, the capture buffer
    object and the 64-byte keyboard buffer, with one method per handler. Every method is
    proved to move the state exactly as the matching transition of Authenticator. */
module Lock {
  import opened Gesture
  import opened Credential
  import opened Authenticator
  import Capture

  class LockState {
    const password: Capture.MousePassword
    const pass: array<char>
    /** The square root compare_passwords uses. */
    const sqrt: real -> real
    var passLen: int
    var mouseMode: bool
    var recording: bool
    var verifying: bool
    var startTime: real
    var reference: seq<MouseEvent>
    var referenceCount: int
    var referenceCapacity: int
    /** The credential file's contents, None when there is none. */
    var file: Option<seq<Token>>
    var attempts: int
    var status: Message
    var statusTime: real
    var lastX: int
    var lastY: int
    /** Set where lock_loop jumps to unlock. */
    var unlocked: bool

    /** The whole state as a value. */
    ghost function View(): State
      reads this, password, password.events, pass
      requires password.Valid()
    {
      State(mouseMode, recording, verifying, startTime, password.Contents(), password.capacity, lastX, lastY,
            reference, referenceCount, referenceCapacity, file, attempts, pass[..], passLen, status, statusTime, unlocked)
    }

    ghost predicate Valid()
      reads this, password, password.events, pass
    {
      password.Valid() && Inv(View())
    }

    /** init_x11's password setup and the start of lock_loop. */
    constructor (stored: Option<seq<Token>>, sqrt: real -> real)
      ensures Valid() && View() == Initial(stored) && this.sqrt == sqrt
      ensures fresh(password) && fresh(password.events) && fresh(pass)
    {
      password := new Capture.MousePassword(PASSWORD_CAPACITY as nat);
      pass := new char[PASS_SIZE](_ => '\0');
      this.sqrt := sqrt;
      var loaded := Load(stored);
      if loaded.Some? {
        reference, referenceCount, referenceCapacity := loaded.value.events, loaded.value.count, loaded.value.capacity;
      } else {
        reference, referenceCount, referenceCapacity := [], 0, 1;
      }
      file := stored;
      mouseMode, recording, verifying := false, false, false;
      startTime, attempts := 0.0, 0;
      status, statusTime := NoMessage, 0.0;
      lastX, lastY := -1, -1;
      passLen, unlocked := 0, false;
      new;
      assert pass[..] == seq(PASS_SIZE, _ => '\0');
    }

    /** set_status_message. */
    method SetStatusMessage(msg: Message, now: real)
      requires Valid()
      modifies this
      ensures Valid() && View() == SetStatus(old(View()), msg, now)
    {
      status, statusTime := msg, now;
    }

    /** start_mouse_recording. */
    method StartMouseRecording(now: real)
      requires Valid()
      modifies this, password
      ensures Valid() && View() == StartRecording(old(View()), now)
      ensures password.events == old(password.events)
    {
      recording := true;
      password.Clear();
      lastX, lastY := -1, -1;
      startTime := now;
      SetStatusMessage(RecordingPrompt, now);
    }

    /** start_mouse_verification. */
    method StartMouseVerification(now: real)
      requires Valid()
      modifies this, password
      ensures Valid() && View() == StartVerification(old(View()), now)
      ensures password.events == old(password.events)
    {
      verifying := true;
      password.Clear();
      lastX, lastY := -1, -1;
      startTime := now;
      SetStatusMessage(VerifyingPrompt, now);
    }

    /** add_mouse_event. */
    method AddMouseEvent(kind: char, x: int, y: int, now: real)
      requires Valid() && IsInt32(x) && IsInt32(y)
      modifies this, password, password.events
      ensures Valid() && View() == AddEvent(old(View()), kind, x, y, now)
      ensures password.events == old(password.events) || fresh(password.events)
    {
      AddEventKeepsInv(View(), kind, x, y, now);
      if !(recording || verifying) {
        return;
      }
      var elapsed := now - startTime;
      if elapsed >= RECORD_TIME {
        return;
      }
      if kind == 'm' && lastX == x && lastY == y {
        return;
      }
      password.Append(MouseEvent(x as real, y as real, kind, elapsed));
      lastX, lastY := x, y;
    }

    /** save_reference_password: copies the buffer into the reference and writes the file. */
    method SaveReferencePassword()
      requires Valid()
      modifies this
      ensures Valid() && View() == SaveReference(old(View()))
    {
      reference := password.events[..password.count];
      referenceCount := password.count;
      referenceCapacity := password.count + REFERENCE_SPARE;
      file := Some(Serialize(reference));
    }

    /** Ends the gesture in progress: the mouse-mode Return branch (auto false) and the
        body of the timeout branch (auto true), without the timeout's final count = 0. */
    method ConfirmGesture(now: real, auto: bool)
      requires Valid()
      modifies this, password.events
      ensures Valid() && View() == Confirm(old(View()), now, auto, sqrt)
    {
      if recording {
        FinishRecording(now, auto);
      } else if verifying {
        FinishVerification(now);
      }
    }

    /** A recording ends: normalize, keep as the reference, save. */
    method FinishRecording(now: real, auto: bool)
      requires Valid() && recording
      modifies this, password.events
      ensures Valid() && View() == Confirm(old(View()), now, auto, sqrt)
    {
      ConfirmKeepsInv(View(), now, auto, sqrt);
      password.Normalize();
      SaveReferencePassword();
      recording := false;
      SetStatusMessage(if auto then AutoSaved else Saved, now);
    }

    /** A verification ends: normalize, score against the reference, unlock or count a failure. */
    method FinishVerification(now: real)
      requires Valid() && !recording && verifying
      modifies this, password.events
      ensures Valid() && View() == Confirm(old(View()), now, false, sqrt)
      ensures View() == Confirm(old(View()), now, true, sqrt)
    {
      ConfirmKeepsInv(View(), now, false, sqrt);
      password.Normalize();
      var similarity := ComparePasswords(reference, password.events[..password.count], sqrt);
      if similarity > THRESHOLD {
        unlocked := true;
        return;
      }
      attempts := attempts + 1;
      SetStatusMessage(WrongGesture, now);
      verifying := false;
    }

    /** Return in keyboard mode: strcmp(pass, "123"). */
    method CheckKeyboardPassword(now: real)
      requires Valid() && !mouseMode
      modifies this, pass
      ensures Valid() && View() == Key(old(View()), Return, [], now, sqrt)
    {
      KeyKeepsInv(View(), Return, [], now, sqrt);
      if CString(pass[..]) == KEYBOARD_PASSWORD {
        unlocked := true;
        return;
      }
      attempts := attempts + 1;
      pass[0] := '\0';
      passLen := 0;
      SetStatusMessage(WrongKeyboard, now);
    }

    /** F2: toggles the mode and empties the buffer. */
    method ToggleMode(now: real)
      requires Valid()
      modifies this, password
      ensures Valid() && View() == Key(old(View()), F2, [], now, sqrt)
      ensures password.events == old(password.events)
    {
      KeyKeepsInv(View(), F2, [], now, sqrt);
      mouseMode := !mouseMode;
      if mouseMode {
        if referenceCount > 0 {
          StartMouseVerification(now);
        } else {
          SetStatusMessage(NotRecorded, now);
        }
      } else {
        SetStatusMessage(KeyboardMode, now);
      }
      password.Clear();
    }

    /** The KeyPress branch of lock_loop. */
    method HandleKey(sym: KeySym, text: string, now: real)
      requires Valid()
      modifies this, password, password.events, pass
      ensures Valid() && View() == Key(old(View()), sym, text, now, sqrt)
      ensures password.events == old(password.events)
    {
      KeyKeepsInv(View(), sym, text, now, sqrt);
      if sym == Return {
        if mouseMode {
          ConfirmGesture(now, false);
        } else {
          CheckKeyboardPassword(now);
        }
      } else if sym == BackSpace && passLen > 0 {
        passLen := passLen - 1;
        pass[passLen] := '\0';
      } else if sym == F2 {
        ToggleMode(now);
      } else if sym == F3 {
        mouseMode := true;
        StartMouseRecording(now);
      } else if passLen < PASS_SIZE - 1 && |text| > 0 {
        pass[passLen] := text[0];
        passLen := passLen + 1;
        pass[passLen] := '\0';
      }
    }

    /** One X event taken by lock_loop. */
    method HandleEvent(ev: Input, now: real)
      requires Valid() && ValidInput(ev)
      modifies this, password, password.events, pass
      ensures Valid() && View() == Step(old(View()), ev, now, sqrt)
      ensures attempts >= old(attempts)
    {
      StepKeepsInv(View(), ev, now, sqrt);
      match ev
      case Motion(x, y) =>
        if recording || verifying {
          AddMouseEvent('m', x, y, now);
          ExpireStatus(now);
        }
      case ButtonPress(x, y) =>
        if recording || verifying {
          AddMouseEvent('c', x, y, now);
          ExpireStatus(now);
        }
      case KeyPress(sym, text) =>
        HandleKey(sym, text, now);
    }

    /** The idle branch of lock_loop: the gesture timeout. */
    method IdlePoll(now: real)
      requires Valid()
      modifies this, password, password.events
      ensures Valid() && View() == Idle(old(View()), now, sqrt)
      ensures attempts >= old(attempts)
    {
      IdleKeepsInv(View(), now, sqrt);
      if (recording || verifying) && now - startTime >= RECORD_TIME {
        ConfirmGesture(now, true);
        if unlocked {
          return;
        }
        password.Clear();
      }
    }

    /** The status-expiry rule of redraw_screen. */
    method ExpireStatus(now: real)
      requires Valid()
      modifies this
      ensures Valid() && View() == Expire(old(View()), now)
    {
      if status != NoMessage {
        var elapsed := now - statusTime;
        if !(elapsed < STATUS_TIME) {
          status := NoMessage;
        }
      }
    }
  }
}
