# Gesture-password lock, modelled in Dafny

`mousepass.c` is an X11 screen locker. It can be unlocked with a typed password or with a
mouse gesture: a timed sequence of pointer moves (`'m'`) and clicks (`'c'`), captured for
at most 5 seconds. The gesture is normalized to its bounding box, compared index by index
with a stored reference, and accepted when the similarity is strictly above 0.90. The
reference is enrolled with F3 and kept in a small text file. `pass.py` is an earlier
pygame prototype of the same idea with its own constants and scoring.

The model has six modules:

- `Gesture` (gesture.dfy): the event record, `normalize_events` as the function
  `Normalized`, `compare_passwords` as the function `Similarity` and the loop method
  `ComparePasswords`, and their properties.
- `Capture` (capture.dfy): the growable `MousePassword` buffer as a class over an array,
  with in-place `Append`, `Clear` and `Normalize` (the two loops of `normalize_events`).
- `Credential` (credential.dfy): `save_mouse_password` / `load_mouse_password` over a
  stream of fields, with decimals held as micro-units (six fractional digits).
- `Authenticator` (authenticator.dfy): the state `lock_loop` works on as a value, one
  transition per X event, the idle timeout and the status expiry, with the lock's
  properties.
- `Lock` (lockstate.dfy): `LockState` as a class. It owns the capture buffer object and the
  64-byte keyboard buffer. Each handler method is proved to move the state exactly as the
  matching `Authenticator` transition.
- `Prototype` (prototype.dfy): `pass.py`'s `MousePassword` class, its normalizer and
  scorer, and its main-loop key and timeout handling. It shares no definitions with the C
  model.

The square root is a parameter `sqrt: real -> real`. The only facts assumed about it are
that it is 0 at 0 and never negative (`Gesture.SqrtLike`, `Prototype.RootLike`). The
monotonic-degradation lemma also asks for a non-decreasing root. The clock is the `now`
parameter of every handler. The credential file is a value, `Option<seq<Token>>`.

## Model

| member | source | states |
|---|---|---|
| Gesture.Lowest | mousepass.c:88-95 | the fmin fold over one axis, starting from DBL_MAX; its contract is stated by LowestIsLeast |
| Gesture.Highest | mousepass.c:88-95 | the fmax fold over one axis, starting from -DBL_MAX; its contract is stated by HighestIsGreatest |
| Gesture.LowestIsLeast | mousepass.c:88-95 | the fmin fold from DBL_MAX is at most every coordinate and equals one of them |
| Gesture.HighestIsGreatest | mousepass.c:88-95 | the fmax fold from -DBL_MAX is at least every coordinate and equals one of them |
| Gesture.Scale | mousepass.c:97-100 | the divisor is never below 1e-5 (a smaller box gives 1.0) |
| Gesture.Normalized | mousepass.c:85-106 | normalizing keeps the count, and every event keeps its kind and time |
| Gesture.NormalizedInUnitBox | mousepass.c:85-106 | after normalizing, every x and y lies in [0, 1] |
| Gesture.NormalizedTouchesAxes | mousepass.c:102-105 | the minimum x and the minimum y map to 0 |
| Gesture.NormalizedLongerSideIsOne | mousepass.c:97-105 | when the raw scale is at least 1e-5, the longer side of the box reaches exactly 1 |
| Gesture.NormalizedTranslationInvariant | mousepass.c:85-106 | moving the whole gesture by a constant vector does not change its normalized form |
| Gesture.Similarity | mousepass.c:108-130 | the score compare_passwords computes; its range, self-score, tail independence and offset behaviour are the lemmas below |
| Gesture.ComparePasswords | mousepass.c:108-130 | the accumulating loop returns exactly `Similarity` (0 if either side is empty, else 0.7·mean position term + 0.3·mean kind agreement over the first min(count) events) |
| Gesture.SimilarityInUnitInterval | mousepass.c:108-130 | the score lies in [0, 1] and is 0.0 when either gesture is empty |
| Gesture.SimilarityOfItself | mousepass.c:115-129 | a non-empty gesture scores exactly 1.0 against itself |
| Gesture.SimilarityIgnoresTail | mousepass.c:113-116 | only the first min(count) events of each side affect the score |
| Gesture.SimilarityOfShifted | mousepass.c:115-129 | a copy moved sideways by d scores 0.7·(1 − min(1, sqrt(d²))) + 0.3 |
| Gesture.SimilarityDegradesWithOffset | mousepass.c:118-120 | with a monotone root, a larger offset never scores higher |
| Capture.MousePassword.constructor | mousepass.c:271-274 | a new buffer is empty with the requested capacity |
| Capture.MousePassword.Append | mousepass.c:208-219 | the event is stored at the old count, earlier events are untouched, count grows by 1, capacity grows by exactly 50 when full, and count ≤ capacity still holds |
| Capture.MousePassword.Clear | mousepass.c:183 | count becomes 0; the array and capacity are kept |
| Capture.MousePassword.Normalize | mousepass.c:85-106 | the in-place loops leave the first count cells equal to `Normalized` of the old contents, leave the cells past count alone, and keep the buffer in range |
| Credential.ToMicros | mousepass.c:139-142 | the micro-unit value `%.6f` prints is within half a micro-unit of the exact one |
| Credential.ToMicrosNearest | mousepass.c:139-142 | writing a decimal with six digits moves it by at most half a millionth |
| Credential.ToMicrosExact | mousepass.c:139-142 | a value that already has six fractional digits is written exactly |
| Credential.Serialize | mousepass.c:132-145 | the file holds the count header followed by exactly four fields per event |
| Credential.ParseRecord | mousepass.c:162-166 | one `%c %lf %lf %lf` conversion succeeds iff four fields are present, the first a character and the others numbers; the event takes the kind and the three numbers in time, x, y order |
| Credential.Records | mousepass.c:139-143 | each event is written as four fields |
| Credential.ParseRecords | mousepass.c:160-170 | the record loop never reads more events than the header declares |
| Credential.Load | mousepass.c:147-173 | fails exactly when there is no file or the header is not an integer; otherwise capacity = declared + 10, a header ≤ 0 is kept as the count with no events, and a positive header gives count = number of events read ≤ declared |
| Credential.ParseRecordsOfRecords | mousepass.c:160-170 | the record loop reads back, in order, exactly the records that were written, as far as it is asked to |
| Credential.LoadSerialized | mousepass.c:132-173 | loading what save wrote gives count \|s\|, capacity \|s\| + 10 and the same kinds, times and coordinates in order, each rounded to six decimals |
| Credential.LoadSerializedOnGrid | mousepass.c:132-173 | a gesture whose values have six fractional digits comes back unchanged |
| Credential.QuantizedIsClose | mousepass.c:139-142 | save-then-load keeps each kind and moves each time and coordinate by at most half a millionth |
| Credential.LoadTruncated | mousepass.c:160-170 | a file whose records stop early (end of file, a record cut after some of its fields, or fields that do not form a record) still loads, truncated at that point |
| Credential.LoadStopsAtDeclared | mousepass.c:160-161 | records beyond the declared count are never read |
| Authenticator.Initial | mousepass.c:279-292 | the start state: the loaded reference (or an empty one with capacity 1), no session, keyboard mode, attempts 0, empty keyboard buffer, invariant holds |
| Authenticator.CString | mousepass.c:509 | strcmp's view of the buffer is a NUL-free prefix of it, followed by a NUL if shorter |
| Authenticator.SetStatus | mousepass.c:175-179 | set_status_message on the state value; specified through Lock.LockState.SetStatusMessage |
| Authenticator.StartRecording | mousepass.c:181-188 | start_mouse_recording on the state value; F3KeepsVerifying states its effect |
| Authenticator.StartVerification | mousepass.c:190-197 | start_mouse_verification on the state value; F2KeepsSession states when it is reached |
| Authenticator.AddEvent | mousepass.c:199-223 | add_mouse_event on the state value; AddEventAppends and AddEventKeepsInv state its contract |
| Authenticator.SaveReference | mousepass.c:430-446 | save_reference_password on the state value; ConfirmRecording states the file it writes loads back |
| Authenticator.Confirm | mousepass.c:487-506 | the Return branch of the mouse mode, reused by the timeout at lines 545-562; ConfirmRecording, ConfirmVerifying, UnlockByGesture and ConfirmKeepsInv state its contract |
| Authenticator.Key | mousepass.c:483-537 | the KeyPress chain; KeyboardReturn, Backspace, TypeCharacter, F2KeepsSession, F3KeepsVerifying and KeyKeepsInv state its contract |
| Authenticator.Step | mousepass.c:465-537 | one X event of lock_loop, with the redraw after a pointer event during a session; StepKeepsInv, UnlockOnlyOnMatch and PointerEventRedraws state its contract |
| Authenticator.Idle | mousepass.c:540-564 | the idle timeout of lock_loop; TimeoutLikeReturn, NoTimeoutEarly and IdleKeepsInv state its contract |
| Authenticator.Expire | mousepass.c:418-425 | the status expiry of redraw_screen; ExpireAfterThreeSeconds states its contract |
| Authenticator.AddEventAppends | mousepass.c:199-223 | add_mouse_event is a no-op without a session, at elapsed ≥ 5 or for a move onto the last stored position; otherwise it appends exactly {x, y, kind, elapsed}, keeps earlier events, grows capacity by 50 when full and records the position |
| Authenticator.AddEventKeepsInv | mousepass.c:208-222 | appending keeps count ≤ capacity and every stored coordinate in range |
| Authenticator.ConfirmKeepsInv | mousepass.c:487-506 | ending a gesture keeps the invariant and never lowers attempts |
| Authenticator.KeyKeepsInv | mousepass.c:483-536 | every key keeps pass_len ≤ 63 with a NUL after it, and never lowers attempts |
| Authenticator.StepKeepsInv | mousepass.c:465-537 | every X event keeps the invariant and never lowers attempts |
| Authenticator.IdleKeepsInv | mousepass.c:540-564 | the idle timeout keeps the invariant and never lowers attempts |
| Authenticator.UnlockOnlyOnMatch | mousepass.c:486-514 | an event unlocks iff it is Return and either (mouse mode, verifying, not recording, score > 0.90) or (keyboard mode, buffer reads "123") |
| Authenticator.UnlockByGesture | mousepass.c:487-500 | a mouse-mode Return unlocks iff verifying, not recording, and the score is strictly above 0.90 |
| Authenticator.KeyboardReturn | mousepass.c:508-514 | Return in keyboard mode unlocks iff strcmp's view of the typed text (up to a typed NUL) is "123", which is the text itself when no NUL was typed; otherwise attempts + 1, an empty buffer and the error message |
| Authenticator.Backspace | mousepass.c:515-536 | BackSpace removes exactly the last character when there is one; on an empty buffer the key's own text is appended |
| Authenticator.TypeCharacter | mousepass.c:534-536 | any other key appends its first character in either mode while fewer than 63 are held, and is ignored when 63 are held |
| Authenticator.ConfirmRecording | mousepass.c:488-493 | ending a recording makes the reference the normalized buffer, clears recording, keeps verifying and attempts, and writes a file that loads back to that gesture rounded to six decimals |
| Authenticator.ConfirmVerifying | mousepass.c:494-505 | ending a verification unlocks iff score > 0.90 (verifying stays set); otherwise attempts + 1, verifying cleared, error message |
| Authenticator.BoundaryRejected | mousepass.c:499 | a score of exactly 0.90 does not unlock |
| Authenticator.TimeoutLikeReturn | mousepass.c:540-564 | the timeout ends a gesture like Return, except for the auto-saved message and the emptied buffer when it does not unlock |
| Authenticator.NoTimeoutEarly | mousepass.c:541-542 | an idle poll before 5 seconds changes nothing |
| Authenticator.F2KeepsSession | mousepass.c:517-529 | F2 toggles the mode and empties the buffer, but leaves recording as it was and only ever sets verifying (when turning mouse mode on with a positive reference count) |
| Authenticator.F3KeepsVerifying | mousepass.c:530-533 | F3 enters mouse mode and starts a recording without clearing verifying |
| Authenticator.ExpireAfterThreeSeconds | mousepass.c:418-425 | a status message is cleared iff it is at least 3 seconds old; nothing else changes |
| Authenticator.PointerEventRedraws | mousepass.c:466-479 | a motion or click during a session gives add_mouse_event's state, except that the redraw clears a status message at least 3 seconds old and otherwise keeps it |
| Authenticator.ScenarioBounds | mousepass.c:88-100 | points at x = 0, 10, 10 on the x axis give the box [0, 10] × [0, 0] and scale 10 |
| Authenticator.ScenarioNormalized | mousepass.c:102-105 | those points normalize to x = 0, 1, 1 |
| Authenticator.ScenarioSums | mousepass.c:115-124 | coinciding points with two of three kinds equal give position sum 3 and kind sum 2 |
| Authenticator.ScenarioScore | mousepass.c:108-130 | the enrolled move-move-click against move-move-move scores exactly 0.9 |
| Authenticator.ScenarioVerification | mousepass.c:494-505 | repeating the enrolled gesture unlocks; replacing its click by a move is rejected and costs an attempt |
| Lock.LockState.constructor | mousepass.c:279-292 | the object starts in `Initial` of the stored file |
| Lock.LockState.SetStatusMessage | mousepass.c:175-179 | only the message and its time change |
| Lock.LockState.StartMouseRecording | mousepass.c:181-188 | recording set, buffer emptied, last position −1, clock restarted, prompt shown; verifying untouched |
| Lock.LockState.StartMouseVerification | mousepass.c:190-197 | verifying set, buffer emptied, last position −1, clock restarted, prompt shown; recording untouched |
| Lock.LockState.AddMouseEvent | mousepass.c:199-223 | the object moves exactly as `AddEvent` |
| Lock.LockState.SaveReferencePassword | mousepass.c:430-446 | reference := copy of the buffer, count and capacity count + 10, file := its serialization |
| Lock.LockState.ConfirmGesture | mousepass.c:487-506 | the object moves exactly as `Confirm` |
| Lock.LockState.FinishRecording | mousepass.c:488-493 | normalize, save the reference, clear recording, show the saved message |
| Lock.LockState.FinishVerification | mousepass.c:494-505 | normalize, score with `ComparePasswords`, unlock above 0.90 or count a failure |
| Lock.LockState.CheckKeyboardPassword | mousepass.c:508-514 | the keyboard Return branch, as `Key` |
| Lock.LockState.ToggleMode | mousepass.c:517-529 | the F2 branch, as `Key` |
| Lock.LockState.HandleKey | mousepass.c:483-537 | the KeyPress branch moves the object exactly as `Key` |
| Lock.LockState.HandleEvent | mousepass.c:465-537 | one X event moves the object exactly as `Step`, including the status expiry of the redraw after a pointer event; attempts never decreases |
| Lock.LockState.IdlePoll | mousepass.c:540-564 | the idle branch moves the object exactly as `Idle`; attempts never decreases |
| Lock.LockState.ExpireStatus | mousepass.c:418-425 | the object moves exactly as `Expire` |
| Prototype.LeastIsMinimum | pass.py:115-118 | min() of a list is at most every element and is one of them |
| Prototype.GreatestIsMaximum | pass.py:115-118 | max() of a list is at least every element |
| Prototype.SideScale | pass.py:121-123 | scale = max(max(1, width), max(1, height)) is at least 1 |
| Prototype.NormalizeEvents | pass.py:109-138 | [] stays []; otherwise the same length, kinds kept, time divided by RECORD_TIME = 4 |
| Prototype.NormalizeEventsInUnitBox | pass.py:120-136 | every normalized x and y lies in [0, 1] |
| Prototype.NormalizeEventsTouchesAxes | pass.py:127-129 | the minimum x and the minimum y map to 0 |
| Prototype.Compared | pass.py:140-190 | compare_events as a value; ComparedInUnitInterval and ComparedWithItself state its contract |
| Prototype.ComparedInUnitInterval | pass.py:140-190 | 0.0 on a click-count mismatch; ZeroDivisionError exactly when the counts agree and min_length = 0; otherwise 0.6·pos + 0.3·time + 0.1·seq in [0, 1] |
| Prototype.ComparedWithItself | pass.py:159-190 | a non-empty gesture scores exactly 1.0 against itself |
| Prototype.MousePassword.constructor | pass.py:31-34 | no session, no message, reference as loaded |
| Prototype.MousePassword.Reset | pass.py:36-42 | events, both flags, start time and message cleared; reference kept |
| Prototype.MousePassword.StartRecording | pass.py:44-48 | events empty, only recording set, clock started, prompt shown |
| Prototype.MousePassword.StartVerification | pass.py:50-58 | without a reference only the message changes; otherwise events empty, only verifying set |
| Prototype.MousePassword.CompareEvents | pass.py:140-190 | the accumulating loop returns exactly `Compared` |
| Prototype.MousePassword.FinishInput | pass.py:82-107 | no events: a message, both flags cleared, reference kept; recording: reference := normalized events; verifying: accepted iff score ≥ 0.85, with the score in the message and green or red colour; verifying cleared |
| Prototype.MousePassword.TooClose | pass.py:70-74 | the move filter: the squared distance to the last event, of either kind, is below 2² |
| Prototype.MousePassword.RecordEvent | pass.py:60-80 | no session: nothing changes; elapsed ≥ 4: finish_input and the event is dropped; a move within distance 2 of the last event of either kind is dropped; otherwise the event is appended with its elapsed time |
| Prototype.MousePassword.HandleEvent | pass.py:226-249 | the loop goes on unless QUIT or ESC; R gives start_recording's state; V gives start_verification's two cases; C gives reset's state with the reset message; QUIT, ESC and other keys change nothing; a pointer event changes nothing without a session and otherwise gives record_event's three cases; the reference changes only by finishing a non-empty recording |
| Prototype.MousePassword.Tick | pass.py:251-255 | a session is finished once 4 seconds have passed and is otherwise untouched |

## Left out

- X11, Xft, XKB and Imlib2: window and grab setup in `init_x11`, `get_current_layout`, every drawing function and `redraw_screen` apart from its 3-second status expiry. Input arrives as the abstract `Input` events.
- The clock: `gettimeofday`, `time`, `usleep` and the once-per-second redraw are replaced by the `now` parameter. The microsecond arithmetic of `get_elapsed_time` is not modelled.
- File I/O: the file is a value holding a stream of fields. Character-level `fscanf` behaviour is not modelled. That covers whitespace skipping and a header such as `3.5` being read as 3 with the rest left in the stream; a header that is not an `Int` field simply fails. `%.6f` is modelled only as rounding to the nearest millionth, ties to even. `fopen` failing on save is not modelled: the model's save always writes.
- `malloc`/`realloc`/`free` and their failure. The reference is a sequence value with its count and capacity as integers; the capture buffer keeps its array.
- IEEE doubles: coordinates and times are `real`. NaN, infinities, rounding and the sign of −0.0 are not modelled. `sqrt` is a parameter with only the two facts above.
- Gesture.NormalizedTranslationInvariant: covers translation only. Invariance under uniform scaling is not proved, because the nonlinear real arithmetic it needs was beyond what the verifier could close within its limits.
- A negative count loaded from the file is kept as the reference count, with no events behind it. In C, `compare_passwords` then divides 0.0 by the negative count and gets −0.0; the model scores it as an empty reference, 0.0. Both are below the threshold.
- `status_msg` truncation to 127 bytes: every message is one of a fixed set of short texts, modelled as the `Message` datatype. `printf` diagnostics are left out.
- Lock.LockState.HandleEvent: requires pointer coordinates to fit a 32-bit int, as C ints do.
- Credential.Load: the header, count and capacity are unbounded integers. Headers for which `count + 10` leaves the range of a C `int` are not modelled: in C that sum overflows before `malloc`.
- pass.py: the pygame window, event pump and drawing; the `last_pos` global, which nothing reads; `clock.tick`. `load_password` is replaced by the constructor's `stored` argument, and `save_password`'s JSON write is left out. `** 0.5` in the scorer is the `sqrt` parameter. The move filter `distance < 2` is stated as dx² + dy² < 4, which is the same test on exact reals.
- Prototype.MousePassword.HandleEvent: handles one pygame event at a time. The rest of a batch after QUIT or ESC is still processed by the loop; that is the caller's concern.

Behaviour of the C code a reader might not expect, modelled as written:

- F2 back to keyboard mode does not discard the session: `recording` and `verifying` stay set and only the buffer is emptied.
- F2 with no reference leaves mouse mode on with a "not recorded" message.
- F3 does not clear `verifying`.
- An accepted gesture leaves `verifying` set, because the loop jumps straight to unlock.
- The timeout uses the same "wrong password" message as Return when a verification fails. Only a recording has a separate "saved automatically" message.
