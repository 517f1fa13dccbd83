# Hand gesture recognizer: classifier, stability filter and actions

This Dafny project models the decision logic of `handGestureRecognizer.py`, a webcam demo.
The program reads the 21 landmarks that a hand detector reports for each hand in a frame and
classifies the hand as Thumbs Up, Thumbs Down, Rock Sign, Point or Stop. A label counts as
confirmed only once it has persisted for more than half a second. A confirmed Thumbs Up,
Thumbs Down, Rock Sign or Stop then moves the selection in a ten-item list, resets the list,
or toggles a pause flag; a confirmed Point or No Gesture does nothing.

- `Gestures.dfy` (module `Gestures`): landmarks, hands (sequences of exactly 21 landmarks)
  and the gesture labels. It holds the five geometric rules as predicates, the `if/elif`
  chain as `Classify`, and an independent reference for the tie-break policy:
  `FirstMatch` over the ordered list `Priority`.
- `Stability.dfy` (module `Stability`): the program's global state as a value (`State`).
  It holds the four actions (`Perform`), the stability filter step (`Filter`), the per-frame
  step (`Frame`) and runs over many frames (`Run`, `FilterRun`). `DetectGesture` is the
  imperative loop over the detected hands. The lemmas state what the source promises about
  all of these.
- `Recognizer.dfy` (module `Recognizer`): the class `GestureRecognizer`. Its fields are the
  globals `current_gesture`, `paused`, `selected_item_index`, `last_gesture` and
  `last_gesture_time`. Its methods are the four action functions and the frame step of
  `update_video_feed`. Each method is proved to change the fields exactly as the matching
  `Stability` function says.
- `Scenarios.dfy` (module `Scenarios`): two concrete hands, and timed runs of the filter and
  of whole frames.

Modelling choices:
- Coordinates are `real`. Every rule is a strict comparison, or `abs(dx) > 0.1`.
- The clock is the parameter `now`. The source reads `time.time()` twice, at lines 224 and
  226; the model uses the single value `now` for both reads.
- `last_gesture` starts as Python `None`, which differs from every label, including
  "No Gesture". The model writes it as `Option<Gesture>`, starting at `None`.
- The source stores and compares the label strings. `Name` gives those strings, and
  `NameInjective` shows that comparing labels gives the same answer as comparing strings.

Two consequences of the code that are easy to miss:
- A frame without hands does not feed "No Gesture" to the filter. Only the shown label
  changes; `last_gesture` and its timer stay as they were (lines 198 and 239-240).
- Holding Stop does not toggle the pause flag again and again. The first confirmed Stop sets
  `paused`. Paused frames skip all classification (line 196), so a gesture can never resume.
  Only the Stop button, `GestureRecognizer.StopAction`, can resume. `HeldStopPausesOnce`
  proves this for a 1.5 s hold.

## Model

| member | source | states |
|---|---|---|
| `Gestures.IsThumbsUp` | handGestureRecognizer.py:26-39 | Holds exactly when the thumb tip (landmark 4) lies above landmarks 3 and 2 and above the finger tips 8, 12, 16 and 20 |
| `Gestures.IsThumbsDown` | handGestureRecognizer.py:41-54 | Holds exactly when the thumb tip (landmark 4) lies below landmarks 3 and 2 and below the finger tips 8, 12, 16 and 20 |
| `Gestures.IsRockSign` | handGestureRecognizer.py:56-70 | Holds exactly when the pinky (20 above 18) and index (8 above 6) are extended, middle (12 below 10) and ring (16 below 14) are folded, and the thumb tip 4 is below 3; such a hand is never Thumbs Up |
| `Gestures.IsPointing` | handGestureRecognizer.py:72-81 | Holds exactly when the index tip 8 lies above its base 5 and the tips 12, 16, 20 lie below their bases 9, 13, 17 |
| `Gestures.IsStop` | handGestureRecognizer.py:83-93 | Holds exactly when all four tips 8, 12, 16, 20 lie above their bases 5, 9, 13, 17 and the horizontal distance of landmarks 4 and 2 exceeds 0.1 |
| `Gestures.Classify` | handGestureRecognizer.py:202-220 | A label other than No Gesture is only returned when that label's rule holds for the hand |
| `Gestures.ClassifyIsFirstMatch` | handGestureRecognizer.py:202-220 | The elif chain equals "first rule of the ordered list Point, Thumbs Up, Thumbs Down, Rock Sign, Stop that holds", else No Gesture |
| `Gestures.FirstMatchIsEarliest` | handGestureRecognizer.py:202-220 | The first-match reference returns No Gesture exactly when no rule in the list holds; otherwise it returns a rule that holds and before which no rule holds |
| `Gestures.ClassifyPriority` | handGestureRecognizer.py:202-220 | Point wins whenever it holds; otherwise the first of Thumbs Up, Thumbs Down, Rock Sign, Stop that holds wins; the label is No Gesture exactly when no rule holds |
| `Gestures.ThumbsUpDownExclusive` | handGestureRecognizer.py:26-54 | Thumbs Up and Thumbs Down never both hold |
| `Gestures.PointStopExclusive` | handGestureRecognizer.py:72-93 | Point and Stop never both hold (middle tip against landmark 9 is compared in opposite directions) |
| `Gestures.DegenerateHandIsNoGesture` | handGestureRecognizer.py:26-93 | A hand whose 21 landmarks all coincide matches no rule and is classified No Gesture |
| `Gestures.NameInjective` | handGestureRecognizer.py:207-223 | Two labels have equal texts exactly when they are the same label, so the string comparison at line 223 is label equality |
| `Gestures.Abs` | handGestureRecognizer.py:91 | The absolute value is non-negative and is the argument or its negation |
| `Stability.InitialState` | handGestureRecognizer.py:15-19 | At start-up the selection is in range, the program is not paused and no previous label exists |
| `Stability.PreviousIndex` | handGestureRecognizer.py:145-152 | Moving up never increases the index and keeps an in-range index in range |
| `Stability.NextIndex` | handGestureRecognizer.py:136-143 | Moving down never decreases the index and keeps an in-range index in range |
| `Stability.Perform` | handGestureRecognizer.py:128-163 | An action keeps the selection in range and leaves the shown label, the previous label and the timer untouched |
| `Stability.ActionFor` | handGestureRecognizer.py:228-235 | No action exactly for Point and No Gesture; the pause toggle exactly for Stop |
| `Stability.Dispatch` | handGestureRecognizer.py:228-235 | Applying a confirmed label leaves the shown label, previous label and timer alone; only Stop can change the pause flag, only Thumbs Up, Thumbs Down and Rock Sign can change the selection, and Point and No Gesture change nothing |
| `Stability.Filter` | handGestureRecognizer.py:222-238 | A filter step keeps the selection in range |
| `Stability.Frame` | handGestureRecognizer.py:196-240 | A frame step keeps the selection in range |
| `Stability.LastMatch` | handGestureRecognizer.py:197-220 | The frame label is No Gesture or one of the hands' labels |
| `Stability.DetectGesture` | handGestureRecognizer.py:197-220 | The loop over the hands yields the label of the last hand that matches a rule, or No Gesture |
| `Stability.LastMatchIsLastNonEmpty` | handGestureRecognizer.py:197-220 | Over the hands' labels in order: the result is No Gesture exactly when every label is; otherwise it is one of the labels and every later label is No Gesture |
| `Stability.LastMatchIsLastMatchingHand` | handGestureRecognizer.py:197-220 | The frame label is No Gesture exactly when no hand matches; otherwise it is the label of some hand, and every later hand matches nothing |
| `Stability.FilterOutcome` | handGestureRecognizer.py:222-238 | An unconfirmed label changes neither the confirmed label, nor the selection, nor the pause flag; it becomes the previous label and restarts the timer only if it differs. A confirmed label (equal to the previous one, strictly more than 0.5 s after the timer start) becomes the confirmed label and restarts the timer. It then fires previous, next, refresh or toggle for Thumbs Up, Thumbs Down, Rock Sign or Stop, and nothing for Point or No Gesture |
| `Stability.AtMostOneAction` | handGestureRecognizer.py:228-235 | A step changes at most one of selection and pause flag: a toggle happens only for a confirmed Stop, and a selection change moves one item or back to the top |
| `Stability.FilterKeepsWitnessed` | handGestureRecognizer.py:222-238 | One filter step preserves the invariant that the previous label has been observed without interruption since the observation at the timer's start time |
| `Stability.FilterRunKeepsWitnessed` | handGestureRecognizer.py:222-238 | Over any sequence of observations, the previous label has been observed without interruption since the observation at the timer's start time |
| `Stability.ConfirmationNeedsStableRun` | handGestureRecognizer.py:222-238 | Starting from a filter that has seen nothing, a label is confirmed only if every observation since one made more than 0.5 s earlier carried that label |
| `Stability.FilterIgnoresShownLabel` | handGestureRecognizer.py:222-238 | Two states that differ only in the shown label still agree on everything else after the same filter step: the filter never reads the shown label |
| `Stability.RunIsFilterRunOfHandFrames` | handGestureRecognizer.py:196-240 | A run of frames that ends unpaused agrees, except for the shown label, with the filter shown only the labels of the frames with hands, in order and with their clock readings; frames without hands are skipped |
| `Stability.FrameConfirmationNeedsStableRun` | handGestureRecognizer.py:196-240 | From start-up, a label confirmed after an unpaused run of frames was the label of every frame with hands since one more than 0.5 s earlier; frames without hands in between do not break the run |
| `Stability.FrameWithoutFilter` | handGestureRecognizer.py:196-246 | A paused frame changes nothing. A frame without hands sets the shown label to No Gesture and leaves the previous label, the timer, the selection and the pause flag as they were |
| `Stability.PausedRunUnchanged` | handGestureRecognizer.py:196-246 | Once paused, no sequence of frames changes the state, so a held Stop cannot resume |
| `Stability.RunKeepsSelection` | handGestureRecognizer.py:128-152 | Over any sequence of frames the selection stays within the ten items |
| `Stability.NextPreviousInverse` | handGestureRecognizer.py:136-152 | Next and previous undo each other away from the list ends; next at the last item and previous at the first do nothing |
| `Stability.ToggleTwice` | handGestureRecognizer.py:154-163 | Two toggles of the pause flag restore the state |
| `Recognizer.GestureRecognizer.constructor` | handGestureRecognizer.py:14-20 | The fields start with the values of the module-level globals |
| `Recognizer.GestureRecognizer.RefreshAction` | handGestureRecognizer.py:128-134 | The selection becomes 0; nothing else changes; the class invariant is kept |
| `Recognizer.GestureRecognizer.NextItemAction` | handGestureRecognizer.py:136-143 | The selection moves down one item unless it is at the last item; nothing else changes; the class invariant is kept |
| `Recognizer.GestureRecognizer.PreviousItemAction` | handGestureRecognizer.py:145-152 | The selection moves up one item unless it is at index 0; nothing else changes; the class invariant is kept |
| `Recognizer.GestureRecognizer.StopAction` | handGestureRecognizer.py:154-163 | The pause flag is negated; nothing else changes; the class invariant is kept |
| `Recognizer.GestureRecognizer.ProcessFrame` | handGestureRecognizer.py:186-246 | The fields change exactly as one `Frame` step on their old values, and the class invariant (selection in range) is kept |
| `Scenarios.OpenPalmIsStop` | handGestureRecognizer.py:83-93 | A concrete open palm with the thumb spread 0.15 matches Stop and is classified Stop |
| `Scenarios.PointOutranksThumbsUp` | handGestureRecognizer.py:202-211 | A concrete hand meets both the Point and the Thumbs Up rule and is classified Point |
| `Scenarios.AllZeroHandIsNoGesture` | handGestureRecognizer.py:26-93 | The all-zero hand is No Gesture |
| `Scenarios.HeldThumbsUpConfirmsOnce` | handGestureRecognizer.py:222-229 | Thumbs Up at 0.0, 0.2, 0.4, 0.6 s confirms only at 0.6 s, and moves the selection up once |
| `Scenarios.InterruptedThumbsUpNeverConfirms` | handGestureRecognizer.py:222-238 | Thumbs Up, Rock Sign, Thumbs Up at 0.0, 0.3, 0.6 s confirms nothing and fires no action |
| `Scenarios.HeldStopPausesOnce` | handGestureRecognizer.py:196-235 | An open palm held from 0 to 1.5 s in 0.25 s frames is confirmed at 0.75 s, not at 0.5 s (the comparison is strict). It pauses once and is still paused at the end |
| `Scenarios.EmptyFrameDoesNotInterruptStop` | handGestureRecognizer.py:196-240 | An open palm at 0.0 s, no hands at 0.3 s and the palm at 0.6 s confirms Stop at 0.6 s and pauses: the empty frame does not restart the timer |
| `Scenarios.HeldStopOnRecognizer` | handGestureRecognizer.py:186-246 | On the object, a held open palm leaves it paused; the Stop button then resumes it |

## Left out

- Camera capture, mirroring and colour conversion (lines 183, 188-193, 249-252, 264-265): these are I/O through OpenCV. `ProcessFrame` models a frame that was delivered. When a camera read fails (lines 189-190), the source returns before touching any state and never re-schedules itself; the model does not include that case.
- The hand detector and the landmark drawing (lines 10-12, 194, 200): the detector is an external model. Its output is the `hands` parameter. The depth coordinate is left out because no rule reads it.
- Tk widgets, label texts, list box selection, buttons and the `root.after` polling (lines 96-125, 166-180, 243-255): these are display code. A button press is a direct call of the matching action method.
- Cursor placement for Point (lines 204-206, 210-219): the cursor depends on the widget size and on float-to-int truncation, and it does not affect any state in this model.
- `print` calls, and the clock `time.time()`, which is the `now` parameter.
- Floating point: coordinates, times and the constants 0.1 and 0.5 are exact reals. Rounding of the binary floats can flip a comparison that sits exactly on a threshold. The model does not capture this.
