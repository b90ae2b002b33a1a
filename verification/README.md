# HandPose drawing state machine, in Dafny

The HandPose app lets a user draw on the camera image by pinching thumb and
index finger. A hand gesture processor classifies every frame's 21 hand
landmarks into a gesture state. On each state change the camera view
controller updates its drawing state:

- `possiblePinch` and `possibleApart` (the processor is still undecided)
  append the frame's landmarks to an evidence buffer;
- `pinched` replays the buffered landmarks and then the current ones through
  `updatePath`, and empties the buffer;
- `apart` and `unknown` discard the buffer and end the stroke.

`updatePath` draws at the midpoint of thumb tip and index tip. It starts a
stroke with a move-to when no stroke is in progress and remembers the last
draw point. A double tap clears the buffer and the path. A frame with a
missing landmark never reaches the processor; it resets the processor once
more than 2 seconds have passed since the last observation time.

The model is a class `CameraView.CameraViewController` with the controller's
mutable fields (`evidenceBuffer`, `lastDrawPoint`, `isFirstSegment`,
`lastObservationTimestamp`). The path is a separate `BezierPath` object that
is updated in place. `UpdatePath` and `HandleGestureStateChange` are proved
against the specification functions `Strokes.Update` (one `updatePath` call)
and `Strokes.Continue` (a run of them, which is what the flush loop
performs); the other methods state their effect directly. The lemmas about
those functions state what a stroke does.

In this version of the controller, the `addLine` and `addQuadCurve` calls are
commented out (HandPose/CameraViewController.swift lines 181, 196 and 200).
So a path only ever receives move-to elements, and `PathElement` has only
that one case. The midpoint computed at line 193 is then unused, and the
model does not compute it.

Files: `optional.dfy`, `geometry.dfy` (points, midpoint), `hand_pose.dfy`
(landmarks, gesture states, colours), `strokes.dfy` (stroke specification and
lemmas), `camera_view_controller.dfy` (the classes).

## Model

| member | source | states |
|---|---|---|
| `Geometry.MidPoint` | HandPose/CameraViewController.swift:176 | the draw point lies halfway between thumb tip and index tip, on both axes |
| `HandPose.PairOf` | HandPose/CameraViewController.swift:140 | the landmark tuple handed to the processor lists the 21 converted points in the parameter order |
| `HandPose.TipsColor` | HandPose/CameraViewController.swift:146-169 | orange exactly for the two "possible" states, green exactly for `pinched`, red exactly for `apart` and `unknown` |
| `HandPose.AllPresent` | HandPose/CameraViewController.swift:106 | no contract: defines a complete frame, every one of the 21 optional landmarks present, as the `guard let` requires |
| `Strokes.DrawPoint` | HandPose/CameraViewController.swift:175-176 | no contract: the draw point of a landmark tuple, the `MidPoint` of its thumb tip and index tip |
| `Strokes.Update` | HandPose/CameraViewController.swift:173-208 | a final update clears `lastDrawPoint` and changes nothing else; a non-final one sets `lastDrawPoint` to the draw point, adds a move-to at it exactly when no stroke was in progress, and leaves `isFirstSegment` true exactly when it started the stroke |
| `Strokes.Continue` | HandPose/CameraViewController.swift:155-157 | no contract: non-final `updatePath` applied to the pairs in order; see `ContinueOutcome` |
| `Strokes.ContinueOutcome` | HandPose/CameraViewController.swift:153-161 | a run of non-final updates adds at most one move-to: exactly one, at the first pair's draw point, when no stroke was in progress. It ends at the last pair's draw point, and `isFirstSegment` stays true only for a one-update run that started the stroke |
| `Strokes.ContinueSplit` | HandPose/CameraViewController.swift:147-161 | flushing buffered pairs later draws the same as drawing them in two parts, so holding evidence back does not change the stroke |
| `Strokes.RestartAfterEnd` | HandPose/CameraViewController.swift:178-189 | after a stroke ends, the next pinched run adds exactly one move-to, at its first draw point |
| `Strokes.ClearedMidStrokeStaysEmpty` | HandPose/CameraViewController.swift:210-217 | a path cleared while a stroke is in progress stays empty for as long as that stroke continues |
| `CameraView.BezierPath.constructor` | HandPose/CameraViewController.swift:21 | a new path has no elements |
| `CameraView.BezierPath.Move` | HandPose/CameraViewController.swift:188 | `move(to:)` appends one move-to element |
| `CameraView.BezierPath.RemoveAllPoints` | HandPose/CameraViewController.swift:215 | `removeAllPoints()` leaves no elements |
| `CameraView.CameraViewController.constructor` | HandPose/CameraViewController.swift:20-25 | empty path and buffer, no last draw point, `isFirstSegment` true, observation time set to creation time |
| `CameraView.CameraViewController.ProcessPoints` | HandPose/CameraViewController.swift:104-140 | a complete frame reaches the processor as its converted points; a frame missing any point does not, and gives a reset only when more than 2 seconds passed since `lastObservationTimestamp` |
| `CameraView.CameraViewController.ProcessPointsRefreshing` | HandPose/CameraViewController.swift:104-113 | as `ProcessPoints`, and a complete frame also refreshes the observation time |
| `CameraView.CameraViewController.HandleGestureStateChange` | HandPose/CameraViewController.swift:143-171 | "possible" states append the pair to the buffer and leave the stroke alone; `pinched` empties the buffer, runs `Continue` over buffer then pair, ends at the pair's draw point and adds a move-to (at the first buffered pair) only when no stroke was in progress; `apart`/`unknown` empty the buffer, clear `lastDrawPoint` and leave path and flag unchanged; the colour is `TipsColor(state)` |
| `CameraView.CameraViewController.UpdatePath` | HandPose/CameraViewController.swift:173-208 | the new stroke state is `Update` of the old one; the buffer is untouched |
| `CameraView.CameraViewController.HandleGesture` | HandPose/CameraViewController.swift:210-217 | only an ended tap acts; it empties buffer and path and leaves `lastDrawPoint` and `isFirstSegment` as they were |
| `CameraView.StaleTimestampResets` | HandPose/CameraViewController.swift:106-112 | as written, a frame missing a landmark 0.1 s after a complete one, 3 s after creation, resets the processor |
| `CameraView.RefreshedTimestampKeeps` | HandPose/CameraViewController.swift:107-110 | with the observation time refreshed, the same two frames do not reset the processor |

## Left out

- Capture-session setup, view lifecycle and session start/stop (lines 29-102) are AVFoundation and UIKit plumbing.
- `captureOutput` (lines 221-321) is left out. It runs the Vision request, applies the 0.3 confidence threshold, flips y coordinates and dispatches across queues. The model receives its 21 optional points as the input of `ProcessPoints`.
- The preview layer's coordinate conversion is a foreign call, so it is the function parameter `convert`.
- `HandGestureProcessor` is not part of this model. The gesture state and `lastProcessedPointsPair` are parameters of `HandleGestureStateChange`. `processPoints` returns the call it makes (`ProcessPointsPair`, `Reset` or none) instead of performing it.
- Rendering is left out: `showPoints`, the overlay layer's configuration and the assignments to `drawOverlay.path`.
- `Date()` is the parameter `now`, in seconds.
- `Geometry.MidPoint`: the `CGPoint.midPoint` extension is not part of this model. It is taken to be the arithmetic midpoint on reals, with no floating-point rounding.

## Findings

| source | as written | input that shows it | evidently intended | confidence | as-written member | corrected member |
|---|---|---|---|---|---|---|
| HandPose/CameraViewController.swift:25,107-110 | `lastObservationTimestamp` is set when the controller is created and never reassigned. So the 2-second gap is measured from creation, not from the last frame that had all 21 landmarks. | controller created at 0 s, complete frame at 2.9 s, frame without thumb tip at 3.0 s: the processor is reset | reset only after more than 2 seconds without a complete frame (the comment at line 107), refreshing the timestamp on every complete frame | medium, not executed | `CameraView.StaleTimestampResets` | `CameraView.CameraViewController.ProcessPointsRefreshing` |
