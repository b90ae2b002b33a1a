/**
 * The drawing state machine of the camera view controller: it buffers the
 * landmarks of undecided frames, turns pinched frames into drawing-path
 * updates, ends strokes when the hand opens, clears everything on a double
 * tap, and decides what a frame with missing landmarks does to the gesture
 * processor.
 */
module CameraView {
  import opened Optional
  import opened Geometry
  import opened HandPose
  import opened Strokes

  /** The part of `UIBezierPath` the controller uses: a list of elements. */
  class BezierPath {
    var elements: seq<PathElement>

    constructor ()
      ensures elements == []
    {
      elements := [];
    }

    /** `move(to:)`: starts a new subpath at `to`. */
    method Move(to: Point)
      modifies this
      ensures elements == old(elements) + [MoveTo(to)]
    {
      elements := elements + [MoveTo(to)];
    }

    /** `removeAllPoints()`. */
    method RemoveAllPoints()
      modifies this
      ensures elements == []
    {
      elements := [];
    }
  }

  /** `UIGestureRecognizer.State` (`.recognized` is `.ended`). */
  datatype RecognizerState = Possible | Began | Changed | Ended | Cancelled | Failed

  /** What a frame makes the controller do to the gesture processor. */
  datatype ProcessorCall = ProcessPointsPair(pair: PointsPair) | Reset | NoCall

  /** Seconds without landmarks after which the gesture processor is reset. */
  const ResetGap: real := 2.0

  class CameraViewController {
    const drawPath: BezierPath
    var evidenceBuffer: seq<PointsPair>
    var lastDrawPoint: Option<Point>
    var isFirstSegment: bool
    var lastObservationTimestamp: real

    /** The stroke state `updatePath` works on. */
    function CurrentStroke(): Stroke
      reads this, drawPath
    {
      Stroke(lastDrawPoint, isFirstSegment, drawPath.elements)
    }

    /** A controller created at time `now`. */
    constructor (now: real)
      ensures fresh(drawPath) && drawPath.elements == []
      ensures evidenceBuffer == [] && lastDrawPoint == None && isFirstSegment
      ensures lastObservationTimestamp == now
    {
      drawPath := new BezierPath();
      evidenceBuffer := [];
      lastDrawPoint := None;
      isFirstSegment := true;
      lastObservationTimestamp := now;
    }

    /**
     * `processPoints` as written: a frame whose 21 landmarks are all present
     * is converted with `convert` (the preview layer's coordinate conversion)
     * and handed to the processor; a frame missing any landmark reaches the
     * processor only as a reset, and only more than `ResetGap` seconds after
     * `lastObservationTimestamp`, which nothing ever updates.
     */
    method ProcessPoints(joints: seq<Option<Point>>, now: real, convert: Point -> Point)
      returns (call: ProcessorCall)
      requires |joints| == JointCount
      ensures AllPresent(joints) ==>
                call.ProcessPointsPair? &&
                forall i :: 0 <= i < JointCount ==> call.pair.Points()[i] == convert(joints[i].value)
      ensures !AllPresent(joints) ==>
                call == if now - lastObservationTimestamp > ResetGap then Reset else NoCall
    {
      if !AllPresent(joints) {
        if now - lastObservationTimestamp > ResetGap {
          call := Reset;
        } else {
          call := NoCall;
        }
        return;
      }
      var converted := seq(JointCount, i requires 0 <= i < JointCount => convert(joints[i].value));
      call := ProcessPointsPair(PairOf(converted));
    }

    /**
     * `processPoints` with the observation time refreshed on every complete
     * frame, so that the reset happens only after `ResetGap` seconds without
     * one.
     */
    method ProcessPointsRefreshing(joints: seq<Option<Point>>, now: real, convert: Point -> Point)
      returns (call: ProcessorCall)
      requires |joints| == JointCount
      modifies this`lastObservationTimestamp
      ensures AllPresent(joints) ==>
                call.ProcessPointsPair? && lastObservationTimestamp == now &&
                forall i :: 0 <= i < JointCount ==> call.pair.Points()[i] == convert(joints[i].value)
      ensures !AllPresent(joints) ==>
                lastObservationTimestamp == old(lastObservationTimestamp) &&
                call == if now - lastObservationTimestamp > ResetGap then Reset else NoCall
    {
      call := ProcessPoints(joints, now, convert);
      if call.ProcessPointsPair? {
        lastObservationTimestamp := now;
      }
    }

    /**
     * `handleGestureStateChange`: an undecided state buffers the landmarks;
     * `pinched` draws every buffered pair and then the current one, and
     * empties the buffer; `apart` and `unknown` discard the buffer and end
     * the stroke. Returns the highlight colour.
     */
    method HandleGestureStateChange(state: GestureState, pointsPair: PointsPair)
      returns (tipsColor: Color)
      modifies this`evidenceBuffer, this`lastDrawPoint, this`isFirstSegment, drawPath
      ensures tipsColor == TipsColor(state)
      ensures state.PossiblePinch? || state.PossibleApart? ==>
                evidenceBuffer == old(evidenceBuffer) + [pointsPair] &&
                CurrentStroke() == old(CurrentStroke())
      ensures state.Pinched? ==>
                evidenceBuffer == [] &&
                CurrentStroke() == Continue(old(CurrentStroke()), old(evidenceBuffer) + [pointsPair])
      ensures state.Pinched? ==>
                lastDrawPoint == Some(DrawPoint(pointsPair)) &&
                drawPath.elements == old(drawPath.elements) +
                  if old(lastDrawPoint).None?
                  then [MoveTo(DrawPoint((old(evidenceBuffer) + [pointsPair])[0]))]
                  else []
      ensures state.Apart? || state.Unknown? ==>
                evidenceBuffer == [] && lastDrawPoint == None &&
                isFirstSegment == old(isFirstSegment) && drawPath.elements == old(drawPath.elements)
    {
      match state
      case PossiblePinch | PossibleApart =>
        evidenceBuffer := evidenceBuffer + [pointsPair];
        tipsColor := Orange;
      case Pinched =>
        ghost var start := CurrentStroke();
        for i := 0 to |evidenceBuffer|
          invariant evidenceBuffer == old(evidenceBuffer)
          invariant CurrentStroke() == Continue(start, evidenceBuffer[..i])
        {
          UpdatePath(evidenceBuffer[i], false);
          assert evidenceBuffer[..i + 1][..i] == evidenceBuffer[..i];
        }
        assert evidenceBuffer[..|evidenceBuffer|] == evidenceBuffer;
        ghost var buffered := evidenceBuffer;
        evidenceBuffer := [];
        UpdatePath(pointsPair, false);
        assert (buffered + [pointsPair])[..|buffered|] == buffered;
        ContinueOutcome(start, buffered + [pointsPair]);
        tipsColor := Green;
      case Apart | Unknown =>
        evidenceBuffer := [];
        UpdatePath(pointsPair, true);
        tipsColor := Red;
    }

    /**
     * `updatePath`: one step of the stroke, specified by `Strokes.Update`.
     * The evidence buffer is left alone.
     */
    method UpdatePath(points: PointsPair, isLastPointsPair: bool)
      modifies this`lastDrawPoint, this`isFirstSegment, drawPath
      ensures CurrentStroke() == Update(old(CurrentStroke()), points, isLastPointsPair)
    {
      var drawPoint := MidPoint(points.thumbTip, points.indexTip);
      if isLastPointsPair {
        lastDrawPoint := None;
      } else {
        if lastDrawPoint.None? {
          drawPath.Move(drawPoint);
          isFirstSegment := true;
        } else if isFirstSegment {
          isFirstSegment := false;
        }
        lastDrawPoint := Some(drawPoint);
      }
    }

    /**
     * `handleGesture`: the double tap. Only a recognised (ended) tap acts: it
     * empties the evidence buffer and the path; the stroke in progress, if
     * any, is not ended.
     */
    method HandleGesture(gesture: RecognizerState)
      modifies this`evidenceBuffer, drawPath
      ensures gesture != Ended ==>
                evidenceBuffer == old(evidenceBuffer) && drawPath.elements == old(drawPath.elements)
      ensures gesture == Ended ==> evidenceBuffer == [] && drawPath.elements == []
      ensures lastDrawPoint == old(lastDrawPoint) && isFirstSegment == old(isFirstSegment)
    {
      if gesture != Ended {
        return;
      }
      evidenceBuffer := [];
      drawPath.RemoveAllPoints();
    }
  }

  /** A frame in which every landmark was detected, at the origin. */
  function CompleteFrame(): (joints: seq<Option<Point>>)
    ensures |joints| == JointCount && AllPresent(joints)
  {
    seq(JointCount, _ => Some(Point(0.0, 0.0)))
  }

  /** A frame in which the thumb tip was not detected. */
  function ThumblessFrame(): (joints: seq<Option<Point>>)
    ensures |joints| == JointCount && !AllPresent(joints)
  {
    var joints := [None] + CompleteFrame()[1..];
    assert !joints[0].Some?;
    joints
  }

  /**
   * As written, a hand seen a tenth of a second ago does not prevent the
   * reset: three seconds after the controller was created, one frame with a
   * missing landmark resets the gesture processor.
   */
  method StaleTimestampResets() returns (seen: ProcessorCall, call: ProcessorCall)
    ensures seen.ProcessPointsPair? && call == Reset
  {
    var controller := new CameraViewController(0.0);
    seen := controller.ProcessPoints(CompleteFrame(), 2.9, p => p);
    call := controller.ProcessPoints(ThumblessFrame(), 3.0, p => p);
  }

  /** With the timestamp refreshed, the same two frames leave the processor alone. */
  method RefreshedTimestampKeeps() returns (seen: ProcessorCall, call: ProcessorCall)
    ensures seen.ProcessPointsPair? && call == NoCall
  {
    var controller := new CameraViewController(0.0);
    seen := controller.ProcessPointsRefreshing(CompleteFrame(), 2.9, p => p);
    call := controller.ProcessPointsRefreshing(ThumblessFrame(), 3.0, p => p);
  }
}
