/**
 * What the view controller exchanges with the hand gesture processor: the
 * 21 hand landmarks of one frame, the processor's gesture states, and the
 * colour the landmarks are highlighted with.
 */
module HandPose {
  import opened Optional
  import opened Geometry

  /** Number of hand landmarks the controller forwards per frame. */
  const JointCount := 21

  /**
   * `HandGestureProcessor.PointsPair`: the 21 landmarks, in the order the
   * controller lists them (tips, thumb joints, then finger joints, wrist).
   */
  datatype PointsPair = PointsPair(
    thumbTip: Point, indexTip: Point, middleTip: Point, ringTip: Point, littleTip: Point,
    thumbIP: Point, thumbMP: Point, thumbCMC: Point,
    indexDIP: Point, indexPIP: Point, indexMCP: Point,
    middleDIP: Point, middlePIP: Point, middleMCP: Point,
    ringDIP: Point, ringPIP: Point, ringMCP: Point,
    littleDIP: Point, littlePIP: Point, littleMCP: Point,
    wrist: Point)
  {
    /** The landmarks as a sequence, in declaration order. */
    function Points(): seq<Point>
    {
      [thumbTip, indexTip, middleTip, ringTip, littleTip,
       thumbIP, thumbMP, thumbCMC,
       indexDIP, indexPIP, indexMCP,
       middleDIP, middlePIP, middleMCP,
       ringDIP, ringPIP, ringMCP,
       littleDIP, littlePIP, littleMCP,
       wrist]
    }
  }

  /** Builds the landmark tuple from 21 points given in declaration order. */
  function PairOf(ps: seq<Point>): (pair: PointsPair)
    requires |ps| == JointCount
    ensures pair.Points() == ps
  {
    PointsPair(ps[0], ps[1], ps[2], ps[3], ps[4],
               ps[5], ps[6], ps[7],
               ps[8], ps[9], ps[10],
               ps[11], ps[12], ps[13],
               ps[14], ps[15], ps[16],
               ps[17], ps[18], ps[19],
               ps[20])
  }

  /** True when every landmark of a frame was detected. */
  predicate AllPresent(joints: seq<Option<Point>>)
  {
    forall i :: 0 <= i < |joints| ==> joints[i].Some?
  }

  /** `HandGestureProcessor.State`: the five states the controller switches on. */
  datatype GestureState = PossiblePinch | PossibleApart | Pinched | Apart | Unknown

  /** The highlight colours used for the landmarks. */
  datatype Color = Orange | Green | Red

  /**
   * The highlight colour for a gesture state: orange while the processor is
   * still undecided, green when drawing, red when not drawing.
   */
  function TipsColor(state: GestureState): (c: Color)
    ensures c == Orange <==> state.PossiblePinch? || state.PossibleApart?
    ensures c == Green <==> state.Pinched?
    ensures c == Red <==> state.Apart? || state.Unknown?
  {
    match state
    case PossiblePinch | PossibleApart => Orange
    case Pinched => Green
    case Apart | Unknown => Red
  }
}
