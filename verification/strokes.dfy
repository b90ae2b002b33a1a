/**
 * The stroke part of the controller's state and the specification of one
 * `updatePath` call and of a run of them.
 */
module Strokes {
  import opened Optional
  import opened Geometry
  import opened HandPose

  /**
   * An element of the drawing path. Only move-to elements are ever added:
   * the line and curve elements of a stroke are disabled in this version of
   * the controller.
   */
  datatype PathElement = MoveTo(to: Point)

  /** The state `updatePath` reads and writes. */
  datatype Stroke = Stroke(lastDrawPoint: Option<Point>, isFirstSegment: bool, path: seq<PathElement>)

  /** The point a landmark tuple draws at: halfway between thumb tip and index tip. */
  function DrawPoint(pair: PointsPair): Point
  {
    MidPoint(pair.thumbTip, pair.indexTip)
  }

  /**
   * One `updatePath(with: pair, isLastPointsPair: isLast)`. A final update ends
   * the stroke and changes nothing else; a non-final one starts a stroke with
   * a move-to when none is in progress, and then remembers its draw point.
   * `isFirstSegment` afterwards tells whether this update started the stroke.
   */
  function Update(s: Stroke, pair: PointsPair, isLast: bool): (r: Stroke)
    ensures isLast ==> r == s.(lastDrawPoint := None)
    ensures !isLast ==> r.lastDrawPoint == Some(DrawPoint(pair))
    ensures !isLast ==> (r.isFirstSegment <==> s.lastDrawPoint.None?)
    ensures !isLast ==> r.path == s.path + if s.lastDrawPoint.None? then [MoveTo(DrawPoint(pair))] else []
  {
    var drawPoint := DrawPoint(pair);
    if isLast then
      Stroke(None, s.isFirstSegment, s.path)
    else if s.lastDrawPoint.None? then
      Stroke(Some(drawPoint), true, s.path + [MoveTo(drawPoint)])
    else if s.isFirstSegment then
      Stroke(Some(drawPoint), false, s.path)
    else
      Stroke(Some(drawPoint), s.isFirstSegment, s.path)
  }

  /** Non-final updates applied to `pairs`, first to last. */
  function Continue(s: Stroke, pairs: seq<PointsPair>): Stroke
    decreases |pairs|
  {
    if pairs == [] then s
    else Update(Continue(s, pairs[..|pairs| - 1]), pairs[|pairs| - 1], false)
  }

  /**
   * What a run of non-final updates does: the path gains one move-to, at the
   * first pair's draw point, exactly when no stroke was in progress, and
   * nothing otherwise; the stroke ends at the last pair's draw point; and
   * `isFirstSegment` stays true only when the run started the stroke with
   * its single update.
   */
  lemma {:induction false} ContinueOutcome(s: Stroke, pairs: seq<PointsPair>)
    ensures pairs == [] ==> Continue(s, pairs) == s
    ensures Continue(s, pairs).path ==
              s.path + if s.lastDrawPoint.None? && pairs != [] then [MoveTo(DrawPoint(pairs[0]))] else []
    ensures pairs != [] ==> Continue(s, pairs).lastDrawPoint == Some(DrawPoint(pairs[|pairs| - 1]))
    ensures pairs != [] ==> (Continue(s, pairs).isFirstSegment <==> s.lastDrawPoint.None? && |pairs| == 1)
    decreases |pairs|
  {
    if pairs != [] {
      var init := pairs[..|pairs| - 1];
      ContinueOutcome(s, init);
      if init != [] {
        assert init[0] == pairs[0];
      }
    }
  }

  /**
   * Drawing a run in two parts draws the same as drawing it at once: pairs
   * held back in the evidence buffer and flushed later leave the stroke
   * (last draw point, flag and path) exactly as if each had been drawn when
   * it arrived.
   */
  lemma {:induction false} ContinueSplit(s: Stroke, a: seq<PointsPair>, b: seq<PointsPair>)
    ensures Continue(s, a + b) == Continue(Continue(s, a), b)
    decreases |b|
  {
    if b == [] {
      assert a + b == a;
    } else {
      var b' := b[..|b| - 1];
      ContinueSplit(s, a, b');
      assert (a + b)[..|a + b| - 1] == a + b';
      assert (a + b)[|a + b| - 1] == b[|b| - 1];
    }
  }

  /**
   * After a final update, the next run of non-final updates starts a new
   * stroke: exactly one move-to, at the first pair's draw point.
   */
  lemma {:induction false} RestartAfterEnd(s: Stroke, last: PointsPair, pairs: seq<PointsPair>)
    requires pairs != []
    ensures Continue(Update(s, last, true), pairs).path == s.path + [MoveTo(DrawPoint(pairs[0]))]
  {
    ContinueOutcome(Update(s, last, true), pairs);
  }

  /**
   * A path emptied while a stroke is in progress stays empty for as long as
   * that stroke continues: only the start of a stroke adds to the path.
   */
  lemma {:induction false} ClearedMidStrokeStaysEmpty(s: Stroke, pairs: seq<PointsPair>)
    requires s.lastDrawPoint.Some? && s.path == []
    ensures Continue(s, pairs).path == []
  {
    ContinueOutcome(s, pairs);
  }
}
