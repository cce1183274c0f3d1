/**
 * The in-progress stroke: the pointer samples collected between pointer-down
 * and pointer-up, and the straight segments drawn between them.
 */
module Strokes {

  /** A pointer sample, in logical canvas coordinates. */
  datatype Point = Point(x: int, y: int)

  /** One `moveTo`/`lineTo` line drawn on the canvas. */
  datatype Segment = Segment(from: Point, to: Point)

  /** The segments a stroke is rendered as: one per pair of consecutive samples. */
  function Segments(stroke: seq<Point>): (r: seq<Segment>)
    ensures |r| == if |stroke| == 0 then 0 else |stroke| - 1
    ensures forall i :: 0 <= i < |r| ==> r[i] == Segment(stroke[i], stroke[i + 1])
  {
    if |stroke| < 2 then []
    else Segments(stroke[..|stroke| - 1]) + [Segment(stroke[|stroke| - 2], stroke[|stroke| - 1])]
  }

  /** The segments connect: each one ends where the next one starts. */
  lemma SegmentsConnected(stroke: seq<Point>, i: nat)
    requires i + 1 < |Segments(stroke)|
    ensures Segments(stroke)[i].to == Segments(stroke)[i + 1].from
  {
  }

  /** Adding a sample adds exactly the segment from the previous last sample to it. */
  lemma SegmentsExtend(stroke: seq<Point>, p: Point)
    requires |stroke| > 0
    ensures Segments(stroke + [p]) == Segments(stroke) + [Segment(stroke[|stroke| - 1], p)]
  {
    assert (stroke + [p])[..|stroke|] == stroke;
  }
}
