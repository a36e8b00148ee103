/**
 The data handed to the gesture classifier by the hand detector: one frame's
 landmark lists, each list describing one detected hand as a sequence of
 points in normalised camera coordinates (smaller y is higher on screen).
 */
module Landmarks {

  /** One landmark; the detector's z coordinate is never consulted and is not kept. */
  datatype Point = Point(x: real, y: real)

  /** The landmarks of one detected hand, addressed by the detector's anatomical numbering. */
  type Hand = seq<Point>

  /** The detector reports 21 landmarks per hand; the classifier reads indices up to 20. */
  const LandmarksPerHand: nat := 21

  /** Fingertip landmarks of the index, middle, ring and little fingers. */
  const FingerTips: seq<nat> := [8, 12, 16, 20]

  /** The joint each fingertip is compared with, paired with FingerTips by position. */
  const FingerBases: seq<nat> := [6, 10, 14, 18]

  /** The number of non-thumb fingers. */
  const Fingers: nat := 4

  /** Thumb tip and thumb base landmarks. */
  const ThumbTip: nat := 4
  const ThumbBase: nat := 2

  /** A hand the classifier can read without going past its last landmark. */
  predicate WellFormed(h: Hand) {
    |h| >= LandmarksPerHand
  }

  function Abs(r: real): (a: real)
    ensures a >= 0.0
    ensures a == r || a == -r
  {
    if r < 0.0 then -r else r
  }
}
