/**
 The gesture-to-brightness rule: count the raised fingers and the thumb, then
 map the digit count to a brightness percentage, a closed fist giving full
 brightness and no hand giving none.
 */
module Classifier {
  import opened Landmarks

  /** Finger `i` (0 = index .. 3 = little) is raised when its tip is strictly above its base joint. */
  predicate FingerExtended(h: Hand, i: nat)
    requires WellFormed(h) && i < Fingers
  {
    h[FingerTips[i]].y < h[FingerBases[i]].y
  }

  /** The fingers among `i .. 3` that are raised: the reference definition of the count. */
  ghost function ExtendedFrom(h: Hand, i: nat): set<nat>
    requires WellFormed(h)
  {
    set j | i <= j < Fingers && FingerExtended(h, j)
  }

  /** All raised fingers of a hand. */
  ghost function ExtendedFingers(h: Hand): set<nat>
    requires WellFormed(h)
  {
    ExtendedFrom(h, 0)
  }

  /**
   The number of raised fingers among `i .. 3`, one finger at a time in the
   order of the tip list.
   */
  function CountFrom(h: Hand, i: nat): (n: nat)
    requires WellFormed(h) && i <= Fingers
    ensures n <= Fingers - i
    ensures n == 0 <==> forall j :: i <= j < Fingers ==> !FingerExtended(h, j)
    ensures n == Fingers - i <==> forall j :: i <= j < Fingers ==> FingerExtended(h, j)
    decreases Fingers - i
  {
    if i == Fingers then 0
    else (if FingerExtended(h, i) then 1 else 0) + CountFrom(h, i + 1)
  }

  /** The number of raised non-thumb fingers. */
  function FingerCount(h: Hand): (n: nat)
    requires WellFormed(h)
    ensures n <= Fingers
    ensures n == 0 <==> forall j :: 0 <= j < Fingers ==> !FingerExtended(h, j)
    ensures n == Fingers <==> forall j :: 0 <= j < Fingers ==> FingerExtended(h, j)
  {
    CountFrom(h, 0)
  }

  /** The per-finger count agrees with the number of raised fingers among `i .. 3`. */
  lemma {:induction false} CountFromIsCardinality(h: Hand, i: nat)
    requires WellFormed(h) && i <= Fingers
    ensures CountFrom(h, i) == |ExtendedFrom(h, i)|
    decreases Fingers - i
  {
    if i == Fingers {
      assert ExtendedFrom(h, i) == {};
    } else {
      CountFromIsCardinality(h, i + 1);
      if FingerExtended(h, i) {
        assert ExtendedFrom(h, i) == {i} + ExtendedFrom(h, i + 1);
      } else {
        assert ExtendedFrom(h, i) == ExtendedFrom(h, i + 1);
      }
    }
  }

  /** The finger count is the size of the set of raised fingers. */
  lemma FingerCountIsCardinality(h: Hand)
    requires WellFormed(h)
    ensures FingerCount(h) == |ExtendedFingers(h)|
    ensures ExtendedFingers(h) <= {0, 1, 2, 3}
  {
    CountFromIsCardinality(h, 0);
  }

  /** The thumb counts as out when its tip is more than 0.1 away horizontally from its base. */
  const ThumbThreshold: real := 0.1

  predicate ThumbOut(h: Hand)
    requires WellFormed(h)
  {
    Abs(h[ThumbTip].x - h[ThumbBase].x) > ThumbThreshold
  }

  /** Raised fingers plus the thumb. */
  function DigitCount(h: Hand): (n: nat)
    requires WellFormed(h)
    ensures n <= Fingers + 1
    ensures n == 0 <==> FingerCount(h) == 0 && !ThumbOut(h)
    ensures n == Fingers + 1 <==> FingerCount(h) == Fingers && ThumbOut(h)
  {
    FingerCount(h) + (if ThumbOut(h) then 1 else 0)
  }

  /** A brightness the classifier can produce: 0 to 100 in steps of 20. */
  predicate IsLevel(b: int) {
    0 <= b <= 100 && b % 20 == 0
  }

  /** Brightness for a detected hand with `count` digits out: a fist gives 100, otherwise 20 per digit. */
  function LevelOf(count: nat): (b: nat)
    requires count <= Fingers + 1
    ensures IsLevel(b) && b >= 20
    ensures b == 100 <==> count == 0 || count == Fingers + 1
  {
    if count == 0 then 100 else count * 20
  }

  /**
   Two digit counts give the same brightness only when they are equal or are
   the fist and the open hand, so every brightness short of 100 names its count.
   */
  lemma LevelOfDeterminesCount(a: nat, b: nat)
    requires a <= Fingers + 1 && b <= Fingers + 1
    ensures LevelOf(a) == LevelOf(b) <==> a == b || {a, b} == {0, Fingers + 1}
  {
  }

  /** Outside the fist case, more digits never give less light. */
  lemma LevelOfMonotoneAfterFist(a: nat, b: nat)
    requires 1 <= a <= b <= Fingers + 1
    ensures LevelOf(a) <= LevelOf(b)
    ensures a < b ==> LevelOf(a) < LevelOf(b)
  {
  }

  /** What the detector's callback may be handed: only the first hand is read, and it must hold 21 landmarks. */
  predicate Readable(hands: seq<Hand>) {
    |hands| > 0 ==> WellFormed(hands[0])
  }

  /**
   The brightness for one frame's hand lists: 0 without a hand, otherwise the
   level of the first hand's digit count.
   */
  function Classify(hands: seq<Hand>): (b: nat)
    requires Readable(hands)
    ensures IsLevel(b)
    ensures b == 0 <==> |hands| == 0
    ensures |hands| > 0 ==> (b == 100 <==> DigitCount(hands[0]) in {0, Fingers + 1})
  {
    if |hands| > 0 then LevelOf(DigitCount(hands[0])) else 0
  }

  /** For a detected hand, each brightness below 100 is produced by exactly one digit count. */
  lemma ClassifyNamesCount(hands: seq<Hand>, k: nat)
    requires Readable(hands) && |hands| > 0
    requires 1 <= k <= Fingers
    ensures Classify(hands) == 20 * k <==> DigitCount(hands[0]) == k
  {
  }

  /** Hands after the first are ignored. */
  lemma ClassifyReadsFirstHandOnly(hands1: seq<Hand>, hands2: seq<Hand>)
    requires Readable(hands1) && Readable(hands2)
    requires |hands1| > 0 && |hands2| > 0 && hands1[0] == hands2[0]
    ensures Classify(hands1) == Classify(hands2)
  {
  }

  /** A closed fist with the thumb tucked in gives full brightness. */
  lemma FistIsFull(h: Hand)
    requires WellFormed(h)
    requires forall j :: 0 <= j < Fingers ==> h[FingerTips[j]].y >= h[FingerBases[j]].y
    requires Abs(h[ThumbTip].x - h[ThumbBase].x) <= ThumbThreshold
    ensures DigitCount(h) == 0
    ensures Classify([h]) == 100
  {
  }

  /**
   All five digits out also give 100, through the twenty-per-digit branch:
   the digit count is five, not zero.
   */
  lemma OpenHandIsFull(h: Hand)
    requires WellFormed(h)
    requires forall j :: 0 <= j < Fingers ==> h[FingerTips[j]].y < h[FingerBases[j]].y
    requires Abs(h[ThumbTip].x - h[ThumbBase].x) > ThumbThreshold
    ensures DigitCount(h) == 5
    ensures Classify([h]) == 100
  {
  }

  /** Four raised fingers with the thumb tucked in give 80. */
  lemma FourFingersGiveEighty(h: Hand)
    requires WellFormed(h)
    requires forall j :: 0 <= j < Fingers ==> h[FingerTips[j]].y < h[FingerBases[j]].y
    requires Abs(h[ThumbTip].x - h[ThumbBase].x) <= ThumbThreshold
    ensures Classify([h]) == 80
  {
  }

  /**
   The comparisons are strict: a tip level with its base is not raised, and a
   thumb exactly 0.1 away on either side is not out, so such a hand reads as a fist.
   */
  lemma BoundaryHandIsFist(h: Hand)
    requires WellFormed(h)
    requires forall j :: 0 <= j < Fingers ==> h[FingerTips[j]].y == h[FingerBases[j]].y
    requires Abs(h[ThumbTip].x - h[ThumbBase].x) == ThumbThreshold
    ensures !ThumbOut(h)
    ensures forall j :: 0 <= j < Fingers ==> !FingerExtended(h, j)
    ensures Classify([h]) == 100
  {
  }

  /**
   With `k` raised fingers and the thumb out or in, the brightness is 20 per
   digit, except that no digit at all gives 100.
   */
  lemma ClassifyByDigits(h: Hand, k: nat)
    requires WellFormed(h)
    requires |ExtendedFingers(h)| == k
    ensures ThumbOut(h) ==> Classify([h]) == 20 * (k + 1)
    ensures !ThumbOut(h) && k > 0 ==> Classify([h]) == 20 * k
    ensures !ThumbOut(h) && k == 0 ==> Classify([h]) == 100
  {
    FingerCountIsCardinality(h);
  }
}
