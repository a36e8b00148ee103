/**
 The top-level view: the brightness cell the detector's callback overwrites on
 every frame, and the two things derived from it, the status line and the
 bulb's on/off state.
 */
module App {
  import opened Landmarks
  import opened Classifier

  /** An optional value, used for a field of the detector's result that may be absent. */
  datatype Option<+T> = None | Some(value: T)

  /** One detector result; `multiHandLandmarks` may be missing altogether. */
  datatype Results = Results(multiHandLandmarks: Option<seq<Hand>>)

  /** The result reports at least one hand: the field is present and its list is non-empty. */
  predicate HandDetected(r: Results) {
    r.multiHandLandmarks.Some? && |r.multiHandLandmarks.value| > 0
  }

  /** A result the callback can process without reading past a hand's landmarks. */
  predicate ReadableResults(r: Results) {
    r.multiHandLandmarks.Some? ==> Readable(r.multiHandLandmarks.value)
  }

  /** The hand lists of a result, a missing field reading as no hands. */
  function HandsOf(r: Results): (hands: seq<Hand>)
    requires ReadableResults(r)
    ensures Readable(hands)
    ensures |hands| > 0 <==> HandDetected(r)
    ensures r.multiHandLandmarks.Some? ==> hands == r.multiHandLandmarks.value
    ensures r.multiHandLandmarks.None? ==> hands == []
  {
    match r.multiHandLandmarks
    case Some(hs) => hs
    case None => []
  }

  /** The brightness before the first frame. */
  const InitialBrightness: nat := 0

  /**
   The callback: the new brightness replaces `previous` outright, so nothing
   of the earlier frames survives.
   */
  function OnResults(previous: nat, r: Results): (next: nat)
    requires ReadableResults(r)
    ensures IsLevel(next)
    ensures next == 0 <==> !HandDetected(r)
    ensures HandDetected(r) ==> next == LevelOf(DigitCount(r.multiHandLandmarks.value[0]))
  {
    Classify(HandsOf(r))
  }

  /** Without a hand the brightness drops to 0, whatever it was. */
  lemma NoHandClearsBrightness(previous: nat, r: Results)
    requires ReadableResults(r) && !HandDetected(r)
    ensures OnResults(previous, r) == 0
  {
  }

  /** The previous brightness has no influence on the next. */
  lemma OnResultsIgnoresPrevious(p1: nat, p2: nat, r: Results)
    requires ReadableResults(r)
    ensures OnResults(p1, r) == OnResults(p2, r)
  {
  }

  /** All frames of a run are readable. */
  predicate AllReadable(frames: seq<Results>) {
    forall i :: 0 <= i < |frames| ==> ReadableResults(frames[i])
  }

  /** The brightness after the callback has seen `frames` in order, starting from the initial value. */
  function Run(frames: seq<Results>): (b: nat)
    requires AllReadable(frames)
    ensures IsLevel(b)
    decreases |frames|
  {
    if |frames| == 0 then InitialBrightness
    else OnResults(Run(frames[..|frames| - 1]), frames[|frames| - 1])
  }

  /** The brightness is always the classification of the latest frame alone. */
  lemma LatestFrameWins(frames: seq<Results>)
    requires AllReadable(frames) && |frames| > 0
    ensures Run(frames) == Classify(HandsOf(frames[|frames| - 1]))
    ensures Run(frames) > 0 <==> HandDetected(frames[|frames| - 1])
  {
  }

  /** Two runs ending in the same frame show the same brightness, whatever came before. */
  lemma RunForgetsHistory(frames1: seq<Results>, frames2: seq<Results>, last: Results)
    requires AllReadable(frames1) && AllReadable(frames2) && ReadableResults(last)
    ensures AllReadable(frames1 + [last]) && AllReadable(frames2 + [last])
    ensures Run(frames1 + [last]) == Run(frames2 + [last])
  {
  }

  // ---------------------------------------------------------------------
  // Display

  /** The bulb lights exactly when the brightness is positive. */
  predicate BulbOn(brightness: int) {
    brightness > 0
  }

  /** The bulb is lit exactly when the latest frame reports a hand. */
  lemma BulbOnIffHand(previous: nat, r: Results)
    requires ReadableResults(r)
    ensures BulbOn(OnResults(previous, r)) <==> HandDetected(r)
  {
  }

  const PowerPrefix: string := "Current Power: "
  const Prompt: string := "Show your hand to start"

  function DigitChar(d: nat): (c: char)
    requires d < 10
    ensures '0' <= c <= '9'
  {
    ['0', '1', '2', '3', '4', '5', '6', '7', '8', '9'][d]
  }

  function DigitValue(c: char): (d: nat)
    requires '0' <= c <= '9'
    ensures d < 10 && DigitChar(d) == c
  {
    (c as int) - ('0' as int)
  }

  predicate AllDigits(s: string) {
    forall i :: 0 <= i < |s| ==> '0' <= s[i] <= '9'
  }

  /**
   The decimal text of a whole number: no sign, no leading zero. A template
   literal renders the brightness levels (at most 100) this way; it would
   switch to exponent notation only from 10^21 on, which no level reaches.
   */
  function Decimal(n: nat): (s: string)
    ensures |s| >= 1 && AllDigits(s)
    ensures s[0] == '0' ==> n == 0
    decreases n
  {
    if n < 10 then [DigitChar(n)]
    else Decimal(n / 10) + [DigitChar(n % 10)]
  }

  /** The number a string of decimal digits denotes. */
  function DecimalValue(s: string): nat
    requires AllDigits(s)
    decreases |s|
  {
    if |s| == 0 then 0
    else DecimalValue(s[..|s| - 1]) * 10 + DigitValue(s[|s| - 1])
  }

  /** Reading back the rendered digits gives the number rendered. */
  lemma {:induction false} DecimalRoundTrip(n: nat)
    ensures DecimalValue(Decimal(n)) == n
    decreases n
  {
    var s := Decimal(n);
    if n < 10 {
      assert s[..|s| - 1] == [];
    } else {
      DecimalRoundTrip(n / 10);
      assert s[..|s| - 1] == Decimal(n / 10);
      assert DigitValue(s[|s| - 1]) == n % 10;
    }
  }

  /** The status line under the title: the percentage while lit, a prompt otherwise. */
  function StatusLine(brightness: int): string {
    if brightness > 0 then PowerPrefix + Decimal(brightness) + "%" else Prompt
  }

  /** The line shows a power reading: it starts with the power prefix. */
  predicate ShowsPower(line: string) {
    |line| >= |PowerPrefix| && line[..|PowerPrefix|] == PowerPrefix
  }

  /** The percentage a power reading shows; 0 for any other line. */
  function ShownPercent(line: string): nat {
    if ShowsPower(line) && |line| > |PowerPrefix| + 1 && line[|line| - 1] == '%'
       && AllDigits(line[|PowerPrefix|..|line| - 1])
    then DecimalValue(line[|PowerPrefix|..|line| - 1])
    else 0
  }

  /**
   The status line shows a power reading exactly when the brightness is
   positive, and the reading is the brightness itself.
   */
  lemma StatusLineShowsBrightness(brightness: int)
    ensures ShowsPower(StatusLine(brightness)) <==> brightness > 0
    ensures brightness > 0 ==> ShownPercent(StatusLine(brightness)) == brightness
    ensures brightness <= 0 ==> StatusLine(brightness) == Prompt
  {
    var line := StatusLine(brightness);
    if brightness > 0 {
      var digits := Decimal(brightness);
      assert line[..|PowerPrefix|] == PowerPrefix;
      assert line[|PowerPrefix|..|line| - 1] == digits;
      DecimalRoundTrip(brightness);
    } else {
      assert line[0] != PowerPrefix[0];
    }
  }

  /** After any frame, the prompt is shown exactly when no hand was reported. */
  lemma PromptIffNoHand(previous: nat, r: Results)
    requires ReadableResults(r)
    ensures StatusLine(OnResults(previous, r)) == Prompt <==> !HandDetected(r)
    ensures ShowsPower(StatusLine(OnResults(previous, r))) <==> HandDetected(r)
  {
    var b := OnResults(previous, r);
    StatusLineShowsBrightness(b);
    if b > 0 {
      assert StatusLine(b)[0] != Prompt[0];
    }
  }
}
