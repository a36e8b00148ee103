# Force Dimmer: gesture-to-brightness classifier

A Dafny model of the hand-gesture light control app's own logic: the callback that turns the hand detector's landmarks for one
camera frame into a brightness percentage, plus the two things the view
derives from that brightness.

- `landmarks.dfy`: module `Landmarks` holds a landmark `Point` over reals and a `Hand` as a sequence of points. It also has the anatomical indices the rule reads: the tips 8, 12, 16, 20 paired with the bases 6, 10, 14, 18, and the thumb tip 4 with the thumb base 2.
- `classifier.dfy`: module `Classifier` has the finger count, written as a recursion over the four tip/base pairs, and the thumb test (`|x4 - x2| > 0.1`). It maps the digit count to a brightness: a fist gives 100 and otherwise each digit gives 20. `Classify` gives 0 when there is no hand.
- `app.dfy`: module `App` has the detector result, where `multiHandLandmarks` may be absent (an `Option`). The callback overwrites the brightness cell, which starts at 0. The module also has the status line, whose number is rendered as decimal text, and the bulb's on/off predicate.

Landmark coordinates are mathematical reals. A reported hand must hold at
least 21 landmarks (`WellFormed`). The source reads index 20 without a check,
and a shorter list would crash it.

## Model

| member | source | states |
|---|---|---|
| Classifier.CountFrom | src/App.jsx:29-37 | the count of fingers `i..3` whose tip is strictly above its base is at most `4 - i`; it is 0 exactly when none is raised and `4 - i` exactly when all are |
| Classifier.FingerCount | src/App.jsx:29-37 | the raised-finger count is between 0 and 4; it is 0 iff no finger is raised and 4 iff all four are |
| Classifier.CountFromIsCardinality | src/App.jsx:33-37 | the one-finger-at-a-time count equals the size of the set of raised fingers among `i..3` |
| Classifier.FingerCountIsCardinality | src/App.jsx:29-37 | the finger count is the number of distinct raised fingers, a subset of the four fingers |
| Classifier.DigitCount | src/App.jsx:29-42 | fingers plus thumb is between 0 and 5; it is 0 iff no finger is raised and the thumb is in, and 5 iff all four are raised and the thumb is out |
| Classifier.LevelOf | src/App.jsx:44-49 | a detected hand's brightness is a multiple of 20 in 20..100, and it is 100 exactly for the fist (0 digits) and the open hand (5 digits) |
| Classifier.LevelOfDeterminesCount | src/App.jsx:44-49 | two digit counts give the same brightness iff they are equal or are the fist and the open hand |
| Classifier.LevelOfMonotoneAfterFist | src/App.jsx:47-48 | from 1 to 5 digits, more digits give strictly more brightness |
| Classifier.Classify | src/App.jsx:25-52 | the brightness is always one of 0, 20, ..., 100; it is 0 iff no hand is reported; with a hand it is 100 iff the digit count is 0 or 5 |
| Classifier.ClassifyNamesCount | src/App.jsx:45-49 | with a hand, for k in 1..4, the brightness is 20k iff exactly k digits are out |
| Classifier.ClassifyReadsFirstHandOnly | src/App.jsx:26 | two hand lists with the same first hand give the same brightness |
| Classifier.FistIsFull | src/App.jsx:44-46 | no tip above its base and a thumb within 0.1 gives digit count 0 and brightness 100 |
| Classifier.OpenHandIsFull | src/App.jsx:47-48 | four raised fingers and a thumb out give digit count 5 and brightness 100 via the per-digit branch |
| Classifier.FourFingersGiveEighty | src/App.jsx:33-48 | four raised fingers with the thumb in give 80 |
| Classifier.BoundaryHandIsFist | src/App.jsx:34-46 | a tip level with its base is not raised, and a thumb exactly 0.1 away on either side is not out, so such a hand reads as a fist (100) |
| Classifier.ClassifyByDigits | src/App.jsx:29-49 | with k raised fingers, the brightness is 20(k+1) when the thumb is out, 20k when it is in and k > 0, and 100 when it is in and k = 0 |
| App.HandsOf | src/App.jsx:25-26 | an absent landmark field reads as no hands; a present field's list is the hand list itself, so its first entry is the hand read at line 26; it is non-empty iff a hand is detected |
| App.OnResults | src/App.jsx:24-52 | the new brightness is a level; it is 0 iff the result reports no hand, and otherwise it is the level of the first hand's digit count |
| App.NoHandClearsBrightness | src/App.jsx:50-51 | without a hand the brightness becomes 0, whatever it was before |
| App.OnResultsIgnoresPrevious | src/App.jsx:24-52 | the next brightness does not depend on the previous one |
| App.Run | src/App.jsx:24-52 | folding the callback over frames from the initial 0 set at line 8, the brightness after any sequence of frames is always a level |
| App.LatestFrameWins | src/App.jsx:24-52 | after a non-empty run, the brightness is the classification of the last frame alone; it is positive iff that frame has a hand |
| App.RunForgetsHistory | src/App.jsx:24-52 | two runs ending in the same frame show the same brightness |
| App.BulbOnIffHand | src/App.jsx:99 | the bulb is on exactly when the latest frame reports a hand |
| App.Decimal | src/App.jsx:88 | the rendered number is a non-empty string of digits with no leading zero |
| App.DecimalRoundTrip | src/App.jsx:88 | reading the rendered digits back gives the number rendered |
| App.StatusLineShowsBrightness | src/App.jsx:88 | the status line shows `Current Power: N%` iff the brightness is positive, and then N is the brightness; otherwise it shows the prompt |
| App.PromptIffNoHand | src/App.jsx:25-51 | after any frame the prompt shows iff no hand was reported, and the power reading shows iff one was |

## Left out

- Detector setup: the MediaPipe `Hands` construction, the CDN `locateFile`, the detector options and the camera frame loop (src/App.jsx:13-22, 55-65) are an external library and asynchronous camera I/O. A frame's result is an input to `OnResults`.
- React state and effect plumbing (`useState`, `useEffect`, `useRef`, `cameraLoaded`) and the JSX/CSS layout (src/App.jsx:8-10, and 68-117 apart from lines 88 and 99, which are modelled) are UI runtime. The brightness cell's initial value 0 is kept as `InitialBrightness`.
- The glow style (`blur`, `scale`, src/App.jsx:96), the meter width (src/App.jsx:112) and all of src/components/LightBulb.jsx are cosmetic floating-point styling. The bulb's only logic, on/off, is `BulbOn`.
- Floating point: coordinates are reals, so the threshold is exactly 0.1. Rounding, NaN and infinities are not modelled.
- The z coordinate of a landmark is never read and is not kept.
- A hand with fewer than 21 landmarks would throw a TypeError in the source. The model requires at least 21 landmarks instead of modelling the crash.
