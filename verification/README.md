# Gesture calculator: the input state machine

This project models the core of a calculator that is operated by hand gestures in
front of a camera. It is written in Dafny and its properties are proved. The
calculator draws a 4x4 keypad (`7 8 9 *` / `4 5 6 -` / `1 2 3 +` / `0 / . =`) below an
expression display. Once per video frame the caller passes the palm centre and the
hand's status. A fist whose palm centre lies on a key commits that key, and input is
then ignored for 20 frames (the cooldown). A committed `=` replaces the expression by
its value, or by `Error` when evaluation fails, and marks it as a result. The next key
pressed after a result starts a fresh expression.

The model has four modules:

- `Keypad` (keypad.dfy) covers the layout formula, the edge-inclusive box of every key
  and the first-match hit test. It also proves the geometry of the grid: which key a
  point hits, what happens on shared edges, and when any key is hit at all.
- `Expression` (expression.dfy) says what one committed key does to the expression
  and its result flag (`Press`). It also proves what a run of keys produces
  (`PressAll`).
- `GestureCalculator` (calculator.dfy) holds the `Calculator` class. Its fields are
  the ones the source updates in place: `delayCounter`, `myEquation`, `calculated`
  and `buttons`. Its methods mirror the source's, loops included. Each method is
  proved against the functions of the other two modules.
- `Wrappers` (wrappers.dfy) holds an `Option` type.

Expression evaluation is not modelled. `CheckHandInput` takes the evaluator as a
parameter `eval: string -> Option<string>`. The evaluator returns the text of the result, or
`None` where the source's evaluation raises an exception. So every property about `=`
holds for any evaluator.

Three points about the code that the model follows:

- Every box is edge-inclusive and `size` wide, and the next box in a row starts at
  `x1 + size`. So neighbouring boxes share their edges: a point on a shared edge
  lies in both boxes, and the loop's `break` commits the key that comes first in
  grid order. `SharedColumnEdgeHitsLeftKey` and `SharedRowEdgeHitsUpperKey` prove
  this.
- `check_hand_input` returns nothing, so `CheckHandInput` has no result either.
- `calculated` is created by the first `=` and is read through `hasattr`. It is
  modelled as a bool field set to `false` by the constructor, which behaves the same.

## Model

| member | source | states |
|---|---|---|
| `Keypad.Layout` | Calculator.py:22-32 | the keypad has exactly 16 keys |
| `Keypad.LayoutCell` | Calculator.py:15-32 | the key at index `4*row+col` sits at `(ox + col*size, oy + 100 + row*size)` and carries the label in row `row`, column `col` of the fixed grid |
| `Keypad.Regions` | Calculator.py:65-76 | there is one region per key, in the keys' order; each carries its key's label and has `x1`,`y1` at the key's corner and `x2 = x1 + size`, `y2 = y1 + size` |
| `Keypad.KeypadCell` | Calculator.py:65-76 | the box of the key in row `row`, column `col` carries its label and has top-left corner `(ox + col*size, oy + 100 + row*size)` and bottom-right corner `size` further on both axes |
| `Keypad.FirstHit` | Calculator.py:91-92 | the result is the index of a region containing the point (edges included), and no earlier region contains it; it is `None` exactly when no region contains the point |
| `Keypad.InteriorHitsOwnKey` | Calculator.py:91-92 | a point strictly inside a key's square lies in no other key's box, and that key is the one hit |
| `Keypad.SharedColumnEdgeHitsLeftKey` | Calculator.py:91-92 | a point on the edge two keys in a row share lies in both boxes, and the left key wins |
| `Keypad.SharedRowEdgeHitsUpperKey` | Calculator.py:91-92 | a point on the edge two keys in a column share lies in both boxes, and the upper key wins |
| `Keypad.HitIffOnKeypad` | Calculator.py:91-92 | for every key size, some key is hit exactly when the point lies in the keypad's outer square, edges included |
| `Expression.Press` | Calculator.py:96-108 | after a key the result flag is set exactly when the key was `=` |
| `Expression.PressAfterResult` | Calculator.py:96-98 | clear-then-apply: while a result is shown, any key (including `=`) acts as it would on an empty expression |
| `Expression.PressAppends` | Calculator.py:107-108 | a key other than `=` gives `old + value` when no result is shown and just `value` after a result; the flag ends up false |
| `Expression.PressEquals` | Calculator.py:100-106 | `=` always sets the flag; the expression becomes the evaluator's text on success and `"Error"` on failure |
| `Expression.TypingAppends` | Calculator.py:107-108 | a non-empty run of keys without `=` appends their labels, in order, to the text the first key builds on, and leaves no result shown |
| `Expression.EqualsEvaluatesTyped` | Calculator.py:100-108 | a run of keys without `=`, followed by `=`, shows the evaluation of exactly the typed text (or `"Error"`) as a result |
| `Expression.FlagTracksLastKey` | Calculator.py:96-106 | after any run of keys, the result flag is set exactly when the last key was `=` |
| `Expression.OnePlusOne` | Calculator.py:96-108 | `1 + 1 =` shows the evaluator's `"2"` as a result, and a following `+` leaves `"+"` rather than `"2+"` |
| `Expression.DivisionByZeroShowsError` | Calculator.py:100-106 | `5 / 0 =` with a failing evaluation shows `"Error"` as a result |
| `GestureCalculator.Calculator.constructor` | Calculator.py:4-20 | a new calculator has an empty expression, no result flag, a zero cooldown and the 16 keys of the layout; origin and key size default to `(800, 50)` and `100` |
| `GestureCalculator.Calculator.CreateButtons` | Calculator.py:22-32 | the nested loops append exactly the layout's 16 keys, row by row, to the keys already present |
| `GestureCalculator.Calculator.SetEquation` | Calculator.py:62-63 | the expression becomes the given text, and the counter, flag and keys are unchanged |
| `GestureCalculator.Calculator.GetButtonRegions` | Calculator.py:65-76 | the loop returns exactly `Regions(buttons, buttonSize)`; it modifies nothing, so two calls in a row return the same list |
| `GestureCalculator.Calculator.CheckHandInput` | Calculator.py:78-111 | a running cooldown drops by exactly 1 and nothing else changes; with no cooldown, a status other than `"fist"` or a miss changes nothing; a hit on the first containing box applies `Press` once with that key and sets the cooldown to exactly 20; the cooldown stays within 0..20 |

## Left out

- Rendering (`Calculator.draw`, Calculator.py:34-60) is OpenCV drawing with alpha blending and font metrics from a foreign library. The font, colour and alpha fields (Calculator.py:5-6, 10-13) only feed it.
- Python's `eval` (Calculator.py:102) is not modelled: Python number syntax, floating-point results and their `str` formatting. It is an opaque evaluator parameter that gives the result's text or `None`.
- Camera capture, hand-landmark inference and landmark drawing are left out. HandDetector.py is not part of this model.
- The frame loop and the exit key are left out. main.py is not part of this model.
- The classifier that turns landmarks into a palm centre and a `"fist"`/other status is outside Calculator.py and is not part of this model. Its `(palm_pos, hand_status)` output is the input of `CheckHandInput`.
- The key labels (`buttonListvalues`, Calculator.py:15-18) are never changed, so they are the module constant `Keypad.KeyRows` rather than a field.
