# MathFluency game logic in Dafny

This project models the little game logic in MathFluency's browser mini-games. Everything else in these games is engine, DOM or audio wiring. Three pieces are modelled:

- **The racecar intermission trigger** (`Racecar`). An `Intermission` node sits at a depth `zCoordinate` along the track. On every frame it checks whether the camera depth plus a look-ahead of 6 has reached that depth. The first frame that does latches `fired` and emits one `changeSelector` event carrying the node's selector and depth. The class has the source's fields. A ghost log `emitted` records the events the node has put on the event bus. `Step` and `Frames` state one frame and a whole run of frames as functions.
- **The shared keyboard layer** (`Keyboard`). A `KeyboardLayer` owns an array of 256 key slots. Each slot is never written (`Unset`), up (0), just pressed (1) or pressed and already polled (2). `keyDown` and `keyUp` overwrite a slot. `checkKey` range-checks the code, answers the slot and promotes "just pressed" to "polled". Each method is specified by a function on the table (`Press`, `Release`, `Check`).
- **The ghosts app's rules** (`GhostsInput`, `GhostsMedals`, `GhostsResult`, with `TextLines` for text). These are the per-frame movement dispatch (LEFT over RIGHT over DOWN over UP), the medal-threshold table built by `parseMedals`, and the result document built by `writeXML`. That document holds the medal choice, the score summary and one SCORE line per question.

Abstractions:
- The camera depth (`PNode.cameraZ`, a static of the PerspectiveNode class, which is not part of this model) is a parameter of `Update`.
- The emitted event is `Update`'s return value.
- Depths and times are `real`.
- The movement bindings are four booleans saying which binding reads as pressed.
- The MEDALS node is an optional sequence of children, each with an optional `Id` and an optional threshold.
- The medal-time table `RC.times`, a global that src/html5/ghosts/src/main.js never defines, is a parameter `times: map<int, real>`. A missing entry compares as false, just as a comparison with `undefined` does.
- `Math.round(x * 1000)` is `floor(x * 1000 + 0.5)` on exact reals.
- Numbers written into the document are integers in decimal.
- The answer texts of a question (`correctAnswer`, `answer`) are given strings.

## Model

| member | source | states |
|---|---|---|
| `Racecar.Step` | src/html5/racecar/src/Intermission.js:41-43 | one frame: the latch becomes `fired || cameraZ + 6 >= z`; an event is emitted iff the node was armed and the camera reached it; the event carries the node's selector and depth |
| `Racecar.Frames` | src/html5/racecar/src/Intermission.js:40-47 | a run of frames yields one (possibly empty) output per camera position |
| `Racecar.FiredStaysSilent` | src/html5/racecar/src/Intermission.js:36-43 | once fired, no later frame emits, whatever the camera depth; the latch never resets |
| `Racecar.FiresOnFirstReach` | src/html5/racecar/src/Intermission.js:41-43 | an armed node emits on frame i iff frame i is the first frame whose camera depth + 6 reaches the node; a jump past the depth counts; the event carries selector and depth |
| `Racecar.FiresAtMostOnce` | src/html5/racecar/src/Intermission.js:41-43 | over any run of camera positions, armed or not, at most one frame emits |
| `Racecar.FiresIfReached` | src/html5/racecar/src/Intermission.js:41-43 | if some frame's camera reaches an armed node, it emits the event on that frame or an earlier one |
| `Racecar.Intermission.constructor` | src/html5/racecar/src/Intermission.js:25-36 | a new intermission is armed (`fired` false, nothing emitted) with the given selector and depth |
| `Racecar.FramesAt` | src/html5/racecar/src/Intermission.js:40-47 | the outputs of a run from frame i on are frame i's `Step` followed by the outputs of the rest |
| `Racecar.Intermission.UpdateEach` | src/html5/racecar/src/Intermission.js:40-47 | calling `Update` once per camera position returns exactly `Frames` of the node's latch, so the run lemmas hold of the events; afterwards the latch is set iff it was set before or some camera position reached the node (a fired node never re-arms), a node that had fired emits nothing more, and selector and depth are unchanged |
| `Racecar.ReachedWithinNext` | src/html5/racecar/src/Intermission.js:41 | a frame among the first n+1 reaches the node iff one among the first n does or frame n does |
| `Racecar.Intermission.Update` | src/html5/racecar/src/Intermission.js:40-47 | the new `fired` and the returned event are `Step` of the old state; the event log grows by exactly the returned event; selector and depth are unchanged; the invariant "fired iff exactly the one event was emitted" is kept |
| `Keyboard.Write` | src/html5/src/KeyboardLayer.js:22-30 | a key event rewrites the slot of its code only; a code outside the table changes none of the 256 slots |
| `Keyboard.Press` | src/html5/src/KeyboardLayer.js:22-25 | `keyDown(c)` makes slot c "just pressed", even if it was "polled"; no other slot changes |
| `Keyboard.Release` | src/html5/src/KeyboardLayer.js:27-30 | `keyUp(c)` makes slot c "up"; no other slot changes |
| `Keyboard.Check` | src/html5/src/KeyboardLayer.js:32-46 | out of range: answers `false` and leaves the table alone; in range: answers the slot's prior value, turns "just pressed" into "polled" and leaves every other value and every other slot unchanged |
| `Keyboard.CheckTimes` | src/html5/src/KeyboardLayer.js:32-46 | n successive polls give n answers |
| `Keyboard.PolledStaysPolled` | src/html5/src/KeyboardLayer.js:37-41 | a polled slot answers "polled" on every further poll |
| `Keyboard.PressThenCheck` | src/html5/src/KeyboardLayer.js:24-41 | after `keyDown(c)`, the first `checkKey(c)` answers 1 and every later one answers 2, until another key event for c |
| `Keyboard.RepeatedKeyDownRearms` | src/html5/src/KeyboardLayer.js:22-41 | a repeated `keyDown(c)` for a key already polled makes the next `checkKey(c)` answer 1 again |
| `Keyboard.ReleaseThenCheck` | src/html5/src/KeyboardLayer.js:29-42 | after `keyUp(c)`, every `checkKey(c)` answers 0 until another key event for c |
| `Keyboard.FreshTable` | src/html5/src/KeyboardLayer.js:13-18 | the table `init` stores has 256 slots, none of them written |
| `Keyboard.ZeroedTable` | src/html5/src/KeyboardLayer.js:13-16 | the table the init loop is meant to produce: 256 slots, all up |
| `Keyboard.FreshKeyAnswersUnset` | src/html5/src/KeyboardLayer.js:13-42 | as written, polling an untouched key answers `undefined` on every poll, never 0 |
| `Keyboard.ZeroedKeyAnswersUp` | src/html5/src/KeyboardLayer.js:13-42 | with the zeroed table, polling an untouched key answers 0 on every poll |
| `Keyboard.KeyboardLayer.Init` | src/html5/src/KeyboardLayer.js:7-19 | `init` allocates a fresh table of exactly 256 slots, every slot unset |
| `Keyboard.KeyboardLayer.InitZeroed` | src/html5/src/KeyboardLayer.js:13-16 | the corrected `init`: a fresh 256-slot table with every slot up |
| `Keyboard.KeyboardLayer.KeyDown` | src/html5/src/KeyboardLayer.js:22-25 | the array afterwards is `Press` of the array before |
| `Keyboard.KeyboardLayer.KeyUp` | src/html5/src/KeyboardLayer.js:27-30 | the array afterwards is `Release` of the array before |
| `Keyboard.KeyboardLayer.CheckKey` | src/html5/src/KeyboardLayer.js:32-46 | the answer and the array afterwards are `Check` of the array before |
| `GhostsInput.Delta` | src/html5/ghosts/src/main.js:306-318 | each direction moves the player exactly one cell along exactly one axis (the value per direction is stated by `GhostsInput.MovePlayer`) |
| `GhostsInput.DeltaInjective` | src/html5/ghosts/src/main.js:306-318 | distinct directions give distinct moves |
| `GhostsInput.Move` | src/html5/ghosts/src/main.js:303-319 | the direction chosen in a frame, if any, is a pressed one |
| `GhostsInput.MoveIsFirstPressed` | src/html5/ghosts/src/main.js:305-319 | the chosen direction is the first pressed binding in the priority order LEFT, RIGHT, DOWN, UP; there is no move iff no binding is pressed |
| `GhostsInput.MovePlayer` | src/html5/ghosts/src/main.js:305-319 | a frame issues at most one `movePlayer` call: LEFT gives (0,-1); otherwise RIGHT (0,1); otherwise DOWN (1,0); otherwise UP (-1,0); none when nothing is pressed |
| `GhostsMedals.Normalize` | src/html5/ghosts/src/main.js:139-141 | a threshold above 1000 is divided by 1000; any other threshold is kept |
| `GhostsMedals.ParseMedals` | src/html5/ghosts/src/main.js:129-155 | with no MEDALS node the result is empty; otherwise it is the table built from the children in order |
| `GhostsMedals.MedalTableKeys` | src/html5/ghosts/src/main.js:134-148 | an id is in the table iff some child carries both that id and a threshold; incomplete children are skipped |
| `GhostsMedals.MedalTableLastWins` | src/html5/ghosts/src/main.js:138-143 | the value stored for an id is the normalised threshold of the last complete child with that id |
| `GhostsResult.MedalFor` | src/html5/ghosts/src/main.js:227-237 | a run that did not end in `FINISH` gets no medal (`' - '`) |
| `GhostsResult.MedalIsFirstBeaten` | src/html5/ghosts/src/main.js:230-237 | a finished run has the medal of the first medal time it beats, trying 1 (Gold), 2 (Silver), 3 (Bronze) in order; it has no medal iff it beats none |
| `GhostsResult.MedalBands` | src/html5/ghosts/src/main.js:230-237 | with increasing medal times t1 ≤ t2 ≤ t3: Gold iff total < t1, Silver iff t1 ≤ total < t2, Bronze iff t2 ≤ total < t3, none iff total ≥ t3 |
| `GhostsResult.MedalMonotone` | src/html5/ghosts/src/main.js:230-237 | a faster total never earns a lesser medal, whatever the medal times |
| `GhostsResult.RoundMs` | src/html5/ghosts/src/main.js:240-241 | seconds become the nearest whole millisecond, with halves rounded up |
| `GhostsResult.TotalScoreNearTotalTime` | src/html5/ghosts/src/main.js:240-248 | TotalScore, the sum of the separately rounded elapsed and penalty milliseconds, is within one millisecond of the exact total |
| `GhostsResult.TotalScoreRoundingGap` | src/html5/ghosts/src/main.js:240-248 | TotalScore can exceed the rounded total time by one: 0.0005 s + 0.0005 s gives TotalScore 2, while the total time rounds to 1 |
| `GhostsResult.ScoreLines` | src/html5/ghosts/src/main.js:251-256 | there is one detail line per question |
| `GhostsResult.ScoreLinesAppend` | src/html5/ghosts/src/main.js:253-256 | one more loop pass appends exactly the next question's line, numbered by its 1-based position |
| `GhostsResult.WriteXML` | src/html5/ghosts/src/main.js:221-262 | the string built is the result lines joined by newlines: six header lines, one SCORE line per question in order, three footer lines |
| `GhostsResult.ResultShape` | src/html5/ghosts/src/main.js:244-259 | when the game id, the state and the answer texts hold no newline, the document splits into exactly (number of questions + 9) lines; line 6+k is the SCORE line of question k with QuestionIndex k+1; line 3 is the Score summary, whose TotalScore is the sum of the rounded ElapsedTime and PenaltyTime and whose Medal is `MedalFor` of the unrounded total; the first line is `<OUTPUT>` and the last `</OUTPUT>` |
| `TextLines.NatToString` | src/html5/ghosts/src/main.js:248 | a number written into the document is its decimal digits with no leading zero, and those digits denote the number |
| `TextLines.IntToString` | src/html5/ghosts/src/main.js:248 | integers are written in decimal with a leading minus sign when negative; the text holds no newline and no quote |
| `TextLines.SplitJoin` | src/html5/ghosts/src/main.js:244-259 | splitting newline-joined lines at newlines gives back the lines, when none of them holds a newline |

## Left out

- The engine side of every class: the `PNode` superclass (its constructor and its perspective-projection `update`), `scheduleUpdate`, `isKeyboardEnabled`, the scene graph, sprites, labels and menus. These are calls into cocos2d, which is not part of this model.
- The event bus (`events.trigger`, `events.addListener`). An emitted event is `Update`'s return value together with the ghost log `emitted`.
- Audio mixers, preloaders, remote resources, jQuery/DOM access, window unload handling, the `cleanup` teardown and the `Function.prototype.bind` polyfill. These are browser and engine I/O.
- `XML.parser` and `XML.getDeepChildByName` are not part of this model. `ParseMedals` takes their output, the MEDALS node's children, as given.
- The `console.log` error messages of `parseMedals` (I/O). A skipped entry is simply absent from the table.
- `setBinding`, `checkBinding` and `KeyboardLayer.PRESS` are not part of this model. The movement dispatch takes, for each binding, whether it reads as pressed.
- The ABORT check at src/html5/ghosts/src/main.js:322-324: its body is commented out. `checkBinding('ABORT')` is still called on every frame, but `checkBinding` is defined in none of the modelled files and no ABORT binding is set in them, so the call is not modelled.
- Where `writeXML` is called: its only calls, in `endOfGame`, are commented out, and `RC` is not defined in src/html5/ghosts/src/main.js. `WriteXML` takes the medal times as a parameter.
- Floating point: depths, times and thresholds are exact reals. Rounding and division are therefore exact, and NaN and infinities do not arise.
- GhostsMedals.Normalize: a threshold attribute is text in the source. JavaScript converts it to a number for the `> 1000` test and the division, but keeps a threshold of 1000 or less as the original text. The model stores every threshold as a number.
- Keyboard.Write: a key code outside [0, 256) adds a property outside the table's 256 slots in the source. No `checkKey` call can read it, because `checkKey` range-checks its argument. The model leaves the table unchanged instead of recording that property.
- Keyboard.Check: `checkKey` answers `false` for a code outside the table. The model keeps that answer apart from the slot value 0, although JavaScript's loose equality would treat the two as equal.
- Non-integer key codes and non-string ids: key codes are integers and medal ids are strings.

## Findings

| source | as written | input that shows it | evidently intended | confidence | as-written member | corrected member |
|---|---|---|---|---|---|---|
| src/html5/src/KeyboardLayer.js:13-16 | `for(key in keys) { key = 0; }` visits no index of the fresh `new Array(256)`, and it only assigns its loop variable | `init()` then `checkKey(65)` answers `undefined`, not 0 | every slot starts at 0 (up) | not executed; high | `Keyboard.FreshKeyAnswersUnset` | `Keyboard.ZeroedKeyAnswersUp` |
