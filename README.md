# ETHMumbai Maxi-Meter: tilt engine and quiz, modelled in Dafny

This project models two pieces of a small React app and proves properties about them.

- **The profile card's tilt engine** (`src/ProfileCard.jsx`). This is a frame-driven loop. Each animation frame it eases the card's current pointer offset toward a target offset by the factor `k = 1 - exp(-dt/τ)`. The time constant τ is 0.6 s during a 1200 ms entrance phase and 0.14 s afterwards. The loop turns the current point into bounded visual parameters: pointer percentages, background shift, distance from center and rotation angles. It stops once the point has settled and the document has no focus.
- **The quiz** (`src/App.jsx`). Five questions, each with a correct option index. An answer scores one point when it picks that index. The final score is `Math.round(25 + bonus + score/5·50)`, where `bonus` is 25 for a handle that looks like a web3 name. A rank title is derived from the final score.

Files:

- `wrappers.dfy`: `Option`.
- `tilt_math.dfy` (module `TiltMath`): the pure helpers and formulas.
  - `clamp`, `round`, `adjust` and the `setVars` formulas.
  - Exponential smoothing, alone and over runs of frames.
  - `decay` (standing for `1 - Math.exp(-x)`) and `Math.hypot` are function parameters, constrained by `DecayLaw` and `HypotLaw`.
- `tilt_engine.dfy` (module `TiltEngine`): the engine closure as class `Engine`. Its fields are the closure's variables. The browser's animation-frame scheduler is an explicit queue `queued` of pending frame-callback handles. `Frame(ts, hasFocus)` is the browser delivering the next queued frame: the frame timestamp and `document.hasFocus()` are parameters, and `performance.now()` is the `now` parameter of `BeginInitial` and `Mount`. `Valid()` states the scheduling invariant:
  - exactly one frame is queued while `running`, and none otherwise;
  - `rafId` names the queued frame.
- `maxi_meter.dfy` (module `MaxiMeter`): the rank table, the final-score rule and the handle test as functions. The component state and its handlers are class `App`.

Behaviour of the code worth knowing (the model follows the code):

- `setImmediate(x, y)` sets only the current point; the target is not touched. So `getCurrent()` right after it returns `{x, y, tx, ty}` with the old target, not `{x, y, x, y}`.
- `toCenter()` on a zero-size shell sets the target to `(0, 0)` and starts the loop. Only a missing shell makes it a no-op.
- "No previous frame" is marked by `lastTs == 0`, not by a separate "none" value. A frame whose timestamp is exactly 0 therefore leaves the next frame also computing `dt = 0`. `Elapsed` models exactly this.
- `cancel()` does not reset `lastTs`. A later `start()` does.
- `handleStart` does not reset the question or the score. `reset` keeps `isWeb3Native` and `lastAnswerCorrect`.

## Model

| member | source | states |
|---|---|---|
| TiltMath.Clamp | src/ProfileCard.jsx:7 | result is at most `max`; at least `min` when `min <= max`; `v` itself when already within; `min` below, `max` above |
| TiltMath.Round3 | src/ProfileCard.jsx:8 | `round(v)` is the nearest multiple of 1/1000, the magnitude rounded with ties upwards and the sign kept, as `toFixed(3)` does (definition; properties in the next rows) |
| TiltMath.Nearest | src/App.jsx:72 | `Math.round` (and the rounding of a magnitude inside `toFixed`) returns the integer in `(u - 0.5, u + 0.5]`, so halves round up |
| TiltMath.Round3Symmetric | src/ProfileCard.jsx:8 | `round(-v) = -round(v)`: ties go away from zero on both sides, 0.0005 to 0.001 and -0.0005 to -0.001 |
| TiltMath.Round3Close | src/ProfileCard.jsx:8 | `round` moves a value by at most 0.0005 |
| TiltMath.Round3Monotone | src/ProfileCard.jsx:8 | `round` preserves order |
| TiltMath.Round3Exact | src/ProfileCard.jsx:8 | a multiple of 1/1000 is unchanged by `round` |
| TiltMath.Round3Within | src/ProfileCard.jsx:8 | bounds that are multiples of 1/1000 survive `round` |
| TiltMath.Remap | src/ProfileCard.jsx:9 | the linear map inside `adjust`: `fMin` goes to `tMin` and `fMax` to `tMax` |
| TiltMath.Adjust | src/ProfileCard.jsx:9 | `adjust` is `round` of that linear map (definition; the background case is the next row) |
| TiltMath.BackgroundShift | src/ProfileCard.jsx:9 | `adjust(p, 0, 100, 35, 65)` for `p` in [0,100] lies in [35,65], is monotone in `p`, and maps 0, 50, 100 exactly to 35, 50, 65 |
| TiltMath.SizeOrOne | src/ProfileCard.jsx:47-48 | the size used is at least 1, and the measured size when that is non-zero |
| TiltMath.PointerPercent | src/ProfileCard.jsx:47-50 | pointer percentage lies in [0,100] for any offset and any size, zero size included |
| TiltMath.PointerPercentInside | src/ProfileCard.jsx:49-50 | inside a non-empty surface the percentage is exactly `100·x/w` |
| TiltMath.FromCenter | src/ProfileCard.jsx:57 | pointer-from-center lies in [0,1] |
| TiltMath.FromCenterZeroIff | src/ProfileCard.jsx:57 | pointer-from-center is 0 if and only if `(px, py) = (50, 50)` |
| TiltMath.FromCenterCorners | src/ProfileCard.jsx:57 | pointer-from-center is 1 at the four corners |
| TiltMath.Params | src/ProfileCard.jsx:47-62 | `setVars`: pointer percentages from the shell size (or 1), background by `adjust`, from-center by `hypot(py - 50, px - 50) / 50`, clamped to [0,1], from-top `py/100`, from-left `px/100`, rotate-x `round(-(px - 50)/5)`, rotate-y `round((py - 50)/4)` (definition; ranges in the next row) |
| TiltMath.ParamsInRange | src/ProfileCard.jsx:42-62 | every parameter `setVars` writes stays in range: pointer [0,100], background [35,65], from-center, from-top and from-left [0,1], rotate-x [-10,10], rotate-y [-12.5,12.5] |
| TiltMath.ParamsExample | src/ProfileCard.jsx:47-61 | on a 200×100 card at (130, 60): pointer 65%/60%, rotate-x -3, rotate-y 2.5, from-top 0.6, from-left 0.65 |
| TiltMath.Elapsed | src/ProfileCard.jsx:69-70 | the first frame after a (re)start has `dt = 0`; `dt` is non-negative for non-decreasing timestamps |
| TiltMath.Tau | src/ProfileCard.jsx:73 | the time constant is 0.6 s before `initialUntil` and 0.14 s from then on (definition; used by `FactorInUnit` and `EntranceIsSlower`) |
| TiltMath.FactorInUnit | src/ProfileCard.jsx:73-74 | the per-frame factor `k` lies in [0,1) and is 0 when `dt = 0` |
| TiltMath.EntranceIsSlower | src/ProfileCard.jsx:73-74 | for the same `dt > 0`, `k` inside the entrance phase is strictly smaller than after it |
| TiltMath.Smooth | src/ProfileCard.jsx:75-76 | `k = 0` keeps the current point; `k = 1` lands on the target; the remaining gap is `(1 - k)` times the old gap |
| TiltMath.SmoothNoOvershoot | src/ProfileCard.jsx:75-76 | with `k` in [0,1] one frame lands between the old current point and the target, and the distance to the target does not grow |
| TiltMath.ApproachGap | src/ProfileCard.jsx:67-85 | after any run of frames toward a fixed target, the gap is the product of the factors `(1 - k)` times the initial gap |
| TiltMath.RetainedInUnit | src/ProfileCard.jsx:74-76 | that product lies in [0,1] when every `k` does |
| TiltMath.RetainedGeometric | src/ProfileCard.jsx:74-76 | when every `k >= kMin`, the product is at most `(1 - kMin)^n`; the gap shrinks at least geometrically |
| TiltMath.ApproachNoOvershoot | src/ProfileCard.jsx:75-76 | a run of frames toward a fixed target never passes it and never moves away from it |
| TiltEngine.KeepRunning | src/ProfileCard.jsx:79 | the loop continues when either axis is more than 0.05 from the target, or the document has focus (definition, used by `Step`) |
| TiltEngine.LeaveComplete | src/ProfileCard.jsx:134 | the host's leave check on a `getCurrent()` snapshot: `hypot(tx - x, ty - y) < 0.6` (definition; characterised in the next rows) |
| TiltEngine.LeaveCompleteIff | src/ProfileCard.jsx:134 | the leave check `hypot(tx - x, ty - y) < 0.6` holds if and only if `(tx-x)² + (ty-y)² < 0.36` |
| TiltEngine.LeaveCompleteNear | src/ProfileCard.jsx:132-136 | once both axes are within 0.4 of the target, the leave check succeeds |
| TiltEngine.Without | src/ProfileCard.jsx:103 | cancelling a handle removes exactly that handle from the scheduler's queue |
| TiltEngine.Engine.GetCurrent | src/ProfileCard.jsx:102 | `getCurrent()` returns exactly the four fields |
| TiltEngine.Engine.constructor | src/ProfileCard.jsx:35-40 | a fresh engine is stopped, with no frame queued, `rafId` null, `lastTs` 0 and every point at 0 |
| TiltEngine.Engine.SetVars | src/ProfileCard.jsx:42-45 | with a mounted card the style becomes the parameters of `(x, y)`; without one nothing is written |
| TiltEngine.Engine.RequestFrame | src/ProfileCard.jsx:91 | `requestAnimationFrame` queues one callback under a fresh handle |
| TiltEngine.Engine.Start | src/ProfileCard.jsx:87-92 | a no-op while running, so at most one frame is ever queued; otherwise the loop runs with `lastTs = 0` and one frame queued under `rafId` |
| TiltEngine.Engine.Stepped | src/ProfileCard.jsx:67-85 | the whole effect of one running frame: the point moves by `k = decay(Elapsed/Tau)` toward the unchanged target, the style is rewritten, and either one new frame is queued with `lastTs = ts` or the loop stops with `lastTs = 0` and nothing queued |
| TiltEngine.Engine.Step | src/ProfileCard.jsx:67-85 | a call while stopped changes nothing. Otherwise the point moves by `k = decay(dt/τ)` toward the unchanged target and the style is rewritten. The loop reschedules if and only if an axis is more than 0.05 off or the document has focus; else it stops with `lastTs = 0`. The invariant is re-established |
| TiltEngine.Engine.Frame | src/ProfileCard.jsx:67-85 | frame delivery keeps `Valid`. A frame after the loop stopped changes nothing. Each frame lands between the old point and the target without moving away from it. The first frame after a start leaves the point where it was |
| TiltEngine.Engine.SetImmediate | src/ProfileCard.jsx:95 | only the current point (and the style) changes; the target is untouched |
| TiltEngine.Engine.SetTarget | src/ProfileCard.jsx:96 | only the target changes, and the loop is running afterwards; a running loop keeps its `lastTs`, queue and `rafId`; a stopped one restarts with `lastTs = 0` and one fresh frame queued |
| TiltEngine.Engine.ToCenter | src/ProfileCard.jsx:97-100 | target becomes `(clientWidth/2, clientHeight/2)` and the loop runs: a running loop keeps its `lastTs`, queue and `rafId`, a stopped one restarts with `lastTs = 0` and one fresh frame queued; the point is untouched; nothing changes without a shell |
| TiltEngine.Engine.BeginInitial | src/ProfileCard.jsx:101 | the entrance phase ends `ms` after `now`, and the loop runs: a running loop keeps its `lastTs`, queue and `rafId`, a stopped one restarts with `lastTs = 0` and one fresh frame queued; the point and target are untouched |
| TiltEngine.Engine.Cancel | src/ProfileCard.jsx:103 | afterwards the loop is stopped, `rafId` is null and no frame is queued; a second call changes nothing |
| TiltEngine.Engine.Mount | src/ProfileCard.jsx:144-156 | on mount, the current point is `(w - 70, 60)` and the style is written for it, the target is the center and the entrance phase lasts 1200 ms; the loop runs, restarted with `lastTs = 0` and one frame queued if it was stopped; without a shell nothing happens |
| TiltEngine.Engine.MountFirstFrame | src/ProfileCard.jsx:153-156 | after mounting a stopped engine, the first frame leaves the card drawn at `(w - 70, 60)`, aimed at the center, and keeps the loop going exactly when the settle test says so |
| MaxiMeter.FindRank | src/App.jsx:22 | `find` returns the first rank whose `max` is at least the score, and nothing only when no rank qualifies |
| MaxiMeter.FindRankBands | src/App.jsx:16-22 | on RANKS the search returns "Townie Tourist" up to 40, "Fast Local Pro" from 41 to 75, "Mumbai Eth-Lord" from 76 to 100, and nothing above 100 |
| MaxiMeter.GetRank | src/App.jsx:16-22 | `getRank` is total: scores up to 40, up to 75 and above get those three titles, with RANKS[2] as fallback above 100 |
| MaxiMeter.CorrectOptionsExist | src/App.jsx:8-14 | QUIZ_DATA has five questions and each `correct` index names one of the four options |
| MaxiMeter.FinalScore | src/App.jsx:72 | `Math.round(25 + (web3 ? 25 : 0) + (score / 5) * 50)` over the reals (definition; the next rows give its value and range) |
| MaxiMeter.FinalScoreFormula | src/App.jsx:72 | the final score equals `25 + (web3 ? 25 : 0) + 10·score` exactly |
| MaxiMeter.FinalScoreRange | src/App.jsx:72 | for 0 ≤ score ≤ 5 the final score lies in [25,100], and in [50,100] with the web3 bonus |
| MaxiMeter.ToLower | src/App.jsx:56 | lower-casing keeps the length and maps each character |
| MaxiMeter.IsWeb3Handle | src/App.jsx:56 | the lower-cased handle ends with ".eth" or starts with "0x" (definition; the next rows characterise it) |
| MaxiMeter.IsWeb3HandleIff | src/App.jsx:56 | the web3 test holds if and only if the handle ends in ".eth" or starts with "0x", letters compared without case |
| MaxiMeter.IsWeb3HandleCaseBlind | src/App.jsx:56 | the web3 test does not depend on the handle's case |
| MaxiMeter.App.constructor | src/App.jsx:25-33 | initial state: landing screen, empty handle, question 0, score 0, no fact shown, final score 0 |
| MaxiMeter.App.SetHandle | src/App.jsx:138 | the input sets the handle |
| MaxiMeter.App.HandleStart | src/App.jsx:53-58 | an empty handle changes nothing; otherwise `isWeb3Native` is the handle test and the screen becomes 'quiz' |
| MaxiMeter.App.HandleAnswer | src/App.jsx:60-65 | the fact is always shown; `lastAnswerCorrect` holds if and only if the index is the question's correct one; the score rises by exactly one in that case and is unchanged otherwise; answering only while no fact is shown keeps `score ≤ currentQuestion + showFact` |
| MaxiMeter.App.NextStep | src/App.jsx:67-76 | before the last question: the next question with the fact hidden. On the last: the final score by the formula, and the 'result' screen. `currentQuestion` stays in [0,4]; the score bound is kept; a bounded score gives a final score in [25,100] |
| MaxiMeter.App.Reset | src/App.jsx:83-92 | landing screen, empty handle and avatar, question 0, score 0, no fact, final score 0; `isWeb3Native` and `lastAnswerCorrect` unchanged |

## Left out

- DOM side effects are not modelled: writing the CSS variables as strings with `%`/`deg`, `classList` changes, the 180 ms `setTimeout` for the 'entering' class, and event-listener registration. The style written is modelled as the numeric `VisualParams` record of the last write. The shell size is the `surface` field; the wrapper is taken to be mounted exactly when the shell is.
- `onMove` and `onEnter` are not separate members. They compute `clientX - rect.left`, `clientY - rect.top` from the bounding box, which is DOM geometry, and hand the result to `SetTarget`, which is modelled.
- The host's leave polling is not modelled as a loop. It re-requests a frame until the check passes; only its completion predicate `LeaveComplete` is modelled.
- The engine is `null` when `enableTilt` is false; that case is not modelled. The React hook machinery (`useMemo`, `useCallback`, `useEffect` dependencies) is not modelled either.
- The browser's frame ids and `cancelAnimationFrame` of a stale id are modelled only as a queue of positive handles.
- All arithmetic is over exact reals, not IEEE doubles, and `Math.exp` and `Math.hypot` are abstract. `round` is modelled exactly as `toFixed(3)` rounding of a real, except for magnitudes of 10^21 and more, where `toFixed` switches to exponent notation.
- TiltMath.Adjust: requires `fMax != fMin`. With equal bounds JavaScript divides by zero and yields NaN or Infinity, which the reals cannot express; the card only calls it with 0 and 100.
- TiltEngine.Engine.Frame: requires frame timestamps that do not decrease. A timestamp going backwards would give a negative `dt` and a factor outside [0,1), which the browser never delivers.
- Convergence within a fixed number of frames is only stated geometrically (`RetainedGeometric`). An explicit frame count would need bounds on `exp`, which the model does not have.
- `handleImageUpload`, `removeImage`, `shareResult` and the avatar URL are not modelled: they are `FileReader`, `window.open` and a URL string. The framer-motion and lucide-react rendering is not modelled either.
- Question texts, options, facts and rank descriptions are not modelled. Only the correct indices and the question count matter.
- MaxiMeter.ToLower lower-cases ASCII letters only. JavaScript's `toLowerCase` also maps other Unicode letters; in some cases it changes the string's length.
- React state updates are taken as immediate. Each handler runs against the state the previous one left, which is what the rendered buttons see.
