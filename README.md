# Play-session controller of the demon-catching game

This project models the controller of `game.js`, a Phaser browser game, in
Dafny. The player drags little demons up to a coin. Each capture feeds the
coin, and a 60-second countdown starts with the first drag. Ultra mode latches
when 100 demons have been consumed or the countdown runs out. The demons then
roam on their own, and after 1.5 seconds a knowledge message appears. The
confirm key dismisses it. After the first two playthroughs the restart button
follows; after the third, the achievement screen. Confirming the achievement
screen returns to the intro with the play count at zero.

The model has three modules:

- `Rules` (`rules.dfy`) holds the scene's constants and the small pure rules
  the handlers apply. These are the drag clamp, the capture decision on
  release, the displayed countdown, the play-count step, the ultra-mode step
  and the direction flip at the side margins.
- `Session` (`session.dfy`) is the scalar part of the `gameState` record as a
  value type, `Control`, with one function per handler. It also defines an
  event type for everything the engine delivers, a `Step`/`Run` semantics
  and the invariant that every reachable state keeps. Lemmas about single
  events and about whole playthroughs sit beside them: the 60-tick countdown,
  the hundredth capture, and three playthroughs ending on the achievement
  screen.
- `Game` (`game.dfy`) is the in-place implementation: a class `GameState`
  and a class `Demon` per sprite. The handlers are methods that update the
  state. Each method's contract says that its new `control` is the matching
  `Session` function of the old one, and what it did to the demons. So
  everything proved in `Session` holds of the implementation too.

The scalar fields of `gameState` are kept in one record-valued field,
`GameState.control`. The handlers update that record in place.

The engine's deferred work becomes explicit state and explicit events:

- the capture tweens in flight are the set `capturing`;
- the pending 2000 ms respawn calls are the set `respawning`;
- the pending 1500 ms reveal is `revealPending`;
- the repeating timer event is `timerLive`;
- the coin's swinging height is a parameter of the drag end;
- the random draws of ultra mode are the parameter `draws`.

A few consequences of the code that are easy to misread:

- Releasing a demon at y = 560 captures it, because 560 is more than 30
  above its home line at 595 (game.js:603). See `Rules.CaptureExamples`.
- The direction flip tests `x > width - 50` and `x < 50` strictly
  (game.js:743-744). A demon exactly at x = 750 (or at x = 50) keeps its
  direction in that frame and turns on the next frame that moves it past
  the margin. See `Rules.TurnExamples` and `Rules.TurnAfterReachingMargin`.
- Confirming the knowledge message of the first or second playthrough does
  not restart the game. It shows the restart button (game.js:417-426). The
  restart runs when the button's two-stage press tween ends
  (game.js:360-377).
- `demonsConsumed` is cleared by `resetGameState` (on the way to the intro)
  and by `restartGame`, not when the intro gives way to play.
- `restartGame` caps the play count at 3 (game.js:571). When the restart
  button takes one press per showing, the play count stays in 0..2 in every
  reachable state (`Session.ReachableBounds`). Two presses within one press
  tween restart twice; see the findings.

## Model

| member | source | states |
|---|---|---|
| Rules.HomeX | game.js:248-260 | the home x of the i-th demon, `800 * (0.15 + 0.08 i)` computed in integers, is `120 + 64 i` |
| Rules.Clamp | game.js:594-597 | `Phaser.Math.Clamp`: inside the bounds the value is kept, below it the lower bound, above it the upper one |
| Rules.CapturedAt | game.js:601-603 | the capture rule as written: within `30 * 1.5` of the coin vertically, or lifted more than 30 above the home line; what it means over the coin's whole range is stated by `Rules.CaptureIsLiftAboveHome`, its values at the edges by `Rules.CaptureExamples` |
| Rules.ShownTime | game.js:306 | the countdown shown is never negative, equals `timeLeft` when that is non-negative and 0 otherwise |
| Rules.NextPlayCount | game.js:569-572 | the play count after a restart: kept while the achievement screen shows, otherwise one more with a cap of 3, so 0..3 is preserved |
| Rules.NextDirection | game.js:743-744 | right of `width - 50` a roamer heads left, left of 50 it heads right, between the margins it keeps its direction |
| Rules.Advance | game.js:740 | one frame's horizontal step has the sign of the direction and magnitude `speed * delta / 1000` truncated |
| Rules.HomesInsideRoamingBand | game.js:248-260 | every demon home lies between the two turning margins, homes strictly increasing left to right |
| Rules.DragStaysOnScreen | game.js:594-597 | a dragged demon stays between y = 50 and its home line and follows a pointer already in that range |
| Rules.CaptureIsLiftAboveHome | game.js:599-604 | wherever the coin is in its tween range, the capture test reduces to "lifted more than 30 above the home line" |
| Rules.CaptureExamples | game.js:599-604 | home 595, coin 90: releasing at 120, 560 or 564 captures, at 565 or on the home line releases |
| Rules.TurnExamples | game.js:743-744 | with width 800 a demon at 751 turns left but one at 750 does not; one at 49 turns right but one at 50 does not |
| Rules.TurnAfterReachingMargin | game.js:740-744 | a demon standing on a side margin and heading outwards turns on the next frame when that frame advances it by at least one pixel; with a truncated advance of 0 it stays and keeps its direction |
| Session.ResetGameStateAsWritten | game.js:504-537 | `resetGameState` clears the latches, the consumed count, the drag and the countdown (back to 60), keeps `playCount` and leaves the timer event as it was; with nothing in flight or pending it is the clean intro except for the timer event |
| Session.ResetGameState | game.js:504-537 | with no capture in flight, no reveal scheduled and no restart pending, the reset is the clean intro state with the same play count |
| Session.Initial | game.js:62-95 | the `gameState` literal after `create` shows the intro is the clean intro with play count 0 |
| Session.RestartGameAsWritten | game.js:552-578 | `restartGame` clears the latches, the consumed count and the countdown, steps `playCount` by `NextPlayCount`, keeps the timer event |
| Session.RestartGame | game.js:552-578 | the corrected restart clears the latches, the consumed count and the countdown, hides the button and the message, steps `playCount` by `NextPlayCount` (so 0..3 is kept) and removes the timer event |
| Session.RestartButtonDownAsWritten | game.js:360-377 | as written, every press while the button is visible starts another press tween, so one more restart is pending; a press on a hidden button changes nothing |
| Session.RestartButtonDown | game.js:360-377 | with one press per showing, a press on the visible button with no restart pending makes one restart pending; any other press changes nothing |
| Session.PressTweenDoneAsWritten | game.js:366-374 | the end of a pending press tween runs `restartGame` as written: one restart fewer pending, the button hidden, the play count stepped |
| Session.PressTweenDone | game.js:366-374 | the end of a pending press tween runs the corrected restart: one fewer pending, the button hidden, no timer event, the play count stepped; with none pending nothing changes |
| Session.StartGame | game.js:194-203 | after `startGame` the demons are out and the restart button is hidden |
| Session.ShowAchievementScreen | game.js:428-430 | the achievement screen sets `achievementShown` and `gameComplete` |
| Session.ShowRestartButton | game.js:539-541 | showing the restart button sets `gameOver` and makes the button visible |
| Session.HideUltraMessage | game.js:417-426 | the message goes; the achievement screen follows iff `playCount >= 2`, game over (restart button) iff `playCount < 2` |
| Session.HideAchievementScreen | game.js:488-502 | with nothing in flight or pending, dismissing the achievement screen (reset, play count 0, `showIntro`) is the clean intro with play count 0 |
| Session.HideAchievementScreenAsWritten | game.js:488-502 | as written, the play count is 0 and the intro is back, but the timer event is untouched |
| Session.HandleEnterKey | game.js:146-154 | the confirm key's branch order: start from the intro, else hide the message, else leave the achievement screen, else nothing; its outcome in every reachable state is stated by `Session.EnterKeyOutcomes` |
| Session.StartTimer | game.js:291-302 | a new timer event is live and the countdown is back at 60 |
| Session.DemonPointerDown | game.js:265-272 | in ultra mode or after game over the press changes nothing, otherwise the timer is armed and a demon is dragged |
| Session.DemonDragEnd | game.js:284-288 | a drag end outside ultra mode leaves no demon dragged and adds a capture in flight exactly when it captures; otherwise nothing changes |
| Session.ActivateUltraMode | game.js:611-641 | ultra mode is latched, every capture tween is killed and the reveal is scheduled |
| Session.CaptureComplete | game.js:674-681 | one more demon is consumed; ultra mode comes on iff the count reaches 100 or the countdown has run out, and stays on once on |
| Session.UpdateTimer | game.js:304-312 | a tick drops the countdown by one; outside ultra mode it activates ultra mode and removes the timer iff the countdown reaches 0 |
| Session.ShowUltraMessage | game.js:381-395 | the reveal shows the message keyed by the play count and is no longer pending |
| Session.Step | game.js:146-694 | the engine delivers each event only while its source exists: a tick only from a live timer, a capture end only with a capture in flight, the reveal only while scheduled, a demon press only during play, a tween end of the restart button only with a restart pending; that every step keeps the invariant is `Session.StepPreservesInv` |
| Session.InitialInv | game.js:62-95 | the initial state satisfies the invariant |
| Session.StepPreservesInv | game.js:146-694 | every engine event, delivered only when its source exists, keeps the invariant |
| Session.RunPreservesInv | game.js:146-694 | every sequence of events keeps the invariant |
| Session.CaptureCompleteInv | game.js:674-681 | a capture completes only outside ultra mode and keeps the invariant |
| Session.ReachableBounds | game.js:569-572 | in every reachable state, with one restart per showing of the button, the play count is in 0..2, the knowledge message shown exists, at most 100 demons are consumed, and a live timer is an armed one |
| Session.EnterKeyOutcomes | game.js:146-154 | the confirm key takes the first matching branch: start a fresh play, hide the message (achievement iff third play), leave the achievement screen for the intro with play count 0, or nothing |
| Session.DemonPressArmsTimerOnce | game.js:265-272 | a press changes state only outside ultra mode and game over; only the first arms the 60-second timer; a second press changes nothing more |
| Session.CaptureCompletion | game.js:674-681 | in a reachable state a completion adds exactly one demon and activates ultra mode (scheduling the reveal) iff it is the hundredth |
| Session.UltraLatches | game.js:612 | ultra mode is switched off only by the end of a pending restart press or by dismissing the achievement screen |
| Session.ConsumedGrowsOnlyByCapture | game.js:675 | the consumed count grows only by one per capture completion outside ultra mode and otherwise only drops to 0 on a restart or a reset |
| Session.CountdownBeforeExpiry | game.js:304-312 | before expiry, n ticks only lower the countdown by n |
| Session.NoTickWithoutTimer | game.js:309 | once the timer event is removed, ticks change nothing; this follows from the tick guard of `Session.Step` and serves the countdown lemmas after expiry |
| Session.ExpiringTick | game.js:304-312 | the tick that takes the countdown to 0 activates ultra mode and removes the timer |
| Session.Countdown | game.js:304-312 | from t seconds, the first t - 1 ticks leave ultra mode off, the t-th activates it, and later ticks change nothing, so activation runs once |
| Session.SixtySecondCountdown | game.js:265-272 | sixty ticks after the first press with no captures, ultra mode comes on for the first time, the timer is gone and the countdown reads 0 |
| Session.TicksInUltraMode | game.js:308 | in ultra mode a timer still running only lowers the countdown |
| Session.HundredthCaptureFreezesCountdown | game.js:678-680 | the hundredth capture before expiry activates ultra mode at once; later ticks only lower the countdown, which is still displayed (as `max(0, timeLeft - n)`) but no longer acted on |
| Session.RevealOfRound | game.js:381-395 | whatever the play count, a playthrough whose countdown runs out ends in ultra mode showing the message numbered by the play count |
| Session.RoundOutcome | game.js:417-426 | a playthrough (press, drop, sixty ticks, reveal, confirm) ends in ultra mode with the restart button for plays 1 and 2 and the achievement screen for play 3 |
| Session.RestartAfterRound | game.js:552-578 | a playthrough followed by a press on the restart button and the end of its tween is a fresh playthrough with the play count one higher |
| Session.ThreePlaythroughsThenAchievement | game.js:488-502 | from the intro, three playthroughs reach the achievement screen and confirming it returns to the intro with play count 0 |
| Session.StaleTimerSurvivesResets | game.js:552-578 | as written, after a win by captures the timer survives the restart, and sixty idle ticks in the next playthrough activate ultra mode; it also survives the achievement reset and is still live on the intro |
| Session.ResetsDisarmTimer | game.js:504-537 | with the timer removed on both reset paths, no tick changes anything after a restart or an achievement dismissal |
| Session.DoublePressAsWritten | game.js:360-377 | as written, two presses on the restart button after the second playthrough leave two restarts pending; their tweens' ends give a fresh playthrough with play count 3, whose reveal selects message 3, past the three messages |
| Session.RestartsAsWritten | game.js:569-572 | `n` as-written restarts in a row keep the achievement flag |
| Session.RestartsAsWrittenCapped | game.js:569-572 | however many as-written restarts pile up, the play count is `min(p + n, 3)`, so it stays in 0..3 |
| Session.SecondPressIgnored | game.js:360-377 | with one press per showing, a second press while a restart is pending changes nothing, and two presses with two tween ends restart exactly once, stepping the play count once and hiding the button |
| Game.DrawDirection | game.js:625 | a draw's direction is ±1, and +1 exactly when the coin came up 1 |
| Game.Demon.constructor | game.js:249-261 | a new demon stands at the given home, interactive and not captured or running |
| Game.GameState.constructor | game.js:118-133 | the scene starts valid with the initial controller state and no demons |
| Game.GameState.ResetGameState | game.js:504-537 | the demons are destroyed, nothing is dragged, and the new state is `Session.ResetGameState` of the old |
| Game.GameState.SetupDemons | game.js:244-276 | ten distinct fresh demons, the i-th at home x `HomeX(i)` on the home line, idle and interactive |
| Game.GameState.RestartButtonDown | game.js:360-377 | the new state is `Session.RestartButtonDown` of the old, and nothing else changes |
| Game.GameState.PressTweenDone | game.js:366-374 | the new state is `Session.PressTweenDone` of the old; with a restart pending there are ten fresh demons at home and nothing dragged, otherwise the demons and the drag stay; captures and respawns stay either way |
| Game.GameState.RestartGame | game.js:552-578 | the new state is `Session.RestartGame` of the old, with ten fresh demons at home, nothing dragged and no capture in flight |
| Game.GameState.HandleEnterKey | game.js:146-154 | the new state is `Session.HandleEnterKey` of the old; on the intro ten fresh demons at home, on leaving the achievement screen no demons and nothing dragged, otherwise the demons and the drag stay; captures and respawns stay on every branch |
| Game.GameState.StartGame | game.js:194-203 | ten fresh demons at home and the state `Session.StartGame` of the old |
| Game.GameState.HideUltraMessage | game.js:417-426 | the new state is `Session.HideUltraMessage` of the old; the demons, the drag, the captures and the respawns stay |
| Game.GameState.HideAchievementScreen | game.js:488-502 | the new state is `Session.HideAchievementScreen` of the old: the intro, play count 0, no demons |
| Game.GameState.StartTimer | game.js:291-302 | the new state is `Session.StartTimer` of the old |
| Game.GameState.DemonPointerDown | game.js:265-272 | the new state is `Session.DemonPointerDown` of the old; an accepted press makes the demon the dragged one and records the pointer height, an ignored one changes nothing |
| Game.GameState.PointerMove | game.js:278-282 | outside ultra mode the dragged demon's y becomes the clamped pointer y within 50..595; nothing else about it changes |
| Game.GameState.PointerUp | game.js:284-288 | the new state is `Session.DemonDragEnd`; the dragged demon is captured iff `CapturedAt` holds, left where it is otherwise, and no demon is dragged afterwards; a release ignored in ultra mode keeps the drag; the released demon keeps its position, running state, direction and speed |
| Game.GameState.CaptureDragged | game.js:599-609 | a capture makes the dragged demon captured and non-interactive, starts its tween, and clears the drag; its position, running state, direction and speed are kept |
| Game.GameState.ReleaseDragged | game.js:599-608 | a release that is not a capture (`releaseDemon`) clears the drag (the new state is `Session.DemonDragEnd` with no capture) and keeps the scene invariant |
| Game.GameState.CaptureDemon | game.js:643-646 | the demon is marked captured and stops taking input; one more capture is in flight; its position, running state, direction and speed are kept |
| Game.GameState.Unleash | game.js:620-627 | one demon stops taking input and roams in the drawn direction at the drawn speed from where it stood |
| Game.GameState.UnleashAll | game.js:620-636 | every demon is unleashed with its own draws |
| Game.GameState.ActivateUltraMode | game.js:611-641 | the new state is `Session.ActivateUltraMode` of the old, no capture is in flight and every demon roams |
| Game.GameState.Stampede | game.js:620-636 | every demon roams, every capture tween is killed, and the scene stays valid |
| Game.GameState.CaptureComplete | game.js:674-694 | the new state is `Session.CaptureComplete`; the demons of the scene stay, the completed one among them; outside ultra mode the demon leaves the captures in flight and is back home with a respawn pending, every other field of it and every other demon untouched; in ultra mode no capture is in flight and every demon roams |
| Game.GameState.CompleteIntoUltraMode | game.js:675-680 | the completion that reaches the threshold or comes after expiry activates ultra mode and unleashes every demon |
| Game.GameState.CompleteAndSendHome | game.js:675-691 | any other completion consumes the demon (it leaves the captures in flight), sends it home and schedules its respawn |
| Game.GameState.Consume | game.js:674-675 | the capture tween of the demon ends: it leaves the in-flight set |
| Game.GameState.SendHome | game.js:682-691 | a captured, non-interactive demon that has left the captures in flight is back at its home position and its respawn call is pending |
| Game.GameState.TimerTick | game.js:304-312 | the new state is `Session.UpdateTimer`, the value shown is `ShownTime`; at expiry outside ultra mode no capture is in flight and every demon roams with its draws, otherwise no demon and no capture changes |
| Game.GameState.ShowUltraMessage | game.js:381-395 | the new state is `Session.ShowUltraMessage`; the message index is the play count and always one of the three messages; the demons, the drag, the captures and the respawns stay |
| Game.GameState.Respawn | game.js:686-691 | the respawn call is consumed; the demon is still marked captured (every pending respawn is), so if it is still in the scene it takes input again, otherwise its input state is unchanged; nothing else about it changes |
| Game.GameState.Roam | game.js:737-745 | a roaming demon advances by `Advance` and then turns by `NextDirection`; its height, speed and input state stay |
| Game.GameState.Update | game.js:731-748 | in ultra mode every demon is stepped by `Roam` if it roams; otherwise no demon changes |

## Left out

- Rendering, text, images, depths, the coin's texture swap, the light sphere, particles, and audio. These are calls into the Phaser engine with no effect on the controller state.
- Tweens. Only their completions are modelled, as events: the capture tween's end, the restart button's press tween's end. The capture tween's movement of the demon to the coin (with its scale, alpha and angle) is not modelled, so a demon being captured keeps its x and y until its completion sends it home.
- The arcade physics fall of a released demon and the `worldbounds` handlers. A released demon is left where it was dropped; gravity bringing it home is the engine's job.
- Randomness. `Phaser.Math.Between` for the roaming direction and speed is a parameter (`draws`). `Math.random` for the wobble phase and the animation durations is not modelled.
- Game.GameState.Update and Game.GameState.Roam: the vertical sine wobble of a roaming demon is not modelled, so a roaming demon's y stays as it was. Floating-point motion is not modelled either: positions are integers and a frame's advance is truncated.
- Game.GameState.Roam: because the advance is truncated, a frame with `speed * delta < 1000` (speed 100 and a 9 ms frame, say) leaves a demon where it stands, where the source moves it by a fraction of a pixel.
- Wall-clock timing. Each timer tick, capture-tween end, reveal and respawn call is an event the caller delivers. The model says nothing about when such events arrive.
- The pointer events on the restart button other than the press (hover scaling). The two stages of the press tween (80 ms, then 120 ms) are one pending restart that ends with the event `RestartTweenDone`.
- The extra `pointermove` and `pointerup` listeners that each `setupDemons` call adds. The first `pointerup` listener clears `draggedDemon`, so the later ones do nothing; every `pointermove` listener repeats the same clamp, so one call gives the same result. One call per event is modelled.
- The key listener set up again by `hideAchievementScreen` (`setupEnterKeyListener`). It replaces the listener with an equal one.
- Session.StaleTimerSurvivesResets: after the achievement screen the stale timer's next tick on the intro screen fails at the countdown text, which `resetGameState` set to null (game.js:536, 306). The model stops at the timer still being live there; what the failing tick does is not modelled.
- Game.GameState.Respawn: for a demon destroyed by a restart the pending call is dropped without effect, where the source calls `setInteractive` on a destroyed sprite.

## Findings

| source | as written | input that shows it | evidently intended | confidence | as-written member | corrected member |
|---|---|---|---|---|---|---|
| game.js:504-537, 552-578 | `restartGame` and `resetGameState` never remove `timerEvent`; only `updateTimer` at expiry and the next `startTimer` do | a first playthrough won by 100 captures with 20 s left, then the restart button and no drag for 60 s: the old timer keeps ticking in the new playthrough and switches ultra mode on with no demon dragged | each reset removes the timer event, so no tick arrives until the next drag arms a new timer | not executed | Session.StaleTimerSurvivesResets | Session.ResetsDisarmTimer |
| game.js:360-377 | every press on the restart button starts a press tween whose end calls `restartGame`, and the button stays visible and takes presses until the first of them ends (about 200 ms) | after the second playthrough, two presses within 200 ms: two restarts run and the play count goes from 1 to 3, so the third knowledge message is never shown: the next reveal shows the undefined entry 3 of 0..2, and the achievement screen follows | one restart per showing of the button | not executed | Session.DoublePressAsWritten | Session.SecondPressIgnored |

The as-written functions `Session.RestartGameAsWritten`,
`Session.ResetGameStateAsWritten` and `Session.HideAchievementScreenAsWritten`
keep `timerLive`. Their corrected counterparts `Session.RestartGame`,
`Session.ResetGameState` and `Session.HideAchievementScreen` clear it, and
those are the ones `Step` and the `Game` methods use. Likewise
`Session.RestartButtonDownAsWritten` and `Session.PressTweenDoneAsWritten`
let restarts pile up, while `Session.RestartButtonDown` and
`Session.PressTweenDone`, which `Step` and the `Game` methods use, take one
press per showing of the button.
