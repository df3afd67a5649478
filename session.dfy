/**
 * The play-session controller as a pure state machine over the scalar part
 * of `gameState`: one function per event handler, a single `Step` that
 * dispatches an engine event, the invariant every reachable state keeps,
 * and lemmas about whole playthroughs.
 *
 * Engine callbacks appear as explicit events: the end of a capture tween,
 * a tick of the one-second timer, the delayed ultra reveal and the press
 * of the restart button.
 */
module Session {
  import opened Rules

  /**
   * The controller's scalar state. `timerLive` says that the repeating
   * timer event exists and has not been removed; `revealPending` that the
   * 1500 ms reveal call is scheduled; `ultraMessageActive` that a knowledge
   * message is on screen, the one numbered `messageIndex`; `restartVisible`
   * that the restart button is shown; `dragging` that `draggedDemon` is set;
   * `capturesInFlight` counts capture tweens that have not completed and
   * `restartsPending` press tweens of the restart button that have not ended.
   */
  datatype Control = Control(
    introShown: bool,
    ultraActivated: bool,
    timerActive: bool,
    timerLive: bool,
    timeLeft: int,
    demonsConsumed: nat,
    gameOver: bool,
    playCount: int,
    achievementShown: bool,
    gameComplete: bool,
    ultraMessageActive: bool,
    messageIndex: int,
    revealPending: bool,
    restartVisible: bool,
    dragging: bool,
    capturesInFlight: nat,
    restartsPending: nat)

  /** The intro screen of a new cycle: every per-playthrough field cleared, the given play count. */
  ghost predicate AtIntro(s: Control, playCount: int)
  {
    && !s.introShown && !s.ultraActivated && !s.timerActive && !s.timerLive
    && s.timeLeft == GAME_DURATION && s.demonsConsumed == 0 && !s.gameOver
    && s.playCount == playCount && !s.achievementShown && !s.gameComplete
    && !s.ultraMessageActive && !s.revealPending && !s.restartVisible
    && !s.dragging && s.capturesInFlight == 0 && s.restartsPending == 0
  }

  /** A playthrough about to begin: the demons are out, nothing has been dragged yet. */
  ghost predicate FreshPlay(s: Control, playCount: int)
  {
    && s.introShown && !s.ultraActivated && !s.timerActive && !s.timerLive
    && s.timeLeft == GAME_DURATION && s.demonsConsumed == 0 && !s.gameOver
    && s.playCount == playCount && !s.achievementShown && !s.gameComplete
    && !s.ultraMessageActive && !s.revealPending && !s.restartVisible
    && !s.dragging && s.capturesInFlight == 0 && s.restartsPending == 0
  }

  // ---------------------------------------------------------------------
  // Reset paths

  /**
   * `resetGameState` as the source writes it. It clears the per-playthrough
   * fields and destroys the overlays but keeps `playCount`, and it does not
   * remove the timer event.
   */
  function ResetGameStateAsWritten(s: Control): (r: Control)
    ensures r.playCount == s.playCount && r.timerLive == s.timerLive
    ensures !r.introShown && !r.ultraActivated && !r.timerActive && !r.gameOver
    ensures !r.achievementShown && !r.gameComplete && !r.ultraMessageActive && !r.restartVisible
    ensures r.demonsConsumed == 0 && r.timeLeft == GAME_DURATION && !r.dragging
    ensures s.capturesInFlight == 0 && !s.revealPending && s.restartsPending == 0 ==>
              AtIntro(r.(timerLive := false), s.playCount)
  {
    s.(dragging := false, demonsConsumed := 0, ultraActivated := false,
       timerActive := false, timeLeft := GAME_DURATION, gameOver := false,
       introShown := false, gameComplete := false, achievementShown := false,
       ultraMessageActive := false, restartVisible := false)
  }

  /** `resetGameState` with the timer event removed as well (see the findings). */
  function ResetGameState(s: Control): (r: Control)
    ensures s.capturesInFlight == 0 && !s.revealPending && s.restartsPending == 0 ==>
              AtIntro(r, s.playCount)
  {
    ResetGameStateAsWritten(s).(timerLive := false)
  }

  /** The initial state: the `gameState` literal after `create` has shown the intro. */
  function Initial(): (r: Control)
    ensures AtIntro(r, 0)
  {
    var literal := Control(
      introShown := false, ultraActivated := false, timerActive := false,
      timerLive := false, timeLeft := GAME_DURATION, demonsConsumed := 0,
      gameOver := false, playCount := 0, achievementShown := false,
      gameComplete := false, ultraMessageActive := false, messageIndex := 0,
      revealPending := false, restartVisible := false, dragging := false,
      capturesInFlight := 0, restartsPending := 0);
    ResetGameState(literal)
  }

  /**
   * `restartGame` as the source writes it: a new playthrough with the
   * counters cleared and the play count stepped by `NextPlayCount`; the
   * timer event is not removed.
   */
  function RestartGameAsWritten(s: Control): (r: Control)
    ensures r.introShown == s.introShown && r.timerLive == s.timerLive
    ensures !r.ultraActivated && !r.timerActive && !r.gameOver && !r.dragging
    ensures r.demonsConsumed == 0 && r.timeLeft == GAME_DURATION
    ensures r.playCount == NextPlayCount(s.playCount, s.achievementShown)
    ensures !r.ultraMessageActive && !r.restartVisible
    ensures r.achievementShown == s.achievementShown && r.restartsPending == s.restartsPending
  {
    s.(dragging := false, demonsConsumed := 0, ultraActivated := false,
       timerActive := false, timeLeft := GAME_DURATION, gameOver := false,
       playCount := NextPlayCount(s.playCount, s.achievementShown),
       ultraMessageActive := false, restartVisible := false)
  }

  /** `restartGame` with the timer event removed as well (see the findings). */
  function RestartGame(s: Control): (r: Control)
    ensures r.introShown == s.introShown && !r.timerLive
    ensures !r.ultraActivated && !r.timerActive && !r.gameOver && !r.dragging
    ensures !r.restartVisible && !r.ultraMessageActive
    ensures r.demonsConsumed == 0 && r.timeLeft == GAME_DURATION
    ensures r.playCount == NextPlayCount(s.playCount, s.achievementShown)
    ensures r.achievementShown == s.achievementShown && r.restartsPending == s.restartsPending
    ensures 0 <= s.playCount <= MAX_PLAY_COUNT ==> 0 <= r.playCount <= MAX_PLAY_COUNT
  {
    RestartGameAsWritten(s).(timerLive := false)
  }

  /**
   * The restart button's `pointerdown` as written: every press while the
   * button is visible starts another press tween, and the end of each one
   * restarts the game.
   */
  function RestartButtonDownAsWritten(s: Control): (r: Control)
    ensures s.restartVisible ==> r == s.(restartsPending := s.restartsPending + 1)
    ensures !s.restartVisible ==> r == s
  {
    if s.restartVisible then s.(restartsPending := s.restartsPending + 1) else s
  }

  /**
   * The restart button's `pointerdown` as intended: the button takes one
   * press per showing, so a press while a restart is pending is ignored
   * (see the findings).
   */
  function RestartButtonDown(s: Control): (r: Control)
    ensures s.restartVisible && s.restartsPending == 0 ==> r == s.(restartsPending := 1)
    ensures !(s.restartVisible && s.restartsPending == 0) ==> r == s
  {
    if s.restartVisible && s.restartsPending == 0 then s.(restartsPending := 1) else s
  }

  /** The end of a press tween as written: `restartGame` as the source writes it. */
  function PressTweenDoneAsWritten(s: Control): (r: Control)
    ensures s.restartsPending > 0 ==>
              r.restartsPending == s.restartsPending - 1 && !r.restartVisible
              && r.playCount == NextPlayCount(s.playCount, s.achievementShown)
    ensures s.restartsPending == 0 ==> r == s
  {
    if s.restartsPending > 0 then RestartGameAsWritten(s.(restartsPending := s.restartsPending - 1))
    else s
  }

  /** The end of a press tween: the corrected `restartGame`. */
  function PressTweenDone(s: Control): (r: Control)
    ensures s.restartsPending > 0 ==>
              r.restartsPending == s.restartsPending - 1 && !r.restartVisible && !r.timerLive
              && r.playCount == NextPlayCount(s.playCount, s.achievementShown)
    ensures s.restartsPending == 0 ==> r == s
  {
    if s.restartsPending > 0 then RestartGame(s.(restartsPending := s.restartsPending - 1)) else s
  }

  // ---------------------------------------------------------------------
  // Confirm key

  /** `startGame`: the demons and the coin are set up and the intro is gone. */
  function StartGame(s: Control): (r: Control)
    ensures r.introShown && !r.restartVisible
  {
    s.(introShown := true, restartVisible := false)
  }

  function ShowAchievementScreen(s: Control): (r: Control)
    ensures r.achievementShown && r.gameComplete
  {
    s.(achievementShown := true, gameComplete := true)
  }

  function ShowRestartButton(s: Control): (r: Control)
    ensures r.gameOver && r.restartVisible
  {
    s.(gameOver := true, restartVisible := true)
  }

  /**
   * `hideUltraMessage`: the message goes; from the third playthrough on
   * (`playCount >= 2`) the achievement screen follows, before that the
   * restart button.
   */
  function HideUltraMessage(s: Control): (r: Control)
    ensures !r.ultraMessageActive
    ensures r.achievementShown <==> s.achievementShown || s.playCount >= 2
    ensures r.gameOver <==> s.gameOver || s.playCount < 2
  {
    var t := s.(ultraMessageActive := false);
    if s.playCount >= 2 then ShowAchievementScreen(t) else ShowRestartButton(t)
  }

  /**
   * `hideAchievementScreen`: a full reset, the play count back to zero, and
   * `showIntro`, which resets once more.
   */
  function HideAchievementScreen(s: Control): (r: Control)
    ensures s.capturesInFlight == 0 && !s.revealPending && s.restartsPending == 0 ==> AtIntro(r, 0)
  {
    ResetGameState(ResetGameState(s).(playCount := 0))
  }

  function HideAchievementScreenAsWritten(s: Control): (r: Control)
    ensures r.playCount == 0 && !r.introShown && r.timerLive == s.timerLive
  {
    ResetGameStateAsWritten(ResetGameStateAsWritten(s).(playCount := 0))
  }

  /** `handleEnterKey`: the first matching branch is taken, otherwise nothing happens. */
  function HandleEnterKey(s: Control): Control
  {
    if !s.introShown then StartGame(s)
    else if s.ultraMessageActive then HideUltraMessage(s)
    else if s.achievementShown then HideAchievementScreen(s)
    else s
  }

  // ---------------------------------------------------------------------
  // Dragging

  /** `startTimer`: any old timer event is removed and a new one counts down from 60. */
  function StartTimer(s: Control): (r: Control)
    ensures r.timeLeft == GAME_DURATION && r.timerLive
  {
    s.(timeLeft := GAME_DURATION, timerLive := true)
  }

  /**
   * The demon `pointerdown` listener: ignored in ultra mode and after the
   * game is over; the first accepted press of a playthrough arms the timer,
   * and every accepted press makes the demon the dragged one.
   */
  function DemonPointerDown(s: Control): (r: Control)
    ensures (s.ultraActivated || s.gameOver) ==> r == s
    ensures !s.ultraActivated && !s.gameOver ==> r.dragging && r.timerActive
  {
    if !s.ultraActivated && !s.gameOver then
      var t := if !s.timerActive then StartTimer(s).(timerActive := true) else s;
      t.(dragging := true)
    else s
  }

  /**
   * The `pointerup` listener with `onDemonDragEnd`: when a demon is dragged
   * outside ultra mode, it is captured (a capture tween starts) or
   * released, and no demon is dragged any more.
   */
  function DemonDragEnd(s: Control, captured: bool): (r: Control)
    ensures s.dragging && !s.ultraActivated ==> !r.dragging
    ensures !(s.dragging && !s.ultraActivated) ==> r == s
    ensures r.capturesInFlight
            == s.capturesInFlight + (if captured && s.dragging && !s.ultraActivated then 1 else 0)
  {
    if s.dragging && !s.ultraActivated then
      s.(dragging := false,
         capturesInFlight := s.capturesInFlight + if captured then 1 else 0)
    else s
  }

  // ---------------------------------------------------------------------
  // Ultra mode, capture completion and the countdown

  /**
   * The state part of `activateUltraMode`: the latch is set, every tween of
   * every demon is killed (so no capture in flight completes), and the
   * reveal is scheduled.
   */
  function ActivateUltraMode(s: Control): (r: Control)
    ensures r.ultraActivated && r.revealPending && r.capturesInFlight == 0
  {
    s.(ultraActivated := true, revealPending := true, capturesInFlight := 0)
  }

  /**
   * The `onComplete` callback of a capture tween: one more demon consumed;
   * reaching the threshold, or completing after the countdown has run out,
   * activates ultra mode if it is not active yet.
   */
  function CaptureComplete(s: Control): (r: Control)
    ensures r.demonsConsumed == s.demonsConsumed + 1
    ensures s.ultraActivated ==> r.ultraActivated
    ensures !s.ultraActivated ==>
              (r.ultraActivated <==> r.demonsConsumed >= DEMONS_FOR_ULTRA || s.timeLeft <= 0)
  {
    var consumed := s.demonsConsumed + 1;
    var inFlight: nat := if s.capturesInFlight > 0 then s.capturesInFlight - 1 else 0;
    var t := s.(demonsConsumed := consumed, capturesInFlight := inFlight);
    if (consumed >= DEMONS_FOR_ULTRA || s.timeLeft <= 0) && !s.ultraActivated then
      ActivateUltraMode(t)
    else t
  }

  /**
   * `updateTimer`, run on every tick: the countdown drops by one; when it
   * reaches zero outside ultra mode the timer removes itself and ultra mode
   * activates.
   */
  function UpdateTimer(s: Control): (r: Control)
    ensures r.timeLeft == s.timeLeft - 1
    ensures s.ultraActivated ==> r.ultraActivated && r.timerLive == s.timerLive
    ensures !s.ultraActivated ==>
              && (r.ultraActivated <==> s.timeLeft <= 1)
              && (r.timerLive <==> s.timerLive && s.timeLeft > 1)
  {
    var t := s.(timeLeft := s.timeLeft - 1);
    if t.timeLeft <= 0 && !t.ultraActivated then ActivateUltraMode(t.(timerLive := false))
    else t
  }

  /** `showUltraMessage`, run 1500 ms after activation: the message keyed by the play count. */
  function ShowUltraMessage(s: Control): (r: Control)
    ensures r.ultraMessageActive && r.messageIndex == s.playCount && !r.revealPending
  {
    s.(ultraMessageActive := true, messageIndex := s.playCount, revealPending := false)
  }

  // ---------------------------------------------------------------------
  // Events

  datatype Event =
    | EnterKey
    | DemonPressed
    | PointerMoved
    | PointerReleased(captured: bool)
    | CaptureTweenDone
    | TimerTick
    | UltraRevealDue
    | RestartPressed
    | RestartTweenDone
    | RespawnDue
    | Frame

  /**
   * One engine event. The engine only delivers what exists: a pressed demon
   * only after `startGame`, a capture completion only for a tween in flight,
   * a tick only from a live timer, the reveal only when scheduled, and a
   * press on the restart button only while it is visible. Moves, respawns
   * and frames change demons, not this state.
   */
  function Step(s: Control, e: Event): Control
  {
    match e
    case EnterKey => HandleEnterKey(s)
    case DemonPressed => if s.introShown then DemonPointerDown(s) else s
    case PointerMoved => s
    case PointerReleased(c) => DemonDragEnd(s, c)
    case CaptureTweenDone => if s.capturesInFlight > 0 then CaptureComplete(s) else s
    case TimerTick => if s.timerLive then UpdateTimer(s) else s
    case UltraRevealDue => if s.revealPending then ShowUltraMessage(s) else s
    case RestartPressed => RestartButtonDown(s)
    case RestartTweenDone => PressTweenDone(s)
    case RespawnDue => s
    case Frame => s
  }

  function Run(s: Control, es: seq<Event>): Control
    decreases |es|
  {
    if es == [] then s else Run(Step(s, es[0]), es[1..])
  }

  function Repeat(e: Event, n: nat): (es: seq<Event>)
    ensures |es| == n && forall i :: 0 <= i < n ==> es[i] == e
  {
    seq(n, _ => e)
  }

  // ---------------------------------------------------------------------
  // The invariant of every reachable state

  /**
   * What holds in every state the controller can reach: the play count
   * stays in 0..2, a live timer is always an armed one, the intro screen is
   * a clean slate, outside ultra mode the countdown is positive and fewer
   * than 100 demons are consumed, ultra mode has no capture in flight, the
   * knowledge message shown is the one for the current play count, the
   * restart button is up exactly when the game is over (and only before the
   * third playthrough), at most one restart is pending and only while the
   * button is up, and the achievement screen only after the third.
   */
  ghost predicate Inv(s: Control)
  {
    && 0 <= s.playCount <= 2
    && (s.timerLive ==> s.timerActive)
    && (s.timerActive ==> s.introShown)
    && (s.dragging ==> s.introShown)
    && s.timeLeft <= GAME_DURATION
    && s.demonsConsumed <= DEMONS_FOR_ULTRA
    && (!s.introShown ==> AtIntro(s, s.playCount))
    && (!s.ultraActivated ==>
          && 0 < s.timeLeft && s.demonsConsumed < DEMONS_FOR_ULTRA
          && !s.revealPending && !s.ultraMessageActive && !s.gameOver && !s.achievementShown)
    && (s.ultraActivated ==> s.capturesInFlight == 0)
    && (s.revealPending ==> !s.ultraMessageActive && !s.gameOver && !s.achievementShown)
    && (s.ultraMessageActive ==> s.messageIndex == s.playCount && !s.gameOver && !s.achievementShown)
    && (s.gameOver <==> s.restartVisible)
    && (s.restartVisible ==> s.playCount < 2 && !s.achievementShown)
    && s.restartsPending <= 1 && (s.restartsPending > 0 ==> s.restartVisible)
    && (s.achievementShown <==> s.gameComplete)
    && (s.achievementShown ==> s.playCount == 2)
  }

  /** A capture completes only outside ultra mode, and keeps the invariant. */
  lemma CaptureCompleteInv(s: Control)
    requires Inv(s) && s.capturesInFlight > 0
    ensures Inv(CaptureComplete(s)) && !s.ultraActivated
  {
    assert CaptureComplete(s) == Step(s, CaptureTweenDone);
    StepPreservesInv(s, CaptureTweenDone);
  }

  lemma InitialInv()
    ensures Inv(Initial())
  {
  }

  lemma StepPreservesInv(s: Control, e: Event)
    requires Inv(s)
    ensures Inv(Step(s, e))
  {
  }

  lemma {:induction false} RunPreservesInv(s: Control, es: seq<Event>)
    requires Inv(s)
    ensures Inv(Run(s, es))
    decreases |es|
  {
    if es != [] {
      StepPreservesInv(s, es[0]);
      RunPreservesInv(Step(s, es[0]), es[1..]);
    }
  }

  /**
   * Whatever the events, from the initial state, with the restart button
   * taking one press per showing: the play count stays in 0..2 (so within
   * the 0..3 that `restartGame` caps it to), the knowledge
   * message shown exists, at most 100 demons are consumed, and the timer
   * only ticks once a drag has armed it.
   */
  lemma ReachableBounds(es: seq<Event>)
    ensures 0 <= Run(Initial(), es).playCount <= 2 < MAX_PLAY_COUNT
    ensures Run(Initial(), es).ultraMessageActive ==>
              0 <= Run(Initial(), es).messageIndex < KNOWLEDGE_COUNT
    ensures Run(Initial(), es).demonsConsumed <= DEMONS_FOR_ULTRA
    ensures Run(Initial(), es).timerLive ==> Run(Initial(), es).timerActive
  {
    InitialInv();
    RunPreservesInv(Initial(), es);
  }

  // ---------------------------------------------------------------------
  // Single events

  /** The confirm key, branch by branch, in every reachable state. */
  lemma EnterKeyOutcomes(s: Control)
    requires Inv(s)
    ensures !s.introShown ==>
              FreshPlay(HandleEnterKey(s), s.playCount)
    ensures s.introShown && s.ultraMessageActive ==>
              && !HandleEnterKey(s).ultraMessageActive
              && HandleEnterKey(s).ultraActivated
              && (HandleEnterKey(s).achievementShown <==> s.playCount >= 2)
              && (HandleEnterKey(s).gameOver <==> s.playCount < 2)
              && (HandleEnterKey(s).restartVisible <==> s.playCount < 2)
              && HandleEnterKey(s).playCount == s.playCount
    ensures s.introShown && !s.ultraMessageActive && s.achievementShown ==>
              AtIntro(HandleEnterKey(s), 0)
    ensures s.introShown && !s.ultraMessageActive && !s.achievementShown ==>
              HandleEnterKey(s) == s
  {
  }

  /**
   * A demon press changes the state only when not in ultra mode and not
   * game over; it arms the timer (60 seconds) only when the timer is not
   * armed yet, so a second press changes nothing more.
   */
  lemma DemonPressArmsTimerOnce(s: Control)
    ensures DemonPointerDown(s) != s ==> !s.ultraActivated && !s.gameOver
    ensures !s.ultraActivated && !s.gameOver && !s.timerActive ==>
              DemonPointerDown(s).timeLeft == GAME_DURATION && DemonPointerDown(s).timerLive
    ensures s.timerActive ==>
              DemonPointerDown(s).timeLeft == s.timeLeft
              && DemonPointerDown(s).timerLive == s.timerLive
    ensures DemonPointerDown(DemonPointerDown(s)) == DemonPointerDown(s)
  {
  }

  /**
   * A capture completion in a reachable state adds exactly one demon, and
   * activates ultra mode exactly when that one is the hundredth.
   */
  lemma CaptureCompletion(s: Control)
    requires Inv(s) && s.capturesInFlight > 0
    ensures Step(s, CaptureTweenDone).demonsConsumed == s.demonsConsumed + 1
    ensures Step(s, CaptureTweenDone).ultraActivated <==> s.demonsConsumed + 1 == DEMONS_FOR_ULTRA
    ensures Step(s, CaptureTweenDone).ultraActivated ==> Step(s, CaptureTweenDone).revealPending
  {
  }

  /**
   * Ultra mode, once on, is switched off only by `restartGame` (the restart
   * button) or by `resetGameState` (dismissing the achievement screen).
   */
  lemma UltraLatches(s: Control, e: Event)
    requires Inv(s) && s.ultraActivated && !Step(s, e).ultraActivated
    ensures (e == RestartTweenDone && s.restartsPending > 0)
            || (e == EnterKey && s.achievementShown && !s.ultraMessageActive)
  {
  }

  /**
   * The consumed count changes only by one capture completion outside ultra
   * mode, or drops to zero on a restart or a reset.
   */
  lemma ConsumedGrowsOnlyByCapture(s: Control, e: Event)
    requires Inv(s) && Step(s, e).demonsConsumed != s.demonsConsumed
    ensures
      || (e == CaptureTweenDone && !s.ultraActivated
          && Step(s, e).demonsConsumed == s.demonsConsumed + 1)
      || ((e == RestartTweenDone || e == EnterKey) && Step(s, e).demonsConsumed == 0)
  {
  }

  // ---------------------------------------------------------------------
  // Runs of events

  lemma {:induction false} RunAppend(s: Control, a: seq<Event>, b: seq<Event>)
    ensures Run(s, a + b) == Run(Run(s, a), b)
    decreases |a|
  {
    if a == [] {
      assert a + b == b;
    } else {
      assert (a + b)[1..] == a[1..] + b;
      RunAppend(Step(s, a[0]), a[1..], b);
    }
  }

  lemma RunOne(s: Control, e: Event)
    ensures Run(s, [e]) == Step(s, e)
  {
    assert [e][1..] == [];
  }

  lemma RepeatSucc(e: Event, n: nat)
    ensures Repeat(e, n + 1) == Repeat(e, n) + [e]
  {
  }

  /** The run of `n + 1` ticks is the run of `n` ticks followed by one more. */
  lemma TickAfterTicks(s: Control, n: nat)
    ensures Run(s, Repeat(TimerTick, n + 1)) == Step(Run(s, Repeat(TimerTick, n)), TimerTick)
  {
    RepeatSucc(TimerTick, n);
    RunAppend(s, Repeat(TimerTick, n), [TimerTick]);
    RunOne(Run(s, Repeat(TimerTick, n)), TimerTick);
  }

  /** `n` timer ticks one after the other. */
  function Ticks(s: Control, n: nat): Control
  {
    if n == 0 then s else Step(Ticks(s, n - 1), TimerTick)
  }

  lemma {:induction false} TicksAreRun(s: Control, n: nat)
    ensures Run(s, Repeat(TimerTick, n)) == Ticks(s, n)
  {
    if n == 0 {
      assert Repeat(TimerTick, 0) == [];
    } else {
      TicksAreRun(s, n - 1);
      TickAfterTicks(s, n - 1);
    }
  }

  /** A tick that does not expire the countdown, or comes in ultra mode, only lowers it. */
  lemma CountingTick(s: Control)
    requires s.timerLive && (s.ultraActivated || s.timeLeft > 1)
    ensures Step(s, TimerTick) == s.(timeLeft := s.timeLeft - 1)
  {
  }

  /** Ticks before expiry only count down. */
  lemma CountdownBeforeExpiry(s: Control, n: nat)
    requires !s.ultraActivated && s.timerLive && n < s.timeLeft
    ensures Run(s, Repeat(TimerTick, n)) == s.(timeLeft := s.timeLeft - n)
  {
    TicksAreRun(s, n);
    TicksBeforeExpiry(s, n);
  }

  lemma {:induction false} TicksBeforeExpiry(s: Control, n: nat)
    requires !s.ultraActivated && s.timerLive && n < s.timeLeft
    ensures Ticks(s, n) == s.(timeLeft := s.timeLeft - n)
  {
    if n > 0 {
      TicksBeforeExpiry(s, n - 1);
      CountingTick(s.(timeLeft := s.timeLeft - (n - 1)));
    }
  }

  /** Once the timer has removed itself, further ticks never arrive. */
  lemma NoTickWithoutTimer(s: Control, n: nat)
    requires !s.timerLive
    ensures Run(s, Repeat(TimerTick, n)) == s
  {
    TicksAreRun(s, n);
    IdleTicks(s, n);
  }

  lemma {:induction false} IdleTicks(s: Control, n: nat)
    requires !s.timerLive
    ensures Ticks(s, n) == s
  {
    if n > 0 {
      IdleTicks(s, n - 1);
    }
  }

  /** The tick that brings the countdown to zero activates ultra mode and removes the timer. */
  lemma ExpiringTick(s: Control)
    requires !s.ultraActivated && s.timerLive && s.timeLeft > 0
    ensures Run(s, Repeat(TimerTick, s.timeLeft))
            == ActivateUltraMode(s.(timeLeft := 0, timerLive := false))
  {
    var t := s.timeLeft;
    CountdownBeforeExpiry(s, t - 1);
    RepeatSucc(TimerTick, t - 1);
    RunAppend(s, Repeat(TimerTick, t - 1), [TimerTick]);
    RunOne(s.(timeLeft := 1), TimerTick);
  }

  /**
   * The countdown from `t` seconds outside ultra mode: the first `t - 1`
   * ticks leave ultra mode off, the `t`-th activates it and removes the
   * timer, and any number of ticks beyond leaves that state as it is, so
   * the activation branch runs exactly once.
   */
  lemma Countdown(s: Control, n: nat)
    requires !s.ultraActivated && s.timerLive && s.timeLeft > 0
    ensures n < s.timeLeft ==> !Run(s, Repeat(TimerTick, n)).ultraActivated
    ensures n >= s.timeLeft ==>
              Run(s, Repeat(TimerTick, n))
              == ActivateUltraMode(s.(timeLeft := 0, timerLive := false))
  {
    if n < s.timeLeft {
      CountdownBeforeExpiry(s, n);
    } else {
      var t: nat := s.timeLeft;
      ExpiringTick(s);
      assert Repeat(TimerTick, n) == Repeat(TimerTick, t) + Repeat(TimerTick, n - t);
      RunAppend(s, Repeat(TimerTick, t), Repeat(TimerTick, n - t));
      NoTickWithoutTimer(ActivateUltraMode(s.(timeLeft := 0, timerLive := false)), n - t);
    }
  }

  /** Sixty seconds from the first drag, with no captures: ultra mode on the sixtieth tick. */
  lemma SixtySecondCountdown(s: Control, n: nat)
    requires Inv(s) && s.introShown && !s.ultraActivated && !s.gameOver && !s.timerActive
    ensures n < GAME_DURATION ==>
              !Run(DemonPointerDown(s), Repeat(TimerTick, n)).ultraActivated
    ensures n >= GAME_DURATION ==>
              Run(DemonPointerDown(s), Repeat(TimerTick, n)).ultraActivated
              && !Run(DemonPointerDown(s), Repeat(TimerTick, n)).timerLive
              && Run(DemonPointerDown(s), Repeat(TimerTick, n)).timeLeft == 0
  {
    Countdown(DemonPointerDown(s), n);
  }

  /** In ultra mode a still-running timer only counts below zero. */
  lemma TicksInUltraMode(s: Control, n: nat)
    requires s.ultraActivated && s.timerLive
    ensures Run(s, Repeat(TimerTick, n)) == s.(timeLeft := s.timeLeft - n)
  {
    TicksAreRun(s, n);
    UltraTicks(s, n);
  }

  lemma {:induction false} UltraTicks(s: Control, n: nat)
    requires s.ultraActivated && s.timerLive
    ensures Ticks(s, n) == s.(timeLeft := s.timeLeft - n)
  {
    if n > 0 {
      UltraTicks(s, n - 1);
      CountingTick(s.(timeLeft := s.timeLeft - (n - 1)));
    }
  }

  /**
   * The hundredth capture before the countdown expires activates ultra mode
   * at once; from then on ticks change nothing but the countdown, which is
   * still displayed but no longer acted on.
   */
  lemma HundredthCaptureFreezesCountdown(s: Control, n: nat)
    requires Inv(s) && s.capturesInFlight > 0 && s.demonsConsumed == DEMONS_FOR_ULTRA - 1
    requires s.timerLive
    ensures Step(s, CaptureTweenDone).ultraActivated
    ensures Run(Step(s, CaptureTweenDone), Repeat(TimerTick, n))
            == Step(s, CaptureTweenDone).(timeLeft := s.timeLeft - n)
    ensures ShownTime(Run(Step(s, CaptureTweenDone), Repeat(TimerTick, n)).timeLeft)
            == Max(0, s.timeLeft - n)
  {
    TicksInUltraMode(Step(s, CaptureTweenDone), n);
  }

  // ---------------------------------------------------------------------
  // Whole playthroughs

  /** A playthrough up to its message: press and drop a demon, let the countdown run out, reveal. */
  function RevealRound(): (es: seq<Event>)
    ensures |es| == GAME_DURATION + 3
  {
    [DemonPressed, PointerReleased(false)] + Repeat(TimerTick, GAME_DURATION) + [UltraRevealDue]
  }

  /** One playthrough: up to the message, then confirm it. */
  function PlayRound(): (es: seq<Event>)
    ensures |es| == GAME_DURATION + 4
  {
    RevealRound() + [EnterKey]
  }

  /** A press on the restart button and the end of its press tween. */
  function PressRestart(): (es: seq<Event>)
    ensures |es| == 2
  {
    [RestartPressed, RestartTweenDone]
  }

  /**
   * Whatever the play count, a playthrough in which the countdown runs out
   * ends in ultra mode showing the message the play count selects.
   */
  lemma RevealOfRound(s: Control, k: int)
    requires FreshPlay(s, k)
    ensures Run(s, RevealRound()).ultraMessageActive && Run(s, RevealRound()).introShown
    ensures Run(s, RevealRound()).messageIndex == k && Run(s, RevealRound()).playCount == k
    ensures Run(s, RevealRound()).ultraActivated && !Run(s, RevealRound()).achievementShown
    ensures !Run(s, RevealRound()).gameComplete && !Run(s, RevealRound()).restartVisible
    ensures Run(s, RevealRound()).capturesInFlight == 0 && !Run(s, RevealRound()).revealPending
    ensures !Run(s, RevealRound()).timerLive && !Run(s, RevealRound()).dragging
    ensures Run(s, RevealRound()).restartsPending == 0
  {
    var s1 := Step(Step(s, DemonPressed), PointerReleased(false));
    assert s1 == s.(timeLeft := GAME_DURATION, timerLive := true, timerActive := true);
    var ticks := Repeat(TimerTick, GAME_DURATION);
    var start := [DemonPressed, PointerReleased(false)];
    assert RevealRound() == start + ticks + [UltraRevealDue];
    RunAppend(s, start + ticks, [UltraRevealDue]);
    RunAppend(s, start, ticks);
    assert Run(s, start) == s1;
    Countdown(s1, GAME_DURATION);
    RunOne(Run(s, start + ticks), UltraRevealDue);
  }

  lemma RoundOutcome(s: Control, k: int)
    requires FreshPlay(s, k) && 0 <= k <= 2
    ensures Run(s, PlayRound()).introShown && Run(s, PlayRound()).ultraActivated
    ensures !Run(s, PlayRound()).ultraMessageActive
    ensures Run(s, PlayRound()).playCount == k
    ensures Run(s, PlayRound()).capturesInFlight == 0 && !Run(s, PlayRound()).revealPending
    ensures !Run(s, PlayRound()).timerLive && !Run(s, PlayRound()).dragging
    ensures Run(s, PlayRound()).restartsPending == 0
    ensures k < 2 ==> Run(s, PlayRound()).restartVisible && !Run(s, PlayRound()).achievementShown
                      && !Run(s, PlayRound()).gameComplete
    ensures k == 2 ==> Run(s, PlayRound()).achievementShown && !Run(s, PlayRound()).restartVisible
  {
    RevealOfRound(s, k);
    RunAppend(s, RevealRound(), [EnterKey]);
    RunOne(Run(s, RevealRound()), EnterKey);
  }

  lemma RestartAfterRound(s: Control, k: int)
    requires FreshPlay(s, k) && 0 <= k < 2
    ensures FreshPlay(Run(s, PlayRound() + PressRestart()), k + 1)
  {
    RoundOutcome(s, k);
    RunAppend(s, PlayRound(), PressRestart());
    var g := Run(s, PlayRound());
    assert Run(g, PressRestart()) == Step(Step(g, RestartPressed), RestartTweenDone);
  }

  /** The whole cycle: start, two playthroughs ended by the restart button, and a third. */
  function ThreePlaythroughs(): (es: seq<Event>)
    ensures |es| == 3 * (GAME_DURATION + 4) + 5
  {
    [EnterKey] + (PlayRound() + PressRestart()) + (PlayRound() + PressRestart()) + PlayRound()
  }

  /**
   * The full cycle: from the intro with play count 0, three playthroughs
   * (two of them ended with the restart button) reach the achievement
   * screen, and confirming it returns to the intro with play count 0.
   */
  lemma ThreePlaythroughsThenAchievement(s: Control)
    requires AtIntro(s, 0)
    ensures Run(s, ThreePlaythroughs()).achievementShown
    ensures AtIntro(Run(s, ThreePlaythroughs() + [EnterKey]), 0)
  {
    var r := PlayRound() + PressRestart();
    var a := [EnterKey] + r;
    var b := a + r;
    assert ThreePlaythroughs() == b + PlayRound();
    var s0 := Step(s, EnterKey);
    RunOne(s, EnterKey);
    RestartAfterRound(s0, 0);
    var s1 := Run(s0, r);
    RestartAfterRound(s1, 1);
    var s2 := Run(s1, r);
    RoundOutcome(s2, 2);
    var s3 := Run(s2, PlayRound());
    RunOne(s3, EnterKey);
    RunAppend(s, [EnterKey], r);
    RunAppend(s, a, r);
    RunAppend(s, b, PlayRound());
    RunAppend(s, b + PlayRound(), [EnterKey]);
  }

  // ---------------------------------------------------------------------
  // A second press on the restart button

  /**
   * As written, two presses on the restart button before the first press
   * tween ends (about 200 ms) restart the game twice. After the second
   * playthrough the play count becomes 3, so the third knowledge message
   * (number 2) is never shown: the next playthrough reveals message 3, past
   * the last of the three, and confirming it still leads to the achievement
   * screen.
   */
  lemma DoublePressAsWritten(s: Control)
    requires FreshPlay(s, 1)
    ensures
      var g := Run(s, PlayRound());
      var pressed := RestartButtonDownAsWritten(RestartButtonDownAsWritten(g));
      var next := PressTweenDoneAsWritten(PressTweenDoneAsWritten(pressed));
      && g.restartVisible && pressed.restartsPending == 2
      && FreshPlay(next, 3)
      && Run(next, RevealRound()).ultraMessageActive
      && Run(next, RevealRound()).messageIndex == KNOWLEDGE_COUNT
      && HandleEnterKey(Run(next, RevealRound())).achievementShown
      && !HandleEnterKey(Run(next, RevealRound())).restartVisible
  {
    RoundOutcome(s, 1);
    var g := Run(s, PlayRound());
    var pressed := RestartButtonDownAsWritten(RestartButtonDownAsWritten(g));
    var next := PressTweenDoneAsWritten(PressTweenDoneAsWritten(pressed));
    assert FreshPlay(next, 3);
    RevealOfRound(next, 3);
  }

  /** Restarting `n` times in a row, as written. */
  function RestartsAsWritten(s: Control, n: nat): (r: Control)
    ensures r.achievementShown == s.achievementShown
    decreases n
  {
    if n == 0 then s else RestartsAsWritten(RestartGameAsWritten(s), n - 1)
  }

  /**
   * However many restarts pile up, the play count stays within 0..3 and
   * stops at 3: each restart adds one, capped by `Math.min`.
   */
  lemma {:induction false} RestartsAsWrittenCapped(s: Control, n: nat)
    requires 0 <= s.playCount <= MAX_PLAY_COUNT && !s.achievementShown
    ensures RestartsAsWritten(s, n).playCount == Min(s.playCount + n, MAX_PLAY_COUNT)
    ensures 0 <= RestartsAsWritten(s, n).playCount <= MAX_PLAY_COUNT
    decreases n
  {
    if n > 0 {
      RestartsAsWrittenCapped(RestartGameAsWritten(s), n - 1);
    }
  }

  /**
   * With one press per showing, a second press while a restart is pending
   * changes nothing, and the two press tweens' ends restart the game once:
   * two presses and two ends are one press and one end, which steps the
   * play count once and hides the button. (At most one restart is pending
   * in every reachable state, by `Inv`.)
   */
  lemma SecondPressIgnored(s: Control)
    requires s.restartVisible && s.restartsPending <= 1
    ensures RestartButtonDown(RestartButtonDown(s)) == RestartButtonDown(s)
    ensures RestartButtonDown(s).restartsPending == 1
    ensures PressTweenDone(PressTweenDone(RestartButtonDown(RestartButtonDown(s))))
            == PressTweenDone(RestartButtonDown(s))
    ensures PressTweenDone(RestartButtonDown(s)).playCount == NextPlayCount(s.playCount, s.achievementShown)
    ensures !PressTweenDone(RestartButtonDown(s)).restartVisible
  {
    var p := RestartButtonDown(s);
    assert p.restartsPending == 1;
    assert PressTweenDone(p).restartsPending == 0;
  }

  // ---------------------------------------------------------------------
  // The timer event survives the reset paths

  /**
   * The restart button after a first playthrough won by 100 captures with
   * 20 seconds left, its press tween running: the timer is still live.
   */
  function WonByCaptures(): Control
  {
    Control(
      introShown := true, ultraActivated := true, timerActive := true,
      timerLive := true, timeLeft := 20, demonsConsumed := DEMONS_FOR_ULTRA,
      gameOver := true, playCount := 0, achievementShown := false,
      gameComplete := false, ultraMessageActive := false, messageIndex := 0,
      revealPending := false, restartVisible := true, dragging := false,
      capturesInFlight := 0, restartsPending := 1)
  }

  /** The achievement screen after a third playthrough won the same way. */
  function ThirdWonByCaptures(): Control
  {
    Control(
      introShown := true, ultraActivated := true, timerActive := true,
      timerLive := true, timeLeft := 20, demonsConsumed := DEMONS_FOR_ULTRA,
      gameOver := false, playCount := 2, achievementShown := true,
      gameComplete := true, ultraMessageActive := false, messageIndex := 2,
      revealPending := false, restartVisible := false, dragging := false,
      capturesInFlight := 0, restartsPending := 0)
  }

  /**
   * As written, neither `restartGame` nor `resetGameState` removes the timer
   * event. When ultra mode came from the hundredth capture the timer is
   * still running. After the restart button it keeps running in the next
   * playthrough: sixty ticks with no drag at all switch ultra mode on.
   * After the achievement screen it is still live on the intro screen (its
   * next tick there fails on the destroyed counter, which is not part of
   * this model). Both starting states, `WonByCaptures` and
   * `ThirdWonByCaptures`, satisfy the invariant.
   */
  lemma StaleTimerSurvivesResets()
    ensures
      var won := WonByCaptures();
      var next := PressTweenDoneAsWritten(won);
      && Inv(won) && won.restartVisible && won.restartsPending == 1
      && next.introShown && !next.timerActive && next.timerLive && !Inv(next)
      && Run(next, Repeat(TimerTick, GAME_DURATION)).ultraActivated
      && !Run(next, Repeat(TimerTick, GAME_DURATION)).timerActive
    ensures
      var done := ThirdWonByCaptures();
      var intro := HideAchievementScreenAsWritten(done);
      && Inv(done) && done.achievementShown
      && !intro.introShown && intro.timerLive && !Inv(intro)
  {
    var won := WonByCaptures();
    Countdown(PressTweenDoneAsWritten(won), GAME_DURATION);
  }

  /**
   * With the timer removed on both reset paths, no tick arrives after a
   * restart or after the achievement screen until a drag arms a new timer.
   */
  lemma ResetsDisarmTimer(s: Control, n: nat)
    requires Inv(s)
    ensures s.restartsPending > 0 ==>
              !Step(s, RestartTweenDone).timerLive
              && Run(Step(s, RestartTweenDone), Repeat(TimerTick, n)) == Step(s, RestartTweenDone)
    ensures s.introShown && !s.ultraMessageActive && s.achievementShown ==>
              !Step(s, EnterKey).timerLive
              && Run(Step(s, EnterKey), Repeat(TimerTick, n)) == Step(s, EnterKey)
  {
    if s.restartsPending > 0 {
      NoTickWithoutTimer(Step(s, RestartTweenDone), n);
    }
    if s.introShown && !s.ultraMessageActive && s.achievementShown {
      NoTickWithoutTimer(Step(s, EnterKey), n);
    }
  }
}
