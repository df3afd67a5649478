/**
 * The scene's mutable state and its event handlers: `gameState` becomes the
 * class `GameState`, each demon sprite a `Demon` object whose fields the
 * handlers update in place. Every handler is a method whose new scalar
 * state is the matching function of `Session` applied to the old one, so
 * the lemmas proved there (the invariant, the countdown, the full cycle)
 * hold of this implementation.
 *
 * The engine's pending callbacks are fields: `capturing` holds the demons
 * whose capture tween is running, `respawning` those with a pending 2000 ms
 * respawn call, `revealPending` the 1500 ms reveal call, `timerLive` the
 * repeating timer event.
 */
module Game {
  import opened Rules
  import Session

  /**
   * The two random draws `activateUltraMode` makes for one demon:
   * `Phaser.Math.Between(0, 1)` for the direction and
   * `Phaser.Math.Between(100, 200)` for the speed.
   */
  datatype RunDraw = RunDraw(coin: int, speed: nat)

  predicate ValidDraw(r: RunDraw)
  {
    0 <= r.coin <= 1 && 100 <= r.speed <= 200
  }

  /** The direction a draw stands for: `Between(0, 1) ? 1 : -1`. */
  function DrawDirection(r: RunDraw): (dir: int)
    ensures dir == 1 || dir == -1
    ensures ValidDraw(r) ==> (dir == 1 <==> r.coin == 1)
  {
    if r.coin != 0 then 1 else -1
  }

  class Demon {
    var x: int
    var y: int
    const originalX: int
    const originalY: int
    var isBeingCaptured: bool
    /** Whether the sprite receives pointer input (`setInteractive` / `disableInteractive`). */
    var interactive: bool
    var isRunning: bool
    var runDirection: int
    var runSpeed: nat

    constructor (homeX: int, homeY: int)
      ensures x == originalX == homeX && y == originalY == homeY
      ensures !isBeingCaptured && interactive && !isRunning
    {
      x, y := homeX, homeY;
      originalX, originalY := homeX, homeY;
      isBeingCaptured := false;
      interactive := true;
      isRunning := false;
      runDirection, runSpeed := 0, 0;
    }
  }

  /** A demon as `setupDemons` creates the i-th one: at home, idle and interactive. */
  ghost predicate NewDemon(d: Demon, i: nat)
    reads d
  {
    && d.originalX == HomeX(i) && d.originalY == HOME_Y
    && d.x == d.originalX && d.y == d.originalY
    && !d.isBeingCaptured && d.interactive && !d.isRunning
  }

  ghost predicate Distinct(ds: seq<Demon>)
  {
    forall i, j :: 0 <= i < j < |ds| ==> ds[i] != ds[j]
  }

  class GameState {
    /**
     * The scalar fields of `gameState`, kept as one record so that the
     * handlers below step it exactly as the functions of `Session` do;
     * `control.dragging` and `control.capturesInFlight` mirror
     * `draggedDemon` and `capturing`.
     */
    var control: Session.Control
    var demons: seq<Demon>
    var draggedDemon: Demon?
    var lastPointerY: int
    /** The demons whose capture tween is running. */
    var capturing: set<Demon>
    /** The demons with a pending 2000 ms respawn call. */
    var respawning: set<Demon>

    /**
     * The demons of the scene: ten distinct ones at their homes while
     * playing and none on the intro screen, the dragged demon one of them
     * and neither being captured nor waiting to respawn, and a demon being
     * captured or waiting to respawn (possibly one destroyed since) marked
     * as being captured and not interactive.
     */
    ghost predicate Scene()
      reads this, capturing`interactive, respawning`interactive
      reads capturing`isBeingCaptured, respawning`isBeingCaptured
    {
      && Distinct(demons)
      && (control.introShown ==> |demons| == DEMON_COUNT)
      && (!control.introShown ==> demons == [])
      && (forall i :: 0 <= i < |demons| ==>
            demons[i].originalX == HomeX(i) && demons[i].originalY == HOME_Y)
      && (draggedDemon != null ==>
            draggedDemon in demons && draggedDemon !in capturing && draggedDemon !in respawning)
      && (forall d :: d in capturing ==> d in demons && !d.interactive && d !in respawning)
      && (forall d :: d in respawning ==> !d.interactive)
      && (forall d :: d in capturing ==> d.isBeingCaptured)
      && (forall d :: d in respawning ==> d.isBeingCaptured)
    }

    /** The object invariant: the session invariant, the mirrored fields, a consistent scene. */
    ghost predicate Valid()
      reads this, capturing`interactive, respawning`interactive
      reads capturing`isBeingCaptured, respawning`isBeingCaptured
    {
      && Session.Inv(control)
      && control.dragging == (draggedDemon != null)
      && control.capturesInFlight == |capturing|
      && Scene()
    }

    /** `create`: the `gameState` literal, then `showIntro`, which resets it. */
    constructor ()
      ensures Valid() && control == Session.Initial()
      ensures demons == [] && draggedDemon == null && capturing == {} && respawning == {}
    {
      control := Session.Control(
        introShown := false, ultraActivated := false, timerActive := false,
        timerLive := false, timeLeft := GAME_DURATION, demonsConsumed := 0,
        gameOver := false, playCount := 0, achievementShown := false,
        gameComplete := false, ultraMessageActive := false, messageIndex := 0,
        revealPending := false, restartVisible := false, dragging := false,
        capturesInFlight := 0, restartsPending := 0);
      demons := [];
      draggedDemon := null;
      lastPointerY := 0;
      capturing := {};
      respawning := {};
      new;
      ResetGameState();
    }

    // -------------------------------------------------------------------
    // Reset paths

    /**
     * `resetGameState`: destroys the demons and the overlays and clears the
     * per-playthrough fields, keeping the play count; it also removes the
     * timer event (see the findings). Both callers reach it with no capture
     * in flight, no reveal pending and no restart pending.
     */
    method ResetGameState()
      requires Valid() && capturing == {} && !control.revealPending && control.restartsPending == 0
      modifies this`control, this`demons, this`draggedDemon
      ensures Valid() && control == Session.ResetGameState(old(control))
      ensures Session.AtIntro(control, old(control.playCount))
      ensures demons == [] && draggedDemon == null && capturing == {}
      ensures respawning == old(respawning) && lastPointerY == old(lastPointerY)
    {
      // the knowledge message is destroyed, the restart button too
      control := control.(ultraMessageActive := false, restartVisible := false);
      demons := [];
      draggedDemon := null;
      control := control.(dragging := false, demonsConsumed := 0, ultraActivated := false,
                          timerActive := false, timeLeft := GAME_DURATION, gameOver := false,
                          introShown := false, gameComplete := false, achievementShown := false);
      control := control.(timerLive := false);
    }

    /**
     * `setupDemons`: ten new demons, the i-th at home x `HomeX(i)` on the
     * home line.
     */
    method SetupDemons()
      modifies this`demons
      ensures |demons| == DEMON_COUNT && Distinct(demons)
      ensures forall i :: 0 <= i < DEMON_COUNT ==> fresh(demons[i]) && NewDemon(demons[i], i)
    {
      demons := [];
      for i := 0 to DEMON_COUNT
        invariant |demons| == i && Distinct(demons)
        invariant forall k :: 0 <= k < i ==> fresh(demons[k]) && NewDemon(demons[k], k)
      {
        var demon := new Demon(HomeX(i), HOME_Y);
        demons := demons + [demon];
      }
    }

    /**
     * The restart button's `pointerdown`: it starts the press tween, at
     * whose end the game restarts. The button takes one press per showing
     * (see the findings), so a press while a restart is pending is ignored.
     */
    method RestartButtonDown()
      requires Valid()
      modifies this`control
      ensures Valid() && control == Session.RestartButtonDown(old(control))
    {
      Session.StepPreservesInv(control, Session.RestartPressed);
      if control.restartVisible && control.restartsPending == 0 {
        control := control.(restartsPending := 1);
      }
    }

    /** The end of the restart button's press tween: the pending restart runs. */
    method PressTweenDone()
      requires Valid()
      modifies this`control, this`demons, this`draggedDemon
      ensures Valid() && control == Session.PressTweenDone(old(control))
      ensures capturing == old(capturing) && respawning == old(respawning)
      ensures old(control.restartsPending) > 0 ==>
                && draggedDemon == null && |demons| == DEMON_COUNT
                && forall i :: 0 <= i < DEMON_COUNT ==> fresh(demons[i]) && NewDemon(demons[i], i)
      ensures old(control.restartsPending) == 0 ==>
                demons == old(demons) && draggedDemon == old(draggedDemon)
    {
      if control.restartsPending > 0 {
        control := control.(restartsPending := control.restartsPending - 1);
        RestartGame();
      }
    }

    /**
     * `restartGame`, run at the end of the restart button's press tween
     * (while the button is shown): the old demons are destroyed, the
     * counters cleared, the play count stepped, the timer event removed
     * (see the findings) and ten new demons set up.
     */
    method RestartGame()
      requires Valid() && control.restartVisible && control.restartsPending == 0
      modifies this`control, this`demons, this`draggedDemon
      ensures Valid() && control == Session.RestartGame(old(control))
      ensures draggedDemon == null && capturing == {} && respawning == old(respawning)
      ensures |demons| == DEMON_COUNT
      ensures forall i :: 0 <= i < DEMON_COUNT ==> fresh(demons[i]) && NewDemon(demons[i], i)
    {
      Session.StepPreservesInv(control.(restartsPending := 1), Session.RestartTweenDone);
      control := control.(ultraMessageActive := false, restartVisible := false);
      draggedDemon := null;
      control := control.(dragging := false, demonsConsumed := 0, ultraActivated := false,
                          timerActive := false, timeLeft := GAME_DURATION, gameOver := false);
      if !control.achievementShown {
        control := control.(playCount := Min(control.playCount + 1, MAX_PLAY_COUNT));
      }
      control := control.(timerLive := false);
      SetupDemons();
    }

    // -------------------------------------------------------------------
    // Confirm key

    /** `handleEnterKey`: start, hide the knowledge message, or leave the achievement screen. */
    method HandleEnterKey()
      requires Valid()
      modifies this`control, this`demons, this`draggedDemon
      ensures Valid() && control == Session.HandleEnterKey(old(control))
      ensures capturing == old(capturing) && respawning == old(respawning)
      ensures !old(control.introShown) ==>
                && draggedDemon == null && |demons| == DEMON_COUNT
                && forall i :: 0 <= i < DEMON_COUNT ==> fresh(demons[i]) && NewDemon(demons[i], i)
      ensures old(control.introShown) && !old(control.ultraMessageActive) && old(control.achievementShown) ==>
                demons == [] && draggedDemon == null
      ensures old(control.introShown) && (old(control.ultraMessageActive) || !old(control.achievementShown)) ==>
                demons == old(demons) && draggedDemon == old(draggedDemon)
    {
      if !control.introShown {
        StartGame();
      } else if control.ultraMessageActive {
        HideUltraMessage();
      } else if control.achievementShown {
        HideAchievementScreen();
      }
    }

    /** `startGame`: the demons are set up (with the coin and a hidden restart button). */
    method StartGame()
      requires Valid() && !control.introShown
      modifies this`control, this`demons
      ensures Valid() && control == Session.StartGame(old(control))
      ensures draggedDemon == null && |demons| == DEMON_COUNT
      ensures forall i :: 0 <= i < DEMON_COUNT ==> fresh(demons[i]) && NewDemon(demons[i], i)
    {
      SetupDemons();
      control := control.(restartVisible := false);
      control := control.(introShown := true);
    }

    /**
     * `hideUltraMessage`: the message goes; the achievement screen follows
     * from the third playthrough on, the restart button before that.
     */
    method HideUltraMessage()
      requires Valid() && control.introShown && control.ultraMessageActive
      modifies this`control
      ensures Valid() && control == Session.HideUltraMessage(old(control))
      ensures demons == old(demons) && draggedDemon == old(draggedDemon)
      ensures capturing == old(capturing) && respawning == old(respawning)
    {
      control := control.(ultraMessageActive := false);
      if control.playCount >= 2 {
        control := control.(achievementShown := true, gameComplete := true);
      } else {
        control := control.(gameOver := true, restartVisible := true);
      }
    }

    /** `hideAchievementScreen`: reset, play count to zero, and `showIntro` resets again. */
    method HideAchievementScreen()
      requires Valid() && control.introShown && !control.ultraMessageActive
      requires control.achievementShown
      modifies this`control, this`demons, this`draggedDemon
      ensures Valid() && control == Session.HideAchievementScreen(old(control))
      ensures Session.AtIntro(control, 0) && demons == [] && draggedDemon == null
    {
      ResetGameState();
      control := control.(playCount := 0);
      ResetGameState();
    }

    // -------------------------------------------------------------------
    // Dragging

    /** `startTimer`: a new repeating timer event counting down from 60. */
    method StartTimer()
      modifies this`control
      ensures control == Session.StartTimer(old(control))
    {
      control := control.(timeLeft := GAME_DURATION);
      control := control.(timerLive := true);
    }

    /**
     * The `pointerdown` listener of a demon (the engine calls it only for
     * an interactive demon of the current playthrough): ignored in ultra
     * mode and after game over; otherwise the first press arms the timer
     * and the demon becomes the dragged one.
     */
    method DemonPointerDown(demon: Demon, pointerY: int)
      requires Valid() && demon in demons && demon.interactive
      modifies this`control, this`lastPointerY, this`draggedDemon
      ensures Valid() && control == Session.DemonPointerDown(old(control))
      ensures !old(control.ultraActivated) && !old(control.gameOver) ==>
                draggedDemon == demon && lastPointerY == pointerY
      ensures old(control.ultraActivated) || old(control.gameOver) ==>
                draggedDemon == old(draggedDemon) && lastPointerY == old(lastPointerY)
      ensures demons == old(demons) && capturing == old(capturing) && respawning == old(respawning)
    {
      if !control.ultraActivated && !control.gameOver {
        if !control.timerActive {
          StartTimer();
          control := control.(timerActive := true);
        }
        // onDemonDragStart
        lastPointerY := pointerY;
        draggedDemon := demon;
        control := control.(dragging := true);
      }
    }

    /**
     * The `pointermove` listener with `onDemonDragMove`: the dragged demon
     * follows the pointer vertically, clamped between the drag top and its
     * home line; nothing else changes.
     */
    method PointerMove(pointerY: int)
      requires Valid()
      modifies draggedDemon
      ensures Valid()
      ensures draggedDemon != null && !control.ultraActivated ==>
                && draggedDemon.y == Clamp(pointerY, DRAG_TOP, draggedDemon.originalY)
                && DRAG_TOP <= draggedDemon.y <= HOME_Y
      ensures draggedDemon != null && control.ultraActivated ==> draggedDemon.y == old(draggedDemon.y)
      ensures draggedDemon != null ==>
                && draggedDemon.x == old(draggedDemon.x)
                && draggedDemon.interactive == old(draggedDemon.interactive)
                && draggedDemon.isBeingCaptured == old(draggedDemon.isBeingCaptured)
                && draggedDemon.isRunning == old(draggedDemon.isRunning)
                && draggedDemon.runDirection == old(draggedDemon.runDirection)
                && draggedDemon.runSpeed == old(draggedDemon.runSpeed)
    {
      if draggedDemon != null && !control.ultraActivated {
        var demon := draggedDemon;
        demon.y := Clamp(pointerY, DRAG_TOP, demon.originalY);
      }
    }

    /** Whether ending the drag now, with the coin at `coinY`, captures the dragged demon. */
    ghost predicate ReleaseCaptures(coinY: int)
      reads this, draggedDemon
    {
      draggedDemon != null && CapturedAt(draggedDemon.y, coinY, draggedDemon.originalY)
    }

    /**
     * The `pointerup` listener with `onDemonDragEnd`, the coin being at
     * `coinY`: a dragged demon is captured (its input is disabled and its
     * capture tween starts) when `CapturedAt` holds and released to fall
     * home otherwise; either way no demon is dragged afterwards.
     */
    method PointerUp(coinY: int)
      requires Valid()
      modifies this`draggedDemon, this`control, this`capturing, draggedDemon
      ensures Valid()
      ensures control == Session.DemonDragEnd(old(control), old(ReleaseCaptures(coinY)))
      ensures old(draggedDemon) != null && !old(control.ultraActivated) ==> draggedDemon == null
      ensures old(draggedDemon) == null || old(control.ultraActivated) ==> draggedDemon == old(draggedDemon)
      ensures old(draggedDemon) != null && !old(control.ultraActivated) && old(ReleaseCaptures(coinY)) ==>
                && capturing == old(capturing) + {old(draggedDemon)}
                && old(draggedDemon).isBeingCaptured && !old(draggedDemon).interactive
      ensures !(old(draggedDemon) != null && !old(control.ultraActivated) && old(ReleaseCaptures(coinY))) ==>
                && capturing == old(capturing)
                && (old(draggedDemon) != null ==> unchanged(old(draggedDemon)))
      ensures demons == old(demons) && respawning == old(respawning)
      ensures old(draggedDemon) != null ==>
                && old(draggedDemon).x == old(draggedDemon.x) && old(draggedDemon).y == old(draggedDemon.y)
                && old(draggedDemon).isRunning == old(draggedDemon.isRunning)
                && old(draggedDemon).runDirection == old(draggedDemon.runDirection)
                && old(draggedDemon).runSpeed == old(draggedDemon.runSpeed)
    {
      if draggedDemon != null && !control.ultraActivated {
        if CapturedAt(draggedDemon.y, coinY, draggedDemon.originalY) {
          CaptureDragged();
        } else {
          ReleaseDragged();
        }
      }
    }

    /** `releaseDemon`: gravity brings the sprite back to its home line, and no demon is dragged. */
    method ReleaseDragged()
      requires Valid() && draggedDemon != null && !control.ultraActivated
      modifies this`draggedDemon, this`control
      ensures Valid() && draggedDemon == null
      ensures control == Session.DemonDragEnd(old(control), false)
    {
      draggedDemon := null;
      control := control.(dragging := false);
    }

    /** A drag that ends in a capture: `captureDemon`, then no demon is dragged. */
    method CaptureDragged()
      requires Valid() && draggedDemon != null && !control.ultraActivated
      modifies this`draggedDemon, this`control, this`capturing
      modifies draggedDemon`isBeingCaptured, draggedDemon`interactive
      ensures Valid() && draggedDemon == null
      ensures control == Session.DemonDragEnd(old(control), true)
      ensures capturing == old(capturing) + {old(draggedDemon)}
      ensures old(draggedDemon).isBeingCaptured && !old(draggedDemon).interactive
      ensures old(draggedDemon).x == old(draggedDemon.x) && old(draggedDemon).y == old(draggedDemon.y)
      ensures old(draggedDemon).isRunning == old(draggedDemon.isRunning)
      ensures old(draggedDemon).runDirection == old(draggedDemon.runDirection)
      ensures old(draggedDemon).runSpeed == old(draggedDemon.runSpeed)
    {
      var demon := draggedDemon;
      assert demon !in capturing;
      CaptureDemon(demon);
      assert |capturing| == |old(capturing)| + 1;
      draggedDemon := null;
      control := control.(dragging := false);
    }

    /**
     * `captureDemon`: the demon is marked as being captured, stops taking
     * input, and its capture tween towards the coin starts.
     */
    method CaptureDemon(demon: Demon)
      modifies this`capturing, this`control, demon`isBeingCaptured, demon`interactive
      ensures demon.isBeingCaptured && !demon.interactive
      ensures demon.x == old(demon.x) && demon.y == old(demon.y)
      ensures demon.isRunning == old(demon.isRunning) && demon.runDirection == old(demon.runDirection)
      ensures demon.runSpeed == old(demon.runSpeed)
      ensures capturing == old(capturing) + {demon}
      ensures control == old(control).(capturesInFlight := old(control.capturesInFlight) + 1)
    {
      demon.isBeingCaptured := true;
      demon.interactive := false;
      capturing := capturing + {demon};
      control := control.(capturesInFlight := control.capturesInFlight + 1);
    }

    // -------------------------------------------------------------------
    // Ultra mode, capture completion and the countdown

    /**
     * What ultra mode does to one demon, with its draws: input disabled,
     * roaming in the drawn direction at the drawn speed, where it stood.
     */
    twostate predicate Unleashed(demon: Demon, draw: RunDraw)
      reads demon
    {
      && demon.isRunning && !demon.interactive
      && demon.runDirection == DrawDirection(draw) && demon.runSpeed == draw.speed
      && demon.x == old(demon.x) && demon.y == old(demon.y)
      && demon.isBeingCaptured == old(demon.isBeingCaptured)
    }

    /** The loop body of `activateUltraMode` for one demon (its tweens are killed and replaced). */
    method Unleash(demon: Demon, draw: RunDraw)
      modifies demon
      ensures Unleashed(demon, draw)
    {
      demon.interactive := false;
      demon.isRunning := true;
      demon.runDirection := DrawDirection(draw);
      demon.runSpeed := draw.speed;
    }

    /** The `forEach` loop of `activateUltraMode`: every demon with its own draws. */
    method UnleashAll(draws: seq<RunDraw>)
      requires Distinct(demons) && |draws| == |demons|
      modifies demons
      ensures forall i :: 0 <= i < |demons| ==> Unleashed(demons[i], draws[i])
    {
      for i := 0 to |demons|
        invariant forall k :: 0 <= k < i ==> Unleashed(demons[k], draws[k])
        invariant forall k :: i <= k < |demons| ==> unchanged(demons[k])
      {
        Unleash(demons[i], draws[i]);
      }
    }

    /**
     * The state part of `activateUltraMode`: the latch, then for every
     * demon its tweens killed (a capture in flight never completes), input
     * disabled and roaming started with the drawn direction and speed, and
     * the reveal scheduled.
     */
    method ActivateUltraMode(draws: seq<RunDraw>)
      requires Scene() && |draws| == |demons| && forall i :: 0 <= i < |draws| ==> ValidDraw(draws[i])
      modifies this`control, this`capturing, demons
      ensures Scene()
      ensures control == Session.ActivateUltraMode(old(control)) && capturing == {}
      ensures forall i :: 0 <= i < |demons| ==> Unleashed(demons[i], draws[i])
    {
      control := control.(ultraActivated := true, capturesInFlight := 0, revealPending := true);
      Stampede(draws);
    }

    /**
     * The `forEach` loop of `activateUltraMode` as seen by the scene: every
     * demon unleashed, and with every tween killed no capture is left in flight.
     */
    method Stampede(draws: seq<RunDraw>)
      requires Scene() && |draws| == |demons|
      modifies this`capturing, demons
      ensures Scene() && capturing == {}
      ensures forall i :: 0 <= i < |demons| ==> Unleashed(demons[i], draws[i])
    {
      UnleashAll(draws);
      capturing := {};
    }

    /** Outside ultra mode a consumed demon goes back home, hidden, and its respawn is scheduled. */
    method SendHome(demon: Demon)
      requires Scene() && demon !in capturing && !demon.interactive && demon.isBeingCaptured
      requires demon != draggedDemon
      modifies this`respawning, demon`x, demon`y
      ensures Scene()
      ensures demon.x == demon.originalX && demon.y == demon.originalY
      ensures respawning == old(respawning) + {demon}
    {
      demon.x, demon.y := demon.originalX, demon.originalY;
      respawning := respawning + {demon};
    }

    /**
     * The completion of `demon`'s capture tween: one more demon consumed,
     * ultra mode on at the threshold or after the countdown ran out, and
     * outside ultra mode the demon back home, hidden, with its respawn
     * scheduled.
     */
    method CaptureComplete(demon: Demon, draws: seq<RunDraw>)
      requires Valid() && demon in capturing && |draws| == |demons|
      requires forall i :: 0 <= i < |draws| ==> ValidDraw(draws[i])
      modifies this`control, this`capturing, this`respawning, demons
      ensures Valid() && control == Session.CaptureComplete(old(control))
      ensures demons == old(demons) && demon in demons
      ensures !control.ultraActivated ==>
                && demon.x == demon.originalX && demon.y == demon.originalY
                && demon.isBeingCaptured == old(demon.isBeingCaptured) && demon.interactive == old(demon.interactive)
                && demon.isRunning == old(demon.isRunning) && demon.runDirection == old(demon.runDirection)
                && demon.runSpeed == old(demon.runSpeed)
                && capturing == old(capturing) - {demon}
                && respawning == old(respawning) + {demon}
                && forall i :: 0 <= i < |demons| && demons[i] != demon ==> unchanged(demons[i])
      ensures control.ultraActivated ==>
                && capturing == {} && respawning == old(respawning)
                && forall i :: 0 <= i < |demons| ==> Unleashed(demons[i], draws[i])
    {
      // a capture is in flight, so ultra mode is off
      assert |capturing| > 0;
      Session.CaptureCompleteInv(control);
      if control.demonsConsumed + 1 >= DEMONS_FOR_ULTRA || control.timeLeft <= 0 {
        CompleteIntoUltraMode(draws);
      } else {
        CompleteAndSendHome(demon);
      }
    }

    /** The completion that reaches the threshold, or comes after the countdown ran out. */
    method CompleteIntoUltraMode(draws: seq<RunDraw>)
      requires Scene() && |draws| == |demons| && !control.ultraActivated && control.capturesInFlight > 0
      requires control.demonsConsumed + 1 >= DEMONS_FOR_ULTRA || control.timeLeft <= 0
      modifies this`control, this`capturing, demons
      ensures Scene() && capturing == {}
      ensures control == Session.CaptureComplete(old(control))
      ensures forall i :: 0 <= i < |demons| ==> Unleashed(demons[i], draws[i])
    {
      control := control.(demonsConsumed := control.demonsConsumed + 1, ultraActivated := true,
                          capturesInFlight := 0, revealPending := true);
      Stampede(draws);
    }

    /** Any other completion: the demon is consumed and sent home. */
    method CompleteAndSendHome(demon: Demon)
      requires Scene() && demon in capturing && control.capturesInFlight == |capturing|
      requires demon != draggedDemon && !control.ultraActivated
      requires !(control.demonsConsumed + 1 >= DEMONS_FOR_ULTRA || control.timeLeft <= 0)
      modifies this`control, this`capturing, this`respawning, demon`x, demon`y
      ensures Scene() && control.capturesInFlight == |capturing|
      ensures control == Session.CaptureComplete(old(control))
      ensures capturing == old(capturing) - {demon}
      ensures demon.x == demon.originalX && demon.y == demon.originalY
      ensures respawning == old(respawning) + {demon}
    {
      Consume(demon);
      control := control.(demonsConsumed := control.demonsConsumed + 1,
                          capturesInFlight := control.capturesInFlight - 1);
      SendHome(demon);
    }

    /** The capture tween of `demon` ends. */
    method Consume(demon: Demon)
      requires Scene() && demon in capturing
      modifies this`capturing
      ensures Scene() && capturing == old(capturing) - {demon} && |capturing| == |old(capturing)| - 1
    {
      var rest := capturing - {demon};
      assert capturing == rest + {demon};
      capturing := rest;
    }

    /**
     * `updateTimer`, run by the live timer each second: the countdown drops
     * by one and `shown` is the value the counter displays; at zero outside
     * ultra mode the timer removes itself and ultra mode activates.
     */
    method TimerTick(draws: seq<RunDraw>) returns (shown: int)
      requires Valid() && control.timerLive && |draws| == |demons|
      requires forall i :: 0 <= i < |draws| ==> ValidDraw(draws[i])
      modifies this`control, this`capturing, demons
      ensures Valid() && control == Session.UpdateTimer(old(control))
      ensures shown == ShownTime(control.timeLeft)
      ensures demons == old(demons) && draggedDemon == old(draggedDemon)
      ensures respawning == old(respawning)
      ensures old(control.ultraActivated) || control.timeLeft > 0 ==>
                unchanged(demons) && capturing == old(capturing)
      ensures !old(control.ultraActivated) && control.timeLeft <= 0 ==>
                && capturing == {}
                && forall i :: 0 <= i < |demons| ==> Unleashed(demons[i], draws[i])
    {
      Session.StepPreservesInv(control, Session.TimerTick);
      control := control.(timeLeft := control.timeLeft - 1);
      shown := ShownTime(control.timeLeft);
      if control.timeLeft <= 0 && !control.ultraActivated {
        control := control.(timerLive := false);
        ActivateUltraMode(draws);
      }
    }

    /**
     * `showUltraMessage`, run 1500 ms after activation: the knowledge
     * message numbered by the play count, which is always one of the three.
     */
    method ShowUltraMessage() returns (index: int)
      requires Valid() && control.revealPending
      modifies this`control
      ensures Valid() && control == Session.ShowUltraMessage(old(control))
      ensures demons == old(demons) && draggedDemon == old(draggedDemon)
      ensures capturing == old(capturing) && respawning == old(respawning)
      ensures index == control.messageIndex && 0 <= index < KNOWLEDGE_COUNT
    {
      index := control.playCount;
      control := control.(ultraMessageActive := true, messageIndex := index);
      control := control.(revealPending := false);
    }

    /**
     * The 2000 ms respawn call of a captured demon: it takes input again.
     * `isBeingCaptured` is never cleared, so the guard always holds; for a
     * demon destroyed by a restart the call has no effect on the game.
     */
    method Respawn(demon: Demon)
      requires Valid() && demon in respawning
      modifies this`respawning, demon`interactive
      ensures Valid() && control == old(control)
      ensures respawning == old(respawning) - {demon}
      ensures demon.isBeingCaptured
      ensures demon in demons ==> demon.interactive
      ensures !(demon in demons && demon.isBeingCaptured) ==> demon.interactive == old(demon.interactive)
      ensures demon.x == old(demon.x) && demon.y == old(demon.y)
    {
      respawning := respawning - {demon};
      if demon.isBeingCaptured && demon in demons {
        demon.interactive := true;
      }
    }

    /**
     * One frame of `delta` ms for a roaming demon: it advances by `Advance`
     * in its direction and then turns at the side margins; its height,
     * speed and input state stay as they were.
     */
    method Roam(demon: Demon, delta: nat)
      requires demon.isRunning
      modifies demon
      ensures Roamed(demon, delta)
    {
      demon.x := demon.x + Advance(demon.runDirection, demon.runSpeed, delta);
      if demon.x < EDGE_MARGIN {
        demon.runDirection := 1;
      }
      if demon.x > WIDTH - EDGE_MARGIN {
        demon.runDirection := -1;
      }
    }

    /** What `update` does to one demon in ultra mode: a roaming one moves and turns, any other stays. */
    twostate predicate Roamed(demon: Demon, delta: nat)
      reads demon
    {
      && demon.y == old(demon.y) && demon.isRunning == old(demon.isRunning)
      && demon.interactive == old(demon.interactive) && demon.runSpeed == old(demon.runSpeed)
      && demon.isBeingCaptured == old(demon.isBeingCaptured)
      && (old(demon.isRunning) ==>
            && demon.x == old(demon.x) + Advance(old(demon.runDirection), demon.runSpeed, delta)
            && demon.runDirection == NextDirection(demon.x, old(demon.runDirection), WIDTH))
      && (!old(demon.isRunning) ==> demon.x == old(demon.x) && demon.runDirection == old(demon.runDirection))
    }

    /**
     * The position part of `update`, run every frame of `delta` ms: in
     * ultra mode every demon is stepped by `Roam` if it is roaming;
     * outside ultra mode no demon moves.
     */
    method Update(delta: nat)
      requires Valid()
      modifies demons
      ensures Valid()
      ensures !(control.introShown && control.ultraActivated) ==> unchanged(demons)
      ensures control.introShown && control.ultraActivated ==>
                forall i :: 0 <= i < |demons| ==> Roamed(demons[i], delta)
    {
      if control.introShown && control.ultraActivated {
        for i := 0 to |demons|
          invariant forall k :: 0 <= k < i ==> Roamed(demons[k], delta)
          invariant forall k :: i <= k < |demons| ==> unchanged(demons[k])
        {
          var demon := demons[i];
          if demon.isRunning {
            Roam(demon, delta);
          }
        }
      }
    }
  }
}
