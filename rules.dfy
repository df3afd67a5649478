/**
 * Constants of the game scene and the small pure rules the event handlers
 * apply: the drag clamp, the capture decision, the displayed countdown, the
 * play-count step and the ultra-mode direction flip.
 *
 * Positions are integers; the scene is 800 x 600 world units.
 */
module Rules {

  const DEMON_COUNT: nat := 10
  const DEMONS_FOR_ULTRA: nat := 100
  const CAPTURE_ZONE: int := 30
  const GAME_DURATION: int := 60
  const WIDTH: int := 800
  const HEIGHT: int := 600
  /** The highest point (smallest y) a dragged demon can reach. */
  const DRAG_TOP: int := 50
  /** Distance from each side at which a roaming demon turns round. */
  const EDGE_MARGIN: int := 50
  /** How far above its home line a demon must be lifted to be captured. */
  const LIFT_TO_CAPTURE: int := 30
  /** Number of knowledge messages; a reveal is keyed by the play count. */
  const KNOWLEDGE_COUNT: nat := 3
  /** The cap `restartGame` applies to the play count. */
  const MAX_PLAY_COUNT: int := 3

  /** The home line of every demon: `height - 5`. */
  const HOME_Y: int := HEIGHT - 5
  /** The coin's resting y, `height * 0.15`; its tween moves it 25 units either way. */
  const COIN_Y: int := HEIGHT * 15 / 100
  const COIN_SWING: int := 25

  function Abs(v: int): (r: int)
    ensures r >= 0 && (r == v || r == -v)
  {
    if v < 0 then -v else v
  }

  function Min(a: int, b: int): int { if a <= b then a else b }
  function Max(a: int, b: int): int { if a >= b then a else b }

  /**
   * Home x of the i-th demon: `width * (0.15 + i * 0.08)`, computed in
   * integers. In floating point the product carries a rounding error for
   * some i (it is 440.00000000000006 for i = 5), which this model ignores.
   */
  function HomeX(i: nat): (x: int)
    ensures x == 120 + 64 * i
  {
    WIDTH * (15 + 8 * i) / 100
  }

  /**
   * `Phaser.Math.Clamp(v, lo, hi)`, which is `Math.max(lo, Math.min(hi, v))`:
   * inside the bounds the value is kept, outside it is pulled to the nearer
   * bound; with crossed bounds the lower one wins.
   */
  function Clamp(v: int, lo: int, hi: int): (r: int)
    ensures lo <= hi ==> lo <= r <= hi
    ensures lo <= v <= hi ==> r == v
    ensures v < lo ==> r == lo
    ensures lo <= hi < v ==> r == hi
    ensures hi < lo ==> r == lo
  {
    Max(lo, Min(hi, v))
  }

  /**
   * The capture decision made when a drag ends: the demon is captured when
   * it is within `CAPTURE_ZONE * 1.5` (= 45) of the coin vertically, or when
   * it has been lifted more than `LIFT_TO_CAPTURE` above its home line.
   * With integer positions `d < 30 * 1.5` is the same as `2 * d < 3 * 30`.
   */
  predicate CapturedAt(y: int, coinY: int, homeY: int)
  {
    2 * Abs(y - coinY) < 3 * CAPTURE_ZONE || y < homeY - LIFT_TO_CAPTURE
  }

  /** The countdown as shown on screen: `Math.max(0, timeLeft)`. */
  function ShownTime(timeLeft: int): (shown: int)
    ensures shown >= 0
    ensures timeLeft >= 0 ==> shown == timeLeft
    ensures timeLeft < 0 ==> shown == 0
  {
    Max(0, timeLeft)
  }

  /**
   * The play count after `restartGame`: one more, capped at three, unless
   * the achievement screen is showing, in which case it is kept.
   */
  function NextPlayCount(playCount: int, achievementShown: bool): (next: int)
    ensures achievementShown ==> next == playCount
    ensures !achievementShown && playCount < MAX_PLAY_COUNT ==> next == playCount + 1
    ensures !achievementShown && playCount >= MAX_PLAY_COUNT ==> next == MAX_PLAY_COUNT
    ensures 0 <= playCount <= MAX_PLAY_COUNT ==> 0 <= next <= MAX_PLAY_COUNT
  {
    if !achievementShown then Min(playCount + 1, MAX_PLAY_COUNT) else playCount
  }

  /**
   * The direction rule of the frame update for a roaming demon at `x`:
   * left of the left margin it heads right, then right of the right margin
   * it heads left (the second test is applied last, so it wins on a scene
   * narrower than both margins); otherwise the direction is kept.
   */
  function NextDirection(x: int, dir: int, width: int): (r: int)
    ensures x > width - EDGE_MARGIN ==> r == -1
    ensures x < EDGE_MARGIN && x <= width - EDGE_MARGIN ==> r == 1
    ensures EDGE_MARGIN <= x <= width - EDGE_MARGIN ==> r == dir
  {
    var d := if x < EDGE_MARGIN then 1 else dir;
    if x > width - EDGE_MARGIN then -1 else d
  }

  /**
   * Horizontal advance of a roaming demon in one frame,
   * `dir * speed * delta / 1000`, with the magnitude truncated to an integer.
   */
  function Advance(dir: int, speed: nat, delta: nat): (dx: int)
    ensures dir == 1 ==> dx >= 0
    ensures dir == -1 ==> dx <= 0
    ensures Abs(dx) == Abs(dir) * (speed * delta / 1000)
  {
    dir * (speed * delta / 1000)
  }

  // ---------------------------------------------------------------------
  // Properties of the rules with the scene's own constants

  /** All demon homes lie inside the band in which roaming demons keep their direction. */
  lemma HomesInsideRoamingBand(i: nat)
    requires i < DEMON_COUNT
    ensures EDGE_MARGIN <= HomeX(i) <= WIDTH - EDGE_MARGIN
    ensures i > 0 ==> HomeX(i - 1) < HomeX(i)
  {
  }

  /**
   * A drag keeps the demon between the drag top and its home line, and a
   * pointer already inside that range is followed exactly.
   */
  lemma DragStaysOnScreen(pointerY: int)
    ensures DRAG_TOP <= Clamp(pointerY, DRAG_TOP, HOME_Y) <= HOME_Y
    ensures DRAG_TOP <= pointerY <= HOME_Y ==> Clamp(pointerY, DRAG_TOP, HOME_Y) == pointerY
  {
  }

  /**
   * While the coin is anywhere in its tween range, the capture decision for
   * a demon on the home line reduces to the lifting test: every point within
   * 45 of the coin is already more than 30 above the home line.
   */
  lemma CaptureIsLiftAboveHome(y: int, coinY: int)
    requires COIN_Y - COIN_SWING <= coinY <= COIN_Y + COIN_SWING
    ensures CapturedAt(y, coinY, HOME_Y) <==> y < HOME_Y - LIFT_TO_CAPTURE
  {
  }

  /** The concrete release points: 120 and 560 capture, 565 (and below) release. */
  lemma CaptureExamples()
    ensures HOME_Y == 595 && COIN_Y == 90
    ensures CapturedAt(120, COIN_Y, HOME_Y)
    ensures CapturedAt(560, COIN_Y, HOME_Y)
    ensures CapturedAt(564, COIN_Y, HOME_Y)
    ensures !CapturedAt(565, COIN_Y, HOME_Y)
    ensures !CapturedAt(HOME_Y, COIN_Y, HOME_Y)
  {
  }

  /** Turning at the edges, with the scene's width. */
  lemma TurnExamples()
    ensures NextDirection(WIDTH - EDGE_MARGIN + 1, 1, WIDTH) == -1
    ensures NextDirection(WIDTH - EDGE_MARGIN, 1, WIDTH) == 1
    ensures NextDirection(EDGE_MARGIN - 1, -1, WIDTH) == 1
    ensures NextDirection(EDGE_MARGIN, -1, WIDTH) == -1
  {
  }

  /**
   * A demon that has reached a side margin turns on the next frame, as
   * long as that frame advances it by at least one whole pixel; a frame
   * whose advance truncates to zero leaves it standing on the margin with
   * its direction kept.
   */
  lemma TurnAfterReachingMargin(speed: nat, delta: nat)
    ensures speed * delta >= 1000 ==>
              && NextDirection(WIDTH - EDGE_MARGIN + Advance(1, speed, delta), 1, WIDTH) == -1
              && NextDirection(EDGE_MARGIN + Advance(-1, speed, delta), -1, WIDTH) == 1
    ensures speed * delta < 1000 ==>
              && Advance(1, speed, delta) == 0 && Advance(-1, speed, delta) == 0
              && NextDirection(WIDTH - EDGE_MARGIN + Advance(1, speed, delta), 1, WIDTH) == 1
              && NextDirection(EDGE_MARGIN + Advance(-1, speed, delta), -1, WIDTH) == -1
  {
  }
}
