/**
 * The player token: its angle around the arena, turned by the arrow keys once
 * per fast tick, and wrapped back into [0, 360] by a single correction.
 */
module PlayerControl {
  import opened Lanes

  /**
   * Direction chosen by the arrow keys held this frame: -1 for Left, +1 for
   * Right, 0 for neither; Right overrides Left when both are held.
   */
  function Direction(leftPressed: bool, rightPressed: bool): (d: int)
    ensures -1 <= d <= 1
    ensures d == 0 <==> !leftPressed && !rightPressed
    ensures rightPressed ==> d == 1
    ensures leftPressed && !rightPressed ==> d == -1
  {
    if rightPressed then 1 else if leftPressed then -1 else 0
  }

  /** The angles the player can hold: even degrees from 0 to 360, both ends included. */
  predicate InRange(angle: int)
  {
    0 <= angle <= FULL_TURN && angle % SPEED == 0
  }

  /**
   * Angle after one turning step of `direction`: the raw sum `angle + direction * SPEED`,
   * corrected by at most one full turn and left alone when it is already in [0, 360].
   */
  function TurnedAngle(angle: int, direction: int): (r: int)
    ensures var raw := angle + direction * SPEED;
      r == raw || r == raw - FULL_TURN || r == raw + FULL_TURN
    ensures 0 <= angle + direction * SPEED <= FULL_TURN ==> r == angle + direction * SPEED
    ensures InRange(angle) && -1 <= direction <= 1 ==> InRange(r)
  {
    var raw := angle + direction * SPEED;
    var once := if raw > FULL_TURN then raw - FULL_TURN else raw;
    if once < 0 then once + FULL_TURN else once
  }

  /** The two ends of the range are kept apart: 360 is never folded to 0, nor 0 to 360. */
  lemma TurnKeepsEnds(angle: int, direction: int)
    requires InRange(angle) && -1 <= direction <= 1
    ensures TurnedAngle(angle, direction) == FULL_TURN <==> angle + direction * SPEED == FULL_TURN
    ensures TurnedAngle(angle, direction) == 0 <==> angle + direction * SPEED == 0
  {
  }

  class Player {
    /** Degrees, clockwise from the top of the arena. */
    var angle: int

    ghost predicate Valid()
      reads this
    {
      InRange(angle)
    }

    constructor ()
      ensures Valid() && angle == 0
    {
      angle := 0;
    }

    /**
     * One frame of player control. With no arrow key held it returns at once
     * and neither consults the fast timer nor moves; otherwise it ticks the
     * timer and, when the timer has just finished, turns one step.
     * `timerFinished` is what ticking the timer this frame reports.
     */
    method Control(leftPressed: bool, rightPressed: bool, timerFinished: bool) returns (tickedTimer: bool)
      requires Valid()
      modifies this
      ensures Valid()
      ensures tickedTimer <==> leftPressed || rightPressed
      ensures angle == if tickedTimer && timerFinished
        then TurnedAngle(old(angle), Direction(leftPressed, rightPressed))
        else old(angle)
    {
      var direction := 0;
      if leftPressed {
        direction := -1;
      }
      if rightPressed {
        direction := 1;
      }
      if direction == 0 {
        return false;
      }
      tickedTimer := true;
      if timerFinished {
        var newAngle := angle + direction * SPEED;
        if newAngle > FULL_TURN {
          newAngle := newAngle - FULL_TURN;
        }
        if newAngle < 0 {
          newAngle := newAngle + FULL_TURN;
        }
        angle := newAngle;
      }
    }
  }

  /** The keys held in one frame and whether the fast timer finished in it. */
  datatype Frame = Frame(leftPressed: bool, rightPressed: bool, timerFinished: bool)

  /** The step a frame turns the player by: the key direction when the timer finished, else 0. */
  function FrameTurn(f: Frame): int
  {
    if f.timerFinished then Direction(f.leftPressed, f.rightPressed) else 0
  }

  /** The angle after a sequence of frames, each one applied as `Player.Control` applies it. */
  function AngleAfter(angle: int, frames: seq<Frame>): int
    decreases |frames|
  {
    if frames == [] then angle
    else
      var f := frames[0];
      var d := Direction(f.leftPressed, f.rightPressed);
      AngleAfter(if d != 0 && f.timerFinished then TurnedAngle(angle, d) else angle, frames[1..])
  }

  /** Sum of the steps a sequence of frames turns by. */
  function NetTurn(frames: seq<Frame>): int
    decreases |frames|
  {
    if frames == [] then 0 else FrameTurn(frames[0]) + NetTurn(frames[1..])
  }

  /** Whatever keys are held in whatever frames, the angle never leaves [0, 360]. */
  lemma {:induction false} AngleAfterInRange(angle: int, frames: seq<Frame>)
    requires InRange(angle)
    ensures InRange(AngleAfter(angle, frames))
    decreases |frames|
  {
    if frames != [] {
      var f := frames[0];
      var d := Direction(f.leftPressed, f.rightPressed);
      AngleAfterInRange(if d != 0 && f.timerFinished then TurnedAngle(angle, d) else angle, frames[1..]);
    }
  }

  /**
   * Up to whole turns, the final angle is the start angle plus SPEED degrees
   * for every step taken: the wrap never loses or gains a step.
   */
  lemma {:induction false} AngleAfterTurnsBySteps(angle: int, frames: seq<Frame>)
    ensures (AngleAfter(angle, frames) - (angle + SPEED * NetTurn(frames))) % FULL_TURN == 0
    decreases |frames|
  {
    if frames != [] {
      var f := frames[0];
      var d := Direction(f.leftPressed, f.rightPressed);
      var next := if d != 0 && f.timerFinished then TurnedAngle(angle, d) else angle;
      AngleAfterTurnsBySteps(next, frames[1..]);
      var k := AngleAfter(next, frames[1..]) - (next + SPEED * NetTurn(frames[1..]));
      assert next - (angle + SPEED * FrameTurn(f)) in {-FULL_TURN, 0, FULL_TURN};
      assert AngleAfter(angle, frames) - (angle + SPEED * NetTurn(frames))
        == k + (next - (angle + SPEED * FrameTurn(f)));
    }
  }
}
