/**
 * The bouncing ball: each frame the ball moves by its velocity, and each
 * velocity component is reversed when the ball, after the move, touches the
 * wall on that axis. Coordinates are unbounded integers.
 */
module BouncyBall {

  /** After the move, the ball of this radius touches or passes the low wall (0) or the high wall (`limit`). */
  predicate Touches(p: int, radius: int, limit: int): (b: bool)
    ensures b <==> !Inside(p, radius, limit)
  {
    p - radius <= 0 || p + radius >= limit
  }

  /** The ball lies strictly between the two walls of an axis. */
  predicate Inside(p: int, radius: int, limit: int) {
    p - radius > 0 && p + radius < limit
  }

  /** Position and velocity along both axes. */
  datatype Motion = Motion(x: int, y: int, vx: int, vy: int)

  /** The position after a move along one axis. */
  function Moved(p: int, v: int): int {
    p + v
  }

  /** The velocity along one axis after a move to `p`: reversed when `p` touches a wall. */
  function Bounced(p: int, v: int, radius: int, limit: int): int {
    if Touches(p, radius, limit) then -v else v
  }

  /**
   * One frame of the ball on a `width` by `height` screen: the ball moves by
   * its velocity, and each velocity component is kept while the moved ball is
   * strictly inside on that axis and reversed otherwise.
   */
  function Step(m: Motion, radius: int, width: int, height: int): (n: Motion)
    ensures n.x == m.x + m.vx && n.y == m.y + m.vy
    ensures Inside(n.x, radius, width) ==> n.vx == m.vx
    ensures !Inside(n.x, radius, width) ==> n.vx == -m.vx
    ensures Inside(n.y, radius, height) ==> n.vy == m.vy
    ensures !Inside(n.y, radius, height) ==> n.vy == -m.vy
  {
    var x := Moved(m.x, m.vx);
    var y := Moved(m.y, m.vy);
    Motion(x, y, Bounced(x, m.vx, radius, width), Bounced(y, m.vy, radius, height))
  }

  /** `n` frames. */
  function Run(m: Motion, radius: int, width: int, height: int, n: nat): (r: Motion)
    decreases n
  {
    if n == 0 then m else Run(Step(m, radius, width, height), radius, width, height, n - 1)
  }

  function Abs(v: int): nat {
    if v < 0 then -v else v
  }

  /** A frame never changes the speed along either axis. */
  lemma StepKeepsSpeed(m: Motion, radius: int, width: int, height: int)
    ensures Abs(Step(m, radius, width, height).vx) == Abs(m.vx)
    ensures Abs(Step(m, radius, width, height).vy) == Abs(m.vy)
  {
  }

  /** Any number of frames keeps the speed along either axis. */
  lemma {:induction false} RunKeepsSpeed(m: Motion, radius: int, width: int, height: int, n: nat)
    ensures Abs(Run(m, radius, width, height, n).vx) == Abs(m.vx)
    ensures Abs(Run(m, radius, width, height, n).vy) == Abs(m.vy)
    decreases n
  {
    if n > 0 {
      StepKeepsSpeed(m, radius, width, height);
      RunKeepsSpeed(Step(m, radius, width, height), radius, width, height, n - 1);
    }
  }

  /**
   * The axes do not interact: the horizontal part of a frame depends only on
   * the horizontal position, velocity and screen width, and the vertical part
   * only on the vertical ones and the height.
   */
  lemma StepAxesIndependent(m1: Motion, m2: Motion, radius: int, w1: int, h1: int, w2: int, h2: int)
    ensures m1.x == m2.x && m1.vx == m2.vx && w1 == w2 ==>
      Step(m1, radius, w1, h1).x == Step(m2, radius, w2, h2).x && Step(m1, radius, w1, h1).vx == Step(m2, radius, w2, h2).vx
    ensures m1.y == m2.y && m1.vy == m2.vy && h1 == h2 ==>
      Step(m1, radius, w1, h1).y == Step(m2, radius, w2, h2).y && Step(m1, radius, w1, h1).vy == Step(m2, radius, w2, h2).vy
  {
  }

  /** A ball that reaches a wall while moving toward it leaves that frame moving away from it. */
  lemma StepTurnsBack(m: Motion, radius: int, width: int, height: int)
    ensures var n := Step(m, radius, width, height);
      (n.x - radius <= 0 && m.vx < 0 ==> n.vx > 0) && (n.x + radius >= width && m.vx > 0 ==> n.vx < 0)
    ensures var n := Step(m, radius, width, height);
      (n.y - radius <= 0 && m.vy < 0 ==> n.vy > 0) && (n.y + radius >= height && m.vy > 0 ==> n.vy < 0)
  {
  }

  /** Along one axis the ball is between the walls now, or will be after its next move. */
  predicate Contained(p: int, v: int, radius: int, limit: int) {
    Inside(p, radius, limit) || Inside(p + v, radius, limit)
  }

  /** Contained along both axes. */
  predicate OnScreen(m: Motion, radius: int, width: int, height: int) {
    Contained(m.x, m.vx, radius, width) && Contained(m.y, m.vy, radius, height)
  }

  /**
   * One frame keeps the ball contained on both axes: if the move touches a
   * wall, the reversed velocity takes it back to where it was, which was
   * inside. The ball can neither escape nor stick in a wall.
   */
  lemma StepKeepsOnScreen(m: Motion, radius: int, width: int, height: int)
    requires OnScreen(m, radius, width, height)
    ensures OnScreen(Step(m, radius, width, height), radius, width, height)
  {
  }

  /** Any number of frames keeps the ball contained. */
  lemma {:induction false} RunKeepsOnScreen(m: Motion, radius: int, width: int, height: int, n: nat)
    requires OnScreen(m, radius, width, height)
    ensures OnScreen(Run(m, radius, width, height, n), radius, width, height)
    decreases n
  {
    if n > 0 {
      StepKeepsOnScreen(m, radius, width, height);
      RunKeepsOnScreen(Step(m, radius, width, height), radius, width, height, n - 1);
    }
  }

  /** A ball. Its position and velocity are the caller's two-element lists, updated in place. */
  class Ball {
    var radius: int
    /** [x, y] */
    var pos: array<int>
    /** [vx, vy] */
    var velocity: array<int>

    /** Two-element position and velocity held in two different lists. */
    ghost predicate Valid()
      reads this
    {
      pos.Length == 2 && velocity.Length == 2 && pos != velocity
    }

    /** The ball's position and velocity as one value. */
    function State(): Motion
      reads this, pos, velocity
      requires Valid()
    {
      Motion(pos[0], pos[1], velocity[0], velocity[1])
    }

    constructor (radius: int, pos: array<int>, velocity: array<int>)
      requires pos.Length == 2 && velocity.Length == 2 && pos != velocity
      ensures Valid() && this.radius == radius && this.pos == pos && this.velocity == velocity
    {
      this.radius := radius;
      this.pos := pos;
      this.velocity := velocity;
    }

    /**
     * One frame: move by the velocity, then reverse the horizontal velocity
     * when the ball touches the left or right wall and the vertical velocity
     * when it touches the top or bottom wall.
     */
    method UpdateBall(screenWidth: int, screenHeight: int)
      requires Valid()
      modifies pos, velocity
      ensures Valid() && radius == old(radius)
      ensures pos[0] == old(pos[0]) + old(velocity[0]) && pos[1] == old(pos[1]) + old(velocity[1])
      ensures Touches(pos[0], radius, screenWidth) ==> velocity[0] == -old(velocity[0])
      ensures !Touches(pos[0], radius, screenWidth) ==> velocity[0] == old(velocity[0])
      ensures Touches(pos[1], radius, screenHeight) ==> velocity[1] == -old(velocity[1])
      ensures !Touches(pos[1], radius, screenHeight) ==> velocity[1] == old(velocity[1])
      ensures State() == Step(old(State()), radius, screenWidth, screenHeight)
    {
      pos[0] := pos[0] + velocity[0];
      pos[1] := pos[1] + velocity[1];
      if pos[0] - radius <= 0 || pos[0] + radius >= screenWidth {
        velocity[0] := -velocity[0];
      }
      if pos[1] - radius <= 0 || pos[1] + radius >= screenHeight {
        velocity[1] := -velocity[1];
      }
    }
  }

  /** The two balls of the demo on an 800 by 600 screen start inside, so they stay contained for ever. */
  lemma DemoBallsStayOnScreen(n: nat)
    ensures OnScreen(Run(Motion(400, 300, 3, 3), 20, 800, 600, n), 20, 800, 600)
    ensures OnScreen(Run(Motion(200, 150, 4, 2), 30, 800, 600, n), 30, 800, 600)
  {
    RunKeepsOnScreen(Motion(400, 300, 3, 3), 20, 800, 600, n);
    RunKeepsOnScreen(Motion(200, 150, 4, 2), 30, 800, 600, n);
  }

  /** The first frame of the demo's first ball: it moves from the centre by (3, 3) and keeps its velocity. */
  method DemoFirstFrame() returns (x: int, y: int, vx: int, vy: int)
    ensures x == 403 && y == 303 && vx == 3 && vy == 3
  {
    var pos := new int[2];
    pos[0], pos[1] := 800 / 2, 600 / 2;
    var velocity := new int[2];
    velocity[0], velocity[1] := 3, 3;
    var ball := new Ball(20, pos, velocity);
    ball.UpdateBall(800, 600);
    x, y, vx, vy := pos[0], pos[1], velocity[0], velocity[1];
  }
}
