/** The snake game's page: the flags started, pause and dead, the snake,
    the food cell and the frame counter, changed by the key handler and by
    each animation frame.  New food positions come from a random draw and
    are taken as parameters. */
module SnakeApp {
  import opened SnakeObjects

  const KeyLeft: int := 37
  const KeyUp: int := 38
  const KeyRight: int := 39
  const KeyDown: int := 40
  const KeySpace: int := 32

  /** The snake advances on one frame in this many. */
  const Throttle: int := 10

  /** A velocity of one cell along one axis. */
  predicate IsUnitAxis(v: Point)
  {
    (v.x == 0 && (v.y == 1 || v.y == -1)) || (v.y == 0 && (v.x == 1 || v.x == -1))
  }

  function Opposite(v: Point): Point
  {
    Point(-v.x, -v.y)
  }

  predicate IsArrow(keyCode: int)
  {
    KeyLeft <= keyCode <= KeyDown
  }

  /** The velocity an arrow key asks for: up (0, 1), left (-1, 0), right
      (1, 0), down (0, -1). */
  function ArrowVelocity(keyCode: int): (v: Point)
    requires IsArrow(keyCode)
    ensures IsUnitAxis(v)
  {
    if keyCode == KeyUp then Point(0, 1)
    else if keyCode == KeyLeft then Point(-1, 0)
    else if keyCode == KeyRight then Point(1, 0)
    else Point(0, -1)
  }

  /** The handler's test before turning toward u: only the component on
      u's axis is looked at, and the turn is refused when it is -1 times
      u's. */
  predicate MayTurn(v: Point, u: Point)
  {
    if u.x == 0 then v.y != -u.y else v.x != -u.x
  }

  /** For unit velocities the one-component test refuses exactly a turn to
      the opposite direction; every other arrow, the current direction
      included, is taken. */
  lemma MayTurnUnlessOpposite(v: Point, keyCode: int)
    requires IsUnitAxis(v) && IsArrow(keyCode)
    ensures MayTurn(v, ArrowVelocity(keyCode)) <==> v != Opposite(ArrowVelocity(keyCode))
  {
    if keyCode == KeyUp {
      assert ArrowVelocity(keyCode) == Point(0, 1);
    } else if keyCode == KeyLeft {
      assert ArrowVelocity(keyCode) == Point(-1, 0);
    } else if keyCode == KeyRight {
      assert ArrowVelocity(keyCode) == Point(1, 0);
    } else {
      assert ArrowVelocity(keyCode) == Point(0, -1);
    }
  }

  /** The frame counter after one frame: reset to 0 on a tick frame, then
      incremented. */
  function NextCount(c: int): int
  {
    (if c % Throttle == 0 then 0 else c) + 1
  }

  /** The frame counter after n frames from the start. */
  function CountAfter(n: nat): int
  {
    if n == 0 then 0 else NextCount(CountAfter(n - 1))
  }

  /** The counter runs 0, 1, ..., 10, 1, ..., 10, ... so the tick frames
      (counter divisible by 10) are exactly frames 0, 10, 20, ... */
  lemma {:induction false} TicksEveryTenFrames(n: nat)
    ensures CountAfter(n) == if n == 0 then 0 else (n - 1) % Throttle + 1
    ensures CountAfter(n) % Throttle == 0 <==> n % Throttle == 0
  {
    if n > 1 {
      TicksEveryTenFrames(n - 1);
      var r := (n - 2) % Throttle;
      assert n - 1 == (n - 2) / Throttle * Throttle + r + 1;
      if r == Throttle - 1 {
        assert (n - 1) % Throttle == 0;
      } else {
        assert (n - 1) % Throttle == r + 1;
      }
    }
  }

  class Game {
    const w: int
    const cols: int
    const rows: int
    var snake: Snake
    var food: Point
    var started: bool
    var pause: bool
    var dead: bool
    var frameCount: int

    /** The snake is well formed and moves one cell along an axis. */
    ghost predicate Valid()
      reads this, snake, snake.body, snake.pos, snake.vel
    {
      snake.Valid() && IsUnitAxis(snake.vel.At())
    }

    /** The displayed score: one point per segment beyond the first. */
    function Score(): int
      reads this, snake
    {
      snake.length - 1
    }

    /** The start of a game: not started, paused, alive, a one-segment
        snake at (2, 5) moving right, and new food. */
    ghost predicate Initial(foodPos: Point)
      reads this, snake, snake.body, snake.pos, snake.vel
    {
      && Valid()
      && !started && pause && !dead
      && snake.pos.At() == Point(2, 5) && snake.vel.At() == Point(1, 0)
      && snake.length == 1 && snake.Cells() == [Point(2, 5)]
      && food == foodPos
    }

    /** The page load: cells of w = 40 pixels, as many whole columns and
        rows as fit the canvas, a new game and the frame counter at 0. */
    constructor (width: nat, height: nat, foodPos: Point)
      ensures Initial(foodPos) && Score() == 0 && fresh(snake) && fresh(snake.pos)
      ensures w == 40 && cols == width / 40 && rows == height / 40
      ensures frameCount == 0
    {
      w := 40;
      cols := width / 40;
      rows := height / 40;
      frameCount := 0;
      var pos := new V2d(2, 5);
      snake := new Snake(pos, 40);
      started, pause, dead := false, true, false;
      food := foodPos;
    }

    /** init: a new game, with food at foodPos. */
    method Init(foodPos: Point)
      modifies this
      ensures Initial(foodPos) && fresh(snake) && fresh(snake.pos) && Score() == 0
      ensures frameCount == old(frameCount)
    {
      started := false;
      pause := true;
      dead := false;
      var pos := new V2d(2, 5);
      snake := new Snake(pos, w);
      food := foodPos;
    }

    /** The keydown handler.  An arrow turns the snake unless it is the
        opposite of the current direction, which kills it instead.  Space
        pauses or resumes a live game (and marks it started), or restarts
        a dead one with food at foodPos.  Other keys do nothing. */
    method HandleKey(keyCode: int, foodPos: Point)
      requires Valid()
      modifies this, snake
      ensures Valid()
      ensures IsArrow(keyCode) ==>
        var u := ArrowVelocity(keyCode);
        && snake == old(snake) && snake.Cells() == old(snake.Cells()) && snake.length == old(snake.length)
        && snake.pos == old(snake.pos)
        && (if old(snake.vel.At()) != Opposite(u) then snake.vel.At() == u && dead == old(dead)
            else snake.vel == old(snake.vel) && dead)
        && started == old(started) && pause == old(pause) && food == old(food)
      ensures keyCode == KeySpace && !old(dead) ==>
        && snake == old(snake) && snake.vel == old(snake.vel) && food == old(food)
        && snake.Cells() == old(snake.Cells()) && snake.length == old(snake.length) && snake.pos == old(snake.pos)
        && pause == !old(pause) && started && !dead
      ensures keyCode == KeySpace && old(dead) ==> Initial(foodPos) && fresh(snake) && fresh(snake.pos)
      ensures !IsArrow(keyCode) && keyCode != KeySpace ==>
        snake == old(snake) && snake.vel == old(snake.vel) && food == old(food) &&
        snake.Cells() == old(snake.Cells()) && snake.length == old(snake.length) && snake.pos == old(snake.pos) &&
        started == old(started) && pause == old(pause) && dead == old(dead)
      ensures frameCount == old(frameCount)
      ensures old(started) && !started ==> keyCode == KeySpace && old(dead)
    {
      var x := keyCode;
      ghost var v := snake.vel.At();
      if x == KeyUp {
        MayTurnUnlessOpposite(v, x);
        if snake.vel.y != -1 {
          snake.vel := new V2d(0, 1);
        } else {
          dead := true;
        }
      }
      if x == KeyLeft {
        MayTurnUnlessOpposite(v, x);
        if snake.vel.x != 1 {
          snake.vel := new V2d(-1, 0);
        } else {
          dead := true;
        }
      }
      if x == KeyRight {
        MayTurnUnlessOpposite(v, x);
        if snake.vel.x != -1 {
          snake.vel := new V2d(1, 0);
        } else {
          dead := true;
        }
      }
      if x == KeyDown {
        MayTurnUnlessOpposite(v, x);
        if snake.vel.y != 1 {
          snake.vel := new V2d(0, -1);
        } else {
          dead := true;
        }
      }
      if x == KeySpace {
        if !dead {
          pause := !pause;
          if !started {
            started := true;
          }
        } else {
          Init(foodPos);
        }
      }
    }

    /** The tick part of a frame, unpaused: the snake moves; if its head
        is then on the food (distance at most 0.1) it eats and the food
        moves to foodPos; dead becomes the hit test's answer. */
    method Advance(foodPos: Point)
      requires Valid()
      modifies this, snake, snake.pos
      ensures Valid()
      ensures snake == old(snake) && snake.pos == old(snake.pos) && snake.vel == old(snake.vel)
      ensures started == old(started) && pause == old(pause) && frameCount == old(frameCount)
      ensures
        var moved := Moved(old(snake.Cells()), old(snake.vel.At()));
        var ate := moved[0] == old(food);
        && snake.pos.At() == moved[0]
        && snake.Cells() == (if ate then [moved[0]] + moved else moved)
        && Score() == old(Score()) + (if ate then 1 else 0)
        && food == (if ate then foodPos else old(food))
        && dead == (OutOfBounds(moved[0], cols, rows) || SelfHit(snake.Cells(), snake.length))
    {
      snake.Move();
      TenthMeansSame(snake.pos.At(), food);
      if WithinTenth(snake.pos.At(), food) {
        snake.Eat();
        food := foodPos;
      }
      dead := snake.CheckHit(cols, rows);
    }

    /** One animation frame.  On a tick frame (counter divisible by 10)
        the counter restarts and, unless paused, the snake advances.  A
        dead game is then paused.  The counter goes up by one every
        frame. */
    method Frame(foodPos: Point)
      requires Valid()
      modifies this, snake, snake.pos
      ensures Valid()
      ensures snake == old(snake) && snake.pos == old(snake.pos) && snake.vel == old(snake.vel)
      ensures started == old(started)
      ensures frameCount == NextCount(old(frameCount))
      ensures old(frameCount) % Throttle != 0 || old(pause) ==>
        && snake.Cells() == old(snake.Cells()) && snake.length == old(snake.length)
        && snake.pos.At() == old(snake.pos.At())
        && food == old(food) && dead == old(dead) && pause == (old(pause) || dead)
      ensures old(frameCount) % Throttle == 0 && !old(pause) ==>
        var moved := Moved(old(snake.Cells()), old(snake.vel.At()));
        var ate := moved[0] == old(food);
        && snake.pos.At() == moved[0]
        && snake.Cells() == (if ate then [moved[0]] + moved else moved)
        && Score() == old(Score()) + (if ate then 1 else 0)
        && food == (if ate then foodPos else old(food))
        && dead == (OutOfBounds(moved[0], cols, rows) || SelfHit(snake.Cells(), snake.length))
        && pause == dead
      ensures dead ==> pause
    {
      if frameCount % Throttle == 0 {
        frameCount := 0;
        if !pause {
          Advance(foodPos);
        }
      }
      if dead {
        pause := true;
      }
      frameCount := frameCount + 1;
    }
  }
}
