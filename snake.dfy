/** The snake of the snake game: a head position updated in place, a
    velocity, and a body list of segment copies with a length counter.

    Positions are integer grid cells.  The vector object the game uses
    (a mutable pair with `add` and `dist`) is modelled by V2d below. */
module SnakeObjects {

  /** A grid cell. */
  datatype Point = Point(x: int, y: int)

  /** A mutable two-dimensional vector of integers. */
  class V2d {
    var x: int
    var y: int

    constructor (x: int, y: int)
      ensures this.x == x && this.y == y
    {
      this.x := x;
      this.y := y;
    }

    function At(): Point
      reads this
    {
      Point(x, y)
    }

    /** Adds v to this vector in place. */
    method Add(v: V2d)
      modifies this
      ensures x == old(x) + old(v.x) && y == old(y) + old(v.y)
    {
      var dx, dy := v.x, v.y;
      x := x + dx;
      y := y + dy;
    }
  }

  /** The square of the Euclidean distance between two cells. */
  function DistSquared(p: Point, q: Point): (d: int)
    ensures d >= 0
  {
    (p.x - q.x) * (p.x - q.x) + (p.y - q.y) * (p.y - q.y)
  }

  /** dist(p, q) < 0.1, that is dist(p, q)^2 < 1/100. */
  predicate CloserThanTenth(p: Point, q: Point)
  {
    100 * DistSquared(p, q) < 1
  }

  /** dist(p, q) <= 0.1, that is dist(p, q)^2 <= 1/100. */
  predicate WithinTenth(p: Point, q: Point)
  {
    100 * DistSquared(p, q) <= 1
  }

  /** On integer cells both distance tests are plain equality. */
  lemma TenthMeansSame(p: Point, q: Point)
    ensures CloserThanTenth(p, q) <==> p == q
    ensures WithinTenth(p, q) <==> p == q
  {
    var dx, dy := p.x - q.x, p.y - q.y;
    if dx != 0 {
      assert dx * dx >= 1 by {
        if dx > 0 { assert dx * dx >= dx; } else { assert dx * dx >= -dx; }
      }
    }
    if dy != 0 {
      assert dy * dy >= 1 by {
        if dy > 0 { assert dy * dy >= dy; } else { assert dy * dy >= -dy; }
      }
    }
  }

  /** The cells of a list of vectors, in order. */
  function Coords(s: seq<V2d>): (cs: seq<Point>)
    reads s
    ensures |cs| == |s|
    ensures forall i :: 0 <= i < |s| ==> cs[i] == s[i].At()
  {
    if s == [] then [] else [s[0].At()] + Coords(s[1..])
  }

  /** The hit test's bounds part: the head is left of column 0, right of
      column cols - 1, above row rows or below row 1. */
  predicate OutOfBounds(p: Point, cols: int, rows: int)
  {
    p.x + 1 > cols || p.x < 0 || p.y > rows || p.y < 1
  }

  /** The hit test's body part: the head cell cs[0] is also the cell of a
      segment at index 2 or later among the first n.  Index 1 is never
      compared. */
  predicate SelfHit(cs: seq<Point>, n: int)
  {
    0 < |cs| && exists i :: 2 <= i < n && i < |cs| && cs[i] == cs[0]
  }

  /** A snake of length two or less can only hit a wall. */
  lemma ShortSnakeOnlyHitsWalls(cs: seq<Point>, n: int)
    requires n <= 2
    ensures !SelfHit(cs, n)
  {
  }

  /** Eating pushes a second copy of the head.  The new list hits itself
      exactly when the old one did, or when the old one already had the
      head twice at its front: the fresh duplicate at index 1 is never
      counted. */
  lemma EatSelfHit(cs: seq<Point>)
    requires |cs| >= 1
    ensures SelfHit([cs[0]] + cs, |cs| + 1) <==>
      SelfHit(cs, |cs|) || (|cs| >= 2 && cs[1] == cs[0])
  {
    var cs' := [cs[0]] + cs;
    if SelfHit(cs', |cs| + 1) {
      var i :| 2 <= i < |cs| + 1 && i < |cs'| && cs'[i] == cs'[0];
      assert cs[i - 1] == cs[0];
      if i - 1 >= 2 {
        assert SelfHit(cs, |cs|);
      }
    }
    if SelfHit(cs, |cs|) {
      var i :| 2 <= i < |cs| && cs[i] == cs[0];
      assert cs'[i + 1] == cs'[0];
    }
    if |cs| >= 2 && cs[1] == cs[0] {
      assert cs'[2] == cs'[0];
    }
  }

  /** The cells after a move: the head advanced by v in front, the last
      segment dropped. */
  function Moved(cs: seq<Point>, v: Point): (cs': seq<Point>)
    requires |cs| >= 1
  {
    [Point(cs[0].x + v.x, cs[0].y + v.y)] + cs[..|cs| - 1]
  }

  /** A move keeps the number of segments and the order of all but the
      last, and a non-zero velocity always gives a head distinct from the
      old one, which now sits at index 1. */
  lemma MovedShape(cs: seq<Point>, v: Point)
    requires |cs| >= 1
    ensures |Moved(cs, v)| == |cs|
    ensures forall i :: 1 <= i < |cs| ==> Moved(cs, v)[i] == cs[i - 1]
    ensures v != Point(0, 0) && |cs| >= 2 ==> Moved(cs, v)[1] != Moved(cs, v)[0]
  {
  }

  class Snake {
    const w: int
    /** The head position, advanced in place by Move. */
    var pos: V2d
    var vel: V2d
    /** Copies of the head's past positions, newest first. */
    var body: seq<V2d>
    var length: int

    /** The body holds exactly `length` segments, the first a copy of the
        head; the head and velocity vectors are not shared with the body
        or with each other, so changing the head never changes a segment. */
    ghost predicate Valid()
      reads this, body, pos
    {
      && pos != vel && pos !in body && vel !in body
      && length >= 1 && |body| == length
      && body[0].At() == pos.At()
    }

    /** The cells of the body, head first. */
    function Cells(): seq<Point>
      reads this, body
    {
      Coords(body)
    }

    /** A snake at pos moving right (velocity (1, 0)), one segment long. */
    constructor (pos: V2d, w: int := 10)
      ensures Valid()
      ensures this.w == w && this.pos == pos && pos.At() == old(pos.At())
      ensures vel.At() == Point(1, 0) && fresh(vel)
      ensures length == 1 && Cells() == [pos.At()] && fresh(body[0])
    {
      this.w := w;
      this.pos := pos;
      this.vel := new V2d(1, 0);
      this.body := [];
      this.length := 0;
      new;
      AddPart();
    }

    /** Pushes a copy of the head to the front of the body; on a snake that
        already has segments the last one is dropped, otherwise the length
        becomes 1. */
    method AddPart()
      requires length == |body|
      modifies this
      ensures pos == old(pos) && vel == old(vel)
      ensures |body| >= 1 && fresh(body[0]) && body[0].At() == pos.At()
      ensures body == if old(length) > 0 then ([body[0]] + old(body))[..|old(body)|] else [body[0]] + old(body)
      ensures length == if old(length) > 0 then old(length) else 1
    {
      var part := new V2d(pos.x, pos.y);
      body := [part] + body;
      if length > 0 {
        body := body[..|body| - 1];
      } else {
        length := 1;
      }
    }

    /** Advances the head by the velocity, then adds a part: the body gains
        a copy of the new head and loses its last segment. */
    method Move()
      requires Valid()
      modifies this, pos
      ensures Valid()
      ensures pos == old(pos) && vel == old(vel) && length == old(length)
      ensures pos.At() == Point(old(pos.x) + old(vel.x), old(pos.y) + old(vel.y))
      ensures Cells() == Moved(old(Cells()), old(vel.At()))
      ensures fresh(body[0]) && body[1..] == old(body)[..length - 1]
    {
      ghost var tail := body[..length - 1];
      ghost var cells := Coords(tail);
      pos.Add(vel);
      AddPart();
      assert body == [body[0]] + tail;
      assert Coords(tail) == cells;
    }

    /** Pushes a copy of the head to the front without dropping anything. */
    method Eat()
      requires Valid()
      modifies this
      ensures Valid()
      ensures pos == old(pos) && vel == old(vel) && length == old(length) + 1
      ensures Cells() == [pos.At()] + old(Cells())
      ensures fresh(body[0]) && body[1..] == old(body)
    {
      var part := new V2d(pos.x, pos.y);
      body := [part] + body;
      length := length + 1;
      assert body[1..] == old(body);
    }

    /** Whether the head is out of bounds, or the head segment has the
        cell of a segment at index 2 or later. */
    method CheckHit(cols: int, rows: int) returns (hit: bool)
      requires Valid()
      ensures hit == (OutOfBounds(pos.At(), cols, rows) || SelfHit(Cells(), length))
    {
      // `a` starts undefined, which counts as false in `a || b`
      var a := false;
      if length > 1 {
        var i := 2;
        while i < length
          invariant 2 <= i <= length
          invariant !a && forall j :: 2 <= j < i && j < length ==> body[j].At() != body[0].At()
        {
          TenthMeansSame(body[0].At(), body[i].At());
          if CloserThanTenth(body[0].At(), body[i].At()) {
            a := true;
            break;
          } else {
            a := false;
          }
          i := i + 1;
        }
      }
      var d := pos;
      var b: bool;
      if d.x + 1 > cols || d.x < 0 || d.y > rows || d.y < 1 {
        b := true;
      } else {
        b := false;
      }
      hit := a || b;
    }
  }
}
