/** The 2048 page: the key handler and the start-up seeding. */
module App2048 {
  import opened Board2048
  import opened Grid2048

  const KeyLeft: int := 37
  const KeyUp: int := 38
  const KeyRight: int := 39
  const KeyDown: int := 40
  const KeySpace: int := 32

  /** The direction an arrow key selects; None for every other key. */
  function KeyDirection(keyCode: int): (d: Option<Direction>)
  {
    if keyCode == KeyLeft then Some(Left)
    else if keyCode == KeyUp then Some(Up)
    else if keyCode == KeyRight then Some(Right)
    else if keyCode == KeyDown then Some(Down)
    else None
  }

  /** The arrow key of a direction. */
  function ArrowKey(d: Direction): (keyCode: int)
    ensures 37 <= keyCode <= 40
  {
    match d
    case Left => KeyLeft
    case Up => KeyUp
    case Right => KeyRight
    case Down => KeyDown
  }

  /** Exactly the four arrow keys select a direction, each its own, and
      space selects none. */
  lemma KeyDirectionOfArrows(keyCode: int, d: Direction)
    ensures KeyDirection(keyCode) == Some(d) <==> keyCode == ArrowKey(d)
    ensures KeyDirection(keyCode).Some? <==> 37 <= keyCode <= 40
    ensures KeyDirection(KeySpace) == None
  {
  }

  /** The pending direction once the handler has looked at the key: an
      arrow replaces it, any other key leaves it. */
  function Pending(dir: Option<Direction>, keyCode: int): Option<Direction>
  {
    if KeyDirection(keyCode).Some? then KeyDirection(keyCode) else dir
  }

  /** The table once the handler has looked at the key: space adds a tile
      first (rnd and r are that addValue's draws). */
  function Seeded(b: Board, keyCode: int, rnd: nat, r: real): Board
    requires CountEmpty(b) > 0 ==> rnd < CountEmpty(b)
  {
    if keyCode == KeySpace then AddTile(b, rnd, r) else b
  }

  /** One keydown: an arrow sets the pending direction, space adds a tile,
      and whatever the key, the pending move is tried (rnd' and r' are the
      draws of the tile that a successful move adds).  So a direction that
      moved nothing stays pending and is tried again on the next key. */
  method HandleKey(grid: Grid, keyCode: int, rnd: nat, r: real, rnd': nat, r': real)
    requires grid.Valid()
    requires 0.0 <= r < 1.0 && 0.0 <= r' < 1.0
    requires grid.totalUnoccupied > 0 ==> rnd < grid.totalUnoccupied
    requires
      var b := Seeded(grid.cells, keyCode, rnd, r);
      var dir := Pending(grid.direction, keyCode);
      dir.Some? && Slid(b, dir.value, grid.cols, grid.rows).moved ==>
        rnd' < CountEmpty(Slid(b, dir.value, grid.cols, grid.rows).board)
    modifies grid
    ensures grid.Valid()
    ensures
      var b := Seeded(old(grid.cells), keyCode, rnd, r);
      var dir := Pending(old(grid.direction), keyCode);
      if dir.Some? && Slid(b, dir.value, grid.cols, grid.rows).moved then
        && grid.cells == AddTile(Slid(b, dir.value, grid.cols, grid.rows).board, rnd', r')
        && grid.direction == None
      else
        grid.cells == b && grid.direction == dir
    ensures grid.direction.Some? ==> !Slid(grid.cells, grid.direction.value, grid.cols, grid.rows).moved
  {
    var x := keyCode;
    if x == KeyLeft {
      grid.direction := Some(Left);
    }
    if x == KeyUp {
      grid.direction := Some(Up);
    }
    if x == KeyRight {
      grid.direction := Some(Right);
    }
    if x == KeyDown {
      grid.direction := Some(Down);
    }
    if x == KeySpace {
      var _ := grid.AddValue(rnd, r);
    }
    grid.MoveCells(rnd', r');
  }

  /** Start-up: a fresh 4 x 4 grid and up to two tiles, stopping early if
      addValue reports a full table (it never does on a fresh one).  rnds
      and rs are the draws of the two addValue calls. */
  method Startup(rnds: seq<nat>, rs: seq<real>) returns (grid: Grid)
    requires |rnds| == 2 && |rs| == 2
    requires rnds[0] < 16 && rnds[1] < 15
    requires forall i :: 0 <= i < 2 ==> 0.0 <= rs[i] < 1.0
    ensures fresh(grid) && grid.Valid()
    ensures grid.cols == 4 && grid.rows == 4
    ensures grid.cells == AddTile(AddTile(EmptyBoard(4, 4), rnds[0], rs[0]), rnds[1], rs[1])
    ensures grid.totalUnoccupied == 14 && grid.direction == None
  {
    grid := new Grid();
    ghost var first := AddTile(EmptyBoard(4, 4), rnds[0], rs[0]);
    var i := 0;
    while i < 2
      invariant 0 <= i <= 2 && grid.Valid() && grid.cols == 4 && grid.rows == 4
      invariant grid.totalUnoccupied == 16 - i && grid.direction == None
      invariant i == 0 ==> grid.cells == EmptyBoard(4, 4)
      invariant i == 1 ==> grid.cells == first
      invariant i == 2 ==> grid.cells == AddTile(first, rnds[1], rs[1])
    {
      var flag := grid.AddValue(rnds[i], rs[i]);
      if !flag {
        break;
      }
      i := i + 1;
    }
  }
}
