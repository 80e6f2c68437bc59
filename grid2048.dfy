/** The 2048 game object.  Its table of cells, the counter of unoccupied
    cells and the pending direction are updated in place by the key
    handler's calls; Valid() is the invariant every operation keeps: the
    counter agrees with the table and every tile is a power of two. */
module Grid2048 {
  import opened Board2048

  class Grid {
    const cellSize: nat
    const gridSize: nat
    const rows: nat
    const cols: nat
    /** cells[x][y] */
    var cells: Board
    var totalUnoccupied: int
    /** The direction of the pending move; None while no move is pending. */
    var direction: Option<Direction>

    ghost predicate Valid()
      reads this
    {
      && cols == rows
      && Shaped(cells, cols, rows)
      && totalUnoccupied == CountEmpty(cells)
      && TilesArePowers(cells)
    }

    /** A square table of floor(gridSize / cellSize) unoccupied cells a
        side, and no pending move. */
    constructor (cellSize: nat := 100, gridSize: nat := 400)
      requires cellSize > 0
      ensures Valid()
      ensures this.cellSize == cellSize && this.gridSize == gridSize
      ensures rows == gridSize / cellSize && cols == rows
      ensures cells == EmptyBoard(cols, rows)
      ensures totalUnoccupied == rows * cols
      ensures direction == None
    {
      this.cellSize := cellSize;
      this.gridSize := gridSize;
      var n := gridSize / cellSize;
      rows := n;
      cols := n;
      var table: Board := [];
      var x := 0;
      while x < n
        invariant 0 <= x <= n
        invariant table == EmptyBoard(x, n)
      {
        var temp: seq<Cell> := [];
        var y := 0;
        while y < n
          invariant 0 <= y <= n
          invariant temp == seq(y, _ => Empty)
        {
          temp := temp + [Empty];
          y := y + 1;
        }
        table := table + [temp];
        x := x + 1;
      }
      cells := table;
      totalUnoccupied := n * n;
      direction := None;
    }

    /** The rnd-th unoccupied cell, counting x first, then y, as the scan
        of addValue meets it. */
    method FindEmpty(rnd: nat) returns (p: Pos)
      requires Shaped(cells, cols, rows) && rnd < CountEmpty(cells)
      ensures p == Empties(cells)[rnd]
      ensures InRange(p, cols, rows) && cells[p.x][p.y] == Empty
    {
      var count := 0;
      var cell: Option<Pos> := None;
      var x := 0;
      while x < cols
        invariant 0 <= x <= cols
        invariant cell.None? && count == |EmptiesBefore(cells, x)| <= rnd
      {
        var y := 0;
        while y < rows
          invariant 0 <= y <= rows
          invariant cell.None? && count == |EmptiesBefore(cells, x)| + |ColumnEmpties(cells[x], x, y)| <= rnd
        {
          if cells[x][y] == Empty {
            if count == rnd {
              EmptiesAtScan(cells, x, y);
              cell := Some(Pos(x, y));
            }
            count := count + 1;
          }
          if cell.Some? {
            break;
          }
          y := y + 1;
        }
        if cell.Some? {
          break;
        }
        x := x + 1;
      }
      assert cell.Some?;
      p := cell.value;
      EmptiesInScanOrder(cells);
    }

    /** Puts a new tile in the rnd-th unoccupied cell, counting x first,
        then y: a 2 when the draw r is below 0.8, a 4 otherwise.  On a full
        table it changes nothing and answers false.  rnd and r are the
        draws of randint(0, totalUnoccupied) and random(0, 1). */
    method AddValue(rnd: nat, r: real) returns (added: bool)
      requires Valid()
      requires totalUnoccupied > 0 ==> rnd < totalUnoccupied
      requires 0.0 <= r < 1.0
      modifies this
      ensures Valid()
      ensures added <==> old(totalUnoccupied) != 0
      ensures cells == AddTile(old(cells), rnd, r)
      ensures totalUnoccupied == if added then old(totalUnoccupied) - 1 else old(totalUnoccupied)
      ensures direction == old(direction)
    {
      if totalUnoccupied == 0 {
        return false;
      }
      var p := FindEmpty(rnd);
      var value: int;
      if r < 0.8 {
        value := 2;
      } else {
        value := 4;
      }
      AddTileKeepsPowers(cells, rnd, r);
      cells := Put(cells, p, Tile(value));
      totalUnoccupied := totalUnoccupied - 1;
      added := true;
    }

    /** One step of a pass: the tile at src shifts into dst when dst is
        unoccupied, or merges into dst when dst holds the same value (dst
        doubles, src empties, one more cell is unoccupied); otherwise
        nothing happens.  Either change clears the pending direction. */
    method StepCell(src: Pos, dst: Pos) returns (shifted: bool, merged: bool)
      requires Shaped(cells, cols, rows) && Fits(Move(src, dst), cols, rows)
      modifies this
      ensures shifted <==> OutcomeOf(old(cells), Move(src, dst)) == Shift
      ensures merged <==> OutcomeOf(old(cells), Move(src, dst)) == Merge
      ensures Slide(cells, shifted || merged, if merged then 1 else 0)
        == Apply(Slide(old(cells), false, 0), Move(src, dst), cols, rows)
      ensures totalUnoccupied == old(totalUnoccupied) + (if merged then 1 else 0)
      ensures direction == if shifted || merged then None else old(direction)
    {
      shifted, merged := false, false;
      if cells[src.x][src.y].Tile? {
        if cells[dst.x][dst.y].Empty? {
          cells := Put(Put(cells, dst, cells[src.x][src.y]), src, Empty);
          direction := None;
          shifted := true;
        } else if cells[dst.x][dst.y].value == cells[src.x][src.y].value {
          cells := Put(Put(cells, dst, Tile(cells[dst.x][dst.y].value * 2)), src, Empty);
          direction := None;
          totalUnoccupied := totalUnoccupied + 1;
          merged := true;
        }
      }
    }

    /** The k-th line of a pass: one step for each of its cells in turn.
        moved0 and merges0 carry the progress of the move so far. */
    method SlideLine(d: Direction, k: nat, moved0: bool, ghost merges0: nat) returns (moved: bool, ghost merges: nat)
      requires Shaped(cells, cols, rows) && k < Lines(d, cols, rows)
      requires moved0 ==> direction == None
      modifies this
      ensures Slide(cells, moved, merges)
        == LineRun(Slide(old(cells), moved0, merges0), d, cols, rows, k, Breadth(d, cols, rows))
      ensures moved0 ==> moved
      ensures totalUnoccupied == old(totalUnoccupied) + merges - merges0
      ensures direction == if moved then None else old(direction)
    {
      moved, merges := moved0, merges0;
      ghost var start := Slide(cells, moved0, merges0);
      var j := 0;
      while j < Breadth(d, cols, rows)
        invariant 0 <= j <= Breadth(d, cols, rows)
        invariant moved0 ==> moved
        invariant Slide(cells, moved, merges) == LineRun(start, d, cols, rows, k, j)
        invariant totalUnoccupied == old(totalUnoccupied) + merges - merges0
        invariant direction == if moved then None else old(direction)
      {
        var m := MoveAt(d, cols, rows, k, j);
        ApplyFrom(Slide(cells, moved, merges), m, cols, rows);
        var shifted, merged := StepCell(m.src, m.dst);
        moved := moved || shifted || merged;
        if merged {
          merges := merges + 1;
        }
        j := j + 1;
      }
    }

    /** Runs the three passes toward the pending direction.  If any tile
        shifted or merged, the pending direction is cleared and one new
        tile is added (rnd and r are that addValue's draws); otherwise
        nothing changes and the direction stays pending. */
    method MoveCells(rnd: nat, r: real)
      requires Valid()
      requires 0.0 <= r < 1.0
      requires direction.Some? && Slid(cells, direction.value, cols, rows).moved ==>
        rnd < CountEmpty(Slid(cells, direction.value, cols, rows).board)
      modifies this
      ensures Valid()
      ensures old(direction).None? ==>
        cells == old(cells) && totalUnoccupied == old(totalUnoccupied) && direction == None
      ensures old(direction).Some? ==>
        var s := Slid(old(cells), old(direction).value, cols, rows);
        if s.moved then
          && cells == AddTile(s.board, rnd, r)
          && totalUnoccupied == CountEmpty(s.board) - 1
          && direction == None
        else
          cells == old(cells) && totalUnoccupied == old(totalUnoccupied) && direction == old(direction)
      ensures direction.Some? ==> !Slid(cells, direction.value, cols, rows).moved
    {
      var moved := false;
      if direction.Some? {
        var d := direction.value;
        ghost var start := Slide(cells, false, 0);
        ghost var merges: nat := 0;
        var count := 0;
        while count < Passes
          invariant 0 <= count <= Passes
          invariant Slide(cells, moved, merges) == SweepRun(start, d, cols, rows, count)
          invariant totalUnoccupied == old(totalUnoccupied) + merges
          invariant direction == if moved then None else old(direction)
        {
          ghost var pass := Slide(cells, moved, merges);
          var k := 0;
          while k < Lines(d, cols, rows)
            invariant 0 <= k <= Lines(d, cols, rows)
            invariant Slide(cells, moved, merges) == PassRun(pass, d, cols, rows, k)
            invariant totalUnoccupied == old(totalUnoccupied) + merges
            invariant direction == if moved then None else old(direction)
          {
            moved, merges := SlideLine(d, k, moved, merges);
            k := k + 1;
          }
          count := count + 1;
        }
        SlidConserves(old(cells), d, cols, rows);
        if moved {
          var _ := AddValue(rnd, r);
        }
      }
    }
  }
}
