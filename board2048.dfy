/** The 2048 board as a value.

    The table is indexed board[x][y] (x is the column, y the row), as the
    game object keeps it.  This module defines the order in which the game
    counts empty cells, one slide step of a tile toward a neighbour, and
    the schedule of steps that one move performs (three passes, each pass
    walking the lines nearest the target edge first).  The lemmas state
    what a move conserves. */
module Board2048 {

  /** A cell is unoccupied or holds a tile value.  The value an unoccupied
      cell carries in the game object is never read, so it is not kept. */
  datatype Cell = Empty | Tile(value: int)

  datatype Direction = Up | Down | Left | Right

  /** None stands for the game's `undefined`. */
  datatype Option<T> = None | Some(value: T)

  datatype Pos = Pos(x: int, y: int)

  /** The table, indexed board[x][y]. */
  type Board = seq<seq<Cell>>

  predicate Shaped(b: Board, cols: nat, rows: nat)
  {
    |b| == cols && forall x :: 0 <= x < cols ==> |b[x]| == rows
  }

  predicate InRange(p: Pos, cols: nat, rows: nat)
  {
    0 <= p.x < cols && 0 <= p.y < rows
  }

  /** The board with the cell at p replaced by c. */
  function Put(b: Board, p: Pos, c: Cell): (r: Board)
    requires 0 <= p.x < |b| && 0 <= p.y < |b[p.x]|
    ensures |r| == |b| && |r[p.x]| == |b[p.x]| && r[p.x][p.y] == c
  {
    b[p.x := b[p.x][p.y := c]]
  }

  // ---------------------------------------------------------------------
  // Empty cells, in the order the game scans them: x first, then y.

  /** The empty cells among col[0..n], as positions in column x, by y. */
  function ColumnEmpties(col: seq<Cell>, x: int, n: nat): seq<Pos>
    requires n <= |col|
  {
    if n == 0 then []
    else ColumnEmpties(col, x, n - 1) + (if col[n - 1] == Empty then [Pos(x, n - 1)] else [])
  }

  /** The empty cells of columns 0..m, in scan order. */
  function EmptiesBefore(b: Board, m: nat): seq<Pos>
    requires m <= |b|
  {
    if m == 0 then []
    else EmptiesBefore(b, m - 1) + ColumnEmpties(b[m - 1], m - 1, |b[m - 1]|)
  }

  /** All empty cells of the board, in scan order. */
  function Empties(b: Board): seq<Pos>
  {
    EmptiesBefore(b, |b|)
  }

  /** The number of unoccupied cells. */
  function CountEmpty(b: Board): nat
  {
    |Empties(b)|
  }

  /** p comes strictly before q when the columns are scanned in order and
      each column from y = 0 upward. */
  predicate ScansBefore(p: Pos, q: Pos)
  {
    p.x < q.x || (p.x == q.x && p.y < q.y)
  }

  lemma {:induction false} ColumnEmptiesFacts(col: seq<Cell>, x: int, n: nat)
    requires n <= |col|
    ensures forall i :: 0 <= i < |ColumnEmpties(col, x, n)| ==>
      ColumnEmpties(col, x, n)[i].x == x && 0 <= ColumnEmpties(col, x, n)[i].y < n &&
      col[ColumnEmpties(col, x, n)[i].y] == Empty
    ensures forall i, j :: 0 <= i < j < |ColumnEmpties(col, x, n)| ==>
      ColumnEmpties(col, x, n)[i].y < ColumnEmpties(col, x, n)[j].y
    ensures forall y :: 0 <= y < n && col[y] == Empty ==> Pos(x, y) in ColumnEmpties(col, x, n)
  {
    if n > 0 {
      ColumnEmptiesFacts(col, x, n - 1);
    }
  }

  lemma {:induction false} EmptiesBeforeFacts(b: Board, m: nat)
    requires m <= |b|
    ensures forall i :: 0 <= i < |EmptiesBefore(b, m)| ==>
      var p := EmptiesBefore(b, m)[i];
      0 <= p.x < m && 0 <= p.y < |b[p.x]| && b[p.x][p.y] == Empty
    ensures forall i, j :: 0 <= i < j < |EmptiesBefore(b, m)| ==>
      ScansBefore(EmptiesBefore(b, m)[i], EmptiesBefore(b, m)[j])
    ensures forall x, y :: 0 <= x < m && 0 <= y < |b[x]| && b[x][y] == Empty ==>
      Pos(x, y) in EmptiesBefore(b, m)
  {
    if m > 0 {
      EmptiesBeforeFacts(b, m - 1);
      ColumnEmptiesFacts(b[m - 1], m - 1, |b[m - 1]|);
      var e, c := EmptiesBefore(b, m - 1), ColumnEmpties(b[m - 1], m - 1, |b[m - 1]|);
      assert EmptiesBefore(b, m) == e + c;
      forall i, j | 0 <= i < j < |e + c|
        ensures ScansBefore((e + c)[i], (e + c)[j])
      {
        if j < |e| {
        } else if i < |e| {
          assert (e + c)[i] == e[i] && (e + c)[j] == c[j - |e|];
        } else {
          assert (e + c)[i] == c[i - |e|] && (e + c)[j] == c[j - |e|];
        }
      }
    }
  }

  /** Empties(b) is exactly the list of empty cells, each once, in scan
      order: so Empties(b)[k] is the k-th empty cell the game's scan meets. */
  lemma EmptiesInScanOrder(b: Board)
    ensures forall i :: 0 <= i < |Empties(b)| ==>
      var p := Empties(b)[i];
      0 <= p.x < |b| && 0 <= p.y < |b[p.x]| && b[p.x][p.y] == Empty
    ensures forall i, j :: 0 <= i < j < |Empties(b)| ==> ScansBefore(Empties(b)[i], Empties(b)[j])
    ensures forall x, y :: 0 <= x < |b| && 0 <= y < |b[x]| && b[x][y] == Empty ==> Pos(x, y) in Empties(b)
  {
    EmptiesBeforeFacts(b, |b|);
  }

  lemma {:induction false} ColumnEmptiesPrefix(col: seq<Cell>, x: int, n: nat, n': nat)
    requires n <= n' <= |col|
    ensures ColumnEmpties(col, x, n) <= ColumnEmpties(col, x, n')
    decreases n' - n
  {
    if n < n' {
      ColumnEmptiesPrefix(col, x, n, n' - 1);
    }
  }

  lemma {:induction false} EmptiesBeforePrefix(b: Board, m: nat, m': nat)
    requires m <= m' <= |b|
    ensures EmptiesBefore(b, m) <= EmptiesBefore(b, m')
    decreases m' - m
  {
    if m < m' {
      EmptiesBeforePrefix(b, m, m' - 1);
    }
  }

  /** When the scan has reached the empty cell (x, y) after counting
      `count` empty cells, that cell is Empties(b)[count]. */
  lemma EmptiesAtScan(b: Board, x: nat, y: nat)
    requires x < |b| && y < |b[x]| && b[x][y] == Empty
    ensures |EmptiesBefore(b, x)| + |ColumnEmpties(b[x], x, y)| < |Empties(b)|
    ensures Empties(b)[|EmptiesBefore(b, x)| + |ColumnEmpties(b[x], x, y)|] == Pos(x, y)
  {
    var pre := EmptiesBefore(b, x) + ColumnEmpties(b[x], x, y + 1);
    assert ColumnEmpties(b[x], x, y + 1) == ColumnEmpties(b[x], x, y) + [Pos(x, y)];
    ColumnEmptiesPrefix(b[x], x, y + 1, |b[x]|);
    assert EmptiesBefore(b, x + 1) == EmptiesBefore(b, x) + ColumnEmpties(b[x], x, |b[x]|);
    assert pre <= EmptiesBefore(b, x + 1);
    EmptiesBeforePrefix(b, x + 1, |b|);
    assert pre[|pre| - 1] == Pos(x, y);
  }

  /** 1 for an unoccupied cell, 0 for a tile. */
  function EmptyScore(c: Cell): int
  {
    if c == Empty then 1 else 0
  }

  lemma {:induction false} ColumnEmptiesPut(col: seq<Cell>, x: int, n: nat, y: int, c: Cell)
    requires n <= |col| && 0 <= y < |col|
    ensures |ColumnEmpties(col[y := c], x, n)| ==
      |ColumnEmpties(col, x, n)| + (if y < n then EmptyScore(c) - EmptyScore(col[y]) else 0)
  {
    if n > 0 {
      ColumnEmptiesPut(col, x, n - 1, y, c);
    }
  }

  lemma {:induction false} EmptiesBeforePut(b: Board, m: nat, p: Pos, c: Cell)
    requires m <= |b| && 0 <= p.x < |b| && 0 <= p.y < |b[p.x]|
    ensures |EmptiesBefore(Put(b, p, c), m)| ==
      |EmptiesBefore(b, m)| + (if p.x < m then EmptyScore(c) - EmptyScore(b[p.x][p.y]) else 0)
  {
    if m > 0 {
      EmptiesBeforePut(b, m - 1, p, c);
      if p.x == m - 1 {
        ColumnEmptiesPut(b[m - 1], m - 1, |b[m - 1]|, p.y, c);
      } else {
        assert Put(b, p, c)[m - 1] == b[m - 1];
      }
    }
  }

  /** Replacing one cell changes the number of empty cells by the change
      at that cell only. */
  lemma CountEmptyPut(b: Board, p: Pos, c: Cell)
    requires 0 <= p.x < |b| && 0 <= p.y < |b[p.x]|
    ensures CountEmpty(Put(b, p, c)) == CountEmpty(b) + EmptyScore(c) - EmptyScore(b[p.x][p.y])
  {
    EmptiesBeforePut(b, |b|, p, c);
  }

  lemma {:induction false} ColumnEmptiesAllEmpty(col: seq<Cell>, x: int, n: nat)
    requires n <= |col| && forall y :: 0 <= y < |col| ==> col[y] == Empty
    ensures |ColumnEmpties(col, x, n)| == n
  {
    if n > 0 {
      ColumnEmptiesAllEmpty(col, x, n - 1);
    }
  }

  lemma {:induction false} EmptiesBeforeAllEmpty(b: Board, m: nat, rows: nat)
    requires m <= |b| && Shaped(b, |b|, rows)
    requires forall x, y :: 0 <= x < |b| && 0 <= y < rows ==> b[x][y] == Empty
    ensures |EmptiesBefore(b, m)| == m * rows
  {
    if m > 0 {
      EmptiesBeforeAllEmpty(b, m - 1, rows);
      ColumnEmptiesAllEmpty(b[m - 1], m - 1, rows);
      assert (m - 1) * rows + rows == m * rows;
    }
  }

  /** An unoccupied board of the given size: cols * rows empty cells,
      the value the game's counter starts from. */
  function EmptyBoard(cols: nat, rows: nat): (b: Board)
    ensures Shaped(b, cols, rows)
    ensures forall x, y :: 0 <= x < cols && 0 <= y < rows ==> b[x][y] == Empty
    ensures CountEmpty(b) == cols * rows
  {
    var b := seq(cols, _ => seq(rows, _ => Empty));
    EmptiesBeforeAllEmpty(b, cols, rows);
    b
  }

  // ---------------------------------------------------------------------
  // Placing a new tile.

  /** The value of a new tile for a uniform draw r in [0, 1): 2 below 0.8,
      4 otherwise. */
  function TileFor(r: real): (v: int)
    ensures v == 2 || v == 4
    ensures v == 2 <==> r < 0.8
  {
    if r < 0.8 then 2 else 4
  }

  /** The board after a new tile is placed in the rnd-th empty cell; a
      full board is left as it is. */
  function AddTile(b: Board, rnd: nat, r: real): (a: Board)
    requires CountEmpty(b) > 0 ==> rnd < CountEmpty(b)
    ensures CountEmpty(b) == 0 ==> a == b
    ensures CountEmpty(b) > 0 ==>
      var p := Empties(b)[rnd];
      && 0 <= p.x < |b| && 0 <= p.y < |b[p.x]| && b[p.x][p.y] == Empty
      && |a| == |b| && (forall x :: 0 <= x < |b| ==> |a[x]| == |b[x]|)
      && a[p.x][p.y] == Tile(TileFor(r))
      && (forall x, y :: 0 <= x < |b| && 0 <= y < |b[x]| && Pos(x, y) != p ==> a[x][y] == b[x][y])
      && CountEmpty(a) == CountEmpty(b) - 1
  {
    if CountEmpty(b) == 0 then b
    else
      EmptiesInScanOrder(b);
      var p := Empties(b)[rnd];
      CountEmptyPut(b, p, Tile(TileFor(r)));
      Put(b, p, Tile(TileFor(r)))
  }

  // ---------------------------------------------------------------------
  // Tile values.

  /** n is 1, 2, 4, 8, ... */
  predicate IsPowerOfTwo(n: nat)
  {
    n == 1 || (n > 1 && n % 2 == 0 && IsPowerOfTwo(n / 2))
  }

  /** Every tile holds a power of two no smaller than 2. */
  predicate TilesArePowers(b: Board)
  {
    forall x, y :: 0 <= x < |b| && 0 <= y < |b[x]| && b[x][y].Tile? ==>
      2 <= b[x][y].value && IsPowerOfTwo(b[x][y].value)
  }

  /** A new tile (2 or 4) keeps every tile a power of two. */
  lemma AddTileKeepsPowers(b: Board, rnd: nat, r: real)
    requires CountEmpty(b) > 0 ==> rnd < CountEmpty(b)
    requires TilesArePowers(b)
    ensures TilesArePowers(AddTile(b, rnd, r))
  {
    if CountEmpty(b) > 0 {
      assert IsPowerOfTwo(4 / 2);
      var a: Board, p: Pos := AddTile(b, rnd, r), Empties(b)[rnd];
      forall x, y | 0 <= x < |a| && 0 <= y < |a[x]| && a[x][y].Tile?
        ensures 2 <= a[x][y].value && IsPowerOfTwo(a[x][y].value)
      {
        if Pos(x, y) != p {
          assert a[x][y] == b[x][y];
        }
      }
    }
  }

  /** The value of a cell for the sums: a tile's value, 0 when empty. */
  function Value(c: Cell): int
  {
    if c.Tile? then c.value else 0
  }

  /** The sum of col[0..n]. */
  function ColumnSum(col: seq<Cell>, n: nat): int
    requires n <= |col|
  {
    if n == 0 then 0 else ColumnSum(col, n - 1) + Value(col[n - 1])
  }

  function ColumnTotal(col: seq<Cell>): int
  {
    ColumnSum(col, |col|)
  }

  /** The sum of columns 0..m. */
  function BoardSum(b: Board, m: nat): int
    requires m <= |b|
  {
    if m == 0 then 0 else BoardSum(b, m - 1) + ColumnTotal(b[m - 1])
  }

  /** The total of all tile values on the board. */
  function Total(b: Board): int
  {
    BoardSum(b, |b|)
  }

  /** Every column is long enough to have a row y. */
  predicate HasRow(b: Board, y: int)
  {
    forall x :: 0 <= x < |b| ==> 0 <= y < |b[x]|
  }

  /** The sum of row y over columns 0..m. */
  function RowSum(b: Board, y: int, m: nat): int
    requires m <= |b| && HasRow(b, y)
  {
    if m == 0 then 0
    else
      var col := b[m - 1];
      assert 0 <= m - 1 < |b|;
      RowSum(b, y, m - 1) + Value(col[y])
  }

  function RowTotal(b: Board, y: int): int
    requires HasRow(b, y)
  {
    RowSum(b, y, |b|)
  }

  lemma {:induction false} ColumnSumPut(col: seq<Cell>, n: nat, y: int, c: Cell)
    requires n <= |col| && 0 <= y < |col|
    ensures ColumnSum(col[y := c], n) ==
      ColumnSum(col, n) + (if y < n then Value(c) - Value(col[y]) else 0)
  {
    if n > 0 {
      ColumnSumPut(col, n - 1, y, c);
    }
  }

  lemma ColumnTotalPut(col: seq<Cell>, y: int, c: Cell)
    requires 0 <= y < |col|
    ensures ColumnTotal(col[y := c]) == ColumnTotal(col) + Value(c) - Value(col[y])
  {
    ColumnSumPut(col, |col|, y, c);
  }

  lemma {:induction false} BoardSumPut(b: Board, m: nat, p: Pos, c: Cell)
    requires m <= |b| && 0 <= p.x < |b| && 0 <= p.y < |b[p.x]|
    ensures BoardSum(Put(b, p, c), m) ==
      BoardSum(b, m) + (if p.x < m then Value(c) - Value(b[p.x][p.y]) else 0)
  {
    if m > 0 {
      BoardSumPut(b, m - 1, p, c);
      if p.x == m - 1 {
        ColumnTotalPut(b[m - 1], p.y, c);
      } else {
        assert Put(b, p, c)[m - 1] == b[m - 1];
      }
    }
  }

  lemma TotalPut(b: Board, p: Pos, c: Cell)
    requires 0 <= p.x < |b| && 0 <= p.y < |b[p.x]|
    ensures Total(Put(b, p, c)) == Total(b) + Value(c) - Value(b[p.x][p.y])
  {
    BoardSumPut(b, |b|, p, c);
  }

  lemma {:induction false} RowSumPut(b: Board, y: int, m: nat, p: Pos, c: Cell)
    requires m <= |b| && HasRow(b, y)
    requires 0 <= p.x < |b| && 0 <= p.y < |b[p.x]|
    ensures RowSum(Put(b, p, c), y, m) ==
      RowSum(b, y, m) + (if p.x < m && p.y == y then Value(c) - Value(b[p.x][p.y]) else 0)
  {
    if m > 0 {
      RowSumPut(b, y, m - 1, p, c);
    }
  }

  // ---------------------------------------------------------------------
  // One slide step, and the steps of a move.

  /** The neighbour of p toward d: up is y + 1, down y - 1, left x - 1,
      right x + 1. */
  function Neighbour(p: Pos, d: Direction): (q: Pos)
    ensures q != p
  {
    match d
    case Up => Pos(p.x, p.y + 1)
    case Down => Pos(p.x, p.y - 1)
    case Left => Pos(p.x - 1, p.y)
    case Right => Pos(p.x + 1, p.y)
  }

  /** One step: the tile at src (if any) goes to dst. */
  datatype Move = Move(src: Pos, dst: Pos)

  predicate Fits(m: Move, cols: nat, rows: nat)
  {
    InRange(m.src, cols, rows) && InRange(m.dst, cols, rows) && m.src != m.dst
  }

  datatype Outcome = Stay | Shift | Merge

  /** What a step does: nothing from an empty cell; a shift into an
      empty neighbour; a merge into a neighbour holding the same value;
      nothing otherwise. */
  function OutcomeOf(b: Board, m: Move): Outcome
    requires 0 <= m.src.x < |b| && 0 <= m.src.y < |b[m.src.x]|
    requires 0 <= m.dst.x < |b| && 0 <= m.dst.y < |b[m.dst.x]|
  {
    var s, t := b[m.src.x][m.src.y], b[m.dst.x][m.dst.y];
    if s.Empty? then Stay
    else if t.Empty? then Shift
    else if t.value == s.value then Merge
    else Stay
  }

  /** The progress of a move: the board, whether any tile shifted or
      merged, and how many merges there were. */
  datatype Slide = Slide(board: Board, moved: bool, merges: nat)

  function Apply(s: Slide, m: Move, cols: nat, rows: nat): (r: Slide)
    requires Shaped(s.board, cols, rows) && Fits(m, cols, rows)
    ensures Shaped(r.board, cols, rows)
  {
    var b := s.board;
    match OutcomeOf(b, m)
    case Stay => s
    case Shift =>
      Slide(Put(Put(b, m.dst, b[m.src.x][m.src.y]), m.src, Empty), true, s.merges)
    case Merge =>
      Slide(Put(Put(b, m.dst, Tile(b[m.dst.x][m.dst.y].value * 2)), m.src, Empty), true, s.merges + 1)
  }

  /** A step taken part-way through a move does to the board what it
      would do at the start of one, and adds to the flag and count. */
  lemma ApplyFrom(s: Slide, m: Move, cols: nat, rows: nat)
    requires Shaped(s.board, cols, rows) && Fits(m, cols, rows)
    ensures var r := Apply(Slide(s.board, false, 0), m, cols, rows);
      Apply(s, m, cols, rows) == Slide(r.board, s.moved || r.moved, s.merges + r.merges)
  {
  }

  /** The number of lines a pass walks: every line but the one at the
      target edge. */
  function Lines(d: Direction, cols: nat, rows: nat): nat
  {
    match d
    case Up | Down => if rows > 0 then rows - 1 else 0
    case Left | Right => if cols > 0 then cols - 1 else 0
  }

  /** The number of cells on one line. */
  function Breadth(d: Direction, cols: nat, rows: nat): nat
  {
    match d
    case Up | Down => cols
    case Left | Right => rows
  }

  /** The j-th cell of the k-th line a pass walks.  Up walks y from
      rows - 2 down to 0, down walks y from 1 up, left walks x from 1 up,
      right walks x from cols - 2 down to 0; within a line the other
      coordinate goes up from 0. */
  function Source(d: Direction, cols: nat, rows: nat, k: nat, j: nat): Pos
  {
    match d
    case Up => Pos(j, rows - 2 - k)
    case Down => Pos(j, 1 + k)
    case Left => Pos(1 + k, j)
    case Right => Pos(cols - 2 - k, j)
  }

  function MoveAt(d: Direction, cols: nat, rows: nat, k: nat, j: nat): (m: Move)
    requires k < Lines(d, cols, rows) && j < Breadth(d, cols, rows)
    ensures Fits(m, cols, rows) && m.dst == Neighbour(m.src, d)
  {
    var p := Source(d, cols, rows, k, j);
    Move(p, Neighbour(p, d))
  }

  /** The steps of a move, grouped the way the game's loops take them:
      the first j steps of line k, the first k lines of a pass, the first
      n passes. */
  function LineRun(s: Slide, d: Direction, cols: nat, rows: nat, k: nat, j: nat): (r: Slide)
    requires Shaped(s.board, cols, rows) && k < Lines(d, cols, rows) && j <= Breadth(d, cols, rows)
    ensures Shaped(r.board, cols, rows)
  {
    if j == 0 then s
    else Apply(LineRun(s, d, cols, rows, k, j - 1), MoveAt(d, cols, rows, k, j - 1), cols, rows)
  }

  function PassRun(s: Slide, d: Direction, cols: nat, rows: nat, k: nat): (r: Slide)
    requires Shaped(s.board, cols, rows) && k <= Lines(d, cols, rows)
    ensures Shaped(r.board, cols, rows)
  {
    if k == 0 then s
    else LineRun(PassRun(s, d, cols, rows, k - 1), d, cols, rows, k - 1, Breadth(d, cols, rows))
  }

  function SweepRun(s: Slide, d: Direction, cols: nat, rows: nat, n: nat): (r: Slide)
    requires Shaped(s.board, cols, rows)
    ensures Shaped(r.board, cols, rows)
  {
    if n == 0 then s
    else PassRun(SweepRun(s, d, cols, rows, n - 1), d, cols, rows, Lines(d, cols, rows))
  }

  /** A move runs exactly this many passes. */
  const Passes: nat := 3

  /** The outcome of the three passes of a move toward d, before any new
      tile is added. */
  function Slid(b: Board, d: Direction, cols: nat, rows: nat): (s: Slide)
    requires Shaped(b, cols, rows)
    ensures Shaped(s.board, cols, rows)
  {
    SweepRun(Slide(b, false, 0), d, cols, rows, Passes)
  }

  // ---------------------------------------------------------------------
  // What a step, and therefore a move, conserves.

  /** A step keeps the total of all tile values. */
  lemma ApplyKeepsTotal(s: Slide, m: Move, cols: nat, rows: nat)
    requires Shaped(s.board, cols, rows) && Fits(m, cols, rows)
    ensures Total(Apply(s, m, cols, rows).board) == Total(s.board)
  {
    var b := s.board;
    var v := b[m.src.x][m.src.y];
    match OutcomeOf(b, m)
    case Stay =>
    case Shift =>
      TotalPut(b, m.dst, v);
      TotalPut(Put(b, m.dst, v), m.src, Empty);
    case Merge =>
      var t := Tile(b[m.dst.x][m.dst.y].value * 2);
      TotalPut(b, m.dst, t);
      TotalPut(Put(b, m.dst, t), m.src, Empty);
  }

  /** A step within one column keeps every column's total. */
  lemma ApplyKeepsColumns(s: Slide, m: Move, cols: nat, rows: nat)
    requires Shaped(s.board, cols, rows) && Fits(m, cols, rows) && m.src.x == m.dst.x
    ensures forall x :: 0 <= x < cols ==>
      ColumnTotal(Apply(s, m, cols, rows).board[x]) == ColumnTotal(s.board[x])
  {
    var b: Board := s.board;
    var x0 := m.src.x;
    var v: Cell := b[m.src.x][m.src.y];
    var t: Cell := if OutcomeOf(b, m) == Merge then Tile(b[m.dst.x][m.dst.y].value * 2) else v;
    if OutcomeOf(b, m) != Stay {
      var b1 := Put(b, m.dst, t);
      ColumnTotalPut(b[x0], m.dst.y, t);
      assert b1[x0] == b[x0][m.dst.y := t];
      ColumnTotalPut(b1[x0], m.src.y, Empty);
      assert Put(b1, m.src, Empty)[x0] == b1[x0][m.src.y := Empty];
      forall x | 0 <= x < cols && x != x0
        ensures Put(b1, m.src, Empty)[x] == b[x]
      {
      }
    }
  }

  /** A step within one row keeps every row's total. */
  lemma ApplyKeepsRows(s: Slide, m: Move, cols: nat, rows: nat)
    requires Shaped(s.board, cols, rows) && Fits(m, cols, rows) && m.src.y == m.dst.y
    ensures forall y :: 0 <= y < rows ==>
      RowTotal(Apply(s, m, cols, rows).board, y) == RowTotal(s.board, y)
  {
    var b: Board := s.board;
    var v: Cell := b[m.src.x][m.src.y];
    var t: Cell := if OutcomeOf(b, m) == Merge then Tile(b[m.dst.x][m.dst.y].value * 2) else v;
    if OutcomeOf(b, m) != Stay {
      var b1 := Put(b, m.dst, t);
      forall y | 0 <= y < rows
        ensures RowTotal(Put(b1, m.src, Empty), y) == RowTotal(b, y)
      {
        RowSumPut(b, y, cols, m.dst, t);
        RowSumPut(b1, y, cols, m.src, Empty);
      }
    }
  }

  /** A shift keeps the number of empty cells; a merge adds exactly one. */
  lemma ApplyCountsMerges(s: Slide, m: Move, cols: nat, rows: nat)
    requires Shaped(s.board, cols, rows) && Fits(m, cols, rows)
    ensures Apply(s, m, cols, rows).merges >= s.merges
    ensures CountEmpty(Apply(s, m, cols, rows).board) ==
      CountEmpty(s.board) + Apply(s, m, cols, rows).merges - s.merges
  {
    var b := s.board;
    var v := b[m.src.x][m.src.y];
    match OutcomeOf(b, m)
    case Stay =>
    case Shift =>
      CountEmptyPut(b, m.dst, v);
      CountEmptyPut(Put(b, m.dst, v), m.src, Empty);
    case Merge =>
      var t := Tile(b[m.dst.x][m.dst.y].value * 2);
      CountEmptyPut(b, m.dst, t);
      CountEmptyPut(Put(b, m.dst, t), m.src, Empty);
  }

  /** Doubling a power of two gives a power of two. */
  lemma DoubleIsPower(v: int)
    requires 2 <= v && IsPowerOfTwo(v)
    ensures IsPowerOfTwo(2 * v)
  {
    assert (2 * v) / 2 == v;
  }

  /** A step keeps every tile a power of two no smaller than 2. */
  lemma ApplyKeepsPowers(s: Slide, m: Move, cols: nat, rows: nat)
    requires Shaped(s.board, cols, rows) && Fits(m, cols, rows) && TilesArePowers(s.board)
    ensures TilesArePowers(Apply(s, m, cols, rows).board)
  {
    var b := s.board;
    if OutcomeOf(b, m) == Merge {
      DoubleIsPower(b[m.dst.x][m.dst.y].value);
    }
  }

  /** What a run of steps toward d from s to r keeps: the total of the
      tile values, every column total (vertical moves) or every row total
      (horizontal moves); the empty cells grow by the merges made; tiles
      stay powers of two; the moved flag is never cleared, and a run that
      moved nothing left everything as it was; once anything has moved
      there is an empty cell. */
  ghost predicate Keeps(s: Slide, r: Slide, d: Direction, cols: nat, rows: nat)
    requires Shaped(s.board, cols, rows) && Shaped(r.board, cols, rows)
  {
    && Total(r.board) == Total(s.board)
    && ((d == Up || d == Down) ==>
          forall x :: 0 <= x < cols ==> ColumnTotal(r.board[x]) == ColumnTotal(s.board[x]))
    && ((d == Left || d == Right) ==>
          forall y :: 0 <= y < rows ==> RowTotal(r.board, y) == RowTotal(s.board, y))
    && r.merges >= s.merges
    && CountEmpty(r.board) == CountEmpty(s.board) + r.merges - s.merges
    && (TilesArePowers(s.board) ==> TilesArePowers(r.board))
    && (s.moved ==> r.moved)
    && (!r.moved ==> r == s)
    && (r.moved && (s.moved ==> CountEmpty(s.board) > 0) ==> CountEmpty(r.board) > 0)
  }

  lemma KeepsTrans(s: Slide, m: Slide, r: Slide, d: Direction, cols: nat, rows: nat)
    requires Shaped(s.board, cols, rows) && Shaped(m.board, cols, rows) && Shaped(r.board, cols, rows)
    requires Keeps(s, m, d, cols, rows) && Keeps(m, r, d, cols, rows)
    ensures Keeps(s, r, d, cols, rows)
  {
  }

  /** One step toward d keeps all of it; a step that shifts or merges
      leaves its source cell empty. */
  lemma ApplyKeeps(s: Slide, m: Move, d: Direction, cols: nat, rows: nat)
    requires Shaped(s.board, cols, rows) && Fits(m, cols, rows) && m.dst == Neighbour(m.src, d)
    ensures Keeps(s, Apply(s, m, cols, rows), d, cols, rows)
  {
    var r := Apply(s, m, cols, rows);
    ApplyKeepsTotal(s, m, cols, rows);
    if d == Up || d == Down {
      ApplyKeepsColumns(s, m, cols, rows);
    } else {
      ApplyKeepsRows(s, m, cols, rows);
    }
    ApplyCountsMerges(s, m, cols, rows);
    if TilesArePowers(s.board) {
      ApplyKeepsPowers(s, m, cols, rows);
    }
    if OutcomeOf(s.board, m) != Stay {
      EmptiesInScanOrder(r.board);
      assert r.board[m.src.x][m.src.y] == Empty;
      assert m.src in Empties(r.board);
    }
  }

  lemma {:induction false} LineRunKeeps(s: Slide, d: Direction, cols: nat, rows: nat, k: nat, j: nat)
    requires Shaped(s.board, cols, rows) && k < Lines(d, cols, rows) && j <= Breadth(d, cols, rows)
    ensures Keeps(s, LineRun(s, d, cols, rows, k, j), d, cols, rows)
  {
    if j > 0 {
      var mid := LineRun(s, d, cols, rows, k, j - 1);
      LineRunKeeps(s, d, cols, rows, k, j - 1);
      ApplyKeeps(mid, MoveAt(d, cols, rows, k, j - 1), d, cols, rows);
      KeepsTrans(s, mid, LineRun(s, d, cols, rows, k, j), d, cols, rows);
    }
  }

  lemma {:induction false} PassRunKeeps(s: Slide, d: Direction, cols: nat, rows: nat, k: nat)
    requires Shaped(s.board, cols, rows) && k <= Lines(d, cols, rows)
    ensures Keeps(s, PassRun(s, d, cols, rows, k), d, cols, rows)
  {
    if k > 0 {
      var mid := PassRun(s, d, cols, rows, k - 1);
      var r := LineRun(mid, d, cols, rows, k - 1, Breadth(d, cols, rows));
      PassRunKeeps(s, d, cols, rows, k - 1);
      LineRunKeeps(mid, d, cols, rows, k - 1, Breadth(d, cols, rows));
      KeepsTrans(s, mid, r, d, cols, rows);
      assert r == PassRun(s, d, cols, rows, k);
    }
  }

  lemma {:induction false} SweepRunKeeps(s: Slide, d: Direction, cols: nat, rows: nat, n: nat)
    requires Shaped(s.board, cols, rows)
    ensures Keeps(s, SweepRun(s, d, cols, rows, n), d, cols, rows)
  {
    if n > 0 {
      var mid := SweepRun(s, d, cols, rows, n - 1);
      SweepRunKeeps(s, d, cols, rows, n - 1);
      PassRunKeeps(mid, d, cols, rows, Lines(d, cols, rows));
      KeepsTrans(s, mid, SweepRun(s, d, cols, rows, n), d, cols, rows);
    }
  }

  /** What the three passes of a move conserve. */
  lemma SlidConserves(b: Board, d: Direction, cols: nat, rows: nat)
    requires Shaped(b, cols, rows)
    ensures Total(Slid(b, d, cols, rows).board) == Total(b)
    ensures d == Up || d == Down ==> forall x :: 0 <= x < cols ==>
      ColumnTotal(Slid(b, d, cols, rows).board[x]) == ColumnTotal(b[x])
    ensures d == Left || d == Right ==> forall y :: 0 <= y < rows ==>
      RowTotal(Slid(b, d, cols, rows).board, y) == RowTotal(b, y)
    ensures CountEmpty(Slid(b, d, cols, rows).board) == CountEmpty(b) + Slid(b, d, cols, rows).merges
    ensures TilesArePowers(b) ==> TilesArePowers(Slid(b, d, cols, rows).board)
    ensures !Slid(b, d, cols, rows).moved ==> Slid(b, d, cols, rows) == Slide(b, false, 0)
    ensures Slid(b, d, cols, rows).moved ==> CountEmpty(Slid(b, d, cols, rows).board) > 0
  {
    SweepRunKeeps(Slide(b, false, 0), d, cols, rows, Passes);
  }

  /** A shift or merge along the single column of a 1 x 4 board. */
  lemma ColumnStep(col: seq<Cell>, m: Move, col': seq<Cell>, merged: bool)
    requires |col| == 4 && Fits(m, 1, 4) && OutcomeOf([col], m) == (if merged then Merge else Shift)
    requires col' == col[m.dst.y := if merged then Tile(2 * col[m.dst.y].value) else col[m.src.y]][m.src.y := Empty]
    ensures Apply(Slide([col], false, 0), m, 1, 4) == Slide([col'], true, if merged then 1 else 0)
  {
  }

  /** A pass up a 1 x 4 board: the steps from y = 2, 1 and 0. */
  lemma ColumnPassUp(s: Slide)
    requires Shaped(s.board, 1, 4)
    ensures PassRun(s, Up, 1, 4, 3) ==
      var s' := Apply(s, Move(Pos(0, 2), Pos(0, 3)), 1, 4);
      var s'' := Apply(s', Move(Pos(0, 1), Pos(0, 2)), 1, 4);
      Apply(s'', Move(Pos(0, 0), Pos(0, 1)), 1, 4)
  {
    assert PassRun(s, Up, 1, 4, 1) == LineRun(s, Up, 1, 4, 0, 1);
    assert PassRun(s, Up, 1, 4, 2) == LineRun(PassRun(s, Up, 1, 4, 1), Up, 1, 4, 1, 1);
    assert PassRun(s, Up, 1, 4, 3) == LineRun(PassRun(s, Up, 1, 4, 2), Up, 1, 4, 2, 1);
  }

  /** Nothing stops a merged tile from merging again in the same move: a
      column holding (from y = 0 up) nothing, 2, 2, 4 moved up ends as a
      single 8 at the top, after two merges. */
  lemma MergedTileMergesAgain()
    ensures Slid([[Empty, Tile(2), Tile(2), Tile(4)]], Up, 1, 4)
      == Slide([[Empty, Empty, Empty, Tile(8)]], true, 2)
  {
    var c0, c1, c2 := [Empty, Tile(2), Tile(2), Tile(4)], [Empty, Empty, Tile(4), Tile(4)], [Empty, Empty, Empty, Tile(8)];
    var s0, s1, s2 := Slide([c0], false, 0), Slide([c1], true, 1), Slide([c2], true, 2);
    var top, mid := Move(Pos(0, 2), Pos(0, 3)), Move(Pos(0, 1), Pos(0, 2));
    // first pass: the 2 at y = 1 merges into the 2 at y = 2
    ColumnPassUp(s0);
    assert c1 == c0[2 := Tile(4)][1 := Empty];
    ColumnStep(c0, mid, c1, true);
    ApplyFrom(s0, mid, 1, 4);
    assert PassRun(s0, Up, 1, 4, 3) == s1;
    // second pass: the new 4 merges into the top 4
    ColumnPassUp(s1);
    assert c2 == c1[3 := Tile(8)][2 := Empty];
    ColumnStep(c1, top, c2, true);
    ApplyFrom(s1, top, 1, 4);
    assert PassRun(s1, Up, 1, 4, 3) == s2;
    // third pass: nothing moves
    ColumnPassUp(s2);
    assert PassRun(s2, Up, 1, 4, 3) == s2;
    assert SweepRun(s0, Up, 1, 4, 1) == s1;
    assert SweepRun(s0, Up, 1, 4, 2) == s2;
  }




}
