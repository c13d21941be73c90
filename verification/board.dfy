/** The Connect Four board (lib/board.rb): a grid of cells, gravity placement,
    and the four directional scans for a line of four. Row 0 is the top row;
    chips fall towards the highest row index. */
module Board {
  import opened Wrappers

  type Color = string

  /** An empty cell is `None` (Ruby `nil`); an occupied one holds a colour. */
  type Cell = Option<Color>

  type Grid = seq<seq<Cell>>

  const DefaultRows: nat := 6
  const DefaultColumns: nat := 7

  datatype Board = Board(grid: Grid)

  /** Why a placement is rejected. */
  datatype PlaceError = ColumnFull | OutOfBounds

  /** A successful placement: the new board and the row the chip landed in. */
  datatype Placement = Placement(board: Board, row: nat)

  /** What `game_over?` reports: a winning colour, `'tie'`, or `nil`. */
  datatype Outcome = Win(color: Color) | Tie | Ongoing

  // ---------------------------------------------------------------------
  // Shape
  // ---------------------------------------------------------------------

  /** The number of columns, read off the first row as `grid[0].size` does. */
  function Width(g: Grid): nat
  {
    if |g| == 0 then 0 else |g[0]|
  }

  /** Every row has the same length. */
  predicate Rectangular(g: Grid)
  {
    forall i :: 0 <= i < |g| ==> |g[i]| == Width(g)
  }

  /** `Board.new(rows, columns)`: `rows` rows of `columns` empty cells. */
  function New(rows: nat, columns: nat): (b: Board)
    ensures |b.grid| == rows && Rectangular(b.grid)
    ensures rows > 0 ==> Width(b.grid) == columns
    ensures forall i, j :: 0 <= i < rows && 0 <= j < |b.grid[i]| ==> b.grid[i][j] == None
  {
    Board(seq(rows, _ => seq(columns, _ => None)))
  }

  /** `Board.new` with its default arguments. */
  function NewDefault(): (b: Board)
    ensures |b.grid| == 6 && Width(b.grid) == 7 && Rectangular(b.grid)
  {
    New(DefaultRows, DefaultColumns)
  }

  /** Ruby `Array#[]` with an integer index: negative indices count from the
      end, and an index outside the array reads `nil`. */
  function RubyAt(row: seq<Cell>, k: int): (c: Cell)
    ensures 0 <= k < |row| ==> c == row[k]
    ensures -|row| <= k < 0 ==> c == row[|row| + k]
    ensures (k >= |row| || k < -|row|) ==> c == None
  {
    if 0 <= k < |row| then row[k]
    else if -|row| <= k < 0 then row[|row| + k]
    else None
  }

  // ---------------------------------------------------------------------
  // Placement
  // ---------------------------------------------------------------------

  /** `column_full?`: walks the rows and stops at the first one whose cell at
      `column` (Ruby indexing) is `nil`. */
  function IsColumnFull(g: Grid, column: int): (full: bool)
    ensures full <==> forall i :: 0 <= i < |g| ==> RubyAt(g[i], column).Some?
    decreases |g|
  {
    if |g| == 0 then true
    else if RubyAt(g[0], column).None? then false
    else
      var rest := IsColumnFull(g[1..], column);
      assert forall i :: 1 <= i < |g| ==> g[1..][i - 1] == g[i];
      rest
  }

  /** True when `column` names a column of the grid that still has an empty cell. */
  ghost predicate HasRoom(g: Grid, column: int)
  {
    0 <= column < Width(g) && exists i :: 0 <= i < |g| && column < |g[i]| && g[i][column] == None
  }

  /** `valid_placement?`: in range and not full. */
  function ValidPlacement(g: Grid, column: int): (ok: bool)
    requires Rectangular(g)
    ensures ok <==> HasRoom(g, column)
  {
    column >= 0 && column < Width(g) && !IsColumnFull(g, column)
  }

  /** `row` is the lowest empty cell of `column`: empty, with every cell below
      it occupied. */
  ghost predicate IsLandingRow(g: Grid, column: int, row: int)
    requires Rectangular(g) && 0 <= column < Width(g)
  {
    && 0 <= row < |g|
    && g[row][column] == None
    && forall k :: row < k < |g| ==> g[k][column].Some?
  }

  /** The scan of `place_chip`: from `row` upwards, the first empty cell of
      `column`, or `None` when every cell from `row` up to the top is occupied. */
  function FindEmpty(g: Grid, column: int, row: int): (r: Option<nat>)
    requires Rectangular(g) && 0 <= column < Width(g)
    requires -1 <= row < |g|
    ensures r.Some? ==> r.value <= row && g[r.value][column] == None
    ensures forall k :: (if r.Some? then r.value else -1) < k <= row ==> g[k][column].Some?
    decreases row + 1
  {
    if row < 0 then None
    else if g[row][column] == None then Some(row)
    else FindEmpty(g, column, row - 1)
  }

  /** The grid `g` with the single cell (`row`, `column`) set to `v`. */
  function SetCell(g: Grid, row: nat, column: nat, v: Cell): Grid
    requires row < |g| && column < |g[row]|
  {
    g[row := g[row][column := v]]
  }

  /** `g2` is `g` with exactly the cell (`row`, `column`) changed to `v`. */
  ghost predicate ChangesOnly(g: Grid, g2: Grid, row: int, column: int, v: Cell)
  {
    && |g2| == |g|
    && (forall i :: 0 <= i < |g| ==> |g2[i]| == |g[i]|)
    && (forall i, j :: 0 <= i < |g| && 0 <= j < |g[i]| ==>
          g2[i][j] == (if i == row && j == column then v else g[i][j]))
  }

  /** `place_chip`: reject a full column first, then a column outside the
      board; otherwise drop the chip into the lowest empty cell and report its row. */
  function Place(b: Board, color: Color, column: int): (r: Result<Placement, PlaceError>)
    requires Rectangular(b.grid)
    ensures r == Failure(ColumnFull) <==> forall i :: 0 <= i < |b.grid| ==> RubyAt(b.grid[i], column).Some?
    ensures r == Failure(OutOfBounds) <==>
      !(forall i :: 0 <= i < |b.grid| ==> RubyAt(b.grid[i], column).Some?) && !(0 <= column < Width(b.grid))
    ensures r.Success? <==> HasRoom(b.grid, column)
    ensures r.Success? ==>
      && 0 <= column < Width(b.grid)
      && IsLandingRow(b.grid, column, r.value.row)
      && ChangesOnly(b.grid, r.value.board.grid, r.value.row, column, Some(color))
      && Rectangular(r.value.board.grid)
  {
    var g := b.grid;
    if IsColumnFull(g, column) then Failure(ColumnFull)
    else if !ValidPlacement(g, column) then Failure(OutOfBounds)
    else
      match FindEmpty(g, column, |g| - 1)
      case Some(row) =>
        var g2 := SetCell(g, row, column, Some(color));
        assert forall i :: 0 <= i < |g2| ==> |g2[i]| == |g[i]|;
        Success(Placement(Board(g2), row))
      case None =>
        // A column that is not full has an empty cell for the scan to find.
        assert false;
        Failure(ColumnFull)
  }

  // ---------------------------------------------------------------------
  // Gravity: successive placements in one column
  // ---------------------------------------------------------------------

  /** The bottom `k` cells of `column` are occupied and the cells above are empty. */
  ghost predicate StackedTo(g: Grid, column: int, k: int)
    requires Rectangular(g) && 0 <= column < Width(g)
  {
    forall i :: 0 <= i < |g| ==> (g[i][column].Some? <==> i >= |g| - k)
  }

  /** On a column holding `k < rows` stacked chips the next chip lands at
      row `rows - k - 1`, and the stack grows by one. Other columns keep
      their contents. */
  lemma PlaceOnStack(b: Board, color: Color, column: int, k: nat)
    requires Rectangular(b.grid) && 0 <= column < Width(b.grid)
    requires k < |b.grid| && StackedTo(b.grid, column, k)
    ensures Place(b, color, column).Success?
    ensures Place(b, color, column).value.row == |b.grid| - k - 1
    ensures StackedTo(Place(b, color, column).value.board.grid, column, k + 1)
  {
    var g := b.grid;
    assert g[|g| - k - 1][column] == None;
    var r := Place(b, color, column);
    var row := r.value.row;
    assert g[row][column].None?;
  }

  /** A column with all `rows` cells stacked rejects the next chip as full. */
  lemma StackOfRowsIsFull(b: Board, color: Color, column: int)
    requires Rectangular(b.grid) && 0 <= column < Width(b.grid)
    requires StackedTo(b.grid, column, |b.grid|)
    ensures IsColumnFull(b.grid, column)
    ensures Place(b, color, column) == Failure(ColumnFull)
  {
  }

  /** A column with fewer than `rows` stacked chips is not full. */
  lemma ShortStackIsNotFull(b: Board, column: int, k: nat)
    requires Rectangular(b.grid) && 0 <= column < Width(b.grid)
    requires k < |b.grid| && StackedTo(b.grid, column, k)
    ensures !IsColumnFull(b.grid, column)
  {
    assert b.grid[|b.grid| - k - 1][column] == None;
  }

  /** Placements of `colors[0]`, `colors[1]`, ... into `column`, one after
      the other; the first rejection stops the sequence. */
  function DropAll(b: Board, colors: seq<Color>, column: int): (r: Result<Board, PlaceError>)
    requires Rectangular(b.grid)
    ensures r.Success? ==> Rectangular(r.value.grid) && |r.value.grid| == |b.grid|
    ensures r.Success? && |b.grid| > 0 ==> Width(r.value.grid) == Width(b.grid)
    decreases |colors|
  {
    if |colors| == 0 then Success(b)
    else
      match DropAll(b, colors[..|colors| - 1], column)
      case Failure(e) => Failure(e)
      case Success(b1) =>
        match Place(b1, colors[|colors| - 1], column)
        case Failure(e) => Failure(e)
        case Success(p) =>
          assert |p.board.grid[0]| == |b1.grid[0]|;
          Success(p.board)
  }

  /** The only chips on `g` are `colors`, stacked bottom-up in `column`: the
      k-th colour sits in row `rows - k`. */
  ghost predicate HoldsOnly(g: Grid, column: int, colors: seq<Color>)
  {
    forall i, j {:trigger g[i][j]} :: 0 <= i < |g| && 0 <= j < |g[i]| ==>
      g[i][j] == (if j == column && i >= |g| - |colors| then Some(colors[|g| - 1 - i]) else None)
  }

  /** A stack described by `HoldsOnly` is a stack in the sense of `StackedTo`. */
  lemma HoldsOnlyIsStacked(g: Grid, column: int, colors: seq<Color>)
    requires Rectangular(g) && 0 <= column < Width(g) && |colors| <= |g|
    requires HoldsOnly(g, column, colors)
    ensures StackedTo(g, column, |colors|)
  {
    forall i | 0 <= i < |g|
      ensures g[i][column].Some? <==> i >= |g| - |colors|
    {
      assert g[i][column] == (if i >= |g| - |colors| then Some(colors[|g| - 1 - i]) else None);
    }
  }

  /** Writing colour `c` just above a stack of `front` extends the stack. */
  lemma StackOneMore(g1: Grid, g: Grid, column: int, front: seq<Color>, c: Color)
    requires |front| < |g1| && HoldsOnly(g1, column, front)
    requires ChangesOnly(g1, g, |g1| - |front| - 1, column, Some(c))
    ensures HoldsOnly(g, column, front + [c])
  {
    var colors := front + [c];
    forall i, j | 0 <= i < |g| && 0 <= j < |g[i]|
      ensures g[i][j] == (if j == column && i >= |g| - |colors| then Some(colors[|g| - 1 - i]) else None)
    {
      if j == column && i > |g| - |colors| {
        assert colors[|g| - 1 - i] == front[|g1| - 1 - i];
      }
    }
  }

  /** One more drop onto a stack of `front` in `column` extends the stack by `c`. */
  lemma DropOneMore(b: Board, front: seq<Color>, c: Color, column: int)
    requires Rectangular(b.grid) && |front| < |b.grid|
    requires DropAll(b, front, column).Success?
    requires var g1 := DropAll(b, front, column).value.grid;
      0 <= column < Width(g1) && HoldsOnly(g1, column, front) && StackedTo(g1, column, |front|)
    ensures DropAll(b, front + [c], column).Success?
    ensures var g := DropAll(b, front + [c], column).value.grid;
      |g| == |b.grid| && Width(g) == Width(b.grid)
      && HoldsOnly(g, column, front + [c]) && StackedTo(g, column, |front| + 1)
  {
    var colors := front + [c];
    assert colors[..|colors| - 1] == front;
    var b1 := DropAll(b, front, column).value;
    PlaceOnStack(b1, c, column, |front|);
    var g := Place(b1, c, column).value.board.grid;
    StackOneMore(b1.grid, g, column, front, c);
  }

  /** Dropping up to `rows` chips into one column of a fresh board stacks them
      from the bottom up and touches no other cell. */
  lemma {:induction false} DropAllStacks(rows: nat, columns: nat, colors: seq<Color>, column: int)
    requires 0 <= column < columns && 0 < rows && |colors| <= rows
    ensures DropAll(New(rows, columns), colors, column).Success?
    ensures var g := DropAll(New(rows, columns), colors, column).value.grid;
      |g| == rows && Width(g) == columns && HoldsOnly(g, column, colors) && StackedTo(g, column, |colors|)
    decreases |colors|
  {
    var n := |colors|;
    if n > 0 {
      var front := colors[..n - 1];
      var c := colors[n - 1];
      assert front + [c] == colors;
      DropAllStacks(rows, columns, front, column);
      DropOneMore(New(rows, columns), front, c, column);
    } else {
      FreshHoldsNothing(rows, columns, column);
    }
  }

  /** A fresh board holds no chip: an empty stack in every column. */
  lemma FreshHoldsNothing(rows: nat, columns: nat, column: int)
    requires 0 <= column < columns && 0 < rows
    ensures HoldsOnly(New(rows, columns).grid, column, [])
    ensures StackedTo(New(rows, columns).grid, column, 0)
  {
  }

  /** The k-th chip dropped into a column of a fresh board is reported to land
      in row `rows - k`. */
  lemma KthDropLandsAt(rows: nat, columns: nat, colors: seq<Color>, column: int)
    requires 0 <= column < columns && 0 < |colors| <= rows
    ensures var b := DropAll(New(rows, columns), colors[..|colors| - 1], column);
      && b.Success?
      && Place(b.value, colors[|colors| - 1], column).Success?
      && Place(b.value, colors[|colors| - 1], column).value.row == rows - |colors|
  {
    var front := colors[..|colors| - 1];
    DropAllStacks(rows, columns, front, column);
    PlaceOnStack(DropAll(New(rows, columns), front, column).value, colors[|colors| - 1], column, |front|);
  }

  /** After `rows` chips the column is full and the next chip is rejected as
      full; after fewer it is not full. */
  lemma FillingAColumn(rows: nat, columns: nat, colors: seq<Color>, column: int, next: Color)
    requires 0 <= column < columns && 0 < rows && |colors| <= rows
    ensures DropAll(New(rows, columns), colors, column).Success?
    ensures var g := DropAll(New(rows, columns), colors, column).value.grid;
      IsColumnFull(g, column) <==> |colors| == rows
    ensures |colors| == rows ==>
      Place(DropAll(New(rows, columns), colors, column).value, next, column) == Failure(ColumnFull)
  {
    DropAllStacks(rows, columns, colors, column);
    var b := DropAll(New(rows, columns), colors, column).value;
    if |colors| == rows {
      StackOfRowsIsFull(b, next, column);
    } else {
      ShortStackIsNotFull(b, column, |colors|);
    }
  }

  /** A column index at or past the width is rejected as out of bounds. */
  lemma PastTheEdgeIsOutOfBounds(b: Board, color: Color, column: int)
    requires Rectangular(b.grid) && |b.grid| > 0 && column >= Width(b.grid)
    ensures Place(b, color, column) == Failure(OutOfBounds)
  {
    assert RubyAt(b.grid[0], column) == None;
  }

  /** A negative column reads a real column through Ruby's negative indexing
      (-1 is the last column), so it is reported as full when that column is
      full, and as out of bounds otherwise. */
  lemma NegativeColumnRejected(b: Board, color: Color, column: int)
    requires Rectangular(b.grid) && |b.grid| > 0 && column < 0
    ensures Place(b, color, column).Failure?
    ensures Width(b.grid) + column >= 0 ==>
      (Place(b, color, column) == Failure(ColumnFull) <==> IsColumnFull(b.grid, Width(b.grid) + column))
  {
    if Width(b.grid) + column >= 0 {
      forall i | 0 <= i < |b.grid|
        ensures RubyAt(b.grid[i], column) == RubyAt(b.grid[i], Width(b.grid) + column)
      {
      }
    }
  }

  // ---------------------------------------------------------------------
  // Lines of four
  // ---------------------------------------------------------------------

  /** `four_consecutive_chips?` on a window of four: all equal and not `nil`.
      Such a window holds four chips, so the all-empty skip never hides it. */
  predicate Winning(w: seq<Cell>): (b: bool)
    requires |w| == 4
    ensures b <==> w[0].Some? && forall k :: 0 <= k < 4 ==> w[k] == w[0]
    ensures b ==> forall k :: 0 <= k < 4 ==> w[k].Some?
    ensures b ==> !AllEmpty(w)
  {
    w[0].Some? && w[1] == w[0] && w[2] == w[0] && w[3] == w[0]
  }

  /** `compact.empty?`: no cell holds a chip. */
  predicate AllEmpty(w: seq<Cell>)
  {
    forall k :: 0 <= k < |w| ==> w[k].None?
  }

  /** The four scan directions, in the order `game_over?` tries them. */
  datatype Direction = Horizontal | Vertical | DownRight | UpRight

  /** Row step of a direction (rows grow downwards). */
  function RowStep(d: Direction): int
  {
    match d
    case Horizontal => 0
    case Vertical => 1
    case DownRight => 1
    case UpRight => -1
  }

  /** Column step of a direction. */
  function ColumnStep(d: Direction): int
  {
    if d == Vertical then 0 else 1
  }

  predicate InGrid(g: Grid, i: int, j: int)
  {
    0 <= i < |g| && 0 <= j < |g[i]|
  }

  /** All four cells of the line starting at (`i`, `j`) in direction `d` lie
      on the grid. */
  predicate AnchorOk(g: Grid, d: Direction, i: int, j: int)
  {
    && InGrid(g, i, j)
    && InGrid(g, i + RowStep(d), j + ColumnStep(d))
    && InGrid(g, i + 2 * RowStep(d), j + 2 * ColumnStep(d))
    && InGrid(g, i + 3 * RowStep(d), j + 3 * ColumnStep(d))
  }

  /** The four cells of the line starting at (`i`, `j`) in direction `d`. */
  function Line(g: Grid, d: Direction, i: int, j: int): (w: seq<Cell>)
    requires AnchorOk(g, d, i, j)
    ensures |w| == 4 && w[0] == g[i][j]
  {
    var dr, dc := RowStep(d), ColumnStep(d);
    [g[i][j], g[i + dr][j + dc], g[i + 2 * dr][j + 2 * dc], g[i + 3 * dr][j + 3 * dc]]
  }

  /** A line of four of one colour starts at (`i`, `j`) in direction `d`. */
  predicate WinAt(g: Grid, d: Direction, i: int, j: int)
  {
    AnchorOk(g, d, i, j) && Winning(Line(g, d, i, j))
  }

  ghost predicate HasLine(g: Grid, d: Direction)
  {
    exists i, j :: WinAt(g, d, i, j)
  }

  ghost predicate AnyLine(g: Grid)
  {
    HasLine(g, Horizontal) || HasLine(g, Vertical) || HasLine(g, DownRight) || HasLine(g, UpRight)
  }

  /** The order in which the scan for direction `d` visits anchors: the
      vertical scan walks the transposed grid, so it goes column by column;
      the others go row by row. */
  predicate Before(d: Direction, i1: int, j1: int, i2: int, j2: int)
  {
    if d == Vertical then j1 < j2 || (j1 == j2 && i1 < i2)
    else i1 < i2 || (i1 == i2 && j1 < j2)
  }

  /** (`i`, `j`) is the first winning anchor of direction `d` in scan order. */
  ghost predicate FirstWinAt(g: Grid, d: Direction, i: int, j: int)
  {
    WinAt(g, d, i, j) && forall i1, j1 :: WinAt(g, d, i1, j1) ==> !Before(d, i1, j1, i, j)
  }

  /** What a directional scan must report: the colour of its first winning
      line in scan order, or nothing when there is no line. */
  ghost predicate ReportsFirstLine(g: Grid, d: Direction, r: Option<Color>)
  {
    && (r.Some? ==> exists i, j :: FirstWinAt(g, d, i, j) && g[i][j] == r)
    && (r.None? ==> !HasLine(g, d))
  }

  // ---------------------------------------------------------------------
  // Scanning rows of cells: `check_horizontal` and `check_vertical`
  // ---------------------------------------------------------------------

  /** The window of four starting at `m` of `line` is a line of four. */
  predicate WindowWins(line: seq<Cell>, m: int)
  {
    0 <= m && m + 4 <= |line| && Winning(line[m..m + 4])
  }

  /** `each_cons(4)` over one row: the first winning window from `k` on. */
  function CheckLine(line: seq<Cell>, k: nat): (r: Option<Color>)
    ensures r.Some? ==> exists m :: (k <= m && WindowWins(line, m) && line[m] == r &&
      forall m1 :: k <= m1 < m ==> !WindowWins(line, m1))
    ensures r.None? ==> forall m :: k <= m ==> !WindowWins(line, m)
    decreases |line| - k
  {
    if k + 4 > |line| then None
    else if Winning(line[k..k + 4]) then Some(line[k].value)
    else CheckLine(line, k + 1)
  }

  /** An all-empty row holds no window of four. */
  lemma AllEmptyHasNoWindow(line: seq<Cell>)
    requires AllEmpty(line)
    ensures forall m :: !WindowWins(line, m)
  {
    forall m | 0 <= m && m + 4 <= |line|
      ensures !WindowWins(line, m)
    {
      assert line[m..m + 4][0] == line[m];
    }
  }

  /** Row `a` of `lines` holds a winning window at `m`. */
  predicate RowWins(lines: seq<seq<Cell>>, a: int, m: int)
  {
    0 <= a < |lines| && WindowWins(lines[a], m)
  }

  /** (`a`, `m`) is the first winning window at or after row `i`, reading
      row by row and left to right. */
  ghost predicate FirstRowWin(lines: seq<seq<Cell>>, i: int, a: int, m: int)
  {
    && i <= a && RowWins(lines, a, m)
    && (forall a1, m1 :: i <= a1 < a ==> !RowWins(lines, a1, m1))
    && (forall m1 :: m1 < m ==> !WindowWins(lines[a], m1))
  }

  /** The loop of `check_horizontal` over rows `i..`: all-empty rows are
      skipped; the first row holding a window of four decides. */
  function CheckRows(lines: seq<seq<Cell>>, i: nat): (r: Option<Color>)
    ensures r.Some? ==> exists a, m :: FirstRowWin(lines, i, a, m) && lines[a][m] == r
    ensures r.None? ==> forall a, m :: i <= a ==> !RowWins(lines, a, m)
    decreases |lines| - i
  {
    if i >= |lines| then None
    else if AllEmpty(lines[i]) then
      AllEmptyHasNoWindow(lines[i]);
      CheckRows(lines, i + 1)
    else
      match CheckLine(lines[i], 0)
      case Some(c) => Some(c)
      case None => CheckRows(lines, i + 1)
  }

  /** `grid.transpose`: column `j` of the grid becomes row `j`. */
  function Transpose(g: Grid): (t: Grid)
    requires Rectangular(g)
    ensures |t| == Width(g)
    ensures forall j :: 0 <= j < |t| ==> |t[j]| == |g|
    ensures forall j, i :: 0 <= j < |t| && 0 <= i < |g| ==> t[j][i] == g[i][j]
  {
    seq(Width(g), j requires 0 <= j < Width(g) => seq(|g|, i requires 0 <= i < |g| => g[i][j]))
  }

  /** A window in row `i` of the grid is the horizontal line at (`i`, `j`). */
  lemma HorizontalWindow(g: Grid, i: int, j: int)
    ensures RowWins(g, i, j) <==> WinAt(g, Horizontal, i, j)
  {
    if 0 <= i < |g| && 0 <= j && j + 4 <= |g[i]| {
      assert g[i][j..j + 4] == Line(g, Horizontal, i, j);
    }
  }

  /** A window in row `j` of the transposed grid is the vertical line at (`i`, `j`). */
  lemma VerticalWindow(g: Grid, i: int, j: int)
    requires Rectangular(g)
    ensures RowWins(Transpose(g), j, i) <==> WinAt(g, Vertical, i, j)
  {
    var t := Transpose(g);
    if 0 <= j < |t| && 0 <= i && i + 4 <= |t[j]| {
      assert t[j][i..i + 4] == Line(g, Vertical, i, j);
    }
  }

  /** The row scan over the grid reports the first horizontal line. */
  lemma RowScanFindsHorizontal(g: Grid)
    ensures ReportsFirstLine(g, Horizontal, CheckRows(g, 0))
  {
    var r := CheckRows(g, 0);
    forall i, j ensures RowWins(g, i, j) <==> WinAt(g, Horizontal, i, j) {
      HorizontalWindow(g, i, j);
    }
    if r.Some? {
      var a, m :| FirstRowWin(g, 0, a, m) && g[a][m] == r;
      assert FirstWinAt(g, Horizontal, a, m);
    }
  }

  /** The row scan over the transposed grid reports the first vertical line,
      reading column by column. */
  lemma RowScanFindsVertical(g: Grid)
    requires Rectangular(g)
    ensures ReportsFirstLine(g, Vertical, CheckRows(Transpose(g), 0))
  {
    var t := Transpose(g);
    var r := CheckRows(t, 0);
    forall i, j ensures RowWins(t, j, i) <==> WinAt(g, Vertical, i, j) {
      VerticalWindow(g, i, j);
    }
    if r.Some? {
      var a, m :| FirstRowWin(t, 0, a, m) && t[a][m] == r;
      assert FirstWinAt(g, Vertical, m, a);
    }
  }

  /** `check_horizontal`: the first row-by-row line of four, if any. */
  function CheckHorizontal(g: Grid): (r: Option<Color>)
    ensures ReportsFirstLine(g, Horizontal, r)
  {
    RowScanFindsHorizontal(g);
    CheckRows(g, 0)
  }

  /** `check_vertical`: the row scan applied to the transposed grid. */
  function CheckVertical(g: Grid): (r: Option<Color>)
    requires Rectangular(g)
    ensures ReportsFirstLine(g, Vertical, r)
  {
    RowScanFindsVertical(g);
    CheckRows(Transpose(g), 0)
  }

  // ---------------------------------------------------------------------
  // Diagonal scans: `diagonal_l_to_r?` and `diagonal_r_to_l?`
  // ---------------------------------------------------------------------

  /** First anchor row of a diagonal scan: 0 going down-right, 3 going up-right. */
  function FirstAnchorRow(d: Direction): int
  {
    if d == UpRight then 3 else 0
  }

  /** Last anchor row of a diagonal scan: `rows - 4` going down-right,
      `rows - 1` going up-right. */
  function LastAnchorRow(g: Grid, d: Direction): int
  {
    if d == UpRight then |g| - 1 else |g| - 4
  }

  /** (`a`, `b`) comes at or after (`i`, `j`) in row-by-row order. */
  predicate AtOrAfter(a: int, b: int, i: int, j: int)
  {
    a > i || (a == i && b >= j)
  }

  /** No line of direction `d` starts at or after (`i`, `j`). */
  ghost predicate NoWinFrom(g: Grid, d: Direction, i: int, j: int)
  {
    forall a, b :: AtOrAfter(a, b, i, j) ==> !WinAt(g, d, a, b)
  }

  /** (`a`, `b`) is the first line of direction `d` at or after (`i`, `j`). */
  ghost predicate FirstWinFrom(g: Grid, d: Direction, i: int, j: int, a: int, b: int)
  {
    && AtOrAfter(a, b, i, j) && WinAt(g, d, a, b)
    && forall a1, b1 :: AtOrAfter(a1, b1, i, j) && Before(d, a1, b1, a, b) ==> !WinAt(g, d, a1, b1)
  }

  /** Skipping an anchor that is not a line keeps both facts about the rest. */
  lemma SkipAnchor(g: Grid, d: Direction, i: int, j: int)
    requires d == DownRight || d == UpRight
    requires !WinAt(g, d, i, j)
    ensures NoWinFrom(g, d, i, j + 1) ==> NoWinFrom(g, d, i, j)
    ensures forall a, b :: FirstWinFrom(g, d, i, j + 1, a, b) ==> FirstWinFrom(g, d, i, j, a, b)
  {
  }

  /** Moving on from anchor column `j` to the next row, when no anchor of row
      `i` from `j` on fits on the grid. */
  lemma SkipRowRest(g: Grid, d: Direction, i: int, j: int)
    requires d == DownRight || d == UpRight
    requires forall b :: b >= j ==> !AnchorOk(g, d, i, b)
    ensures NoWinFrom(g, d, i + 1, 0) ==> NoWinFrom(g, d, i, j)
    ensures forall a, b :: FirstWinFrom(g, d, i + 1, 0, a, b) ==> FirstWinFrom(g, d, i, j, a, b)
  {
    forall a, b | FirstWinFrom(g, d, i + 1, 0, a, b)
      ensures FirstWinFrom(g, d, i, j, a, b)
    {
      assert a >= i + 1 && b >= 0 by {
        assert AnchorOk(g, d, a, b);
      }
    }
  }

  /** Past the last anchor row no diagonal line fits on the grid. */
  lemma PastLastAnchorRow(g: Grid, d: Direction, i: int, j: int)
    requires d == DownRight || d == UpRight
    requires i > LastAnchorRow(g, d)
    ensures NoWinFrom(g, d, i, j)
  {
    forall a, b | AtOrAfter(a, b, i, j)
      ensures !AnchorOk(g, d, a, b)
    {
    }
  }

  /** The nested anchor loops of a diagonal scan, resumed at (`i`, `j`):
      rows `i..LastAnchorRow`, columns `0..columns-4`. An anchor whose four
      cells are all empty is skipped. */
  function ScanDiagonal(g: Grid, d: Direction, i: int, j: int): (r: Option<Color>)
    requires d == DownRight || d == UpRight
    requires Rectangular(g) && i >= FirstAnchorRow(d) && j >= 0
    ensures r.Some? ==> exists a, b :: FirstWinFrom(g, d, i, j, a, b) && g[a][b] == r
    ensures r.None? ==> NoWinFrom(g, d, i, j)
    decreases LastAnchorRow(g, d) + 1 - i, Width(g) - j
  {
    if i > LastAnchorRow(g, d) then
      PastLastAnchorRow(g, d, i, j);
      None
    else if j > Width(g) - 4 then
      SkipRowRest(g, d, i, j);
      ScanDiagonal(g, d, i + 1, 0)
    else
      assert AnchorOk(g, d, i, j);
      var w := Line(g, d, i, j);
      if AllEmpty(w) then
        SkipAnchor(g, d, i, j);
        ScanDiagonal(g, d, i, j + 1)
      else if Winning(w) then
        assert FirstWinFrom(g, d, i, j, i, j);
        Some(w[0].value)
      else
        SkipAnchor(g, d, i, j);
        ScanDiagonal(g, d, i, j + 1)
  }

  /** The diagonal scan started at its first anchor reports the first line
      of direction `d`. */
  lemma DiagonalScanFindsLine(g: Grid, d: Direction)
    requires d == DownRight || d == UpRight
    requires Rectangular(g)
    ensures ReportsFirstLine(g, d, ScanDiagonal(g, d, FirstAnchorRow(d), 0))
  {
    var r := ScanDiagonal(g, d, FirstAnchorRow(d), 0);
    assert forall a, b :: WinAt(g, d, a, b) ==> AtOrAfter(a, b, FirstAnchorRow(d), 0);
    if r.Some? {
      var a, b :| FirstWinFrom(g, d, FirstAnchorRow(d), 0, a, b) && g[a][b] == r;
      assert FirstWinAt(g, d, a, b);
    }
  }

  /** `diagonal_l_to_r?` (`d == DownRight`) and `diagonal_r_to_l?` (`d == UpRight`). */
  function CheckDiagonalIn(g: Grid, d: Direction): (r: Option<Color>)
    requires d == DownRight || d == UpRight
    requires Rectangular(g)
    ensures ReportsFirstLine(g, d, r)
  {
    DiagonalScanFindsLine(g, d);
    ScanDiagonal(g, d, FirstAnchorRow(d), 0)
  }

  /** `check_diagonal`: top-left to bottom-right first, then bottom-left to top-right. */
  function CheckDiagonal(g: Grid): (r: Option<Color>)
    requires Rectangular(g)
    ensures HasLine(g, DownRight) ==> ReportsFirstLine(g, DownRight, r)
    ensures !HasLine(g, DownRight) ==> ReportsFirstLine(g, UpRight, r)
  {
    match CheckDiagonalIn(g, DownRight)
    case Some(c) => Some(c)
    case None => CheckDiagonalIn(g, UpRight)
  }

  // ---------------------------------------------------------------------
  // Game over
  // ---------------------------------------------------------------------

  /** `grid_full?`: no cell is `nil`. On a rectangular grid that is the same
      as every column answering `column_full?`, and as no column having room. */
  predicate Full(g: Grid): (b: bool)
    ensures Rectangular(g) && |g| > 0 ==> (b <==> forall c :: 0 <= c < Width(g) ==> IsColumnFull(g, c))
    ensures Rectangular(g) ==> (b <==> forall c :: 0 <= c < Width(g) ==> !HasRoom(g, c))
  {
    FullByColumns(g);
    forall i, j :: 0 <= i < |g| && 0 <= j < |g[i]| ==> g[i][j].Some?
  }

  /** A rectangular grid has no `nil` cell iff every column is full, iff no
      column has room. */
  lemma FullByColumns(g: Grid)
    ensures Rectangular(g) && |g| > 0 ==> ((forall i, j :: 0 <= i < |g| && 0 <= j < |g[i]| ==> g[i][j].Some?) <==> forall c :: 0 <= c < Width(g) ==> IsColumnFull(g, c))
    ensures Rectangular(g) ==> ((forall i, j :: 0 <= i < |g| && 0 <= j < |g[i]| ==> g[i][j].Some?) <==> forall c :: 0 <= c < Width(g) ==> !HasRoom(g, c))
  {
    if Rectangular(g) {
      if forall i, j :: 0 <= i < |g| && 0 <= j < |g[i]| ==> g[i][j].Some? {
        forall c | 0 <= c < Width(g)
          ensures IsColumnFull(g, c)
        {
          forall i | 0 <= i < |g|
            ensures RubyAt(g[i], c).Some?
          {
            assert |g[i]| == Width(g);
            assert g[i][c].Some?;
          }
        }
      } else {
        var i, j :| 0 <= i < |g| && 0 <= j < |g[i]| && g[i][j].None?;
        assert |g[i]| == Width(g) && !IsColumnFull(g, j) && HasRoom(g, j);
      }
    }
  }

  /** `game_over?`: the first line found, trying horizontal, vertical, then the
      two diagonals; otherwise a tie on a full grid, otherwise the game goes on. */
  function GameOver(g: Grid): (r: Outcome)
    requires Rectangular(g)
    ensures r.Win? <==> AnyLine(g)
    ensures r.Win? ==> exists d, i, j :: WinAt(g, d, i, j) && g[i][j] == Some(r.color)
    ensures r == Tie <==> !AnyLine(g) && Full(g)
    ensures r == Ongoing <==> !AnyLine(g) && !Full(g)
    ensures HasLine(g, Horizontal) ==> ReportsFirstLine(g, Horizontal, Some(r.color))
    ensures !HasLine(g, Horizontal) && HasLine(g, Vertical) ==> ReportsFirstLine(g, Vertical, Some(r.color))
    ensures !HasLine(g, Horizontal) && !HasLine(g, Vertical) && HasLine(g, DownRight) ==>
      ReportsFirstLine(g, DownRight, Some(r.color))
    ensures !HasLine(g, Horizontal) && !HasLine(g, Vertical) && !HasLine(g, DownRight) && HasLine(g, UpRight) ==>
      ReportsFirstLine(g, UpRight, Some(r.color))
  {
    match CheckHorizontal(g)
    case Some(c) => Win(c)
    case None =>
      match CheckVertical(g)
      case Some(c) => Win(c)
      case None =>
        match CheckDiagonal(g)
        case Some(c) => Win(c)
        case None => if Full(g) then Tie else Ongoing
  }

  /** A fresh board with at least one row and column has no line, is not
      full, and accepts a chip in every column. */
  lemma NewBoardIsOpen(rows: nat, columns: nat)
    requires rows > 0 && columns > 0
    ensures GameOver(New(rows, columns).grid) == Ongoing
    ensures forall c :: 0 <= c < columns ==> ValidPlacement(New(rows, columns).grid, c)
  {
    var g := New(rows, columns).grid;
    assert g[0][0] == None;
    forall c | 0 <= c < columns
      ensures HasRoom(g, c)
    {
      assert g[0][c] == None;
    }
  }
}
