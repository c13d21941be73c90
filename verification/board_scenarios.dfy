/** Concrete games on the default 6x7 board, as exercised by
    spec/board_spec.rb, and grids set up directly with a line or a tie. */
module BoardScenarios {
  import opened Wrappers
  import B = Board

  /** Places `colors[k]` into column `k`, for each k in order. */
  function PlaceAcross(b: B.Board, colors: seq<B.Color>): (r: Result<B.Board, B.PlaceError>)
    requires B.Rectangular(b.grid)
    ensures r.Success? ==> B.Rectangular(r.value.grid) && |r.value.grid| == |b.grid|
    ensures r.Success? && |b.grid| > 0 ==> B.Width(r.value.grid) == B.Width(b.grid)
    decreases |colors|
  {
    if |colors| == 0 then Success(b)
    else
      match PlaceAcross(b, colors[..|colors| - 1])
      case Failure(e) => Failure(e)
      case Success(b1) =>
        match B.Place(b1, colors[|colors| - 1], |colors| - 1)
        case Failure(e) => Failure(e)
        case Success(p) =>
          assert |p.board.grid[0]| == |b1.grid[0]|;
          Success(p.board)
  }

  /** The only chips on `g` are `colors`, left to right along the bottom row. */
  ghost predicate BottomRowHolds(g: B.Grid, colors: seq<B.Color>)
  {
    forall i, j {:trigger g[i][j]} :: 0 <= i < |g| && 0 <= j < |g[i]| ==>
      g[i][j] == (if i == |g| - 1 && j < |colors| then Some(colors[j]) else None)
  }

  /** The column just right of the filled part of the bottom row is empty. */
  lemma NextColumnEmpty(g: B.Grid, front: seq<B.Color>)
    requires B.Rectangular(g) && |front| < B.Width(g) && BottomRowHolds(g, front)
    ensures B.StackedTo(g, |front|, 0)
  {
    forall i | 0 <= i < |g|
      ensures g[i][|front|] == None
    {
    }
  }

  /** Writing `c` on the bottom row just right of `front` extends the row. */
  lemma BottomRowOneMore(g1: B.Grid, g: B.Grid, front: seq<B.Color>, c: B.Color)
    requires |g1| > 0 && BottomRowHolds(g1, front)
    requires B.ChangesOnly(g1, g, |g1| - 1, |front|, Some(c))
    ensures BottomRowHolds(g, front + [c])
  {
    var colors := front + [c];
    forall i, j | 0 <= i < |g| && 0 <= j < |g[i]|
      ensures g[i][j] == (if i == |g| - 1 && j < |colors| then Some(colors[j]) else None)
    {
      if i == |g| - 1 && j < |front| {
        assert colors[j] == front[j];
      }
    }
  }

  /** One chip into each of the first columns of a fresh board fills the
      bottom row from the left. */
  lemma {:induction false} PlaceAcrossFillsBottomRow(colors: seq<B.Color>)
    requires |colors| <= 7
    ensures PlaceAcross(B.NewDefault(), colors).Success?
    ensures var g := PlaceAcross(B.NewDefault(), colors).value.grid;
      |g| == 6 && B.Width(g) == 7 && BottomRowHolds(g, colors)
    decreases |colors|
  {
    var n := |colors|;
    if n > 0 {
      var front := colors[..n - 1];
      PlaceAcrossFillsBottomRow(front);
      var b1 := PlaceAcross(B.NewDefault(), front).value;
      NextColumnEmpty(b1.grid, front);
      B.PlaceOnStack(b1, colors[n - 1], n - 1, 0);
      var g := B.Place(b1, colors[n - 1], n - 1).value.board.grid;
      BottomRowOneMore(b1.grid, g, front, colors[n - 1]);
      assert front + [colors[n - 1]] == colors;
    }
  }

  /** On a grid whose chips all have colour `x`, every line is of colour `x`,
      so a scan that reports a colour reports `x`. */
  lemma SingleColourLines(g: B.Grid, x: B.Color)
    requires forall i, j :: 0 <= i < |g| && 0 <= j < |g[i]| ==> g[i][j] == None || g[i][j] == Some(x)
    ensures forall d, r :: B.ReportsFirstLine(g, d, r) && r.Some? ==> r == Some(x)
  {
  }

  /** Four chips of one colour side by side on the bottom row are a
      horizontal win for that colour. */
  lemma HorizontalWin(x: B.Color)
    ensures PlaceAcross(B.NewDefault(), [x, x, x, x]).Success?
    ensures var g := PlaceAcross(B.NewDefault(), [x, x, x, x]).value.grid;
      B.CheckHorizontal(g) == Some(x) && B.GameOver(g) == B.Win(x)
  {
    PlaceAcrossFillsBottomRow([x, x, x, x]);
    var g := PlaceAcross(B.NewDefault(), [x, x, x, x]).value.grid;
    assert g[5][0] == g[5][1] == g[5][2] == g[5][3] == Some(x);
    assert B.WinAt(g, B.Horizontal, 5, 0);
    SingleColourLines(g, x);
  }

  /** Four chips side by side that alternate two colours are no line. */
  lemma AlternatingRowIsNoWin()
    ensures PlaceAcross(B.NewDefault(), ["red", "yellow", "red", "yellow"]).Success?
    ensures var g := PlaceAcross(B.NewDefault(), ["red", "yellow", "red", "yellow"]).value.grid;
      B.CheckHorizontal(g) == None && B.GameOver(g) == B.Ongoing
  {
    var colors := ["red", "yellow", "red", "yellow"];
    PlaceAcrossFillsBottomRow(colors);
    var g := PlaceAcross(B.NewDefault(), colors).value.grid;
    forall d, i, j | B.AnchorOk(g, d, i, j)
      ensures !B.WinAt(g, d, i, j)
    {
      if g[i][j].Some? {
        assert i == 5 && j < 4;
        assert d == B.Horizontal || d == B.UpRight;
      }
    }
    assert g[0][0] == None;
  }

  /** Four chips of one colour dropped into one column are a vertical win. */
  lemma VerticalWin(x: B.Color, column: int)
    requires 0 <= column < 7
    ensures B.DropAll(B.NewDefault(), [x, x, x, x], column).Success?
    ensures var g := B.DropAll(B.NewDefault(), [x, x, x, x], column).value.grid;
      B.CheckVertical(g) == Some(x) && B.GameOver(g) == B.Win(x)
  {
    B.DropAllStacks(6, 7, [x, x, x, x], column);
    var g := B.DropAll(B.NewDefault(), [x, x, x, x], column).value.grid;
    assert |g[2]| == 7;
    assert g[2][column] == g[3][column] == g[4][column] == g[5][column] == Some(x);
    assert B.WinAt(g, B.Vertical, 2, column);
    SingleColourLines(g, x);
  }

  /** Four chips in one column that alternate two colours are no line. */
  lemma AlternatingColumnIsNoWin()
    ensures B.DropAll(B.NewDefault(), ["red", "yellow", "red", "yellow"], 0).Success?
    ensures var g := B.DropAll(B.NewDefault(), ["red", "yellow", "red", "yellow"], 0).value.grid;
      B.CheckVertical(g) == None && B.GameOver(g) == B.Ongoing
  {
    var colors := ["red", "yellow", "red", "yellow"];
    B.DropAllStacks(6, 7, colors, 0);
    var g := B.DropAll(B.NewDefault(), colors, 0).value.grid;
    forall d, i, j | B.AnchorOk(g, d, i, j)
      ensures !B.WinAt(g, d, i, j)
    {
      if g[i][j].Some? {
        assert j == 0 && 2 <= i;
        assert g[i][1] == None;
      }
    }
    assert g[0][0] == None;
  }

  /** A 6x7 grid holding `x` exactly on the cells `onLine` picks. */
  function Injected(onLine: (int, int) -> bool, x: B.Color): (g: B.Grid)
    ensures |g| == 6 && B.Rectangular(g) && B.Width(g) == 7
    ensures forall i, j :: 0 <= i < 6 && 0 <= j < 7 ==> g[i][j] == (if onLine(i, j) then Some(x) else None)
  {
    seq(6, i => seq(7, j => if onLine(i, j) then Some(x) else None))
  }

  /** A top-left to bottom-right run of four set directly into the grid wins. */
  lemma InjectedDownRightWins(x: B.Color)
    ensures var g := Injected((i, j) => i - j == 2, x);
      B.CheckDiagonal(g) == Some(x) && B.GameOver(g) == B.Win(x)
  {
    var g := Injected((i, j) => i - j == 2, x);
    assert B.WinAt(g, B.DownRight, 2, 0);
    SingleColourLines(g, x);
  }

  /** A bottom-left to top-right run of four set directly into the grid wins. */
  lemma InjectedUpRightWins(x: B.Color)
    ensures var g := Injected((i, j) => i + j == 5 && j < 4, x);
      B.CheckDiagonal(g) == Some(x) && B.GameOver(g) == B.Win(x)
  {
    var g := Injected((i, j) => i + j == 5 && j < 4, x);
    assert B.WinAt(g, B.UpRight, 5, 0);
    SingleColourLines(g, x);
  }

  /** The colour of cell (`i`, `j`) in a full grid with no line: columns come
      in pairs, and colours alternate down each column. */
  function Shade(i: int, j: int): B.Color
  {
    if (j / 2 + i) % 2 == 0 then "red" else "yellow"
  }

  function TieGrid(): (g: B.Grid)
    ensures |g| == 6 && B.Rectangular(g) && B.Width(g) == 7
    ensures forall i, j :: 0 <= i < 6 && 0 <= j < 7 ==> g[i][j] == Some(Shade(i, j))
  {
    seq(6, i => seq(7, j => Some(Shade(i, j))))
  }

  /** Cells whose shade indices are one apart have different shades. */
  lemma NeighbourShades(i: int, j: int, i2: int, j2: int)
    requires j2 / 2 + i2 == j / 2 + i + 1 || j2 / 2 + i2 == j / 2 + i - 1
    ensures Shade(i, j) != Shade(i2, j2)
  {
    var k := j / 2 + i;
    assert (k + 1) % 2 != k % 2;
    assert (k - 1) % 2 != k % 2;
  }

  /** No four cells in a row of any direction share a shade. */
  lemma ShadeBreaksEveryLine(d: B.Direction, i: int, j: int)
    requires j >= 0
    ensures var dr := B.RowStep(d);
      !(Shade(i, j) == Shade(i + dr, j + B.ColumnStep(d)) == Shade(i + 2 * dr, j + 2 * B.ColumnStep(d))
        == Shade(i + 3 * dr, j + 3 * B.ColumnStep(d)))
  {
    var h := j / 2;
    match d {
      case Vertical =>
        NeighbourShades(i, j, i + 1, j);
      case Horizontal =>
        if j % 2 == 0 {
          assert (j + 2) / 2 == h + 1;
          NeighbourShades(i, j, i, j + 2);
        } else {
          assert (j + 1) / 2 == h + 1;
          NeighbourShades(i, j, i, j + 1);
        }
      case DownRight =>
        if j % 2 == 0 {
          assert (j + 1) / 2 == h;
          NeighbourShades(i, j, i + 1, j + 1);
        } else {
          assert (j + 1) / 2 == h + 1 && (j + 2) / 2 == h + 1;
          NeighbourShades(i + 1, j + 1, i + 2, j + 2);
        }
      case UpRight =>
        if j % 2 == 0 {
          assert (j + 1) / 2 == h;
          NeighbourShades(i, j, i - 1, j + 1);
        } else {
          assert (j + 1) / 2 == h + 1 && (j + 2) / 2 == h + 1;
          NeighbourShades(i - 1, j + 1, i - 2, j + 2);
        }
    }
  }

  /** A full grid with no line of four is a tie. */
  lemma FullGridWithoutLineIsTie()
    ensures B.GameOver(TieGrid()) == B.Tie
  {
    var g := TieGrid();
    forall d, i, j | B.AnchorOk(g, d, i, j)
      ensures !B.WinAt(g, d, i, j)
    {
      ShadeBreaksEveryLine(d, i, j);
    }
  }
}
