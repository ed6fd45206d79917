/**
 * The milk-and-cookies game of day 12: a 5 x 6 grid whose bottom row and
 * outer columns are walls, leaving a 4 x 4 playable area. Pieces drop to
 * the lowest empty cell of a column; four equal pieces in a row, a column
 * or a diagonal win; a full board with no winner is a draw; a finished
 * game refuses further moves until it is reset.
 */
module ConnectFour {
  import opened Wrappers
  import opened Http
  import opened Text

  datatype Cell = Empty | Wall | Cookie | Milk

  datatype Team = Milk | Cookie

  datatype Status = Ongoing | Winner(team: Team) | Draw

  /** Rows top to bottom, each six cells left to right. */
  type Grid = seq<seq<Cell>>

  predicate Shaped(g: Grid)
  {
    |g| == 5 && forall r :: 0 <= r < 5 ==> |g[r]| == 6
  }

  /** The bottom row and the leftmost and rightmost columns are walls. */
  predicate IsWallPosition(row: int, col: int)
  {
    row == 4 || col == 0 || col == 5
  }

  /** Walls exactly at the wall positions. */
  predicate Walled(g: Grid)
    requires Shaped(g)
  {
    forall r, c :: 0 <= r < 5 && 0 <= c < 6 ==> (g[r][c] == Cell.Wall <==> IsWallPosition(r, c))
  }

  /** In every playable column, no empty cell lies below a piece. */
  predicate Stacked(g: Grid)
    requires Shaped(g)
  {
    forall r, r', c :: 0 <= r < r' < 4 && 1 <= c <= 4 && g[r][c] != Cell.Empty ==> g[r'][c] != Cell.Empty
  }

  /** The grid `Board::new` builds. */
  function NewGrid(): Grid
  {
    seq(5, r => seq(6, c => if IsWallPosition(r, c) then Cell.Wall else Cell.Empty))
  }

  /** Walls exactly on the border, every playable cell empty, and the board invariants hold. */
  lemma NewGridLayout()
    ensures forall r, c :: 0 <= r < 5 && 0 <= c < 6 ==>
      (NewGrid()[r][c] == Cell.Wall <==> IsWallPosition(r, c))
      && (NewGrid()[r][c] == Cell.Empty <==> !IsWallPosition(r, c))
    ensures Walled(NewGrid()) && Stacked(NewGrid())
  {
  }

  function TeamCell(t: Team): Cell
  {
    match t
    case Milk => Cell.Milk
    case Cookie => Cell.Cookie
  }

  predicate IsPiece(c: Cell)
  {
    c == Cell.Cookie || c == Cell.Milk
  }

  function CellTeam(c: Cell): (t: Team)
    requires IsPiece(c)
    ensures TeamCell(t) == c
  {
    if c == Cell.Milk then Team.Milk else Team.Cookie
  }

  function TeamName(t: Team): string
  {
    match t
    case Milk => "milk"
    case Cookie => "cookie"
  }

  /** `Team::from_str`: only the lower-case names are teams. */
  function ParseTeam(s: string): (t: Option<Team>)
    ensures t.Some? ==> s == TeamName(t.value)
  {
    if s == "cookie" then Some(Team.Cookie)
    else if s == "milk" then Some(Team.Milk)
    else None
  }

  lemma ParseTeamName(t: Team)
    ensures ParseTeam(TeamName(t)) == Some(t)
  {
  }

  // ---------------------------------------------------------------- moves

  /** The largest row index in `0..=row` whose cell in `col` is empty. */
  function EmptyRowAtOrAbove(g: Grid, col: int, row: int): (r: Option<nat>)
    requires Shaped(g) && 0 <= col < 6 && -1 <= row < 5
    ensures r.Some? ==>
      (r.value <= row && g[r.value][col] == Cell.Empty
       && forall i :: r.value < i <= row ==> g[i][col] != Cell.Empty)
    ensures r.None? ==> forall i :: 0 <= i <= row ==> g[i][col] != Cell.Empty
    decreases row + 1
  {
    if row < 0 then None
    else if g[row][col] == Cell.Empty then Some(row)
    else EmptyRowAtOrAbove(g, col, row - 1)
  }

  /** Where a piece dropped into `col` lands: the lowest empty cell among rows 0..=3. */
  function LandingRow(g: Grid, col: int): (r: Option<nat>)
    requires Shaped(g) && 0 <= col < 6
  {
    EmptyRowAtOrAbove(g, col, 3)
  }

  /**
   * `make_move` on grid values: the team's piece written into the landing
   * cell of `column`, or `None` ("Column is full.") when rows 0..=3 of that
   * column hold no empty cell.
   */
  function Drop(g: Grid, t: Team, column: int): (r: Option<Grid>)
    requires Shaped(g) && 1 <= column <= 5
    ensures r.None? <==> forall i :: 0 <= i < 4 ==> g[i][column] != Cell.Empty
    ensures r.Some? ==> Shaped(r.value)
  {
    match LandingRow(g, column)
    case None => None
    case Some(row) => Some(g[row := g[row][column := TeamCell(t)]])
  }

  /**
   * A successful drop writes the team's piece into the empty cell of
   * `column` with the largest row index below which every cell is occupied,
   * and changes no other cell.
   */
  lemma DropPlacement(g: Grid, t: Team, column: int)
    requires Shaped(g) && 1 <= column <= 5
    requires Drop(g, t, column).Some?
    ensures var row := LandingRow(g, column).value;
      && row < 4 && g[row][column] == Cell.Empty
      && (forall i :: row < i < 4 ==> g[i][column] != Cell.Empty)
      && Drop(g, t, column).value[row][column] == TeamCell(t)
      && forall r, c :: 0 <= r < 5 && 0 <= c < 6 && (r != row || c != column) ==>
           Drop(g, t, column).value[r][c] == g[r][c]
  {
  }

  /** Moves never write a wall, never remove a piece, and keep pieces stacked from the bottom. */
  lemma DropKeepsInvariants(g: Grid, t: Team, column: int)
    requires Shaped(g) && Walled(g) && Stacked(g) && 1 <= column <= 5
    requires Drop(g, t, column).Some?
    ensures Walled(Drop(g, t, column).value) && Stacked(Drop(g, t, column).value)
    ensures forall r, c :: 0 <= r < 5 && 0 <= c < 6 && g[r][c] != Cell.Empty ==>
      Drop(g, t, column).value[r][c] == g[r][c]
  {
    var g' := Drop(g, t, column).value;
    var row := LandingRow(g, column).value;
    DropPlacement(g, t, column);
    assert column != 5 by {
      assert IsWallPosition(row, 5);
    }
  }

  /** The wall column can never take a piece. */
  lemma DropIntoWallColumn(g: Grid, t: Team)
    requires Shaped(g) && Walled(g)
    ensures Drop(g, t, 5).None?
  {
    forall i | 0 <= i < 4 ensures g[i][5] != Cell.Empty {
      assert IsWallPosition(i, 5);
    }
  }

  // ------------------------------------------------------------ win check

  /** The cells `check_line` may inspect: rows 0..=4, columns 1..=4. */
  predicate InCheckedArea(row: int, col: int)
  {
    0 <= row <= 4 && 1 <= col <= 4
  }

  /** Four cells from (`row`, `col`) stepping by (`dr`, `dc`) all inside the checked area and equal to `cell`. */
  predicate Line(g: Grid, row: int, col: int, dr: int, dc: int, cell: Cell)
    requires Shaped(g)
  {
    forall i :: 0 <= i < 4 ==>
      InCheckedArea(row + i * dr, col + i * dc) && g[row + i * dr][col + i * dc] == cell
  }

  /** A piece at (`row`, `col`) starts a run of four to the right, downwards, or down either diagonal. */
  predicate Wins(g: Grid, row: int, col: int)
    requires Shaped(g) && 0 <= row < 5 && 0 <= col < 6
  {
    var cell := g[row][col];
    IsPiece(cell)
    && (Line(g, row, col, 0, 1, cell) || Line(g, row, col, 1, 0, cell)
        || Line(g, row, col, 1, 1, cell) || Line(g, row, col, 1, -1, cell))
  }

  /** The scan visits rows 0..=3 and, within each, columns 1..=4; `k` numbers those cells in that order. */
  function ScanRow(k: int): int { k / 4 }
  function ScanCol(k: int): int { k % 4 + 1 }

  predicate WinsAt(g: Grid, k: int)
    requires Shaped(g) && 0 <= k < 16
  {
    Wins(g, ScanRow(k), ScanCol(k))
  }

  lemma ScanPosition(row: int, col: int)
    requires 0 <= row < 4 && 1 <= col <= 4
    ensures 0 <= 4 * row + col - 1 < 16
    ensures ScanRow(4 * row + col - 1) == row && ScanCol(4 * row + col - 1) == col
  {
  }

  /** The first winning cell at or after position `k` of the scan. */
  function FirstWin(g: Grid, k: int): (r: Option<nat>)
    requires Shaped(g) && 0 <= k <= 16
    ensures r.Some? ==>
      (k <= r.value < 16 && WinsAt(g, r.value)
       && forall j :: k <= j < r.value ==> !WinsAt(g, j))
    ensures r.None? ==> forall j :: k <= j < 16 ==> !WinsAt(g, j)
    decreases 16 - k
  {
    if k == 16 then None
    else if WinsAt(g, k) then Some(k)
    else FirstWin(g, k + 1)
  }

  /** `is_full`: no cell of the whole grid is empty. */
  predicate Full(g: Grid)
    requires Shaped(g)
  {
    forall r, c :: 0 <= r < 5 && 0 <= c < 6 ==> g[r][c] != Cell.Empty
  }

  /**
   * `check_game_progression`: the team of the first winning cell in scan
   * order; with no winning cell, `Draw` on a full grid and `Ongoing`
   * otherwise.
   */
  function Progression(g: Grid): Status
    requires Shaped(g)
  {
    match FirstWin(g, 0)
    case Some(k) => Status.Winner(CellTeam(g[ScanRow(k)][ScanCol(k)]))
    case None => if Full(g) then Status.Draw else Status.Ongoing
  }

  /**
   * What the scan reports: a winner exactly when some cell starts a run,
   * naming the team of the first such cell in scan order; otherwise a draw
   * exactly when the grid is full, and ongoing exactly when it is not.
   */
  lemma ProgressionMeaning(g: Grid)
    requires Shaped(g)
    ensures Progression(g).Winner? <==> exists k :: 0 <= k < 16 && WinsAt(g, k)
    ensures Progression(g).Winner? ==>
      exists k :: (0 <= k < 16 && WinsAt(g, k)
        && (forall j :: 0 <= j < k ==> !WinsAt(g, j))
        && g[ScanRow(k)][ScanCol(k)] == TeamCell(Progression(g).team))
    ensures Progression(g) == Status.Draw <==> (forall k :: 0 <= k < 16 ==> !WinsAt(g, k)) && Full(g)
    ensures Progression(g) == Status.Ongoing <==> (forall k :: 0 <= k < 16 ==> !WinsAt(g, k)) && !Full(g)
  {
    var f := FirstWin(g, 0);
    if f.Some? {
      assert WinsAt(g, f.value);
    }
  }

  /** The scan stops at the first winning cell. */
  lemma ProgressionAtFirstWin(g: Grid, k: int)
    requires Shaped(g) && 0 <= k < 16 && WinsAt(g, k)
    requires forall j :: 0 <= j < k ==> !WinsAt(g, j)
    ensures IsPiece(g[ScanRow(k)][ScanCol(k)])
    ensures Progression(g) == Status.Winner(CellTeam(g[ScanRow(k)][ScanCol(k)]))
  {
    var f := FirstWin(g, 0);
    assert f == Some(k);
  }

  lemma ProgressionWithoutWin(g: Grid)
    requires Shaped(g)
    requires forall k :: 0 <= k < 16 ==> !WinsAt(g, k)
    ensures Progression(g) == if Full(g) then Status.Draw else Status.Ongoing
  {
    var f := FirstWin(g, 0);
    assert f == None;
  }

  /** Team `t` has a run of four starting at some playable cell. */
  ghost predicate HasRun(g: Grid, t: Team)
    requires Shaped(g)
  {
    exists row, col :: 0 <= row < 4 && 1 <= col <= 4 && Wins(g, row, col) && g[row][col] == TeamCell(t)
  }

  function Opponent(t: Team): Team
  {
    match t
    case Milk => Team.Cookie
    case Cookie => Team.Milk
  }

  /** A declared winner owns a run of four. */
  lemma WinnerHasRun(g: Grid)
    requires Shaped(g)
    ensures Progression(g).Winner? ==> HasRun(g, Progression(g).team)
  {
    ProgressionMeaning(g);
    if Progression(g).Winner? {
      var k :| 0 <= k < 16 && WinsAt(g, k) && g[ScanRow(k)][ScanCol(k)] == TeamCell(Progression(g).team);
      assert Wins(g, ScanRow(k), ScanCol(k));
    }
  }

  /** A run of four always ends the game, and it is `t`'s win when the opponent has none. */
  lemma RunMakesWinner(g: Grid, t: Team)
    requires Shaped(g) && HasRun(g, t)
    ensures Progression(g).Winner?
    ensures !HasRun(g, Opponent(t)) ==> Progression(g) == Status.Winner(t)
  {
    var row, col :| 0 <= row < 4 && 1 <= col <= 4 && Wins(g, row, col) && g[row][col] == TeamCell(t);
    ScanPosition(row, col);
    assert WinsAt(g, 4 * row + col - 1);
    ProgressionMeaning(g);
    if !HasRun(g, Opponent(t)) {
      var w := Progression(g).team;
      WinnerHasRun(g);
      assert HasRun(g, w);
    }
  }

  /** On a walled grid, full means that all sixteen playable cells hold pieces. */
  lemma FullMeansPlayableFilled(g: Grid)
    requires Shaped(g) && Walled(g)
    ensures Full(g) <==> forall r, c :: 0 <= r < 4 && 1 <= c <= 4 ==> IsPiece(g[r][c])
  {
    if forall r, c :: 0 <= r < 4 && 1 <= c <= 4 ==> IsPiece(g[r][c]) {
      forall r, c | 0 <= r < 5 && 0 <= c < 6 ensures g[r][c] != Cell.Empty {
        if !IsWallPosition(r, c) { assert IsPiece(g[r][c]); }
      }
    }
    if Full(g) {
      forall r, c | 0 <= r < 4 && 1 <= c <= 4 ensures IsPiece(g[r][c]) {
        assert !IsWallPosition(r, c);
      }
    }
  }

  /** A fresh board has no winner and is not full. */
  lemma NewGridOngoing()
    ensures Progression(NewGrid()) == Status.Ongoing
  {
    var g := NewGrid();
    forall k | 0 <= k < 16 ensures !WinsAt(g, k) {
      assert !IsPiece(g[ScanRow(k)][ScanCol(k)]);
    }
    assert g[0][1] == Cell.Empty;
    ProgressionWithoutWin(g);
  }

  // ------------------------------------------------------------ rendering

  /** `Display for Cell`. */
  function Glyph(c: Cell): char
  {
    match c
    case Empty => '\U{2B1B}'
    case Wall => '\U{2B1C}'
    case Cookie => '\U{1F36A}'
    case Milk => '\U{1F95B}'
  }

  lemma GlyphInjective(a: Cell, b: Cell)
    ensures Glyph(a) == Glyph(b) ==> a == b
  {
  }

  function RenderRow(row: seq<Cell>): string
  {
    seq(|row|, c requires 0 <= c < |row| => Glyph(row[c]))
  }

  /** `Display for Board`: every row's glyphs followed by a newline. */
  function Render(g: Grid): string
  {
    if |g| == 0 then [] else Render(g[..|g| - 1]) + RenderLine(g[|g| - 1])
  }

  function RenderLine(row: seq<Cell>): string
  {
    RenderRow(row) + "\n"
  }

  /** The rendering is one line of six glyphs per row, each line newline-terminated. */
  lemma {:induction false} RenderLayout(g: Grid)
    requires forall r :: 0 <= r < |g| ==> |g[r]| == 6
    ensures |Render(g)| == 7 * |g|
    ensures forall r, c :: 0 <= r < |g| && 0 <= c < 6 ==> Render(g)[7 * r + c] == Glyph(g[r][c])
    ensures forall r :: 0 <= r < |g| ==> Render(g)[7 * r + 6] == '\n'
    decreases |g|
  {
    if |g| > 0 {
      var front := g[..|g| - 1];
      RenderLayout(front);
      assert forall r :: 0 <= r < |front| ==> front[r] == g[r];
    }
  }

  /** The text determines the board: equal renderings come from equal grids. */
  lemma RenderInjective(g1: Grid, g2: Grid)
    requires Shaped(g1) && Shaped(g2)
    requires Render(g1) == Render(g2)
    ensures g1 == g2
  {
    RenderLayout(g1);
    RenderLayout(g2);
    forall r | 0 <= r < 5 ensures g1[r] == g2[r] {
      forall c | 0 <= c < 6 ensures g1[r][c] == g2[r][c] {
        assert Render(g1)[7 * r + c] == Render(g2)[7 * r + c];
        GlyphInjective(g1[r][c], g2[r][c]);
      }
    }
  }

  /** `"🍪 wins!"` or `"🥛 wins!"`. */
  function WinsMessage(t: Team): string
  {
    [Glyph(TeamCell(t))] + " wins!"
  }

  /** The two messages, written out as the handler's string literals. */
  lemma WinsMessageText()
    ensures WinsMessage(Team.Cookie) == "\U{1F36A} wins!"
    ensures WinsMessage(Team.Milk) == "\U{1F95B} wins!"
  {
    assert WinsMessage(Team.Cookie) == ['\U{1F36A}'] + " wins!";
    assert WinsMessage(Team.Milk) == ['\U{1F95B}'] + " wins!";
  }

  const NoWinner: string := "No winner."

  /** The text after the board in the `/12/board` answer. */
  function StatusMessage(st: Status): string
  {
    match st
    case Winner(t) => WinsMessage(t)
    case Draw => NoWinner
    case Ongoing => ""
  }

  // ------------------------------------------------------- request logic

  /** The largest `usize` on a 64-bit target. */
  const UsizeMax: nat := 0x1_0000_0000_0000_0000 - 1

  /** The `/12/place/{team}/{column}` column: a `usize` in 1..=4. */
  function ParseColumn(s: string): Option<nat>
  {
    match ParseUnsigned(s, UsizeMax)
    case Some(n) => if 1 <= n <= 4 then Some(n) else None
    case None => None
  }

  lemma ParseColumnShow(c: nat)
    requires 1 <= c <= 4
    ensures ParseColumn(ShowNat(c)) == Some(c)
  {
    ParseShowNat(c, UsizeMax);
  }

  /** The game after a request, and the answer. */
  datatype Outcome = Outcome(grid: Grid, status: Status, response: Response)

  /** `day12_get_board_state`: the board, then the status message, always 200. */
  function View(g: Grid, st: Status): Response
  {
    Response(Ok, Render(g) + StatusMessage(st))
  }

  /** `day12_post_play_game` as a transition of the game's grid and status. */
  function Play(g: Grid, st: Status, team: string, column: string): Outcome
    requires Shaped(g)
  {
    match (ParseTeam(team), ParseColumn(column))
    case (Some(t), Some(c)) => PlayChecked(g, st, t, c)
    case _ => Outcome(g, st, Response(BadRequest, ""))
  }

  /** A well-formed move: refused with the final board when the game is over. */
  function PlayChecked(g: Grid, st: Status, t: Team, c: int): Outcome
    requires Shaped(g) && 1 <= c <= 4
  {
    match st
    case Winner(w) => Outcome(g, st, Response(ServiceUnavailable, Render(g) + "\n" + WinsMessage(w)))
    case Draw => Outcome(g, st, Response(ServiceUnavailable, Render(g) + NoWinner))
    case Ongoing =>
      match Drop(g, t, c)
      case None => Outcome(g, st, Response(ServiceUnavailable, Render(g)))
      case Some(g') => Settle(g')
  }

  /** After a successful drop, the status the scan reports and the answer for it. */
  function Settle(g: Grid): Outcome
    requires Shaped(g)
  {
    match Progression(g)
    case Winner(w) => Outcome(g, Status.Winner(w), Response(ServiceUnavailable, Render(g) + "\n" + WinsMessage(w)))
    case Draw => Outcome(g, Status.Draw, Response(Ok, Render(g) + "\n" + NoWinner))
    case Ongoing => Outcome(g, Status.Ongoing, Response(Ok, Render(g)))
  }

  /** A bad team or column is refused with 400 before the game is looked at. */
  lemma PlayRejectsBadInput(g: Grid, st: Status, team: string, column: string)
    requires Shaped(g)
    ensures Play(g, st, team, column).response.status == BadRequest <==>
      (team != "cookie" && team != "milk") || ParseColumn(column).None?
    ensures Play(g, st, team, column).response.status == BadRequest ==>
      Play(g, st, team, column) == Outcome(g, st, Response(BadRequest, ""))
  {
  }

  /** A finished game is locked: neither the grid nor the status changes, and the answer is not 200. */
  lemma TerminalLock(g: Grid, st: Status, team: string, column: string)
    requires Shaped(g) && st != Status.Ongoing
    ensures Play(g, st, team, column).grid == g
    ensures Play(g, st, team, column).status == st
    ensures Play(g, st, team, column).response.status in {BadRequest, ServiceUnavailable}
  {
  }

  /** Dropping into a full column is refused with 503 and the unchanged board. */
  lemma FullColumnRefused(g: Grid, team: string, column: string)
    requires Shaped(g) && ParseTeam(team).Some? && ParseColumn(column).Some?
    requires forall i :: 0 <= i < 4 ==> g[i][ParseColumn(column).value] != Cell.Empty
    ensures Play(g, Status.Ongoing, team, column) ==
      Outcome(g, Status.Ongoing, Response(ServiceUnavailable, Render(g)))
  {
  }

  /** The invariant of a game at rest: a walled, stacked grid whose status is what the scan says. */
  predicate GameInvariant(g: Grid, st: Status)
  {
    Shaped(g) && Walled(g) && Stacked(g) && st == Progression(g)
  }

  /** Settling a grid records the scan's status; a winner answers 503, a draw or an open game 200. */
  lemma SettleRecordsProgression(g: Grid)
    requires Shaped(g)
    ensures Settle(g).grid == g && Settle(g).status == Progression(g)
    ensures Settle(g).response.status == (if Progression(g).Winner? then ServiceUnavailable else Ok)
  {
  }

  /** Every request keeps the game invariant; a new winner answers 503 and a new draw 200. */
  lemma PlayKeepsInvariant(g: Grid, st: Status, team: string, column: string)
    requires GameInvariant(g, st)
    ensures GameInvariant(Play(g, st, team, column).grid, Play(g, st, team, column).status)
    ensures var o := Play(g, st, team, column);
      st == Status.Ongoing && o.status != Status.Ongoing ==>
        o.response.status == (if o.status.Winner? then ServiceUnavailable else Ok)
  {
    match (ParseTeam(team), ParseColumn(column))
    case (Some(t), Some(c)) =>
      assert Play(g, st, team, column) == PlayChecked(g, st, t, c);
      if st == Status.Ongoing {
        match Drop(g, t, c)
        case Some(g') =>
          DropKeepsInvariants(g, t, c);
          SettleRecordsProgression(g');
          assert PlayChecked(g, st, t, c) == Settle(g');
        case None =>
      }
    case _ =>
  }

  // ---------------------------------------------------------------- state

  class Board {
    var grid: array2<Cell>
    /** The grid as a value; `Mirrors` keeps it equal to the array. */
    ghost var cells: Grid

    /** The array is 5 by 6 and `cells` holds what it holds, cell by cell. */
    ghost predicate Mirrors()
      reads this, grid
    {
      grid.Length0 == 5 && grid.Length1 == 6 && Shaped(cells) &&
      forall r, c :: 0 <= r < 5 && 0 <= c < 6 ==> cells[r][c] == grid[r, c]
    }

    ghost predicate Valid()
      reads this, grid
    {
      Mirrors() && Walled(cells) && Stacked(cells)
    }

    /** `Board::new`: an empty grid, then walls wherever the position is a wall position. */
    constructor ()
      ensures Valid() && fresh(grid) && cells == NewGrid()
    {
      var a := new Cell[5, 6]((_, _) => Cell.Empty);
      for r := 0 to 5
        invariant forall i, j :: 0 <= i < 5 && 0 <= j < 6 ==>
          a[i, j] == if i < r && IsWallPosition(i, j) then Cell.Wall else Cell.Empty
      {
        for c := 0 to 6
          invariant forall i, j :: 0 <= i < 5 && 0 <= j < 6 ==>
            a[i, j] == if (i < r || (i == r && j < c)) && IsWallPosition(i, j) then Cell.Wall else Cell.Empty
        {
          if r == 4 || c == 0 || c == 5 {
            a[r, c] := Cell.Wall;
          }
        }
      }
      grid := a;
      cells := NewGrid();
      NewGridLayout();
    }

    /** `make_move`: scan rows 3, 2, 1, 0 of the column and fill the first empty cell. */
    method MakeMove(team: Team, column: int) returns (ok: bool)
      requires Valid() && 1 <= column <= 5
      modifies this, grid
      ensures Valid() && grid == old(grid)
      ensures ok == Drop(old(cells), team, column).Some?
      ensures cells == if ok then Drop(old(cells), team, column).value else old(cells)
    {
      ghost var g := cells;
      var row := 4;
      while row > 0
        invariant 0 <= row <= 4
        invariant forall i :: row <= i < 4 ==> g[i][column] != Cell.Empty
        invariant Valid() && grid == old(grid) && cells == g
      {
        row := row - 1;
        if grid[row, column] == Cell.Empty {
          assert LandingRow(g, column) == Some(row);
          grid[row, column] := TeamCell(team);
          cells := Drop(g, team, column).value;
          DropPlacement(g, team, column);
          DropKeepsInvariants(g, team, column);
          return true;
        }
      }
      return false;
    }

    /** `check_line`: stop at the first step that leaves the area or holds another cell. */
    method CheckLine(startRow: int, startCol: int, dr: int, dc: int, teamCell: Cell) returns (b: bool)
      requires Mirrors()
      ensures b == Line(cells, startRow, startCol, dr, dc, teamCell)
    {
      for i := 0 to 4
        invariant forall j :: 0 <= j < i ==>
          InCheckedArea(startRow + j * dr, startCol + j * dc) && cells[startRow + j * dr][startCol + j * dc] == teamCell
      {
        var row := startRow + i * dr;
        var col := startCol + i * dc;
        if row < 0 || !(0 <= row <= 4) || !(1 <= col <= 4) || grid[row, col] != teamCell {
          return false;
        }
      }
      return true;
    }

    /** Whether the cell at (`row`, `col`) holds a piece that starts a run in one of the four directions. */
    method CheckCell(row: int, col: int) returns (won: bool)
      requires Mirrors() && 0 <= row < 4 && 1 <= col <= 4
      ensures won == Wins(cells, row, col)
    {
      var cell := grid[row, col];
      won := false;
      if IsPiece(cell) {
        won := CheckLine(row, col, 0, 1, cell);
        if !won { won := CheckLine(row, col, 1, 0, cell); }
        if !won { won := CheckLine(row, col, 1, 1, cell); }
        if !won { won := CheckLine(row, col, 1, -1, cell); }
      }
    }

    /** The scan of `check_game_progression`, returning at the first winning cell. */
    method CheckGameProgression() returns (st: Status)
      requires Mirrors()
      ensures st == Progression(cells)
    {
      for row := 0 to 4
        invariant forall k :: 0 <= k < 4 * row ==> !WinsAt(cells, k)
      {
        for col := 1 to 5
          invariant forall k :: 0 <= k < 4 * row + col - 1 ==> !WinsAt(cells, k)
        {
          ScanPosition(row, col);
          if grid[row, col] == Cell.Empty {
            continue;
          }
          var won := CheckCell(row, col);
          if won {
            ProgressionAtFirstWin(cells, 4 * row + col - 1);
            return Status.Winner(CellTeam(grid[row, col]));
          }
        }
      }
      ProgressionWithoutWin(cells);
      var full := IsFull();
      if full {
        st := Status.Draw;
      } else {
        st := Status.Ongoing;
      }
    }

    /**
     * The `is_full` test, standing for the iterator `all` over the whole
     * array; it is the bridge from the array to `Full` of the grid value.
     */
    method IsFull() returns (full: bool)
      requires Mirrors()
      ensures full == Full(cells)
    {
      full := forall r, c :: 0 <= r < 5 && 0 <= c < 6 ==> grid[r, c] != Cell.Empty;
    }

    /**
     * What `day12_post_play_game` does after a successful move: scan the
     * board, and answer with the new status.
     */
    method Conclude() returns (st: Status, resp: Response)
      requires Mirrors()
      ensures Settle(cells) == Outcome(cells, st, resp)
    {
      var scanned := CheckGameProgression();
      var text := ToText();
      SettleRecordsProgression(cells);
      match scanned {
        case Winner(w) =>
          st := Status.Winner(w);
          resp := Response(ServiceUnavailable, text + "\n" + WinsMessage(w));
        case Draw =>
          st := Status.Draw;
          resp := Response(Ok, text + "\n" + NoWinner);
        case Ongoing =>
          st := Status.Ongoing;
          resp := Response(Ok, text);
      }
    }

    /** `Display for Board`: each cell's glyph, a newline after each row. */
    method ToText() returns (s: string)
      requires Mirrors()
      ensures s == Render(cells)
    {
      s := [];
      for r := 0 to 5
        invariant s == Render(cells[..r])
      {
        for c := 0 to 6
          invariant s == Render(cells[..r]) + RenderRow(cells[r][..c])
        {
          assert RenderRow(cells[r][..c + 1]) == RenderRow(cells[r][..c]) + [Glyph(cells[r][c])];
          s := s + [Glyph(grid[r, c])];
        }
        assert cells[r][..6] == cells[r];
        assert cells[..r + 1][..r] == cells[..r];
        s := s + "\n";
      }
      assert cells[..5] == cells;
    }
  }

  class Game {
    var board: Board
    var status: Status

    ghost predicate Valid()
      reads this, board, board.grid
    {
      board.Valid() && GameInvariant(board.cells, status)
    }

    /** `Game::new`: a fresh board, game ongoing. */
    constructor ()
      ensures Valid() && fresh(board) && fresh(board.grid)
      ensures board.cells == NewGrid() && status == Status.Ongoing
    {
      NewGridOngoing();
      board := new Board();
      status := Status.Ongoing;
    }

    /** `day12_get_board_state`. */
    method GetBoardState() returns (resp: Response)
      requires Valid()
      ensures resp == View(board.cells, status)
    {
      var text := board.ToText();
      var message := match status
        case Winner(t) => WinsMessage(t)
        case Draw => NoWinner
        case Ongoing => "";
      if message == "" {
        resp := Response(Ok, text);
      } else {
        resp := Response(Ok, text + message);
      }
    }

    /** `day12_post_reset_board`: the whole game replaced by a new one, answered with the empty board. */
    method PostResetBoard() returns (resp: Response)
      modifies this
      ensures Valid() && fresh(board) && fresh(board.grid)
      ensures board.cells == NewGrid() && status == Status.Ongoing
      ensures resp == Response(Ok, Render(NewGrid()))
    {
      NewGridOngoing();
      var b := new Board();
      var text := b.ToText();
      board := b;
      status := Status.Ongoing;
      resp := Response(Ok, text);
    }

    /** `day12_post_play_game`. */
    method PostPlayGame(team: string, column: string) returns (resp: Response)
      requires Valid()
      modifies this, board, board.grid
      ensures Valid() && board == old(board) && board.grid == old(board.grid)
      ensures Play(old(board.cells), old(status), team, column) == Outcome(board.cells, status, resp)
    {
      var t := ParseTeam(team);
      if t.None? {
        return Response(BadRequest, "");
      }
      var n := ParseUnsigned(column, UsizeMax);
      if n.None? || !(1 <= n.value <= 4) {
        return Response(BadRequest, "");
      }
      var c := n.value;
      assert Play(board.cells, status, team, column) == PlayChecked(board.cells, status, t.value, c);
      match status {
        case Winner(w) =>
          var text := board.ToText();
          return Response(ServiceUnavailable, text + "\n" + WinsMessage(w));
        case Draw =>
          var text := board.ToText();
          return Response(ServiceUnavailable, text + NoWinner);
        case Ongoing =>
      }
      resp := Move(t.value, c);
    }

    /** The part of `day12_post_play_game` after the game was found ongoing. */
    method Move(t: Team, c: int) returns (resp: Response)
      requires Valid() && status == Status.Ongoing && 1 <= c <= 4
      modifies this, board, board.grid
      ensures Valid() && board == old(board) && board.grid == old(board.grid)
      ensures PlayChecked(old(board.cells), Status.Ongoing, t, c) == Outcome(board.cells, status, resp)
    {
      var ok := board.MakeMove(t, c);
      if !ok {
        var text := board.ToText();
        return Response(ServiceUnavailable, text);
      }
      var st;
      st, resp := board.Conclude();
      status := st;
    }
  }
}
