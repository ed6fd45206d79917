// Concrete games of connect four: the boards the endpoint tests expect, and
// four cookies dropped into column 1 of a fresh board.

module ConnectFourScenarios {
  import opened Wrappers
  import opened Http
  import opened Text
  import opened ConnectFour

  /** The first move of the endpoint test: a cookie dropped into column 1 of a fresh board. */
  function FirstCookieGrid(): Grid
  {
    NewGrid()[3 := NewGrid()[3][1 := Cell.Cookie]]
  }

  lemma RenderFiveRows(g: Grid)
    requires |g| == 5
    ensures Render(g) == RenderLine(g[0]) + RenderLine(g[1]) + RenderLine(g[2]) + RenderLine(g[3]) + RenderLine(g[4])
  {
    assert g[..1][..0] == [];
    assert Render(g[..1]) == RenderLine(g[0]);
    assert g[..2][..1] == g[..1];
    assert Render(g[..2]) == RenderLine(g[0]) + RenderLine(g[1]);
    assert g[..3][..2] == g[..2];
    assert Render(g[..3]) == RenderLine(g[0]) + RenderLine(g[1]) + RenderLine(g[2]);
    assert g[..4][..3] == g[..3];
    assert Render(g[..4]) == RenderLine(g[0]) + RenderLine(g[1]) + RenderLine(g[2]) + RenderLine(g[3]);
    assert g[..5] == g;
  }

  const WallRow: seq<Cell> := [Cell.Wall, Cell.Wall, Cell.Wall, Cell.Wall, Cell.Wall, Cell.Wall]
  const OpenRow: seq<Cell> := [Cell.Wall, Cell.Empty, Cell.Empty, Cell.Empty, Cell.Empty, Cell.Wall]

  /** The empty board as the endpoint tests expect it. */
  const EmptyBoardText: string :=
    "\U{2B1C}\U{2B1B}\U{2B1B}\U{2B1B}\U{2B1B}\U{2B1C}\n"
    + "\U{2B1C}\U{2B1B}\U{2B1B}\U{2B1B}\U{2B1B}\U{2B1C}\n"
    + "\U{2B1C}\U{2B1B}\U{2B1B}\U{2B1B}\U{2B1B}\U{2B1C}\n"
    + "\U{2B1C}\U{2B1B}\U{2B1B}\U{2B1B}\U{2B1B}\U{2B1C}\n"
    + "\U{2B1C}\U{2B1C}\U{2B1C}\U{2B1C}\U{2B1C}\U{2B1C}\n"

  /** The board after a cookie in column 1, as the endpoint tests expect it. */
  const FirstCookieText: string :=
    "\U{2B1C}\U{2B1B}\U{2B1B}\U{2B1B}\U{2B1B}\U{2B1C}\n"
    + "\U{2B1C}\U{2B1B}\U{2B1B}\U{2B1B}\U{2B1B}\U{2B1C}\n"
    + "\U{2B1C}\U{2B1B}\U{2B1B}\U{2B1B}\U{2B1B}\U{2B1C}\n"
    + "\U{2B1C}\U{1F36A}\U{2B1B}\U{2B1B}\U{2B1B}\U{2B1C}\n"
    + "\U{2B1C}\U{2B1C}\U{2B1C}\U{2B1C}\U{2B1C}\U{2B1C}\n"

  lemma NewGridRows()
    ensures NewGrid() == [OpenRow, OpenRow, OpenRow, OpenRow, WallRow]
  {
    var g := NewGrid();
    assert g[0] == OpenRow && g[1] == OpenRow && g[2] == OpenRow && g[3] == OpenRow;
    assert g[4] == WallRow;
  }

  /** A fresh (or reset) board renders exactly as the endpoint tests expect. */
  lemma EmptyBoardRendering()
    ensures Render(NewGrid()) == EmptyBoardText
  {
    NewGridRows();
    RenderFiveRows(NewGrid());
    assert RenderLine(OpenRow) == "\U{2B1C}\U{2B1B}\U{2B1B}\U{2B1B}\U{2B1B}\U{2B1C}\n";
    assert RenderLine(WallRow) == "\U{2B1C}\U{2B1C}\U{2B1C}\U{2B1C}\U{2B1C}\U{2B1C}\n";
  }

  lemma FirstCookieLayout()
    ensures FirstCookieGrid() == [OpenRow, OpenRow, OpenRow,
      [Cell.Wall, Cell.Cookie, Cell.Empty, Cell.Empty, Cell.Empty, Cell.Wall], WallRow]
    ensures forall r, c :: 0 <= r < 5 && 0 <= c < 6 && (r != 3 || c != 1) ==> !IsPiece(FirstCookieGrid()[r][c])
    ensures Drop(NewGrid(), Team.Cookie, 1) == Some(FirstCookieGrid())
  {
    NewGridRows();
    assert LandingRow(NewGrid(), 1) == Some(3);
    assert OpenRow[1 := Cell.Cookie] == [Cell.Wall, Cell.Cookie, Cell.Empty, Cell.Empty, Cell.Empty, Cell.Wall];
  }

  lemma FirstCookieOngoing()
    ensures Progression(FirstCookieGrid()) == Status.Ongoing
  {
    var g' := FirstCookieGrid();
    FirstCookieLayout();
    forall k | 0 <= k < 16 ensures !WinsAt(g', k) {
      if k != 12 {
        assert ScanRow(k) != 3 || ScanCol(k) != 1;
        assert !IsPiece(g'[ScanRow(k)][ScanCol(k)]);
      } else {
        assert !Line(g', 3, 1, 0, 1, Cell.Cookie) by { assert g'[3 + 1 * 0][1 + 1 * 1] == Cell.Empty; }
        assert !Line(g', 3, 1, 1, 0, Cell.Cookie) by { assert g'[4][1] == Cell.Wall; }
        assert !Line(g', 3, 1, 1, 1, Cell.Cookie) by { assert g'[4][2] == Cell.Wall; }
        assert !Line(g', 3, 1, 1, -1, Cell.Cookie) by { assert g'[4][0] == Cell.Wall; }
      }
    }
    assert g'[0][1] == Cell.Empty;
    ProgressionWithoutWin(g');
  }

  lemma FirstCookieRendering()
    ensures Render(FirstCookieGrid()) == FirstCookieText
  {
    FirstCookieLayout();
    RenderFiveRows(FirstCookieGrid());
    assert RenderLine(OpenRow) == "\U{2B1C}\U{2B1B}\U{2B1B}\U{2B1B}\U{2B1B}\U{2B1C}\n";
    assert RenderLine(WallRow) == "\U{2B1C}\U{2B1C}\U{2B1C}\U{2B1C}\U{2B1C}\U{2B1C}\n";
    assert RenderLine([Cell.Wall, Cell.Cookie, Cell.Empty, Cell.Empty, Cell.Empty, Cell.Wall])
      == "\U{2B1C}\U{1F36A}\U{2B1B}\U{2B1B}\U{2B1B}\U{2B1C}\n";
  }

  /**
   * The endpoint test of `/12/place/cookie/1` on a fresh game: the cookie
   * lands in row 3, column 1, the game goes on, and the answer is 200 with
   * the expected board.
   */
  lemma FirstCookieMove()
    ensures FirstCookieGrid()[3][1] == Cell.Cookie
    ensures Play(NewGrid(), Status.Ongoing, "cookie", "1")
      == Outcome(FirstCookieGrid(), Status.Ongoing, Response(Ok, FirstCookieText))
  {
    assert ParseColumn("1") == Some(1) by { ParseColumnShow(1); assert ShowNat(1) == "1"; }
    FirstCookieLayout();
    FirstCookieOngoing();
    FirstCookieRendering();
    assert Play(NewGrid(), Status.Ongoing, "cookie", "1") == PlayChecked(NewGrid(), Status.Ongoing, Team.Cookie, 1);
    assert PlayChecked(NewGrid(), Status.Ongoing, Team.Cookie, 1) == Settle(FirstCookieGrid());
  }

  /** `GET /12/board` on a fresh game answers 200 with the empty board and no message. */
  lemma FreshBoardView()
    ensures View(NewGrid(), Status.Ongoing) == Response(Ok, EmptyBoardText)
  {
    EmptyBoardRendering();
  }

  // ------------------------------------------------- four cookies in column 1

  /** Column 1 holding `k` cookies stacked from the bottom, and nothing else. */
  function CookieColumn(k: nat): (g: Grid)
    requires k <= 4
    ensures Shaped(g)
    ensures forall r, c :: 0 <= r < 5 && 0 <= c < 6 ==> g[r][c] == StackCell(k, r, c)
  {
    seq(5, r => seq(6, c => StackCell(k, r, c)))
  }

  function StackCell(k: nat, r: int, c: int): Cell
  {
    if IsWallPosition(r, c) then Cell.Wall
    else if c == 1 && 4 - k <= r then Cell.Cookie
    else Cell.Empty
  }

  lemma CookieColumnEmpty()
    ensures CookieColumn(0) == NewGrid()
  {
    var g, h := CookieColumn(0), NewGrid();
    forall r | 0 <= r < 5 ensures g[r] == h[r] {
      assert forall c :: 0 <= c < 6 ==> g[r][c] == h[r][c];
    }
  }

  /** Another cookie in column 1 lands on top of the stack. */
  lemma CookieColumnDrop(k: nat)
    requires k < 4
    ensures Drop(CookieColumn(k), Team.Cookie, 1) == Some(CookieColumn(k + 1))
  {
    var g := CookieColumn(k);
    assert g[3 - k][1] == Cell.Empty;
    var row := LandingRow(g, 1).value;
    assert row == 3 - k;
    DropPlacement(g, Team.Cookie, 1);
    var g', h := Drop(g, Team.Cookie, 1).value, CookieColumn(k + 1);
    forall r | 0 <= r < 5 ensures g'[r] == h[r] {
      assert forall c :: 0 <= c < 6 ==> g'[r][c] == h[r][c];
    }
    assert g' == h;
  }

  /** A stack of fewer than four cookies starts no run. */
  lemma CookieColumnNoWin(k: nat, j: int)
    requires k < 4 && 0 <= j < 16
    ensures !WinsAt(CookieColumn(k), j)
  {
    var g := CookieColumn(k);
    var row, col := ScanRow(j), ScanCol(j);
    if IsPiece(g[row][col]) {
      assert col == 1 && 1 <= row <= 3;
      assert !Line(g, row, col, 0, 1, Cell.Cookie) by {
        assert g[row + 1 * 0][col + 1 * 1] == Cell.Empty;
      }
      assert !Line(g, row, col, 1, 0, Cell.Cookie) by {
        assert !InCheckedArea(row + 3 * 1, col + 3 * 0) || g[row + 3 * 1][col + 3 * 0] == Cell.Wall;
      }
      assert !Line(g, row, col, 1, 1, Cell.Cookie) by {
        assert g[row + 1 * 1][col + 1 * 1] != Cell.Cookie;
      }
      assert !Line(g, row, col, 1, -1, Cell.Cookie) by {
        assert !InCheckedArea(row + 1 * 1, col + 1 * -1);
      }
    }
  }

  lemma CookieColumnOngoing(k: nat)
    requires k < 4
    ensures Progression(CookieColumn(k)) == Status.Ongoing
  {
    var g := CookieColumn(k);
    forall j | 0 <= j < 16 ensures !WinsAt(g, j) {
      CookieColumnNoWin(k, j);
    }
    assert g[0][1] == Cell.Empty;
    ProgressionWithoutWin(g);
  }

  /** Four cookies in column 1: the scan finds the run at its very first cell. */
  lemma CookieColumnWins()
    ensures Progression(CookieColumn(4)) == Status.Winner(Team.Cookie)
  {
    var g := CookieColumn(4);
    assert Line(g, 0, 1, 1, 0, Cell.Cookie);
    assert WinsAt(g, 0);
    ProgressionAtFirstWin(g, 0);
  }

  /** A well-formed cookie move into column 1 of the stack settles the taller stack. */
  lemma CookieColumnPlay(k: nat)
    requires k < 4
    ensures Play(CookieColumn(k), Status.Ongoing, "cookie", "1") == Settle(CookieColumn(k + 1))
  {
    assert ParseColumn("1") == Some(1) by { ParseColumnShow(1); assert ShowNat(1) == "1"; }
    CookieColumnDrop(k);
  }

  /** The finished board shows four cookie glyphs stacked in column 1. */
  lemma CookieColumnRendering()
    ensures |Render(CookieColumn(4))| == 35
    ensures forall r :: 0 <= r < 4 ==> Render(CookieColumn(4))[7 * r + 1] == '\U{1F36A}'
  {
    var g := CookieColumn(4);
    RenderLayout(g);
    forall r | 0 <= r < 4 ensures Render(g)[7 * r + 1] == '\U{1F36A}' {
      var c := 1;
      assert Render(g)[7 * r + c] == Glyph(g[r][c]);
    }
  }

  /** Fewer than four cookies: the taller stack settles as an open game, answered 200 with the board. */
  lemma CookieColumnSettlesOngoing(k: nat)
    requires 1 <= k < 4
    ensures Settle(CookieColumn(k)) == Outcome(CookieColumn(k), Status.Ongoing, Response(Ok, Render(CookieColumn(k))))
  {
    CookieColumnOngoing(k);
  }

  /** The fourth cookie settles as a cookie win, answered 503 with the board and the message. */
  lemma CookieColumnSettlesWin()
    ensures Settle(CookieColumn(4)) ==
      Outcome(CookieColumn(4), Status.Winner(Team.Cookie),
              Response(ServiceUnavailable, Render(CookieColumn(4)) + "\n" + "\U{1F36A} wins!"))
  {
    CookieColumnWins();
    WinsMessageText();
  }

  /**
   * Dropping a cookie into column 1 of a fresh board four times: the first
   * three moves answer 200 with the game going on, the fourth makes cookie
   * the winner and answers 503 with the board and the winning message.
   */
  lemma FourCookiesInColumnOne(k: nat)
    requires k < 4
    ensures k == 0 ==> CookieColumn(k) == NewGrid()
    ensures Play(CookieColumn(k), Status.Ongoing, "cookie", "1") ==
      if k < 3 then Outcome(CookieColumn(k + 1), Status.Ongoing, Response(Ok, Render(CookieColumn(k + 1))))
      else Outcome(CookieColumn(4), Status.Winner(Team.Cookie),
                   Response(ServiceUnavailable, Render(CookieColumn(4)) + "\n" + "\U{1F36A} wins!"))
  {
    CookieColumnEmpty();
    CookieColumnPlay(k);
    if k < 3 {
      CookieColumnSettlesOngoing(k + 1);
    } else {
      CookieColumnSettlesWin();
    }
  }

  /** After the win, a further move is refused with 503 and changes nothing. */
  lemma FifthMoveRefused(team: string, column: string)
    requires ParseTeam(team).Some? && ParseColumn(column).Some?
    ensures Play(CookieColumn(4), Status.Winner(Team.Cookie), team, column) ==
      Outcome(CookieColumn(4), Status.Winner(Team.Cookie),
              Response(ServiceUnavailable, Render(CookieColumn(4)) + "\n" + "\U{1F36A} wins!"))
  {
    WinsMessageText();
  }
}
