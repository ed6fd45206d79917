# Connect four, octet keys and HTMX toggles, modelled in Dafny

This project models three request handlers of an Advent-of-code-style web
service.

- **Day 12: milk-and-cookies connect four** (`src/lib/routes/day12.rs`).
  - The board is a 5×6 grid of cells. Row 4 and columns 0 and 5 are walls;
    the 4×4 area inside them is playable.
  - A piece dropped into a column lands in its lowest empty row.
  - After every successful move the whole board is scanned for four in a
    line, which gives `Winner`, `Draw` or `Ongoing`.
  - A `Game` pairs the board with its status. Once the game is won or
    drawn, every further move is refused and nothing changes.
- **Day 2: dotted-quad keys** (`src/lib/routes/day2.rs`).
  - `/2/dest` adds two `a.b.c.d` strings octet by octet, mod 256.
  - `/2/key` subtracts them the same way.
  - Both write the result back in dotted decimal.
- **Day 23: HTMX fragments** (`src/lib/routes/day23.rs`).
  - A constant lit star.
  - A present whose colour cycles red → blue → purple → red.
  - An ornament that toggles between on and off.
  - Anything the handlers do not recognise is answered with 418.

## Modules

- `Wrappers` and `Http` (common.dfy) hold `Option`, the status codes as
  integers, and `Response(status, body)`.
- `Text` (text.dfy) models what the handlers use of Rust's standard
  library:
  - `str::split` on one character;
  - `Join`, the dotted text the serialising loops build (the handlers call
    no library join; they use `push_str` and `push('.')`);
  - `to_string` for unsigned integers;
  - `from_str` for unsigned integers: an optional `+`, then one or more
    ASCII digits, with the value at most the type's maximum. Leading zeros
    are allowed.
- `Octets` (octets.dfy) models day 2.
  - The two handlers are methods with the source's loops.
  - They are proved against the functions `Dest` and `Key`, which in turn
    are built from `Split`, `ParseOctets`, `SumOctets`/`DifferenceOctets`
    and `ShowOctets`.
- `ConnectFour` (connect_four.dfy) models day 12.
  - Specification functions work on the grid as a value (`Grid`, a
    `seq<seq<Cell>>`): `Drop`, `Progression`, `Render` and the handler
    transitions `Play`/`PlayChecked`/`Settle`/`View`.
  - `Board` is a class over a 5×6 `array2<Cell>`, updated in place.
    A ghost field `cells` holds the same grid as a value, and
    `Board.Mirrors()` keeps it equal to the array cell by cell.
  - `Game` holds a `Board` and a `Status`. Its methods are the three
    handlers.
- `ConnectFourScenarios` (connect_four_scenarios.dfy) works through
  concrete games:
  - the boards the endpoint tests pin down byte for byte;
  - four cookies dropped into column 1 of a fresh board.
- `Htmx` (htmx.dfy) models day 23. The HTML encoder is a function
  parameter `escape`.

The model follows the code as written. Points worth knowing:

- **Win check.** The code scans every cell of rows 0..=3 (columns 1..=4)
  in row-major order and reports the first winning cell. It does not look
  only at the lines through the last move.
- **Refused moves.** These are not typed errors. The handler answers 503,
  with a body that depends on the status:
  - a won game: the board, a newline, then `🍪 wins!` or `🥛 wins!`;
  - a drawn game: the board, then `No winner.` with no newline between;
  - a full column: the board alone.
- **Messages after the board.** `GET /12/board` writes the message right
  after the board. A move that wins or draws writes an extra newline
  before it.
- **Draws.** A newly drawn game answers 200, but a newly won one answers 503.
- **Day 2 input.** Components that do not parse, and a `from` with fewer
  octets than the other operand, make the Rust code panic. The model
  returns an explicit `Panic` reply for them instead.

## Model

| member | source | states |
|---|---|---|
| Text.Split | src/lib/routes/day2.rs:30-32 | `str::split` on one character gives at least one piece, no piece contains the separator, and joining the pieces with it gives back the input |
| Text.SplitJoin | src/lib/routes/day2.rs:42-48 | splitting the dot-joined pieces gives the pieces back, when none contains a dot |
| Text.SplitPrefix | src/lib/routes/day2.rs:30 | a separator-free prefix joins onto the first piece of the split |
| Text.JoinSnoc | src/lib/routes/day2.rs:42-48 | appending a piece to the list appends separator and piece to the joined text, which the serialising loop relies on |
| Text.ShowNat | src/lib/routes/day2.rs:43 | `to_string` gives at least one decimal digit and no leading zero |
| Text.DigitsValueShowNat | src/lib/routes/day2.rs:43 | the decimal text denotes the number written |
| Text.ParseUnsigned | src/lib/routes/day2.rs:30 | the definition of unsigned `from_str`: an optional `+`, one or more ASCII digits, value at most the maximum; it carries no contract of its own, and its meaning for callers is the round trip `Text.ParseShowNat` |
| Text.ParseShowNat | src/lib/routes/day2.rs:30-32 | parsing the written number gives the number back |
| Text.DigitChar | src/lib/routes/day2.rs:43 | each decimal digit is written as an ASCII digit |
| Octets.SubUndoesAdd | src/lib/routes/day2.rs:36 | wrapping subtraction undoes wrapping addition of `u8` |
| Octets.AddUndoesSub | src/lib/routes/day2.rs:67 | wrapping addition undoes wrapping subtraction of `u8` |
| Octets.ParseOctet | src/lib/routes/day2.rs:30 | the definition of `o.parse::<u8>()`, unsigned `from_str` with maximum 255; `Octets.ParseAll` lifts it to the pieces and `Text.ParseShowNat` gives its round trip |
| Octets.ParseAll | src/lib/routes/day2.rs:30-32 | the pieces parse exactly when every piece is a `u8`, and the result agrees with each piece |
| Octets.ShowAll | src/lib/routes/day2.rs:42-44 | the definition of the per-octet `to_string`; no contract of its own, its meaning is stated by `Octets.ParseShowOctets` (it reads back) and `Octets.WriteDotted` (the loop writes it) |
| Octets.ShowOctets | src/lib/routes/day2.rs:40-48 | the definition of the dotted text the serialising loop builds; `Octets.ParseShowOctets` proves it reads back and `Octets.WriteDotted` that the loop writes it |
| Octets.ParseShowOctets | src/lib/routes/day2.rs:42-48 | splitting the dotted output on `.` and parsing it gives the computed octets back |
| Octets.WrappingAdd | src/lib/routes/day2.rs:36 | the definition of `u8::overflowing_add` keeping the sum, `(a + b) mod 256`; `Octets.SubUndoesAdd` and `Octets.AddUndoesSub` prove it and `WrappingSub` inverse |
| Octets.WrappingSub | src/lib/routes/day2.rs:67 | the definition of `u8::overflowing_sub` keeping the difference, `(a - b) mod 256` |
| Octets.ParseOctets | src/lib/routes/day2.rs:30 | the definition of the split-and-parse, `None` where the `unwrap` panics; `Octets.ParseAll` gives its element-wise meaning and `Octets.ParseShowOctets` its round trip |
| Octets.SumOctets | src/lib/routes/day2.rs:35-38 | the definition of the octet-wise `overflowing_add`; no contract of its own, its meaning is stated by `Octets.DestOctetwise`, `Octets.DifferenceUndoesSum` and `Octets.KeyUndoesDest` |
| Octets.DifferenceOctets | src/lib/routes/day2.rs:66-69 | the definition of the octet-wise `overflowing_sub`; no contract of its own, its meaning is stated by `Octets.KeyOctetwise`, `Octets.SumUndoesDifference` and `Octets.DestUndoesKey` |
| Octets.DifferenceUndoesSum | src/lib/routes/day2.rs:66-69 | for octet lists, the octet-wise wrapping difference undoes the octet-wise wrapping sum, and the sum has as many octets as the key |
| Octets.SumUndoesDifference | src/lib/routes/day2.rs:35-38 | for octet lists, the octet-wise wrapping sum undoes the octet-wise wrapping difference, and the difference has as many octets as `to` |
| Octets.Dest | src/lib/routes/day2.rs:25-51 | the definition of the `/2/dest` answer; its meaning is stated by `Octets.DestPanics`, `Octets.DestOctetwise` and `Octets.KeyUndoesDest`, and `Octets.Day2Task1` is proved equal to it |
| Octets.Key | src/lib/routes/day2.rs:56-82 | the definition of the `/2/key` answer; its meaning is stated by `Octets.KeyPanics`, `Octets.KeyOctetwise` and `Octets.DestUndoesKey`, and `Octets.Day2Task2` is proved equal to it |
| Octets.DestPanics | src/lib/routes/day2.rs:30-36 | `/2/dest` panics exactly when `from` or `key` has a component that is not a `u8`, or `from` has fewer octets than `key` |
| Octets.DestOctetwise | src/lib/routes/day2.rs:35-50 | otherwise the answer is the dotted octet-wise sum, with as many octets as `key`, and it parses back to that sum |
| Octets.KeyPanics | src/lib/routes/day2.rs:61-67 | `/2/key` panics exactly when `from` or `to` has a component that is not a `u8`, or `from` has fewer octets than `to` |
| Octets.KeyOctetwise | src/lib/routes/day2.rs:66-81 | otherwise the answer is the dotted octet-wise difference, with as many octets as `to`, and it parses back to it |
| Octets.KeyUndoesDest | src/lib/routes/day2.rs:35-38 | `/2/key` applied to `from` and the `/2/dest` answer gives the key back, exactly as written when the key was written canonically |
| Octets.DestUndoesKey | src/lib/routes/day2.rs:66-69 | `/2/dest` applied to `from` and the `/2/key` answer gives `to` back, exactly as written when `to` was written canonically |
| Octets.DottedStep | src/lib/routes/day2.rs:42-48 | the dotted text of one more octet is the previous text, a dot and the octet's decimal, with no dot before the first |
| Octets.ReadsBack | src/lib/routes/day2.rs:30-48 | decimal pieces joined with dots are the canonical text of their octets and parse back to them |
| Octets.AddOctetwise | src/lib/routes/day2.rs:35-38 | the loop yields the octet-wise wrapping sum when `from` has at least as many octets as `key`, and stops (the index panic) when it has fewer |
| Octets.SubtractOctetwise | src/lib/routes/day2.rs:66-69 | the loop yields the octet-wise wrapping difference when `from` has at least as many octets as `to`, and stops when it has fewer |
| Octets.WriteDotted | src/lib/routes/day2.rs:40-48 | the serialising loop writes each octet in decimal, with a dot between neighbours and none at either end |
| Octets.Day2Task1 | src/lib/routes/day2.rs:25-51 | the handler's loops compute the answer `Dest` specifies |
| Octets.Day2Task2 | src/lib/routes/day2.rs:56-82 | the handler's loops compute the answer `Key` specifies |
| Octets.FromInstance | tests/api/day2.rs:15 | the address `10.0.0.0` parses to the octets 10, 0, 0, 0 and is their canonical text |
| Octets.KeyInstance | tests/api/day2.rs:15 | the key `1.2.3.255` parses to 1, 2, 3, 255 and is their canonical text |
| Octets.DestInstance | tests/api/day2.rs:26 | the expected answer `11.2.3.255` parses to 11, 2, 3, 255 and is their canonical text |
| Octets.ArithmeticInstance | tests/api/day2.rs:38-50 | the test's octet-wise sum and difference |
| Octets.TestInstance | tests/api/day2.rs:15-50 | `10.0.0.0` with key `1.2.3.255` gives `11.2.3.255`, and `10.0.0.0` with `11.2.3.255` gives the key back |
| ConnectFour.NewGrid | src/lib/routes/day12.rs:24-36 | the definition of the grid `Board::new` builds; no contract of its own, its layout is stated by `ConnectFour.NewGridLayout` and its status by `ConnectFour.NewGridOngoing` |
| ConnectFour.NewGridLayout | src/lib/routes/day12.rs:24-36 | `Board::new` has a wall exactly where `row == 4 \|\| col == 0 \|\| col == 5` and is empty everywhere else |
| ConnectFour.TeamCell | src/lib/routes/day12.rs:43-46 | the definition of the team-to-cell `match` of `make_move`; `ConnectFour.CellTeam` proves it inverse to the cell-to-team `match` |
| ConnectFour.CellTeam | src/lib/routes/day12.rs:190-194 | a piece cell names the team whose cell it is |
| ConnectFour.ParseTeam | src/lib/routes/day12.rs:136-146 | only `cookie` and `milk` parse, each to its own team |
| ConnectFour.ParseTeamName | src/lib/routes/day12.rs:136-146 | each team's name parses to that team |
| ConnectFour.EmptyRowAtOrAbove | src/lib/routes/day12.rs:41-49 | the reverse row scan finds the largest empty row with every row below it occupied, or reports that none is empty |
| ConnectFour.Drop | src/lib/routes/day12.rs:38-52 | `make_move` fails exactly when rows 0..=3 of the column hold no empty cell |
| ConnectFour.LandingRow | src/lib/routes/day12.rs:41-42 | the definition of the row `make_move`'s reverse scan writes; `ConnectFour.DropPlacement` states it is the empty row with every row below it occupied |
| ConnectFour.DropPlacement | src/lib/routes/day12.rs:41-47 | a successful move writes the team's cell into the lowest empty playable cell of the column and changes no other cell |
| ConnectFour.DropKeepsInvariants | src/lib/routes/day12.rs:38-52 | moves never write a wall, never remove a piece, and keep pieces stacked from the bottom |
| ConnectFour.DropIntoWallColumn | src/lib/routes/day12.rs:39-42 | column 5, a wall column, never takes a piece |
| ConnectFour.Line | src/lib/routes/day12.rs:153-174 | the definition of `check_line`; `ConnectFour.Board.CheckLine` is proved equal to it |
| ConnectFour.ScanPosition | src/lib/routes/day12.rs:176-177 | cell (`row`, `col`) is visited at position `4*row + col - 1` of the scan |
| ConnectFour.FirstWin | src/lib/routes/day12.rs:176-197 | the scan stops at the first cell in scan order that starts a run |
| ConnectFour.Full | src/lib/routes/day12.rs:199-203 | the definition of `is_full`; `ConnectFour.FullMeansPlayableFilled` says what it means on a walled grid |
| ConnectFour.Progression | src/lib/routes/day12.rs:149-210 | the definition of `check_game_progression`; its meaning is stated by `ConnectFour.ProgressionMeaning`, `ConnectFour.WinnerHasRun` and `ConnectFour.RunMakesWinner` |
| ConnectFour.Wins | src/lib/routes/day12.rs:184-188 | the definition of the four-direction test of one cell; `ConnectFour.ProgressionMeaning` and `ConnectFour.WinnerHasRun` state the scan in terms of it, and `ConnectFour.Board.CheckCell` is proved equal to it |
| ConnectFour.ProgressionMeaning | src/lib/routes/day12.rs:149-209 | `check_game_progression` is `Winner` exactly when some cell starts a run of four in direction (0,1), (1,0), (1,1) or (1,-1) inside rows 0..=4 and columns 1..=4, naming the first such cell's team; with no run it is `Draw` exactly when the grid is full and `Ongoing` exactly when it is not |
| ConnectFour.ProgressionAtFirstWin | src/lib/routes/day12.rs:183-195 | the scan returns the team of the first winning cell |
| ConnectFour.ProgressionWithoutWin | src/lib/routes/day12.rs:199-209 | with no winning cell the result is `Draw` on a full grid and `Ongoing` otherwise |
| ConnectFour.WinnerHasRun | src/lib/routes/day12.rs:183-195 | a reported winner owns a run of four |
| ConnectFour.RunMakesWinner | src/lib/routes/day12.rs:183-195 | any run of four makes the result a winner, and that team when the other team has none |
| ConnectFour.FullMeansPlayableFilled | src/lib/routes/day12.rs:199-203 | on a walled grid, `is_full` holds exactly when all 16 playable cells hold pieces |
| ConnectFour.NewGridOngoing | src/lib/routes/day12.rs:111-118 | a new game's board scans as `Ongoing`, matching `Game::new`'s status |
| ConnectFour.Glyph | src/lib/routes/day12.rs:85-94 | the definition of `Display for Cell`; `ConnectFour.GlyphInjective` proves the glyphs distinct |
| ConnectFour.GlyphInjective | src/lib/routes/day12.rs:85-94 | the four cells are drawn with four distinct glyphs |
| ConnectFour.RenderRow | src/lib/routes/day12.rs:66-68 | the definition of one row's glyphs; no contract of its own, its layout in the board text is stated by `ConnectFour.RenderLayout` |
| ConnectFour.Render | src/lib/routes/day12.rs:63-73 | the definition of `Display for Board`; its layout is `ConnectFour.RenderLayout`, and `ConnectFour.RenderInjective` shows the text determines the board |
| ConnectFour.RenderLayout | src/lib/routes/day12.rs:63-73 | the board is drawn as one line per row, six glyphs each, every line newline-terminated |
| ConnectFour.RenderInjective | src/lib/routes/day12.rs:63-94 | the text determines the board |
| ConnectFour.ParseColumn | src/lib/routes/day12.rs:259-262 | the definition of the column parse (a `usize` in 1..=4); no contract of its own, its meaning is stated by `ConnectFour.ParseColumnShow` and `ConnectFour.PlayRejectsBadInput` |
| ConnectFour.WinsMessage | src/lib/routes/day12.rs:268-276 | the definition of the winning message, the team's glyph then ` wins!` |
| ConnectFour.WinsMessageText | src/lib/routes/day12.rs:268-276 | the cookie message is `🍪 wins!` and the milk message `🥛 wins!` |
| ConnectFour.StatusMessage | src/lib/routes/day12.rs:217-226 | the definition of the status message of `GET /12/board`: the winning message, `No winner.`, or nothing |
| ConnectFour.View | src/lib/routes/day12.rs:215-235 | the definition of the `GET /12/board` answer; `ConnectFour.Game.GetBoardState` is proved equal to it |
| ConnectFour.Play | src/lib/routes/day12.rs:250-315 | the definition of `day12_post_play_game` as a transition; its meaning is stated by `ConnectFour.PlayRejectsBadInput`, `ConnectFour.TerminalLock`, `ConnectFour.FullColumnRefused` and `ConnectFour.PlayKeepsInvariant`, and `ConnectFour.Game.PostPlayGame` is proved equal to it |
| ConnectFour.PlayChecked | src/lib/routes/day12.rs:266-289 | the definition of the handler after the input checks: the lock on a finished game, the full-column refusal, otherwise `Settle` |
| ConnectFour.Settle | src/lib/routes/day12.rs:291-314 | the definition of the handler after a successful move; `ConnectFour.SettleRecordsProgression` states its status and answer code |
| ConnectFour.ParseColumnShow | src/lib/routes/day12.rs:259-260 | each column 1..=4 written in decimal is accepted |
| ConnectFour.PlayRejectsBadInput | src/lib/routes/day12.rs:254-262 | a team other than `cookie`/`milk` or a column outside 1..=4 is answered 400 with no body, before the game is touched |
| ConnectFour.TerminalLock | src/lib/routes/day12.rs:266-284 | in a won or drawn game a move changes neither board nor status and is answered 400 or 503 |
| ConnectFour.FullColumnRefused | src/lib/routes/day12.rs:286-289 | a move into a full column leaves the game unchanged and answers 503 with the board |
| ConnectFour.SettleRecordsProgression | src/lib/routes/day12.rs:291-314 | after a successful move the status becomes the scan's result; a winner answers 503 and a draw or an open game 200 |
| ConnectFour.PlayKeepsInvariant | src/lib/routes/day12.rs:250-315 | every move keeps the board walled and stacked with the status equal to the scan; a newly won game answers 503 and a newly drawn one 200 |
| ConnectFour.Board.constructor | src/lib/routes/day12.rs:24-36 | the nested loops build the new grid, walls and all |
| ConnectFour.Board.MakeMove | src/lib/routes/day12.rs:38-52 | the in-place move succeeds exactly when `Drop` does, leaves the board as `Drop` says (unchanged on failure), and keeps the board invariants |
| ConnectFour.Board.CheckLine | src/lib/routes/day12.rs:153-174 | `check_line` holds exactly when the four cells stay in the checked area and equal the team cell |
| ConnectFour.Board.CheckCell | src/lib/routes/day12.rs:184-188 | the four-direction test of one cell |
| ConnectFour.Board.CheckGameProgression | src/lib/routes/day12.rs:149-210 | the loops compute `Progression` of the board |
| ConnectFour.Board.ToText | src/lib/routes/day12.rs:63-73 | the loops write `Render` of the board |
| ConnectFour.Game.constructor | src/lib/routes/day12.rs:111-118 | a new game has the new grid and status `Ongoing` |
| ConnectFour.Game.GetBoardState | src/lib/routes/day12.rs:215-235 | `GET /12/board` answers 200 with the board followed by the status message, and changes nothing |
| ConnectFour.Game.PostResetBoard | src/lib/routes/day12.rs:240-245 | reset replaces the game by a new one and answers with the empty board |
| ConnectFour.Game.PostPlayGame | src/lib/routes/day12.rs:250-315 | the handler's new board, new status and answer are those of `Play`, and the game invariant is kept |
| ConnectFour.Game.Move | src/lib/routes/day12.rs:286-315 | the part after the lock check: a refused move or a settled board, as `PlayChecked` says |
| ConnectFour.Board.IsFull | src/lib/routes/day12.rs:199-203 | the `is_full` test holds exactly when no cell of the grid is empty |
| ConnectFour.Board.Conclude | src/lib/routes/day12.rs:291-314 | the new status and answer after a successful move, as `Settle` says |
| ConnectFourScenarios.EmptyBoardRendering | tests/api/day12.rs:25 | the empty board renders as the test's string |
| ConnectFourScenarios.FreshBoardView | tests/api/day12.rs:20-26 | `GET /12/board` on a fresh game answers 200 with the empty board and no message |
| ConnectFourScenarios.FirstCookieMove | tests/api/day12.rs:71-77 | a cookie in column 1 of a fresh game lands in row 3, column 1, the game goes on, and the answer is 200 with the test's board |
| ConnectFourScenarios.CookieColumnDrop | src/lib/routes/day12.rs:41-47 | a cookie dropped onto a stack of cookies in column 1 lands on top of it |
| ConnectFourScenarios.CookieColumnNoWin | src/lib/routes/day12.rs:176-197 | a stack of fewer than four cookies starts no run |
| ConnectFourScenarios.CookieColumnOngoing | src/lib/routes/day12.rs:199-209 | a stack of fewer than four cookies scans as `Ongoing` |
| ConnectFourScenarios.CookieColumnWins | src/lib/routes/day12.rs:183-195 | four cookies in column 1 make cookie the winner |
| ConnectFourScenarios.CookieColumnRendering | src/lib/routes/day12.rs:63-73 | that board shows four cookie glyphs stacked in column 1 |
| ConnectFourScenarios.CookieColumnSettlesOngoing | src/lib/routes/day12.rs:291-314 | a stack of one to three cookies settles as an open game, answered 200 with the board alone |
| ConnectFourScenarios.CookieColumnSettlesWin | src/lib/routes/day12.rs:291-304 | four stacked cookies settle as a cookie win, answered 503 with the board, a newline and `🍪 wins!` |
| ConnectFourScenarios.FourCookiesInColumnOne | src/lib/routes/day12.rs:250-315 | four cookie moves into column 1 from a fresh board: moves 1-3 answer 200 and the game goes on; move 4 sets winner cookie and answers 503 with the board and `🍪 wins!` |
| ConnectFourScenarios.FifthMoveRefused | src/lib/routes/day12.rs:266-277 | after that win, any well-formed move is refused with 503 and changes nothing |
| Htmx.Day23Task2 | src/lib/routes/day23.rs:16-19 | `/23/star` always answers 200 with the lit star `div` |
| Htmx.ColourCycle | src/lib/routes/day23.rs:25-28 | the colour map is exactly red→blue, blue→purple, purple→red, with no colour mapped to itself or back in two steps, and three steps return to the start |
| Htmx.PresentHtml | src/lib/routes/day23.rs:32-40 | the definition of the present's `format!`; its lines are stated by `Htmx.PresentLines` |
| Htmx.PresentResponse | src/lib/routes/day23.rs:30-44 | the definition of the `/23/present/{color}` answer; its meaning is stated by `Htmx.PresentStatus`, `Htmx.PresentAnswer` and `Htmx.PresentThreeClicks`, and `Htmx.Day23Task3` is proved equal to it |
| Htmx.Day23Task3 | src/lib/routes/day23.rs:24-45 | the map filled by three insertions and the lookup give the answer `PresentResponse` specifies |
| Htmx.PresentStatus | src/lib/routes/day23.rs:30-44 | for any encoder, an escaped colour outside the map is answered 418 with no body, and every other answer is 200 |
| Htmx.PresentAnswer | src/lib/routes/day23.rs:30-41 | with a faithful encoder, exactly red, blue and purple are answered 200, with the present of that colour linking to the next colour |
| Htmx.PresentThreeClicks | src/lib/routes/day23.rs:25-41 | following the present's link three times shows the first present again |
| Htmx.PresentLines | src/lib/routes/day23.rs:32-40 | the present is six lines: the `div` with class `present {color}` and `hx-get="/23/present/{next_color}"`, four ribbon `div`s and the closing tag |
| Htmx.NextState | src/lib/routes/day23.rs:57 | the definition of `next_state`; `Htmx.NextStateToggles` proves it swaps on and off |
| Htmx.OrnamentClass | src/lib/routes/day23.rs:59-63 | the definition of the ornament's class; `Htmx.OrnamentClassLit` states it both ways |
| Htmx.OrnamentHtml | src/lib/routes/day23.rs:64-67 | the definition of the ornament's `format!` |
| Htmx.OrnamentResponse | src/lib/routes/day23.rs:50-69 | the definition of the `/23/ornament/{state}/{n}` answer; its meaning is stated by `Htmx.OrnamentStatus`, `Htmx.OrnamentAnswer` and `Htmx.OrnamentTwoToggles`, and `Htmx.Day23Task4` is proved equal to it |
| Htmx.NextStateToggles | src/lib/routes/day23.rs:57 | `next_state` swaps on and off, so applying it twice gives the state back |
| Htmx.OrnamentClassLit | src/lib/routes/day23.rs:59-63 | the class is `ornament on` exactly when the state is on, and `ornament` exactly when it is off |
| Htmx.Day23Task4 | src/lib/routes/day23.rs:49-70 | growing the class with `push` and `push_str` gives the answer `OrnamentResponse` specifies |
| Htmx.OrnamentStatus | src/lib/routes/day23.rs:53-55 | for any encoder, an escaped state other than on or off is answered 418 with no body, and every other answer is 200 |
| Htmx.OrnamentAnswer | src/lib/routes/day23.rs:50-69 | with a faithful encoder, exactly on and off are answered 200, with class `ornament on` exactly for on, id `ornament{n}` and `hx-get="/23/ornament/{next_state}/{n}"` |
| Htmx.OrnamentTwoToggles | src/lib/routes/day23.rs:57-69 | one toggle changes the ornament, and two toggles show the same ornament again |

## Left out

- Concurrency: the `RwLock`s around the game and the async handlers. Each handler is one sequential method on `Game`.
- The token bucket of `/9/milk`. It is the foreign `leaky_bucket` rate limiter, and the day 9 handler is unfinished.
- `/19` (SQL database access, UUIDs, clocks), `/5/manifest` (TOML, YAML and JSON library decoding), `/16` and `/-1`. These are I/O, foreign-library wrappers and constants.
- The copies of the day 2 handlers in `src/lib/routes/handlers.rs` and `src/main.rs`. They repeat `src/lib/routes/day2.rs`.
- Routing, tracing, the request-id and cookie layers, and the axum response types. Status codes are plain integers, and every answer is a `Response(status, body)`.
- `html_escape::encode_text`: foreign code, passed in as the parameter `escape`. `EscapeFaithful` states what the lemmas assume of it: the tokens red, blue, purple, on and off escape to themselves, and only a token escapes to a token.
- Octets.Dest: not a panic. Where the Rust code panics (an `unwrap` of a failed `u8` parse, or `from_octets[i]` out of bounds), the model answers `Panic`.
- Octets.Key: the same as `Dest`.
- ConnectFour.ParseColumn: assumes a 64-bit target, so `usize` ends at 2^64 − 1.
- ConnectFour.Board.MakeMove: requires a column in 1..=5, like every caller (the handler only passes 1..=4). Column 0 underflows `column - 1`: that panics with overflow checks on, and otherwise `column_idx + 1` wraps back to the wall column 0, so the move is refused as a full column. A column of 6 or more indexes past the array and panics.
- Text lengths: strings are sequences of Unicode scalar values, so lengths such as those in `ConnectFour.RenderLayout` count glyphs, not the UTF-8 bytes of the Rust `String`.
