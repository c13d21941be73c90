# Connect Four engine — a Dafny model

A model of the core of a console Connect Four game written in Ruby
(jampamatos/connect_four), with proofs of what the code promises:

- **Board** (`board.dfy`, lib/board.rb): a `rows × columns` grid of cells,
  each empty (`None`, Ruby `nil`) or holding a colour. Row 0 is the top.
  `Place` models `place_chip`: the full-column test comes first and reads
  cells with Ruby's negative indexing. The bounds test comes second. The
  chip then falls into the lowest empty cell. The four scans model
  `check_horizontal`, `check_vertical`, `diagonal_l_to_r?` and
  `diagonal_r_to_l?`. Each is proved to report the colour of the *first*
  line of four in its own scan order, and to report nothing exactly when
  no such line exists. `GameOver` models `game_over?`.
- **Player** (`player.dfy`, lib/player.rb): name, colour and win counter;
  `increment_wins`; the record conversion `serialize` / `deserialize` after
  JSON encoding has turned symbol keys into strings.
- **Session** (`session.dfy`, lib/gamemanager.rb): the state transitions
  of `GameManager` with the console loops lifted out:
  - `setup_game`;
  - the round opener in `play_round`;
  - the turn flip after a placement;
  - scoring in `game_is_over`, `game_tie` and `game_victory`;
  - the replay in `play_again`.

  Console input is a sequence of typed lines consumed by `Step` / `Play`.
- **Messages** (`messages.dfy`, lib/messages.rb): the decisions inside the
  prompts. These are the column/command decoder of `input_column`, the
  colour whitelist of `get_player_color`, the N/L/Q filter of `main_menu`,
  and the answer order of `game_setup_msg`.
- **BoardScenarios** (`board_scenarios.dfy`): the concrete games of
  spec/board_spec.rb. It also covers grids set up directly with a diagonal
  line, and a full grid without a line.

Errors are values. A placement returns `Result<Placement, PlaceError>` with
`PlaceError = ColumnFull | OutOfBounds`. `Option` and `Result` live in
`wrappers.dfy`.

Choices about what the code does:

- **Check order.** `place_chip` tests for a full column *before* it tests
  the range (lib/board.rb:11-12). `column_full?` reads `row[column]` with
  Ruby's indexing (lib/board.rb:85-90). So a negative column such as `-1`
  reads the last column, and it is reported `ColumnFull` when that column
  is full.
- **Full column.** `column_full?` answers true only when every row holds a
  chip at that index (lib/board.rb:86-89).
- **Missing `wins`.** `Player.deserialize` passes `data['wins']` through
  unchanged (lib/player.rb:34), so a missing field becomes `nil`. The model
  treats a missing or ill-typed field as an error; see "Left out".
- **Replay opener.** `play_again` flips `current_player`, but `play_round`
  then picks the opener again from the parity of `games_played`
  (lib/gamemanager.rb:51-55, 167). The model keeps both steps. It proves
  that openers alternate because every finished round adds one game.
- **Errors nothing rescues.** Three inputs during a round end the program
  with an error: a column the board rejects, `s`, and `l` once a saved game
  exists. The first two are under "Findings". For `l`, `GameIO.load_game`
  calls `Board.deserialize` (lib/gameio.rb:60), which lib/board.rb does not
  define. `Session.StepAsWritten` models these as written.
  The rest of the model uses the evidently intended behaviour, `Session.Step`:
  the same player is asked again after a rejected column, and saving or
  loading leaves the session as it is. Both `Step` and `StepAsWritten`
  treat the rendering calls as doing nothing. That includes `show_board`
  (lib/gamemanager.rb:63, 140, 152), which lib/board.rb does not define, so
  as written `play_round` would already stop with an error at its first
  `show_board` call, before the first prompt.

## Model

| member | source | states |
|---|---|---|
| Board.New | lib/board.rb:6-8 | a new board has exactly `rows` rows; with at least one row it has `columns` columns; every cell is empty |
| Board.NewDefault | lib/board.rb:6 | the default board is 6 rows by 7 columns and rectangular |
| Board.RubyAt | lib/board.rb:87 | `row[column]` reads index k for 0 ≤ k < size, index size+k for a negative k ≥ −size, and `nil` otherwise |
| Board.IsColumnFull | lib/board.rb:85-90 | `column_full?` is true iff every row holds a chip at that index, read with Ruby indexing |
| Board.ValidPlacement | lib/board.rb:81-83 | `valid_placement?` is true iff the column is in range and some row still has an empty cell there |
| Board.FindEmpty | lib/board.rb:14-21 | the upward scan returns an empty cell at or above the start row, with every cell between it and the start occupied; none means all are occupied |
| Board.Place | lib/board.rb:10-22 | fails `ColumnFull` iff every row holds a chip at the index (checked first); fails `OutOfBounds` iff not full and out of range; succeeds iff the column has room; on success the chip lands in the lowest empty cell, its row is returned, and no other cell changes |
| Board.PlaceOnStack | lib/board.rb:14-18 | on a column holding k stacked chips, k < rows, the next chip lands at row rows−k−1 and the stack grows to k+1 |
| Board.StackOfRowsIsFull | lib/board.rb:11 | a column holding `rows` chips is full and the next placement fails with `ColumnFull` |
| Board.ShortStackIsNotFull | lib/board.rb:85-90 | a column holding fewer than `rows` stacked chips is not full |
| Board.DropAll | lib/board.rb:10-22 | a run of placements into one column keeps the grid rectangular, with the same number of rows and columns |
| Board.DropOneMore | lib/board.rb:14-18 | one more drop onto a stack in a column extends the stack by that chip and keeps the shape |
| Board.FreshHoldsNothing | lib/board.rb:6-8 | a fresh board holds an empty stack in every column |
| Board.DropAllStacks | spec/board_spec.rb:76-92 | up to `rows` chips dropped into one column of a fresh board sit bottom-up in drop order, and no other cell is set |
| Board.KthDropLandsAt | spec/board_spec.rb:76-92 | the k-th chip dropped into a column of a fresh board is reported at row rows−k |
| Board.FillingAColumn | spec/board_spec.rb:53-69 | after n drops into a column of a fresh board, the column is full iff n = rows; after `rows` drops the next chip fails with `ColumnFull` |
| Board.PastTheEdgeIsOutOfBounds | spec/board_spec.rb:99-101 | a column index at or beyond the width fails with `OutOfBounds` |
| Board.NegativeColumnRejected | lib/board.rb:11-12 | a negative column always fails; when it reads a real column through negative indexing, it fails with `ColumnFull` iff that column is full |
| Board.Line | lib/board.rb:95 | the line read from an anchor has four cells and starts at the anchor cell |
| Board.Winning | lib/board.rb:75-79 | a window of four wins iff its first cell holds a chip and all four cells are equal to it; a winning window has no `nil` cell, so the all-empty skip never hides it |
| Board.CheckLine | lib/board.rb:75-79 | returns a colour iff some window of four from position k is one non-empty colour; the colour is that of the first such window |
| Board.AllEmptyHasNoWindow | lib/board.rb:26 | skipping an all-empty row loses no line: such a row has no winning window |
| Board.CheckRows | lib/board.rb:25-33 | returns the colour of the first winning window, reading rows in order and each row left to right; none iff no row has one |
| Board.Transpose | lib/board.rb:37 | column j of the grid becomes row j of the result |
| Board.HorizontalWindow | lib/board.rb:28 | a window of row i at offset j wins iff the horizontal line anchored at (i, j) wins |
| Board.VerticalWindow | lib/board.rb:40 | a window of row j of the transposed grid at offset i wins iff the vertical line anchored at (i, j) wins |
| Board.RowScanFindsHorizontal | lib/board.rb:24-34 | the row scan over the grid reports the first horizontal line, or nothing iff there is none |
| Board.RowScanFindsVertical | lib/board.rb:36-46 | the row scan over the transposed grid reports the first vertical line in column-by-column order, or nothing iff there is none |
| Board.CheckHorizontal | lib/board.rb:24-34 | reports the colour of the first horizontal line, row by row and left to right; nothing iff no horizontal line exists |
| Board.CheckVertical | lib/board.rb:36-46 | reports the colour of the first vertical line, column by column and top to bottom; nothing iff no vertical line exists |
| Board.SkipAnchor | lib/board.rb:96-99 | passing over an anchor that is not a line keeps "no line from here" and "first line from here" |
| Board.SkipRowRest | lib/board.rb:94 | when no anchor from column j on fits the row, the scan may move on to the next row |
| Board.PastLastAnchorRow | lib/board.rb:93 | no diagonal line is anchored past the last anchor row |
| Board.ScanDiagonal | lib/board.rb:92-116 | the nested anchor loops resumed at (i, j) return the first line at or after that anchor in row order, or nothing iff none exists there |
| Board.DiagonalScanFindsLine | lib/board.rb:92-116 | started at its first anchor row (0 going down-right, 3 going up-right) the scan reports the first diagonal line |
| Board.CheckDiagonalIn | lib/board.rb:92-116 | each diagonal scan reports the colour of its first line in row-by-row order; nothing iff there is no line in that direction |
| Board.CheckDiagonal | lib/board.rb:48-56 | reports the first down-right line if there is one, otherwise the first up-right line, otherwise nothing |
| Board.Full | lib/board.rb:118-120 | on a rectangular grid, `grid_full?` (no cell is `nil`) holds iff `column_full?` holds for every column, and iff no column has room for a chip |
| Board.FullByColumns | lib/board.rb:118-120 | a rectangular grid has no `nil` cell iff every column is full, iff no column has room |
| Board.GameOver | lib/board.rb:58-71 | a win iff some line of four exists, with that line's colour; the first line in the order horizontal, vertical, down-right, up-right decides; a tie iff no line and the grid is full; ongoing iff no line and not full |
| Board.NewBoardIsOpen | lib/board.rb:6-8 | a fresh board has no line, is not full, and every column is a valid placement |
| Player.NewPlayer | lib/player.rb:14-18 | a new player keeps the given name and colour and starts with 0 wins |
| Player.IncrementWins | lib/player.rb:21-23 | wins go up by exactly one; name and colour are unchanged |
| Player.IncrementTimesAddsN | lib/player.rb:21-23 | n calls of `increment_wins` add exactly n and keep name and colour |
| Player.FreshPlayerWinsCountCalls | lib/player.rb:14-23 | from a new player, n increments give n wins, and the counter never decreases along the way |
| Player.Serialize | lib/player.rb:25-31 | the record has exactly the fields name, color and wins |
| Player.Deserialize | lib/player.rb:33-35 | succeeds iff name and colour are strings and wins is an integer, and then copies each field |
| Player.SerializeRoundTrip | lib/player.rb:25-35 | deserializing a serialized player gives back the same player |
| Player.DeserializeRoundTrip | lib/player.rb:25-35 | a well-formed three-field record survives deserialize then serialize |
| Player.MissingWinsIsRejected | lib/player.rb:34 | a record without `wins` does not become a player with 0 wins |
| Messages.DigitPrefix | lib/messages.rb:18 | the digit run that `to_i` reads is a prefix of the input, all digits, and followed by a non-digit or the end |
| Messages.Numeral | lib/messages.rb:18 | the decimal numeral of a number is a non-empty run of digits |
| Messages.NumeralValue | lib/messages.rb:18 | the digits of a numeral read back as the number |
| Messages.ToI | lib/messages.rb:18 | an optional sign, then the leading run of ASCII digits, otherwise 0: the result is negative only after a leading `-`; a string that starts with neither a sign nor a digit reads 0; a non-zero result needs a digit in the string |
| Messages.ToINumeral | lib/messages.rb:18 | `to_i` reads back the numeral of any natural number |
| Messages.InputColumn | lib/messages.rb:14-25 | a column iff the lower-cased line reads as a number in 1..7, and then the column is that number minus 1, so it lies in 0..6; save, load, quit iff the lower-cased line is s, l, q; rejected iff none of these |
| Messages.ColumnNumeralRoundTrip | lib/messages.rb:18 | typing the one-based number of column c selects column c |
| Messages.LetterReadsZero | lib/messages.rb:18 | a line starting with a letter reads as 0, so it is never a column |
| Messages.CommandsIgnoreCase | lib/messages.rb:17-21 | S, L, Q are accepted in either case |
| Messages.OtherInputRejected | lib/messages.rb:18-23 | 8, 0, x and `save` are rejected |
| Messages.ReadColor | lib/messages.rb:40-48 | the accepted colour is the first line from the start that is one of the six colours, as typed; every line skipped before it is not a colour; none when the input runs out |
| Messages.MainMenu | lib/messages.rb:70-84 | the answer is the upper-cased form of the first line that upper-cases to N, L or Q; every line skipped before it does not |
| Messages.MenuAcceptsEitherCase | lib/messages.rb:76-81 | lower-case n, l and upper-case Q are accepted, and other words are skipped |
| Messages.GameSetupMsg | lib/messages.rb:27-33 | both colours are whitelisted, and the answers sit in the input in the order name 1, colour 1, name 2, colour 2, with only rejected colours in between; no answer only when the input holds no such sequence |
| Messages.ReadColorFinds | lib/messages.rb:40-48 | a colour on line i after lines from k that are not colours is the one the prompt accepts, and reading resumes after it |
| Messages.ReadColorFirst | lib/messages.rb:40-48 | the same, for every line at once |
| Messages.SetupAnswersRead | lib/messages.rb:27-33 | answers that sit in the input in the order asked are exactly what `game_setup_msg` returns |
| Messages.SetupKeepsOrder | lib/messages.rb:27-33 | the four answers come back in the order asked, skipping a rejected colour |
| Session.Flip | lib/gamemanager.rb:85 | player one's turn passes to player two; any other current player gives player one |
| Session.Opener | lib/gamemanager.rb:51-57 | a pending loaded player opens; otherwise player one iff `games_played` is even, player two iff it is odd |
| Session.StartRound | lib/gamemanager.rb:50-58 | the opener is installed, the pending loaded player is cleared, and nothing else changes |
| Session.SetupGame | lib/gamemanager.rb:40-48 | two new players with the given names and colours and 0 wins, an empty 6×7 board, player one to move, no ties and no games played |
| Session.GameIsOver | lib/gamemanager.rb:90-97 | a tie adds one game and one tie; a colour equal to player one's credits player one, otherwise player two, with one more game and ties unchanged; the board and turn stay |
| Session.Drop | lib/gamemanager.rb:74-86 | rejected iff the column has no room; otherwise the placed board is installed and the turn flips; the round goes on iff the board shows no line and is not full, otherwise it is scored and the replay question follows |
| Session.Replay | lib/gamemanager.rb:165-168 | a fresh empty 6×7 board, the opener recomputed by `play_round`, scores kept |
| Session.ReplayAnswer | lib/gamemanager.rb:164-175 | yes iff the lower-cased answer is y, no iff it is n |
| Session.Step | lib/gamemanager.rb:64-84 | during a round: a rejected line, save, load or a column the board rejects keep the session; q ends the program; an accepted column gives the session after the move. At the replay question: the program ends iff the answer is n, y starts a new round, anything else asks again |
| Session.StepAsWritten | lib/gamemanager.rb:64-82 | as written: a typed column the board rejects ends the program, `s` ends it, `l` ends it iff a saved game exists and otherwise keeps the session; every other line behaves as `Step` |
| Session.Play | lib/gamemanager.rb:60-87 | any sequence of typed lines keeps the board rectangular |
| Session.ScoringKeepsBalance | lib/gamemanager.rb:137-159 | scoring a round keeps `games_played = ties + wins1 + wins2` and never lowers a win counter |
| Session.StepKeepsGood | lib/gamemanager.rb:60-87 | one typed line keeps the board rectangular, the turn with player one or two, no pending load, and the count balanced |
| Session.PlayKeepsGood | lib/gamemanager.rb:60-87 | the same invariant holds after any sequence of typed lines |
| Session.GamesAreAccountedFor | lib/gamemanager.rb:137-159 | from a fresh game, whatever is typed, `games_played` equals ties plus both players' wins, and the turn belongs to player one or two |
| Session.MoveKeepsRound | lib/gamemanager.rb:51-55 | a move that does not end the round keeps `games_played`, and so the round's opener |
| Session.OpenersAlternate | lib/gamemanager.rb:161-169 | after a round ends and the players replay, the other player opens |
| Session.RoundOverCountsAGame | lib/gamemanager.rb:137-159 | a move that ends the round adds exactly one to `games_played` and keeps the pending loaded player |
| Session.ParityAlternates | lib/gamemanager.rb:51-55 | without a pending load, one more game played makes the other player the opener |
| Session.RejectedMoveKeepsTurn | lib/gamemanager.rb:75-79 | a typed column the board rejects leaves the whole session, and so the turn, unchanged |
| Session.FirstMoveOfGame | lib/gamemanager.rb:40-48 | the first move of a fresh game puts player one's colour at the bottom of the column and passes the turn to player two |
| Session.OneChipNoLine | lib/gamemanager.rb:86 | a grid with a single chip is not game over |
| Session.FullFirstColumn | lib/gamemanager.rb:60-87 | a round in progress whose first column holds six alternating chips: no room in that column, and the game is still going on |
| Session.AlternatingFirstColumn | lib/board.rb:58-71 | six alternating chips dropped into the first column of a fresh board fill it without a line, and the game goes on |
| Session.AlternatingColumnIsOpen | lib/board.rb:58-71 | a grid whose only chips alternate up the first column has no line of four and is not full |
| Session.SaveEndsProgram | lib/gamemanager.rb:179-181 | typing `s` during a round ends the program as written |
| Session.SaveKeepsSession | lib/gamemanager.rb:67-68 | the intended step after `s` or `S` keeps the session, so the same player is asked again |
| Session.LoadWithSavedGameEndsProgram | lib/gamemanager.rb:69-70 | typing `l` during a round ends the program as written when a saved game exists, and only keeps the session when none does |
| Session.FullColumnEndsProgram | lib/board.rb:11 | with column one full, typing 1 ends the program as written, while the intended step keeps the session |
| BoardScenarios.PlaceAcross | spec/board_spec.rb:110-113 | placing one chip per column from the left keeps the grid's shape |
| BoardScenarios.PlaceAcrossFillsBottomRow | spec/board_spec.rb:110-113 | one chip into each of the first columns of a fresh board fills the bottom row from the left, and nothing else |
| BoardScenarios.SingleColourLines | lib/board.rb:75-79 | on a grid with chips of one colour, every reported line has that colour |
| BoardScenarios.HorizontalWin | spec/board_spec.rb:109-123 | four same-colour chips across the bottom row are a horizontal win for that colour, and the game is over with that winner |
| BoardScenarios.AlternatingRowIsNoWin | spec/board_spec.rb:125-131 | four alternating chips across the bottom row are no horizontal line, and the game goes on |
| BoardScenarios.VerticalWin | spec/board_spec.rb:139-147 | four same-colour chips in one column are a vertical win for that colour |
| BoardScenarios.AlternatingColumnIsNoWin | spec/board_spec.rb:149-155 | four alternating chips in one column are no vertical line, and the game goes on |
| BoardScenarios.Injected | lib/board.rb:4 | a grid set directly holds the colour exactly on the chosen cells |
| BoardScenarios.InjectedDownRightWins | lib/board.rb:92-103 | a top-left to bottom-right run of four set into the grid is found by `check_diagonal` and wins the game |
| BoardScenarios.InjectedUpRightWins | lib/board.rb:105-116 | a bottom-left to top-right run of four set into the grid is found by `check_diagonal` and wins the game |
| BoardScenarios.TieGrid | lib/board.rb:118-120 | the full 6×7 grid of alternating shades has every cell occupied |
| BoardScenarios.ShadeBreaksEveryLine | lib/board.rb:75-79 | no four consecutive cells of that grid, in any direction, share a colour |
| BoardScenarios.FullGridWithoutLineIsTie | lib/board.rb:68 | a full grid without a line of four is a tie |

## Findings

| source | as written | input that shows it | evidently intended | confidence | as-written member | corrected member |
|---|---|---|---|---|---|---|
| lib/board.rb:11-12 | `place_chip` raises on a full or out-of-range column. The manager's `case` compares the result with `:column_full` and `:placement_outside_boundaries` (lib/gamemanager.rb:76-79), and nothing rescues the error, so the program stops | column 1 full on a 6×7 board, then the player types `1` | the player is told the column cannot be used and is asked again, with the turn unchanged | high (not executed) | Session.StepAsWritten, Session.FullColumnEndsProgram | Session.Step, Session.RejectedMoveKeepsTurn |
| lib/gamemanager.rb:179-181 | `save_game` calls `GameIO.save_game(self)` with one argument, but lib/gameio.rb:79 defines the saver with five required parameters, so typing `s` raises an argument error that nothing rescues and the program stops | during a round, the player types `s` | the game is saved and the same player is asked for a move again | high (not executed) | Session.StepAsWritten, Session.SaveEndsProgram | Session.Step, Session.SaveKeepsSession |

## Left out

- Rendering and console output: `show_board`, `show_scores`, `display_turn`, `welcome_msg`, `clear_screen` and the `colorize` calls. They only draw. `show_board` is not defined in lib/board.rb.
- Console input: every `gets` becomes one element of a sequence of typed lines. Prompts that wait forever are modelled as "no accepted answer" (`None`) when the lines run out.
- `quit_game` and `exit`: `Step` returns `None` at `q` or at a "no" to replay, and `Play` stops there.
- The mutual recursion of `play_round` and `play_again`: it becomes the `InRound` and `AskingReplay` phases of one transition function.
- Saving (`s`): `Session.Step` leaves the session unchanged, because writing the file is I/O. As written, the call fails; see "Findings".
- Loading (`l`): `Session.Step` leaves the session unchanged. With no saved game the loader only prints a message. With one, as written, the program stops; `Session.StepAsWritten` models that. Restoring a saved game is not modelled, because nothing in the core uses what the loader returns and nothing ever sets the pending loaded player. `Seat.Loaded` and `Opener` still model that override.
- lib/gameio.rb and `GameManager#serialize` / `deserialize`: file and JSON I/O. `Board` has no `serialize` in lib/board.rb, so only the Player record conversion is modelled.
- JSON encoding: symbol keys becoming strings is taken as given. `Player.Serialize` produces the string-keyed record directly.
- Player.Deserialize: it rejects a missing or ill-typed field with an error. Ruby would build a player holding `nil` there. The model needs an integer win counter to state the scoring invariant, so it does not carry `nil` wins.
- Messages.ToI: Ruby's full `String#to_i` grammar is simplified to an optional sign followed by the leading decimal digits; anything else reads as 0. Leading whitespace and underscores are left out.
- Messages.InputColumn: `downcase` and `upcase` are modelled on ASCII letters only. Unicode case mapping is left out.
- main.rb: wiring only.
