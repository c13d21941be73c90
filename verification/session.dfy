/** The state transitions of `GameManager` (lib/gamemanager.rb): who opens a
    round, the turn flip after a placement, scoring when a round ends, and
    the fresh board on replay. The console loops are replaced by a sequence
    of typed lines that drives the transitions. */
module Session {
  import opened Wrappers
  import B = Board
  import P = Player
  import M = Messages

  /** Which player object `current_player` refers to. Ruby compares players by
      object identity, so a player restored from a save is neither seat. */
  datatype Seat = Player1 | Player2 | Loaded(player: P.Player)

  /** Whether the game waits for a move or for the play-again answer. */
  datatype Phase = InRound | AskingReplay

  datatype Session = Session(
    board: B.Board,
    player1: P.Player,
    player2: P.Player,
    current: Seat,
    ties: nat,
    gamesPlayed: nat,
    loaded: Option<P.Player>,
    phase: Phase)

  /** The player `current_player` refers to. */
  function CurrentPlayer(s: Session): P.Player
  {
    match s.current
    case Player1 => s.player1
    case Player2 => s.player2
    case Loaded(p) => p
  }

  /** `current_player == player1 ? player2 : player1`. */
  function Flip(c: Seat): (d: Seat)
    ensures c == Player1 ==> d == Player2
    ensures c != Player1 ==> d == Player1
  {
    if c == Player1 then Player2 else Player1
  }

  /** The opener `play_round` picks: player one after an even number of games,
      player two after an odd number, unless a loaded player is pending. */
  function Opener(s: Session): (c: Seat)
    ensures s.loaded.Some? ==> c == Loaded(s.loaded.value)
    ensures s.loaded.None? ==> (c == Player1 <==> s.gamesPlayed % 2 == 0)
    ensures s.loaded.None? ==> (c == Player2 <==> s.gamesPlayed % 2 == 1)
  {
    if s.loaded.Some? then Loaded(s.loaded.value)
    else if s.gamesPlayed % 2 == 0 then Player1
    else Player2
  }

  /** The start of `play_round`: install the opener and clear the pending
      loaded player; nothing else changes. */
  function StartRound(s: Session): (t: Session)
    ensures t.current == Opener(s) && t.loaded.None?
    ensures t.board == s.board && t.player1 == s.player1 && t.player2 == s.player2
    ensures t.ties == s.ties && t.gamesPlayed == s.gamesPlayed && t.phase == s.phase
  {
    s.(current := Opener(s), loaded := None)
  }

  /** `setup_game` followed by the start of the first round: two new players
      with the given names and colours, an empty 6x7 board, player one to move. */
  function SetupGame(a: M.SetupAnswers): (s: Session)
    ensures s.player1 == P.Player(a.name1, a.color1, 0)
    ensures s.player2 == P.Player(a.name2, a.color2, 0)
    ensures |s.board.grid| == 6 && B.Rectangular(s.board.grid) && B.Width(s.board.grid) == 7
    ensures forall i, j :: 0 <= i < 6 && 0 <= j < 7 ==> s.board.grid[i][j] == None
    ensures s.current == Player1 && s.ties == 0 && s.gamesPlayed == 0
    ensures s.loaded.None? && s.phase == InRound
  {
    var s := Session(B.NewDefault(), P.NewPlayer(a.name1, a.color1), P.NewPlayer(a.name2, a.color2),
                     Player1, 0, 0, None, InRound);
    StartRound(s)
  }

  /** `game_is_over` with `game_tie` and `game_victory`: a tie counts a game
      and a tie; a colour counts a game and a win for player one when it is
      player one's colour, otherwise for player two. The board and the turn
      are left as they are. */
  function GameIsOver(s: Session, o: B.Outcome): (t: Session)
    requires o != B.Ongoing
    ensures t.gamesPlayed == s.gamesPlayed + 1
    ensures o == B.Tie ==> t.ties == s.ties + 1 && t.player1 == s.player1 && t.player2 == s.player2
    ensures o.Win? ==> t.ties == s.ties
    ensures o.Win? && o.color == s.player1.color ==>
      t.player1 == P.IncrementWins(s.player1) && t.player2 == s.player2
    ensures o.Win? && o.color != s.player1.color ==>
      t.player2 == P.IncrementWins(s.player2) && t.player1 == s.player1
    ensures t.board == s.board && t.current == s.current && t.loaded == s.loaded && t.phase == s.phase
  {
    if o == B.Tie then
      s.(gamesPlayed := s.gamesPlayed + 1, ties := s.ties + 1)
    else if o.color == s.player1.color then
      s.(gamesPlayed := s.gamesPlayed + 1, player1 := P.IncrementWins(s.player1))
    else
      s.(gamesPlayed := s.gamesPlayed + 1, player2 := P.IncrementWins(s.player2))
  }

  /** What one move of the current player leads to. */
  datatype Move =
    | Rejected(error: B.PlaceError)
    | Continues(next: Session)
    | RoundOver(outcome: B.Outcome, next: Session)

  /** One pass of `play_round`'s loop: place the current player's chip. A
      rejection changes nothing. A placement flips the turn; when the board
      then shows a line or is full, the round is scored and the game asks
      whether to play again. */
  function Drop(s: Session, column: int): (m: Move)
    requires B.Rectangular(s.board.grid)
    ensures m.Rejected? <==> !B.HasRoom(s.board.grid, column)
    ensures m.Rejected? ==> m == Rejected(B.Place(s.board, CurrentPlayer(s).color, column).error)
    ensures !m.Rejected? ==>
      var placed := B.Place(s.board, CurrentPlayer(s).color, column).value.board;
      var o := B.GameOver(placed.grid);
      && m.next.board == placed
      && m.next.current == Flip(s.current)
      && m.next.loaded == s.loaded
      && (m.Continues? <==> o == B.Ongoing)
      && (m.Continues? ==> m.next == s.(board := placed, current := Flip(s.current)))
      && (m.RoundOver? ==>
            && m.outcome == o && m.next.phase == AskingReplay
            && m.next.(phase := s.phase) == GameIsOver(s.(board := placed, current := Flip(s.current)), o))
  {
    match B.Place(s.board, CurrentPlayer(s).color, column)
    case Failure(e) => Rejected(e)
    case Success(p) =>
      var t := s.(board := p.board, current := Flip(s.current));
      var o := B.GameOver(p.board.grid);
      if o == B.Ongoing then Continues(t)
      else RoundOver(o, GameIsOver(t, o).(phase := AskingReplay))
  }

  /** The `y` branch of `play_again`: a new empty board, the (overridden) turn
      flip, then `play_round` picks the opener again. */
  function Replay(s: Session): (t: Session)
    ensures |t.board.grid| == 6 && B.Rectangular(t.board.grid) && B.Width(t.board.grid) == 7
    ensures forall i, j :: 0 <= i < 6 && 0 <= j < 7 ==> t.board.grid[i][j] == None
    ensures t.current == Opener(s) && t.loaded.None? && t.phase == InRound
    ensures t.player1 == s.player1 && t.player2 == s.player2
    ensures t.ties == s.ties && t.gamesPlayed == s.gamesPlayed
  {
    StartRound(s.(board := B.NewDefault(), current := Flip(s.current), phase := InRound))
  }

  /** `play_again`'s reading of an answer: `y` or `n` in either case; anything
      else asks again. */
  function ReplayAnswer(line: string): (r: Option<bool>)
    ensures r == Some(true) <==> M.Downcase(line) == "y"
    ensures r == Some(false) <==> M.Downcase(line) == "n"
  {
    var answer := M.Downcase(line);
    if answer == "y" then Some(true)
    else if answer == "n" then Some(false)
    else None
  }

  /** The session after one typed line, or `None` when the line ends the
      program (`q` during a round, `n` at the play-again prompt). Save and
      load are treated as doing nothing: the session stays as it is. */
  function Step(s: Session, line: string): (r: Option<Session>)
    requires B.Rectangular(s.board.grid)
    ensures r.Some? ==> B.Rectangular(r.value.board.grid)
    ensures s.phase == InRound ==>
      var cmd := M.InputColumn(line);
      && (cmd.None? || cmd.value.Save? || cmd.value.Load? ==> r == Some(s))
      && (cmd.Some? && cmd.value.Quit? ==> r.None?)
      && (cmd.Some? && cmd.value.Column? && Drop(s, cmd.value.index).Rejected? ==> r == Some(s))
      && (cmd.Some? && cmd.value.Column? && !Drop(s, cmd.value.index).Rejected? ==>
            r == Some(Drop(s, cmd.value.index).next))
    ensures s.phase == AskingReplay ==>
      && (r.None? <==> M.Downcase(line) == "n")
      && (M.Downcase(line) == "y" ==> r == Some(Replay(s)))
      && (M.Downcase(line) !in ["y", "n"] ==> r == Some(s))
  {
    match s.phase
    case InRound =>
      var cmd := M.InputColumn(line);
      if cmd.None? || cmd.value.Save? || cmd.value.Load? then Some(s)
      else if cmd.value.Quit? then None
      else
        (match Drop(s, cmd.value.index)
         case Rejected(_) => Some(s)
         case Continues(t) => Some(t)
         case RoundOver(_, t) => Some(t))
    case AskingReplay =>
      match ReplayAnswer(line)
      case None => Some(s)
      case Some(again) => if again then Some(Replay(s)) else None
  }

  /** During a round, `line` names a column the board cannot take. */
  ghost predicate RejectedColumn(s: Session, line: string)
  {
    && s.phase == InRound
    && M.InputColumn(line).Some? && M.InputColumn(line).value.Column?
    && !B.HasRoom(s.board.grid, M.InputColumn(line).value.index)
  }

  /** During a round, `line` is the save command. */
  predicate SaveTyped(s: Session, line: string)
  {
    s.phase == InRound && M.InputColumn(line) == Some(M.Save)
  }

  /** During a round, `line` is the load command. */
  predicate LoadTyped(s: Session, line: string)
  {
    s.phase == InRound && M.InputColumn(line) == Some(M.Load)
  }

  /** One typed line as `play_round` is written, where `savedGames` says
      whether the save directory holds a game. Three lines end the program
      with an error nothing rescues:
      - a column the board rejects: `place_chip` raises instead of returning
        the symbols the manager's `case` compares against;
      - `s`: `save_game` calls the saver with one argument where it takes five;
      - `l` with a saved game present: the loader calls `Board.deserialize`,
        which the board does not define.
      `l` without a saved game only prints a message. Every other line
      behaves as in `Step`. Rendering calls are treated as doing nothing,
      including `show_board`, which the board does not define either. */
  function StepAsWritten(s: Session, line: string, savedGames: bool): (r: Option<Session>)
    requires B.Rectangular(s.board.grid)
    ensures RejectedColumn(s, line) ==> r.None?
    ensures SaveTyped(s, line) ==> r.None?
    ensures LoadTyped(s, line) ==> (r.None? <==> savedGames)
    ensures LoadTyped(s, line) && !savedGames ==> r == Some(s)
    ensures !RejectedColumn(s, line) && !SaveTyped(s, line) && !LoadTyped(s, line) ==> r == Step(s, line)
  {
    var cmd := M.InputColumn(line);
    if s.phase != InRound || cmd.None? then Step(s, line)
    else if cmd.value.Save? then None
    else if cmd.value.Load? then (if savedGames then None else Some(s))
    else if cmd.value.Column? && Drop(s, cmd.value.index).Rejected? then None
    else Step(s, line)
  }

  /** The session after the typed `lines`, stopping where the program ends. */
  function Play(s: Session, lines: seq<string>): (t: Session)
    requires B.Rectangular(s.board.grid)
    ensures B.Rectangular(t.board.grid)
    decreases |lines|
  {
    if |lines| == 0 then s
    else match Step(s, lines[0])
      case None => s
      case Some(t) => Play(t, lines[1..])
  }

  // ---------------------------------------------------------------------
  // Properties
  // ---------------------------------------------------------------------

  /** Every game played so far ended in a tie or in exactly one player's win. */
  predicate Balanced(s: Session)
  {
    s.gamesPlayed == s.ties + s.player1.wins + s.player2.wins
  }

  /** What holds of every session reached from `setup_game` without loading. */
  predicate Good(s: Session)
  {
    && B.Rectangular(s.board.grid)
    && (s.current == Player1 || s.current == Player2)
    && s.loaded.None?
    && s.player1.wins >= 0 && s.player2.wins >= 0
    && Balanced(s)
  }

  /** Scoring a finished round keeps the games-played count balanced, and
      never lowers a win counter. */
  lemma ScoringKeepsBalance(s: Session, o: B.Outcome)
    requires o != B.Ongoing && Balanced(s)
    ensures Balanced(GameIsOver(s, o))
    ensures GameIsOver(s, o).player1.wins >= s.player1.wins
    ensures GameIsOver(s, o).player2.wins >= s.player2.wins
  {
  }

  /** One typed line keeps the invariant. */
  lemma StepKeepsGood(s: Session, line: string)
    requires Good(s)
    ensures Step(s, line).Some? ==> Good(Step(s, line).value)
  {
    if s.phase == InRound {
      var cmd := M.InputColumn(line);
      if cmd.Some? && cmd.value.Column? {
        var m := Drop(s, cmd.value.index);
        if m.RoundOver? {
          var placed := B.Place(s.board, CurrentPlayer(s).color, cmd.value.index).value.board;
          ScoringKeepsBalance(s.(board := placed, current := Flip(s.current)), m.outcome);
        }
      }
    }
  }

  /** Any sequence of typed lines keeps the invariant. */
  lemma {:induction false} PlayKeepsGood(s: Session, lines: seq<string>)
    requires Good(s)
    ensures Good(Play(s, lines))
    decreases |lines|
  {
    if |lines| > 0 {
      StepKeepsGood(s, lines[0]);
      var r := Step(s, lines[0]);
      if r.Some? {
        PlayKeepsGood(r.value, lines[1..]);
      }
    }
  }

  /** From a fresh game, whatever is typed, `games_played` equals the ties plus
      both players' wins, and the turn always belongs to one of the two players. */
  lemma GamesAreAccountedFor(a: M.SetupAnswers, lines: seq<string>)
    ensures var s := Play(SetupGame(a), lines);
      && s.gamesPlayed == s.ties + s.player1.wins + s.player2.wins
      && (s.current == Player1 || s.current == Player2)
  {
    PlayKeepsGood(SetupGame(a), lines);
  }

  /** A move that does not end the round keeps the round's game count, so the
      opener computed at the start of the round is still the one its parity
      gives when the round ends. */
  lemma MoveKeepsRound(s: Session, column: int)
    requires B.Rectangular(s.board.grid) && Drop(s, column).Continues?
    ensures Drop(s, column).next.gamesPlayed == s.gamesPlayed
    ensures Opener(Drop(s, column).next) == Opener(s)
  {
  }

  /** Openers alternate: after a round that `s`'s opener started ends and the
      players choose to play again, the other player opens. */
  lemma OpenersAlternate(s: Session, column: int)
    requires B.Rectangular(s.board.grid) && s.loaded.None?
    requires Drop(s, column).RoundOver?
    ensures Opener(s) == Player1 || Opener(s) == Player2
    ensures Replay(Drop(s, column).next).current == Flip(Opener(s))
    ensures Replay(Drop(s, column).next).current != Opener(s)
  {
    var next := Drop(s, column).next;
    RoundOverCountsAGame(s, column);
    ParityAlternates(s, next);
  }

  /** The opener after one more game without a pending load is the other player. */
  lemma ParityAlternates(s: Session, next: Session)
    requires s.loaded.None? && next.loaded.None? && next.gamesPlayed == s.gamesPlayed + 1
    ensures Opener(next) == Flip(Opener(s)) && Opener(next) != Opener(s)
  {
  }

  /** A move that ends the round counts one more game and keeps the pending
      loaded player. */
  lemma RoundOverCountsAGame(s: Session, column: int)
    requires B.Rectangular(s.board.grid) && Drop(s, column).RoundOver?
    ensures Drop(s, column).next.gamesPlayed == s.gamesPlayed + 1
    ensures Drop(s, column).next.loaded == s.loaded
  {
  }

  /** A rejected move leaves the whole session, and so the turn, unchanged. */
  lemma RejectedMoveKeepsTurn(s: Session, line: string)
    requires B.Rectangular(s.board.grid) && s.phase == InRound
    requires M.InputColumn(line).Some? && M.InputColumn(line).value.Column?
    requires !B.HasRoom(s.board.grid, M.InputColumn(line).value.index)
    ensures RejectedColumn(s, line) && Step(s, line) == Some(s)
  {
  }

  /** The first accepted move of a fresh game lands player one's colour at the
      bottom of the chosen column and hands the turn to player two. */
  lemma FirstMoveOfGame(a: M.SetupAnswers, column: int)
    requires 0 <= column < 7
    ensures var s := SetupGame(a);
      var m := Drop(s, column);
      && m.Continues?
      && m.next.current == Player2
      && m.next.board.grid[5][column] == Some(a.color1)
  {
    var s := SetupGame(a);
    B.PlaceOnStack(s.board, a.color1, column, 0);
    var g := B.Place(s.board, a.color1, column).value.board.grid;
    assert !B.AnyLine(g) && !B.Full(g) by {
      OneChipNoLine(s.board.grid, g, column, a.color1);
    }
  }

  /** A grid holding a single chip has no line of four and is not full. */
  lemma OneChipNoLine(g0: B.Grid, g: B.Grid, column: int, color: string)
    requires |g0| == 6 && B.Rectangular(g0) && B.Width(g0) == 7 && 0 <= column < 7
    requires forall i, j :: 0 <= i < 6 && 0 <= j < 7 ==> g0[i][j] == None
    requires B.ChangesOnly(g0, g, 5, column, Some(color))
    ensures !B.AnyLine(g) && !B.Full(g)
  {
    assert g[0][0] == None;
    forall d: B.Direction, i, j | B.AnchorOk(g, d, i, j)
      ensures !B.WinAt(g, d, i, j)
    {
      var w := B.Line(g, d, i, j);
      if w[0].Some? {
        assert i == 5 && j == column;
        assert d == B.Horizontal || d == B.UpRight;
        assert w[1] == g[i + B.RowStep(d)][j + 1];
      }
    }
  }

  /** A fresh game in which six alternating chips have filled the first
      column: a state a round can reach, since it shows no line and the
      board is not full. */
  function FullFirstColumn(a: M.SetupAnswers): (s: Session)
    ensures s.phase == InRound && B.Rectangular(s.board.grid) && !B.HasRoom(s.board.grid, 0)
    ensures B.GameOver(s.board.grid) == B.Ongoing
  {
    AlternatingFirstColumn();
    SetupGame(a).(board := B.DropAll(B.NewDefault(), AlternatingSix, 0).value)
  }

  const AlternatingSix: seq<B.Color> := ["red", "yellow", "red", "yellow", "red", "yellow"]

  /** Dropping `AlternatingSix` into the first column of a fresh board fills
      that column without making a line. */
  lemma AlternatingFirstColumn()
    ensures B.DropAll(B.NewDefault(), AlternatingSix, 0).Success?
    ensures var g := B.DropAll(B.NewDefault(), AlternatingSix, 0).value.grid;
      && B.Rectangular(g) && !B.HasRoom(g, 0) && B.GameOver(g) == B.Ongoing
  {
    B.FillingAColumn(6, 7, AlternatingSix, 0, "red");
    B.DropAllStacks(6, 7, AlternatingSix, 0);
    var g := B.DropAll(B.NewDefault(), AlternatingSix, 0).value.grid;
    AlternatingColumnIsOpen(g, AlternatingSix);
  }

  /** A 6x7 grid whose only chips alternate up the first column has no line
      of four and is not full. */
  lemma AlternatingColumnIsOpen(g: B.Grid, colors: seq<B.Color>)
    requires |g| == 6 && B.Rectangular(g) && B.Width(g) == 7
    requires colors == AlternatingSix
    requires B.HoldsOnly(g, 0, colors)
    ensures !B.AnyLine(g) && !B.Full(g)
  {
    assert g[0][1] == None;
    forall d: B.Direction, i, j | B.AnchorOk(g, d, i, j)
      ensures !B.WinAt(g, d, i, j)
    {
      if g[i][j].Some? {
        assert j == 0;
        if d == B.Vertical {
          assert g[i][0] != g[i + 1][0];
        } else {
          assert g[i + B.RowStep(d)][1] == None;
        }
      }
    }
  }

  /** Typing `1` when the first column is full ends the program as written,
      where the rest of the manager expects the same player to be asked again. */
  lemma FullColumnEndsProgram(a: M.SetupAnswers, savedGames: bool)
    ensures var s := FullFirstColumn(a);
      StepAsWritten(s, "1", savedGames).None? && Step(s, "1") == Some(s)
  {
    M.ColumnNumeralRoundTrip(0);
    assert M.Numeral(1) == "1";
  }

  /** Typing `s` during a round ends the program as written. */
  lemma SaveEndsProgram(s: Session, savedGames: bool)
    requires B.Rectangular(s.board.grid) && s.phase == InRound
    ensures SaveTyped(s, "s") && StepAsWritten(s, "s", savedGames).None?
  {
    assert M.Downcase("s") == "s";
    M.LetterReadsZero("s");
  }

  /** The evidently intended save: the game carries on with the same session,
      in either case of the letter, and the same player is asked again. */
  lemma SaveKeepsSession(s: Session)
    requires B.Rectangular(s.board.grid) && s.phase == InRound
    ensures Step(s, "s") == Some(s) && Step(s, "S") == Some(s)
  {
    M.CommandsIgnoreCase();
  }

  /** Typing `l` during a round ends the program as written once a saved game
      exists, and only prints a message when none does. */
  lemma LoadWithSavedGameEndsProgram(s: Session)
    requires B.Rectangular(s.board.grid) && s.phase == InRound
    ensures LoadTyped(s, "l")
    ensures StepAsWritten(s, "l", true).None? && StepAsWritten(s, "l", false) == Some(s)
  {
    assert M.Downcase("l") == "l";
    M.LetterReadsZero("l");
  }
}
