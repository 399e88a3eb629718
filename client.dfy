/** The game page (app/page.tsx): the player statistics it keeps, the scan
    for the winning cells to highlight, and the local two-player ("human")
    mode of makeMove, in which the page itself plays the move, judges the
    board and passes the turn. The page's React state is the class
    TicTacToeGame below; each setter becomes an assignment to its field. */
module Client {
  import opened Rules

  // ---------------------------------------------------------------------
  // Player statistics

  /** The outcome updateStats is told about: "win", "loss" or "draw". */
  datatype GameResult = Win | Loss | Tie

  /** The GameStats record kept by the page and saved in local storage. */
  datatype Stats = Stats(wins: nat, losses: nat, draws: nat, streak: nat, totalGames: nat, bestStreak: nat)

  /** The counters of a fresh page, and what resetStats saves. */
  const ZeroStats := Stats(0, 0, 0, 0, 0, 0)

  function Max(a: nat, b: nat): nat {
    if a < b then b else a
  }

  /** The counters are consistent: every game is counted once as a win, a
      loss or a draw, the current winning streak never exceeds the best
      one, and the best streak never exceeds the number of wins. */
  ghost predicate StatsInvariant(s: Stats) {
    && s.wins + s.losses + s.draws == s.totalGames
    && s.streak <= s.bestStreak
    && s.bestStreak <= s.wins
  }

  /** The statistics after one more game with outcome r: one more game,
      one more of exactly the matching kind; a win extends the streak and
      lifts the best streak to it, a loss breaks the streak, a draw keeps it. */
  function Tallied(s: Stats, r: GameResult): (t: Stats)
    ensures t.totalGames == s.totalGames + 1
    ensures t.wins + t.losses + t.draws == s.wins + s.losses + s.draws + 1
    ensures t.wins == s.wins + (if r == Win then 1 else 0)
    ensures t.losses == s.losses + (if r == Loss then 1 else 0)
    ensures t.draws == s.draws + (if r == Tie then 1 else 0)
    ensures t.streak == (if r == Win then s.streak + 1 else if r == Loss then 0 else s.streak)
    ensures t.bestStreak >= s.bestStreak
    ensures s.streak <= s.bestStreak ==> t.streak <= t.bestStreak
  {
    match r
    case Win =>
      var streak := s.streak + 1;
      s.(wins := s.wins + 1, streak := streak, totalGames := s.totalGames + 1,
         bestStreak := Max(s.bestStreak, streak))
    case Loss =>
      s.(losses := s.losses + 1, streak := 0, totalGames := s.totalGames + 1)
    case Tie =>
      s.(draws := s.draws + 1, totalGames := s.totalGames + 1)
  }

  /** updateStats keeps the counters consistent. */
  lemma TalliedKeepsInvariant(s: Stats, r: GameResult)
    requires StatsInvariant(s)
    ensures StatsInvariant(Tallied(s, r))
  {
  }

  /** With consistent counters, the best streak after one more game is
      the larger of the old best streak and the new streak. */
  lemma TalliedBest(s: Stats, r: GameResult)
    requires StatsInvariant(s)
    ensures Tallied(s, r).bestStreak == Max(s.bestStreak, Tallied(s, r).streak)
  {
  }

  /** The statistics after a history of outcomes, oldest first, starting
      from zero counters. */
  function Replay(h: seq<GameResult>): Stats {
    if h == [] then ZeroStats else Tallied(Replay(h[..|h| - 1]), h[|h| - 1])
  }

  /** The counters count the history: wins, losses and draws are the
      numbers of each outcome in it, and totalGames is its length. */
  lemma {:induction false} ReplayCounts(h: seq<GameResult>)
    ensures Replay(h).wins == multiset(h)[Win]
    ensures Replay(h).losses == multiset(h)[Loss]
    ensures Replay(h).draws == multiset(h)[Tie]
    ensures Replay(h).totalGames == |h|
    ensures StatsInvariant(Replay(h))
  {
    if h != [] {
      var init, last := h[..|h| - 1], h[|h| - 1];
      assert h == init + [last];
      ReplayCounts(init);
      TalliedKeepsInvariant(Replay(init), last);
    }
  }

  /** The current streak is the number of wins since the last loss (since
      the start if there was none): k is the position just after the last
      loss. */
  lemma {:induction false} ReplayStreak(h: seq<GameResult>, k: int)
    requires 0 <= k <= |h|
    requires k == 0 || h[k - 1] == Loss
    requires forall i :: k <= i < |h| ==> h[i] != Loss
    ensures Replay(h).streak == multiset(h[k..])[Win]
  {
    if h != [] {
      var init, last := h[..|h| - 1], h[|h| - 1];
      if last == Loss {
        assert k == |h| && h[k..] == [];
      } else {
        assert k < |h|;
        ReplayStreak(init, k);
        assert h[k..] == init[k..] + [last];
        assert multiset(h[k..]) == multiset(init[k..]) + multiset{last};
        assert Replay(h).streak == Replay(init).streak + (if last == Win then 1 else 0);
      }
    }
  }

  /** The best streak is the longest streak the history ever reached: the
      streak after each prefix of the history is at most bestStreak, and
      some prefix reaches it. */
  lemma {:induction false} ReplayBestStreak(h: seq<GameResult>)
    ensures forall j :: 0 <= j <= |h| ==> Replay(h[..j]).streak <= Replay(h).bestStreak
    ensures exists j :: 0 <= j <= |h| && Replay(h[..j]).streak == Replay(h).bestStreak
  {
    assert h[..|h|] == h;
    if h == [] {
      assert Replay(h[..0]).streak == Replay(h).bestStreak;
    } else {
      var init, last := h[..|h| - 1], h[|h| - 1];
      ReplayBestStreak(init);
      ReplayCounts(init);
      TalliedBest(Replay(init), last);
      var best := Replay(h).bestStreak;
      forall j | 0 <= j <= |h| ensures Replay(h[..j]).streak <= best {
        if j < |h| {
          assert h[..j] == init[..j];
        }
      }
      if best == Replay(h).streak {
        assert Replay(h[..|h|]).streak == best;
      } else {
        var j :| 0 <= j <= |init| && Replay(init[..j]).streak == Replay(init).bestStreak;
        assert h[..j] == init[..j];
      }
    }
  }

  // ---------------------------------------------------------------------
  // Winning cells

  /** cells is what the page highlights for player p on board b: the first
      pattern, in scan order, whose three cells all hold p, or the empty
      list when p has no line. */
  ghost predicate WinningLine(b: Board, p: Cell, cells: seq<Pos>)
    requires IsBoard(b)
  {
    if Wins(b, p) then exists n :: FirstFilled(b, n, p) && cells == Lines[n]
    else cells == []
  }

  /** checkWinningCells: tries the eight patterns in order and returns the
      first one all of whose cells hold player, or the empty list. */
  method CheckWinningCells(board: Board, player: Cell) returns (cells: seq<Pos>)
    requires IsBoard(board)
    ensures WinningLine(board, player, cells)
    ensures cells != [] <==> Wins(board, player)
    ensures forall q :: q in cells ==> InRange(q) && At(board, q) == player
  {
    LinesAreWinningLines(board, player);
    for n := 0 to |Lines|
      invariant forall m :: 0 <= m < n ==> !Filled(board, m, player)
    {
      var pattern := Lines[n];
      var a, b, c := pattern[0], pattern[1], pattern[2];
      if board[a.row][a.col] == player && board[b.row][b.col] == player && board[c.row][c.col] == player {
        assert Filled(board, n, player);
        assert FirstFilled(board, n, player);
        return pattern;
      }
    }
    return [];
  }

  // ---------------------------------------------------------------------
  // The page state and the two-player mode

  /** The gameMode state: "ai" or "human". */
  datatype Mode = AiMode | HumanMode

  /** The GameState the page shows; game_id is not modelled. */
  datatype GameState = GameState(board: Board, status: Status, playerTurn: Cell, gameOver: bool)

  /** The state of the page that the game logic reads and writes. */
  datatype View = View(
    gameMode: Option<Mode>,
    currentPlayer: Cell,
    gameState: Option<GameState>,
    makingMove: bool,
    winningCells: seq<Pos>,
    gameStats: Stats)

  /** The page's state before any game: no mode, X to play, no game. */
  const InitialView := View(None, X, None, false, [], ZeroStats)

  /** What the init route answers: an empty board, X to move, no status. */
  const InitReply := GameState(EmptyBoard, Blank, X, false)

  /** Every game on the page has a 3x3 board. */
  predicate WellFormed(v: View) {
    v.gameState.Some? ==> IsBoard(v.gameState.value.board)
  }

  /** currentPlayer === "X" ? "O" : "X" */
  function Other(p: Cell): (q: Cell)
    ensures q != p && q != Empty
  {
    if p == X then O else X
  }

  /** The guard of makeMove: a move is played only when there is a game,
      the target cell is empty, the game is not over and no move is in
      progress. */
  predicate Accepts(v: View, p: Pos)
    requires WellFormed(v) && InRange(p)
  {
    && v.gameState.Some?
    && At(v.gameState.value.board, p) == Empty
    && !v.gameState.value.gameOver
    && !v.makingMove
  }

  /** One call of makeMove in human mode, from page state v to v'. A refused
      move changes nothing. Otherwise currentPlayer's mark goes to p on a
      copy of the board; a line of that mark wins (it is tested before the
      draw), else a full board draws. The game state hands the turn to the
      other mark; currentPlayer changes only if the game goes on, so after a
      win it names the winner. A win highlights the first winning pattern
      and is recorded as "win", a draw as "draw". */
  ghost predicate HumanStep(v: View, p: Pos, v': View)
    requires WellFormed(v) && InRange(p)
  {
    if !Accepts(v, p) then v' == v
    else
      var cur := v.currentPlayer;
      var nb := Place(v.gameState.value.board, p, cur);
      var won := Wins(nb, cur);
      var over := won || Full(nb);
      && v'.gameMode == v.gameMode
      && v'.gameState == Some(GameState(nb, if won then PlayerWins(cur) else if over then Draw else Blank, Other(cur), over))
      && v'.currentPlayer == (if over then cur else Other(cur))
      && !v'.makingMove
      && (if won then WinningLine(nb, cur, v'.winningCells) else v'.winningCells == v.winningCells)
      && v'.gameStats == (if won then Tallied(v.gameStats, Win) else if over then Tallied(v.gameStats, Tie) else v.gameStats)
  }

  /** The states a two-player game on the page can be in. The marks are
      balanced (X moved first) and, while the game runs, currentPlayer is
      the mark with fewer moves, nobody has a line and the board is not
      full. A finished game is either won by currentPlayer, whose first
      winning pattern is highlighted and whose opponent has no line, or a
      draw on a full board without lines. The statistics are consistent. */
  ghost predicate HumanPlay(v: View) {
    && WellFormed(v)
    && !v.makingMove
    && StatsInvariant(v.gameStats)
    && (v.currentPlayer == X || v.currentPlayer == O)
    && (v.gameState.Some? ==>
          var g := v.gameState.value;
          var b := g.board;
          var cur := v.currentPlayer;
          && (Count(b, X) == Count(b, O) || Count(b, X) == Count(b, O) + 1)
          && (!g.gameOver ==>
                && g.status == Blank
                && g.playerTurn == cur
                && (cur == X <==> Count(b, X) == Count(b, O))
                && !Wins(b, X) && !Wins(b, O) && !Full(b))
          && (g.gameOver ==>
                || (g.status == PlayerWins(cur) && Wins(b, cur) && !Wins(b, Other(cur))
                    && WinningLine(b, cur, v.winningCells))
                || (g.status == Draw && Full(b) && !Wins(b, X) && !Wins(b, O))))
  }

  /** A game freshly fetched from the init route, on a page whose counters
      are consistent, is a two-player game state. */
  lemma InitReplyPlay(v: View)
    requires !v.makingMove && StatsInvariant(v.gameStats)
    ensures HumanPlay(v.(gameState := Some(InitReply), currentPlayer := X))
  {
    EmptyBoardFacts();
  }

  /** The counts after a move by cur onto an empty cell of a balanced board
      in which cur is the mark with fewer moves. */
  lemma HumanMoveCounts(b: Board, p: Pos, cur: Cell)
    requires IsBoard(b) && InRange(p) && At(b, p) == Empty
    requires cur == X || cur == O
    requires Count(b, X) == Count(b, O) || Count(b, X) == Count(b, O) + 1
    requires cur == X <==> Count(b, X) == Count(b, O)
    ensures var nb := Place(b, p, cur);
      && (Count(nb, X) == Count(nb, O) || Count(nb, X) == Count(nb, O) + 1)
      && (Other(cur) == X <==> Count(nb, X) == Count(nb, O))
  {
    PlaceCount(b, p, cur, X);
    PlaceCount(b, p, cur, O);
  }

  /** makeMove in human mode keeps a two-player game a two-player game. */
  lemma HumanStepKeepsPlay(v: View, p: Pos, v': View)
    requires HumanPlay(v) && InRange(p) && HumanStep(v, p, v')
    ensures HumanPlay(v')
  {
    if Accepts(v, p) {
      var cur := v.currentPlayer;
      var b := v.gameState.value.board;
      var nb := Place(b, p, cur);
      HumanMoveCounts(b, p, cur);
      PlaceKeepsOtherWins(b, p, cur, Other(cur));
      TalliedKeepsInvariant(v.gameStats, Win);
      TalliedKeepsInvariant(v.gameStats, Tie);
      assert !Wins(nb, Other(cur));
    }
  }

  /** The page's React state, as far as the game logic touches it. */
  class TicTacToeGame {
    var gameMode: Option<Mode>
    var currentPlayer: Cell
    var gameState: Option<GameState>
    var makingMove: bool
    var winningCells: seq<Pos>
    var gameStats: Stats

    ghost function Snapshot(): View
      reads this
    {
      View(gameMode, currentPlayer, gameState, makingMove, winningCells, gameStats)
    }

    ghost predicate Valid()
      reads this
    {
      WellFormed(Snapshot())
    }

    /** The initial values of the useState hooks. */
    constructor()
      ensures Valid() && Snapshot() == InitialView
      ensures StatsInvariant(gameStats)
    {
      gameMode := None;
      currentPlayer := X;
      gameState := None;
      makingMove := false;
      winningCells := [];
      gameStats := ZeroStats;
    }

    /** updateStats: counts one more game with outcome result on a copy of
        the counters, field by field, and saves the copy. */
    method UpdateStats(result: GameResult)
      modifies this
      ensures gameStats == Tallied(old(gameStats), result)
      ensures Snapshot() == old(Snapshot()).(gameStats := gameStats)
    {
      var newStats := gameStats;
      newStats := newStats.(totalGames := newStats.totalGames + 1);
      if result == Win {
        newStats := newStats.(wins := newStats.wins + 1);
        newStats := newStats.(streak := newStats.streak + 1);
        if newStats.streak > newStats.bestStreak {
          newStats := newStats.(bestStreak := newStats.streak);
        }
      } else if result == Loss {
        newStats := newStats.(losses := newStats.losses + 1);
        newStats := newStats.(streak := 0);
      } else {
        newStats := newStats.(draws := newStats.draws + 1);
      }
      gameStats := newStats;
    }

    /** resetStats: saves six zero counters. */
    method ResetStats()
      modifies this
      ensures gameStats == ZeroStats && StatsInvariant(gameStats)
      ensures Snapshot() == old(Snapshot()).(gameStats := ZeroStats)
    {
      gameStats := ZeroStats;
    }

    /** initializeGame: clears the highlighted cells, sets the mode and X as
        current player, and asks the init route for a new game; fetched is
        its answer, None when the request fails, in which case the page
        only shows an error and keeps its game state. */
    method InitializeGame(mode: Mode, fetched: Option<GameState>)
      requires Valid()
      requires fetched.Some? ==> IsBoard(fetched.value.board)
      modifies this
      ensures Valid()
      ensures Snapshot() == old(Snapshot()).(
        gameMode := Some(mode), currentPlayer := X, winningCells := [],
        gameState := if fetched.Some? then fetched else old(gameState))
    {
      winningCells := [];
      gameMode := Some(mode);
      currentPlayer := X;
      if fetched.Some? {
        gameState := fetched;
      }
    }

    /** makeMove in two-player mode: the guard, then the move. */
    method MakeMove(row: int, col: int)
      requires Valid() && InRange(Pos(row, col)) && gameMode == Some(HumanMode)
      modifies this
      ensures Valid() && HumanStep(old(Snapshot()), Pos(row, col), Snapshot())
      ensures HumanPlay(old(Snapshot())) ==> HumanPlay(Snapshot())
    {
      ghost var v := Snapshot();
      if gameState.None? || gameState.value.board[row][col] != Empty || gameState.value.gameOver || makingMove {
        return;
      }
      PlayHuman(row, col);
      if HumanPlay(v) {
        HumanStepKeepsPlay(v, Pos(row, col), Snapshot());
      }
    }

    /** The human branch of makeMove, once the guard has let the move through. */
    method PlayHuman(row: int, col: int)
      requires Valid() && InRange(Pos(row, col)) && Accepts(Snapshot(), Pos(row, col))
      modifies this
      ensures Valid() && HumanStep(old(Snapshot()), Pos(row, col), Snapshot())
    {
      makingMove := true;

      var state := gameState.value;
      var newBoard := state.board;
      newBoard := Place(newBoard, Pos(row, col), currentPlayer);

      var status := Blank;
      var gameOver := false;

      var cells := CheckWinningCells(newBoard, currentPlayer);
      if |cells| > 0 {
        status := PlayerWins(currentPlayer);
        gameOver := true;
        winningCells := CheckWinningCells(newBoard, currentPlayer);
        UpdateStats(Win);
      } else if IsDraw(newBoard) {
        status := Draw;
        gameOver := true;
        UpdateStats(Tie);
      }

      gameState := Some(GameState(newBoard, status, Other(currentPlayer), gameOver));
      if !gameOver {
        currentPlayer := Other(currentPlayer);
      }
      makingMove := false;
    }
  }
}
