/** The Flask backend's game object (scripts/python-backend.py): one game
    whose board, turn, status and game-over flag are updated in place by
    the human's move and the AI's reply. The board, a list of three lists,
    is a sequence field that the methods reassign one cell at a time.

    The methods are specified by relations on snapshots of the object
    (Game values): MoveStep for make_move and AiStep for ai_move. What the
    game promises over many moves is proved about those relations. */
module Backend {
  import opened Rules

  /** The fields of a TicTacToeGame at one moment. */
  datatype Game = Game(board: Board, playerTurn: Cell, status: Status, gameOver: bool)

  /** A brand-new game. */
  const NewGame := Game(EmptyBoard, X, Blank, false)

  /** The game after O is written at q: a line of O ends it for the AI, a
      full board ends it in a draw, otherwise X is to move again. */
  ghost function AiReply(g: Game, q: Pos): (r: Game)
    requires IsBoard(g.board) && InRange(q)
    ensures IsBoard(r.board) && At(r.board, q) == O
  {
    var b := Place(g.board, q, O);
    if Wins(b, O) then Game(b, g.playerTurn, AiWins, true)
    else if Full(b) then Game(b, g.playerTurn, Draw, true)
    else Game(b, X, g.status, g.gameOver)
  }

  /** What ai_move may do: nothing on a full board, otherwise AiReply at
      some empty cell (the random choice). */
  ghost predicate AiStep(g: Game, g': Game)
    requires IsBoard(g.board)
  {
    if Full(g.board) then g' == g
    else exists q :: InRange(q) && At(g.board, q) == Empty && g' == AiReply(g, q)
  }

  /** The guard of make_move. */
  predicate Accepts(g: Game, p: Pos)
    requires IsBoard(g.board) && InRange(p)
  {
    At(g.board, p) == Empty && !g.gameOver && g.playerTurn == X
  }

  /** What make_move may do: nothing when the guard fails; otherwise X is
      written at p, a line of X wins, a full board draws, and otherwise the
      turn passes to O and the AI moves. */
  ghost predicate MoveStep(g: Game, p: Pos, g': Game)
    requires IsBoard(g.board) && InRange(p)
  {
    if !Accepts(g, p) then g' == g
    else
      var afterX := Place(g.board, p, X);
      if Wins(afterX, X) then g' == Game(afterX, g.playerTurn, YouWin, true)
      else if Full(afterX) then g' == Game(afterX, g.playerTurn, Draw, true)
      else AiStep(Game(afterX, O, g.status, g.gameOver), g')
  }

  /** What holds of every game reachable from a new game by make_move:
      X has placed as many marks as O or one more; a running game has X
      to move, as many X as O, no line and a free cell; a finished game
      carries the status of the line or the full board that ended it;
      never do both marks have a line. */
  ghost predicate Reachable(g: Game) {
    && IsBoard(g.board)
    && Count(g.board, O) <= Count(g.board, X) <= Count(g.board, O) + 1
    && !(Wins(g.board, X) && Wins(g.board, O))
    && (g.gameOver <==> g.status != Blank)
    && (!g.gameOver ==>
          && g.playerTurn == X && Count(g.board, X) == Count(g.board, O)
          && !Wins(g.board, X) && !Wins(g.board, O) && !Full(g.board))
    && (g.status == YouWin ==> Wins(g.board, X))
    && (g.status == AiWins ==> Wins(g.board, O))
    && (g.status == Draw ==> Full(g.board) && !Wins(g.board, X) && !Wins(g.board, O))
    && !g.status.PlayerWins?
  }

  lemma NewGameReachable()
    ensures Reachable(NewGame)
  {
    EmptyBoardFacts();
  }

  /** X's accepted move in a reachable game: one more X, no new line of O. */
  lemma AcceptedMoveCounts(g: Game, p: Pos)
    requires Reachable(g) && InRange(p) && Accepts(g, p)
    ensures var afterX := Place(g.board, p, X);
      && Count(afterX, X) == Count(g.board, O) + 1
      && Count(afterX, O) == Count(g.board, O)
      && !Wins(afterX, O)
  {
    PlaceCount(g.board, p, X, X);
    PlaceCount(g.board, p, X, O);
    PlaceKeepsOtherWins(g.board, p, X, O);
  }

  /** The AI's answer to a running game with one X more than O, and no
      line, leaves a reachable game. */
  lemma AiReplyReachable(h: Game, q: Pos)
    requires IsBoard(h.board) && InRange(q) && At(h.board, q) == Empty
    requires Count(h.board, X) == Count(h.board, O) + 1
    requires !Wins(h.board, X) && !Wins(h.board, O)
    requires !h.gameOver && h.status == Blank
    ensures Reachable(AiReply(h, q))
  {
    PlaceCount(h.board, q, O, X);
    PlaceCount(h.board, q, O, O);
    PlaceKeepsOtherWins(h.board, q, O, X);
  }

  /** make_move keeps a game reachable. */
  lemma MoveStepKeepsReachable(g: Game, p: Pos, g': Game)
    requires Reachable(g) && InRange(p) && MoveStep(g, p, g')
    ensures Reachable(g')
  {
    if Accepts(g, p) {
      var afterX := Place(g.board, p, X);
      AcceptedMoveCounts(g, p);
      if !Wins(afterX, X) && !Full(afterX) {
        var h := Game(afterX, O, g.status, g.gameOver);
        var q :| InRange(q) && At(afterX, q) == Empty && g' == AiReply(h, q);
        AiReplyReachable(h, q);
      }
    }
  }

  /** The AI's answer keeps every mark, adds one O and no X. */
  lemma AiReplyMarks(h: Game, q: Pos)
    requires IsBoard(h.board) && InRange(q) && At(h.board, q) == Empty
    ensures forall r :: InRange(r) && At(h.board, r) != Empty ==> At(AiReply(h, q).board, r) == At(h.board, r)
    ensures Count(AiReply(h, q).board, X) == Count(h.board, X)
    ensures Count(AiReply(h, q).board, O) == Count(h.board, O) + 1
  {
    PlaceKeepsMarks(h.board, q, O);
    PlaceCount(h.board, q, O, X);
    PlaceCount(h.board, q, O, O);
  }

  /** make_move never overwrites a mark. */
  lemma MoveStepKeepsMarks(g: Game, p: Pos, g': Game)
    requires IsBoard(g.board) && InRange(p) && MoveStep(g, p, g')
    ensures IsBoard(g'.board)
    ensures forall q :: InRange(q) && At(g.board, q) != Empty ==> At(g'.board, q) == At(g.board, q)
  {
    if Accepts(g, p) {
      var afterX := Place(g.board, p, X);
      PlaceKeepsMarks(g.board, p, X);
      if !Wins(afterX, X) && !Full(afterX) {
        var h := Game(afterX, O, g.status, g.gameOver);
        var q :| InRange(q) && At(afterX, q) == Empty && g' == AiReply(h, q);
        AiReplyMarks(h, q);
      }
    }
  }

  /** An accepted make_move adds one X, plus one O exactly when the game
      goes on after X's move; a refused one changes nothing. */
  lemma MoveStepCounts(g: Game, p: Pos, g': Game)
    requires IsBoard(g.board) && InRange(p) && MoveStep(g, p, g')
    ensures IsBoard(g'.board)
    ensures Accepts(g, p) ==>
      var afterX := Place(g.board, p, X);
      && Count(g'.board, X) == Count(g.board, X) + 1
      && Count(g'.board, O) == Count(g.board, O) + (if Wins(afterX, X) || Full(afterX) then 0 else 1)
    ensures !Accepts(g, p) ==> g' == g
  {
    if Accepts(g, p) {
      var afterX := Place(g.board, p, X);
      PlaceCount(g.board, p, X, X);
      PlaceCount(g.board, p, X, O);
      if !Wins(afterX, X) && !Full(afterX) {
        var h := Game(afterX, O, g.status, g.gameOver);
        var q :| InRange(q) && At(afterX, q) == Empty && g' == AiReply(h, q);
        AiReplyMarks(h, q);
      }
    }
  }

  class TicTacToeGame {
    var board: Board
    var playerTurn: Cell
    var status: Status
    var gameOver: bool

    ghost predicate Valid()
      reads this
    {
      IsBoard(board)
    }

    ghost function State(): Game
      reads this
    {
      Game(board, playerTurn, status, gameOver)
    }

    /** __init__: an empty 3x3 board, X to move, blank status, not over. */
    constructor ()
      ensures Valid() && State() == NewGame
      ensures Reachable(State())
    {
      board := EmptyBoard;
      playerTurn := X;
      status := Blank;
      gameOver := false;
      new;
      NewGameReachable();
    }

    /** check_win: rows and columns in one loop, then both diagonals; true
        exactly when player has three in a row. */
    method CheckWin(player: Cell) returns (won: bool)
      requires Valid()
      ensures won <==> Wins(board, player)
    {
      for i := 0 to 3
        invariant forall k :: 0 <= k < i ==> !RowFilled(board, k, player) && !ColFilled(board, k, player)
      {
        if (forall j :: 0 <= j < 3 ==> board[i][j] == player) || (forall j :: 0 <= j < 3 ==> board[j][i] == player) {
          assert RowFilled(board, i, player) || ColFilled(board, i, player);
          return true;
        }
      }
      if (forall i :: 0 <= i < 3 ==> board[i][i] == player) ||
         (forall i :: 0 <= i < 3 ==> board[i][2 - i] == player)
      {
        assert DiagFilled(board, player) || AntiDiagFilled(board, player) by {
          if forall i :: 0 <= i < 3 ==> board[i][2 - i] == player {
            forall i, j | 0 <= i < 3 && 0 <= j < 3 && i + j == 2
              ensures board[i][j] == player
            {
              assert j == 2 - i;
            }
          }
        }
        return true;
      }
      assert !AntiDiagFilled(board, player) by {
        var i :| 0 <= i < 3 && board[i][2 - i] != player;
        assert 0 <= 2 - i < 3 && i + (2 - i) == 2;
      }
      return false;
    }

    /** is_draw: true exactly when no cell is empty. */
    function IsDraw(): (r: bool)
      reads this
      requires Valid()
      ensures r <==> Full(board)
    {
      Rules.IsDraw(board)
    }

    /** get_empty_cells: coordinates of empty cells, none exactly when the
        board is full; GetEmptyCellsExact adds that every empty cell is
        listed, once, in row-major order. */
    function GetEmptyCells(): (empty: seq<Pos>)
      reads this
      requires Valid()
      ensures forall q :: q in empty ==> InRange(q) && At(board, q) == Empty
      ensures empty == [] <==> Full(board)
    {
      EmptyCellsExact(board);
      EmptyCells(board)
    }

    lemma GetEmptyCellsExact()
      requires Valid()
      ensures forall q :: q in GetEmptyCells() <==> InRange(q) && At(board, q) == Empty
      ensures Increasing(GetEmptyCells())
    {
      EmptyCellsExact(board);
    }

    /** ai_move: when some cell is empty, O goes to one of the empty cells,
        chosen at random, and the game is judged (AiReply); on a full board
        nothing changes. */
    method AiMove()
      requires Valid()
      modifies this
      ensures Valid() && AiStep(old(State()), State())
    {
      var emptyCells := GetEmptyCells();
      if |emptyCells| > 0 {
        // random.choice(empty_cells)
        var k :| 0 <= k < |emptyCells|;
        var cell := emptyCells[k];
        assert cell in emptyCells;
        AnswerAt(cell);
      }
    }

    /** The rest of ai_move once the cell is chosen: O is written there,
        then a line of O ends the game for the AI, a full board ends it in
        a draw, and otherwise X is to move. */
    method AnswerAt(cell: Pos)
      requires Valid() && InRange(cell) && At(board, cell) == Empty
      modifies this
      ensures Valid() && State() == AiReply(old(State()), cell)
    {
      board := Place(board, cell, O);
      var oWins := CheckWin(O);
      if oWins {
        status := AiWins;
        gameOver := true;
      } else if IsDraw() {
        status := Draw;
        gameOver := true;
      } else {
        playerTurn := X;
      }
    }

    /** make_move: the guard, X's move and its judgement, then AiMove. */
    method MakeMove(row: int, col: int)
      requires Valid() && InRange(Pos(row, col))
      modifies this
      ensures Valid() && MoveStep(old(State()), Pos(row, col), State())
      ensures Reachable(old(State())) ==> Reachable(State())
    {
      ghost var g := State();
      if board[row][col] == Empty && !gameOver && playerTurn == X {
        board := Place(board, Pos(row, col), X);

        var xWins := CheckWin(X);
        if xWins {
          status := YouWin;
          gameOver := true;
        } else if IsDraw() {
          status := Draw;
          gameOver := true;
        } else {
          playerTurn := O;
          AiMove();
        }
      }
      if Reachable(g) {
        MoveStepKeepsReachable(g, Pos(row, col), State());
      }
    }
  }
}
