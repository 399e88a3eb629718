/** The stateless move handler of the Next.js API (app/api/game/move/route.ts):
    given a board and the human's cell, it places X on a copy of the board,
    classifies the result and, if the game goes on, places one O at a random
    empty cell and classifies again. */
module Route {
  import opened Rules

  /** The JSON body of a successful reply; game_id and fallback_mode are
      constants of the transport and are not modelled. */
  datatype Reply = Reply(board: Board, playerTurn: Cell, status: Status, gameOver: bool)

  /** The reply: the 400 "Invalid move" error, or a new game state. */
  datatype Response = InvalidMove | Ok(reply: Reply)

  /** checkWin: the three rows and three columns are tested in one loop,
      then the two diagonals; true exactly when player has three in a row. */
  method CheckWin(board: Board, player: Cell) returns (won: bool)
    requires IsBoard(board)
    ensures won <==> Wins(board, player)
  {
    for i := 0 to 3
      invariant forall k :: 0 <= k < i ==> !RowFilled(board, k, player) && !ColFilled(board, k, player)
    {
      if (board[i][0] == player && board[i][1] == player && board[i][2] == player) ||
         (board[0][i] == player && board[1][i] == player && board[2][i] == player)
      {
        assert RowFilled(board, i, player) || ColFilled(board, i, player);
        return true;
      }
    }
    if (board[0][0] == player && board[1][1] == player && board[2][2] == player) ||
       (board[0][2] == player && board[1][1] == player && board[2][0] == player)
    {
      return true;
    }
    return false;
  }

  /** makeAIMove: collects the empty cells in row-major order and returns
      one of them, chosen at random; None exactly when the board is full. */
  method MakeAIMove(board: Board) returns (move: Option<Pos>)
    requires IsBoard(board)
    ensures move.None? <==> Full(board)
    ensures move.Some? ==> move.value in EmptyCells(board)
    ensures move.Some? ==> InRange(move.value) && At(board, move.value) == Empty
  {
    var emptyCells: seq<Pos> := [];
    for i := 0 to 3
      invariant emptyCells + EmptyFrom(board, i, 0) == EmptyCells(board)
    {
      ghost var before := emptyCells;
      for j := 0 to 3
        invariant emptyCells + EmptyFrom(board, i, j) == before + EmptyFrom(board, i, 0)
      {
        if board[i][j] == Empty {
          assert EmptyFrom(board, i, j) == [Pos(i, j)] + EmptyFrom(board, i, j + 1);
          AppendAssoc(emptyCells, [Pos(i, j)], EmptyFrom(board, i, j + 1));
          emptyCells := emptyCells + [Pos(i, j)];
        } else {
          assert EmptyFrom(board, i, j) == EmptyFrom(board, i, j + 1);
        }
      }
      assert EmptyFrom(board, i, 3) == EmptyFrom(board, i + 1, 0);
    }
    assert emptyCells + [] == emptyCells;
    EmptyCellsExact(board);
    if |emptyCells| > 0 {
      // Math.floor(Math.random() * emptyCells.length): some index of the list
      var k :| 0 <= k < |emptyCells|;
      return Some(emptyCells[k]);
    }
    return None;
  }

  /** The board logic of POST. A non-empty target cell is refused. Otherwise
      X goes to (row, col) on a copy of the board; a line of X wins, else a
      full board draws, else one O is placed at an empty cell and a line of
      O wins for the AI, else a full board draws. The reply always hands the
      turn back to X. */
  method Post(board: Board, row: int, col: int) returns (response: Response)
    requires IsBoard(board) && InRange(Pos(row, col))
    ensures response.InvalidMove? <==> board[row][col] != Empty
    ensures response.Ok? ==>
      var afterX := Place(board, Pos(row, col), X);
      var reply := response.reply;
      && IsBoard(reply.board)
      && reply.playerTurn == X
      && (Wins(afterX, X) ==> reply == Reply(afterX, X, YouWin, true))
      && (!Wins(afterX, X) && Full(afterX) ==> reply == Reply(afterX, X, Draw, true))
      && (!Wins(afterX, X) && !Full(afterX) ==>
            && (exists q :: InRange(q) && At(afterX, q) == Empty && reply.board == Place(afterX, q, O))
            && (Wins(reply.board, O) ==> reply.status == AiWins && reply.gameOver)
            && (!Wins(reply.board, O) && Full(reply.board) ==> reply.status == Draw && reply.gameOver)
            && (!Wins(reply.board, O) && !Full(reply.board) ==> reply.status == Blank && !reply.gameOver))
    ensures response.Ok? ==>
      var afterX := Place(board, Pos(row, col), X);
      var reply := response.reply;
      IsBoard(reply.board) &&
      (reply.gameOver <==> Wins(afterX, X) || Full(afterX) || Wins(reply.board, O) || Full(reply.board))
    ensures response.Ok? ==>
      var afterX := Place(board, Pos(row, col), X);
      var reply := response.reply;
      && IsBoard(reply.board)
      && Count(reply.board, X) == Count(board, X) + 1
      && Count(reply.board, O) == Count(board, O) + (if Wins(afterX, X) || Full(afterX) then 0 else 1)
  {
    if board[row][col] != Empty {
      return InvalidMove;
    }

    var newBoard := board;
    newBoard := Place(newBoard, Pos(row, col), X);
    ghost var afterX := newBoard;
    PlaceCount(board, Pos(row, col), X, X);
    PlaceCount(board, Pos(row, col), X, O);

    var status := Blank;
    var gameOver := false;

    var xWins := CheckWin(newBoard, X);
    if xWins {
      status := YouWin;
      gameOver := true;
    } else if IsDraw(newBoard) {
      status := Draw;
      gameOver := true;
    } else {
      var aiMove := MakeAIMove(newBoard);
      if aiMove.Some? {
        var cell := aiMove.value;
        newBoard := Place(newBoard, cell, O);
        PlaceCount(afterX, cell, O, X);
        PlaceCount(afterX, cell, O, O);
        var oWins := CheckWin(newBoard, O);
        if oWins {
          status := AiWins;
          gameOver := true;
        } else if IsDraw(newBoard) {
          status := Draw;
          gameOver := true;
        }
      }
    }

    return Ok(Reply(newBoard, X, status, gameOver));
  }
}
