# Tic-Tac-Toe rules engines, modelled in Dafny

The game implements its 3x3 rules three times:

- The Next.js move route (`app/api/game/move/route.ts`) is stateless. It receives a board and the human's cell. It places X on a copy, tests for a line of X and then for a full board. If the game goes on, it places one O at a random empty cell and classifies the board again.
- The Flask backend (`scripts/python-backend.py`) keeps one `TicTacToeGame` object. Its board, turn, status and game-over flag are updated in place by `make_move` and `ai_move`.
- The React page (`app/page.tsx`) keeps the player statistics. It finds the winning cells to highlight and, in two-player ("human") mode, plays the move itself.

The model has four modules:

- `Rules` (`rules.dfy`) is the shared vocabulary:
  - cells, positions, boards and status texts;
  - the reference meaning of "three in a row" (`Wins`) and of a full board (`Full`);
  - the page's table of eight winning patterns (`Lines`);
  - the row-major list of empty cells (`EmptyCells`);
  - mark counts (`Count`) and the single-cell write (`Place`).
- `Route` (`route.dfy`) models the move route as methods with the route's loops.
- `Backend` (`backend.dfy`) models the Flask game object as a class whose methods reassign its fields. Each method is specified by a relation on snapshots of the game (`MoveStep`, `AiStep`, `AiReply`). Lemmas prove that these relations preserve the set of reachable games and never overwrite a mark.
- `Client` (`client.dfy`) models the page:
  - the statistics record and its update, proved against a replay of the whole game history;
  - the winning-pattern scan;
  - the page's React state as a class, with the two-player branch of `makeMove` specified by the relation `HumanStep`. A lemma proves that `HumanStep` preserves the set of reachable two-player states (`HumanPlay`).

The random choice of the AI's cell (`Math.random`, `random.choice`) is modelled as an arbitrary choice among the empty cells. Every property proved holds for every such choice.

In two-player mode the page records every finished game as a "win" (either player's line) or a "draw", never a "loss". The streak therefore counts consecutive games that ended in a line, whichever player drew it. The model keeps this behaviour.

## Model

| member | source | states |
|---|---|---|
| Rules.IsDraw | app/api/game/move/route.ts:42-44 | isDraw is true exactly when every cell holds a mark. The page's isDraw at app/page.tsx:444-446 is the same expression and is modelled by the same member. |
| Rules.Place | scripts/python-backend.py:46 | The write board[row][col] = v gives a 3x3 board whose cell (row, col) holds v. |
| Rules.PlaceKeepsMarks | scripts/python-backend.py:57-63 | Writing into an empty cell leaves every existing mark where it was. |
| Rules.PlaceCount | scripts/python-backend.py:46 | Writing v into an empty cell adds one v and removes one empty cell; the counts of other marks are unchanged. |
| Rules.PlaceKeepsOtherWins | scripts/python-backend.py:63-73 | Writing v cannot create a line for any other mark. |
| Rules.FilledIsLine | app/page.tsx:243-252 | Patterns 0-2 are the rows, 3-5 the columns, 6 the main diagonal and 7 the anti-diagonal. |
| Rules.LinesAreWinningLines | app/page.tsx:243-252 | Some one of the eight patterns is all p exactly when p has a row, a column or a diagonal. |
| Rules.EmptyCellsExact | scripts/python-backend.py:39-40 | The list holds exactly the empty cells, in strictly increasing row-major order, and is empty exactly when the board is full. |
| Route.CheckWin | app/api/game/move/route.ts:20-40 | checkWin returns true exactly when player fills a row, a column or a diagonal. |
| Route.MakeAIMove | app/api/game/move/route.ts:4-18 | No move exactly when the board is full; otherwise a member of the row-major empty-cell list, which is an empty cell. |
| Route.Post | app/api/game/move/route.ts:46-91 | A non-empty target gives "Invalid move". Otherwise X is placed. A line of X is "You Win", else a full board is "Draw". Else one O goes to an empty cell: a line of O is "AI Wins", else a full board is "Draw", else the game runs. X is always to move next. game_over holds exactly when one of the four endings happened. The move adds one X, plus one O only when X neither won nor filled the board. |
| Backend.TicTacToeGame.constructor | scripts/python-backend.py:14-18 | A new game has an empty 3x3 board, X to move, an empty status and is not over; it is reachable. |
| Backend.TicTacToeGame.CheckWin | scripts/python-backend.py:21-34 | check_win is true exactly when player has three in a row. |
| Backend.TicTacToeGame.IsDraw | scripts/python-backend.py:36-37 | is_draw is true exactly when every cell holds a mark. |
| Backend.TicTacToeGame.GetEmptyCells | scripts/python-backend.py:39-40 | Every listed cell is an empty cell of the board; the list is empty exactly when the board is full. |
| Backend.TicTacToeGame.GetEmptyCellsExact | scripts/python-backend.py:39-40 | The list holds every empty cell and no other, in row-major order. |
| Backend.AiReply | scripts/python-backend.py:45-55 | After O is written to the chosen cell, the board is 3x3 and that cell holds O. |
| Backend.TicTacToeGame.AiMove | scripts/python-backend.py:42-55 | On a full board nothing changes. Otherwise O goes to some empty cell. A line of O gives "AI Wins" and game over, else a full board gives "Draw" and game over, else X is to move. |
| Backend.TicTacToeGame.AnswerAt | scripts/python-backend.py:45-55 | O is written to the given empty cell and the game is judged as ai_move judges it. |
| Backend.TicTacToeGame.MakeMove | scripts/python-backend.py:57-73 | A move onto a taken cell, after game over or out of turn changes nothing. Otherwise X is written. A line of X gives "You Win" and game over without an AI move, else a full board gives "Draw", else it is O's turn and ai_move answers. A reachable game stays reachable. |
| Backend.NewGameReachable | scripts/python-backend.py:14-18 | A new game is a reachable game. |
| Backend.AcceptedMoveCounts | scripts/python-backend.py:57-63 | An accepted move of X in a reachable game leaves one more X than O and no line of O. |
| Backend.AiReplyReachable | scripts/python-backend.py:42-55 | The AI's answer to a running game with one more X than O and no line yields a reachable game. |
| Backend.MoveStepKeepsReachable | scripts/python-backend.py:57-73 | make_move keeps a game reachable. In a reachable game #X - #O is 0 or 1 and the two marks never both have a line. A running game has X to move, no line and a free cell. A status names the ending that holds. |
| Backend.AiReplyMarks | scripts/python-backend.py:43-46 | The AI's answer keeps every mark, adds exactly one O and no X. |
| Backend.MoveStepKeepsMarks | scripts/python-backend.py:57-73 | make_move never overwrites a non-empty cell. |
| Backend.MoveStepCounts | scripts/python-backend.py:57-73 | An accepted make_move adds one X, plus one O exactly when X neither won nor filled the board; a refused one changes nothing. |
| Client.Tallied | app/page.tsx:153-168 | One more game in total and one more of exactly the reported kind. A win adds 1 to the streak, a loss resets it to 0 and a draw keeps it. The best streak never decreases and stays at least the streak. |
| Client.TalliedKeepsInvariant | app/page.tsx:153-168 | updateStats keeps wins + losses + draws == totalGames and streak <= bestStreak <= wins. |
| Client.TalliedBest | app/page.tsx:157-161 | With consistent counters, the new best streak is the larger of the old best streak and the new streak. |
| Client.ReplayCounts | app/page.tsx:153-170 | After any history of games from zero counters, wins, losses and draws are the numbers of each outcome in it, totalGames is its length, and the counters are consistent. |
| Client.ReplayStreak | app/page.tsx:157-165 | The streak is the number of wins since the last loss. |
| Client.ReplayBestStreak | app/page.tsx:157-161 | bestStreak is the largest streak reached after any prefix of the history. |
| Client.CheckWinningCells | app/page.tsx:242-265 | The result is the first of the eight patterns, in the listed order, whose cells all hold player, or the empty list when player has no line. Every returned cell holds player. |
| Client.InitReplyPlay | app/api/game/init/route.ts:4-15 | The init route's game (an empty board, X to move, no status, not over), with X as current player, is a valid two-player state. |
| Client.HumanMoveCounts | app/page.tsx:279-280 | A move by the mark with fewer moves keeps the counts balanced and hands "fewer moves" to the other mark. |
| Client.HumanStepKeepsPlay | app/page.tsx:268-338 | A two-player move keeps the page in a valid two-player state. Marks stay balanced and a running game has no line and a free cell. A finished game was either won by currentPlayer, with its first winning pattern highlighted, or drawn on a full board. The statistics stay consistent. |
| Client.TicTacToeGame.constructor | app/page.tsx:79-101 | The page starts with no mode, X as current player, no game, no move in progress, nothing highlighted and zero counters. |
| Client.TicTacToeGame.UpdateStats | app/page.tsx:153-171 | updateStats replaces the counters by their tally for one more game with the given outcome and changes nothing else. |
| Client.TicTacToeGame.ResetStats | app/page.tsx:173-183 | resetStats sets all six counters to zero and changes nothing else. |
| Client.TicTacToeGame.InitializeGame | app/page.tsx:212-240 | initializeGame clears the highlight, sets the mode and X as current player, and takes the fetched game if the request succeeded; on failure the old game state stays. |
| Client.TicTacToeGame.MakeMove | app/page.tsx:267-276 | A move is ignored when there is no game, the cell is taken, the game is over or a move is in progress; otherwise the two-player step below happens. A valid two-player state stays valid. |
| Client.TicTacToeGame.PlayHuman | app/page.tsx:277-338 | currentPlayer's mark goes to the cell on a copy of the board. A line is tested before a draw: a line gives "Player p Wins!", the first winning pattern highlighted and a "win" counted; a full board gives "Draw!" and a "draw" counted. The game state passes the turn to the other mark. currentPlayer switches only if the game is not over, and makingMove ends false. |

## Left out

- HTTP, JSON and Flask plumbing: request parsing, status codes, CORS, `to_dict`, the Flask routes, `game_id` and `fallback_mode`. The missing-board check of the move route (app/api/game/move/route.ts:50) is replaced by the precondition that a 3x3 board is given.
- Out-of-range coordinates and boards that are not 3x3 are excluded by preconditions. The sources do not check them: Python would wrap negative indices and JavaScript would read `undefined`.
- The probability distribution of `Math.random` and `random.choice`: the choice is an arbitrary element of the empty-cell list, and uniformity is not stated.
- Status strings, including their emoji, are the constructors of `Status`. The page's "row-col" strings are `Pos` values.
- Backend.TicTacToeGame: the board is a field of type `seq<seq<Cell>>` reassigned with one new cell per write, not a mutable list of lists. Aliasing of the inner lists is therefore not modelled; the Flask code never shares them.
- Backend.TicTacToeGame.GetEmptyCells: its own contract states only that every listed cell is empty and that the list is empty exactly on a full board. Completeness and row-major order are stated by the lemma GetEmptyCellsExact.
- The AI branch of the page's `makeMove` (app/page.tsx:339-430): it posts to the move route, which is modelled as `Route.Post`, and dispatches on status substrings. `MakeMove` therefore requires two-player mode.
- React plumbing: asynchronous state updates, re-rendering, `setTimeout`, sounds, animations, popups, the error message and the loading flags. Setters are modelled as direct field assignments. Within one call every read sees the state from before the call, and each field is set at most once apart from `makingMove`, so the end state is the same.
- `localStorage`: `saveStats` is modelled as the assignment of the new counters. Loading saved statistics is not modelled.
- The `fetch` in `initializeGame` is a parameter, where `None` stands for a failed request.
- JavaScript numbers are modelled as unbounded naturals; counters never exceed 2^53.
- The difficulty setting is never read by the move route and is not modelled.
