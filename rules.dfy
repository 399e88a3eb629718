/** The vocabulary shared by the three Tic-Tac-Toe rules engines of the game
    (the Next.js move route, the Flask backend and the React page): cells,
    boards, the eight winning lines, the row-major list of empty cells and
    mark counts, together with the facts the engines rely on. */
module Rules {

  /** A cell holds the empty string "" or one of the marks "X" and "O". */
  datatype Cell = Empty | X | O

  /** A (row, column) coordinate; the page writes it as the string "row-col". */
  datatype Pos = Pos(row: int, col: int)

  datatype Option<T> = None | Some(value: T)

  /** The status text of a game. Blank is "", YouWin "🎉 You Win!",
      AiWins "😔 AI Wins!", Draw "🤝 Draw!" and PlayerWins(p) the page's
      "Player p Wins!". */
  datatype Status = Blank | YouWin | AiWins | Draw | PlayerWins(player: Cell)

  /** A board is an array of rows of cells, indexed board[row][col]. */
  type Board = seq<seq<Cell>>

  /** The 3x3 shape every engine indexes without checking. */
  predicate IsBoard(b: Board) {
    |b| == 3 && forall i :: 0 <= i < 3 ==> |b[i]| == 3
  }

  predicate InRange(p: Pos) {
    0 <= p.row < 3 && 0 <= p.col < 3
  }

  function At(b: Board, p: Pos): Cell
    requires IsBoard(b) && InRange(p)
  {
    b[p.row][p.col]
  }

  /** The board of a new game: nine empty cells. */
  const EmptyBoard: Board := [[Empty, Empty, Empty], [Empty, Empty, Empty], [Empty, Empty, Empty]]

  /** The board after the write board[p.row][p.col] = v: that cell holds v;
      PlaceOthers adds that every other cell is as before. */
  function Place(b: Board, p: Pos, v: Cell): (r: Board)
    requires IsBoard(b) && InRange(p)
    ensures IsBoard(r) && At(r, p) == v
  {
    b[p.row := b[p.row][p.col := v]]
  }

  lemma PlaceOthers(b: Board, p: Pos, v: Cell)
    requires IsBoard(b) && InRange(p)
    ensures forall i, j :: 0 <= i < 3 && 0 <= j < 3 && (i != p.row || j != p.col) ==> Place(b, p, v)[i][j] == b[i][j]
  {
  }

  /** Writing into an empty cell leaves every mark on the board in place. */
  lemma PlaceKeepsMarks(b: Board, p: Pos, v: Cell)
    requires IsBoard(b) && InRange(p) && At(b, p) == Empty
    ensures forall q :: InRange(q) && At(b, q) != Empty ==> At(Place(b, p, v), q) == At(b, q)
  {
    PlaceOthers(b, p, v);
  }

  /** Boards are equal when their cells are. */
  lemma BoardsEqual(a: Board, b: Board)
    requires IsBoard(a) && IsBoard(b)
    requires forall i, j :: 0 <= i < 3 && 0 <= j < 3 ==> a[i][j] == b[i][j]
    ensures a == b
  {
    forall i | 0 <= i < 3 ensures a[i] == b[i] {
      assert a[i][0] == b[i][0] && a[i][1] == b[i][1] && a[i][2] == b[i][2];
    }
  }

  // ---------------------------------------------------------------------
  // Three in a row

  ghost predicate RowFilled(b: Board, i: int, p: Cell)
    requires IsBoard(b) && 0 <= i < 3
  {
    forall j :: 0 <= j < 3 ==> b[i][j] == p
  }

  ghost predicate ColFilled(b: Board, j: int, p: Cell)
    requires IsBoard(b) && 0 <= j < 3
  {
    forall i :: 0 <= i < 3 ==> b[i][j] == p
  }

  ghost predicate DiagFilled(b: Board, p: Cell)
    requires IsBoard(b)
  {
    forall i :: 0 <= i < 3 ==> b[i][i] == p
  }

  ghost predicate AntiDiagFilled(b: Board, p: Cell)
    requires IsBoard(b)
  {
    forall i, j :: 0 <= i < 3 && 0 <= j < 3 && i + j == 2 ==> b[i][j] == p
  }

  /** p has three in a row: some row, some column or one of the two
      diagonals holds p in all three of its cells. */
  ghost predicate Wins(b: Board, p: Cell)
    requires IsBoard(b)
  {
    || (exists i :: 0 <= i < 3 && RowFilled(b, i, p))
    || (exists j :: 0 <= j < 3 && ColFilled(b, j, p))
    || DiagFilled(b, p)
    || AntiDiagFilled(b, p)
  }

  /** Every cell holds a mark. */
  ghost predicate Full(b: Board)
    requires IsBoard(b)
  {
    forall i, j :: 0 <= i < 3 && 0 <= j < 3 ==> b[i][j] != Empty
  }

  /** isDraw, written identically in the move route and in the page: every
      cell of every row is non-empty. It does not look at lines. */
  function IsDraw(b: Board): (r: bool)
    requires IsBoard(b)
    ensures r <==> Full(b)
  {
    var r := forall row | row in b :: forall cell | cell in row :: cell != Empty;
    assert r ==> Full(b) by {
      if r {
        forall i, j | 0 <= i < 3 && 0 <= j < 3 ensures b[i][j] != Empty {
          assert b[i] in b && b[i][j] in b[i];
        }
      }
    }
    r
  }

  // ---------------------------------------------------------------------
  // The winning patterns as the page lists them

  /** The eight winning patterns in the page's scan order: the three rows,
      the three columns, the main diagonal, the anti-diagonal. */
  const Lines: seq<seq<Pos>> := [
    [Pos(0, 0), Pos(0, 1), Pos(0, 2)],
    [Pos(1, 0), Pos(1, 1), Pos(1, 2)],
    [Pos(2, 0), Pos(2, 1), Pos(2, 2)],
    [Pos(0, 0), Pos(1, 0), Pos(2, 0)],
    [Pos(0, 1), Pos(1, 1), Pos(2, 1)],
    [Pos(0, 2), Pos(1, 2), Pos(2, 2)],
    [Pos(0, 0), Pos(1, 1), Pos(2, 2)],
    [Pos(0, 2), Pos(1, 1), Pos(2, 0)]
  ]

  /** All three cells of pattern n hold p. */
  ghost predicate Filled(b: Board, n: int, p: Cell)
    requires IsBoard(b) && 0 <= n < |Lines|
  {
    forall k :: 0 <= k < 3 ==> At(b, Lines[n][k]) == p
  }

  /** Pattern n is the first pattern, in scan order, filled with p. */
  ghost predicate FirstFilled(b: Board, n: int, p: Cell)
    requires IsBoard(b)
  {
    && 0 <= n < |Lines|
    && Filled(b, n, p)
    && forall m :: 0 <= m < n ==> !Filled(b, m, p)
  }

  /** Pattern n is row n, column n - 3, the main diagonal or the anti-diagonal. */
  lemma FilledIsLine(b: Board, n: int, p: Cell)
    requires IsBoard(b) && 0 <= n < |Lines|
    ensures Filled(b, n, p) <==>
      if n < 3 then RowFilled(b, n, p)
      else if n < 6 then ColFilled(b, n - 3, p)
      else if n == 6 then DiagFilled(b, p)
      else AntiDiagFilled(b, p)
  {
    var line := Lines[n];
    assert Filled(b, n, p) <==> At(b, line[0]) == p && At(b, line[1]) == p && At(b, line[2]) == p;
    if n < 3 {
      assert line == [Pos(n, 0), Pos(n, 1), Pos(n, 2)];
    } else if n < 6 {
      assert line == [Pos(0, n - 3), Pos(1, n - 3), Pos(2, n - 3)];
    }
  }

  /** The pattern table lists exactly the winning lines: p fills one of the
      eight patterns if and only if p has three in a row. */
  lemma LinesAreWinningLines(b: Board, p: Cell)
    requires IsBoard(b)
    ensures Wins(b, p) <==> exists n :: 0 <= n < |Lines| && Filled(b, n, p)
  {
    forall n | 0 <= n < |Lines| {
      FilledIsLine(b, n, p);
    }
    if i :| 0 <= i < 3 && RowFilled(b, i, p) {
      assert Filled(b, i, p);
    } else if j :| 0 <= j < 3 && ColFilled(b, j, p) {
      assert Filled(b, 3 + j, p);
    } else if DiagFilled(b, p) {
      assert Filled(b, 6, p);
    } else if AntiDiagFilled(b, p) {
      assert Filled(b, 7, p);
    }
  }

  /** Placing v never gives any other mark w a line it did not already have. */
  lemma PlaceKeepsOtherWins(b: Board, q: Pos, v: Cell, w: Cell)
    requires IsBoard(b) && InRange(q) && v != w
    ensures Wins(Place(b, q, v), w) ==> Wins(b, w)
  {
    var r := Place(b, q, v);
    PlaceOthers(b, q, v);
    if Wins(r, w) {
      if i :| 0 <= i < 3 && RowFilled(r, i, w) {
        assert RowFilled(b, i, w);
      } else if j :| 0 <= j < 3 && ColFilled(r, j, w) {
        assert ColFilled(b, j, w);
      } else if DiagFilled(r, w) {
        assert DiagFilled(b, w);
      } else {
        assert AntiDiagFilled(b, w);
      }
    }
  }

  // ---------------------------------------------------------------------
  // Empty cells, in row-major order

  /** Position p comes strictly before position q in row-major order. */
  predicate Before(p: Pos, q: Pos) {
    p.row < q.row || (p.row == q.row && p.col < q.col)
  }

  ghost predicate Increasing(s: seq<Pos>) {
    forall m, n :: 0 <= m < n < |s| ==> Before(s[m], s[n])
  }

  /** The empty cells at or after (i, j) in row-major order, as the nested
      `for i in range(3) for j in range(3)` scan lists them. */
  function EmptyFrom(b: Board, i: int, j: int): seq<Pos>
    requires IsBoard(b) && 0 <= i <= 3 && 0 <= j <= 3
    decreases 3 - i, 3 - j
  {
    if i == 3 then []
    else if j == 3 then EmptyFrom(b, i + 1, 0)
    else (if b[i][j] == Empty then [Pos(i, j)] else []) + EmptyFrom(b, i, j + 1)
  }

  /** All empty cells of the board, in row-major order. */
  function EmptyCells(b: Board): seq<Pos>
    requires IsBoard(b)
  {
    EmptyFrom(b, 0, 0)
  }

  /** q lies at or after (i, j) in row-major order. */
  predicate AtOrAfter(q: Pos, i: int, j: int) {
    q.row > i || (q.row == i && q.col >= j)
  }

  lemma {:induction false} EmptyFromMembers(b: Board, i: int, j: int)
    requires IsBoard(b) && 0 <= i <= 3 && 0 <= j <= 3
    ensures forall q :: q in EmptyFrom(b, i, j) <==> InRange(q) && At(b, q) == Empty && AtOrAfter(q, i, j)
    decreases 3 - i, 3 - j
  {
    if i == 3 {
    } else if j == 3 {
      EmptyFromMembers(b, i + 1, 0);
    } else {
      EmptyFromMembers(b, i, j + 1);
      var rest := EmptyFrom(b, i, j + 1);
      if b[i][j] == Empty {
        assert EmptyFrom(b, i, j) == [Pos(i, j)] + rest;
        forall q ensures q in [Pos(i, j)] + rest <==> q == Pos(i, j) || q in rest {
        }
      } else {
        assert EmptyFrom(b, i, j) == rest;
      }
    }
  }

  /** A position before every element of an increasing list can go in front. */
  lemma ConsIncreasing(p: Pos, rest: seq<Pos>)
    requires Increasing(rest)
    requires forall q :: q in rest ==> Before(p, q)
    ensures Increasing([p] + rest)
  {
    var s := [p] + rest;
    forall m, n | 0 <= m < n < |s| ensures Before(s[m], s[n]) {
      assert s[n] == rest[n - 1] && s[n] in rest;
      if m > 0 {
        assert s[m] == rest[m - 1];
      }
    }
  }

  lemma {:induction false} EmptyFromIncreasing(b: Board, i: int, j: int)
    requires IsBoard(b) && 0 <= i <= 3 && 0 <= j <= 3
    ensures Increasing(EmptyFrom(b, i, j))
    decreases 3 - i, 3 - j
  {
    if i == 3 {
    } else if j == 3 {
      EmptyFromIncreasing(b, i + 1, 0);
    } else {
      EmptyFromIncreasing(b, i, j + 1);
      var rest := EmptyFrom(b, i, j + 1);
      if b[i][j] == Empty {
        EmptyFromMembers(b, i, j + 1);
        assert EmptyFrom(b, i, j) == [Pos(i, j)] + rest;
        ConsIncreasing(Pos(i, j), rest);
      } else {
        assert EmptyFrom(b, i, j) == rest;
      }
    }
  }

  lemma AppendAssoc<T>(a: seq<T>, b: seq<T>, c: seq<T>)
    ensures (a + b) + c == a + (b + c)
  {
  }

  /** A list holding exactly the empty cells is empty exactly when the
      board is full. */
  lemma NoEmptyCellsIffFull(b: Board, s: seq<Pos>)
    requires IsBoard(b)
    requires forall q :: q in s <==> InRange(q) && At(b, q) == Empty
    ensures s == [] <==> Full(b)
  {
    if s != [] {
      assert s[0] in s;
    }
    if !Full(b) {
      var i, j :| 0 <= i < 3 && 0 <= j < 3 && b[i][j] == Empty;
      assert Pos(i, j) in s;
    }
  }

  /** The list holds exactly the empty cells, each once, in row-major order. */
  lemma EmptyCellsExact(b: Board)
    requires IsBoard(b)
    ensures forall q :: q in EmptyCells(b) <==> InRange(q) && At(b, q) == Empty
    ensures Increasing(EmptyCells(b))
    ensures EmptyCells(b) == [] <==> Full(b)
  {
    EmptyFromMembers(b, 0, 0);
    EmptyFromIncreasing(b, 0, 0);
    NoEmptyCellsIffFull(b, EmptyCells(b));
  }

  // ---------------------------------------------------------------------
  // Counting marks

  function RowCount(s: seq<Cell>, v: Cell): nat {
    if s == [] then 0 else (if s[0] == v then 1 else 0) + RowCount(s[1..], v)
  }

  /** The number of cells holding v. */
  function Count(b: Board, v: Cell): nat
    requires IsBoard(b)
  {
    RowCount(b[0], v) + RowCount(b[1], v) + RowCount(b[2], v)
  }

  lemma {:induction false} RowCountUpdate(s: seq<Cell>, j: int, v: Cell, w: Cell)
    requires 0 <= j < |s|
    ensures RowCount(s[j := v], w) == RowCount(s, w) - (if s[j] == w then 1 else 0) + (if v == w then 1 else 0)
  {
    if j > 0 {
      RowCountUpdate(s[1..], j - 1, v, w);
      assert s[j := v][1..] == s[1..][j - 1 := v];
    }
  }

  /** Writing v into an empty cell adds one v and removes one Empty; every
      other count stays. */
  lemma PlaceCount(b: Board, q: Pos, v: Cell, w: Cell)
    requires IsBoard(b) && InRange(q) && At(b, q) == Empty
    ensures Count(Place(b, q, v), w) == Count(b, w) - (if w == Empty then 1 else 0) + (if w == v then 1 else 0)
  {
    RowCountUpdate(b[q.row], q.col, v, w);
    var r := Place(b, q, v);
    assert forall i :: 0 <= i < 3 && i != q.row ==> r[i] == b[i];
  }

  lemma EmptyBoardFacts()
    ensures IsBoard(EmptyBoard)
    ensures Count(EmptyBoard, X) == 0 && Count(EmptyBoard, O) == 0
    ensures !Wins(EmptyBoard, X) && !Wins(EmptyBoard, O) && !Full(EmptyBoard)
  {
    assert EmptyBoard[0][0] == Empty;
  }
}
