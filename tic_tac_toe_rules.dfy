/**
 * The rules of the Tic-Tac-Toe engine (assets/js/tic_tac_toe.js) as values:
 * the 3x3 board, its eight lines, the winner check, the draw check, one move,
 * the record rule and the invariants a game keeps.
 */
module TicTacToe {

  /** A cell: empty (the source's '') or holding a mark. */
  datatype Mark = Empty | X | O

  /** The source's `winner`: null while in progress, the winning mark, or 'draw'. */
  datatype Outcome = InProgress | Won(mark: Mark) | Draw

  /** Rows of cells, indexed board[row][col]. */
  type Board = seq<seq<Mark>>

  predicate IsBoard(b: Board) {
    |b| == 3 && forall r :: 0 <= r < 3 ==> |b[r]| == 3
  }

  const EmptyBoard: Board := [[Empty, Empty, Empty], [Empty, Empty, Empty], [Empty, Empty, Empty]]

  datatype Pos = Pos(row: int, col: int)

  /** Three cells in a straight line. */
  datatype Line = Line(a: Pos, b: Pos, c: Pos)

  function Row(i: int): Line {
    Line(Pos(i, 0), Pos(i, 1), Pos(i, 2))
  }

  function Column(i: int): Line {
    Line(Pos(0, i), Pos(1, i), Pos(2, i))
  }

  const Diagonal := Line(Pos(0, 0), Pos(1, 1), Pos(2, 2))
  const AntiDiagonal := Line(Pos(0, 2), Pos(1, 1), Pos(2, 0))

  /** The eight winning lines: three rows, three columns, two diagonals. */
  const Lines: set<Line> := {Row(0), Row(1), Row(2), Column(0), Column(1), Column(2), Diagonal, AntiDiagonal}

  function At(b: Board, p: Pos): Mark
    requires IsBoard(b)
  {
    if 0 <= p.row < 3 && 0 <= p.col < 3 then b[p.row][p.col] else Empty
  }

  /** Three equal marks, none of them empty. */
  predicate Same3(a: Mark, b: Mark, c: Mark) {
    a != Empty && a == b && b == c
  }

  predicate Complete(b: Board, l: Line)
    requires IsBoard(b)
  {
    Same3(At(b, l.a), At(b, l.b), At(b, l.c))
  }

  /** Some line of the board holds three equal marks. */
  predicate HasLine(b: Board)
    requires IsBoard(b)
  {
    exists l :: l in Lines && Complete(b, l)
  }

  /** No cell is empty. */
  predicate Full(b: Board)
    requires IsBoard(b)
  {
    forall r, c :: 0 <= r < 3 && 0 <= c < 3 ==> b[r][c] != Empty
  }

  /** The nine cells in reading order, as the source's board.flat() lists them. */
  function Flat(b: Board): (cells: seq<Mark>)
    requires IsBoard(b)
    ensures |cells| == 9
    ensures forall r, c :: 0 <= r < 3 && 0 <= c < 3 ==> cells[3 * r + c] == b[r][c]
  {
    b[0] + b[1] + b[2]
  }

  /** The source's isDraw: every entry of the flattened board is a mark, exactly when the board is full. */
  function IsDraw(b: Board): (draw: bool)
    requires IsBoard(b)
    ensures draw <==> Full(b)
  {
    var cells := Flat(b);
    if forall k :: 0 <= k < |cells| ==> cells[k] != Empty then
      true
    else
      var k :| 0 <= k < |cells| && cells[k] == Empty;
      assert cells[3 * (k / 3) + k % 3] == b[k / 3][k % 3];
      false
  }

  /**
   * The winner check, scanning row i and column i for i = 0, 1, 2 and then
   * the two diagonals, returning at the first complete line.
   */
  method CheckWinner(b: Board) returns (won: bool)
    requires IsBoard(b)
    ensures won <==> HasLine(b)
  {
    for i := 0 to 3
      invariant forall j :: 0 <= j < i ==> !Complete(b, Row(j)) && !Complete(b, Column(j))
    {
      if b[i][0] != Empty && b[i][0] == b[i][1] && b[i][1] == b[i][2] {
        assert Row(i) in Lines && Complete(b, Row(i));
        return true;
      }
      if b[0][i] != Empty && b[0][i] == b[1][i] && b[1][i] == b[2][i] {
        assert Column(i) in Lines && Complete(b, Column(i));
        return true;
      }
    }
    if b[0][0] != Empty && b[0][0] == b[1][1] && b[1][1] == b[2][2] {
      assert Complete(b, Diagonal);
      return true;
    }
    if b[0][2] != Empty && b[0][2] == b[1][1] && b[1][1] == b[2][0] {
      assert Complete(b, AntiDiagonal);
      return true;
    }
    return false;
  }

  /** How many cells of a row hold m. */
  function CountRow(row: seq<Mark>, m: Mark): nat
    requires |row| == 3
  {
    (if row[0] == m then 1 else 0) + (if row[1] == m then 1 else 0) + (if row[2] == m then 1 else 0)
  }

  /** How many cells of the board hold m. */
  function Count(b: Board, m: Mark): nat
    requires IsBoard(b)
  {
    CountRow(b[0], m) + CountRow(b[1], m) + CountRow(b[2], m)
  }

  /** A row holds at most three marks, and three exactly when no cell of it is empty. */
  lemma RowMarks(row: seq<Mark>)
    requires |row| == 3
    ensures CountRow(row, X) + CountRow(row, O) <= 3
    ensures CountRow(row, X) + CountRow(row, O) == 3 <==> row[0] != Empty && row[1] != Empty && row[2] != Empty
  {
  }

  /** The board is full exactly when its marks fill all nine cells. */
  lemma FullIffNineMarks(b: Board)
    requires IsBoard(b)
    ensures Full(b) <==> Count(b, X) + Count(b, O) == 9
  {
    RowMarks(b[0]);
    RowMarks(b[1]);
    RowMarks(b[2]);
    if Full(b) {
      assert b[0][0] != Empty && b[0][1] != Empty && b[0][2] != Empty;
      assert b[1][0] != Empty && b[1][1] != Empty && b[1][2] != Empty;
      assert b[2][0] != Empty && b[2][1] != Empty && b[2][2] != Empty;
    } else {
      var r, c :| 0 <= r < 3 && 0 <= c < 3 && b[r][c] == Empty;
      assert CountRow(b[r], X) + CountRow(b[r], O) < 3;
    }
  }

  /** The record rule: the stored best is overwritten only by a strictly higher player score. */
  function SaveRecord(stored: nat, player: nat): (r: nat)
    ensures r >= stored && r >= player
    ensures r == stored || r == player
    ensures r != stored <==> player > stored
  {
    if player > stored then player else stored
  }

  /** The engine's state: board, side to move, outcome, both scores and the stored record. */
  datatype Game = Game(board: Board, current: Mark, winner: Outcome, player: nat, computer: nat, stored: nat)

  /** A fresh round: all-empty board, X to move, in progress; scores and record are kept. */
  function Restart(g: Game): (r: Game)
    ensures IsBoard(r.board) && forall i, j :: 0 <= i < 3 && 0 <= j < 3 ==> r.board[i][j] == Empty
    ensures r.current == X && r.winner == InProgress
    ensures r.player == g.player && r.computer == g.computer && r.stored == g.stored
  {
    g.(board := EmptyBoard, current := X, winner := InProgress)
  }

  function Other(m: Mark): Mark {
    if m == X then O else X
  }

  /** A move is legal while the game is in progress and the cell is empty. */
  predicate Legal(g: Game, row: int, col: int)
    requires IsBoard(g.board) && 0 <= row < 3 && 0 <= col < 3
  {
    g.winner == InProgress && g.board[row][col] == Empty
  }

  /** The board with the side to move's mark placed at (row, col). */
  function Place(b: Board, row: int, col: int, m: Mark): (r: Board)
    requires IsBoard(b) && 0 <= row < 3 && 0 <= col < 3
    ensures IsBoard(r) && r[row][col] == m
    ensures forall i, j :: 0 <= i < 3 && 0 <= j < 3 && (i, j) != (row, col) ==> r[i][j] == b[i][j]
  {
    b[row := b[row][col := m]]
  }

  /** One click on cell (row, col). */
  function Move(g: Game, row: int, col: int): (r: Game)
    requires IsBoard(g.board) && 0 <= row < 3 && 0 <= col < 3
    // an illegal move changes nothing
    ensures !Legal(g, row, col) ==> r == g
    // a legal move places the mark of the side to move
    ensures Legal(g, row, col) ==> r.board == Place(g.board, row, col, g.current)
    // completing a line: the mover wins, keeps the turn, and its side scores
    ensures Legal(g, row, col) && HasLine(r.board) ==>
              r.winner == Won(g.current) && r.current == g.current &&
              r.player == g.player + (if g.current == X then 1 else 0) &&
              r.computer == g.computer + (if g.current == X then 0 else 1) &&
              r.stored == SaveRecord(g.stored, r.player)
    // a draw only on a full board with no line
    ensures Legal(g, row, col) && r.winner == Draw ==> Full(r.board) && !HasLine(r.board)
    ensures Legal(g, row, col) && !HasLine(r.board) && Full(r.board) ==> r.winner == Draw && r.current == g.current
    // otherwise the turn passes and nothing is scored
    ensures Legal(g, row, col) && !HasLine(r.board) && !Full(r.board) ==>
              r.winner == InProgress && r.current == Other(g.current)
    ensures Legal(g, row, col) && !HasLine(r.board) ==>
              r.player == g.player && r.computer == g.computer && r.stored == g.stored
  {
    if !Legal(g, row, col) then g
    else
      var b := Place(g.board, row, col, g.current);
      if HasLine(b) then
        var player := if g.current == X then g.player + 1 else g.player;
        var computer := if g.current == X then g.computer else g.computer + 1;
        g.(board := b, winner := Won(g.current), player := player, computer := computer,
           stored := SaveRecord(g.stored, player))
      else if IsDraw(b) then
        g.(board := b, winner := Draw)
      else
        g.(board := b, current := Other(g.current))
  }

  /**
   * What every reachable state satisfies. While in progress: no line, not
   * full, X has placed as many marks as O or one more, and it is X's turn
   * exactly when the counts are equal. A win has a line and the winner is
   * the side that moved last; a draw is a full board with no line. The
   * stored record is never below the player's score.
   */
  predicate Inv(g: Game) {
    && IsBoard(g.board)
    && (g.current == X || g.current == O)
    && g.stored >= g.player
    && (g.winner == InProgress ==>
          !HasLine(g.board) && !Full(g.board) &&
          (Count(g.board, X) == Count(g.board, O) || Count(g.board, X) == Count(g.board, O) + 1) &&
          (g.current == X <==> Count(g.board, X) == Count(g.board, O)))
    && (g.winner.Won? ==> HasLine(g.board) && g.winner.mark == g.current)
    && (g.winner == Draw ==> Full(g.board) && !HasLine(g.board))
  }

  lemma RestartEstablishesInv(g: Game)
    requires g.stored >= g.player
    ensures Inv(Restart(g))
  {
    assert !Complete(EmptyBoard, Row(0));
  }

  /** Placing a mark on an empty cell adds one to its count and leaves the other marks' counts alone. */
  lemma PlaceCounts(b: Board, row: int, col: int, m: Mark)
    requires IsBoard(b) && 0 <= row < 3 && 0 <= col < 3 && b[row][col] == Empty && m != Empty
    ensures Count(Place(b, row, col, m), m) == Count(b, m) + 1
    ensures forall other :: other != m && other != Empty ==> Count(Place(b, row, col, m), other) == Count(b, other)
  {
    var r := Place(b, row, col, m);
    assert r[row] == b[row][col := m];
    forall i | 0 <= i < 3 && i != row ensures r[i] == b[i] { }
  }

  /** Every move keeps the invariant, so turns alternate with X first. */
  lemma MovePreservesInv(g: Game, row: int, col: int)
    requires Inv(g) && 0 <= row < 3 && 0 <= col < 3
    ensures Inv(Move(g, row, col))
  {
    if Legal(g, row, col) {
      PlaceCounts(g.board, row, col, g.current);
    }
  }

  /** The result of clicking the cells in order. */
  function Play(g: Game, moves: seq<Pos>): Game
    requires IsBoard(g.board)
    decreases |moves|
  {
    if moves == [] then g
    else
      var m := moves[0];
      var next := if 0 <= m.row < 3 && 0 <= m.col < 3 then Move(g, m.row, m.col) else g;
      assert IsBoard(next.board);
      Play(next, moves[1..])
  }

  /** Any sequence of clicks keeps the invariant. */
  lemma {:induction false} PlayPreservesInv(g: Game, moves: seq<Pos>)
    requires Inv(g)
    ensures IsBoard(Play(g, moves).board) && Inv(Play(g, moves))
    decreases |moves|
  {
    if moves != [] {
      var m := moves[0];
      if 0 <= m.row < 3 && 0 <= m.col < 3 {
        MovePreservesInv(g, m.row, m.col);
        PlayPreservesInv(Move(g, m.row, m.col), moves[1..]);
      } else {
        PlayPreservesInv(g, moves[1..]);
      }
    }
  }

  /** A finished game ignores every later click. */
  lemma {:induction false} FinishedIsFinal(g: Game, moves: seq<Pos>)
    requires IsBoard(g.board) && g.winner != InProgress
    ensures Play(g, moves) == g
    decreases |moves|
  {
    if moves != [] {
      FinishedIsFinal(g, moves[1..]);
    }
  }

  /** The eight lines spelled out, so that a concrete board can be checked line by line. */
  lemma HasLineCases(b: Board)
    requires IsBoard(b)
    ensures HasLine(b) <==>
              Complete(b, Row(0)) || Complete(b, Row(1)) || Complete(b, Row(2)) ||
              Complete(b, Column(0)) || Complete(b, Column(1)) || Complete(b, Column(2)) ||
              Complete(b, Diagonal) || Complete(b, AntiDiagonal)
  {
  }

  /** A legal move that completes no line and leaves a cell empty only places the mark and passes the turn. */
  lemma QuietMove(g: Game, row: int, col: int)
    requires IsBoard(g.board) && 0 <= row < 3 && 0 <= col < 3 && Legal(g, row, col)
    requires !HasLine(Place(g.board, row, col, g.current))
    requires !Full(Place(g.board, row, col, g.current))
    ensures Move(g, row, col) == g.(board := Place(g.board, row, col, g.current), current := Other(g.current))
  {
  }

  /** A quiet first click of a sequence leaves the rest of the sequence to play from the quiet move's result. */
  lemma QuietPlay(g: Game, moves: seq<Pos>)
    requires IsBoard(g.board) && |moves| > 0
    requires 0 <= moves[0].row < 3 && 0 <= moves[0].col < 3 && Legal(g, moves[0].row, moves[0].col)
    requires !HasLine(Place(g.board, moves[0].row, moves[0].col, g.current))
    requires !Full(Place(g.board, moves[0].row, moves[0].col, g.current))
    ensures Play(g, moves) ==
            Play(g.(board := Place(g.board, moves[0].row, moves[0].col, g.current), current := Other(g.current)), moves[1..])
  {
    QuietMove(g, moves[0].row, moves[0].col);
  }

  /** The first two moves of the example: X (0,0), O (1,1). */
  lemma FirstQuietPair(g0: Game, moves: seq<Pos>)
    requires g0.board == EmptyBoard && g0.current == X && g0.winner == InProgress
    requires |moves| >= 2 && moves[0] == Pos(0, 0) && moves[1] == Pos(1, 1)
    ensures Play(g0, moves) == Play(g0.(board := Place(Place(EmptyBoard, 0, 0, X), 1, 1, O)), moves[2..])
  {
    var b1 := Place(g0.board, 0, 0, X);
    var b2 := Place(b1, 1, 1, O);
    var g1 := g0.(board := b1, current := O);
    HasLineCases(b1);
    assert b1[1][1] == Empty;
    QuietPlay(g0, moves);
    HasLineCases(b2);
    assert b2[0][1] == Empty;
    QuietPlay(g1, moves[1..]);
    assert moves[1..][1..] == moves[2..];
  }

  /** The next two moves of the example: X (0,1), O (2,2). */
  lemma SecondQuietPair(g2: Game, moves: seq<Pos>)
    requires g2.board == Place(Place(EmptyBoard, 0, 0, X), 1, 1, O) && g2.current == X && g2.winner == InProgress
    requires |moves| >= 2 && moves[0] == Pos(0, 1) && moves[1] == Pos(2, 2)
    ensures Play(g2, moves) == Play(g2.(board := Place(Place(g2.board, 0, 1, X), 2, 2, O)), moves[2..])
  {
    var b3 := Place(g2.board, 0, 1, X);
    var b4 := Place(b3, 2, 2, O);
    var g3 := g2.(board := b3, current := O);
    HasLineCases(b3);
    assert b3[2][2] == Empty;
    QuietPlay(g2, moves);
    HasLineCases(b4);
    assert b4[0][2] == Empty;
    QuietPlay(g3, moves[1..]);
    assert moves[1..][1..] == moves[2..];
  }

  /** The first four moves of the example: X (0,0), O (1,1), X (0,1), O (2,2), none of them decisive. */
  lemma OpeningMoves(g0: Game, moves: seq<Pos>)
    requires g0.board == EmptyBoard && g0.current == X && g0.winner == InProgress
    requires |moves| >= 4 && moves[..4] == [Pos(0, 0), Pos(1, 1), Pos(0, 1), Pos(2, 2)]
    ensures var b4 := Place(Place(Place(Place(EmptyBoard, 0, 0, X), 1, 1, O), 0, 1, X), 2, 2, O);
            Play(g0, moves) == Play(g0.(board := b4), moves[4..])
  {
    assert moves[0] == moves[..4][0] && moves[1] == moves[..4][1];
    FirstQuietPair(g0, moves);
    var g2 := g0.(board := Place(Place(EmptyBoard, 0, 0, X), 1, 1, O));
    assert moves[2..][0] == moves[..4][2] && moves[2..][1] == moves[..4][3];
    SecondQuietPair(g2, moves[2..]);
    assert moves[2..][2..] == moves[4..];
  }

  /** The last move of the example: X at (0,2) completes the top row. */
  lemma ClosingMove(g4: Game)
    requires g4.board == Place(Place(Place(Place(EmptyBoard, 0, 0, X), 1, 1, O), 0, 1, X), 2, 2, O)
    requires g4.current == X && g4.winner == InProgress
    ensures var g := Play(g4, [Pos(0, 2)]);
            g.winner == Won(X) && g.player == g4.player + 1 && g.computer == g4.computer &&
            g.stored == SaveRecord(g4.stored, g4.player + 1) &&
            g.board == [[X, X, X], [Empty, O, Empty], [Empty, Empty, O]]
  {
    var b5 := Place(g4.board, 0, 2, X);
    assert Complete(b5, Row(0));
    assert Play(g4, [Pos(0, 2)]) == Play(Move(g4, 0, 2), []);
    SameCells(b5, [[X, X, X], [Empty, O, Empty], [Empty, Empty, O]]);
  }

  /**
   * X at (0,0), O at (1,1), X at (0,1), O at (2,2), X at (0,2): X completes
   * the top row and wins, the player scores, and the round is over.
   */
  lemma TopRowExample(player: nat, computer: nat, stored: nat)
    ensures var g := Play(Restart(Game(EmptyBoard, X, InProgress, player, computer, stored)),
                          [Pos(0, 0), Pos(1, 1), Pos(0, 1), Pos(2, 2), Pos(0, 2)]);
            g.winner == Won(X) && g.player == player + 1 && g.computer == computer &&
            g.stored == SaveRecord(stored, player + 1) &&
            g.board == [[X, X, X], [Empty, O, Empty], [Empty, Empty, O]]
  {
    var g0 := Restart(Game(EmptyBoard, X, InProgress, player, computer, stored));
    OpeningMoves(g0, [Pos(0, 0), Pos(1, 1), Pos(0, 1), Pos(2, 2), Pos(0, 2)]);
    ClosingMove(g0.(board := Place(Place(Place(Place(EmptyBoard, 0, 0, X), 1, 1, O), 0, 1, X), 2, 2, O)));
  }

  /** Two boards that agree on every cell are equal. */
  lemma SameCells(a: Board, b: Board)
    requires IsBoard(a) && IsBoard(b)
    requires forall r, c :: 0 <= r < 3 && 0 <= c < 3 ==> a[r][c] == b[r][c]
    ensures a == b
  {
    forall r | 0 <= r < 3 ensures a[r] == b[r] { }
  }
}
