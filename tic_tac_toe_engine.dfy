/**
 * The Tic-Tac-Toe engine as the object the source defines (class TicTacToe
 * in assets/js/tic_tac_toe.js): board, side to move, outcome, scores and the
 * stored record are fields updated in place by the click handler and by
 * init. Clicks arrive as a cell (row, col), not as pixel coordinates.
 */
module TicTacToeEngine {
  import opened TicTacToe

  class TicTacToeGame {
    var board: Board
    var current: Mark
    var winner: Outcome
    /** score.player: wins of X. */
    var player: nat
    /** score.computer: wins of O. */
    var computer: nat
    /** The stored 'tttRecord' value. */
    var stored: nat

    /** The engine's state as a value. */
    function State(): Game
      reads this
    {
      Game(board, current, winner, player, computer, stored)
    }

    predicate Valid()
      reads this
    {
      Inv(State())
    }

    /** A fresh round with both scores at 0, next to a record store holding `storedRecord`. */
    constructor (storedRecord: nat)
      ensures Valid()
      ensures State() == Game(EmptyBoard, X, InProgress, 0, 0, storedRecord)
    {
      board, current, winner := EmptyBoard, X, InProgress;
      player, computer, stored := 0, 0, storedRecord;
      new;
      Init();
    }

    /** A new round: all-empty board, X to move, no winner; scores and record are kept. */
    method Init()
      requires stored >= player
      modifies this
      ensures Valid()
      ensures State() == Restart(old(State()))
    {
      board := EmptyBoard;
      current := X;
      winner := InProgress;
      RestartEstablishesInv(State());
    }

    /** The click handler, from the cell lookup on: ignored after the end or on an occupied cell. */
    method HandleClick(row: int, col: int)
      requires Valid() && 0 <= row < 3 && 0 <= col < 3
      modifies this
      ensures Valid()
      ensures State() == Move(old(State()), row, col)
    {
      MovePreservesInv(State(), row, col);
      if winner != InProgress {
        return;
      }
      if board[row][col] == Empty {
        PlaceMark(row, col);
      }
    }

    /** The body of a legal click: place the mark, then win, draw or pass the turn. */
    method PlaceMark(row: int, col: int)
      requires IsBoard(board) && 0 <= row < 3 && 0 <= col < 3
      requires winner == InProgress && board[row][col] == Empty
      modifies this
      ensures State() == Move(old(State()), row, col)
    {
      board := board[row := board[row][col := current]];
      var won := CheckWinner(board);
      if won {
        winner := Won(current);
        if current == X {
          player := player + 1;
        } else {
          computer := computer + 1;
        }
        Save();
      } else if IsDraw(board) {
        winner := Draw;
      } else {
        current := if current == X then O else X;
      }
    }

    /** record.save: writes the player score to the store only when it beats the stored value. */
    method Save()
      modifies this`stored
      ensures stored == SaveRecord(old(stored), player)
    {
      if player > stored {
        stored := player;
      }
    }

    method IsRunning() returns (running: bool)
      ensures running <==> winner == InProgress
    {
      running := winner == InProgress;
    }

    method Start()
      requires Valid()
      modifies this
      ensures Valid() && State() == Restart(old(State()))
    {
      Init();
    }

    method Reset()
      requires Valid()
      modifies this
      ensures Valid() && State() == Restart(old(State()))
    {
      Init();
    }
  }
}
