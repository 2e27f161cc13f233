/** The game controller of chess-board/src/components/ChessBoard.tsx: the
    selection, the cached destinations of the selected piece, the SAN
    history, the last-move marker and the game-over message, kept in step
    with the rules engine. Each handler is one atomic update of the state. */
module Session {
  import opened Wrappers
  import opened Utils
  import opened BoardView
  import opened Rules

  datatype LastMove = LastMove(from: string, to: string)

  /** The SAN of each ply, in order. */
  function Sans(plies: seq<MoveRecord>): (h: seq<string>)
    ensures |h| == |plies|
  {
    seq(|plies|, i requires 0 <= i < |plies| => plies[i].san)
  }

  function ColorName(c: Color): string {
    match c
    case White => "White"
    case Black => "Black"
  }

  /** The message after an accepted move, in priority order; with none of
      the three endings the message is left as it was. */
  function VerdictMessage(status: Status, turn: Color, current: Option<string>): Option<string> {
    if status.checkmate then Some("Checkmate! " + (if turn == White then "Black" else "White") + " wins.")
    else if status.stalemate then Some("Stalemate! It's a draw.")
    else if status.insufficientMaterial then Some("Draw!")
    else current
  }

  /** The request `attemptMove` sends: origin and destination (promoting to
      a queen) when a destination is given, SAN text otherwise. */
  function AttemptRequest(sanOrFrom: string, to: Option<string>): MoveRequest {
    if to.Some? && to.value != "" then FromTo(sanOrFrom, to.value, 'q') else San(sanOrFrom)
  }

  /** The alert for a refused `attemptMove`. */
  function IllegalMoveAlert(sanOrFrom: string, to: Option<string>): string {
    "Illegal move: " + (if to.Some? && to.value != "" then sanOrFrom + " to " + to.value else sanOrFrom)
  }

  class ChessSession {
    const game: Game
    var selected: Option<Coords>
    var legalMoves: seq<string>
    var moveHistory: seq<string>
    var lastMove: Option<LastMove>
    var gameOverMessage: Option<string>
    var listening: bool

    /** The history shows exactly the plies the engine has played. */
    predicate Valid()
      reads this, game
    {
      moveHistory == Sans(game.plies)
    }

    constructor()
      ensures Valid() && fresh(game) && game.plies == [] && game.requests == []
      ensures selected.None? && legalMoves == [] && moveHistory == []
      ensures lastMove.None? && gameOverMessage.None? && listening
    {
      game := new Game();
      selected := None;
      legalMoves := [];
      moveHistory := [];
      lastMove := None;
      gameOverMessage := None;
      listening := true;
    }

    /** `canUndo`: the history is not empty. */
    function CanUndo(): bool
      reads this
    {
      |moveHistory| > 0
    }

    /** `isLastMoveSquare(row, col)`. */
    function IsLastMoveSquare(row: int, col: int): bool
      reads this
    {
      lastMove.Some? && (ToSquare(row, col) == lastMove.value.from || ToSquare(row, col) == lastMove.value.to)
    }

    /** The common tail of both move handlers once the engine has accepted a
        move. */
    method Record(m: MoveRecord, status: Status)
      requires game.plies != [] && game.plies[|game.plies| - 1] == m
      requires moveHistory == Sans(game.plies[..|game.plies| - 1])
      modifies this
      ensures Valid()
      ensures moveHistory == old(moveHistory) + [m.san] && lastMove == Some(LastMove(m.from, m.to))
      ensures gameOverMessage == VerdictMessage(status, game.Turn(), old(gameOverMessage))
      ensures selected == old(selected) && legalMoves == old(legalMoves) && listening == old(listening)
    {
      lastMove := Some(LastMove(m.from, m.to));
      moveHistory := moveHistory + [m.san];
      gameOverMessage := VerdictMessage(status, game.Turn(), gameOverMessage);
      assert moveHistory == Sans(game.plies);
    }

    /** `handleSquareClick(row, col)`. `piece` is the engine's answer to
        `game.get` for the clicked square, `destinations` its answer to
        `game.moves` from there, `answer` its answer to the move and
        `status` its verdict on the position after it. */
    method HandleSquareClick(
      row: int, col: int, piece: Option<Piece>, destinations: seq<string>,
      answer: Option<MoveRecord>, status: Status)
      requires Valid()
      requires selected.Some? ==>
        Answers(FromTo(ToSquare(selected.value.row, selected.value.col), ToSquare(row, col), 'q'), answer)
      modifies this, game
      ensures Valid() && listening == old(listening)
      // With a square selected: the click ends the selection, and submits a
      // queen-promoting move from it when the square is a cached destination.
      ensures old(selected).Some? ==> selected.None? && legalMoves == []
      ensures old(selected).Some? && ToSquare(row, col) in old(legalMoves) ==>
        var from := ToSquare(old(selected).value.row, old(selected).value.col);
        game.requests == old(game.requests) + [FromTo(from, ToSquare(row, col), 'q')]
      ensures old(selected).Some? && ToSquare(row, col) in old(legalMoves) && answer.Some? ==>
        && moveHistory == old(moveHistory) + [answer.value.san]
        && game.plies == old(game.plies) + [answer.value]
        && game.Turn() != old(game.Turn())
        && lastMove == Some(LastMove(answer.value.from, answer.value.to))
        && gameOverMessage == VerdictMessage(status, game.Turn(), old(gameOverMessage))
        && IsLastMoveSquare(row, col)
        && IsLastMoveSquare(old(selected).value.row, old(selected).value.col)
      ensures old(selected).Some? && (ToSquare(row, col) !in old(legalMoves) || answer.None?) ==>
        && moveHistory == old(moveHistory) && game.plies == old(game.plies)
        && lastMove == old(lastMove) && gameOverMessage == old(gameOverMessage)
      ensures old(selected).Some? && ToSquare(row, col) !in old(legalMoves) ==> game.requests == old(game.requests)
      // With nothing selected: a piece of the side to move is selected with
      // its destinations; any other click changes nothing.
      ensures old(selected).None? ==>
        && moveHistory == old(moveHistory) && game.plies == old(game.plies) && game.requests == old(game.requests)
        && lastMove == old(lastMove) && gameOverMessage == old(gameOverMessage)
      ensures old(selected).None? && piece.Some? && piece.value.color == old(game.Turn()) ==>
        selected == Some(Coords(row, col)) && legalMoves == destinations
      ensures old(selected).None? && !(piece.Some? && piece.value.color == old(game.Turn())) ==>
        selected == old(selected) && legalMoves == old(legalMoves)
    {
      var square := ToSquare(row, col);
      if selected.Some? {
        var from := ToSquare(selected.value.row, selected.value.col);
        if square in legalMoves {
          var m := game.Move(FromTo(from, square, 'q'), answer);
          if m.Some? {
            assert game.plies[..|game.plies| - 1] == old(game.plies);
            Record(m.value, status);
          }
        }
        selected := None;
        legalMoves := [];
      } else if piece.Some? && piece.value.color == game.Turn() {
        selected := Some(Coords(row, col));
        legalMoves := destinations;
      }
    }

    /** `attemptMove(sanOrFrom, to)`: returns the alert shown for a refused
        move. */
    method AttemptMove(sanOrFrom: string, to: Option<string>, answer: Option<MoveRecord>, status: Status)
      returns (alert: Option<string>)
      requires Valid() && Answers(AttemptRequest(sanOrFrom, to), answer)
      modifies this, game
      ensures Valid() && listening == old(listening)
      ensures selected.None? && legalMoves == []
      ensures game.requests == old(game.requests) + [AttemptRequest(sanOrFrom, to)]
      ensures answer.Some? ==>
        && alert.None?
        && moveHistory == old(moveHistory) + [answer.value.san]
        && game.plies == old(game.plies) + [answer.value]
        && game.Turn() != old(game.Turn())
        && lastMove == Some(LastMove(answer.value.from, answer.value.to))
        && gameOverMessage == VerdictMessage(status, game.Turn(), old(gameOverMessage))
      ensures answer.None? ==>
        && alert == Some(IllegalMoveAlert(sanOrFrom, to))
        && moveHistory == old(moveHistory) && game.plies == old(game.plies)
        && lastMove == old(lastMove) && gameOverMessage == old(gameOverMessage)
    {
      var m := game.Move(AttemptRequest(sanOrFrom, to), answer);
      if m.Some? {
        assert game.plies[..|game.plies| - 1] == old(game.plies);
        Record(m.value, status);
        alert := None;
      } else {
        alert := Some(IllegalMoveAlert(sanOrFrom, to));
      }
      selected := None;
      legalMoves := [];
    }

    /** `undoLastMove`: with a history, the engine takes back a ply (its
        answer is not looked at), the last entry goes and the marks are
        cleared; without one nothing happens. */
    method UndoLastMove()
      requires Valid()
      modifies this, game
      ensures Valid() && listening == old(listening) && game.requests == old(game.requests)
      ensures old(moveHistory) != [] ==>
        && moveHistory == old(moveHistory)[..|old(moveHistory)| - 1]
        && game.plies == old(game.plies)[..|old(game.plies)| - 1]
        && game.Turn() != old(game.Turn())
        && selected.None? && legalMoves == [] && lastMove.None? && gameOverMessage.None?
      ensures old(moveHistory) == [] ==>
        && moveHistory == old(moveHistory) && game.plies == old(game.plies)
        && selected == old(selected) && legalMoves == old(legalMoves)
        && lastMove == old(lastMove) && gameOverMessage == old(gameOverMessage)
    {
      if |moveHistory| > 0 {
        var _ := game.Undo();
        moveHistory := moveHistory[..|moveHistory| - 1];
        selected := None;
        legalMoves := [];
        lastMove := None;
        gameOverMessage := None;
      }
    }

    /** `undoAllMoves`: the engine takes back plies until it has none left;
        then the history is emptied and the marks are cleared. */
    method UndoAllMoves()
      modifies this, game
      ensures Valid() && game.plies == [] && moveHistory == []
      ensures selected.None? && legalMoves == [] && lastMove.None? && gameOverMessage.None?
      ensures listening == old(listening) && game.requests == old(game.requests)
    {
      var undone := game.Undo();
      while undone
        invariant !undone ==> game.plies == []
        invariant game.requests == old(game.requests) && listening == old(listening)
        decreases |game.plies| + (if undone then 1 else 0)
      {
        undone := game.Undo();
      }
      moveHistory := [];
      selected := None;
      legalMoves := [];
      lastMove := None;
      gameOverMessage := None;
    }

    /** `handleRestart`: the engine back at the start, everything cleared. */
    method HandleRestart()
      modifies this, game
      ensures Valid() && game.plies == [] && moveHistory == []
      ensures selected.None? && legalMoves == [] && lastMove.None? && gameOverMessage.None?
      ensures listening == old(listening) && game.requests == old(game.requests)
    {
      game.Reset();
      moveHistory := [];
      selected := None;
      legalMoves := [];
      lastMove := None;
      gameOverMessage := None;
    }

    /** The game-over dialog's close button. */
    method CloseGameOver()
      modifies this
      ensures gameOverMessage.None?
      ensures selected == old(selected) && legalMoves == old(legalMoves) && moveHistory == old(moveHistory)
      ensures lastMove == old(lastMove) && listening == old(listening)
    {
      gameOverMessage := None;
    }

    /** `startListening` and `stopListening`. */
    method SetListening(on: bool)
      modifies this
      ensures listening == on
      ensures selected == old(selected) && legalMoves == old(legalMoves) && moveHistory == old(moveHistory)
      ensures lastMove == old(lastMove) && gameOverMessage == old(gameOverMessage)
    {
      listening := on;
    }
  }

  // ---------------------------------------------------------------------
  // Properties.

  /** The undo buttons are enabled exactly when the engine has a ply to take
      back. */
  lemma CanUndoMeansPlies(s: ChessSession)
    requires s.Valid()
    ensures s.CanUndo() <==> s.game.plies != []
  {
  }

  /** An accepted `attemptMove` followed by `undoLastMove` gives back the
      history, the engine's plies and the side to move as they were, with
      the marks and the message cleared. */
  method MoveThenUndo(s: ChessSession, sanOrFrom: string, to: Option<string>, answer: Option<MoveRecord>, status: Status)
    requires s.Valid() && Answers(AttemptRequest(sanOrFrom, to), answer) && answer.Some?
    modifies s, s.game
    ensures s.Valid()
    ensures s.moveHistory == old(s.moveHistory) && s.game.plies == old(s.game.plies) && s.game.Turn() == old(s.game.Turn())
    ensures s.game.requests == old(s.game.requests) + [AttemptRequest(sanOrFrom, to)]
    ensures s.selected.None? && s.legalMoves == [] && s.lastMove.None? && s.gameOverMessage.None?
  {
    var alert := s.AttemptMove(sanOrFrom, to, answer, status);
    s.UndoLastMove();
  }

  /** The winner of a checkmate is the side that made the last ply: after n
      plies (n > 0) the engine reports the loser to move. */
  lemma CheckmateNamesMover(n: nat, current: Option<string>)
    requires n > 0
    ensures VerdictMessage(Status(true, false, false), TurnAfter(n), current)
         == Some("Checkmate! " + ColorName(TurnAfter(n - 1)) + " wins.")
  {
  }

  /** The message keeps its priority: checkmate over stalemate over
      insufficient material, and an earlier message survives a move that
      ends nothing. */
  lemma VerdictPriority(status: Status, turn: Color, current: Option<string>)
    ensures status.checkmate ==> VerdictMessage(status, turn, current).Some?
    ensures !status.checkmate && status.stalemate ==> VerdictMessage(status, turn, current) == Some("Stalemate! It's a draw.")
    ensures !status.checkmate && !status.stalemate && status.insufficientMaterial ==> VerdictMessage(status, turn, current) == Some("Draw!")
    ensures !status.checkmate && !status.stalemate && !status.insufficientMaterial ==> VerdictMessage(status, turn, current) == current
  {
  }

  /** With the last move's squares named properly, exactly its two squares
      of the board are marked. */
  lemma LastMoveMarks(s: ChessSession, row: int, col: int)
    requires s.lastMove.Some? && IsSquareName(s.lastMove.value.from) && IsSquareName(s.lastMove.value.to)
    requires OnBoard(row, col)
    ensures s.IsLastMoveSquare(row, col)
        <==> Coords(row, col) == FromSquare(s.lastMove.value.from) || Coords(row, col) == FromSquare(s.lastMove.value.to)
  {
    FromToSquare(row, col);
    ToFromSquare(s.lastMove.value.from);
    ToFromSquare(s.lastMove.value.to);
  }

  /** Without a last move nothing is marked. */
  lemma NoLastMoveNoMarks(s: ChessSession, row: int, col: int)
    requires s.lastMove.None?
    ensures !s.IsLastMoveSquare(row, col)
  {
  }
}
