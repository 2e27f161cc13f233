/** The rules engine ChessBoard.tsx drives (`game`, from `../game/Chess.ts`,
    which is not part of this model), as an abstract oracle: it keeps the
    plies played since the start position. Whether a move is legal, which
    piece stands where, where a piece may go and whether the game is over
    depend on the rules of chess and are supplied as the engine's answers. */
module Rules {
  import opened Wrappers
  import opened BoardView

  /** What `game.move` returns for an accepted move. */
  datatype MoveRecord = MoveRecord(from: string, to: string, san: string)

  /** A move request: SAN text, or origin and destination with the promotion
      piece. */
  datatype MoveRequest =
    | San(san: string)
    | FromTo(from: string, to: string, promotion: char)

  /** The engine's verdict on the position after a move. */
  datatype Status = Status(checkmate: bool, stalemate: bool, insufficientMaterial: bool)

  /** An engine's answer to a request is consistent when an accepted
      origin-destination move is the one asked for. */
  predicate Answers(request: MoveRequest, answer: Option<MoveRecord>) {
    answer.Some? && request.FromTo? ==> answer.value.from == request.from && answer.value.to == request.to
  }

  /** The side to move after a number of plies from the start position. */
  function TurnAfter(plies: nat): Color {
    if plies % 2 == 0 then White else Black
  }

  class Game {
    /** The plies played since the start position, in order. */
    var plies: seq<MoveRecord>
    /** Every move request the engine has been given, accepted or not. */
    var requests: seq<MoveRequest>

    constructor()
      ensures plies == [] && requests == []
    {
      plies := [];
      requests := [];
    }

    function Turn(): Color
      reads this
    {
      TurnAfter(|plies|)
    }

    /** `game.move(request)`: the engine's answer is returned, and an accepted
        move is played. */
    method Move(request: MoveRequest, answer: Option<MoveRecord>) returns (m: Option<MoveRecord>)
      requires Answers(request, answer)
      modifies this
      ensures m == answer && requests == old(requests) + [request]
      ensures plies == old(plies) + (if answer.Some? then [answer.value] else [])
    {
      m := answer;
      requests := requests + [request];
      if answer.Some? {
        plies := plies + [answer.value];
      }
    }

    /** `game.undo()`: takes back the last ply; false when there is none. */
    method Undo() returns (undone: bool)
      modifies this
      ensures undone <==> old(plies) != []
      ensures plies == if undone then old(plies)[..|old(plies)| - 1] else old(plies)
      ensures requests == old(requests)
    {
      if plies == [] {
        undone := false;
      } else {
        plies := plies[..|plies| - 1];
        undone := true;
      }
    }

    /** `game.reset()`: back to the start position. */
    method Reset()
      modifies this
      ensures plies == [] && requests == old(requests)
    {
      plies := [];
    }
  }
}
