/** `GameSession`: one match between two connected players. Its `run` tells both
    players the match is ready, then plays it. */
module Session {
  import opened Board
  import opened Wire
  import opened Protocol
  import opened Game

  class GameSession {
    /** The session's board and match loop. */
    const game: Match

    /** A session with an empty board. */
    constructor()
      ensures fresh(game) && fresh(game.board) && game.board[..] == Initial.board
    {
      game := new Match();
    }

    /** `run`: `READY` to seat 1, then to seat 2, then the match from seat 1. */
    method Run(inputs: seq<Input>) returns (trace: seq<Event>)
      requires game.board.Length == 9
      modifies game.board
      ensures var r := Play(State(old(game.board[..]), 1, Playing), inputs);
              trace == [Send(1, READY), Send(2, READY)] + r.trace && game.board[..] == r.last.board
    {
      var played := game.RunGame(inputs);
      trace := [Send(1, READY), Send(2, READY)] + played;
    }
  }

  /** A new session plays from the empty board: after the two `READY`s, the
      first move it can accept is seat 1's. */
  method NewSession(inputs: seq<Input>) returns (trace: seq<Event>)
    ensures |trace| >= 2 && trace[..2] == [Send(1, READY), Send(2, READY)]
    ensures trace[2..] == Play(Initial, inputs).trace
  {
    var session := new GameSession();
    trace := session.Run(inputs);
  }
}
