/** `TicTacToeServer`: the single-match server. `start` accepts two connections
    in turn, telling the first to `WAIT` until the second arrives, then tells both
    `READY` and plays the match. A failed accept ends `start` with nothing further
    sent. */
module Server {
  import opened Board
  import opened Wire
  import opened Protocol
  import opened Game

  class TicTacToeServer {
    /** The server's board and match loop. */
    const game: Match

    constructor()
      ensures fresh(game) && fresh(game.board) && game.board[..] == Initial.board
    {
      game := new Match();
    }

    /** `start`: `firstJoins` and `secondJoins` say whether each `accept` yields a
        player rather than an `IOException`. */
    method Start(firstJoins: bool, secondJoins: bool, inputs: seq<Input>) returns (trace: seq<Event>)
      requires game.board.Length == 9
      modifies game.board
      ensures !firstJoins ==> trace == [] && game.board[..] == old(game.board[..])
      ensures firstJoins && !secondJoins ==> trace == [Send(1, WAIT)] && game.board[..] == old(game.board[..])
      ensures firstJoins && secondJoins ==>
                var r := Play(State(old(game.board[..]), 1, Playing), inputs);
                && trace == [Send(1, WAIT), Send(1, READY), Send(2, READY)] + r.trace
                && game.board[..] == r.last.board
    {
      trace := [];
      if !firstJoins {
        return;
      }
      trace := trace + [Send(1, WAIT)];
      if !secondJoins {
        return;
      }
      trace := trace + [Send(1, READY), Send(2, READY)];
      var played := game.RunGame(inputs);
      trace := trace + played;
    }
  }

  /** A new server whose two players connect: `WAIT` to seat 1, `READY` to seat 1
      then seat 2, then the match from the empty board with seat 1 to move. */
  method ServeOneMatch(inputs: seq<Input>) returns (trace: seq<Event>)
    ensures |trace| >= 3 && trace[..3] == [Send(1, WAIT), Send(1, READY), Send(2, READY)]
    ensures trace[3..] == Play(Initial, inputs).trace
  {
    var server := new TicTacToeServer();
    trace := server.Start(true, true, inputs);
  }
}
