/** The match loop as the servers run it: a nine-cell `int[]` board updated in
    place, the scans over it, and the `runGame` loop with its `current` seat and
    `gameOver` flag. `GameSession` and `TicTacToeServer` carry identical copies
    of this code; both hold one `Match`. Each method is proved against the value
    model of the protocol. */
module Game {
  import opened Board
  import opened Wire
  import opened Protocol

  class Match {
    /** `0` for an empty cell, otherwise the seat that marked it. */
    const board: array<int>

    /** A new match: all nine cells empty. */
    constructor()
      ensures fresh(board) && board[..] == Initial.board
    {
      board := new int[9](_ => Empty);
    }

    /** `checkWinner`: scans the eight lines in order and returns the mark of the
        first completed one, or 0. */
    method CheckWinner() returns (w: int)
      requires board.Length == 9
      ensures w == Winner(board[..])
      ensures w != Empty ==> HasLine(board[..], w)
    {
      for k := 0 to 8
        invariant WinnerFrom(board[..], k) == Winner(board[..])
      {
        var (x, y, z) := WinLine(k);
        if board[x] != Empty && board[x] == board[y] && board[y] == board[z] {
          return board[x];
        }
      }
      return Empty;
    }

    /** `checkDraw`: true exactly when no cell is empty. */
    method CheckDraw() returns (d: bool)
      requires board.Length == 9
      ensures d == Full(board[..])
      ensures d <==> forall i :: 0 <= i < 9 ==> board[i] != Empty
    {
      for i := 0 to 9
        invariant forall j :: 0 <= j < i ==> board[j] != Empty
      {
        if board[i] == Empty {
          return false;
        }
      }
      return true;
    }

    /** `sendBoardUpdate`: each cell in decimal followed by a comma, then the tag,
        as one line to `to`. */
    method SendBoardUpdate(to: Seat, tag: string) returns (e: Event)
      ensures e == Send(to, Snapshot(board[..], tag))
    {
      var sb := "";
      for i := 0 to board.Length
        invariant sb == Cells(board[..i])
      {
        assert board[..i + 1][..i] == board[..i];
        sb := sb + Decimal(board[i]) + ",";
      }
      assert board[..board.Length] == board[..];
      e := Send(to, sb + tag);
    }

    /** One pass of the `while (!gameOver)` body for the player in seat `cur`:
        returns the seat to move next, the phase the match is in and what was
        sent and closed. */
    method PlayTurn(cur: Seat, input: Input) returns (next: Seat, ph: Phase, out: seq<Event>)
      requires board.Length == 9
      modifies board
      ensures Turn(State(old(board[..]), cur, Playing), input) == Outcome(State(board[..], next, ph), out)
    {
      ghost var st := State(board[..], cur, Playing);
      var opp := Other(cur);
      next, ph := cur, Playing;
      if input.Eof? {
        // handleDisconnect(opponent)
        out := [Send(opp, DISCONNECTED), Close(opp)];
        ph := Disconnected;
        return;
      }
      var move := ParseMove(input.text);
      if move.None? {
        out := [Send(cur, KO)];
        RejectedLine(st, input.text);
        return;
      }
      var m := move.value;
      if m < 0 || m >= 9 || board[m] != Empty {
        out := [Send(cur, KO)];
        RejectedLine(st, input.text);
        return;
      }
      TurnAccepts(st, input.text);
      next, ph, out := Mark(cur, m);
    }

    /** The rest of the loop body once `move` names an empty cell: the write,
        `checkWinner` then `checkDraw`, and the replies; the win check is first. */
    method Mark(cur: Seat, m: int) returns (next: Seat, ph: Phase, out: seq<Event>)
      requires board.Length == 9 && 0 <= m < 9
      modifies board
      ensures Accept(State(old(board[..]), cur, Playing), m) == Outcome(State(board[..], next, ph), out)
    {
      var opp := Other(cur);
      next := cur;
      board[m] := cur;
      ghost var b := board[..];
      var winner := CheckWinner();
      var isDraw := CheckDraw();
      if winner == cur {
        var update := SendBoardUpdate(opp, L);
        out, ph := [Send(cur, W), update], Won;
      } else if isDraw {
        var update := SendBoardUpdate(opp, P);
        out, ph := [Send(cur, P), update], Drawn;
      } else {
        var update := SendBoardUpdate(opp, "");
        out, ph, next := [Send(cur, OK), update], Playing, opp;
      }
      assert Verdict(b, cur) == ph;
      assert out == Replies(cur, b, ph);
    }

    /** `runGame`: seat 1 moves first; turns repeat until the match is won, drawn
        or the current player's stream ends; after a win or a draw both endpoints
        are closed. What it sends, and the board it leaves, are those of `Play`. */
    method RunGame(inputs: seq<Input>) returns (trace: seq<Event>)
      requires board.Length == 9
      modifies board
      ensures var r := Play(State(old(board[..]), 1, Playing), inputs);
              trace == r.trace && board[..] == r.last.board
    {
      ghost var goal := Play(State(board[..], 1, Playing), inputs);
      var current: Seat := 1;
      var phase := Playing;
      var i := 0;
      trace := [];
      assert inputs[0..] == inputs;
      while phase == Playing && i < |inputs|
        invariant 0 <= i <= |inputs|
        invariant phase == Playing ==>
                    var r := Play(State(board[..], current, Playing), inputs[i..]);
                    goal == Run(r.last, trace + r.trace)
        invariant phase != Playing ==>
                    var last := State(board[..], current, phase);
                    goal == Run(last, trace + Closing(last))
        decreases |inputs| - i
      {
        ghost var before := State(board[..], current, Playing);
        ghost var rest := inputs[i..];
        ghost var done := trace;
        PlayStep(before, rest);
        var out;
        current, phase, out := PlayTurn(current, inputs[i]);
        ghost var after := State(board[..], current, phase);
        assert Turn(before, rest[0]) == Outcome(after, out);
        assert rest[1..] == inputs[i + 1..];
        trace := trace + out;
        i := i + 1;
        if phase == Playing {
          ghost var r := Play(after, inputs[i..]);
          assert goal == Run(r.last, done + (out + r.trace));
          AppendAssoc(done, out, r.trace);
        } else {
          assert goal == Run(after, done + (out + Closing(after)));
          AppendAssoc(done, out, Closing(after));
        }
      }
      if phase == Playing {
        assert inputs[i..] == [];
        assert trace + [] == trace;
      } else if phase == Won || phase == Drawn {
        // close connections
        trace := trace + [Close(current), Close(Other(current))];
      } else {
        assert Closing(State(board[..], current, phase)) == [];
        assert trace + [] == trace;
      }
    }
  }

  lemma AppendAssoc<T>(a: seq<T>, b: seq<T>, c: seq<T>)
    ensures a + (b + c) == (a + b) + c
  {
  }

  /** `Play` unfolded by one turn, in the form the loop of `RunGame` uses. */
  lemma PlayStep(st: State, inputs: seq<Input>)
    requires |st.board| == 9 && st.phase == Playing && inputs != []
    ensures var t := Turn(st, inputs[0]);
            && (t.next.phase == Playing ==>
                  var r := Play(t.next, inputs[1..]);
                  Play(st, inputs) == Run(r.last, t.out + r.trace))
            && (t.next.phase != Playing ==> Play(st, inputs) == Run(t.next, t.out + Closing(t.next)))
  {
  }
}
