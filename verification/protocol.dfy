/** The per-match protocol of `runGame`, stated on values. A turn reads one input
    from the current player and answers it; a run repeats turns until the match is
    won, drawn, or a player disconnects. Both `GameSession.runGame` and
    `TicTacToeServer.runGame` follow this protocol. */
module Protocol {
  import opened Board
  import opened Wire

  /** What one `readMessage` from the current player yields: a line, or the end
      of the stream (`null`), which also stands for an `IOException`. */
  datatype Input = Line(text: string) | Eof

  /** What the match does to a player's endpoint: send it a line, or close it. */
  datatype Event = Send(to: Seat, text: string) | Close(who: Seat)

  /** Whether the `while (!gameOver)` loop still runs, and if not, why it stopped. */
  datatype Phase = Playing | Won | Drawn | Disconnected

  /** The board, the seat whose turn it is (`current`) and the phase. */
  datatype State = State(board: seq<int>, current: Seat, phase: Phase)

  /** The state after one turn and the events the turn produced. */
  datatype Outcome = Outcome(next: State, out: seq<Event>)

  /** The state a run stops in and every event it produced. */
  datatype Run = Run(last: State, trace: seq<Event>)

  /** A new match: empty board, seat 1 to move. */
  const Initial: State := State([0, 0, 0, 0, 0, 0, 0, 0, 0], 1, Playing)

  /** The line names an empty cell in 0..8. */
  predicate Legal(b: seq<int>, line: string)
    requires |b| == 9
  {
    var m := ParseMove(line);
    m.Some? && 0 <= m.value < 9 && b[m.value] == Empty
  }

  /** One pass of the loop body of `runGame`. End of stream notifies and closes the
      opponent. A line that does not parse, names a cell outside 0..8 or an occupied
      cell gets `KO`. Otherwise the mover's seat is written into the cell, the
      mover is told the verdict and the opponent gets the snapshot with the
      verdict's tag; the turn passes only when the match goes on. Cells never
      revert to empty. */
  function Turn(st: State, input: Input): (t: Outcome)
    requires |st.board| == 9 && st.phase == Playing
    ensures |t.next.board| == 9
    ensures forall i :: 0 <= i < 9 && st.board[i] != Empty ==> t.next.board[i] == st.board[i]
  {
    var cur, opp := st.current, Other(st.current);
    match input
    case Eof =>
      Outcome(st.(phase := Disconnected), [Send(opp, DISCONNECTED), Close(opp)])
    case Line(s) =>
      match ParseMove(s)
      case None => Outcome(st, [Send(cur, KO)])
      case Some(move) =>
        if move < 0 || move >= 9 || st.board[move] != Empty then Outcome(st, [Send(cur, KO)])
        else Accept(st, move)
  }

  /** An accepted move into cell `move`: the mover's seat is written there, the
      verdict is sent to the mover and the snapshot of the new board, tagged with
      the verdict, to the opponent; the turn passes exactly when play goes on. */
  function Accept(st: State, move: int): (t: Outcome)
    requires |st.board| == 9 && 0 <= move < 9
    ensures t.next.board == st.board[move := st.current]
    ensures t.next.phase != Disconnected
    ensures t.next.current == (if t.next.phase == Playing then Other(st.current) else st.current)
    ensures |t.out| == 2
    ensures t.out[0] == Send(st.current, AckText(t.next.phase))
    ensures t.out[1] == Send(Other(st.current), Snapshot(t.next.board, TagText(t.next.phase)))
  {
    var b := st.board[move := st.current];
    var ph := Verdict(b, st.current);
    Outcome(State(b, if ph == Playing then Other(st.current) else st.current, ph), Replies(st.current, b, ph))
  }

  /** The two replies to an accepted move: the verdict to the mover, the snapshot to the opponent. */
  function Replies(mover: Seat, b: seq<int>, ph: Phase): seq<Event>
  {
    [Send(mover, AckText(ph)), Send(Other(mover), Snapshot(b, TagText(ph)))]
  }

  /** The evaluation after a move: the win check comes before the draw check. A
      win means the mover owns a line, a draw a full board, and play goes on only
      on a board with an empty cell; when the mover owns a line and no other
      seat does, it is a win, full board or not. */
  function Verdict(b: seq<int>, mover: Seat): (ph: Phase)
    requires |b| == 9
    ensures ph != Disconnected
    ensures ph == Won ==> HasLine(b, mover)
    ensures ph == Drawn ==> Full(b)
    ensures ph == Playing ==> !Full(b)
    ensures HasLine(b, mover) && (forall v :: v != mover && v != Empty ==> !HasLine(b, v)) ==> ph == Won
  {
    LineMakesWinner(b, mover);
    if Winner(b) == mover then Won else if Full(b) then Drawn else Playing
  }

  /** The reply to the mover: `W` on a win, `P` on a draw, `OK` otherwise. */
  function AckText(ph: Phase): string
  {
    match ph
    case Won => W
    case Drawn => P
    case _ => OK
  }

  /** The tag after the opponent's snapshot: `L` on a win, `P` on a draw, none otherwise. */
  function TagText(ph: Phase): string
  {
    match ph
    case Won => L
    case Drawn => P
    case _ => ""
  }

  /** After a win or a draw the loop ends and both endpoints are closed, the
      mover's first; a disconnect closes its survivor inside the turn, and a
      match still in play closes nothing. */
  function Closing(st: State): (c: seq<Event>)
    ensures c == [] <==> st.phase != Won && st.phase != Drawn
    ensures c != [] ==> |c| == 2 && c[0] == Close(st.current) && c[1].Close? && c[1].who != st.current
  {
    if st.phase == Won || st.phase == Drawn then [Close(st.current), Close(Other(st.current))]
    else []
  }

  /** The `while (!gameOver)` loop over the lines the players send. When the
      inputs run out first, the match is still waiting for the current player. */
  function Play(st: State, inputs: seq<Input>): (r: Run)
    requires |st.board| == 9 && st.phase == Playing
    ensures |r.last.board| == 9
    ensures forall i :: 0 <= i < 9 && st.board[i] != Empty ==> r.last.board[i] == st.board[i]
    decreases |inputs|
  {
    if inputs == [] then Run(st, [])
    else
      var t := Turn(st, inputs[0]);
      if t.next.phase == Playing then
        var r := Play(t.next, inputs[1..]);
        Run(r.last, t.out + r.trace)
      else
        Run(t.next, t.out + Closing(t.next))
  }

  /** The states a match can reach: cells are 0, 1 or 2; seat 1 has made as many
      moves as seat 2 when seat 1 is to move and one more otherwise (the last
      mover keeps the turn when the match ends by a win or a draw); only a won
      match has a winner, and it is the last mover; a drawn board is full. */
  predicate Inv(st: State)
  {
    && |st.board| == 9
    && (forall i :: 0 <= i < 9 ==> 0 <= st.board[i] <= 2)
    && Count(st.board, 1) - Count(st.board, 2)
       == (if st.phase == Won || st.phase == Drawn then 2 - st.current else st.current - 1)
    && Winner(st.board) == (if st.phase == Won then st.current else Empty)
    && (st.phase == Drawn ==> Full(st.board))
  }

  function Copies<T>(x: T, n: nat): (s: seq<T>)
    ensures |s| == n && forall i :: 0 <= i < n ==> s[i] == x
  {
    if n == 0 then [] else [x] + Copies(x, n - 1)
  }

  /** Sends that acknowledge a move to its mover. */
  predicate IsAck(e: Event)
  {
    e.Send? && (e.text == OK || e.text == W || e.text == P)
  }

  /** The seats that had a move accepted, in order. */
  function Movers(trace: seq<Event>): seq<Seat>
  {
    if trace == [] then [] else (if IsAck(trace[0]) then [trace[0].to] else []) + Movers(trace[1..])
  }

  /** The number of disconnect notices sent. */
  function Notices(trace: seq<Event>): nat
  {
    if trace == [] then 0
    else (if trace[0].Send? && trace[0].text == DISCONNECTED then 1 else 0) + Notices(trace[1..])
  }

  /** The endpoints closed, in order. */
  function Closed(trace: seq<Event>): seq<Seat>
  {
    if trace == [] then [] else (if trace[0].Close? then [trace[0].who] else []) + Closed(trace[1..])
  }

  lemma {:induction false} FiltersAppend(a: seq<Event>, b: seq<Event>)
    ensures Movers(a + b) == Movers(a) + Movers(b)
    ensures Notices(a + b) == Notices(a) + Notices(b)
    ensures Closed(a + b) == Closed(a) + Closed(b)
  {
    if a != [] {
      assert (a + b)[1..] == a[1..] + b;
      FiltersAppend(a[1..], b);
    } else {
      assert a + b == b;
    }
  }

  lemma FiltersSingle(e: Event)
    ensures Movers([e]) == if IsAck(e) then [e.to] else []
    ensures Notices([e]) == if e.Send? && e.text == DISCONNECTED then 1 else 0
    ensures Closed([e]) == if e.Close? then [e.who] else []
  {
    assert [e][1..] == [];
  }

  lemma FiltersPair(a: Event, b: Event)
    ensures Movers([a, b]) == Movers([a]) + Movers([b])
    ensures Notices([a, b]) == Notices([a]) + Notices([b])
    ensures Closed([a, b]) == Closed([a]) + Closed([b])
  {
    assert [a, b] == [a] + [b];
    FiltersAppend([a], [b]);
  }

  /** A new match satisfies the invariant. */
  lemma InitialInv()
    ensures Inv(Initial)
  {
    var b := Initial.board;
    assert forall i :: 0 <= i < 9 ==> b[i] == Empty;
    BlankBoard(b);
  }

  /** An empty board has no marks and no winner. */
  lemma BlankBoard(b: seq<int>)
    requires |b| == 9 && forall i :: 0 <= i < 9 ==> b[i] == Empty
    ensures Count(b, 1) == 0 && Count(b, 2) == 0 && Winner(b) == Empty
  {
    CountAbsent(b, 1);
    CountAbsent(b, 2);
    forall k | 0 <= k < 8 ensures !Completed(b, k) {
      var (x, y, z) := WinLine(k);
      assert b[x] == Empty;
    }
  }

  /** A line is rejected (not a number, outside 0..8, or an occupied cell) exactly
      when the turn answers one `KO` to the mover and leaves the state as it was;
      an accepted line always changes the board. */
  lemma RejectedLine(st: State, s: string)
    requires |st.board| == 9 && st.phase == Playing
    ensures !Legal(st.board, s) <==> Turn(st, Line(s)) == Outcome(st, [Send(st.current, KO)])
    ensures Legal(st.board, s) ==> Turn(st, Line(s)).next.board != st.board
  {
    if Legal(st.board, s) {
      var m := ParseMove(s).value;
      assert Turn(st, Line(s)).next.board[m] != st.board[m];
    }
  }

  /** Repeating a rejected line any number of times only repeats the `KO`: the
      board and the turn stay as they were. */
  lemma {:induction false} RejectedRepeat(st: State, s: string, n: nat)
    requires |st.board| == 9 && st.phase == Playing && !Legal(st.board, s)
    ensures Play(st, Copies(Line(s), n)) == Run(st, Copies(Send(st.current, KO), n))
  {
    RejectedLine(st, s);
    if n > 0 {
      assert Copies(Line(s), n)[1..] == Copies(Line(s), n - 1);
      RejectedRepeat(st, s, n - 1);
    }
  }

  /** An accepted line writes the mover's seat into exactly the chosen, previously
      empty cell, so one more cell is filled. */
  lemma AcceptedMove(st: State, s: string)
    requires |st.board| == 9 && st.phase == Playing && Legal(st.board, s)
    ensures var m := ParseMove(s).value;
            && st.board[m] == Empty
            && Turn(st, Line(s)).next.board == st.board[m := st.current]
            && Filled(Turn(st, Line(s)).next.board) == Filled(st.board) + 1
  {
    var m := ParseMove(s).value;
    CountUpdate(st.board, m, st.current, Empty);
  }

  /** On a reachable state, an accepted move ends the match with a win exactly when
      the mover now owns a line, and the mover gets `W` and the opponent the
      snapshot tagged `L` even when that move also fills the board; a draw is a
      full board without such a line; otherwise the mover gets `OK`, the opponent
      the untagged snapshot, and the turn passes to the opponent. */
  lemma LegalMoveOutcome(st: State, s: string)
    requires Inv(st) && st.phase == Playing && Legal(st.board, s)
    ensures var t := Turn(st, Line(s));
            var cur, opp := st.current, Other(st.current);
            var b := t.next.board;
            && (t.next.phase == Won <==> HasLine(b, cur))
            && (t.next.phase == Won ==>
                  t.next.current == cur && t.out == [Send(cur, W), Send(opp, Snapshot(b, L))])
            && (t.next.phase == Drawn <==> Full(b) && !HasLine(b, cur))
            && (t.next.phase == Drawn ==>
                  t.next.current == cur && t.out == [Send(cur, P), Send(opp, Snapshot(b, P))])
            && (t.next.phase == Playing <==> !Full(b) && !HasLine(b, cur))
            && (t.next.phase == Playing ==>
                  t.next.current == opp && t.out == [Send(cur, OK), Send(opp, Snapshot(b, ""))])
  {
    var m := ParseMove(s).value;
    var b := st.board[m := st.current];
    WinnerAfterMove(st.board, m, st.current);
    if HasLine(b, st.current) {
      var k :| 0 <= k < 8 && Owns(b, k, st.current);
      assert Completed(b, k);
    }
  }

  /** The win check comes first: a move that completes a line and also fills
      the board is reported as a win, not as a draw. */
  lemma WinBeforeDraw(st: State, s: string)
    requires Inv(st) && st.phase == Playing && Legal(st.board, s)
    requires var b := st.board[ParseMove(s).value := st.current];
             Full(b) && HasLine(b, st.current)
    ensures var t := Turn(st, Line(s));
            && t.next.phase == Won && Full(t.next.board)
            && t.out == [Send(st.current, W), Send(Other(st.current), Snapshot(t.next.board, L))]
  {
    AcceptedMove(st, s);
    LegalMoveOutcome(st, s);
  }

  /** Such a move exists: on this board (which satisfies the invariant with seat
      1 to move, by `LastCellStart`) cell 8 is empty, and marking it for seat 1
      fills the board and completes the diagonal 0-4-8. */
  lemma WinOnLastCell(b: seq<int>)
    requires b == [1, 2, 1, 2, 1, 2, 2, 1, 0]
    ensures b[8] == Empty && Full(b[8 := 1]) && HasLine(b[8 := 1], 1)
  {
    LastCellEnd();
    assert b[8 := 1] == [1, 2, 1, 2, 1, 2, 2, 1, 1];
  }

  /** The board before the last move satisfies the invariant with seat 1 to move. */
  lemma LastCellStart(st: State)
    requires st == State([1, 2, 1, 2, 1, 2, 2, 1, 0], 1, Playing)
    ensures Inv(st)
  {
    LastCellNoWinner();
    LastCellCounts();
    forall i | 0 <= i < 9 ensures 0 <= st.board[i] <= 2 {
      assert i == 0 || i == 1 || i == 2 || i == 3 || i == 4 || i == 5 || i == 6 || i == 7 || i == 8;
    }
  }

  lemma LastCellNoWinner()
    ensures Winner([1, 2, 1, 2, 1, 2, 2, 1, 0]) == Empty
  {
    var b := [1, 2, 1, 2, 1, 2, 2, 1, 0];
    forall k | 0 <= k < 8 ensures !Completed(b, k) {
    }
  }

  lemma LastCellCounts()
    ensures Count([1, 2, 1, 2, 1, 2, 2, 1, 0], 1) == 4
    ensures Count([1, 2, 1, 2, 1, 2, 2, 1, 0], 2) == 4
  {
    assert Count([0], 1) == 0 && Count([0], 2) == 0;
    assert Count([1, 0], 1) == 1 && Count([1, 0], 2) == 0;
    assert Count([2, 1, 0], 1) == 1 && Count([2, 1, 0], 2) == 1;
    assert Count([2, 2, 1, 0], 1) == 1 && Count([2, 2, 1, 0], 2) == 2;
    assert Count([1, 2, 2, 1, 0], 1) == 2 && Count([1, 2, 2, 1, 0], 2) == 2;
    assert Count([2, 1, 2, 2, 1, 0], 1) == 2 && Count([2, 1, 2, 2, 1, 0], 2) == 3;
    assert Count([1, 2, 1, 2, 2, 1, 0], 1) == 3 && Count([1, 2, 1, 2, 2, 1, 0], 2) == 3;
    assert Count([2, 1, 2, 1, 2, 2, 1, 0], 1) == 3 && Count([2, 1, 2, 1, 2, 2, 1, 0], 2) == 4;
  }

  lemma LastCellEnd()
    ensures Full([1, 2, 1, 2, 1, 2, 2, 1, 1]) && HasLine([1, 2, 1, 2, 1, 2, 2, 1, 1], 1)
  {
    assert Owns([1, 2, 1, 2, 1, 2, 2, 1, 1], 6, 1);
  }

  /** Every turn from a reachable state reaches a reachable state. */
  lemma TurnKeepsInv(st: State, input: Input)
    requires Inv(st) && st.phase == Playing
    ensures Inv(Turn(st, input).next)
  {
    if input.Line? && Legal(st.board, input.text) {
      TurnAccepts(st, input.text);
      AcceptKeepsInv(st, ParseMove(input.text).value);
    } else if input.Line? {
      RejectedLine(st, input.text);
    }
  }

  lemma AcceptKeepsInv(st: State, m: int)
    requires Inv(st) && st.phase == Playing && 0 <= m < 9 && st.board[m] == Empty
    ensures Inv(Accept(st, m).next)
  {
    CountUpdate(st.board, m, st.current, 1);
    CountUpdate(st.board, m, st.current, 2);
    WinnerAfterMove(st.board, m, st.current);
  }

  /** Every run from a reachable state stops in a reachable state. */
  lemma {:induction false} PlayKeepsInv(st: State, inputs: seq<Input>)
    requires Inv(st) && st.phase == Playing
    ensures Inv(Play(st, inputs).last)
    decreases |inputs|
  {
    if inputs != [] {
      TurnKeepsInv(st, inputs[0]);
      var t := Turn(st, inputs[0]);
      if t.next.phase == Playing {
        PlayKeepsInv(t.next, inputs[1..]);
      }
    }
  }

  /** From a new match, however the players play: seat 1 has never fewer marks than
      seat 2 and at most one more; a winner exists only if the match was won, and
      then it is the seat that moved last. */
  lemma Reachable(inputs: seq<Input>)
    ensures var last := Play(Initial, inputs).last;
            && 0 <= Count(last.board, 1) - Count(last.board, 2) <= 1
            && (last.phase == Won ==> Winner(last.board) == last.current && HasLine(last.board, last.current))
            && (last.phase != Won ==> Winner(last.board) == Empty)
  {
    InitialInv();
    PlayKeepsInv(Initial, inputs);
  }

  /** Because play stops at the first win and a move changes only the mover's
      cell, any winner found after a turn is the mover, so the source's test
      `winner == current.playerNumber` is the same as `winner != 0`. */
  lemma WinnerIsMover(st: State, input: Input)
    requires Inv(st) && st.phase == Playing
    ensures var t := Turn(st, input);
            Winner(t.next.board) != Empty ==> t.next.phase == Won && Winner(t.next.board) == st.current
  {
    TurnKeepsInv(st, input);
  }

  /** Once a run has ended, further input is never read. */
  lemma {:induction false} StopsAtEnd(st: State, inputs: seq<Input>, more: seq<Input>)
    requires |st.board| == 9 && st.phase == Playing
    requires Play(st, inputs).last.phase != Playing
    ensures Play(st, inputs + more) == Play(st, inputs)
    decreases |inputs|
  {
    if inputs == [] {
      // an empty run is still in play
      assert false;
    } else {
      var t := Turn(st, inputs[0]);
      var ext := inputs + more;
      assert ext[0] == inputs[0];
      assert ext[1..] == inputs[1..] + more;
      PlayCons(st, inputs);
      PlayCons(st, ext);
      if t.next.phase == Playing {
        StopsAtEnd(t.next, inputs[1..], more);
      }
    }
  }

  /** The events of one turn with the closes that follow it when it ends the match. */
  function TurnEvents(st: State, input: Input): seq<Event>
    requires |st.board| == 9 && st.phase == Playing
  {
    Events(Turn(st, input))
  }

  function Events(t: Outcome): seq<Event>
  {
    t.out + Closing(t.next)
  }

  /** What one turn tells the endpoints: an acknowledgement to the mover exactly
      when the line was accepted; a disconnect notice exactly on end of stream; and
      the endpoints it closes. */
  lemma TurnEventsSummary(st: State, input: Input)
    requires |st.board| == 9 && st.phase == Playing
    ensures var evs := TurnEvents(st, input);
            && Movers(evs) == (if input.Line? && Legal(st.board, input.text) then [st.current] else [])
            && Notices(evs) == (if input.Eof? then 1 else 0)
            && Closed(evs) == (if input.Eof? then [Other(st.current)]
                               else if Turn(st, input).next.phase == Playing then []
                               else [st.current, Other(st.current)])
  {
    if input.Eof? {
      EofEvents(st);
    } else if !Legal(st.board, input.text) {
      RejectedEvents(st, input.text);
    } else {
      AcceptedEvents(st, input.text);
    }
  }

  lemma EofEvents(st: State)
    requires |st.board| == 9 && st.phase == Playing
    ensures var evs := TurnEvents(st, Eof);
            && Movers(evs) == [] && Notices(evs) == 1 && Closed(evs) == [Other(st.current)]
  {
    var opp := Other(st.current);
    assert TurnEvents(st, Eof) == [Send(opp, DISCONNECTED), Close(opp)];
    FiltersPair(Send(opp, DISCONNECTED), Close(opp));
    FiltersSingle(Send(opp, DISCONNECTED));
    FiltersSingle(Close(opp));
  }

  lemma RejectedEvents(st: State, s: string)
    requires |st.board| == 9 && st.phase == Playing && !Legal(st.board, s)
    ensures var evs := TurnEvents(st, Line(s));
            && Movers(evs) == [] && Notices(evs) == 0 && Closed(evs) == []
  {
    RejectedLine(st, s);
    assert Closing(st) == [];
    assert TurnEvents(st, Line(s)) == [Send(st.current, KO)] + [];
    FiltersSingle(Send(st.current, KO));
    FiltersAppend([Send(st.current, KO)], []);
  }

  lemma AcceptedEvents(st: State, s: string)
    requires |st.board| == 9 && st.phase == Playing && Legal(st.board, s)
    ensures var evs := TurnEvents(st, Line(s));
            && Movers(evs) == [st.current] && Notices(evs) == 0
            && Closed(evs) == (if Turn(st, Line(s)).next.phase == Playing then []
                               else [st.current, Other(st.current)])
  {
    TurnAccepts(st, s);
    AcceptEvents(st, ParseMove(s).value);
  }

  lemma AcceptEvents(st: State, m: int)
    requires |st.board| == 9 && 0 <= m < 9
    ensures var t := Accept(st, m);
            && Movers(Events(t)) == [st.current] && Notices(Events(t)) == 0
            && Closed(Events(t)) == (if t.next.phase == Playing then [] else [st.current, Other(st.current)])
  {
    var cur := st.current;
    var t := Accept(st, m);
    RepliesEvents(cur, t.next.board, t.next.phase);
    ClosesEvents(cur);
    FiltersAppend(t.out, Closing(t.next));
    if t.next.phase == Playing {
      assert Closing(t.next) == [];
    } else {
      assert Closing(t.next) == [Close(cur), Close(Other(cur))];
    }
  }

  /** A legal line is handled by `Accept`. */
  lemma TurnAccepts(st: State, s: string)
    requires |st.board| == 9 && st.phase == Playing && Legal(st.board, s)
    ensures Turn(st, Line(s)) == Accept(st, ParseMove(s).value)
  {
  }

  lemma RepliesEvents(mover: Seat, b: seq<int>, ph: Phase)
    requires |b| == 9
    ensures Movers(Replies(mover, b, ph)) == [mover]
    ensures Notices(Replies(mover, b, ph)) == 0 && Closed(Replies(mover, b, ph)) == []
  {
    var ack, snap := Send(mover, AckText(ph)), Send(Other(mover), Snapshot(b, TagText(ph)));
    AckIsAck(mover, ph);
    SnapshotIsNotAck(Other(mover), b, TagText(ph));
    FiltersPair(ack, snap);
    FiltersSingle(ack);
    FiltersSingle(snap);
  }

  lemma ClosesEvents(mover: Seat)
    ensures Movers([Close(mover), Close(Other(mover))]) == []
    ensures Notices([Close(mover), Close(Other(mover))]) == 0
    ensures Closed([Close(mover), Close(Other(mover))]) == [mover, Other(mover)]
  {
    FiltersPair(Close(mover), Close(Other(mover)));
    FiltersSingle(Close(mover));
    FiltersSingle(Close(Other(mover)));
  }

  lemma AckIsAck(mover: Seat, ph: Phase)
    ensures IsAck(Send(mover, AckText(ph))) && AckText(ph) != DISCONNECTED
  {
  }

  /** A snapshot is longer than any fixed reply, so it is never taken for one. */
  lemma SnapshotIsNotAck(to: Seat, b: seq<int>, tag: string)
    requires |b| == 9
    ensures !IsAck(Send(to, Snapshot(b, tag))) && Snapshot(b, tag) != DISCONNECTED
  {
    assert |Snapshot(b, tag)| >= 18;
  }

  /** Every accepted move is acknowledged to its mover once, and every
      acknowledgement is of an accepted move: the acknowledgements of a run
      are exactly the cells it filled. */
  lemma {:induction false} AcksAreFilledCells(st: State, inputs: seq<Input>)
    requires |st.board| == 9 && st.phase == Playing
    ensures |Movers(Play(st, inputs).trace)| == Filled(Play(st, inputs).last.board) - Filled(st.board)
    decreases |inputs|
  {
    if inputs != [] {
      var t := Turn(st, inputs[0]);
      var evs := TurnEvents(st, inputs[0]);
      PlayCons(st, inputs);
      TurnEventsSummary(st, inputs[0]);
      if inputs[0].Eof? {
        EofTurn(st);
      } else if Legal(st.board, inputs[0].text) {
        AcceptedMove(st, inputs[0].text);
      } else {
        RejectedLine(st, inputs[0].text);
      }
      if t.next.phase == Playing {
        AcksAreFilledCells(t.next, inputs[1..]);
        FiltersAppend(evs, Play(t.next, inputs[1..]).trace);
      }
    } else {
      assert Play(st, inputs) == Run(st, []);
    }
  }

  /** At most nine moves are ever accepted in a match. */
  lemma AtMostNineMoves(inputs: seq<Input>)
    ensures |Movers(Play(Initial, inputs).trace)| <= 9
  {
    AcksAreFilledCells(Initial, inputs);
    assert Count(Initial.board, Empty) == 9;
  }

  /** The seats of accepted moves alternate, starting with the seat to move. */
  lemma {:induction false} MoversAlternate(st: State, inputs: seq<Input>)
    requires |st.board| == 9 && st.phase == Playing
    ensures Alternates(Movers(Play(st, inputs).trace), st.current)
    decreases |inputs|
  {
    if inputs != [] {
      var t := Turn(st, inputs[0]);
      var evs := TurnEvents(st, inputs[0]);
      PlayCons(st, inputs);
      TurnEventsSummary(st, inputs[0]);
      TurnPasses(st, inputs[0]);
      if t.next.phase == Playing {
        var rest := Play(t.next, inputs[1..]).trace;
        MoversAlternate(t.next, inputs[1..]);
        FiltersAppend(evs, rest);
        AlternatesCons(Movers(evs), Movers(rest), st.current, t.next.current);
      } else {
        AlternatesShort(Movers(evs), st.current);
      }
    } else {
      assert Play(st, inputs) == Run(st, []);
    }
  }

  /** The seats in m take turns, m[0] being `first`. */
  predicate Alternates(m: seq<Seat>, first: Seat)
  {
    forall k :: 0 <= k < |m| ==> m[k] == if k % 2 == 0 then first else Other(first)
  }

  lemma AlternatesShort(m: seq<Seat>, first: Seat)
    requires m == [] || m == [first]
    ensures Alternates(m, first)
  {
  }

  lemma AlternatesCons(head: seq<Seat>, rest: seq<Seat>, first: Seat, next: Seat)
    requires (head == [] && next == first) || (head == [first] && next == Other(first))
    requires Alternates(rest, next)
    ensures Alternates(head + rest, first)
  {
    if head != [] {
      forall k | 0 < k < |head + rest|
        ensures (head + rest)[k] == if k % 2 == 0 then first else Other(first)
      {
        assert (head + rest)[k] == rest[k - 1];
      }
    } else {
      assert head + rest == rest;
    }
  }

  /** Turn order from a new match: seat 1 moves first, then the seats alternate. */
  lemma TurnOrder(inputs: seq<Input>)
    ensures var m := Movers(Play(Initial, inputs).trace);
            forall k :: 0 <= k < |m| ==> m[k] == if k % 2 == 0 then 1 else 2
  {
    MoversAlternate(Initial, inputs);
  }

  /** How a run ends for the endpoints (see `EndsAs`). */
  lemma {:induction false} Endings(st: State, inputs: seq<Input>)
    requires |st.board| == 9 && st.phase == Playing
    ensures EndsAs(Play(st, inputs).trace, Play(st, inputs).last)
    decreases |inputs|
  {
    if inputs != [] {
      var t := Turn(st, inputs[0]);
      var evs := TurnEvents(st, inputs[0]);
      PlayCons(st, inputs);
      TurnEventsSummary(st, inputs[0]);
      TurnPasses(st, inputs[0]);
      if t.next.phase == Playing {
        var r := Play(t.next, inputs[1..]);
        Endings(t.next, inputs[1..]);
        EndsAsCons(evs, r.trace, r.last);
      } else if t.next.phase == Disconnected {
        EofTurn(st);
        assert evs[|evs| - 2..] == evs;
      }
    } else {
      assert Play(st, inputs) == Run(st, []);
    }
  }

  /** A disconnect sends exactly one notice, to the player who did not
      disconnect, as the second-to-last event, and closes only that player's
      endpoint; a win or a draw sends no notice and closes the mover's endpoint,
      then the opponent's; a run still in play has closed nothing. */
  predicate EndsAs(trace: seq<Event>, last: State)
  {
    var cur, opp := last.current, Other(last.current);
    && Notices(trace) == (if last.phase == Disconnected then 1 else 0)
    && Closed(trace) == (if last.phase == Playing then []
                         else if last.phase == Disconnected then [opp]
                         else [cur, opp])
    && (last.phase == Disconnected ==>
          |trace| >= 2 && trace[|trace| - 2..] == [Send(opp, DISCONNECTED), Close(opp)])
  }

  lemma EndsAsCons(evs: seq<Event>, rest: seq<Event>, last: State)
    requires Notices(evs) == 0 && Closed(evs) == [] && EndsAs(rest, last)
    ensures EndsAs(evs + rest, last)
  {
    FiltersAppend(evs, rest);
    if last.phase == Disconnected {
      LastTwoOfAppend(evs, rest);
    }
  }

  /** End of stream: the survivor is notified, then closed. */
  lemma EofTurn(st: State)
    requires |st.board| == 9 && st.phase == Playing
    ensures Turn(st, Eof).next == st.(phase := Disconnected)
    ensures TurnEvents(st, Eof) == [Send(Other(st.current), DISCONNECTED), Close(Other(st.current))]
  {
    assert Closing(st.(phase := Disconnected)) == [];
  }

  lemma LastTwoOfAppend<T>(a: seq<T>, b: seq<T>)
    requires |b| >= 2
    ensures (a + b)[|a + b| - 2..] == b[|b| - 2..]
  {
    assert (a + b)[|a + b| - 2..] == [b[|b| - 2], b[|b| - 1]];
  }

  /** One step of the loop: a run is its first turn's events followed by the run
      from the state that turn reached, unless that turn ended the match. */
  lemma PlayCons(st: State, inputs: seq<Input>)
    requires |st.board| == 9 && st.phase == Playing && inputs != []
    ensures var t := Turn(st, inputs[0]);
            && (t.next.phase == Playing ==>
                  && Play(st, inputs).last == Play(t.next, inputs[1..]).last
                  && Play(st, inputs).trace == TurnEvents(st, inputs[0]) + Play(t.next, inputs[1..]).trace)
            && (t.next.phase != Playing ==> Play(st, inputs) == Run(t.next, TurnEvents(st, inputs[0])))
  {
    var t := Turn(st, inputs[0]);
    assert TurnEvents(st, inputs[0]) == t.out + Closing(t.next);
    if t.next.phase == Playing {
      var r := Play(t.next, inputs[1..]);
      assert Play(st, inputs) == Run(r.last, t.out + r.trace);
      assert Closing(t.next) == [];
      assert t.out + [] == t.out;
    } else {
      assert Play(st, inputs) == Run(t.next, t.out + Closing(t.next));
    }
  }

  /** The turn passes to the opponent exactly on an accepted move that does not
      end the match; a turn that ends the match leaves the mover as `current`. */
  lemma TurnPasses(st: State, input: Input)
    requires |st.board| == 9 && st.phase == Playing
    ensures var t := Turn(st, input);
            && (t.next.phase == Playing ==>
                  t.next.current == if input.Line? && Legal(st.board, input.text) then Other(st.current) else st.current)
            && (t.next.phase != Playing ==> t.next.current == st.current)
            && (input.Eof? <==> t.next.phase == Disconnected)
  {
  }
}
