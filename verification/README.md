# Tic-tac-toe match server, modelled in Dafny

This project models the match logic of a two-player tic-tac-toe server written in Java. The server has two entry points: `GameSession`, whose `run` plays one match between two connected players, and `TicTacToeServer`, whose `start` accepts two players and then plays one match. Both share the same `runGame` loop, which works as follows:

- Seat 1 moves first.
- Each line from the current player is trimmed and parsed as an `int`. A line that does not parse, is outside `0..8`, or names an occupied cell gets `KO`, and the same player moves again.
- A legal move writes the mover's seat into the cell. Then the win check runs before the draw check:
  - On a win, the mover gets `W` and the opponent gets the board snapshot tagged `L`.
  - On a draw, the mover gets `P` and the opponent gets the snapshot tagged `P`.
  - Otherwise, the mover gets `OK`, the opponent gets the untagged snapshot, and the turn passes.
- After a win or a draw, both endpoints are closed, the mover's first.
- End of stream, or a read error, from the current player sends `DISCONNECTED` to the opponent and closes the opponent's endpoint only.
- A snapshot is every cell in decimal followed by a comma, then the tag. For example, an empty board tagged `L` is `0,0,0,0,0,0,0,0,0,L`.

The project has six files:

- `board.dfy` (module `Board`): the nine-cell board and the functions that state what `checkWinner` and `checkDraw` compute.
- `wire.dfy` (module `Wire`): the text on the wire, meaning the fixed replies, `Integer.parseInt(line.trim())`, and the snapshot text.
- `protocol.dfy` (module `Protocol`): the loop stated on values.
  - `Turn` is one pass of the loop body and `Play` is the whole loop.
  - A match's input is the sequence of `Line(text)` or `Eof` items the loop reads, each from the player to move at that point. A player's own stream is the sub-sequence read from that player.
  - What the server does is a trace of `Send(seat, text)` and `Close(seat)` events.
  - The lemmas state what the loop guarantees.
- `game.dfy` (module `Game`): class `Match`, the imperative code over an `int` array of nine cells. Both server classes hold one `Match`, because their `runGame`, `checkWinner`, `checkDraw` and `sendBoardUpdate` are identical copies. Each of its methods is proved equal to the value model. So the rows below that cite `GameSession.java` also cover the copies in `TicTacToeServer.java`:
  - `runGame`: lines 50-112;
  - `handleDisconnect`: lines 114-118;
  - `checkWinner`: lines 120-134;
  - `checkDraw`: lines 136-141;
  - `PlayerHandler.sendBoardUpdate`: lines 172-180.
- `session.dfy` (module `Session`): class `GameSession` with `run`.
- `server.dfy` (module `Server`): class `TicTacToeServer` with `start`.
  - The boolean parameters `firstJoins` and `secondJoins` say whether each player's join succeeds. A join fails when `accept` throws `IOException`, or when `new PlayerHandler(...)` throws it (`TicTacToeServer.java:26-28` and `32-34`). Both failures have the same outcome.

`handleDisconnect` sends `DISCONNECTED` to the survivor and closes only the survivor's endpoint. The endpoint of the player whose stream ended is left open (`GameSession.java:98-101`, `TicTacToeServer.java:114-118`).

## Model

| member | source | states |
|---|---|---|
| Board.Winner | tris_demo/src/main/java/ahnx33/tris/GameSession.java:103-117 | a non-zero result is the mark of some completed line, and the result is 0 exactly when no line is completed |
| Board.Full | tris_demo/src/main/java/ahnx33/tris/GameSession.java:119-125 | true exactly when no cell is 0 |
| Board.WinnerAfterMove | tris_demo/src/main/java/ahnx33/tris/GameSession.java:61-67 | marking an empty cell of a board that has no winner leaves no winner or makes the mover the winner |
| Wire.Trim | tris_demo/src/main/java/ahnx33/tris/GameSession.java:47 | `line.trim()` is the slice of the line that starts at its first character above U+0020. Every character outside the slice is at most U+0020, and the slice neither starts nor ends with such a character |
| Wire.ParseInt | tris_demo/src/main/java/ahnx33/tris/GameSession.java:47 | `Integer.parseInt` accepts only an optional sign followed by digits, yields a negative value only after `-`, and stays in the `int` range |
| Wire.ParseMove | tris_demo/src/main/java/ahnx33/tris/GameSession.java:45-52 | a move is read only from a line made of spaces, digits and signs that holds at least one digit, and it is an `int` |
| Wire.Decimal | tris_demo/src/main/java/ahnx33/tris/GameSession.java:130 | `append(int)` writes a minus sign exactly for a negative number, then digits that read back as its magnitude; a cell from 0 to 9 is one digit |
| Wire.Snapshot | tris_demo/src/main/java/ahnx33/tris/GameSession.java:127-135 | the snapshot takes at least two characters per cell and ends with the tag, right after the comma of the last cell |
| Wire.TrimPadded | tris_demo/src/main/java/ahnx33/tris/GameSession.java:47 | `trim` removes exactly the characters up to U+0020 around a text that neither starts nor ends with one |
| Wire.ParseDecimal | tris_demo/src/main/java/ahnx33/tris/GameSession.java:47 | every `int` written in decimal parses back to itself |
| Wire.ParseMovePadded | tris_demo/src/main/java/ahnx33/tris/GameSession.java:45-52 | a move line holding a decimal `int` with any spaces around it is read as that number |
| Wire.ParseIntNumeral | tris_demo/src/main/java/ahnx33/tris/GameSession.java:47 | an optional `+` or `-` followed by at least one digit parses to its signed value when that is an `int` and fails otherwise; so `+4` and `04` read 4 and `-0` reads 0 |
| Wire.ParseIntSplits | tris_demo/src/main/java/ahnx33/tris/GameSession.java:47 | every text that parses is an optional sign followed by at least one digit, and the value is theirs |
| Wire.ParseMoveNumeral | tris_demo/src/main/java/ahnx33/tris/GameSession.java:45-52 | a line of spaces, an optional sign, at least one digit and spaces names their signed value when it is an `int`, and no move otherwise |
| Wire.ParseMoveSplits | tris_demo/src/main/java/ahnx33/tris/GameSession.java:45-52 | every line that names a move is spaces, an optional sign, at least one digit and spaces, and the move is their value; so `4 5` and `1-2` name no move |
| Wire.SnapshotAt | tris_demo/src/main/java/ahnx33/tris/GameSession.java:127-135 | a snapshot of one-digit cells has length 2·9 plus the tag length, cell i's digit at 2i, a comma at 2i+1, and the tag last |
| Wire.SnapshotInjective | tris_demo/src/main/java/ahnx33/tris/GameSession.java:127-135 | two snapshots of equally long boards of one-digit cells are equal exactly when the boards and the tags are |
| Wire.SnapshotEmptyBoard | tris_demo/src/main/java/ahnx33/tris/GameSession.java:127-135 | the empty board tagged `L` is `0,0,0,0,0,0,0,0,0,L` |
| Protocol.Turn | tris_demo/src/main/java/ahnx33/tris/GameSession.java:37-91 | one loop pass keeps nine cells and never changes a marked cell |
| Protocol.Accept | tris_demo/src/main/java/ahnx33/tris/GameSession.java:60-84 | an accepted move writes the mover's seat into the cell and never disconnects. The turn passes exactly when play goes on. There are exactly two replies: the verdict to the mover, and to the opponent the snapshot of the new board tagged with the verdict |
| Protocol.Verdict | tris_demo/src/main/java/ahnx33/tris/GameSession.java:63-74 | a win means the mover owns a line, a draw means a full board, and play goes on only with an empty cell. When the mover owns a line and no other seat does, it is a win, on a full board as on any other, because the win check comes first |
| Protocol.Closing | tris_demo/src/main/java/ahnx33/tris/GameSession.java:93-95 | endpoints are closed only after a win or a draw, and then both, the mover's first |
| Protocol.Play | tris_demo/src/main/java/ahnx33/tris/GameSession.java:32-96 | the `while (!gameOver)` loop keeps nine cells and never changes a cell that was marked when it started |
| Protocol.InitialInv | tris_demo/src/main/java/ahnx33/tris/GameSession.java:11-15 | a new match (all cells 0, seat 1 to move) satisfies the reachability invariant |
| Protocol.RejectedLine | tris_demo/src/main/java/ahnx33/tris/GameSession.java:45-58 | a line is not a number, outside 0..8 or an occupied cell exactly when the turn answers a single `KO` to the mover and leaves board and turn unchanged; an accepted line changes the board |
| Protocol.RejectedRepeat | tris_demo/src/main/java/ahnx33/tris/GameSession.java:48-58 | sending a rejected line n times yields n `KO`s and the same state |
| Protocol.AcceptedMove | tris_demo/src/main/java/ahnx33/tris/GameSession.java:60-61 | an accepted move writes the mover's seat into exactly the chosen, previously empty cell; one more cell is filled |
| Protocol.LegalMoveOutcome | tris_demo/src/main/java/ahnx33/tris/GameSession.java:63-84 | win iff the mover owns a line (`W` to the mover, snapshot tagged `L` to the opponent); draw iff the board is full with no such line (`P`, `P`); otherwise `OK`, the untagged snapshot, and the turn passes |
| Protocol.WinBeforeDraw | tris_demo/src/main/java/ahnx33/tris/GameSession.java:67-74 | a move that completes a line and fills the board is reported as a win, never as a draw |
| Protocol.WinOnLastCell | tris_demo/src/main/java/ahnx33/tris/GameSession.java:67-74 | a concrete board where marking the last empty cell both fills the board and completes a line |
| Protocol.LastCellStart | tris_demo/src/main/java/ahnx33/tris/GameSession.java:32-35 | that board, with seat 1 to move, satisfies the reachability invariant |
| Protocol.TurnKeepsInv | tris_demo/src/main/java/ahnx33/tris/GameSession.java:37-91 | every turn preserves the invariant: cells in 0..2, mark counts balanced, a winner only in a won match and equal to its last mover, a drawn board full |
| Protocol.PlayKeepsInv | tris_demo/src/main/java/ahnx33/tris/GameSession.java:37-91 | the whole loop preserves the invariant |
| Protocol.Reachable | tris_demo/src/main/java/ahnx33/tris/GameSession.java:32-96 | from a new match, seat 1 has as many marks as seat 2 or one more, and a winner exists only after a win, equal to the last mover |
| Protocol.WinnerIsMover | tris_demo/src/main/java/ahnx33/tris/GameSession.java:64-67 | after any turn from a reachable state, a non-zero winner is the mover and the match is won, so `winner == current.playerNumber` equals `winner != 0` |
| Protocol.StopsAtEnd | tris_demo/src/main/java/ahnx33/tris/GameSession.java:37-43 | once the loop has ended, further input changes nothing |
| Protocol.TurnEventsSummary | tris_demo/src/main/java/ahnx33/tris/GameSession.java:37-95 | a turn acknowledges its mover exactly when the line is accepted, sends `DISCONNECTED` exactly on end of stream, and closes the survivor on end of stream, both endpoints on a win or draw, nothing otherwise |
| Protocol.AcksAreFilledCells | tris_demo/src/main/java/ahnx33/tris/GameSession.java:61-78 | the number of acknowledgements in a run equals the number of cells the run filled |
| Protocol.AtMostNineMoves | tris_demo/src/main/java/ahnx33/tris/GameSession.java:32-96 | a match accepts at most nine moves |
| Protocol.MoversAlternate | tris_demo/src/main/java/ahnx33/tris/GameSession.java:80-83 | the seats of accepted moves alternate, starting with the seat to move |
| Protocol.TurnOrder | tris_demo/src/main/java/ahnx33/tris/GameSession.java:33-34 | from a new match, accepted moves are by seat 1, 2, 1, 2, … |
| Protocol.Endings | tris_demo/src/main/java/ahnx33/tris/GameSession.java:37-101 | a disconnect sends exactly one `DISCONNECTED`, to the survivor, second to last, and closes only the survivor; a win or draw sends none and closes the mover then the opponent; a run still in play closes nothing |
| Protocol.EofTurn | tris_demo/src/main/java/ahnx33/tris/GameSession.java:98-101 | end of stream sends `DISCONNECTED` to the opponent and closes the opponent, and stops the match |
| Protocol.TurnPasses | tris_demo/src/main/java/ahnx33/tris/GameSession.java:67-84 | the turn passes exactly on an accepted move that does not end the match; a finished match keeps the last mover as `current`; end of stream is exactly the disconnected ending |
| Game.Match.constructor | tris_demo/src/main/java/ahnx33/tris/GameSession.java:11-15 | a new board has nine cells, all 0 |
| Game.Match.CheckWinner | tris_demo/src/main/java/ahnx33/tris/GameSession.java:103-117 | the scan returns `Winner` of the array, a mark that owns a line when non-zero |
| Game.Match.CheckDraw | tris_demo/src/main/java/ahnx33/tris/GameSession.java:119-125 | true exactly when no cell of the array is 0 |
| Game.Match.SendBoardUpdate | tris_demo/src/main/java/ahnx33/tris/GameSession.java:127-135 | the `StringBuilder` loop sends exactly `Snapshot` of the array with the tag |
| Game.Match.PlayTurn | tris_demo/src/main/java/ahnx33/tris/GameSession.java:38-90 | the loop body on the array has exactly the outcome of `Turn` |
| Game.Match.Mark | tris_demo/src/main/java/ahnx33/tris/GameSession.java:60-84 | the write, `checkWinner`, `checkDraw` and the replies have exactly the outcome of `Accept` |
| Game.Match.RunGame | tris_demo/src/main/java/ahnx33/tris/GameSession.java:32-96 | the loop sends exactly the trace of `Play` from seat 1 and leaves its final board in the array |
| Session.GameSession.constructor | tris_demo/src/main/java/ahnx33/tris/GameSession.java:11-15 | a session starts with an empty board |
| Session.GameSession.Run | tris_demo/src/main/java/ahnx33/tris/GameSession.java:17-30 | `READY` to seat 1, then to seat 2, then the trace of `Play` from seat 1 |
| Session.NewSession | tris_demo/src/main/java/ahnx33/tris/GameSession.java:11-30 | a new session sends the two `READY`s, then plays from the empty board |
| Server.TicTacToeServer.constructor | tris_demo/src/main/java/ahnx33/tris/TicTacToeServer.java:17-20 | a server starts with an empty board |
| Server.TicTacToeServer.Start | tris_demo/src/main/java/ahnx33/tris/TicTacToeServer.java:22-48 | if the first accept fails, nothing is sent; if the second fails, only `WAIT` to seat 1; otherwise `WAIT` to seat 1, `READY` to seat 1, `READY` to seat 2, then the trace of `Play` from seat 1 |
| Server.ServeOneMatch | tris_demo/src/main/java/ahnx33/tris/TicTacToeServer.java:22-41 | a new server whose two players connect sends `WAIT`, `READY`, `READY`, then plays from the empty board |

## Left out

- `Main.java`: a separate socket demo with lowercase `wait`/`ready` and an empty infinite loop. It holds no match logic.
- `PlayerHandler.java` and the inner `PlayerHandler` class (`sendMessage`, `readMessage`, `close`): thin wrappers over sockets and streams. The lines the loop reads are a sequence of `Input`s, each from the player to move. What is sent and closed is a sequence of `Event`s.
- `stop()` and the server socket: closing the listening socket, which `TicTacToeServer.handleDisconnect` and `start`'s `finally` do, has no effect on the match and is not modelled.
- Threads (`Runnable`) and the code that pairs players into sessions: concurrency, and the pairing code is not part of this model.
- Logging to `System.out` and `System.err`.
- An `IOException` from `readLine` is handled exactly like end of stream, so both are the single input `Eof`.
- When a player's input runs out without end of stream, the Java code blocks in `readLine`. `Play` then stops with the match still in play.
- Wire.ParseInt: reads ASCII digits only. Java's `Integer.parseInt` also accepts other Unicode decimal digits, and such a line would be accepted as a move by the Java code.
- GameSession's constructor: the two handlers are taken to carry `playerNumber` 1 and 2, in that order, as `TicTacToeServer` assigns them. Other numbers are not modelled.
- Output errors: a `PrintWriter` swallows write errors, so every send is assumed to reach the event trace.
