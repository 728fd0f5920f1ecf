/** The 3x3 board both servers keep: nine `int` cells in row-major order,
    0 for an empty cell and the seat number (1 or 2) of the player who marked it,
    with the read-only scans `checkWinner` and `checkDraw`. */
module Board {

  /** A player's seat within one match: 1 for the first to connect, 2 for the second. */
  type Seat = s: int | s == 1 || s == 2 witness 1

  const Empty: int := 0

  /** The seat that is not `s`. */
  function Other(s: Seat): (o: Seat)
    ensures o != s
  {
    3 - s
  }

  /** The k-th of the eight winning lines, in the order `checkWinner` scans them:
      the three rows, the three columns, then the two diagonals. */
  function WinLine(k: int): (l: (int, int, int))
    requires 0 <= k < 8
    ensures 0 <= l.0 < 9 && 0 <= l.1 < 9 && 0 <= l.2 < 9
  {
    match k
    case 0 => (0, 1, 2)
    case 1 => (3, 4, 5)
    case 2 => (6, 7, 8)
    case 3 => (0, 3, 6)
    case 4 => (1, 4, 7)
    case 5 => (2, 5, 8)
    case 6 => (0, 4, 8)
    case _ => (2, 4, 6)
  }

  /** All three cells of line k hold the value v. */
  predicate Owns(b: seq<int>, k: int, v: int)
    requires |b| == 9 && 0 <= k < 8
  {
    var (x, y, z) := WinLine(k);
    b[x] == v && b[y] == v && b[z] == v
  }

  /** Line k is completed: its three cells hold one and the same non-empty value. */
  predicate Completed(b: seq<int>, k: int)
    requires |b| == 9 && 0 <= k < 8
  {
    var (x, y, z) := WinLine(k);
    b[x] != Empty && Owns(b, k, b[x])
  }

  /** Some winning line is entirely marked v. */
  predicate HasLine(b: seq<int>, v: int)
    requires |b| == 9
  {
    exists k :: 0 <= k < 8 && Owns(b, k, v)
  }

  /** The scan of `checkWinner` from line k on: the value of the first completed line, else 0. */
  function WinnerFrom(b: seq<int>, k: int): (r: int)
    requires |b| == 9 && 0 <= k <= 8
    ensures r != Empty ==> exists j :: k <= j < 8 && Owns(b, j, r)
    ensures r == Empty <==> forall j :: k <= j < 8 ==> !Completed(b, j)
    decreases 8 - k
  {
    if k == 8 then Empty
    else
      var (x, y, z) := WinLine(k);
      if b[x] != Empty && b[x] == b[y] && b[y] == b[z] then
        assert Owns(b, k, b[x]) && Completed(b, k);
        b[x]
      else
        WinnerFrom(b, k + 1)
  }

  /** `checkWinner`: a non-empty result is the mark of a completed line, and the
      result is empty exactly when no line is completed. */
  function Winner(b: seq<int>): (r: int)
    requires |b| == 9
    ensures r != Empty ==> HasLine(b, r)
    ensures r == Empty <==> forall k :: 0 <= k < 8 ==> !Completed(b, k)
  {
    WinnerFrom(b, 0)
  }

  /** The scan of `checkDraw` from cell i on. */
  function FullFrom(b: seq<int>, i: int): (r: bool)
    requires 0 <= i <= |b|
    ensures r <==> forall j :: i <= j < |b| ==> b[j] != Empty
    decreases |b| - i
  {
    if i == |b| then true
    else if b[i] == Empty then false
    else FullFrom(b, i + 1)
  }

  /** `checkDraw`: true exactly when no cell is empty. */
  function Full(b: seq<int>): (r: bool)
    ensures r <==> forall j :: 0 <= j < |b| ==> b[j] != Empty
  {
    FullFrom(b, 0)
  }

  /** A board on which some mark owns a line has a winner. */
  lemma LineMakesWinner(b: seq<int>, v: int)
    requires |b| == 9 && v != Empty
    ensures HasLine(b, v) ==> Winner(b) != Empty
  {
    if HasLine(b, v) {
      var k :| 0 <= k < 8 && Owns(b, k, v);
      assert Completed(b, k);
    }
  }

  /** How many cells hold v. */
  function Count(b: seq<int>, v: int): (n: nat)
    ensures n <= |b|
  {
    if b == [] then 0 else (if b[0] == v then 1 else 0) + Count(b[1..], v)
  }

  /** The number of marked cells. */
  function Filled(b: seq<int>): (n: nat)
  {
    |b| - Count(b, Empty)
  }

  /** Overwriting one cell moves one unit of count from its old value to its new one. */
  lemma {:induction false} CountUpdate(b: seq<int>, m: int, w: int, v: int)
    requires 0 <= m < |b|
    ensures Count(b[m := w], v)
            == Count(b, v) - (if b[m] == v then 1 else 0) + (if w == v then 1 else 0)
  {
    if m == 0 {
      assert b[m := w][1..] == b[1..];
    } else {
      assert b[m := w][1..] == b[1..][m - 1 := w];
      CountUpdate(b[1..], m - 1, w, v);
    }
  }

  /** No cell holds v: the count of v is zero. */
  lemma {:induction false} CountAbsent(b: seq<int>, v: int)
    requires forall i :: 0 <= i < |b| ==> b[i] != v
    ensures Count(b, v) == 0
  {
    if b != [] {
      assert forall i :: 0 <= i < |b[1..]| ==> b[1..][i] == b[i + 1];
      CountAbsent(b[1..], v);
    }
  }

  /** Marking an empty cell of a board without a winner can only complete lines of
      the new mark: after the move the winner is empty or the mover. */
  lemma WinnerAfterMove(b: seq<int>, m: int, v: Seat)
    requires |b| == 9 && 0 <= m < 9 && b[m] == Empty && Winner(b) == Empty
    ensures Winner(b[m := v]) == Empty || Winner(b[m := v]) == v
  {
    var b' := b[m := v];
    var w := Winner(b');
    if w != Empty {
      var k :| 0 <= k < 8 && Owns(b', k, w);
      var (x, y, z) := WinLine(k);
      assert !Completed(b, k);
      assert m == x || m == y || m == z;
    }
  }
}
