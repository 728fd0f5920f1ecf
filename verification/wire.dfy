/** The text on the wire: the fixed server messages, the client's move line as
    `Integer.parseInt(line.trim())` reads it, and the board snapshot built by
    `sendBoardUpdate`. */
module Wire {

  datatype Option<T> = None | Some(value: T)

  const WAIT: string := "WAIT"
  const READY: string := "READY"
  const OK: string := "OK"
  const KO: string := "KO"
  const W: string := "W"
  const P: string := "P"
  const L: string := "L"
  const DISCONNECTED: string := "DISCONNECTED"

  /** The range of a Java `int`. */
  const MinInt: int := -0x8000_0000
  const MaxInt: int := 0x7fff_ffff

  /** `String.trim` removes every leading and trailing character up to U+0020. */
  predicate IsSpace(c: char) { c <= ' ' }

  predicate AllSpace(s: string) { forall i :: 0 <= i < |s| ==> IsSpace(s[i]) }

  /** The index of the first character at or after `from` that is not a space
      (`|s|` when there is none). */
  function FirstNonSpace(s: string, from: nat): (n: nat)
    requires from <= |s|
    ensures from <= n <= |s|
    ensures forall i :: from <= i < n ==> IsSpace(s[i])
    ensures n < |s| ==> !IsSpace(s[n])
    decreases |s| - from
  {
    if from < |s| && IsSpace(s[from]) then FirstNonSpace(s, from + 1) else from
  }

  /** The end of `s[lo..hi]` once its trailing spaces are dropped. */
  function EndNonSpace(s: string, lo: nat, hi: nat): (e: nat)
    requires lo <= hi <= |s|
    ensures lo <= e <= hi
    ensures forall i :: e <= i < hi ==> IsSpace(s[i])
    ensures e == lo || !IsSpace(s[e - 1])
    decreases hi
  {
    if lo < hi && IsSpace(s[hi - 1]) then EndNonSpace(s, lo, hi - 1) else hi
  }

  /** `String.trim`: the result is the slice of `s` that starts at its first
      non-space; every character of `s` outside the slice is a space, and the
      slice neither starts nor ends with one. */
  function Trim(s: string): (r: string)
    ensures FirstNonSpace(s, 0) + |r| <= |s|
    ensures r == s[FirstNonSpace(s, 0)..FirstNonSpace(s, 0) + |r|]
    ensures forall i :: 0 <= i < |s| && !(FirstNonSpace(s, 0) <= i < FirstNonSpace(s, 0) + |r|) ==> IsSpace(s[i])
    ensures r == [] || (!IsSpace(r[0]) && !IsSpace(r[|r| - 1]))
  {
    var a := FirstNonSpace(s, 0);
    var e := EndNonSpace(s, a, |s|);
    s[a..e]
  }

  predicate IsDigit(c: char) { '0' <= c <= '9' }

  predicate AllDigits(s: string) { forall i :: 0 <= i < |s| ==> IsDigit(s[i]) }

  function DigitValue(c: char): (d: int)
    requires IsDigit(c)
  {
    c as int - '0' as int
  }

  /** The value of a string of decimal digits, most significant first. */
  function DigitsValue(s: string): (n: nat)
    requires AllDigits(s)
  {
    if s == [] then 0 else DigitsValue(s[..|s| - 1]) * 10 + DigitValue(s[|s| - 1])
  }

  /** `Integer.parseInt` on ASCII text: an optional `+` or `-`, then at least one
      digit, with a value inside the `int` range; anything else is the
      `NumberFormatException` branch, here `None`. */
  function ParseInt(s: string): (r: Option<int>)
    ensures r.Some? ==> MinInt <= r.value <= MaxInt
    ensures r.Some? ==> s != [] && (IsDigit(s[0]) || s[0] == '-' || s[0] == '+') && AllDigits(s[1..])
    ensures r.Some? ==> IsDigit(s[|s| - 1])
    ensures r.Some? && r.value < 0 ==> s[0] == '-'
  {
    if s == [] then None
    else
      var digits := if s[0] == '-' || s[0] == '+' then s[1..] else s;
      if digits == [] || !AllDigits(digits) then None
      else
        var v: int := if s[0] == '-' then -(DigitsValue(digits) as int) else DigitsValue(digits);
        if MinInt <= v <= MaxInt then Some(v) else None
  }

  /** The move a client line names: `Integer.parseInt(line.trim())`. Only a line
      made of spaces, digits and signs, holding at least one digit, names a move. */
  function ParseMove(line: string): (r: Option<int>)
    ensures r.Some? ==> MinInt <= r.value <= MaxInt
    ensures r.Some? ==> exists i :: 0 <= i < |line| && IsDigit(line[i])
    ensures r.Some? ==> forall i :: 0 <= i < |line| ==>
              IsSpace(line[i]) || IsDigit(line[i]) || line[i] == '-' || line[i] == '+'
  {
    TrimmedNumeral(line);
    ParseInt(Trim(line))
  }

  /** The characters of a line whose trimmed text parses. */
  lemma TrimmedNumeral(line: string)
    ensures var r := ParseInt(Trim(line));
            r.Some? ==>
              && (exists i :: 0 <= i < |line| && IsDigit(line[i]))
              && forall i :: 0 <= i < |line| ==>
                   IsSpace(line[i]) || IsDigit(line[i]) || line[i] == '-' || line[i] == '+'
  {
    var t := Trim(line);
    if ParseInt(t).Some? {
      var a := FirstNonSpace(line, 0);
      assert IsDigit(line[a + |t| - 1]);
      forall i | 0 <= i < |line|
        ensures IsSpace(line[i]) || IsDigit(line[i]) || line[i] == '-' || line[i] == '+'
      {
        if i < a {
          assert line[..a][i] == line[i];
        } else if i < a + |t| {
          assert line[i] == t[i - a];
          if i > a {
            assert t[1..][i - a - 1] == t[i - a];
          }
        } else {
          assert line[a + |t|..][i - a - |t|] == line[i];
        }
      }
    }
  }

  function DigitChar(d: int): (c: char)
    requires 0 <= d < 10
    ensures IsDigit(c) && DigitValue(c) == d
  {
    ('0' as int + d) as char
  }

  /** The decimal digits of n, without leading zeros; reading them back gives n. */
  function Digits(n: nat): (s: string)
    ensures s != [] && AllDigits(s) && DigitsValue(s) == n
    decreases n
  {
    if n < 10 then [DigitChar(n)]
    else
      var s := Digits(n / 10) + [DigitChar(n % 10)];
      assert s[..|s| - 1] == Digits(n / 10);
      s
  }

  /** How `StringBuilder.append(int)` writes an `int`: a minus sign for a
      negative number, then digits that read back as its magnitude. */
  function Decimal(n: int): (s: string)
    ensures n >= 0 ==> AllDigits(s) && DigitsValue(s) == n
    ensures n < 0 ==> |s| >= 2 && s[0] == '-' && AllDigits(s[1..]) && DigitsValue(s[1..]) == -n
    ensures 0 <= n < 10 ==> s == [DigitChar(n)]
  {
    if n < 0 then
      var s := "-" + Digits(-n);
      assert s[1..] == Digits(-n);
      s
    else Digits(n)
  }

  /** The text `sendBoardUpdate` builds from the cells: each cell, then a comma. */
  function Cells(b: seq<int>): (r: string)
    ensures |r| >= 2 * |b|
    ensures b != [] ==> r[|r| - 1] == ','
  {
    if b == [] then "" else Cells(b[..|b| - 1]) + Decimal(b[|b| - 1]) + ","
  }

  /** A board snapshot: every cell followed by a comma, then the result tag. It
      takes at least two characters per cell and ends with the tag, right after
      the comma of the last cell. */
  function Snapshot(b: seq<int>, tag: string): (r: string)
    ensures |r| >= 2 * |b| + |tag|
    ensures r[|r| - |tag|..] == tag
    ensures b != [] ==> r[|r| - |tag| - 1] == ','
  {
    Cells(b) + tag
  }

  /** Reading back what the server writes: every `int` parses to itself. */
  lemma ParseDecimal(n: int)
    requires MinInt <= n <= MaxInt
    ensures ParseInt(Decimal(n)) == Some(n)
  {
    var s := Decimal(n);
    if n < 0 {
      assert s[1..] == Digits(-n);
    }
  }

  /** Trimming removes exactly the surrounding spaces of a text that neither
      starts nor ends with one. */
  lemma TrimPadded(pre: string, t: string, post: string)
    requires AllSpace(pre) && AllSpace(post)
    requires t == [] || (!IsSpace(t[0]) && !IsSpace(t[|t| - 1]))
    ensures Trim(pre + t + post) == t
  {
    var s := pre + t + post;
    var r := Trim(s);
    var a := FirstNonSpace(s, 0);
    assert forall i :: 0 <= i < |pre| ==> s[i] == pre[i];
    assert forall i :: 0 <= i < |t| ==> s[|pre| + i] == t[i];
    assert forall i :: 0 <= i < |post| ==> s[|pre| + |t| + i] == post[i];
    if t != [] {
      assert !IsSpace(s[|pre|]) && !IsSpace(s[|pre| + |t| - 1]);
      assert a == |pre|;
      assert r != [];
      assert !IsSpace(s[a + |r| - 1]);
      assert a + |r| == |pre| + |t|;
      assert r == t;
    }
  }

  /** A move sent as a decimal number, with any spaces around it, is read as that number. */
  lemma ParseMovePadded(pre: string, n: int, post: string)
    requires AllSpace(pre) && AllSpace(post)
    requires MinInt <= n <= MaxInt
    ensures ParseMove(pre + Decimal(n) + post) == Some(n)
  {
    var s := Decimal(n);
    assert !IsSpace(s[0]) && !IsSpace(s[|s| - 1]);
    TrimPadded(pre, s, post);
    ParseDecimal(n);
  }

  /** The sign `Integer.parseInt` accepts in front of the digits: none, `+` or `-`. */
  predicate IsSign(sign: string) { sign == "" || sign == "+" || sign == "-" }

  /** The number a sign and a magnitude stand for. */
  function Signed(sign: string, n: nat): int
  {
    if sign == "-" then -(n as int) else n
  }

  /** A sign and at least one digit parse to their value exactly when it is an
      `int`; leading zeros and a `+` are accepted, and `-0` is 0. */
  lemma ParseIntNumeral(sign: string, ds: string)
    requires IsSign(sign) && ds != [] && AllDigits(ds)
    ensures var v := Signed(sign, DigitsValue(ds));
            ParseInt(sign + ds) == if MinInt <= v <= MaxInt then Some(v) else None
  {
    var s := sign + ds;
    if sign != "" {
      assert s[1..] == ds;
    } else {
      assert s == ds;
    }
  }

  /** Every text `ParseInt` accepts is a sign followed by at least one digit,
      and its value is theirs. */
  lemma ParseIntSplits(s: string)
    requires ParseInt(s).Some?
    ensures exists sign, ds :: IsSign(sign) && ds != [] && AllDigits(ds) && s == sign + ds &&
              ParseInt(s) == Some(Signed(sign, DigitsValue(ds)))
  {
    var n := if s[0] == '-' || s[0] == '+' then 1 else 0;
    var sign, ds := s[..n], s[n..];
    assert s == sign + ds;
    assert ds != [] && AllDigits(ds);
    ParseIntNumeral(sign, ds);
    assert IsSign(sign) && ParseInt(s) == Some(Signed(sign, DigitsValue(ds)));
  }

  /** A line of spaces, a sign, at least one digit and spaces names their value
      exactly when it is an `int`, and no move otherwise. */
  lemma ParseMoveNumeral(pre: string, sign: string, ds: string, post: string)
    requires AllSpace(pre) && AllSpace(post)
    requires IsSign(sign) && ds != [] && AllDigits(ds)
    ensures var v := Signed(sign, DigitsValue(ds));
            ParseMove(pre + (sign + ds) + post) == if MinInt <= v <= MaxInt then Some(v) else None
  {
    var t := sign + ds;
    assert t[0] == (if sign == "" then ds[0] else sign[0]);
    assert t[|t| - 1] == ds[|ds| - 1];
    TrimPadded(pre, t, post);
    ParseIntNumeral(sign, ds);
  }

  /** Every line that names a move is spaces, a sign, at least one digit and
      spaces, and the move is their value: `"4 5"` or `"1-2"` name none. */
  lemma ParseMoveSplits(line: string)
    requires ParseMove(line).Some?
    ensures exists pre, sign, ds, post ::
              AllSpace(pre) && AllSpace(post) && IsSign(sign) && ds != [] && AllDigits(ds) &&
              line == pre + (sign + ds) + post && ParseMove(line) == Some(Signed(sign, DigitsValue(ds)))
  {
    var t := Trim(line);
    var pre, post := TrimSplit(line);
    assert ParseInt(t).Some?;
    var n := if t[0] == '-' || t[0] == '+' then 1 else 0;
    var sign, ds := t[..n], t[n..];
    assert t == sign + ds;
    assert ds != [] && AllDigits(ds);
    ParseIntNumeral(sign, ds);
    assert line == pre + (sign + ds) + post;
    assert IsSign(sign) && ParseMove(line) == Some(Signed(sign, DigitsValue(ds)));
  }

  /** A line is its trimmed text with spaces on either side. */
  lemma TrimSplit(line: string) returns (pre: string, post: string)
    ensures AllSpace(pre) && AllSpace(post) && line == pre + Trim(line) + post
  {
    var t := Trim(line);
    var a := FirstNonSpace(line, 0);
    pre, post := line[..a], line[a + |t|..];
    assert line == pre + t + post;
    assert AllSpace(pre) by {
      forall i | 0 <= i < |pre| ensures IsSpace(pre[i]) { assert pre[i] == line[i]; }
    }
    assert AllSpace(post) by {
      forall i | 0 <= i < |post| ensures IsSpace(post[i]) { assert post[i] == line[a + |t| + i]; }
    }
  }

  /** The cells of a board of one-digit cells: the digit of cell i at position 2i
      and a comma at 2i+1. */
  lemma {:induction false} CellsAt(b: seq<int>)
    requires forall i :: 0 <= i < |b| ==> 0 <= b[i] < 10
    ensures |Cells(b)| == 2 * |b|
    ensures forall i :: 0 <= i < |b| ==> Cells(b)[2 * i] == DigitChar(b[i]) && Cells(b)[2 * i + 1] == ','
  {
    if b != [] {
      var front, last := b[..|b| - 1], b[|b| - 1];
      assert forall i :: 0 <= i < |front| ==> front[i] == b[i];
      CellsAt(front);
      assert Decimal(last) == [DigitChar(last)];
      assert front + [last] == b;
      CellsStep(Cells(front), front, last);
    }
  }

  /** One more one-digit cell appended to the text of the cells before it. */
  lemma CellsStep(c: string, front: seq<int>, last: int)
    requires 0 <= last < 10 && |c| == 2 * |front|
    requires forall i :: 0 <= i < |front| ==> 0 <= front[i] < 10
    requires forall i :: 0 <= i < |front| ==> c[2 * i] == DigitChar(front[i]) && c[2 * i + 1] == ','
    ensures var s, b := c + [DigitChar(last)] + [','], front + [last];
            |s| == 2 * |b| && forall i :: 0 <= i < |b| ==> 0 <= b[i] < 10 && s[2 * i] == DigitChar(b[i]) && s[2 * i + 1] == ','
  {
    var s, b := c + [DigitChar(last)] + [','], front + [last];
    forall i | 0 <= i < |b| ensures s[2 * i] == DigitChar(b[i]) && s[2 * i + 1] == ',' {
      if i < |front| {
        assert b[i] == front[i];
      }
    }
  }

  /** The snapshot of a board of one-digit cells has the digit of cell i at
      position 2i, a comma at 2i+1, and the tag after the 2|b| cell characters. */
  lemma SnapshotAt(b: seq<int>, tag: string)
    requires forall i :: 0 <= i < |b| ==> 0 <= b[i] < 10
    ensures |Snapshot(b, tag)| == 2 * |b| + |tag|
    ensures forall i :: 0 <= i < |b| ==>
              Snapshot(b, tag)[2 * i] == DigitChar(b[i]) && Snapshot(b, tag)[2 * i + 1] == ','
    ensures Snapshot(b, tag)[2 * |b|..] == tag
  {
    CellsAt(b);
    forall i | 0 <= i < |b|
      ensures Snapshot(b, tag)[2 * i] == DigitChar(b[i]) && Snapshot(b, tag)[2 * i + 1] == ','
    {
      assert Snapshot(b, tag)[2 * i] == Cells(b)[2 * i];
      assert Snapshot(b, tag)[2 * i + 1] == Cells(b)[2 * i + 1];
    }
  }

  /** Two snapshots of one-digit boards agree only when the boards and the tags do. */
  lemma SnapshotInjective(b: seq<int>, t: string, b': seq<int>, t': string)
    requires |b| == |b'|
    requires forall i :: 0 <= i < |b| ==> 0 <= b[i] < 10
    requires forall i :: 0 <= i < |b'| ==> 0 <= b'[i] < 10
    ensures Snapshot(b, t) == Snapshot(b', t') <==> b == b' && t == t'
  {
    if Snapshot(b, t) == Snapshot(b', t') {
      SnapshotAt(b, t);
      SnapshotAt(b', t');
      forall i | 0 <= i < |b| ensures b[i] == b'[i] {
        assert DigitValue(DigitChar(b[i])) == DigitValue(DigitChar(b'[i]));
      }
    }
  }

  /** The example snapshot: an empty board tagged `L`. */
  lemma SnapshotEmptyBoard()
    ensures Snapshot([0, 0, 0, 0, 0, 0, 0, 0, 0], L) == "0,0,0,0,0,0,0,0,0,L"
  {
    var b := [0, 0, 0, 0, 0, 0, 0, 0, 0];
    var want := "0,0,0,0,0,0,0,0,0,L";
    SnapshotAt(b, L);
    forall i | 0 <= i < |want| ensures Snapshot(b, L)[i] == want[i] {
      if i < 18 {
        assert Snapshot(b, L)[2 * (i / 2)] == '0' && Snapshot(b, L)[2 * (i / 2) + 1] == ',';
      } else {
        assert Snapshot(b, L)[18..] == L;
      }
    }
  }
}
