/** Single-column repair of the min-conflicts N-Queens solver (nqueens.py, optimizeColumn).
    The scan tries the queen of one column on the rows 1..N in increasing order, keeps the
    first board whose count for that column is strictly lower than the best seen so far,
    and stops once that count reaches 0. One row is left out of the scan: as written it is
    the row just above the current one (line 50 compares the 0-based index with the
    1-based row), whereas the intended scan leaves out the current row. */
module ColumnRepair {
  import opened QueenConflicts

  datatype Option<T> = None | Some(value: T)

  /** The count of column c once its queen is moved to row v, all other queens staying. */
  function Cost(board: seq<int>, c: nat, v: int): nat
    requires c < |board|
  {
    ConflictsAt(board[c := v], c)
  }

  /** The best count known after trying rows 1..k, leaving out row `skipped`; the scan
      starts from the column's own count. */
  function Lowest(board: seq<int>, c: nat, skipped: int, k: nat): nat
    requires c < |board| && k <= |board|
  {
    if k == 0 then ConflictsAt(board, c)
    else if k != skipped && Cost(board, c, k) < Lowest(board, c, skipped, k - 1) then Cost(board, c, k)
    else Lowest(board, c, skipped, k - 1)
  }

  /** The row the scan has adopted after trying rows 1..k, if any. */
  function Choice(board: seq<int>, c: nat, skipped: int, k: nat): Option<int>
    requires c < |board| && k <= |board|
  {
    if k == 0 then None
    else if k != skipped && Cost(board, c, k) < Lowest(board, c, skipped, k - 1) then Some(k)
    else Choice(board, c, skipped, k - 1)
  }

  /** The board the scan would hand back after trying rows 1..k. */
  function ScanUpTo(board: seq<int>, c: nat, skipped: int, k: nat): Option<seq<int>>
    requires c < |board| && k <= |board|
  {
    match Choice(board, c, skipped, k)
    case None => None
    case Some(v) => Some(board[c := v])
  }

  /** The result of a full scan of column c that leaves out row `skipped`. */
  function Scan(board: seq<int>, c: nat, skipped: int): Option<seq<int>>
    requires c < |board|
  {
    ScanUpTo(board, c, skipped, |board|)
  }

  /** optimizeColumn as written: the row after the current one is never tried. */
  function Optimized(board: seq<int>, c: nat): Option<seq<int>>
    requires c < |board|
  {
    Scan(board, c, board[c] + 1)
  }

  /** optimizeColumn as evidently intended: every row except the current one is tried. */
  function IntendedOptimized(board: seq<int>, c: nat): Option<seq<int>>
    requires c < |board|
  {
    Scan(board, c, board[c])
  }

  /** The last row written by a scan of rows 1..k that leaves out `skipped`; 0 when none. */
  function LastTried(skipped: int, k: nat): nat {
    if k == 0 then 0 else if k != skipped then k else k - 1
  }

  /** The board with the queen of column c on row v, or unchanged when v is 0. */
  function Written(board: seq<int>, c: nat, v: int): seq<int>
    requires c < |board|
  {
    if v == 0 then board else board[c := v]
  }

  /** The list optimizeColumn leaves behind: unchanged when the column has no conflict,
      holding the adopted row when the scan reached count 0 (it stops there), and otherwise
      holding the last row tried. */
  function ScanFinal(board: seq<int>, c: nat): seq<int>
    requires c < |board|
  {
    var skipped := board[c] + 1;
    if ConflictsAt(board, c) == 0 then board
    else match Choice(board, c, skipped, |board|)
      case Some(v) => if Cost(board, c, v) == 0 then board[c := v] else Written(board, c, LastTried(skipped, |board|))
      case None => Written(board, c, LastTried(skipped, |board|))
  }

  /** optimizeColumn (nqueens.py:41-60). It writes each tried row into `board` itself and
      copies the board whenever the count strictly improves; the list is not restored. */
  method OptimizeColumn(board: array<int>, column: nat) returns (optimizedBoard: Option<seq<int>>)
    requires column < board.Length
    modifies board
    ensures optimizedBoard == Optimized(old(board[..]), column)
    ensures board[..] == ScanFinal(old(board[..]), column)
  {
    ghost var start := board[..];
    var currentPosition := board[column];
    ghost var skipped := currentPosition + 1;
    var counts := CountConflicts(board[..]);
    var conflicts := counts[column];
    optimizedBoard := None;
    ghost var stopped := false;
    for i := 0 to board.Length
      invariant conflicts == Lowest(start, column, skipped, i)
      invariant optimizedBoard == ScanUpTo(start, column, skipped, i)
      invariant board[..] == Written(start, column, LastTried(skipped, i))
      invariant i > 0 ==> Lowest(start, column, skipped, i - 1) > 0
      invariant !stopped
    {
      if conflicts == 0 {
        StopAtZero(start, column, skipped, i);
        stopped := true;
        break;
      }
      if i == currentPosition {
        continue;
      }
      board[column] := i + 1;
      assert board[..] == start[column := i + 1];
      var optimizedConflicts := CountConflicts(board[..]);
      if optimizedConflicts[column] < conflicts {
        conflicts := optimizedConflicts[column];
        optimizedBoard := Some(board[..]);
      }
    }
    if !stopped {
      if conflicts == 0 {
        StopAtZero(start, column, skipped, board.Length);
      } else {
        FullScan(start, column, skipped);
      }
    }
  }

  /** What the scan has established after trying rows 1..k. */
  lemma {:induction false} ChoiceSpec(board: seq<int>, c: nat, skipped: int, k: nat)
    requires c < |board| && k <= |board|
    ensures Lowest(board, c, skipped, k) <= ConflictsAt(board, c)
    ensures forall v :: 1 <= v <= k && v != skipped ==> Lowest(board, c, skipped, k) <= Cost(board, c, v)
    ensures Choice(board, c, skipped, k).None? ==> Lowest(board, c, skipped, k) == ConflictsAt(board, c)
    ensures Choice(board, c, skipped, k).Some? ==>
      var v := Choice(board, c, skipped, k).value;
      && 1 <= v <= k && v != skipped
      && Lowest(board, c, skipped, k) == Cost(board, c, v) < ConflictsAt(board, c)
      && forall u :: 1 <= u < v && u != skipped ==> Cost(board, c, u) > Cost(board, c, v)
  {
    if k > 0 {
      ChoiceSpec(board, c, skipped, k - 1);
    }
  }

  /** Once the best count is 0 nothing changes any more. */
  lemma {:induction false} ZeroIsFinal(board: seq<int>, c: nat, skipped: int, i: nat, k: nat)
    requires c < |board| && i <= k <= |board|
    requires Lowest(board, c, skipped, i) == 0
    ensures Lowest(board, c, skipped, k) == 0 && Choice(board, c, skipped, k) == Choice(board, c, skipped, i)
  {
    if i < k {
      ZeroIsFinal(board, c, skipped, i, k - 1);
    }
  }

  /** The early exit of the scan when its count has reached 0 before trying row i + 1. */
  lemma StopAtZero(board: seq<int>, c: nat, skipped: int, i: nat)
    requires c < |board| && i <= |board| && skipped == board[c] + 1
    requires Lowest(board, c, skipped, i) == 0
    requires i > 0 ==> Lowest(board, c, skipped, i - 1) > 0
    ensures ScanUpTo(board, c, skipped, i) == Optimized(board, c)
    ensures Written(board, c, LastTried(skipped, i)) == ScanFinal(board, c)
  {
    ZeroIsFinal(board, c, skipped, i, |board|);
    ChoiceSpec(board, c, skipped, |board|);
  }

  /** The end of a scan that never reached count 0 before its last row. */
  lemma FullScan(board: seq<int>, c: nat, skipped: int)
    requires c < |board| && skipped == board[c] + 1
    requires Lowest(board, c, skipped, |board| - 1) > 0
    ensures Written(board, c, LastTried(skipped, |board|)) == ScanFinal(board, c)
  {
    var n := |board|;
    ChoiceSpec(board, c, skipped, n);
    ChoiceSpec(board, c, skipped, n - 1);
    CountUpToBound(board, c, n);
  }

  /** A board a scan adopts differs from its input only in the scanned column, holds a row
      in 1..N there that the scan did not leave out, and lowers both that column's count and
      the total conflict sum. */
  lemma ScanImproves(board: seq<int>, c: nat, skipped: int)
    requires c < |board|
    requires Scan(board, c, skipped).Some?
    ensures var r := Scan(board, c, skipped).value;
      && |r| == |board|
      && (forall j :: 0 <= j < |board| && j != c ==> r[j] == board[j])
      && 1 <= r[c] <= |board| && r[c] != skipped
      && ConflictsAt(r, c) < ConflictsAt(board, c)
      && Total(r) < Total(board)
  {
    ChoiceSpec(board, c, skipped, |board|);
    var v := Choice(board, c, skipped, |board|).value;
    MoveChangesTotal(board, c, v);
  }

  /** A scan finds nothing exactly when no row it tries lowers the column's count. */
  lemma ScanNoneIff(board: seq<int>, c: nat, skipped: int)
    requires c < |board|
    ensures Scan(board, c, skipped).None? <==>
      forall v :: 1 <= v <= |board| && v != skipped ==> Cost(board, c, v) >= ConflictsAt(board, c)
  {
    ChoiceSpec(board, c, skipped, |board|);
  }

  /** optimizeColumn's returned board equals the input except at the column, puts a row of
      1..N there other than the one above the current row, and strictly lowers both the
      column's count and the total conflict sum. */
  lemma OptimizedImproves(board: seq<int>, c: nat)
    requires c < |board|
    requires Optimized(board, c).Some?
    ensures var r := Optimized(board, c).value;
      && |r| == |board|
      && (forall j :: 0 <= j < |board| && j != c ==> r[j] == board[j])
      && 1 <= r[c] <= |board| && r[c] != board[c] + 1
      && ConflictsAt(r, c) < ConflictsAt(board, c)
      && Total(r) < Total(board)
  {
    ScanImproves(board, c, board[c] + 1);
  }

  /** The returned row has the lowest count among the rows tried, and it is the first row
      scanned with that count. */
  lemma OptimizedIsFirstLowest(board: seq<int>, c: nat)
    requires c < |board|
    requires Optimized(board, c).Some?
    ensures var r := Optimized(board, c).value;
      forall v :: 1 <= v <= |board| && v != board[c] + 1 ==>
        && Cost(board, c, r[c]) <= Cost(board, c, v)
        && (v < r[c] ==> Cost(board, c, r[c]) < Cost(board, c, v))
  {
    ChoiceSpec(board, c, board[c] + 1, |board|);
  }

  /** optimizeColumn returns None exactly when no tried row lowers the column's count. */
  lemma OptimizedNoneIff(board: seq<int>, c: nat)
    requires c < |board|
    ensures Optimized(board, c).None? <==>
      forall v :: 1 <= v <= |board| && v != board[c] + 1 ==> Cost(board, c, v) >= ConflictsAt(board, c)
  {
    ScanNoneIff(board, c, board[c] + 1);
  }

  /** A column without conflicts is left alone: the loop stops before its first write. */
  lemma ZeroCountKeepsBoard(board: seq<int>, c: nat)
    requires c < |board| && ConflictsAt(board, c) == 0
    ensures Optimized(board, c) == None && ScanFinal(board, c) == board
  {
    ChoiceSpec(board, c, board[c] + 1, |board|);
  }

  /** The list handed to optimizeColumn changes at most in the scanned column. When the
      column had conflicts it then holds a row in 1..N, and when nothing was returned that
      row is the last one tried: N, or N - 1 when N is the row left out. */
  lemma ScanFinalChangesOnlyColumn(board: seq<int>, c: nat)
    requires c < |board|
    ensures var f := ScanFinal(board, c);
      && |f| == |board|
      && (forall j :: 0 <= j < |board| && j != c ==> f[j] == board[j])
      && (ConflictsAt(board, c) > 0 ==> 1 <= f[c] <= |board|)
      && (ConflictsAt(board, c) > 0 && Optimized(board, c).None? ==>
            f[c] == if board[c] + 1 == |board| then |board| - 1 else |board|)
  {
    ChoiceSpec(board, c, board[c] + 1, |board|);
    CountUpToBound(board, c, |board|);
  }

  /** As written, optimizeColumn misses an improvement: on the board [1, 2, 1] the queen of
      column 0 has 2 conflicts, moving it to row 2 leaves 1, yet row 2 is never tried and
      nothing is returned. */
  lemma MissedRowExample()
    ensures Optimized([1, 2, 1], 0).None?
    ensures Cost([1, 2, 1], 0, 2) < ConflictsAt([1, 2, 1], 0)
  {
    var b := [1, 2, 1];
    assert ConflictsAt(b, 0) == 2 by {
      assert Attacks(b, 0, 1) && Attacks(b, 0, 2);
    }
    assert Cost(b, 0, 2) == 1 by {
      var m := b[0 := 2];
      assert m == [2, 2, 1];
      assert Attacks(m, 0, 1) && !Attacks(m, 0, 2);
      assert CountUpTo(m, 0, 1) == 0;
      assert CountUpTo(m, 0, 2) == 1;
    }
    assert Cost(b, 0, 3) == 2 by {
      var m := b[0 := 3];
      assert m == [3, 2, 1];
      assert Attacks(m, 0, 1) && Attacks(m, 0, 2);
      assert CountUpTo(m, 0, 1) == 0;
      assert CountUpTo(m, 0, 2) == 1;
    }
    assert b[0 := 1] == b;
    assert Lowest(b, 0, 2, 3) == 2;
  }

  /** The intended scan returns a board exactly when some row lowers the column's count,
      and the board it returns is a strict improvement of the input. */
  lemma IntendedFindsImprovement(board: seq<int>, c: nat)
    requires c < |board|
    ensures IntendedOptimized(board, c).None? <==>
      forall v :: 1 <= v <= |board| ==> Cost(board, c, v) >= ConflictsAt(board, c)
    ensures IntendedOptimized(board, c).Some? ==>
      var r := IntendedOptimized(board, c).value;
      && (forall j :: 0 <= j < |board| && j != c ==> r[j] == board[j])
      && 1 <= r[c] <= |board| && r[c] != board[c]
      && ConflictsAt(r, c) < ConflictsAt(board, c)
      && Total(r) < Total(board)
  {
    ScanNoneIff(board, c, board[c]);
    assert board[c := board[c]] == board;
    if IntendedOptimized(board, c).Some? {
      ScanImproves(board, c, board[c]);
    }
  }
}
