/** Conflict counting for the min-conflicts N-Queens solver (nqueens.py, countConflicts).
    A board holds one queen per column: board[i] is the row of the queen in column i.
    The solver fills boards with the 1-based rows 1..N. */
module QueenConflicts {

  function Abs(x: int): nat {
    if x < 0 then -x else x
  }

  /** The queens of two different columns share a row or a diagonal. */
  predicate Attacks(board: seq<int>, i: nat, j: nat)
    requires i < |board| && j < |board|
  {
    i != j && (board[i] == board[j] || Abs(board[i] - board[j]) == Abs(i - j))
  }

  /** 1 when column j attacks column i, else 0. */
  function Hit(board: seq<int>, i: nat, j: nat): nat
    requires i < |board| && j < |board|
  {
    if Attacks(board, i, j) then 1 else 0
  }

  /** The number of columns j < k that attack column i. */
  function CountUpTo(board: seq<int>, i: nat, k: nat): nat
    requires i < |board| && k <= |board|
  {
    if k == 0 then 0 else CountUpTo(board, i, k - 1) + Hit(board, i, k - 1)
  }

  /** The conflict count of column i: how many other columns attack it. */
  function ConflictsAt(board: seq<int>, i: nat): nat
    requires i < |board|
  {
    CountUpTo(board, i, |board|)
  }

  /** The list countConflicts returns: one count per column. */
  function Conflicts(board: seq<int>): seq<int> {
    seq(|board|, i requires 0 <= i < |board| => ConflictsAt(board, i))
  }

  /** Every queen sits on one of the rows 1..n. */
  predicate InRows(board: seq<int>, n: int) {
    forall i :: 0 <= i < |board| ==> 1 <= board[i] <= n
  }

  /** No two queens attack each other. */
  predicate NonAttacking(board: seq<int>) {
    forall i, j :: 0 <= i < |board| && 0 <= j < |board| ==> !Attacks(board, i, j)
  }

  /** Sum, over the columns i < m, of the number of columns j < k attacking i. */
  function SumCounts(board: seq<int>, m: nat, k: nat): nat
    requires m <= |board| && k <= |board|
  {
    if m == 0 then 0 else SumCounts(board, m - 1, k) + CountUpTo(board, m - 1, k)
  }

  /** The sum of all conflict counts of the board. */
  function Total(board: seq<int>): nat {
    SumCounts(board, |board|, |board|)
  }

  /** The number of columns i < m that attack column c. */
  function ColumnSum(board: seq<int>, c: nat, m: nat): nat
    requires c < |board| && m <= |board|
  {
    if m == 0 then 0 else ColumnSum(board, c, m - 1) + Hit(board, m - 1, c)
  }

  /** The number of attacking pairs (i, j) with i < j < m. */
  function PairsUpTo(board: seq<int>, m: nat): nat
    requires m <= |board|
  {
    if m == 0 then 0 else PairsUpTo(board, m - 1) + CountUpTo(board, m - 1, m - 1)
  }

  /** The number of unordered attacking pairs of the board. */
  function Pairs(board: seq<int>): nat {
    PairsUpTo(board, |board|)
  }

  /** countConflicts (nqueens.py:30-39): for every column i, count the other columns j
      whose queen shares i's row or one of i's diagonals. */
  method CountConflicts(board: seq<int>) returns (conflicts: seq<int>)
    ensures conflicts == Conflicts(board)
  {
    var n := |board|;
    var counts := new int[n](_ => 0);
    for i := 0 to n
      invariant forall k :: 0 <= k < i ==> counts[k] == ConflictsAt(board, k)
      invariant forall k :: i <= k < n ==> counts[k] == 0
    {
      for j := 0 to n
        invariant counts[i] == CountUpTo(board, i, j)
        invariant forall k :: 0 <= k < i ==> counts[k] == ConflictsAt(board, k)
        invariant forall k :: i < k < n ==> counts[k] == 0
      {
        if i == j {
          continue;
        }
        var diff := i - j;
        if board[i] == board[j] || Abs(board[i] - board[j]) == Abs(diff) {
          counts[i] := counts[i] + 1;
        }
      }
    }
    conflicts := counts[..];
  }

  /** The attack relation does not depend on the order of the two columns. */
  lemma AttacksSymmetric(board: seq<int>, i: nat, j: nat)
    requires i < |board| && j < |board|
    ensures Attacks(board, i, j) <==> Attacks(board, j, i)
  {
  }

  lemma {:induction false} CountUpToBound(board: seq<int>, i: nat, k: nat)
    requires i < |board| && k <= |board|
    ensures CountUpTo(board, i, k) <= if i < k then k - 1 else k
  {
    if k > 0 {
      CountUpToBound(board, i, k - 1);
    }
  }

  /** countConflicts returns one entry per column, each between 0 and N - 1. */
  lemma ConflictsBounded(board: seq<int>)
    ensures |Conflicts(board)| == |board|
    ensures forall i :: 0 <= i < |board| ==> 0 <= Conflicts(board)[i] <= |board| - 1
  {
    forall i | 0 <= i < |board|
      ensures 0 <= Conflicts(board)[i] <= |board| - 1
    {
      CountUpToBound(board, i, |board|);
    }
  }

  lemma {:induction false} CountUpToZero(board: seq<int>, i: nat, k: nat)
    requires i < |board| && k <= |board|
    ensures CountUpTo(board, i, k) == 0 <==> forall j :: 0 <= j < k ==> !Attacks(board, i, j)
  {
    if k > 0 {
      CountUpToZero(board, i, k - 1);
    }
  }

  /** Every conflict count is 0 exactly when no two queens attack each other. */
  lemma AllZeroIffNonAttacking(board: seq<int>)
    ensures (forall i :: 0 <= i < |board| ==> Conflicts(board)[i] == 0) <==> NonAttacking(board)
  {
    forall i | 0 <= i < |board|
      ensures Conflicts(board)[i] == 0 <==> forall j :: 0 <= j < |board| ==> !Attacks(board, i, j)
    {
      CountUpToZero(board, i, |board|);
    }
    if forall i :: 0 <= i < |board| ==> Conflicts(board)[i] == 0 {
      forall i, j | 0 <= i < |board| && 0 <= j < |board|
        ensures !Attacks(board, i, j)
      {
        assert Conflicts(board)[i] == 0;
      }
    }
  }

  /** Counting the columns that attack c equals counting the columns c attacks. */
  lemma {:induction false} ColumnSumIsCount(board: seq<int>, c: nat, m: nat)
    requires c < |board| && m <= |board|
    ensures ColumnSum(board, c, m) == CountUpTo(board, c, m)
  {
    if m > 0 {
      ColumnSumIsCount(board, c, m - 1);
      AttacksSymmetric(board, m - 1, c);
    }
  }

  lemma {:induction false} SumCountsStep(board: seq<int>, m: nat, k: nat)
    requires m <= |board| && k < |board|
    ensures SumCounts(board, m, k + 1) == SumCounts(board, m, k) + ColumnSum(board, k, m)
  {
    if m > 0 {
      SumCountsStep(board, m - 1, k);
    }
  }

  lemma {:induction false} SumCountsTriangle(board: seq<int>, m: nat)
    requires m <= |board|
    ensures SumCounts(board, m, m) == 2 * PairsUpTo(board, m)
  {
    if m > 0 {
      var p := m - 1;
      SumCountsTriangle(board, p);
      SumCountsStep(board, m, p);
      ColumnSumIsCount(board, p, p);
    }
  }

  /** Since attacking is symmetric, the sum of all conflict counts is twice the number of
      attacking pairs. */
  lemma TotalIsTwicePairs(board: seq<int>)
    ensures Total(board) == 2 * Pairs(board)
  {
    SumCountsTriangle(board, |board|);
  }

  /** Moving the queen of column c leaves the count of every other column i changed only by
      the attack between i and c. */
  lemma {:induction false} CountAfterMove(board: seq<int>, c: nat, v: int, i: nat, k: nat)
    requires c < |board| && i < |board| && i != c && k <= |board|
    ensures var moved := board[c := v];
      CountUpTo(moved, i, k) + (if c < k then Hit(board, i, c) else 0)
      == CountUpTo(board, i, k) + (if c < k then Hit(moved, i, c) else 0)
  {
    if k > 0 {
      CountAfterMove(board, c, v, i, k - 1);
    }
  }

  lemma {:induction false} SumAfterMove(board: seq<int>, c: nat, v: int, m: nat)
    requires c < |board| && m <= |board|
    ensures var moved := board[c := v];
      SumCounts(moved, m, |board|) + ColumnSum(board, c, m)
        + (if c < m then ConflictsAt(board, c) else 0)
      == SumCounts(board, m, |board|) + ColumnSum(moved, c, m)
        + (if c < m then ConflictsAt(moved, c) else 0)
  {
    if m > 0 {
      SumAfterMove(board, c, v, m - 1);
      if m - 1 != c {
        CountAfterMove(board, c, v, m - 1, |board|);
      }
    }
  }

  /** Moving one queen changes the total conflict sum by twice the change of that queen's
      own count. */
  lemma MoveChangesTotal(board: seq<int>, c: nat, v: int)
    requires c < |board|
    ensures Total(board[c := v]) == Total(board) + 2 * (ConflictsAt(board[c := v], c) - ConflictsAt(board, c))
  {
    var moved := board[c := v];
    SumAfterMove(board, c, v, |board|);
    ColumnSumIsCount(board, c, |board|);
    ColumnSumIsCount(moved, c, |board|);
  }
}
