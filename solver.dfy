/** The repair loop of the min-conflicts N-Queens solver (nqueens.py, solve).
    Each round counts the conflicts of the current board; if the largest count is 0 the
    board is returned. Otherwise the columns whose count equals that maximum are handed to
    optimizeColumn in increasing order, and the first board it returns is adopted. When no
    column yields a board, the next round starts from a fresh shuffle of the rows 1..N.
    The shuffles random.shuffle would produce are supplied by the caller, and a fuel bound
    limits the number of rounds, since the loop need not terminate. */
module Solver {
  import opened QueenConflicts
  import opened ColumnRepair

  /** How a bounded run of solve ends. */
  datatype Outcome =
    | Solved(answer: seq<int>)   // solve returned this board
    | EmptyMaxError              // max() of the empty conflict list raised ValueError
    | OutOfInput                 // the supplied shuffles or the fuel ran out first

  /** An adopted move: the column optimizeColumn improved and the board it returned. */
  datatype Move = Move(column: nat, board: seq<int>)

  /** Where a repair pass stands: the move adopted so far, and the list as it is now. */
  datatype PassState = PassState(adopted: Option<Move>, board: seq<int>)

  /** The rows 1..n in order: list(range(1, n + 1)). */
  function Rows(n: int): seq<int> {
    if n <= 0 then [] else seq(n, i => i + 1)
  }

  /** s is an arrangement of the rows 1..n, as random.shuffle produces from Rows(n). */
  predicate IsShuffleOf(s: seq<int>, n: int) {
    multiset(s) == multiset(Rows(n))
  }

  /** A board of n queens on rows 1..n, no two in the same row or on the same diagonal. */
  /** Every supplied shuffle arranges the rows 1..n. */
  predicate AllShufflesOf(shuffles: seq<seq<int>>, n: int) {
    forall k :: 0 <= k < |shuffles| ==> IsShuffleOf(shuffles[k], n)
  }

  predicate IsSolution(board: seq<int>, n: int) {
    && |board| == n
    && InRows(board, n)
    && forall i, j :: 0 <= i < j < n ==> board[i] != board[j] && Abs(board[i] - board[j]) != j - i
  }

  /** Python's max() of a non-empty list. */
  function MaxOf(s: seq<int>): (m: int)
    requires |s| > 0
    ensures m in s
    ensures forall i :: 0 <= i < |s| ==> s[i] <= m
  {
    if |s| == 1 then s[0]
    else
      var rest := MaxOf(s[1..]);
      if s[0] < rest then rest else s[0]
  }

  /** The repair pass over the columns 0..k-1 of the board `start`, whose conflict list
      is `conflicts` and largest count `maxConflicts`: columns below the maximum are
      skipped, and the pass stops at the first column optimizeColumn improves. */
  function PassUpTo(start: seq<int>, conflicts: seq<int>, maxConflicts: int, k: nat): (p: PassState)
    requires |conflicts| == |start| && k <= |start|
    ensures |p.board| == |start|
  {
    if k == 0 then PassState(None, start)
    else
      var p := PassUpTo(start, conflicts, maxConflicts, k - 1);
      var c := k - 1;
      if p.adopted.Some? || conflicts[c] < maxConflicts then p
      else
        ScanFinalChangesOnlyColumn(p.board, c);
        var adopted := match Optimized(p.board, c)
          case None => None
          case Some(r) => Some(Move(c, r));
        PassState(adopted, ScanFinal(p.board, c))
  }

  /** The body of the `for` loop of solve (nqueens.py:19-27), run on the list `answer`. */
  method RepairPass(answer: array<int>, conflicts: seq<int>, maxConflicts: int) returns (adopted: Option<Move>)
    requires |conflicts| == answer.Length
    modifies answer
    ensures PassState(adopted, answer[..]) == PassUpTo(old(answer[..]), conflicts, maxConflicts, |conflicts|)
  {
    ghost var start := answer[..];
    adopted := None;
    for i := 0 to |conflicts|
      invariant PassState(adopted, answer[..]) == PassUpTo(start, conflicts, maxConflicts, i)
      invariant adopted == None
    {
      if conflicts[i] < maxConflicts {
        continue;
      }
      var board := OptimizeColumn(answer, i);
      if board.None? {
        continue;
      }
      adopted := Some(Move(i, board.value));
      AdoptedIsKept(start, conflicts, maxConflicts, i + 1, |conflicts|);
      break;
    }
  }

  /** A fresh list holding the elements of s. */
  method ToArray(s: seq<int>) returns (a: array<int>)
    ensures fresh(a) && a[..] == s
  {
    a := new int[|s|](i requires 0 <= i < |s| => s[i]);
  }

  /** The rounds of solve, at most `fuel` of them. Before each round, `used` shuffles have
      been drawn. A round starts from `board` when `changed` says the previous pass adopted
      it, and from the next shuffle otherwise (nqueens.py:11-14). It returns the board when
      the largest count is 0; otherwise one repair pass runs, and the next round starts from
      the board the pass adopted, or reshuffles when the pass adopted none (nqueens.py:15-27). */
  function Run(shuffles: seq<seq<int>>, used: nat, board: seq<int>, changed: bool, fuel: nat): Outcome
    requires used <= |shuffles|
    decreases fuel
  {
    if fuel == 0 || (!changed && used == |shuffles|) then OutOfInput
    else
      var start := if changed then board else shuffles[used];
      var drawn := if changed then used else used + 1;
      var conflicts := Conflicts(start);
      if |conflicts| == 0 then EmptyMaxError
      else
        var maxConflicts := MaxOf(conflicts);
        if maxConflicts == 0 then Solved(start)
        else
          var pass := PassUpTo(start, conflicts, maxConflicts, |start|);
          match pass.adopted
          case Some(move) => Run(shuffles, drawn, move.board, true, fuel - 1)
          case None => Run(shuffles, drawn, pass.board, false, fuel - 1)
  }

  /** solve (nqueens.py:6-27), bounded by the supplied shuffles and by `fuel` rounds. */
  method Solve(boardSize: int, shuffles: seq<seq<int>>, fuel: nat) returns (outcome: Outcome)
    requires AllShufflesOf(shuffles, boardSize)
    ensures outcome == Run(shuffles, 0, [], false, fuel)
    ensures outcome.Solved? ==> IsSolution(outcome.answer, boardSize)
    ensures outcome.EmptyMaxError? <==> boardSize <= 0 && fuel > 0 && |shuffles| > 0
    ensures boardSize == 1 && fuel > 0 && |shuffles| > 0 ==> outcome == Solved([1])
    ensures boardSize > 0 && fuel > 0 && |shuffles| > 0 && IsSolution(shuffles[0], boardSize) ==>
      outcome == Solved(shuffles[0])
  {
    RunIsSound(boardSize, shuffles, 0, [], false, fuel);
    if fuel > 0 && |shuffles| > 0 {
      FirstRound(boardSize, shuffles, fuel);
    }
    var changed := false;
    var answer := new int[0];
    var used: nat := 0;
    var remaining := fuel;
    while remaining > 0
      invariant used <= |shuffles|
      invariant fresh(answer)
      invariant Run(shuffles, used, answer[..], changed, remaining) == Run(shuffles, 0, [], false, fuel)
    {
      var stop;
      stop, answer, used, changed := PlayRound(answer, shuffles, used, changed, remaining);
      if stop.Some? {
        return stop.value;
      }
      remaining := remaining - 1;
    }
    return OutOfInput;
  }

  /** One pass of the `while True` body (nqueens.py:11-27). Unless `changed` says the list
      holds the board adopted by the previous pass, a fresh shuffle is drawn first. The pass
      either ends the run (with the error, the solved board, or `OutOfInput` once the shuffles
      are used up) or hands the next round its list, its count of drawn shuffles and whether
      that list is an adopted board. */
  method PlayRound(answer: array<int>, shuffles: seq<seq<int>>, used: nat, changed: bool, fuel: nat)
    returns (stop: Option<Outcome>, next: array<int>, nextUsed: nat, nextChanged: bool)
    requires used <= |shuffles| && fuel > 0
    modifies answer
    ensures next == answer || fresh(next)
    ensures nextUsed <= |shuffles|
    ensures stop.Some? ==> stop.value == Run(shuffles, used, old(answer[..]), changed, fuel)
    ensures stop.None? ==>
      Run(shuffles, used, old(answer[..]), changed, fuel) == Run(shuffles, nextUsed, next[..], nextChanged, fuel - 1)
  {
    next, nextUsed, nextChanged := answer, used, false;
    if !changed {
      if used == |shuffles| {
        return Some(OutOfInput), next, nextUsed, nextChanged;
      }
      next := ToArray(shuffles[used]);
      nextUsed := used + 1;
    }
    var conflicts := CountConflicts(next[..]);
    if |conflicts| == 0 {
      return Some(EmptyMaxError), next, nextUsed, nextChanged;
    }
    var maxConflicts := MaxOf(conflicts);
    if maxConflicts == 0 {
      return Some(Solved(next[..])), next, nextUsed, nextChanged;
    }
    var adopted := RepairPass(next, conflicts, maxConflicts);
    if adopted.Some? {
      next := ToArray(adopted.value.board);
      nextChanged := true;
    }
    stop := None;
  }

  /** A shuffle of the rows 1..n has n entries, each a row in 1..n. */
  lemma ShuffleFacts(s: seq<int>, n: int)
    requires IsShuffleOf(s, n)
    ensures |s| == if n <= 0 then 0 else n
    ensures InRows(s, n)
    ensures n == 1 ==> s == [1]
  {
    assert |multiset(s)| == |multiset(Rows(n))|;
    forall i | 0 <= i < |s|
      ensures 1 <= s[i] <= n
    {
      assert s[i] in multiset(Rows(n));
    }
    if n == 1 {
      assert s[0] in multiset(Rows(1));
    }
  }

  /** The largest count of a board of n queens on rows 1..n is 0 exactly when the board
      is a solution. */
  lemma ZeroMaxIsSolution(board: seq<int>, n: int)
    requires |board| == n > 0 && InRows(board, n)
    ensures MaxOf(Conflicts(board)) == 0 <==> IsSolution(board, n)
  {
    var cs := Conflicts(board);
    ConflictsBounded(board);
    AllZeroIffNonAttacking(board);
    if MaxOf(cs) == 0 {
      forall i, j | 0 <= i < j < n
        ensures board[i] != board[j] && Abs(board[i] - board[j]) != j - i
      {
        assert !Attacks(board, i, j);
      }
    }
    if IsSolution(board, n) {
      forall i, j | 0 <= i < n && 0 <= j < n
        ensures !Attacks(board, i, j)
      {
        if i < j {
          assert board[i] != board[j] && Abs(board[i] - board[j]) != j - i;
        } else if j < i {
          assert board[j] != board[i] && Abs(board[j] - board[i]) != i - j;
        }
      }
    }
  }

  /** Once a pass has adopted a move, the later columns are not visited. */
  lemma {:induction false} AdoptedIsKept(start: seq<int>, conflicts: seq<int>, maxConflicts: int, i: nat, k: nat)
    requires |conflicts| == |start| && i <= k <= |start|
    requires PassUpTo(start, conflicts, maxConflicts, i).adopted.Some?
    ensures PassUpTo(start, conflicts, maxConflicts, k) == PassUpTo(start, conflicts, maxConflicts, i)
  {
    if i < k {
      AdoptedIsKept(start, conflicts, maxConflicts, i, k - 1);
    }
  }

  /** A repair pass over a board on rows 1..N keeps every queen, and the adopted board's,
      on rows 1..N. */
  lemma {:induction false} PassKeepsRows(start: seq<int>, conflicts: seq<int>, maxConflicts: int, k: nat)
    requires |conflicts| == |start| && k <= |start|
    requires InRows(start, |start|)
    ensures var p := PassUpTo(start, conflicts, maxConflicts, k);
      && InRows(p.board, |start|)
      && (p.adopted.Some? ==> |p.adopted.value.board| == |start| && InRows(p.adopted.value.board, |start|))
  {
    if k > 0 {
      var c := k - 1;
      PassKeepsRows(start, conflicts, maxConflicts, c);
      var p := PassUpTo(start, conflicts, maxConflicts, c);
      if p.adopted.None? && conflicts[c] >= maxConflicts {
        ScanFinalChangesOnlyColumn(p.board, c);
        if Optimized(p.board, c).Some? {
          OptimizedImproves(p.board, c);
        }
      }
    }
  }

  /** While a pass has adopted nothing, every column with the maximum count it visited
      got nothing from optimizeColumn. */
  lemma {:induction false} PassFailuresBefore(start: seq<int>, conflicts: seq<int>, maxConflicts: int, k: nat)
    requires |conflicts| == |start| && k <= |start|
    requires PassUpTo(start, conflicts, maxConflicts, k).adopted.None?
    ensures forall j :: 0 <= j < k && conflicts[j] == maxConflicts ==>
      Optimized(PassUpTo(start, conflicts, maxConflicts, j).board, j).None?
  {
    if k > 0 {
      PassFailuresBefore(start, conflicts, maxConflicts, k - 1);
    }
  }

  /** The move a pass adopts is made in a column whose count is the maximum, and it is
      the first such column for which optimizeColumn returns a board: every earlier one
      returned nothing. The adopted board differs from the list optimizeColumn was given
      only in that column and has a strictly smaller total conflict sum. */
  lemma {:induction false} PassAdoptsFirstImprovement(start: seq<int>, conflicts: seq<int>, maxConflicts: int, k: nat)
    requires |conflicts| == |start| && k <= |start|
    requires |conflicts| > 0 && maxConflicts == MaxOf(conflicts)
    requires PassUpTo(start, conflicts, maxConflicts, k).adopted.Some?
    ensures var move := PassUpTo(start, conflicts, maxConflicts, k).adopted.value;
      && move.column < k
      && conflicts[move.column] == maxConflicts
      && PassUpTo(start, conflicts, maxConflicts, move.column).adopted.None?
      && Optimized(PassUpTo(start, conflicts, maxConflicts, move.column).board, move.column) == Some(move.board)
      && (forall j :: 0 <= j < move.column && conflicts[j] == maxConflicts ==>
            Optimized(PassUpTo(start, conflicts, maxConflicts, j).board, j).None?)
      && (forall j :: 0 <= j < |start| && j != move.column ==>
            move.board[j] == PassUpTo(start, conflicts, maxConflicts, move.column).board[j])
      && Total(move.board) < Total(PassUpTo(start, conflicts, maxConflicts, move.column).board)
  {
    var c := k - 1;
    var p := PassUpTo(start, conflicts, maxConflicts, c);
    if p.adopted.Some? {
      PassAdoptsFirstImprovement(start, conflicts, maxConflicts, c);
    } else {
      PassFailuresBefore(start, conflicts, maxConflicts, c);
      OptimizedImproves(p.board, c);
    }
  }

  /** What solve promises for n queens: a returned board is a solution, and the `max` error
      happens only without rows. */
  predicate SoundOutcome(outcome: Outcome, n: int) {
    && (outcome.Solved? ==> IsSolution(outcome.answer, n))
    && (n > 0 ==> !outcome.EmptyMaxError?)
  }

  /** Whatever a run of rounds returns is sound, provided every shuffle arranges the rows
      1..n and an adopted starting board holds n queens on rows 1..n. */
  lemma {:induction false} RunIsSound(n: int, shuffles: seq<seq<int>>, used: nat, board: seq<int>, changed: bool, fuel: nat)
    requires used <= |shuffles|
    requires AllShufflesOf(shuffles, n)
    requires changed ==> |board| == n && InRows(board, n)
    ensures SoundOutcome(Run(shuffles, used, board, changed, fuel), n)
    decreases fuel
  {
    if fuel > 0 && (changed || used < |shuffles|) {
      var start := if changed then board else shuffles[used];
      var drawn := if changed then used else used + 1;
      if !changed {
        ShuffleFacts(shuffles[used], n);
      }
      var conflicts := Conflicts(start);
      if |conflicts| > 0 {
        var maxConflicts := MaxOf(conflicts);
        if maxConflicts == 0 {
          ZeroMaxIsSolution(start, n);
        } else {
          var pass := PassUpTo(start, conflicts, maxConflicts, |start|);
          PassKeepsRows(start, conflicts, maxConflicts, |start|);
          match pass.adopted
          case Some(move) => RunIsSound(n, shuffles, drawn, move.board, true, fuel - 1);
          case None => RunIsSound(n, shuffles, drawn, pass.board, false, fuel - 1);
        }
      }
    }
  }

  /** What the first round decides: with no rows the empty conflict list makes `max` fail;
      a single queen is already a solution; and a first shuffle that is a solution is
      returned without any repair. */
  lemma FirstRound(n: int, shuffles: seq<seq<int>>, fuel: nat)
    requires fuel > 0 && |shuffles| > 0
    requires AllShufflesOf(shuffles, n)
    ensures n <= 0 ==> Run(shuffles, 0, [], false, fuel) == EmptyMaxError
    ensures n == 1 ==> Run(shuffles, 0, [], false, fuel) == Solved([1])
    ensures n > 0 && IsSolution(shuffles[0], n) ==> Run(shuffles, 0, [], false, fuel) == Solved(shuffles[0])
  {
    ShuffleFacts(shuffles[0], n);
    if n > 0 {
      ConflictsBounded(shuffles[0]);
      ZeroMaxIsSolution(shuffles[0], n);
      if n == 1 {
        assert Conflicts([1]) == [0];
      }
    }
  }
}
