# Min-conflicts N-Queens solver, modelled in Dafny

This project models `nqueens.py`, a min-conflicts local-search solver for the N-Queens
problem. A board is a list with one queen per column: `board[i]` is the row of the queen in
column `i`. The solver uses the 1-based rows `1..N`.

- `countConflicts` counts, for each column, how many other columns attack it. A column
  attacks another when their queens share a row or a diagonal.
- `optimizeColumn` scans candidate rows for one column. It writes each row into the list in
  place and returns a copy of the board with the lowest count seen for that column. That
  count must be strictly below the column's starting count; otherwise it returns `None`.
- `solve` repeats a repair round. A round starts from a shuffled board, or from the board
  the previous round adopted. The round returns the board when the largest count is 0.
  Otherwise it visits the columns with the largest count and adopts the first board
  `optimizeColumn` returns. When no column improves, the next round reshuffles.
  A column that got `None` is left on the last row `optimizeColumn` wrote into the list. So
  the board adopted later in the same round carries those rows too, and its strictly lower
  total is measured against that changed list, not against the board the round started
  from.

Files and modules:

- `conflicts.dfy`, module `QueenConflicts`: the attack relation and the conflict counts.
  `CountConflicts` is the nested loop of the source, proved equal to the function
  `Conflicts`. It also holds the facts about the counts: bounds, symmetry, twice the
  number of attacking pairs, and the effect of moving one queen on the total.
- `optimize.dfy`, module `ColumnRepair`: `OptimizeColumn` is an in-place method on an
  `array<int>`. It is proved against two specification functions. `Optimized` gives the
  returned board. `ScanFinal` gives what the method leaves in the list.
- `solver.dfy`, module `Solver`: `RepairPass`, the `for` loop of `solve`, is proved against
  `PassUpTo`. `PlayRound` is one pass of the `while True` body and `Solve` is the loop
  around it. Both are proved against the function `Run`, which steps through the rounds.

Where the file's own header comment and the code disagree, the model follows the code.
The comment at nqueens.py:5 speaks of rows `0 .. BOARD_SIZE-1`, but lines 12 and 53 use
`1..N`. `nqueens.py` recounts every conflict from scratch in each round, visits the worst
columns in index order, and reshuffles only after a round in which no column improved.

The model treats `random.shuffle` as an input. `Solve` receives the sequence of shuffled
boards the source would draw, each an arrangement of `1..N`. It also receives a bound on
the number of rounds, because the loop need not terminate (for example for N = 2 and 3).
`Solve` ends with `OutOfInput` when either runs out. `EmptyMaxError` stands for the
`ValueError` that `max` raises on the empty conflict list when `board_size <= 0`.

## Model

| member | source | states |
|---|---|---|
| `QueenConflicts.CountConflicts` | nqueens.py:30-39 | the list built by the nested loops is, column by column, the number of other columns sharing that column's row or one of its diagonals |
| `QueenConflicts.AttacksSymmetric` | nqueens.py:37 | column i attacks column j exactly when j attacks i |
| `QueenConflicts.ConflictsBounded` | nqueens.py:31-38 | the conflict list has one entry per column and every entry lies in 0..N-1 |
| `QueenConflicts.AllZeroIffNonAttacking` | nqueens.py:34-38 | every count is 0 if and only if no two queens share a row or a diagonal |
| `QueenConflicts.TotalIsTwicePairs` | nqueens.py:34-38 | the sum of all counts is twice the number of attacking pairs |
| `QueenConflicts.MoveChangesTotal` | nqueens.py:30-39 | moving one queen changes the sum of all counts by exactly twice the change of that queen's own count |
| `ColumnRepair.OptimizeColumn` | nqueens.py:41-60 | returns `Optimized` of the input board and leaves `ScanFinal` of it in the list |
| `ColumnRepair.ChoiceSpec` | nqueens.py:44-58 | after rows 1..k the best-so-far count is at most the starting count and at most the count of every tried row; when a row was adopted, that row was tried, its count is the best-so-far and below the start, and every earlier tried row counts strictly more |
| `ColumnRepair.ZeroIsFinal` | nqueens.py:47-48 | once the best-so-far count is 0, later rows change neither the count nor the adopted row |
| `ColumnRepair.ScanImproves` | nqueens.py:50-58 | a board adopted by a scan that leaves out one row differs from the input only in the column, holds a row of 1..N there other than the one left out, and has a lower column count and a lower total |
| `ColumnRepair.ScanNoneIff` | nqueens.py:46-60 | a scan returns nothing exactly when no row it tries lowers the column's count |
| `ColumnRepair.OptimizedImproves` | nqueens.py:53-58 | a returned board equals the input except at the column, holds a row of 1..N there that is not the row above the current one, and strictly lowers both the column's count and the total conflict sum |
| `ColumnRepair.OptimizedIsFirstLowest` | nqueens.py:46-58 | the returned row has the lowest count of all rows tried, and every tried row before it counts strictly more |
| `ColumnRepair.OptimizedNoneIff` | nqueens.py:46-60 | `None` is returned exactly when no tried row lowers the column's count |
| `ColumnRepair.ZeroCountKeepsBoard` | nqueens.py:43-48 | a column with no conflict gives `None` and leaves the list unchanged |
| `ColumnRepair.ScanFinalChangesOnlyColumn` | nqueens.py:46-53 | the list is left unchanged except at the column; with conflicts there it then holds a row of 1..N, and after `None` it holds the last row tried: N, or N-1 when N is the row left out |
| `ColumnRepair.MissedRowExample` | nqueens.py:50-53 | on [1, 2, 1] column 0 has count 2 and row 2 would give 1, yet `None` is returned |
| `ColumnRepair.IntendedFindsImprovement` | nqueens.py:50-53 | with the current row left out instead, `None` comes back exactly when no row of 1..N lowers the count, and a returned board is a strict improvement in that column only |
| `Solver.MaxOf` | nqueens.py:16 | the maximum is an element of the list and no element exceeds it |
| `Solver.PassUpTo` | nqueens.py:19-27 | a repair pass never changes the length of the list |
| `Solver.RepairPass` | nqueens.py:19-27 | the adopted move and the list after the loop are those of `PassUpTo` over all columns |
| `Solver.AdoptedIsKept` | nqueens.py:25-27 | once a move is adopted the pass visits no further column |
| `Solver.PassFailuresBefore` | nqueens.py:19-24 | while nothing is adopted, every visited column with the maximum count got `None` from `optimizeColumn` |
| `Solver.PassAdoptsFirstImprovement` | nqueens.py:19-27 | the adopted column has the maximum count, `optimizeColumn` returned the adopted board for it, and every earlier column with that count returned `None`; that board differs from the list `optimizeColumn` was given only in that column and has a strictly lower total than that list. The list already holds the rows that earlier `None` columns were left on, so the comparison is not with the board the round started from |
| `Solver.PassKeepsRows` | nqueens.py:22-26 | a pass over a board on rows 1..N leaves the list, and any adopted board, on rows 1..N |
| `Solver.ShuffleFacts` | nqueens.py:12-13 | a shuffle of `range(1, N+1)` has N entries, all in 1..N, and for N = 1 is `[1]` |
| `Solver.ZeroMaxIsSolution` | nqueens.py:15-18 | for a board of N queens on rows 1..N, the largest count is 0 exactly when no two queens share a row or a diagonal |
| `Solver.Solve` | nqueens.py:6-27 | the result is `Run` from no drawn shuffle: each round reshuffles exactly when the previous pass adopted nothing, an adopted board starts the next round, and a board whose largest count is 0 is returned. A returned board has N entries in 1..N with no two queens attacking. The `ValueError` happens exactly when `board_size <= 0`. For N = 1 the result is `[1]`. A first shuffle that is already a solution is returned at once |
| `Solver.PlayRound` | nqueens.py:11-27 | one pass of the loop body either ends the run with what `Run` returns from that state, or hands on the list, the drawn count and the `changed` flag from which `Run` with one round fewer gives the same result |
| `Solver.RunIsSound` | nqueens.py:10-27 | whatever the rounds return from shuffles of 1..N (and from an adopted board on rows 1..N) is a solution when it is a board, and is never the `max` error when N > 0 |
| `Solver.FirstRound` | nqueens.py:11-18 | with a round and a shuffle available, N <= 0 gives the `max` error, N = 1 gives `[1]`, and a first shuffle that is already a solution is returned without repair |

## Left out

- `random.shuffle` (nqueens.py:13): Python's generator is not modelled. The shuffled boards are an input to `Solve`, each required to be an arrangement of `1..N`.
- Solve: termination is not claimed, because the source has none. For N = 2 and 3 the loop runs forever. The model proves partial correctness within a bound on rounds and on shuffles, and `OutOfInput` has no counterpart in the source.
- The module-level `print(solve(128))` (nqueens.py:62) is I/O and is not modelled.
- Running time and convergence speed are not modelled.
- Solve: uses `optimizeColumn` as written, with the row above the current one never tried. The corrected scan `IntendedOptimized` is proved separately. `Solve`'s guarantee holds with either scan, because it rests only on the final check that the largest count is 0.
- The truthiness test `if not board` (nqueens.py:23) is modelled as a test for `None`. A returned board is never empty, because it has one entry per column.

## Findings

| source | as written | input that shows it | evidently intended | confidence | as-written member | corrected member |
|---|---|---|---|---|---|---|
| nqueens.py:50 | `if i == currentPosition` compares the 0-based index with the 1-based row. So the current row is tried again, and row `currentPosition + 1` is never tried | `optimizeColumn([1, 2, 1], 0)`: column 0 has 2 conflicts, row 2 would leave 1, and the result is `None` | leave out `i + 1 == currentPosition`, so every row except the current one is tried | high; not executed | `ColumnRepair.MissedRowExample` | `ColumnRepair.IntendedFindsImprovement` |
