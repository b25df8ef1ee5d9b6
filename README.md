# Sudoku solver engine, modelled in Dafny

This project models the single-threaded engine of a 9x9 Sudoku solver. The
engine is the `SudokuGame` class and its `SudokuCell` cells, and it solves a
board of characters in place. Digits are `'1'..'9'` on the board and `0..8`
inside the solver. Any other character, `'.'` for instance, marks a free cell.

The model has five modules.

- `SudokuCell` (cell.dfy) models one cell.
  - It holds the cell's coordinates, its 3x3 region and its clue flag.
  - It holds the candidate array and a count kept beside it.
  - It has the three cell states: free, solved and attempt.
  - The source's `SudokuCell` object is a Dafny `class` whose methods update the candidate array in place. They are proved against the value functions `MarkPossible` and `MarkNotPossible`.
- `Board` (board.dfy) models the geometry of the board.
  - There are three kinds of unit: row, column and region.
  - Each unit is read as nine characters, in the order the solver's scans visit them.
  - The 20 peers of a cell are the cells that `updateAffectedCells` revisits.
  - It also counts free and placed cells.
- `Registry` (registry.dfy) models the per-unit registries.
  - Each unit has a presence table and a digit count. There is also the `cellsLeft` counter.
  - `Registers` bundles them with the board into one value.
  - The placement done by `analyseCell` and `attemptSolveCell`, and the removal done by `undoCell`, are functions on that value.
  - `Consistent` is the invariant the source's assertions and `sudokuSanityCheck` describe:
    - each presence table holds exactly the digits its unit holds;
    - each count is the number of placed digits;
    - `cellsLeft` is the number of free cells.
- `Scheduler` (scheduler.dfy) models the priority queue as a value. The queue has three FIFO buckets of cell positions: one candidate, two candidates, and three or more.
- `SudokuGame` (game.dfy) models the solver itself.
  - It is a `class` whose fields are the source's fields: registries, counts, `cellsLeft`, cell pool, queue and board. Its methods reassign those fields.
  - Its methods are:
    - `analyseBoard`;
    - the hidden-single analysers;
    - naked singles (`solveCell` and `updateAffectedCells`);
    - the `attemptSolveCell`/`undoCell` pair;
    - the backtracking search;
    - the `solveBoard` driver loop.
  - The invariant `Inv` combines three parts:
    - `Consistent` for the registries;
    - `CellsOk` for each cell: it knows its place and keeps an exact count, and a clue keeps its digit;
    - `QueueOk` for the queue: every free cell sits in exactly one bucket, the bucket of its candidate count, or is "pending". A pending cell was popped and is under trial, or has not been analysed yet. Queue size plus pending cells equals `cellsLeft`.
  - Every method that requires `Inv` restores it on each path that ends without an exception. The helpers that run between two such points are specified by their effect on the state, and lemmas beside them carry `Inv` across.
  - The entry point is `SolveSudoku`. It ends in one of three ways:
    - `Fail(InvalidBoard)` exactly for the boards that `analyseBoard` refuses (`Refused`: not 9x9, a repeated clue, or a free cell with no candidate);
    - `Done(true)` only with a board that solves the given one: every clue kept, every cell filled, every unit holding each digit once;
    - `Done(false)` or `Fail(NoSolutions)`.

`SudokuException` is modelled as a returned status: `Status` for analysis steps and `Outcome` for solving. Its two messages are the `SudokuError` values `InvalidBoard` and `NoSolutions`.

The mutual recursion between `solveBoard` and the backtracking methods terminates on a lexicographic measure. The first component is the number of free cells, and the second is the phase of the call.

## Model

| member | source | states |
|---|---|---|
| SudokuCell.GetNumber | SudokuCell.java:96-104 | Characters '1'..'9' give digits 0..8 and every other character gives FREE_CELL (-1), in both directions. A digit read back is the character the solver writes for it. |
| SudokuCell.DigitChar | SudokuGame.java:792 | The character written for a digit ('0' + n + 1) is a digit character. It is '0' only for FREE_CELL, so a real digit never comes out as '0'. |
| SudokuCell.DigitCharRoundTrip | SudokuGame.java:817 | Writing digit n into a cell and reading it back with getNumber gives n again. |
| SudokuCell.RegionOf | SudokuCell.java:20-21 | The region lies in [0,9). Region g covers rows 3(g/3)..3(g/3)+2 and columns 3(g%3)..3(g%3)+2, the block the region scans walk with rl = region/3 and rc = region%3. |
| SudokuCell.NewCell | SudokuCell.java:14-25 | A new cell has no candidate and count 0. It keeps its coordinates and clue flag, is not a hidden single, and its region is RegionOf. |
| SudokuCell.MarkPossible | SudokuCell.java:45-54 | The digit becomes a candidate and no other field changes. The count stays equal to the number of candidates. |
| SudokuCell.MarkNotPossible | SudokuCell.java:56-65 | The digit stops being a candidate and no other field changes. The count stays equal to the number of candidates. |
| SudokuCell.MarkLaws | SudokuCell.java:45-65 | Both marks are idempotent. The count changes by one only when the digit's status changes. Each mark undoes the other, and the count stays in 0..9. |
| SudokuCell.CellStatesPartition | SudokuCell.java:72-94 | Every cell is exactly one of free, solved or attempt. A clue holding its digit with no candidate is solved, never free and never an attempt. |
| SudokuCell.CompareTo | SudokuCell.java:106-109 | The result is negative exactly when the cell has fewer candidates than the other, and zero exactly when the counts are equal. |
| SudokuCell.SudokuCell.constructor | SudokuCell.java:14-25 | The new object is valid: its count matches its fresh candidate array and its region matches its coordinates. Its state is NewCell. |
| SudokuCell.SudokuCell.PossibleNumbersSanityCheck | SudokuCell.java:32-43 | Answers true exactly when the cached count equals the number of true entries of the array. |
| SudokuCell.SudokuCell.MarkNumberAsPossible | SudokuCell.java:45-54 | The object stays valid. Its new state is MarkPossible of the old one. |
| SudokuCell.SudokuCell.MarkNumberAsNotPossible | SudokuCell.java:56-65 | The object stays valid. Its new state is MarkNotPossible of the old one. |
| SudokuCell.SudokuCell.GetPossibleNumbersCount | SudokuCell.java:67-70 | The count of a valid cell lies in 0..9. |
| Board.Put | SudokuGame.java:792 | Writing a character into one cell gives that cell the character and leaves every other cell as it was. |
| Board.UnitPosIn | SudokuGame.java:470-492 | The i-th cell a scan of unit u visits lies in unit u, at place i. |
| Board.UnitPosOf | SudokuGame.java:470-492 | Every cell is the cell its row, column and region scans visit at its own place, so each scan covers its unit exactly. |
| Board.RegionCorner | SudokuGame.java:470-484 | The cell at place i of the block walk of region u has region u and block place i. |
| Board.Peers | SudokuGame.java:743-780 | A cell has 20 peers. |
| Board.PeersShareAUnit | SudokuGame.java:743-780 | A cell is among those that updateAffectedCells revisits exactly when it is on the board, is not the placed cell, and shares its row, column or region. |
| Board.FullUnitHasAll | SudokuGame.java:386 | A unit with no free cell and no repeated digit holds every digit, which is why a full unit can be skipped. |
| Registry.InUnitsMeaning | SudokuGame.java:812-814 | Under exact registries, the three-registry test for n holds exactly when some unit of the cell holds n on the board. |
| Registry.Attempt | SudokuGame.java:805-825 | attemptSolveCell on the registries: the board gets the digit's character in the cell and reads n back there. The row, column and region registries now hold n, and cellsLeft drops by one. |
| Registry.Undo | SudokuGame.java:827-857 | undoCell on the registries: the board gets '.' in the cell, the old digit leaves the row, column and region registries, and cellsLeft grows by one. |
| Registry.Register | SudokuGame.java:531-550 | Registering leaves the board as it was and takes one from cellsLeft. |
| Registry.Unregister | SudokuGame.java:838-853 | Unregistering leaves the board as it was and adds one to cellsLeft. |
| Registry.RegisterKeepsConsistent | SudokuGame.java:531-551 | Writing a digit that none of its units holds into a free cell and registering it keeps the registries exact: presence tables, counts and cellsLeft. |
| Registry.UnregisterKeepsConsistent | SudokuGame.java:836-853 | Clearing a filled cell and unregistering its digit keeps the registries exact. |
| Registry.AttemptKeepsConsistent | SudokuGame.java:805-825 | A successful attemptSolveCell keeps the registries exact. The cell then reads n back and cellsLeft drops by one. |
| Registry.UndoKeepsConsistent | SudokuGame.java:827-857 | undoCell keeps the registries exact. The cell becomes free and cellsLeft grows by one. |
| Registry.UndoAttempt | SudokuGame.java:805-857 | undoCell after a successful attemptSolveCell gives back the registries, counts and cellsLeft exactly, with '.' in the cell. |
| Registry.AttemptUndo | SudokuGame.java:805-857 | Attempting the digit that undoCell removed restores the state exactly. |
| Registry.RegisteredHere | SudokuGame.java:330-332 | The digit of a filled cell is marked in the registry of its row, column and region. |
| Registry.UndoAfterAttempt | SudokuGame.java:242-253 | After an attempt, however the deeper search rewrote the board, the undo gives back the registries from before the attempt. The search is only required to leave the same registries and the same digits. |
| Registry.SolvedBoard | SudokuGame.java:295-296 | With exact registries and cellsLeft 0, every cell holds a digit and every unit holds each digit exactly once. |
| Registry.FullUnitRegistered | SudokuGame.java:386 | Under exact registries, a unit whose count is 9 has all nine digits marked, so the analysers' early return for a full unit skips no digit that the unit lacks. |
| Registry.ValidCellAsWritten | SudokuGame.java:523-526 | The test as written: it accepts every digit that none of the three registries holds. It also accepts a digit that some registry holds, but only when all three hold it. |
| Registry.DigitRegistered | SudokuGame.java:531-550 | Under exact registries, the digit in a filled cell is marked in the registry of each of its units. |
| Registry.ValidCellAsWrittenAcceptsDuplicate | SudokuGame.java:523-526 | On any exact registries for a board with clues '5' at (0,4), (3,3) and (4,0), the check as written accepts a '5' at (4,4). The corrected check refuses it, and row 4 would repeat a digit. |
| Registry.ValidCellKeepsNoDup | SudokuGame.java:523-526 | A digit accepted by the corrected check, written into a free cell, leaves every unit without repeated digits. |
| Scheduler.PossibleNumbersToQueueLevel | SudokuGame.java:859-867 | 1 candidate gives bucket 0, 2 give bucket 1, and 3 or more give bucket 2. A count of 0 or less gives a negative level. Each case holds in both directions. |
| Scheduler.RemoveAll | SudokuGame.java:622-626 | removeIf drops exactly the given cell and keeps every other entry. |
| Scheduler.RemoveAllOnce | SudokuGame.java:622-626 | In a bucket without repeats that holds the cell, removal drops exactly one entry and the bucket stays without repeats. |
| Scheduler.Relocated | SudokuGame.java:592-639 | addToQueue as a queue value: either the queue is unchanged, or the cell is in the bucket of its new count. RelocatedMoves and RelocatedEnqueues state the rest. |
| Scheduler.RelocatedMoves | SudokuGame.java:592-639 | For a queued cell, addToQueue leaves every other cell in its bucket and puts the cell in exactly the bucket of its new count. The queue size is unchanged and no bucket repeats a cell. |
| Scheduler.RelocatedEnqueues | SudokuGame.java:592-639 | For a cell outside the queue, addToQueue either changes nothing or appends the cell at the tail of its level. The cell ends queued exactly when the queue changed, and it is appended whenever count and level both changed. |
| Scheduler.PushedFront | SudokuGame.java:650-659 | addTryCellBackToQueue as a queue value: the queue grows by one, the cell is first in its bucket, and every queued cell stays queued where it was. |
| Scheduler.PoppedFront | SudokuGame.java:661-676 | popQueueLevel on a non-empty bucket as a queue value: the queue shrinks by one and holds no cell it did not hold before. |
| Scheduler.PopPushRoundTrip | SudokuGame.java:650-669 | Putting the popped head back at the front restores the queue. A cell put at the front of a bucket is the next one popped from it. |
| Scheduler.FirstNonEmpty | SudokuGame.java:687-695 | The lowest non-empty bucket: every bucket before it is empty. It is 3 (none) exactly when the queue is empty. |
| Scheduler.ReenqueueAsWritten | SudokuGame.java:236 | addToQueue(cell, -1) as written: it always appends the cell to the bucket of its count, so the queue grows by one even when the cell is already queued. |
| Scheduler.Reenqueue | SudokuGame.java:231-237 | The corrected re-enqueue: the cell ends queued, and a cell that was already queued leaves the queue as it was. |
| Scheduler.ReenqueueAsWrittenDuplicates | SudokuGame.java:231-237 | The re-enqueue as written, applied to a cell the hidden-single pass already put in bucket 0, adds a second entry. Bucket 0 then repeats the cell and the queue outgrows cellsLeft. |
| Scheduler.ReenqueueKeepsDistinct | SudokuGame.java:231-237 | The corrected re-enqueue leaves the cell queued, keeps every bucket free of repeats, and grows the queue only when the cell was not queued. |
| SudokuGame.QueuedWhere | SudokuGame.java:661-676 | Under the queue invariant, a queued cell is free, not pending and has at least one candidate. It sits only in the bucket of its count, and every free cell that is not pending is queued. |
| SudokuGame.PopKeepsQueue | SudokuGame.java:661-676 | The popped head is free, has no attempt and has a count that matches its level. After the pop the invariant holds with that cell pending. |
| SudokuGame.PushFrontKeepsQueue | SudokuGame.java:650-659 | Putting a pending cell at the front of its bucket keeps the queue invariant with the cell no longer pending. |
| SudokuGame.RelocateQueuedKeepsQueue | SudokuGame.java:592-639 | Moving a queued cell after its count changed keeps the queue invariant. |
| SudokuGame.RelocatePendingKeepsQueue | SudokuGame.java:592-639 | addToQueue on a pending cell keeps the invariant. The cell stops being pending once it is queued. |
| SudokuGame.AttemptKeepsInvariants | SudokuGame.java:805-825 | Attempting a digit no unit holds on the cell under trial keeps registries, cells and queue invariants, and the cell is no longer pending. |
| SudokuGame.UndoKeepsInvariants | SudokuGame.java:827-857 | Undoing a placed non-clue digit keeps all invariants, and the freed cell becomes pending. |
| SudokuGame.Recomputed | SudokuGame.java:571-579 | Digit n is a candidate exactly when none of the three registries of the cell holds it. The count is 0 exactly when all nine are registered, and the other fields are unchanged. |
| SudokuGame.ReviseKeepsInvariants | SudokuGame.java:556-590 | Replacing a free cell's candidates by a non-empty set and moving it with addToQueue keeps the cell and queue invariants. |
| SudokuGame.HiddenSingle | SudokuGame.java:448-464 | After processOneOccurence the cell's only candidate is num, its count is 1 and it is flagged as a hidden single. |
| SudokuGame.HolderHasCandidate | SudokuGame.java:393-401 | Every cell a scan counts for digit n is on the board and has n as a candidate. |
| SudokuGame.CountedStep | SudokuGame.java:393-404 | One more cell read keeps the scan's counter equal to min(2, cells found so far), and remembers the cell when it is the only one found. |
| SudokuGame.HoldersPruned | SudokuGame.java:393-401 | Removing candidates never adds a holder: after pruning, a unit has at most as many cells that can take n, and each of them could take n before. |
| SudokuGame.ScanAfterPruning | SudokuGame.java:393-412 | A scan made after pruning finds nothing for a digit that had no holder before. When the digit had exactly one holder and the scan finds any, it finds exactly that one. |
| SudokuGame.DigitAnalysed | SudokuGame.java:405-412 | The scan finds no cell for a lacking digit exactly when the digit is homeless: no cell of the unit can take it, which is the "no solutions" throw. Otherwise the digit is handled, and a digit with a single holder has that holder down to it alone. |
| SudokuGame.HiddenSingleKeepsSoles | SudokuGame.java:448-464 | processOneOccurence never disturbs a cell that is already down to one candidate. |
| SudokuGame.SinglesKept | SudokuGame.java:448-464 | Later hidden-single steps keep every single already set by the pass. |
| SudokuGame.UnitPassedHeld | SudokuGame.java:389 | A digit the unit already holds is skipped without work. |
| SudokuGame.UnitPassedFull | SudokuGame.java:386 | A unit holding all nine digits returns at once and is found. |
| SudokuGame.UnitPassedFound | SudokuGame.java:387-413 | When the digit loop has run over all nine digits, the unit is found: every lacking digit with a single holder is that holder's only candidate, and no lacking digit is homeless. |
| SudokuGame.FoundEarlier | SudokuGame.java:299-306 | A unit found with holders counted in a pool stays found when holders are counted in any earlier pool of the same pass. |
| SudokuGame.FoundKept | SudokuGame.java:299-306 | Later analysers in the same pass keep a found unit found. |
| SudokuGame.FoundInStep | SudokuGame.java:299-306 | The set of units the pass has found grows by the unit just analysed, and every unit found before stays found. |
| SudokuGame.UnitsBelowMeaning | SudokuGame.java:299-306 | After i rounds of findOneOccurrences, the units taken are exactly the rows, columns and regions of index below i. |
| SudokuGame.AllFound | SudokuGame.java:299-306 | When all 27 units are found, every unit is found and no lacking digit is homeless anywhere on the board. |
| SudokuGame.AroundFound | SudokuGame.java:231-233 | When the row, column and region of a cell are found, no lacking digit is homeless in any of them. |
| SudokuGame.PrunedTrans | SudokuGame.java:299-306 | Removing candidates twice is removing candidates. |
| SudokuGame.HiddenSingleKeepsInvariants | SudokuGame.java:448-464 | Reducing a cell to one of its candidates and moving it to bucket 0 keeps the invariants. It only removes candidates, never adds any. |
| SudokuGame.NarrowedTrans | SudokuGame.java:299-306 | Running analysers one after another still only removes candidates, never releases a pending cell without filling bucket 0, and keeps the contents of bucket 0. |
| SudokuGame.RefreshKeepsInvariants | SudokuGame.java:750-753 | A peer that needs a refresh is free. When its recomputed set is non-empty, recomputing it and moving it in the queue keeps the invariants. |
| SudokuGame.OnlyCandidate | SudokuGame.java:786-790 | A cell with count 1 has exactly one candidate, the digit the downward search finds. |
| SudokuGame.SolveKeepsInvariants | SudokuGame.java:782-803 | Writing the only candidate and striking it from the cell keeps the invariants. The cell becomes solved (digit placed, count 0). |
| SudokuGame.DiscardKeepsInvariants | SudokuGame.java:257-258 | Striking a failed digit from the cell under trial keeps the invariants. The count drops by one and exactly that digit leaves the candidates. |
| SudokuGame.ScanUnit | SudokuGame.java:388-404 | The scan of a unit for digit n returns min(2, number of cells of the unit that are not skipped and have n as a candidate). When that number is 1 it also returns the cell. |
| SudokuGame.Refused | SudokuGame.java:353-377 | The boards analyseBoard refuses: not 9x9, a clue that repeats an earlier one in a unit, or a free cell with no candidate. A board it does not refuse is 9x9 and repeats no digit in any unit. |
| SudokuGame.NoRepeatedClueNoDup | SudokuGame.java:359-366 | A board whose first pass meets no repeated clue holds no digit twice in any row, column or region. |
| SudokuGame.PosAtIndex | SudokuGame.java:364-365 | The row-major visiting order of analyseBoard visits every cell once: PosAt inverts Index. |
| SudokuGame.EmptyConsistent | SudokuGame.java:17-26 | Fresh registries (all false, all counts 0, cellsLeft 81) are exact for a board with no digit. |
| SudokuGame.RepeatedClueMeaning | SudokuGame.java:523-529 | While the clues are being registered, the registries hold a clue's digit exactly when an earlier cell of one of its units holds it. |
| SudokuGame.MaskedRegistersStep | SudokuGame.java:359-366 | One cell of the first pass keeps the registries exact for the part of the board read so far. A repeated clue is exactly what the registry test catches. |
| SudokuGame.FirstPassStep | SudokuGame.java:916-935 | createAndAnalyseCell on the next cell keeps the first-pass invariant: free cells become pending, and clues that are not repeats are registered. |
| SudokuGame.SecondPassCell | SudokuGame.java:556-567 | In the second pass a filled cell is solved and never dead. A free cell has no candidate yet, is pending, and is dead exactly when its recomputed set is empty. |
| SudokuGame.PassStepSound | SudokuGame.java:556-590 | One step of the second pass goes through exactly when the cell is not dead, and then it keeps the second-pass invariant. |
| SudokuGame.SecondPassRunDone | SudokuGame.java:368-377 | The second pass completes exactly when the board is not refused. It then leaves every invariant, nothing pending, no attempts, and a queue whose size equals cellsLeft. |
| SudokuGame.SecondPassFromFirst | SudokuGame.java:353-377 | After a complete first pass, the second pass completes exactly when the board is not refused, with the invariants and queue size equal to cellsLeft. |
| SudokuGame.RefusedUnlessAccepted | SudokuGame.java:368-375 | A 9x9 board is refused exactly when some cell fails the first or second pass. |
| SudokuGame.SolvedIsSolution | SudokuGame.java:295-296 | A state with exact registries, valid cells and no free cell holds a solution of the given board: clues kept, cells filled, every unit holds each digit once. |
| SudokuGame.SanityFacts | SudokuGame.java:308-351 | What sudokuSanityCheck asserts holds in every settled state: each placed digit is marked in its three registries, each free cell has a candidate, each unit count equals its placed digits, and cellsLeft equals the free cells. |
| SudokuGame.SudokuGame.constructor | SudokuGame.java:85-90 | The new game holds the given board, empty registries, 81 free cells, an empty queue and no analysis yet. |
| SudokuGame.SudokuGame.AnalyseCell | SudokuGame.java:510-554 | A free cell is accepted and nothing changes. For a digit the answer is the corrected duplicate check: an accepted digit is registered, and a refused one changes nothing. |
| SudokuGame.SudokuGame.AttemptSolveCell | SudokuGame.java:805-825 | Succeeds exactly when no unit of the cell holds n. On success the new state is Attempt of the old one, otherwise nothing changes. The invariants hold either way. |
| SudokuGame.SudokuGame.UndoCell | SudokuGame.java:827-857 | The new state is Undo of the old one: '.' in the cell, three registry entries cleared, counts decremented and cellsLeft incremented. |
| SudokuGame.SudokuGame.AddToQueue | SudokuGame.java:592-639 | The queue becomes Relocated of the old queue for the cell's new count, and the cell stops being pending when it ends queued. |
| SudokuGame.SudokuGame.AddTryCellBackToQueue | SudokuGame.java:650-659 | The cell is put at the front of the bucket of its count and stops being pending. |
| SudokuGame.SudokuGame.PopQueueLevel | SudokuGame.java:661-676 | An empty bucket gives null and no change. Otherwise the head is returned, removed from its bucket and becomes pending. |
| SudokuGame.SudokuGame.PopQueueFirstLevel | SudokuGame.java:678-685 | As PopQueueLevel on bucket 0. |
| SudokuGame.SudokuGame.PopQueue | SudokuGame.java:687-695 | Returns the head of the lowest non-empty bucket and removes it. It answers null, with no change, only when all three buckets are empty. |
| SudokuGame.SudokuGame.GetQueueSize | SudokuGame.java:727-732 | Under the invariant, queue size plus pending cells equals cellsLeft, so it equals cellsLeft when nothing is pending. |
| SudokuGame.SudokuGame.IsCellInQueue | SudokuGame.java:734-741 | True exactly when one of the three buckets holds the cell. |
| SudokuGame.SudokuGame.AnalyseCellPossibleNumbers | SudokuGame.java:556-590 | Solved and hidden-single cells are left alone and accepted. Any other cell gets exactly the digits its three units lack. It is refused exactly when none is left, and otherwise moves with addToQueue. |
| SudokuGame.SudokuGame.ProcessOneOccurence | SudokuGame.java:448-464 | A cell already down to one candidate is left alone. Otherwise it becomes HiddenSingle(num) and moves to bucket 0. Afterwards num is its only candidate. |
| SudokuGame.SudokuGame.SetHiddenSingle | SudokuGame.java:448-464 | processOneOccurence keeps the invariants and only narrows the cells. Afterwards num is the cell's only candidate. |
| SudokuGame.SudokuGame.AnalyseUnitOneOccurences | SudokuGame.java:384-502 | The row, column and region analysers keep the invariants and only narrow. They throw "no solutions" whenever the unit lacks a digit that no cell of it can take on entry, and only when the unit is not full and such a digit is left at the end. Without a throw, every lacking digit with exactly one cell that can take it on entry is that cell's only candidate. |
| SudokuGame.SudokuGame.AnalyseUnitDigit | SudokuGame.java:388-412 | One turn of an analyser's digit loop throws exactly when the digit has no cell that can take it, and then changes nothing. Otherwise the invariants hold, the pool only narrows, and a digit with a single holder leaves that holder with it alone. |
| SudokuGame.SudokuGame.RefreshPeer | SudokuGame.java:750-753 | A peer is refreshed with the invariants kept. The answer is false only for a free peer none of whose digits is left. |
| SudokuGame.SudokuGame.UpdateAffectedCells | SudokuGame.java:743-780 | On success all 20 peers are refreshed and the invariants hold. It throws only when some free peer has no candidate left. |
| SudokuGame.SudokuGame.WriteDigit | SudokuGame.java:792-796 | Writing n and registering it succeeds exactly when no unit of the cell holds n. The new state is then Attempt of the old one. |
| SudokuGame.SudokuGame.PlaceOnlyCandidate | SudokuGame.java:786-799 | Succeeds exactly when the only candidate is not in the cell's units. The cell is then solved with its candidate struck and the solver is settled. |
| SudokuGame.SudokuGame.SolveCell | SudokuGame.java:782-803 | On success the only candidate is placed (the state is Attempt of the old one), the cell is solved and its 20 peers are refreshed. It throws only when the digit clashes or a peer is left with no candidate. |
| SudokuGame.SudokuGame.FindOneOccurrences | SudokuGame.java:299-306 | The hidden-single pass over all 27 units keeps the invariants and only narrows. It throws whenever, on entry, some unit lacks a digit that no cell of it can take, and only when such a unit is left at the end. Without a throw, in every unit each lacking digit with exactly one cell that can take it on entry is that cell's only candidate. |
| SudokuGame.SudokuGame.AnalyseIndexOneOccurences | SudokuGame.java:301-305 | One round of findOneOccurrences analyses row i, column i and region i. Without a throw, the units of index up to i are found. |
| SudokuGame.SudokuGame.AnalyseUnitInPass | SudokuGame.java:301-305 | One analyser inside a pass adds its unit to those found since the pass began, and keeps the earlier ones found. A throw leaves a homeless digit in that unit. |
| SudokuGame.SudokuGame.RequeueTrialCell | SudokuGame.java:231-237 | The cell under trial goes back to the queue (the corrected re-enqueue) and nothing is pending. |
| SudokuGame.SudokuGame.HiddenSinglesAround | SudokuGame.java:231-233 | The hidden-single pass over the row, column and region of the cell keeps the invariants and only narrows. It throws whenever, on entry, one of the three units lacks a digit that no cell of it can take, and only when such a unit is left at the end. Without a throw, the three units are found as in FindOneOccurrences. |
| SudokuGame.SudokuGame.PropagateAroundTrial | SudokuGame.java:221-239 | Either nothing the trial depends on changes and the cell still has two or more candidates, or the search ends. When it ends with a result, the invariants hold and a success leaves no free cell. |
| SudokuGame.SudokuGame.UndoTrial | SudokuGame.java:253-255 | After a failed deeper search, undoCell gives back the registries and digits from before the attempt, and the cell is pending again. |
| SudokuGame.SudokuGame.TryCandidate | SudokuGame.java:242-255 | The digit is tried exactly when no unit of the cell holds it. Success leaves no free cell. Failure gives back the registries, cells and queue. |
| SudokuGame.SudokuGame.DiscardDigit | SudokuGame.java:257-258 | The failed digit is struck from the cell: its count drops by one and the invariants hold. |
| SudokuGame.SudokuGame.TryNextDigit | SudokuGame.java:216-261 | One turn of the digit loop keeps the trial invariant or ends the search with a result that keeps the invariants. Below the first level it ends only on success. |
| SudokuGame.SudokuGame.SolveBoardBacktrackingSingleThread | SudokuGame.java:198-271 | Ends with true, false or "no solutions". Below the first level it never throws, and a false there gives back the registries, cells and queue it found. |
| SudokuGame.SudokuGame.SolveBoardBacktracking | SudokuGame.java:119-134 | The single-threaded search ends with a result that keeps the invariants, and success leaves no free cell. |
| SudokuGame.SudokuGame.SolveBoardStep | SudokuGame.java:275-294 | A turn of the driver loop either ends the search or stays settled with one free cell fewer, or with bucket 0 newly filled. |
| SudokuGame.SudokuGame.SolveBoard | SudokuGame.java:273-297 | The driver loop terminates with true, false or "no solutions". With a result the invariants hold, and true leaves no free cell. |
| SudokuGame.SudokuGame.CreateAndAnalyseCell | SudokuGame.java:916-935 | A new cell goes into the pool, marked a clue exactly when the board holds a digit there. A free cell becomes pending. A clue is registered, or is refused ("Invalid board!") exactly when one of its units already holds it, with the state unchanged. |
| SudokuGame.SudokuGame.FirstPassVisit | SudokuGame.java:364-365 | One cell of the first loop of analyseBoard refuses exactly a repeated clue and otherwise extends the first-pass invariant. |
| SudokuGame.SudokuGame.FirstPassAll | SudokuGame.java:359-366 | The first loop ends with all clues registered, or refuses a board with a repeated clue. |
| SudokuGame.SudokuGame.FirstPassRow | SudokuGame.java:364-365 | One row of the first loop registers its clues or refuses a repeated clue. |
| SudokuGame.SudokuGame.IsSquareBoard | SudokuGame.java:356-362 | True exactly for a board of nine rows of nine cells. |
| SudokuGame.SudokuGame.SecondPassAll | SudokuGame.java:368-375 | The second loop succeeds exactly when the board is not refused. The solver is then settled with every free cell queued. |
| SudokuGame.SudokuGame.MarkAnalysed | SudokuGame.java:379-381 | The analysis flag is set and initialFreeCellsNumber records cellsLeft. The settled state is kept. |
| SudokuGame.SudokuGame.SecondPassRows | SudokuGame.java:368-375 | The second loop succeeds exactly when the second-pass run over all 81 cells is defined, and ends in that run's state. |
| SudokuGame.SudokuGame.SecondPassRow | SudokuGame.java:369-375 | One row of the second loop follows the second-pass run, or stops exactly where the run is undefined. |
| SudokuGame.SudokuGame.SecondPassVisit | SudokuGame.java:371-374 | One cell of the second loop follows the second-pass run, or stops where it is undefined. |
| SudokuGame.SudokuGame.AnalyseFreshCell | SudokuGame.java:372 | analyseCellPossibleNumbers during analysis performs exactly one step of the second-pass run. |
| SudokuGame.SudokuGame.AnalyseBoard | SudokuGame.java:353-382 | Throws "Invalid board!" exactly for the refused boards: not 9x9, a repeated clue, or a free cell without a candidate. Otherwise the solver is settled, analysed, and its queue size equals cellsLeft. |
| SudokuGame.SudokuGame.SolveSudoku | SudokuGame.java:97-117 | Ends with "Invalid board!" exactly when the board is refused. A success leaves a board that solves the given one. |

## Left out

- `Sudoku.java` is not part of this model. `parseSudokuBoard`, `printBoard`, `printBoardSimple` and the messages written to the console are I/O and are left out.
- The multi-threaded search is left out: `solveBoardBacktrackingMultiThread`, `copyBoard` and `popCellWithMostPossibilities`. It needs threads, and it is off for a game built from a board (`useMultithreading` is false). `InterruptedException` is left out with it.
- `hasLessPossibleNumbersThanLastQueueFirstCell` is left out. Its only caller is commented out.
- The static flags `leetcodeJudging` and `useMultithreading` are fixed at the values the board constructor sets, and the flag-only constructor is left out.
- `sudokuSanityCheck` returns true at once when `leetcodeJudging` is set. The lemma `SanityFacts` proves every assertion of its disabled branch for every settled state instead.
- The widths of Java `byte` counts and coordinates are not modelled. Every value stays within 0..81, so no wrap-around can occur.
- Java `assert` statements are off in the source's configuration. Those about the model's state become contracts, invariants or lemmas here. Those that the findings below break are not claimed.
- Cells are `CellState` values in the pool, keyed by position, not shared `SudokuCell` objects. The in-place `SudokuCell` class is modelled on its own and proved against the same functions. Aliasing between the pool and the queue is therefore not modelled: a queue entry is a position.
- `analyseCell(SudokuCell)` and `analyseCell(row, column)` are one member, `AnalyseCell`, keyed by position.
- `analyseBoard` checks the board's shape before it reads any cell. The source checks each row's length as it reaches it. Both refuse the same boards, and the state left behind after a refusal is not modelled.
- The three hidden-single scans (`analyseRowOneOccurences`, `analyseColumnOneOccurences`, `analyseRegionOneOccurences`) are one scan, `ScanUnit`, over the unit's cells in the order each source loop visits them. It has the same skips for full rows and columns and the same stop at two occurrences.
- `solveSudoku` returns nothing in the source. Here it returns an `Outcome` that names the exception it would have printed.
- SudokuGame.SudokuGame.AnalyseCell: implements the corrected duplicate check of Findings row 1, not the test as written at SudokuGame.java:523-526. `Registry.ValidCellAsWritten` models that test.
- SudokuGame.SudokuGame.WriteDigit: registers through the corrected duplicate check of Findings row 1.
- SudokuGame.SudokuGame.CreateAndAnalyseCell: refuses a repeated clue by the corrected duplicate check of Findings row 1. As written, a clue that all three units already hold would be accepted.
- SudokuGame.SudokuGame.AnalyseBoard: refuses boards by the corrected duplicate check of Findings row 1. As written, some boards with a repeated clue are accepted.
- SudokuGame.SudokuGame.SolveCell: places its digit through the corrected duplicate check of Findings row 1.
- SudokuGame.SudokuGame.SolveSudoku: inherits the corrected duplicate check of Findings row 1 through `AnalyseBoard`.
- SudokuGame.SudokuGame.RequeueTrialCell: is the corrected re-enqueue of Findings row 2 (`Scheduler.Reenqueue`), not addToQueue(cell, -1) as written at SudokuGame.java:236.
- SudokuGame.SudokuGame.SolveBoardBacktracking: completeness is not proved. When it returns false or throws "no solutions", the contract does not say that the board has no solution.
- SudokuGame.SudokuGame.SolveBoard: does not prove that `Done(false)` or `Fail(NoSolutions)` means the board has no solution. It proves only that the invariants hold and that `Done(true)` leaves a solution.
- SudokuGame.SudokuGame.SolveBoardBacktrackingSingleThread: the same weaker contract as `SolveBoard`. Completeness of the search is not proved.
- SudokuGame.SudokuGame.SolveSudoku: the same weaker contract. It states that success yields a solution, not that failure means there is none.

## Findings

| source | as written | input that shows it | evidently intended | confidence | as-written member | corrected member |
|---|---|---|---|---|---|---|
| SudokuGame.java:523-526 | The duplicate check accepts a digit when the row, column and region registries agree, so it also accepts one that all three already hold. | Clues '5' at (0,4), (3,3) and (4,0), then '5' at (4,4): row 4, column 4 and region 4 all hold a 5, and the clue is accepted. | Refuse the digit when any of the three registries holds it. | not executed | Registry.ValidCellAsWrittenAcceptsDuplicate | Registry.ValidCellKeepsNoDup |
| SudokuGame.java:231-237 | At the first backtracking level the cell under trial is re-queued with addToQueue(cell, -1) after the hidden-single pass. That pass may already have put this same cell in bucket 0, and then it is added twice. | The trial cell T has three or more candidates, and its first digit a fails and is struck. In the pass, a cell X in T's row and region is now the only cell of the row that can take a, so it is reduced to {a}. That leaves T the only cell of its region that can take some digit m, so processOneOccurence(T, m) appends T to bucket 0. Line 236 then appends T a second time. | Re-queue the cell only when no bucket holds it. | not executed | Scheduler.ReenqueueAsWrittenDuplicates | Scheduler.ReenqueueKeepsDistinct |
