/**
 * The solver of SudokuGame.java: the board and its registries, the cell pool,
 * the three-level queue, constraint propagation (naked and hidden singles)
 * and backtracking.  The state is held in fields of the class `SudokuGame`;
 * the facts that every operation keeps are stated as predicates over that
 * state, on values, so that each can be proved once and reused.
 */
module SudokuGame {
  import opened SudokuCell
  import opened Board
  import opened Registry
  import opened Scheduler

  /** The two messages of SudokuException. */
  datatype SudokuError = InvalidBoard | NoSolutions

  /** How an operation that may throw SudokuException ends. */
  datatype Status = Ok | Throw(error: SudokuError)

  /** How solving ends: a result, or SudokuException. */
  datatype Outcome = Done(solved: bool) | Fail(error: SudokuError)

  type Cells = seq<seq<CellState>>

  /**
   * The cell at `p` knows its place, keeps its count in step with its
   * candidates, is a clue exactly when the given board has a digit there, and
   * a clue keeps its digit and has no candidate.
   */
  ghost predicate CellOk(cell: CellState, p: Pos, ch: char, given: char)
  {
    ValidPos(p) && cell.row == p.row && cell.column == p.column
    && cell.region == RegionOf(p.row, p.column) && SaneCount(cell)
    && cell.isClue == !IsFree(given)
    && (cell.isClue ==> ch == given && cell.possibleNumbersCount == 0)
  }

  /** The cell facts at one position; nothing is asked off the board. */
  ghost predicate CellFits(b: seq<seq<char>>, given: seq<seq<char>>, cells: Cells, p: Pos)
    requires IsGrid(b) && IsGrid(given) && IsGrid(cells)
  {
    ValidPos(p) ==> CellOk(At(cells, p), p, At(b, p), At(given, p))
  }

  /** Every cell of the pool fits the board and the given clues. */
  ghost predicate CellsOk(b: seq<seq<char>>, given: seq<seq<char>>, cells: Cells)
  {
    IsGrid(b) && IsGrid(given) && IsGrid(cells)
    && forall p :: CellFits(b, given, cells, p)
  }

  /** A queued cell: free, with at least one candidate, in the bucket of its count. */
  ghost predicate Waiting(b: seq<seq<char>>, cells: Cells, p: Pos, level: int)
    requires IsGrid(b) && IsGrid(cells)
  {
    ValidPos(p) && IsFree(At(b, p)) && At(cells, p).possibleNumbersCount >= 1
    && PossibleNumbersToQueueLevel(At(cells, p).possibleNumbersCount) == level
  }

  /** A free cell that is not pending has a candidate and sits in the bucket of its count. */
  ghost predicate Accounted(b: seq<seq<char>>, cells: Cells, q: Queue, pending: set<Pos>, p: Pos)
    requires IsGrid(b) && IsGrid(cells) && IsQueue(q)
  {
    ValidPos(p) && IsFree(At(b, p)) && p !in pending ==>
      At(cells, p).possibleNumbersCount >= 1
      && p in q[PossibleNumbersToQueueLevel(At(cells, p).possibleNumbersCount)]
  }

  /**
   * The queue and the `pending` cells (taken out of the queue, or not yet
   * queued, and not yet placed) account for every free cell exactly once:
   * every queued cell is free and sits in the bucket of its count, every
   * other free cell is pending, and their numbers add up to `cellsLeft`.
   */
  ghost predicate QueueOk(b: seq<seq<char>>, cells: Cells, q: Queue, cellsLeft: int, pending: set<Pos>)
    requires IsGrid(b) && IsGrid(cells)
  {
    IsQueue(q) && DistinctBuckets(q)
    && (forall l, i :: 0 <= l < QUEUE_PRIORITY_LEVELS && 0 <= i < |q[l]| ==>
          Waiting(b, cells, q[l][i], l) && q[l][i] !in pending)
    && (forall p :: p in pending ==> ValidPos(p) && IsFree(At(b, p)))
    && (forall p :: Accounted(b, cells, q, pending, p))
    && QueueSize(q) + |pending| == cellsLeft
  }

  /** No placed cell keeps candidates: there is no tentative placement on the board. */
  ghost predicate NoAttemptAt(b: seq<seq<char>>, cells: Cells, p: Pos)
    requires IsGrid(b) && IsGrid(cells)
  {
    ValidPos(p) && !IsFree(At(b, p)) ==> At(cells, p).possibleNumbersCount == 0
  }

  /** No cell of the board holds a tentative placement. */
  ghost predicate NoAttemptsIn(b: seq<seq<char>>, cells: Cells)
  {
    IsGrid(b) && IsGrid(cells) && forall p :: NoAttemptAt(b, cells, p)
  }

  /** Queue membership through the bucket of a cell's own count. */
  lemma QueuedWhere(b: seq<seq<char>>, cells: Cells, q: Queue, cellsLeft: int, pending: set<Pos>, p: Pos)
    requires IsGrid(b) && IsGrid(cells) && QueueOk(b, cells, q, cellsLeft, pending)
    requires ValidPos(p)
    ensures InQueue(q, p) ==> IsFree(At(b, p)) && p !in pending && At(cells, p).possibleNumbersCount >= 1
    ensures forall l :: 0 <= l < QUEUE_PRIORITY_LEVELS && p in q[l] ==>
      l == PossibleNumbersToQueueLevel(At(cells, p).possibleNumbersCount)
    ensures IsFree(At(b, p)) && p !in pending ==> InQueue(q, p)
  {
    assert Accounted(b, cells, q, pending, p);
    forall l | 0 <= l < QUEUE_PRIORITY_LEVELS && p in q[l]
      ensures l == PossibleNumbersToQueueLevel(At(cells, p).possibleNumbersCount)
    {
      var i :| 0 <= i < |q[l]| && q[l][i] == p;
      assert Waiting(b, cells, q[l][i], l);
    }
    if InQueue(q, p) {
      var l :| 0 <= l < QUEUE_PRIORITY_LEVELS && p in q[l];
      var i :| 0 <= i < |q[l]| && q[l][i] == p;
      assert Waiting(b, cells, q[l][i], l);
    }
  }

  /**
   * A change confined to one cell `p` that no bucket holds: the queue stays
   * valid when `p` is pending exactly when it is free afterwards and the free
   * count moves with the pending set.
   */
  lemma QueueOkFrame(b: seq<seq<char>>, cells: Cells, q: Queue, cellsLeft: int, pending: set<Pos>,
                     b2: seq<seq<char>>, cells2: Cells, cellsLeft2: int, pending2: set<Pos>, p: Pos)
    requires IsGrid(b) && IsGrid(cells) && QueueOk(b, cells, q, cellsLeft, pending)
    requires IsGrid(b2) && IsGrid(cells2) && ValidPos(p) && !InQueue(q, p)
    requires forall y :: ValidPos(y) && y != p ==> At(b2, y) == At(b, y) && At(cells2, y) == At(cells, y)
    requires pending2 - {p} == pending - {p}
    requires p in pending2 <==> IsFree(At(b2, p))
    requires QueueSize(q) + |pending2| == cellsLeft2
    ensures QueueOk(b2, cells2, q, cellsLeft2, pending2)
  {
    forall l, i | 0 <= l < QUEUE_PRIORITY_LEVELS && 0 <= i < |q[l]|
      ensures Waiting(b2, cells2, q[l][i], l) && q[l][i] !in pending2
    {
      assert Waiting(b, cells, q[l][i], l) && q[l][i] !in pending;
      assert q[l][i] != p;
      assert q[l][i] !in pending - {p};
    }
    forall y | y in pending2 ensures ValidPos(y) && IsFree(At(b2, y)) {
      if y != p { assert y in pending2 - {p}; }
    }
    forall y ensures Accounted(b2, cells2, q, pending2, y) {
      if ValidPos(y) && IsFree(At(b2, y)) && y !in pending2 {
        assert y != p;
        assert y !in pending2 - {p};
        assert Accounted(b, cells, q, pending, y);
      }
    }
  }

  /** A cell changed in place keeps the cell facts when its new state satisfies them. */
  lemma CellsOkFrame(b: seq<seq<char>>, given: seq<seq<char>>, cells: Cells,
                     b2: seq<seq<char>>, cells2: Cells, p: Pos)
    requires CellsOk(b, given, cells) && IsGrid(b2) && IsGrid(cells2) && ValidPos(p)
    requires forall y :: ValidPos(y) && y != p ==> At(b2, y) == At(b, y) && At(cells2, y) == At(cells, y)
    requires CellOk(At(cells2, p), p, At(b2, p), At(given, p))
    ensures CellsOk(b2, given, cells2)
  {
    forall y ensures CellFits(b2, given, cells2, y) {
      if ValidPos(y) && y != p {
        assert CellFits(b, given, cells, y);
      }
    }
  }

  /** Popping the head of a bucket makes it pending. */
  lemma PopKeepsQueue(b: seq<seq<char>>, cells: Cells, q: Queue, cellsLeft: int, pending: set<Pos>, level: int)
    requires IsGrid(b) && IsGrid(cells) && QueueOk(b, cells, q, cellsLeft, pending)
    requires 0 <= level < QUEUE_PRIORITY_LEVELS && q[level] != []
    ensures Waiting(b, cells, q[level][0], level) && q[level][0] !in pending
    ensures !InQueue(PoppedFront(q, level), q[level][0])
    ensures QueueOk(b, cells, PoppedFront(q, level), cellsLeft, pending + {q[level][0]})
  {
    var p := q[level][0];
    var r := PoppedFront(q, level);
    assert Waiting(b, cells, q[level][0], level);
    assert p !in r[level] by {
      forall i | 0 <= i < |r[level]| ensures r[level][i] != p {
        assert r[level][i] == q[level][i + 1];
      }
    }
    QueuedWhere(b, cells, q, cellsLeft, pending, p);
    assert DistinctBuckets(r) by {
      forall i, j | 0 <= i < j < |r[level]| ensures r[level][i] != r[level][j] {
        assert r[level][i] == q[level][i + 1] && r[level][j] == q[level][j + 1];
      }
    }
    forall l, i | 0 <= l < QUEUE_PRIORITY_LEVELS && 0 <= i < |r[l]|
      ensures Waiting(b, cells, r[l][i], l) && r[l][i] !in pending + {p}
    {
      if l == level {
        assert r[l][i] == q[l][i + 1];
        assert Waiting(b, cells, q[l][i + 1], l);
      } else {
        assert Waiting(b, cells, q[l][i], l);
      }
    }
    forall y ensures Accounted(b, cells, r, pending + {p}, y) {
      if ValidPos(y) && IsFree(At(b, y)) && y !in pending + {p} {
        assert Accounted(b, cells, q, pending, y);
        var l := PossibleNumbersToQueueLevel(At(cells, y).possibleNumbersCount);
        if l == level {
          var i :| 0 <= i < |q[l]| && q[l][i] == y;
          assert i != 0;
          assert r[l][i - 1] == y;
        }
      }
    }
  }

  /** Putting a pending cell back at the front of the bucket of its count. */
  lemma PushFrontKeepsQueue(b: seq<seq<char>>, cells: Cells, q: Queue, cellsLeft: int, pending: set<Pos>, p: Pos)
    requires IsGrid(b) && IsGrid(cells) && QueueOk(b, cells, q, cellsLeft, pending)
    requires p in pending && At(cells, p).possibleNumbersCount >= 1
    ensures var level := PossibleNumbersToQueueLevel(At(cells, p).possibleNumbersCount);
      QueueOk(b, cells, PushedFront(q, p, level), cellsLeft, pending - {p})
  {
    var level := PossibleNumbersToQueueLevel(At(cells, p).possibleNumbersCount);
    var r := PushedFront(q, p, level);
    QueuedWhere(b, cells, q, cellsLeft, pending, p);
    assert DistinctBuckets(r) by {
      forall i, j | 0 <= i < j < |r[level]| ensures r[level][i] != r[level][j] {
        if i == 0 {
          assert r[level][j] == q[level][j - 1];
        } else {
          assert r[level][i] == q[level][i - 1] && r[level][j] == q[level][j - 1];
        }
      }
    }
    forall l, i | 0 <= l < QUEUE_PRIORITY_LEVELS && 0 <= i < |r[l]|
      ensures Waiting(b, cells, r[l][i], l) && r[l][i] !in pending - {p}
    {
      if l == level && i > 0 {
        assert r[l][i] == q[l][i - 1];
      } else if l != level {
        assert r[l][i] == q[l][i];
      }
    }
    forall y ensures Accounted(b, cells, r, pending - {p}, y) {
      if ValidPos(y) && IsFree(At(b, y)) && y !in pending - {p} {
        var l := PossibleNumbersToQueueLevel(At(cells, y).possibleNumbersCount);
        if y == p {
          assert r[level][0] == p;
        } else {
          assert Accounted(b, cells, q, pending, y);
          var i :| 0 <= i < |q[l]| && q[l][i] == y;
          if l == level { assert r[l][i + 1] == y; }
        }
      }
    }
  }

  /**
   * A queued cell whose candidates changed (count still positive) moves to
   * the bucket of its new count with addToQueue, and the queue stays valid.
   */
  lemma RelocateQueuedKeepsQueue(b: seq<seq<char>>, cells: Cells, q: Queue, cellsLeft: int, pending: set<Pos>,
                                 p: Pos, cell: CellState)
    requires IsGrid(b) && IsGrid(cells) && QueueOk(b, cells, q, cellsLeft, pending)
    requires ValidPos(p) && IsFree(At(b, p)) && p !in pending && cell.possibleNumbersCount >= 1
    ensures var previous := At(cells, p).possibleNumbersCount;
      QueueOk(b, Put(cells, p, cell), Relocated(q, p, previous, cell.possibleNumbersCount), cellsLeft, pending)
  {
    var previous := At(cells, p).possibleNumbersCount;
    var cells2 := Put(cells, p, cell);
    var r := Relocated(q, p, previous, cell.possibleNumbersCount);
    QueuedWhere(b, cells, q, cellsLeft, pending, p);
    var pl := PossibleNumbersToQueueLevel(previous);
    assert p in q[pl];
    RelocatedMoves(q, p, previous, cell.possibleNumbersCount);
    forall l, i | 0 <= l < QUEUE_PRIORITY_LEVELS && 0 <= i < |r[l]|
      ensures Waiting(b, cells2, r[l][i], l) && r[l][i] !in pending
    {
      var y := r[l][i];
      assert y in r[l];
      if y != p {
        assert y in q[l];
        var j :| 0 <= j < |q[l]| && q[l][j] == y;
        assert Waiting(b, cells, q[l][j], l);
      }
    }
    forall y ensures Accounted(b, cells2, r, pending, y) {
      if ValidPos(y) && IsFree(At(b, y)) && y !in pending && y != p {
        assert Accounted(b, cells, q, pending, y);
      }
    }
  }

  /**
   * A pending cell (popped, or not yet queued) whose candidates changed, its
   * count still positive: addToQueue either leaves it pending or queues it in
   * the bucket of its count, and the queue stays valid either way.
   */
  lemma RelocatePendingKeepsQueue(b: seq<seq<char>>, cells: Cells, q: Queue, cellsLeft: int, pending: set<Pos>,
                                  p: Pos, cell: CellState, previous: int)
    requires IsGrid(b) && IsGrid(cells) && QueueOk(b, cells, q, cellsLeft, pending)
    requires p in pending && cell.possibleNumbersCount >= 1
    ensures var r := Relocated(q, p, previous, cell.possibleNumbersCount);
      QueueOk(b, Put(cells, p, cell), r, cellsLeft, if InQueue(r, p) then pending - {p} else pending)
  {
    var cells2 := Put(cells, p, cell);
    var r := Relocated(q, p, previous, cell.possibleNumbersCount);
    var level := PossibleNumbersToQueueLevel(cell.possibleNumbersCount);
    QueuedWhere(b, cells, q, cellsLeft, pending, p);
    RelocatedEnqueues(q, p, previous, cell.possibleNumbersCount);
    var pending2 := if InQueue(r, p) then pending - {p} else pending;
    forall l, i | 0 <= l < QUEUE_PRIORITY_LEVELS && 0 <= i < |r[l]|
      ensures Waiting(b, cells2, r[l][i], l) && r[l][i] !in pending2
    {
      var y := r[l][i];
      if r != q && l == level && i == |q[l]| {
        assert y == p;
      } else {
        assert y == q[l][i];
        assert Waiting(b, cells, q[l][i], l) && q[l][i] !in pending;
      }
    }
    forall y ensures Accounted(b, cells2, r, pending2, y) {
      if ValidPos(y) && IsFree(At(b, y)) && y !in pending2 && y != p {
        assert Accounted(b, cells, q, pending, y);
        var l := PossibleNumbersToQueueLevel(At(cells, y).possibleNumbersCount);
        var i :| 0 <= i < |q[l]| && q[l][i] == y;
        assert r[l][i] == y;
      }
    }
  }

  /**
   * A tentative placement into a pending cell keeps all three invariants:
   * the cell leaves the pending set as it stops being free.
   */
  lemma AttemptKeepsInvariants(s: Registers, given: seq<seq<char>>, cells: Cells, q: Queue, pending: set<Pos>,
                               p: Pos, n: int)
    requires Consistent(s) && CellsOk(s.board, given, cells) && QueueOk(s.board, cells, q, s.cellsLeft, pending)
    requires p in pending && 0 <= n < SUDOKU_SIZE && !InUnits(s, p, n)
    ensures var t := Attempt(s, p, n);
      Consistent(t) && CellsOk(t.board, given, cells) && QueueOk(t.board, cells, q, t.cellsLeft, pending - {p})
  {
    var t := Attempt(s, p, n);
    AttemptKeepsConsistent(s, p, n);
    assert ValidPos(p) && IsFree(At(s.board, p));
    assert CellFits(s.board, given, cells, p);
    QueuedWhere(s.board, cells, q, s.cellsLeft, pending, p);
    CellsOkFrame(s.board, given, cells, t.board, cells, p);
    QueueOkFrame(s.board, cells, q, s.cellsLeft, pending, t.board, cells, t.cellsLeft, pending - {p}, p);
  }

  /**
   * Undoing a placement that is not a clue keeps all three invariants: the
   * cell is free again and joins the pending set.
   */
  lemma UndoKeepsInvariants(s: Registers, given: seq<seq<char>>, cells: Cells, q: Queue, pending: set<Pos>, p: Pos)
    requires Consistent(s) && CellsOk(s.board, given, cells) && QueueOk(s.board, cells, q, s.cellsLeft, pending)
    requires ValidPos(p) && !IsFree(At(s.board, p)) && !At(cells, p).isClue
    ensures var t := Undo(s, p);
      Consistent(t) && CellsOk(t.board, given, cells) && QueueOk(t.board, cells, q, t.cellsLeft, pending + {p})
  {
    var t := Undo(s, p);
    UndoKeepsConsistent(s, p);
    assert CellFits(s.board, given, cells, p);
    QueuedWhere(s.board, cells, q, s.cellsLeft, pending, p);
    assert p !in pending;
    CellsOkFrame(s.board, given, cells, t.board, cells, p);
    QueueOkFrame(s.board, cells, q, s.cellsLeft, pending, t.board, cells, t.cellsLeft, pending + {p}, p);
  }

  /** The pending set after addToQueue: the cell leaves it exactly when a bucket now holds it. */
  ghost function Settle(q: Queue, pending: set<Pos>, p: Pos): set<Pos>
    requires IsQueue(q)
  {
    if InQueue(q, p) then pending - {p} else pending
  }

  /**
   * A cell whose candidates are recomputed from the registries (the loop of
   * analyseCellPossibleNumbers): exactly the digits that none of its units
   * holds, with the count to match; nothing else about the cell changes.
   */
  function Recomputed(cell: CellState, s: Registers, p: Pos): (r: CellState)
    requires WellShaped(s) && ValidPos(p)
    ensures SaneCount(r)
    ensures forall n :: 0 <= n < SUDOKU_SIZE ==> (r.possibleNumbers[n] <==> !InUnits(s, p, n))
    ensures r.possibleNumbersCount == 0 <==> forall n :: 0 <= n < SUDOKU_SIZE ==> InUnits(s, p, n)
    ensures r == cell.(possibleNumbers := r.possibleNumbers, possibleNumbersCount := r.possibleNumbersCount)
  {
    var candidates := seq(SUDOKU_SIZE, n requires 0 <= n < SUDOKU_SIZE => !InUnits(s, p, n));
    CountTrueZero(candidates);
    cell.(possibleNumbers := candidates, possibleNumbersCount := CountTrue(candidates))
  }

  /**
   * A free cell given new candidates (at least one) and then moved with
   * addToQueue keeps the cell and queue invariants; `previous` is the count
   * the queue knows the cell by, when a bucket holds it.
   */
  lemma ReviseKeepsInvariants(s: Registers, given: seq<seq<char>>, cells: Cells, q: Queue, pending: set<Pos>,
                              p: Pos, cell: CellState, previous: int)
    requires Consistent(s) && CellsOk(s.board, given, cells) && QueueOk(s.board, cells, q, s.cellsLeft, pending)
    requires ValidPos(p) && IsFree(At(s.board, p)) && SaneCount(cell) && cell.possibleNumbersCount >= 1
    requires cell == At(cells, p).(possibleNumbers := cell.possibleNumbers,
                                   possibleNumbersCount := cell.possibleNumbersCount, oneOccurence := cell.oneOccurence)
    requires p !in pending ==> previous == At(cells, p).possibleNumbersCount
    ensures var r := Relocated(q, p, previous, cell.possibleNumbersCount);
      CellsOk(s.board, given, Put(cells, p, cell))
      && QueueOk(s.board, Put(cells, p, cell), r, s.cellsLeft, Settle(r, pending, p))
  {
    assert CellFits(s.board, given, cells, p);
    CellsOkFrame(s.board, given, cells, s.board, Put(cells, p, cell), p);
    if p in pending {
      RelocatePendingKeepsQueue(s.board, cells, q, s.cellsLeft, pending, p, cell, previous);
    } else {
      RelocateQueuedKeepsQueue(s.board, cells, q, s.cellsLeft, pending, p, cell);
      assert pending - {p} == pending;
    }
  }

  /** isNumberPossible on a cell value. */
  predicate Possible(cell: CellState, n: int)
  {
    0 <= n < |cell.possibleNumbers| && cell.possibleNumbers[n]
  }

  /** Candidates only disappear from `cells` to `cells2`. */
  ghost predicate Pruned(cells: Cells, cells2: Cells)
    requires IsGrid(cells) && IsGrid(cells2)
  {
    forall p, m :: ValidPos(p) && Possible(At(cells2, p), m) ==> Possible(At(cells, p), m)
  }

  /** The cell after processOneOccurence: `num` is its only candidate, and it is marked as a hidden single. */
  function HiddenSingle(cell: CellState, num: int): (r: CellState)
    requires 0 <= num < SUDOKU_SIZE
    ensures SaneCount(r) && r.possibleNumbersCount == 1 && r.oneOccurence
    ensures forall m :: 0 <= m < SUDOKU_SIZE ==> (r.possibleNumbers[m] <==> m == num)
    ensures r == cell.(possibleNumbers := r.possibleNumbers, possibleNumbersCount := 1, oneOccurence := true)
  {
    var only := seq(SUDOKU_SIZE, m requires 0 <= m < SUDOKU_SIZE => m == num);
    CountTrueUpdate(only, num, false);
    CountTrueZero(only[num := false]);
    cell.(possibleNumbers := only, possibleNumbersCount := 1, oneOccurence := true)
  }

  /**
   * Whether a scan of a unit of kind `k` passes over `p` without looking at
   * it: the row scan skips full columns, the column scan full rows, and the
   * region scan both.
   */
  predicate Skipped(s: Registers, k: Kind, p: Pos)
    requires WellShaped(s) && ValidPos(p)
  {
    match k
    case Row => s.columnsNumbersCount[p.column] == SUDOKU_SIZE
    case Column => s.rowsNumbersCount[p.row] == SUDOKU_SIZE
    case Region => s.rowsNumbersCount[p.row] == SUDOKU_SIZE || s.columnsNumbersCount[p.column] == SUDOKU_SIZE
  }

  /**
   * The cells among the first `i` of unit `u` of kind `k`, in scan order,
   * that the scan for digit `n` looks at and that have `n` as a candidate.
   */
  function Holders(s: Registers, cells: Cells, k: Kind, u: int, n: int, i: int): (h: seq<Pos>)
    requires WellShaped(s) && IsGrid(cells) && 0 <= u < SUDOKU_SIZE && 0 <= i <= SUDOKU_SIZE
    ensures |h| <= i
  {
    if i == 0 then []
    else
      var y := UnitPos(k, u, i - 1);
      Holders(s, cells, k, u, n, i - 1) + (if !Skipped(s, k, y) && Possible(At(cells, y), n) then [y] else [])
  }

  /** Every holder is a cell of the board that has `n` as a candidate. */
  lemma {:induction false} HolderHasCandidate(s: Registers, cells: Cells, k: Kind, u: int, n: int, i: int, y: Pos)
    requires WellShaped(s) && IsGrid(cells) && 0 <= u < SUDOKU_SIZE && 0 <= i <= SUDOKU_SIZE
    requires y in Holders(s, cells, k, u, n, i)
    ensures ValidPos(y) && Possible(At(cells, y), n)
  {
    var h := Holders(s, cells, k, u, n, i - 1);
    if y in h {
      HolderHasCandidate(s, cells, k, u, n, i - 1, y);
    }
  }

  /** Scanning further never loses a holder. */
  lemma {:induction false} HoldersGrow(s: Registers, cells: Cells, k: Kind, u: int, n: int, i: int, j: int)
    requires WellShaped(s) && IsGrid(cells) && 0 <= u < SUDOKU_SIZE && 0 <= i <= j <= SUDOKU_SIZE
    ensures |Holders(s, cells, k, u, n, i)| <= |Holders(s, cells, k, u, n, j)|
  {
    var counts := seq(SUDOKU_SIZE + 1, x requires 0 <= x <= SUDOKU_SIZE => |Holders(s, cells, k, u, n, x)|);
    forall x | 0 < x <= SUDOKU_SIZE ensures counts[x - 1] <= counts[x] {
      HoldersStep(s, cells, k, u, n, x);
    }
    Ascending(counts, i, j);
  }

  /** In a sequence where each entry is at least the one before, a later entry is at least an earlier one. */
  lemma {:induction false} Ascending(a: seq<int>, i: int, j: int)
    requires 0 <= i <= j < |a| && forall x :: 0 < x < |a| ==> a[x - 1] <= a[x]
    ensures a[i] <= a[j]
    decreases j
  {
    if i < j {
      Ascending(a, i, j - 1);
    }
  }

  /** One more cell scanned adds at most that cell to the holders. */
  lemma HoldersStep(s: Registers, cells: Cells, k: Kind, u: int, n: int, j: int)
    requires WellShaped(s) && IsGrid(cells) && 0 <= u < SUDOKU_SIZE && 0 < j <= SUDOKU_SIZE
    ensures |Holders(s, cells, k, u, n, j - 1)| <= |Holders(s, cells, k, u, n, j)|
  {
    var y := UnitPos(k, u, j - 1);
    var e := if !Skipped(s, k, y) && Possible(At(cells, y), n) then [y] else [];
    assert Holders(s, cells, k, u, n, j) == Holders(s, cells, k, u, n, j - 1) + e;
  }

  /**
   * What a scan has found after the first `i` cells of the unit: the number
   * of holders, counting stopped at two, and the holder when there is one.
   */
  ghost predicate Counted(s: Registers, cells: Cells, k: Kind, u: int, n: int, i: int,
                          occurences: int, occurencePos: Option<Pos>)
  {
    WellShaped(s) && IsGrid(cells) && 0 <= u < SUDOKU_SIZE && 0 <= i <= SUDOKU_SIZE
    && var h := Holders(s, cells, k, u, n, i);
    occurences == (if |h| < 2 then |h| else 2) && (occurences == 1 ==> occurencePos == Some(h[0]))
  }

  /** One more cell read, `y` at place `i`: the scan's state after it (at `j`), from the state before. */
  lemma CountedStep(s: Registers, cells: Cells, k: Kind, u: int, n: int, i: int, j: int, y: Pos,
                    occurences: int, occurencePos: Option<Pos>)
    requires WellShaped(s) && IsGrid(cells) && 0 <= u < SUDOKU_SIZE && 0 <= i < SUDOKU_SIZE && j == i + 1
    requires y == UnitPos(k, u, i)
    requires Counted(s, cells, k, u, n, i, occurences, occurencePos) && occurences < 2
    ensures if !Skipped(s, k, y) && Possible(At(cells, y), n) then Counted(s, cells, k, u, n, j, occurences + 1, Some(y))
      else Counted(s, cells, k, u, n, j, occurences, occurencePos)
  {
    var h := Holders(s, cells, k, u, n, i);
    var e := if !Skipped(s, k, y) && Possible(At(cells, y), n) then [y] else [];
    assert Holders(s, cells, k, u, n, j) == h + e;
    if |h| == 1 {
      assert (h + e)[0] == h[0];
    } else if |h| == 0 && e != [] {
      assert (h + e)[0] == y;
    }
  }

  /** Once two holders are found, the rest of the unit does not change the outcome. */
  lemma CountedTwo(s: Registers, cells: Cells, k: Kind, u: int, n: int, i: int, j: int, occurencePos: Option<Pos>)
    requires WellShaped(s) && IsGrid(cells) && 0 <= u < SUDOKU_SIZE && 0 <= i <= j <= SUDOKU_SIZE
    requires Counted(s, cells, k, u, n, i, 2, occurencePos)
    ensures Counted(s, cells, k, u, n, j, 2, occurencePos)
  {
    HoldersGrow(s, cells, k, u, n, i, j);
  }

  /**
   * Turning a cell with candidate `num` into a hidden single keeps every
   * invariant, removes candidates only, and leaves no tentative placement.
   */
  lemma HiddenSingleKeepsInvariants(s: Registers, given: seq<seq<char>>, cells: Cells, q: Queue, pending: set<Pos>,
                                    p: Pos, num: int)
    requires Consistent(s) && CellsOk(s.board, given, cells) && QueueOk(s.board, cells, q, s.cellsLeft, pending)
    requires NoAttemptsIn(s.board, cells)
    requires ValidPos(p) && 0 <= num < SUDOKU_SIZE && Possible(At(cells, p), num)
    ensures var cell := HiddenSingle(At(cells, p), num);
      var r := Relocated(q, p, At(cells, p).possibleNumbersCount, 1);
      CellsOk(s.board, given, Put(cells, p, cell))
      && QueueOk(s.board, Put(cells, p, cell), r, s.cellsLeft, Settle(r, pending, p))
      && NoAttemptsIn(s.board, Put(cells, p, cell))
      && Pruned(cells, Put(cells, p, cell))
  {
    var old_ := At(cells, p);
    var cell := HiddenSingle(old_, num);
    assert CellFits(s.board, given, cells, p);
    if !IsFree(At(s.board, p)) {
      assert NoAttemptAt(s.board, cells, p);
      CountTrueZero(old_.possibleNumbers);
      assert false;
    }
    ReviseKeepsInvariants(s, given, cells, q, pending, p, cell, old_.possibleNumbersCount);
    var cells2 := Put(cells, p, cell);
    forall y ensures NoAttemptAt(s.board, cells2, y) {
      if ValidPos(y) && y != p {
        assert NoAttemptAt(s.board, cells, y);
      }
    }
    forall y, m | ValidPos(y) && Possible(At(cells2, y), m) ensures Possible(At(cells, y), m) {
      if y == p {
        assert m == num;
      }
    }
  }

  /** `n` is the only candidate left in the cell. */
  ghost predicate SoleCandidate(cell: CellState, n: int)
  {
    forall m :: Possible(cell, m) <==> m == n
  }

  /** Pruning twice is pruning. */
  lemma PrunedTrans(cells: Cells, cells2: Cells, cells3: Cells)
    requires IsGrid(cells) && IsGrid(cells2) && IsGrid(cells3) && Pruned(cells, cells2) && Pruned(cells2, cells3)
    ensures Pruned(cells, cells3)
  {
  }

  /** A cell of `cells` down to one candidate still has that one alone in `cells2`. */
  ghost predicate SolesKept(cells: Cells, cells2: Cells)
    requires IsGrid(cells) && IsGrid(cells2)
  {
    forall y, n :: ValidPos(y) && SoleCandidate(At(cells, y), n) ==> SoleCandidate(At(cells2, y), n)
  }

  /**
   * Making a cell with candidate `num` a hidden single for `num` keeps every
   * cell that is down to one candidate as it is.
   */
  lemma HiddenSingleKeepsSoles(cells: Cells, p: Pos, num: int)
    requires IsGrid(cells) && ValidPos(p) && 0 <= num < SUDOKU_SIZE && Possible(At(cells, p), num)
    ensures SolesKept(cells, Put(cells, p, HiddenSingle(At(cells, p), num)))
  {
    var cells2 := Put(cells, p, HiddenSingle(At(cells, p), num));
    forall y, n | ValidPos(y) && SoleCandidate(At(cells, y), n)
      ensures SoleCandidate(At(cells2, y), n)
    {
      if y == p {
        assert n == num;
      }
    }
  }

  /**
   * What the hidden-single pass may do to the cell pool, the queue and the
   * pending set: candidates only disappear, a cell down to one candidate
   * keeps it, bucket 0 only grows at its end, a cell that stays pending
   * keeps its state, and a cell leaves the pending set only by joining the
   * queue, which then has a cell in bucket 0.
   */
  ghost predicate Narrowed(cells: Cells, q: Queue, pending: set<Pos>, cells2: Cells, q2: Queue, pending2: set<Pos>)
  {
    IsGrid(cells) && IsGrid(cells2) && IsQueue(q) && IsQueue(q2)
    && pending2 <= pending && Pruned(cells, cells2) && q[0] <= q2[0]
    && (pending2 == pending || q2[0] != [])
    && (forall y :: ValidPos(y) && y in pending2 ==> At(cells2, y) == At(cells, y))
    && SolesKept(cells, cells2)
  }

  /** Narrowing twice is narrowing. */
  lemma NarrowedTrans(cells: Cells, q: Queue, pending: set<Pos>, cells2: Cells, q2: Queue, pending2: set<Pos>,
                      cells3: Cells, q3: Queue, pending3: set<Pos>)
    requires Narrowed(cells, q, pending, cells2, q2, pending2) && Narrowed(cells2, q2, pending2, cells3, q3, pending3)
    ensures Narrowed(cells, q, pending, cells3, q3, pending3)
  {
  }

  /**
   * Digit `n` is missing from unit `u` of kind `k` and no cell the scan
   * looks at may take it, so the unit can never be completed.
   */
  ghost predicate Homeless(s: Registers, cells: Cells, k: Kind, u: int, n: int)
  {
    WellShaped(s) && IsGrid(cells) && 0 <= u < SUDOKU_SIZE && 0 <= n < SUDOKU_SIZE
    && !Numbers(s, k)[u][n] && Holders(s, cells, k, u, n, SUDOKU_SIZE) == []
  }

  /**
   * Every digit below `d` that unit `u` of kind `k` lacks and that has a
   * single holder in `cells0` is that holder's only candidate in `cells`.
   */
  ghost predicate SinglesSet(s: Registers, cells0: Cells, cells: Cells, k: Kind, u: int, d: int)
  {
    WellShaped(s) && IsGrid(cells0) && IsGrid(cells) && 0 <= u < SUDOKU_SIZE
    && forall n :: 0 <= n < d && n < SUDOKU_SIZE && !Numbers(s, k)[u][n]
                   && |Holders(s, cells0, k, u, n, SUDOKU_SIZE)| == 1 ==>
         var y := Holders(s, cells0, k, u, n, SUDOKU_SIZE)[0];
         ValidPos(y) && SoleCandidate(At(cells, y), n)
  }

  /**
   * Unit `u` of kind `k` has been through the hidden-single pass without
   * failing, counting holders in `cells0`: every single is set and no
   * digit is homeless.
   */
  ghost predicate Found(s: Registers, cells0: Cells, cells: Cells, k: Kind, u: int)
  {
    SinglesSet(s, cells0, cells, k, u, SUDOKU_SIZE) && forall n :: !Homeless(s, cells0, k, u, n)
  }

  /**
   * The hidden-single pass over unit `u` of kind `k` has handled the digits
   * below `d` without failing, counting holders in `cells0`.
   */
  ghost predicate UnitPassed(s: Registers, cells0: Cells, cells: Cells, k: Kind, u: int, d: int)
  {
    SinglesSet(s, cells0, cells, k, u, d) && forall m :: 0 <= m < d ==> !Homeless(s, cells0, k, u, m)
  }

  /** A digit the unit already holds needs no work from the pass. */
  lemma UnitPassedHeld(s: Registers, cells0: Cells, cells: Cells, k: Kind, u: int, n: int)
    requires UnitPassed(s, cells0, cells, k, u, n) && 0 <= n < SUDOKU_SIZE && Numbers(s, k)[u][n]
    ensures UnitPassed(s, cells0, cells, k, u, n + 1)
  {
  }

  /** A unit that holds all nine digits passes without any work. */
  lemma UnitPassedFull(s: Registers, cells: Cells, k: Kind, u: int)
    requires WellShaped(s) && IsGrid(cells) && 0 <= u < SUDOKU_SIZE
    requires forall n :: 0 <= n < SUDOKU_SIZE ==> Numbers(s, k)[u][n]
    ensures UnitPassed(s, cells, cells, k, u, SUDOKU_SIZE)
  {
  }

  /** The pass over all nine digits is done: the unit is found. */
  lemma UnitPassedFound(s: Registers, cells0: Cells, cells: Cells, k: Kind, u: int)
    requires UnitPassed(s, cells0, cells, k, u, SUDOKU_SIZE)
    ensures Found(s, cells0, cells, k, u)
  {
  }

  /** A unit of the board: its kind and its index. */
  datatype UnitId = UnitId(kind: Kind, index: int)

  /** Every unit in `done` has been found. */
  ghost predicate FoundIn(s: Registers, cells0: Cells, cells: Cells, done: set<UnitId>)
  {
    forall t :: t in done ==> Found(s, cells0, cells, t.kind, t.index)
  }

  /** The units findOneOccurrences has taken after `i` rounds: rows, columns and regions of index below `i`. */
  function UnitsBelow(i: nat): (r: set<UnitId>)
  {
    if i == 0 then {}
    else UnitsBelow(i - 1) + {UnitId(Row, i - 1), UnitId(Column, i - 1), UnitId(Region, i - 1)}
  }

  /** The units below `i` are exactly those of index below `i`. */
  lemma {:induction false} UnitsBelowMeaning(i: nat, t: UnitId)
    ensures t in UnitsBelow(i) <==> 0 <= t.index < i
  {
    if i > 0 {
      UnitsBelowMeaning(i - 1, t);
      match t.kind
      case Row =>
      case Column =>
      case Region =>
    }
  }

  /** When every unit is found, no digit is homeless anywhere. */
  lemma AllFound(s: Registers, cells0: Cells, cells: Cells)
    requires FoundIn(s, cells0, cells, UnitsBelow(SUDOKU_SIZE))
    ensures forall k, u :: 0 <= u < SUDOKU_SIZE ==> Found(s, cells0, cells, k, u)
    ensures !exists k, u, n :: Homeless(s, cells0, k, u, n)
  {
    forall k, u | 0 <= u < SUDOKU_SIZE ensures Found(s, cells0, cells, k, u) {
      UnitsBelowMeaning(SUDOKU_SIZE, UnitId(k, u));
    }
    forall k, u, n | 0 <= u < SUDOKU_SIZE ensures !Homeless(s, cells0, k, u, n) {
      assert Found(s, cells0, cells, k, u);
    }
  }

  /** The three units of `p`, in the order the backtracking pass takes them. */
  function UnitsAround(p: Pos): (r: set<UnitId>)
    requires ValidPos(p)
  {
    {UnitId(Row, p.row), UnitId(Column, p.column), UnitId(Region, RegionOf(p.row, p.column))}
  }

  /** The three units of `p` found: the same stated unit by unit, and no digit homeless in them. */
  lemma AroundFound(s: Registers, cells0: Cells, cells: Cells, p: Pos)
    requires ValidPos(p) && FoundIn(s, cells0, cells, UnitsAround(p))
    ensures forall k :: Found(s, cells0, cells, k, UnitOf(k, p))
    ensures !exists k, n :: Homeless(s, cells0, k, UnitOf(k, p), n)
  {
    forall k ensures Found(s, cells0, cells, k, UnitOf(k, p)) {
      assert UnitId(k, UnitOf(k, p)) in UnitsAround(p);
    }
    forall k, n ensures !Homeless(s, cells0, k, UnitOf(k, p), n) {
      assert Found(s, cells0, cells, k, UnitOf(k, p));
    }
  }

  /**
   * A pass that began from `cells0` and has found the units of `done` by
   * the time it reaches `cells1` finds unit (k, u) too when that unit's own
   * analysis, from `cells1` to `cells2`, found it.
   */
  lemma FoundInStep(s: Registers, cells0: Cells, done: set<UnitId>, k: Kind, u: int,
                    cells1: Cells, q1: Queue, pending1: set<Pos>, cells2: Cells, q2: Queue, pending2: set<Pos>)
    requires IsGrid(cells0) && IsGrid(cells1) && FoundIn(s, cells0, cells1, done) && Pruned(cells0, cells1)
    requires Narrowed(cells1, q1, pending1, cells2, q2, pending2) && Found(s, cells1, cells2, k, u)
    ensures FoundIn(s, cells0, cells2, done + {UnitId(k, u)})
  {
    FoundEarlier(s, cells0, cells1, cells2, k, u);
    forall t | t in done ensures Found(s, cells0, cells2, t.kind, t.index) {
      FoundKept(s, cells0, t.kind, t.index, cells1, q1, pending1, cells2, q2, pending2);
    }
  }

  /** Pruning candidates never adds a holder. */
  lemma {:induction false} HoldersPruned(s: Registers, cells: Cells, cells2: Cells, k: Kind, u: int, n: int, i: int)
    requires WellShaped(s) && IsGrid(cells) && IsGrid(cells2) && Pruned(cells, cells2)
    requires 0 <= u < SUDOKU_SIZE && 0 <= i <= SUDOKU_SIZE
    ensures |Holders(s, cells2, k, u, n, i)| <= |Holders(s, cells, k, u, n, i)|
    ensures forall y :: y in Holders(s, cells2, k, u, n, i) ==> y in Holders(s, cells, k, u, n, i)
  {
    if i > 0 {
      HoldersPruned(s, cells, cells2, k, u, n, i - 1);
    }
  }

  /**
   * A scan made after candidates were pruned from `cells0`: a digit without
   * holders in `cells0` is found nowhere, and a digit with a single holder
   * there is found at that holder or nowhere.
   */
  lemma ScanAfterPruning(s: Registers, cells0: Cells, cells: Cells, k: Kind, u: int, n: int,
                         occurences: int, occurencePos: Option<Pos>)
    requires IsGrid(cells0) && Counted(s, cells, k, u, n, SUDOKU_SIZE, occurences, occurencePos)
    requires Pruned(cells0, cells)
    ensures Holders(s, cells0, k, u, n, SUDOKU_SIZE) == [] ==> occurences == 0
    ensures occurences != 0 && |Holders(s, cells0, k, u, n, SUDOKU_SIZE)| == 1 ==>
      occurences == 1 && occurencePos == Some(Holders(s, cells0, k, u, n, SUDOKU_SIZE)[0])
  {
    HoldersPruned(s, cells0, cells, k, u, n, SUDOKU_SIZE);
    var h := Holders(s, cells, k, u, n, SUDOKU_SIZE);
    if occurences != 0 && |Holders(s, cells0, k, u, n, SUDOKU_SIZE)| == 1 {
      assert h[0] in h;
    }
  }

  /**
   * What one digit's scan shows, with holders counted in `cells0`, the pool
   * when the unit's pass began: no holder found means the digit is homeless,
   * and otherwise the pass has handled one more digit: `n` is not homeless
   * in `cells0` and its single, if it had one there, is set in `cells2`.
   */
  lemma DigitAnalysed(s: Registers, cells0: Cells, cells: Cells, cells2: Cells, k: Kind, u: int, n: int,
                      occurences: int, occurencePos: Option<Pos>)
    requires Counted(s, cells, k, u, n, SUDOKU_SIZE, occurences, occurencePos)
    requires IsGrid(cells0) && IsGrid(cells2) && Pruned(cells0, cells)
    requires 0 <= n < SUDOKU_SIZE && !Numbers(s, k)[u][n] && UnitPassed(s, cells0, cells2, k, u, n)
    requires occurences == 1 ==> ValidPos(occurencePos.value) && SoleCandidate(At(cells2, occurencePos.value), n)
    ensures occurences == 0 <==> Homeless(s, cells, k, u, n)
    ensures occurences != 0 ==> UnitPassed(s, cells0, cells2, k, u, n + 1)
  {
    ScanAfterPruning(s, cells0, cells, k, u, n, occurences, occurencePos);
  }

  /** Further narrowing keeps every single that is set. */
  lemma SinglesKept(s: Registers, cells0: Cells, k: Kind, u: int, d: int,
                    cells: Cells, q: Queue, pending: set<Pos>, cells2: Cells, q2: Queue, pending2: set<Pos>)
    requires SinglesSet(s, cells0, cells, k, u, d) && Narrowed(cells, q, pending, cells2, q2, pending2)
    ensures SinglesSet(s, cells0, cells2, k, u, d)
  {
  }

  /**
   * A unit found by a pass that started from `cells1` is found for any
   * earlier `cells0` that `cells1` was pruned from.
   */
  lemma FoundEarlier(s: Registers, cells0: Cells, cells1: Cells, cells: Cells, k: Kind, u: int)
    requires IsGrid(cells0) && Found(s, cells1, cells, k, u) && Pruned(cells0, cells1)
    ensures Found(s, cells0, cells, k, u)
  {
    forall n | 0 <= n < SUDOKU_SIZE
      ensures !Homeless(s, cells0, k, u, n)
      ensures !Numbers(s, k)[u][n] && |Holders(s, cells0, k, u, n, SUDOKU_SIZE)| == 1 ==>
        var y := Holders(s, cells0, k, u, n, SUDOKU_SIZE)[0];
        ValidPos(y) && SoleCandidate(At(cells, y), n)
    {
      HoldersPruned(s, cells0, cells1, k, u, n, SUDOKU_SIZE);
      assert !Homeless(s, cells1, k, u, n);
      var h1 := Holders(s, cells1, k, u, n, SUDOKU_SIZE);
      if !Numbers(s, k)[u][n] && |Holders(s, cells0, k, u, n, SUDOKU_SIZE)| == 1 {
        assert h1[0] in h1;
      }
    }
  }

  /** Further narrowing keeps a found unit found. */
  lemma FoundKept(s: Registers, cells0: Cells, k: Kind, u: int,
                  cells: Cells, q: Queue, pending: set<Pos>, cells2: Cells, q2: Queue, pending2: set<Pos>)
    requires Found(s, cells0, cells, k, u) && Narrowed(cells, q, pending, cells2, q2, pending2)
    ensures Found(s, cells0, cells2, k, u)
  {
    SinglesKept(s, cells0, k, u, SUDOKU_SIZE, cells, q, pending, cells2, q2, pending2);
  }

  /**
   * A cell that analyseCellPossibleNumbers recomputes: one that is neither
   * solved nor a hidden single.
   */
  predicate Stale(ch: char, cell: CellState)
  {
    !IsSolved(ch, cell) && !cell.oneOccurence
  }

  /**
   * The cell at `y` once the cells in `done` have been recomputed from the
   * registries: a stale cell among them has exactly the candidates none of
   * its units holds; every other cell is as it was in `cells`.
   */
  ghost predicate RefreshedAt(s: Registers, cells: Cells, cells2: Cells, done: seq<Pos>, y: Pos)
    requires WellShaped(s) && IsGrid(cells) && IsGrid(cells2)
  {
    ValidPos(y) ==>
      At(cells2, y) == if y in done && Stale(At(s.board, y), At(cells, y)) then Recomputed(At(cells, y), s, y)
                       else At(cells, y)
  }

  /** RefreshedAt holds of every cell. */
  ghost predicate Refreshed(s: Registers, cells: Cells, cells2: Cells, done: seq<Pos>)
  {
    WellShaped(s) && IsGrid(cells) && IsGrid(cells2) && forall y :: RefreshedAt(s, cells, cells2, done, y)
  }

  /**
   * One step of updateAffectedCells, at cell `y`, with nothing pending: a
   * cell that is not stale stays as it is; a stale one is free, and when some
   * candidate is left the recomputed cell moved with addToQueue keeps every
   * invariant.  Either way the cells in `done` and `y` are now recomputed.
   */
  lemma RefreshKeepsInvariants(s: Registers, given: seq<seq<char>>, cells0: Cells, cells: Cells, q: Queue,
                               done: seq<Pos>, y: Pos)
    requires Consistent(s) && CellsOk(s.board, given, cells) && QueueOk(s.board, cells, q, s.cellsLeft, {})
    requires NoAttemptsIn(s.board, cells) && Refreshed(s, cells0, cells, done) && ValidPos(y)
    ensures SaneCount(At(cells, y)) && !HasAttempt(At(s.board, y), At(cells, y))
    ensures !Stale(At(s.board, y), At(cells, y)) ==> Refreshed(s, cells0, cells, done + [y])
    ensures var cell := At(cells, y);
      var cell2 := Recomputed(cell, s, y);
      var cells2 := Put(cells, y, cell2);
      Stale(At(s.board, y), cell) ==>
        IsFree(At(s.board, y))
        && (cell2.possibleNumbersCount >= 1 ==>
              var r := Relocated(q, y, cell.possibleNumbersCount, cell2.possibleNumbersCount);
              CellsOk(s.board, given, cells2) && QueueOk(s.board, cells2, r, s.cellsLeft, {})
              && NoAttemptsIn(s.board, cells2) && Refreshed(s, cells0, cells2, done + [y]))
  {
    var cell := At(cells, y);
    assert CellFits(s.board, given, cells, y);
    assert NoAttemptAt(s.board, cells, y);
    assert RefreshedAt(s, cells0, cells, done, y);
    if !Stale(At(s.board, y), cell) {
      forall z ensures RefreshedAt(s, cells0, cells, done + [y], z) {
        assert RefreshedAt(s, cells0, cells, done, z);
      }
    } else {
      var cell2 := Recomputed(cell, s, y);
      var cells2 := Put(cells, y, cell2);
      if cell2.possibleNumbersCount >= 1 {
        ReviseKeepsInvariants(s, given, cells, q, {}, y, cell2, cell.possibleNumbersCount);
        var r := Relocated(q, y, cell.possibleNumbersCount, cell2.possibleNumbersCount);
        assert Settle(r, {}, y) == {};
        forall z ensures NoAttemptAt(s.board, cells2, z) {
          assert NoAttemptAt(s.board, cells, z);
        }
        forall z ensures RefreshedAt(s, cells0, cells2, done + [y], z) {
          assert RefreshedAt(s, cells0, cells, done, z);
          if z == y && y in done {
            assert cell == Recomputed(At(cells0, y), s, y);
          }
        }
      }
    }
  }

  /** The candidate of a cell that has exactly one. */
  ghost function OnlyCandidate(cell: CellState): (n: int)
    requires SaneCount(cell) && cell.possibleNumbersCount == 1
    ensures Possible(cell, n) && forall m :: Possible(cell, m) ==> m == n
  {
    CountTrueZero(cell.possibleNumbers);
    var n :| 0 <= n < SUDOKU_SIZE && cell.possibleNumbers[n];
    CountTrueOne(cell.possibleNumbers, n);
    n
  }

  /**
   * Solving the pending cell `p` with its only candidate `n`, when none of
   * its units holds `n`: the digit is placed and registered, the cell keeps
   * no candidate (it is solved), and every invariant holds with nothing
   * pending.
   */
  lemma SolveKeepsInvariants(s: Registers, given: seq<seq<char>>, cells: Cells, q: Queue, p: Pos, n: int)
    requires Consistent(s) && CellsOk(s.board, given, cells) && QueueOk(s.board, cells, q, s.cellsLeft, {p})
    requires NoAttemptsIn(s.board, cells) && ValidPos(p) && 0 <= n < SUDOKU_SIZE
    requires SaneCount(At(cells, p)) && At(cells, p).possibleNumbersCount == 1
    requires Possible(At(cells, p), n) && !InUnits(s, p, n)
    ensures var t := Attempt(s, p, n);
      var cells2 := Put(cells, p, MarkNotPossible(At(cells, p), n));
      Consistent(t) && CellsOk(t.board, given, cells2) && QueueOk(t.board, cells2, q, t.cellsLeft, {})
      && NoAttemptsIn(t.board, cells2) && IsSolved(At(t.board, p), At(cells2, p))
  {
    var t := Attempt(s, p, n);
    var cell := MarkNotPossible(At(cells, p), n);
    var cells2 := Put(cells, p, cell);
    assert CellFits(s.board, given, cells, p);
    MarkLaws(At(cells, p), n);
    AttemptKeepsInvariants(s, given, cells, q, {p}, p, n);
    assert {p} - {p} == {};
    QueuedWhere(s.board, cells, q, s.cellsLeft, {p}, p);
    assert CellFits(t.board, given, cells, p);
    CellsOkFrame(t.board, given, cells, t.board, cells2, p);
    QueueOkFrame(t.board, cells, q, t.cellsLeft, {}, t.board, cells2, t.cellsLeft, {}, p);
    forall z ensures NoAttemptAt(t.board, cells2, z) {
      if ValidPos(z) && z != p {
        assert NoAttemptAt(s.board, cells, z);
      }
    }
  }

  /** Registries that agree up to the free characters of the board agree again after one more step. */
  lemma SameRegistersTrans(s: Registers, t: Registers, u: Registers)
    requires SameRegisters(s, t) && SameRegisters(t, u)
    ensures SameRegisters(s, u)
  {
  }

  /** Boards with the same digits have the same free cells, so the same tentative placements. */
  lemma SameDigitsNoAttempts(b: seq<seq<char>>, b2: seq<seq<char>>, cells: Cells)
    requires SameDigits(b, b2) && NoAttemptsIn(b2, cells)
    ensures NoAttemptsIn(b, cells)
  {
    forall p ensures NoAttemptAt(b, cells, p) {
      if ValidPos(p) {
        assert Canon(At(b, p)) == Canon(At(b2, p));
        assert NoAttemptAt(b2, cells, p);
      }
    }
  }

  /**
   * At the first backtracking level a digit that failed is struck from the
   * candidates of the cell under trial: that cell is pending, so the cell,
   * queue and no-attempt invariants survive, and it loses one candidate.
   */
  lemma DiscardKeepsInvariants(s: Registers, given: seq<seq<char>>, cells: Cells, q: Queue, pending: set<Pos>,
                               p: Pos, n: int)
    requires Consistent(s) && CellsOk(s.board, given, cells) && QueueOk(s.board, cells, q, s.cellsLeft, pending)
    requires NoAttemptsIn(s.board, cells) && p in pending && 0 <= n < SUDOKU_SIZE
    requires ValidPos(p) && SaneCount(At(cells, p)) && Possible(At(cells, p), n)
    ensures var cell := At(cells, p);
      var cells2 := Put(cells, p, MarkNotPossible(cell, n));
      CellsOk(s.board, given, cells2) && QueueOk(s.board, cells2, q, s.cellsLeft, pending)
      && NoAttemptsIn(s.board, cells2)
      && At(cells2, p).possibleNumbersCount == cell.possibleNumbersCount - 1
      && forall m :: Possible(At(cells2, p), m) <==> Possible(cell, m) && m != n
  {
    var cell := At(cells, p);
    var cells2 := Put(cells, p, MarkNotPossible(cell, n));
    assert IsFree(At(s.board, p));
    assert CellFits(s.board, given, cells, p);
    MarkLaws(cell, n);
    QueuedWhere(s.board, cells, q, s.cellsLeft, pending, p);
    CellsOkFrame(s.board, given, cells, s.board, cells2, p);
    QueueOkFrame(s.board, cells, q, s.cellsLeft, pending, s.board, cells2, s.cellsLeft, pending, p);
    forall y ensures NoAttemptAt(s.board, cells2, y) {
      if ValidPos(y) && y != p {
        assert NoAttemptAt(s.board, cells, y);
      }
    }
  }

  /** The empty registries of a new game. */
  function NoNumbers(): (t: seq<seq<bool>>)
    ensures IsGrid(t) && forall u, n :: 0 <= u < SUDOKU_SIZE && 0 <= n < SUDOKU_SIZE ==> !t[u][n]
  {
    seq(SUDOKU_SIZE, _ => seq(SUDOKU_SIZE, _ => false))
  }

  /** The zero counts of a new game. */
  function NoCounts(): (t: seq<int>)
    ensures |t| == SUDOKU_SIZE && forall u :: 0 <= u < SUDOKU_SIZE ==> t[u] == 0
  {
    seq(SUDOKU_SIZE, _ => 0)
  }

  /**
   * The counting loops of analyseRowOneOccurences (k = Row, skipping full
   * columns), analyseColumnOneOccurences (k = Column, skipping full rows) and
   * analyseRegionOneOccurences (k = Region, skipping both): how many cells of
   * unit `u` may take digit `n`, counting stops at two, and the cell found
   * when there is exactly one.
   */
  method ScanUnit(s: Registers, cells: Cells, k: Kind, u: int, n: int) returns (occurences: int, occurencePos: Option<Pos>)
    requires WellShaped(s) && IsGrid(cells) && 0 <= u < SUDOKU_SIZE && 0 <= n < SUDOKU_SIZE
    ensures Counted(s, cells, k, u, n, SUDOKU_SIZE, occurences, occurencePos)
  {
    occurences := 0;
    occurencePos := None;
    for i := 0 to SUDOKU_SIZE
      invariant occurences < 2 && Counted(s, cells, k, u, n, i, occurences, occurencePos)
    {
      var y := UnitPos(k, u, i);
      CountedStep(s, cells, k, u, n, i, i + 1, y, occurences, occurencePos);
      if Skipped(s, k, y) {
        continue;
      }
      if Possible(At(cells, y), n) {
        occurencePos := Some(y);
        occurences := occurences + 1;
      }
      if occurences == 2 {
        CountedTwo(s, cells, k, u, n, i + 1, SUDOKU_SIZE, occurencePos);
        return;
      }
    }
  }

  /** Where analyseBoard's row-major visit reaches cell `p`. */
  function Index(p: Pos): (i: int)
    ensures ValidPos(p) ==> 0 <= i < SUDOKU_N_CELLS
  {
    p.row * SUDOKU_SIZE + p.column
  }

  /** Distinct cells have distinct places in the row-major order. */
  lemma IndexInjective(x: Pos, y: Pos)
    requires ValidPos(x) && ValidPos(y) && x != y
    ensures Index(x) != Index(y)
  {
    if x.row != y.row {
      assert x.row < y.row ==> Index(x) < y.row * SUDOKU_SIZE;
      assert y.row < x.row ==> Index(y) < x.row * SUDOKU_SIZE;
    }
  }

  /** The cell visited at step `i` of the row-major order. */
  function PosAt(i: int): (p: Pos)
    requires 0 <= i < SUDOKU_N_CELLS
    ensures ValidPos(p) && Index(p) == i
  {
    Pos(i / SUDOKU_SIZE, i % SUDOKU_SIZE)
  }

  /** Row-major order visits every cell once: Index and PosAt are inverse to each other. */
  lemma PosAtIndex(p: Pos)
    requires ValidPos(p)
    ensures PosAt(Index(p)) == p
  {
  }

  /**
   * The board as the first pass of analyseBoard has registered it before
   * step `i`: cells visited so far read as on `b`, the others as free.
   */
  function Masked(b: seq<seq<char>>, i: int): (m: seq<seq<char>>)
    requires IsGrid(b)
    ensures IsGrid(m)
    ensures forall p :: ValidPos(p) ==> At(m, p) == if Index(p) < i then At(b, p) else '.'
  {
    seq(SUDOKU_SIZE, r requires 0 <= r < SUDOKU_SIZE =>
      seq(SUDOKU_SIZE, c requires 0 <= c < SUDOKU_SIZE => if r * SUDOKU_SIZE + c < i then b[r][c] else '.'))
  }

  /** One more step of the first pass reveals exactly the cell visited at that step. */
  lemma MaskedStep(b: seq<seq<char>>, i: int)
    requires IsGrid(b) && 0 <= i < SUDOKU_N_CELLS
    ensures Masked(b, i + 1) == Put(Masked(b, i), PosAt(i), At(b, PosAt(i)))
  {
    var p := PosAt(i);
    var m1, m2 := Masked(b, i + 1), Put(Masked(b, i), p, At(b, p));
    forall r | 0 <= r < SUDOKU_SIZE ensures m1[r] == m2[r] {
      forall c | 0 <= c < SUDOKU_SIZE ensures m1[r][c] == m2[r][c] {
        assert At(m1, Pos(r, c)) == At(m2, Pos(r, c));
      }
    }
  }

  /** After the whole first pass every cell is revealed. */
  lemma MaskedAll(b: seq<seq<char>>)
    requires IsGrid(b)
    ensures Masked(b, SUDOKU_N_CELLS) == b
  {
    var m := Masked(b, SUDOKU_N_CELLS);
    forall r | 0 <= r < SUDOKU_SIZE ensures m[r] == b[r] {
      forall c | 0 <= c < SUDOKU_SIZE ensures m[r][c] == b[r][c] {
        assert At(m, Pos(r, c)) == At(b, Pos(r, c));
      }
    }
  }

  /** Empty registries with 81 free cells describe a board with no digit on it. */
  lemma EmptyConsistent(s: Registers)
    requires IsGrid(s.board) && forall p :: ValidPos(p) ==> IsFree(At(s.board, p))
    requires s.rowsNumbers == NoNumbers() && s.columnsNumbers == NoNumbers() && s.regionsNumbers == NoNumbers()
    requires s.rowsNumbersCount == NoCounts() && s.columnsNumbersCount == NoCounts()
    requires s.regionsNumbersCount == NoCounts() && s.cellsLeft == SUDOKU_N_CELLS
    ensures Consistent(s)
  {
    forall r, c | 0 <= r < |s.board| && 0 <= c < |s.board[r]| ensures IsFree(s.board[r][c]) {
      assert IsFree(At(s.board, Pos(r, c)));
    }
    FreeCountAll(s.board);
    forall k: Kind, u | 0 <= u < SUDOKU_SIZE
      ensures UnitOk(Numbers(s, k)[u], NumbersCount(s, k)[u], UnitChars(s.board, k, u))
    {
      var cs := UnitChars(s.board, k, u);
      FreeInAll(cs);
    }
  }

  /**
   * What the first pass refuses: a digit at `p` that a cell visited before
   * `p`, in one of the units of `p`, already holds.
   */
  ghost predicate RepeatedClue(b: seq<seq<char>>, p: Pos)
    requires IsGrid(b) && ValidPos(p)
  {
    !IsFree(At(b, p))
    && exists k: Kind, j :: 0 <= j < SUDOKU_SIZE && EarlierSame(b, p, UnitPos(k, UnitOf(k, p), j))
  }

  /** Cell `y` is visited before `p` and holds the digit of `p`. */
  ghost predicate EarlierSame(b: seq<seq<char>>, p: Pos, y: Pos)
    requires IsGrid(b) && ValidPos(p) && ValidPos(y)
  {
    Index(y) < Index(p) && GetNumber(At(b, y)) == GetNumber(At(b, p))
  }

  /** Some unit of `p` holds digit `n` on board `b`. */
  ghost predicate Blocked(b: seq<seq<char>>, p: Pos, n: int)
    requires IsGrid(b) && ValidPos(p)
  {
    exists k: Kind :: Has(UnitChars(b, k, UnitOf(k, p)), n)
  }

  /** What the second pass refuses: a free cell whose units hold all nine digits between them. */
  ghost predicate DeadCell(b: seq<seq<char>>, p: Pos)
    requires IsGrid(b) && ValidPos(p)
  {
    IsFree(At(b, p)) && forall n :: 0 <= n < SUDOKU_SIZE ==> Blocked(b, p, n)
  }

  /**
   * The boards analyseBoard throws "Invalid board!" for.  A board it accepts
   * is 9x9 and repeats no digit in any unit.
   */
  ghost function Refused(b: seq<seq<char>>): (r: bool)
    ensures !r ==> IsGrid(b) && forall k: Kind, u :: 0 <= u < SUDOKU_SIZE ==> NoDup(UnitChars(b, k, u))
  {
    if IsGrid(b) && !exists p :: ValidPos(p) && RepeatedClue(b, p) then
      forall k: Kind, u | 0 <= u < SUDOKU_SIZE ensures NoDup(UnitChars(b, k, u)) {
        NoRepeatedClueNoDup(b, k, u);
      }
      exists p :: ValidPos(p) && DeadCell(b, p)
    else
      true
  }

  /** A board whose first pass meets no repeated clue holds no digit twice in any unit. */
  lemma NoRepeatedClueNoDup(b: seq<seq<char>>, k: Kind, u: int)
    requires IsGrid(b) && 0 <= u < SUDOKU_SIZE
    requires forall p :: ValidPos(p) ==> !RepeatedClue(b, p)
    ensures NoDup(UnitChars(b, k, u))
  {
    var cs := UnitChars(b, k, u);
    forall i, j | 0 <= i < |cs| && 0 <= j < |cs| && i != j && !IsFree(cs[i])
      ensures GetNumber(cs[i]) != GetNumber(cs[j])
    {
      var x, y := UnitPos(k, u, i), UnitPos(k, u, j);
      UnitPosIn(k, u, i);
      UnitPosIn(k, u, j);
      assert !RepeatedClue(b, x) && !RepeatedClue(b, y);
      if Index(y) < Index(x) {
        assert !EarlierSame(b, x, UnitPos(k, UnitOf(k, x), j));
      } else {
        IndexInjective(x, y);
        assert !EarlierSame(b, y, UnitPos(k, UnitOf(k, y), i));
      }
    }
  }

  /** A digit at `p` repeats an earlier clue exactly when a unit of `p`, as read before `p`, holds it. */
  lemma RepeatedClueMasked(b: seq<seq<char>>, p: Pos)
    requires IsGrid(b) && ValidPos(p) && !IsFree(At(b, p))
    ensures RepeatedClue(b, p) <==>
      exists k: Kind :: Has(UnitChars(Masked(b, Index(p)), k, UnitOf(k, p)), GetNumber(At(b, p)))
  {
    var n := GetNumber(At(b, p));
    var m := Masked(b, Index(p));
    if exists k: Kind :: Has(UnitChars(m, k, UnitOf(k, p)), n) {
      var k: Kind :| Has(UnitChars(m, k, UnitOf(k, p)), n);
      var j :| 0 <= j < SUDOKU_SIZE && GetNumber(UnitChars(m, k, UnitOf(k, p))[j]) == n;
      var y := UnitPos(k, UnitOf(k, p), j);
      assert At(m, y) == if Index(y) < Index(p) then At(b, y) else '.';
      assert EarlierSame(b, p, y);
    }
    if RepeatedClue(b, p) {
      var k: Kind, j :| 0 <= j < SUDOKU_SIZE && EarlierSame(b, p, UnitPos(k, UnitOf(k, p), j));
      var y := UnitPos(k, UnitOf(k, p), j);
      assert At(m, y) == At(b, y);
      assert GetNumber(UnitChars(m, k, UnitOf(k, p))[j]) == n;
    }
  }

  /**
   * Over the registries of the board read before `p`, a digit at `p` is in
   * one of its units exactly when it repeats an earlier clue.
   */
  lemma RepeatedClueMeaning(s: Registers, b: seq<seq<char>>, p: Pos)
    requires IsGrid(b) && ValidPos(p) && !IsFree(At(b, p))
    requires Consistent(s) && s.board == Masked(b, Index(p))
    ensures InUnits(s, p, GetNumber(At(b, p))) <==> RepeatedClue(b, p)
  {
    InUnitsMeaning(s, p, GetNumber(At(b, p)));
    RepeatedClueMasked(b, p);
  }

  /**
   * The second pass at a fresh free cell (no candidate, pending): giving it
   * the candidates its units leave, when there is one, and queueing it keeps
   * the invariants, and the cell then leaves the pending set.
   */
  lemma AnalyseFreshKeepsInvariants(s: Registers, given: seq<seq<char>>, cells: Cells, q: Queue, pending: set<Pos>, p: Pos)
    requires Consistent(s) && CellsOk(s.board, given, cells) && QueueOk(s.board, cells, q, s.cellsLeft, pending)
    requires NoAttemptsIn(s.board, cells)
    requires ValidPos(p) && p in pending && At(cells, p).possibleNumbersCount == 0 && !At(cells, p).oneOccurence
    requires Recomputed(At(cells, p), s, p).possibleNumbersCount >= 1
    ensures var cell := Recomputed(At(cells, p), s, p);
      var cells2 := Put(cells, p, cell);
      var r := Relocated(q, p, 0, cell.possibleNumbersCount);
      InQueue(r, p)
      && CellsOk(s.board, given, cells2) && NoAttemptsIn(s.board, cells2)
      && QueueOk(s.board, cells2, r, s.cellsLeft, pending - {p})
  {
    var cell := Recomputed(At(cells, p), s, p);
    var cells2 := Put(cells, p, cell);
    assert QueueOk(s.board, cells, q, s.cellsLeft, pending);
    QueuedWhere(s.board, cells, q, s.cellsLeft, pending, p);
    assert !InQueue(q, p);
    RelocatedEnqueues(q, p, 0, cell.possibleNumbersCount);
    ReviseKeepsInvariants(s, given, cells, q, pending, p, cell, 0);
    forall y ensures NoAttemptAt(s.board, cells2, y) {
      assert NoAttemptAt(s.board, cells, y);
    }
  }

  /** The cell at `p` is as createAndAnalyseCell made it: no candidate, a clue exactly where the board holds a digit. */
  ghost predicate Fresh(b: seq<seq<char>>, cells: Cells, p: Pos)
    requires IsGrid(b) && IsGrid(cells) && ValidPos(p)
  {
    At(cells, p) == NewCell(p.row, p.column, !IsFree(At(b, p)))
  }

  /** A cell visited before step `i` of the first pass is fresh and repeats no earlier clue. */
  ghost predicate Visited(b: seq<seq<char>>, cells: Cells, i: int, p: Pos)
  {
    IsGrid(b) && IsGrid(cells) && ValidPos(p) && Index(p) < i ==> Fresh(b, cells, p) && !RepeatedClue(b, p)
  }

  /** A cell not visited yet at step `i` of the second pass is still fresh. */
  ghost predicate Unvisited(b: seq<seq<char>>, cells: Cells, i: int, p: Pos)
  {
    IsGrid(b) && IsGrid(cells) && ValidPos(p) && Index(p) >= i ==> Fresh(b, cells, p)
  }

  /** The board holds no repeated clue at `p`, and, when `p` comes before step `i`, `p` is not dead. */
  ghost predicate Accepted(b: seq<seq<char>>, i: int, p: Pos)
  {
    IsGrid(b) && ValidPos(p) ==> !RepeatedClue(b, p) && (Index(p) < i ==> !DeadCell(b, p))
  }

  /** Visited holds of every cell. */
  ghost predicate AllVisited(b: seq<seq<char>>, cells: Cells, i: int)
  {
    forall p :: Visited(b, cells, i, p)
  }

  /** Unvisited holds of every cell. */
  ghost predicate AllUnvisited(b: seq<seq<char>>, cells: Cells, i: int)
  {
    forall p :: Unvisited(b, cells, i, p)
  }

  /** Accepted holds of every cell. */
  ghost predicate AllAccepted(b: seq<seq<char>>, i: int)
  {
    forall p :: Accepted(b, i, p)
  }

  /** The free cells among the first `i` cells of the row-major order. */
  ghost function FreeBefore(b: seq<seq<char>>, i: int): set<Pos>
    requires IsGrid(b) && 0 <= i <= SUDOKU_N_CELLS
  {
    if i == 0 then {}
    else FreeBefore(b, i - 1) + (if IsFree(At(b, PosAt(i - 1))) then {PosAt(i - 1)} else {})
  }

  /** FreeBefore holds exactly the free cells before step `i`. */
  lemma {:induction false} FreeBeforeMeaning(b: seq<seq<char>>, i: int, y: Pos)
    requires IsGrid(b) && 0 <= i <= SUDOKU_N_CELLS
    ensures y in FreeBefore(b, i) <==> ValidPos(y) && Index(y) < i && IsFree(At(b, y))
  {
    if i > 0 {
      FreeBeforeMeaning(b, i - 1, y);
      if ValidPos(y) {
        PosAtIndex(y);
      }
    }
  }

  /**
   * The first pass of analyseBoard before step `i`: the cells visited so far
   * are fresh and none repeats a clue read before it, the registries describe
   * the digits visited so far, and the free cells visited so far are pending.
   */
  ghost predicate FirstPassAt(s: Registers, given: seq<seq<char>>, cells: Cells, pending: set<Pos>, i: int)
  {
    0 <= i <= SUDOKU_N_CELLS && IsGrid(s.board) && s.board == given && IsGrid(cells)
    && Consistent(s.(board := Masked(s.board, i)))
    && AllVisited(s.board, cells, i)
    && pending == FreeBefore(s.board, i) && |pending| + (SUDOKU_N_CELLS - i) == s.cellsLeft
  }

  /** Registering a digit does not look at the board. */
  lemma RegisterIgnoresBoard(s: Registers, b: seq<seq<char>>, p: Pos, n: int)
    requires WellShaped(s) && IsGrid(b) && ValidPos(p) && 0 <= n < SUDOKU_SIZE
    ensures Register(s.(board := b), p, n) == Register(s, p, n).(board := b)
  {
  }

  /**
   * The registries over the board read so far, one step on: a free cell
   * leaves them exact, and a digit leaves them exact once registered, when
   * it does not repeat an earlier clue of its units.
   */
  lemma MaskedRegistersStep(s: Registers, i: int)
    requires IsGrid(s.board) && 0 <= i < SUDOKU_N_CELLS
    requires Consistent(s.(board := Masked(s.board, i)))
    ensures var p := PosAt(i);
      var ch := At(s.board, p);
      WellShaped(s)
      && (IsFree(ch) ==> Consistent(s.(board := Masked(s.board, i + 1))))
      && (!IsFree(ch) ==>
            (InUnits(s, p, GetNumber(ch)) <==> RepeatedClue(s.board, p))
            && (!InUnits(s, p, GetNumber(ch)) ==> Consistent(Register(s, p, GetNumber(ch)).(board := Masked(s.board, i + 1)))))
  {
    var p := PosAt(i);
    var ch := At(s.board, p);
    var m := s.(board := Masked(s.board, i));
    MaskedStep(s.board, i);
    if IsFree(ch) {
      FreeRewriteKeepsConsistent(m, p, ch);
    } else {
      RepeatedClueMeaning(m, s.board, p);
      if !InUnits(s, p, GetNumber(ch)) {
        RegisterKeepsConsistent(m, p, ch);
        RegisterIgnoresBoard(s, Masked(s.board, i + 1), p, GetNumber(ch));
      }
    }
  }

  /** Step `i` of the first pass refuses the board exactly when the cell repeats an earlier clue. */
  lemma FirstPassCheck(s: Registers, given: seq<seq<char>>, cells: Cells, pending: set<Pos>, i: int)
    requires FirstPassAt(s, given, cells, pending, i) && i < SUDOKU_N_CELLS
    ensures var p := PosAt(i);
      var ch := At(s.board, p);
      WellShaped(s) && (!IsFree(ch) ==> (InUnits(s, p, GetNumber(ch)) <==> RepeatedClue(s.board, p)))
  {
    MaskedRegistersStep(s, i);
  }

  /** The cells visited before step `i + 1` are fresh once the cell of step `i` is made fresh. */
  lemma FreshStep(b: seq<seq<char>>, cells: Cells, i: int)
    requires IsGrid(b) && IsGrid(cells) && 0 <= i < SUDOKU_N_CELLS
    requires AllVisited(b, cells, i)
    requires !RepeatedClue(b, PosAt(i))
    ensures var p := PosAt(i);
      var cells2 := Put(cells, p, NewCell(p.row, p.column, !IsFree(At(b, p))));
      AllVisited(b, cells2, i + 1)
  {
    var p := PosAt(i);
    var cells2 := Put(cells, p, NewCell(p.row, p.column, !IsFree(At(b, p))));
    var j := i + 1;
    forall y ensures Visited(b, cells2, j, y) {
      assert Visited(b, cells, i, y);
      if ValidPos(y) {
        PosAtIndex(y);
      }
    }
  }

  /**
   * One step of the first pass: the cell visited at step `i` is made fresh;
   * a free cell becomes pending, a digit is refused exactly when it repeats
   * an earlier clue of its units and is registered otherwise.
   */
  lemma FirstPassStep(s: Registers, given: seq<seq<char>>, cells: Cells, pending: set<Pos>, i: int)
    requires FirstPassAt(s, given, cells, pending, i) && i < SUDOKU_N_CELLS
    ensures var p := PosAt(i);
      var ch := At(s.board, p);
      var cells2 := Put(cells, p, NewCell(p.row, p.column, !IsFree(ch)));
      WellShaped(s)
      && (IsFree(ch) ==> !RepeatedClue(s.board, p) && FirstPassAt(s, given, cells2, pending + {p}, i + 1))
      && (!IsFree(ch) ==>
            (InUnits(s, p, GetNumber(ch)) <==> RepeatedClue(s.board, p))
            && (!InUnits(s, p, GetNumber(ch)) ==> FirstPassAt(Register(s, p, GetNumber(ch)), given, cells2, pending, i + 1)))
  {
    var p := PosAt(i);
    var ch := At(s.board, p);
    MaskedRegistersStep(s, i);
    if IsFree(ch) || !InUnits(s, p, GetNumber(ch)) {
      FreshStep(s.board, cells, i);
      FreeBeforeMeaning(s.board, i, p);
    }
  }

  /** The first pass after one step, stated of the state the step leaves. */
  lemma FirstPassNext(s: Registers, given: seq<seq<char>>, cells: Cells, pending: set<Pos>, i: int,
                      s2: Registers, cells2: Cells, pending2: set<Pos>)
    requires FirstPassAt(s, given, cells, pending, i) && i < SUDOKU_N_CELLS
    requires var p := PosAt(i);
      var ch := At(s.board, p);
      WellShaped(s) && cells2 == Put(cells, p, NewCell(p.row, p.column, !IsFree(ch)))
      && (IsFree(ch) ==> s2 == s && pending2 == pending + {p})
      && (!IsFree(ch) ==> !InUnits(s, p, GetNumber(ch)) && s2 == Register(s, p, GetNumber(ch)) && pending2 == pending)
    ensures FirstPassAt(s2, given, cells2, pending2, i + 1)
  {
    FirstPassStep(s, given, cells, pending, i);
  }

  /**
   * The second pass of analyseBoard before step `i`: the solver's invariant
   * holds, the cells not visited yet are fresh and their free cells are
   * pending, no clue repeats an earlier one, and no cell visited so far was
   * left without a candidate.
   */
  ghost predicate SecondPassAt(s: Registers, given: seq<seq<char>>, cells: Cells, q: Queue, pending: set<Pos>, i: int)
  {
    0 <= i <= SUDOKU_N_CELLS && s.board == given
    && Consistent(s) && CellsOk(s.board, given, cells) && QueueOk(s.board, cells, q, s.cellsLeft, pending)
    && NoAttemptsIn(s.board, cells)
    && AllUnvisited(s.board, cells, i)
    && pending == FreeBefore(s.board, SUDOKU_N_CELLS) - FreeBefore(s.board, i)
    && AllAccepted(s.board, i)
  }

  /** The first pass completed, without a repeated clue, is where the second pass starts. */
  lemma FirstPassDone(s: Registers, given: seq<seq<char>>, cells: Cells, pending: set<Pos>)
    requires FirstPassAt(s, given, cells, pending, SUDOKU_N_CELLS)
    ensures SecondPassAt(s, given, cells, [[], [], []], pending, 0)
  {
    MaskedAll(s.board);
    FirstPassDoneCells(s.board, given, cells);
    FirstPassDoneQueue(s.board, cells, pending, s.cellsLeft);
  }

  /** After the first pass every cell is fresh: it fits the board and holds no attempt. */
  lemma FirstPassDoneCells(b: seq<seq<char>>, given: seq<seq<char>>, cells: Cells)
    requires IsGrid(b) && b == given && IsGrid(cells) && AllVisited(b, cells, SUDOKU_N_CELLS)
    ensures CellsOk(b, given, cells) && NoAttemptsIn(b, cells)
    ensures AllUnvisited(b, cells, 0) && AllAccepted(b, 0)
  {
    forall p ensures CellFits(b, given, cells, p) && NoAttemptAt(b, cells, p)
      && Unvisited(b, cells, 0, p) && Accepted(b, 0, p)
    {
      assert Visited(b, cells, SUDOKU_N_CELLS, p);
    }
  }

  /** After the first pass the queue is empty and every free cell is pending. */
  lemma FirstPassDoneQueue(b: seq<seq<char>>, cells: Cells, pending: set<Pos>, cellsLeft: int)
    requires IsGrid(b) && IsGrid(cells)
    requires pending == FreeBefore(b, SUDOKU_N_CELLS) && |pending| == cellsLeft
    ensures QueueOk(b, cells, [[], [], []], cellsLeft, pending)
    ensures pending == FreeBefore(b, SUDOKU_N_CELLS) - FreeBefore(b, 0)
  {
    forall p ensures Accounted(b, cells, [[], [], []], pending, p) && (p in pending ==> ValidPos(p) && IsFree(At(b, p))) {
      FreeBeforeMeaning(b, SUDOKU_N_CELLS, p);
    }
  }

  /**
   * The cell visited at step `i` of the second pass: a clue is solved; a
   * free cell is fresh, and is refused (no candidate left after
   * analyseCellPossibleNumbers) exactly when its units hold every digit.
   */
  lemma SecondPassCell(s: Registers, given: seq<seq<char>>, cells: Cells, q: Queue, pending: set<Pos>, i: int)
    requires SecondPassAt(s, given, cells, q, pending, i) && i < SUDOKU_N_CELLS
    ensures var p := PosAt(i);
      var cell := At(cells, p);
      SaneCount(cell) && !HasAttempt(At(s.board, p), cell)
      && (!IsFree(At(s.board, p)) ==> IsSolved(At(s.board, p), cell) && !DeadCell(s.board, p))
      && (IsFree(At(s.board, p)) ==>
            !IsSolved(At(s.board, p), cell) && !cell.oneOccurence && cell.possibleNumbersCount == 0 && p in pending
            && (DeadCell(s.board, p) <==> Recomputed(cell, s, p).possibleNumbersCount == 0))
  {
    var p := PosAt(i);
    assert Unvisited(s.board, cells, i, p);
    if IsFree(At(s.board, p)) {
      FreeBeforeMeaning(s.board, SUDOKU_N_CELLS, p);
      FreeBeforeMeaning(s.board, i, p);
      forall n | 0 <= n < SUDOKU_SIZE ensures InUnits(s, p, n) <==> Blocked(s.board, p, n) {
        InUnitsMeaning(s, p, n);
      }
    }
  }

  /** The cells visited before step `i + 1` have a candidate, when those before `i` have and the one at `i` is not dead. */
  lemma LiveStep(b: seq<seq<char>>, i: int)
    requires IsGrid(b) && 0 <= i < SUDOKU_N_CELLS
    requires AllAccepted(b, i)
    requires !DeadCell(b, PosAt(i))
    ensures AllAccepted(b, i + 1)
  {
    var j := i + 1;
    forall y ensures Accepted(b, j, y) {
      assert Accepted(b, i, y);
      if ValidPos(y) && Index(y) == i {
        PosAtIndex(y);
        assert y == PosAt(i);
      }
    }
  }

  /**
   * The second pass after one step, stated of the state the step leaves: a
   * clue changes nothing; a free cell with a candidate gets its candidates
   * and is queued (leaving the pending set).
   */
  lemma SecondPassNext(s: Registers, given: seq<seq<char>>, cells: Cells, q: Queue, pending: set<Pos>, i: int,
                       cells2: Cells, q2: Queue, pending2: set<Pos>)
    requires SecondPassAt(s, given, cells, q, pending, i) && i < SUDOKU_N_CELLS
    requires var p := PosAt(i);
      var cell := At(cells, p);
      (!IsFree(At(s.board, p)) ==> cells2 == cells && q2 == q && pending2 == pending)
      && (IsFree(At(s.board, p)) ==>
            SaneCount(cell) && !DeadCell(s.board, p)
            && Recomputed(cell, s, p).possibleNumbersCount >= 1
            && cells2 == Put(cells, p, Recomputed(cell, s, p))
            && q2 == Relocated(q, p, cell.possibleNumbersCount, Recomputed(cell, s, p).possibleNumbersCount)
            && pending2 == Settle(q2, pending, p))
    ensures SecondPassAt(s, given, cells2, q2, pending2, i + 1)
  {
    var p := PosAt(i);
    var j := i + 1;
    SecondPassCell(s, given, cells, q, pending, i);
    LiveStep(s.board, i);
    FreeBeforeMeaning(s.board, i, p);
    if IsFree(At(s.board, p)) {
      AnalyseFreshKeepsInvariants(s, given, cells, q, pending, p);
      forall y ensures Unvisited(s.board, cells2, j, y) {
        assert Unvisited(s.board, cells, i, y);
      }
    } else {
      forall y ensures Unvisited(s.board, cells2, j, y) {
        assert Unvisited(s.board, cells, i, y);
      }
    }
  }
  /** What the second pass carries from cell to cell: the cells, the queue and the pending set. */
  datatype PassState = PassState(cells: Cells, q: Queue, pending: set<Pos>)

  /**
   * One step of the second pass on cell `p` (analyseCellPossibleNumbers): a
   * solved cell, or one a hidden single has settled, is left alone; any other
   * cell gets the candidates its units leave and moves in the queue.  None
   * when no candidate is left, which makes analyseBoard refuse the board.
   */
  ghost function PassStep(s: Registers, st: PassState, p: Pos): (r: Option<PassState>)
    requires WellShaped(s) && IsGrid(st.cells) && IsQueue(st.q) && ValidPos(p)
    ensures r.Some? ==> IsGrid(r.value.cells) && IsQueue(r.value.q)
  {
    var cell := At(st.cells, p);
    if IsSolved(At(s.board, p), cell) || cell.oneOccurence then Some(st)
    else
      var cell2 := Recomputed(cell, s, p);
      if cell2.possibleNumbersCount == 0 then None
      else
        var q2 := Relocated(st.q, p, cell.possibleNumbersCount, cell2.possibleNumbersCount);
        Some(PassState(Put(st.cells, p, cell2), q2, Settle(q2, st.pending, p)))
  }

  /** The second pass over the first `i` cells in row-major order, from `start`; None once a cell is refused. */
  ghost function SecondPassRun(s: Registers, start: PassState, i: int): (r: Option<PassState>)
    requires WellShaped(s) && IsGrid(start.cells) && IsQueue(start.q) && 0 <= i <= SUDOKU_N_CELLS
    ensures r.Some? ==> IsGrid(r.value.cells) && IsQueue(r.value.q)
    decreases i
  {
    if i == 0 then Some(start)
    else
      match SecondPassRun(s, start, i - 1)
      case None => None
      case Some(st) => PassStep(s, st, PosAt(i - 1))
  }

  /** Once a cell is refused the second pass stays stopped. */
  lemma {:induction false} SecondPassRunStops(s: Registers, start: PassState, i: int, j: int)
    requires WellShaped(s) && IsGrid(start.cells) && IsQueue(start.q) && 0 <= i <= j <= SUDOKU_N_CELLS
    requires SecondPassRun(s, start, i) == None
    ensures SecondPassRun(s, start, j) == None
    decreases j
  {
    if j > i {
      SecondPassRunStops(s, start, i, j - 1);
    }
  }

  /**
   * A step of the second pass accepts the cell at step `i` exactly when it is
   * not dead, and then leaves the second pass ready for step `i + 1`.
   */
  lemma PassStepSound(s: Registers, given: seq<seq<char>>, st: PassState, i: int)
    requires SecondPassAt(s, given, st.cells, st.q, st.pending, i) && i < SUDOKU_N_CELLS
    ensures var r := PassStep(s, st, PosAt(i));
      (r.Some? <==> !DeadCell(s.board, PosAt(i)))
      && (r.Some? ==> SecondPassAt(s, given, r.value.cells, r.value.q, r.value.pending, i + 1))
  {
    var r := PassStep(s, st, PosAt(i));
    SecondPassCell(s, given, st.cells, st.q, st.pending, i);
    if r.Some? {
      SecondPassNext(s, given, st.cells, st.q, st.pending, i, r.value.cells, r.value.q, r.value.pending);
    }
  }

  /** Accepting the cells before step `i + 1` is accepting those before `i` and the cell at step `i`. */
  lemma AcceptedShrink(b: seq<seq<char>>, i: int)
    requires IsGrid(b) && 0 <= i < SUDOKU_N_CELLS && AllAccepted(b, i + 1)
    ensures AllAccepted(b, i) && !DeadCell(b, PosAt(i))
  {
    var j := i + 1;
    assert Accepted(b, j, PosAt(i));
    forall y ensures Accepted(b, i, y) {
      assert Accepted(b, j, y);
    }
  }

  /**
   * The second pass over the first `i` cells goes through exactly when none
   * of them is dead, and then leaves the second pass ready for step `i`.
   */
  ghost predicate RunSound(s: Registers, given: seq<seq<char>>, start: PassState, i: int)
    requires WellShaped(s) && IsGrid(start.cells) && IsQueue(start.q) && 0 <= i <= SUDOKU_N_CELLS
  {
    (SecondPassRun(s, start, i).Some? <==> AllAccepted(s.board, i))
    && (SecondPassRun(s, start, i).Some? ==>
          SecondPassAt(s, given, SecondPassRun(s, start, i).value.cells, SecondPassRun(s, start, i).value.q,
                       SecondPassRun(s, start, i).value.pending, i))
  }

  /** One more cell keeps the second pass sound. */
  lemma RunSoundStep(s: Registers, given: seq<seq<char>>, start: PassState, i: int)
    requires WellShaped(s) && IsGrid(start.cells) && IsQueue(start.q) && 0 <= i < SUDOKU_N_CELLS
    requires RunSound(s, given, start, i)
    ensures RunSound(s, given, start, i + 1)
  {
    var r := SecondPassRun(s, start, i);
    if r.Some? {
      PassStepSound(s, given, r.value, i);
      if !DeadCell(s.board, PosAt(i)) {
        LiveStep(s.board, i);
      }
    }
    if AllAccepted(s.board, i + 1) {
      AcceptedShrink(s.board, i);
    }
  }

  /** Induction over the steps of a pass: what holds at step 0 and survives every step holds at step `n`. */
  lemma {:induction false} StepInduction(P: int -> bool, n: int)
    requires 0 <= n && P(0)
    requires forall i :: 0 <= i < n && P(i) ==> P(i + 1)
    ensures P(n)
    decreases n
  {
    if n > 0 {
      StepInduction(P, n - 1);
    }
  }

  /** Every step keeps the second pass sound. */
  lemma RunSoundSteps(s: Registers, given: seq<seq<char>>, start: PassState)
    requires WellShaped(s) && IsGrid(start.cells) && IsQueue(start.q)
    ensures forall i :: 0 <= i < SUDOKU_N_CELLS && RunSound(s, given, start, i) ==> RunSound(s, given, start, i + 1)
  {
    forall i | 0 <= i < SUDOKU_N_CELLS && RunSound(s, given, start, i)
      ensures RunSound(s, given, start, i + 1)
    {
      RunSoundStep(s, given, start, i);
    }
  }

  /** Before any step, the second pass stands where the first pass left off. */
  lemma RunSoundStart(s: Registers, given: seq<seq<char>>, start: PassState)
    requires SecondPassAt(s, given, start.cells, start.q, start.pending, 0)
    ensures RunSound(s, given, start, 0)
  {
  }

  /**
   * The second pass, started where the first pass left off, goes through the
   * first `n` cells exactly when none of them is dead, and then leaves the
   * second pass ready for step `n`.
   */
  lemma SecondPassRunSound(s: Registers, given: seq<seq<char>>, start: PassState, n: int)
    requires WellShaped(s) && IsGrid(start.cells) && IsQueue(start.q) && 0 <= n <= SUDOKU_N_CELLS
    requires SecondPassAt(s, given, start.cells, start.q, start.pending, 0)
    ensures RunSound(s, given, start, n)
  {
    RunSoundStart(s, given, start);
    RunSoundSteps(s, given, start);
    StepInduction(i => 0 <= i <= SUDOKU_N_CELLS && RunSound(s, given, start, i), n);
  }

  /**
   * Cell `p`, when the second pass gets there, has a candidate count that
   * matches its candidates and holds no attempt: what
   * analyseCellPossibleNumbers needs of it.
   */
  ghost predicate ReadyAt(s: Registers, start: PassState, p: Pos)
    requires WellShaped(s) && IsGrid(start.cells) && IsQueue(start.q) && ValidPos(p)
  {
    SecondPassRun(s, start, Index(p)).Some? ==>
      var cell := At(SecondPassRun(s, start, Index(p)).value.cells, p);
      SaneCount(cell) && !HasAttempt(At(s.board, p), cell)
  }

  /** Every cell of the second pass is ready when the pass reaches it. */
  ghost predicate AllReady(s: Registers, start: PassState)
    requires WellShaped(s) && IsGrid(start.cells) && IsQueue(start.q)
  {
    forall p :: ValidPos(p) ==> ReadyAt(s, start, p)
  }

  /** Every cell the second pass reaches is ready for analyseCellPossibleNumbers. */
  lemma SecondPassRunReady(s: Registers, given: seq<seq<char>>, start: PassState, p: Pos)
    requires WellShaped(s) && IsGrid(start.cells) && IsQueue(start.q) && ValidPos(p)
    requires SecondPassAt(s, given, start.cells, start.q, start.pending, 0)
    ensures ReadyAt(s, start, p)
  {
    var i := Index(p);
    PosAtIndex(p);
    SecondPassRunSound(s, given, start, i);
    var r := SecondPassRun(s, start, i);
    if r.Some? {
      SecondPassCell(s, given, r.value.cells, r.value.q, r.value.pending, i);
    }
  }

  /**
   * The second pass run to the end: it stops exactly on the boards with a
   * dead cell, and otherwise leaves the solver settled, with every free cell
   * queued.
   */
  lemma SecondPassRunDone(s: Registers, given: seq<seq<char>>, start: PassState)
    requires WellShaped(s) && IsGrid(start.cells) && IsQueue(start.q)
    requires SecondPassAt(s, given, start.cells, start.q, start.pending, 0)
    ensures var r := SecondPassRun(s, start, SUDOKU_N_CELLS);
      (r.Some? <==> !Refused(s.board))
      && (r.Some? ==>
            Consistent(s) && CellsOk(s.board, given, r.value.cells)
            && QueueOk(s.board, r.value.cells, r.value.q, s.cellsLeft, r.value.pending)
            && r.value.pending == {} && NoAttemptsIn(s.board, r.value.cells)
            && QueueSize(r.value.q) == s.cellsLeft)
  {
    SecondPassRunSound(s, given, start, SUDOKU_N_CELLS);
    RefusedUnlessAccepted(s.board);
  }

  /**
   * The first pass completed without a repeated clue hands over to the second
   * pass, with an empty queue: every cell the second pass reaches is ready,
   * and the run to the end ends as SecondPassRunDone says.
   */
  lemma SecondPassFromFirst(s: Registers, given: seq<seq<char>>, cells: Cells, pending: set<Pos>)
    requires FirstPassAt(s, given, cells, pending, SUDOKU_N_CELLS)
    ensures WellShaped(s) && IsGrid(cells)
    ensures AllReady(s, PassState(cells, [[], [], []], pending))
    ensures var r := SecondPassRun(s, PassState(cells, [[], [], []], pending), SUDOKU_N_CELLS);
      (r.Some? <==> !Refused(s.board))
      && (r.Some? ==>
            Consistent(s) && CellsOk(s.board, given, r.value.cells)
            && QueueOk(s.board, r.value.cells, r.value.q, s.cellsLeft, r.value.pending)
            && r.value.pending == {} && NoAttemptsIn(s.board, r.value.cells)
            && QueueSize(r.value.q) == s.cellsLeft)
  {
    var start := PassState(cells, [[], [], []], pending);
    FirstPassDone(s, given, cells, pending);
    forall p | ValidPos(p) ensures ReadyAt(s, start, p) {
      SecondPassRunReady(s, given, start, p);
    }
    SecondPassRunDone(s, given, start);
  }

  /** Once no clue repeats, a board is refused exactly when the second pass does not accept every cell. */
  lemma RefusedUnlessAccepted(b: seq<seq<char>>)
    requires IsGrid(b) && AllAccepted(b, 0)
    ensures Refused(b) <==> !AllAccepted(b, SUDOKU_N_CELLS)
  {
    if AllAccepted(b, SUDOKU_N_CELLS) {
      AcceptedNotRefused(b);
    } else {
      var y :| !Accepted(b, SUDOKU_N_CELLS, y);
      assert Accepted(b, 0, y);
    }
  }

  /** A board on which the second pass accepted every cell is not refused. */
  lemma AcceptedNotRefused(b: seq<seq<char>>)
    requires IsGrid(b) && AllAccepted(b, SUDOKU_N_CELLS)
    ensures !Refused(b)
  {
    forall p | ValidPos(p) ensures !RepeatedClue(b, p) && !DeadCell(b, p) {
      assert Accepted(b, SUDOKU_N_CELLS, p);
    }
  }



  /**
   * `b` solves the puzzle `given`: every cell holds a digit, every clue is
   * kept, and each row, column and region holds each digit exactly once.
   */
  ghost predicate IsSolutionOf(b: seq<seq<char>>, given: seq<seq<char>>)
  {
    IsGrid(b) && IsGrid(given)
    && (forall p :: ValidPos(p) ==> !IsFree(At(b, p)) && (!IsFree(At(given, p)) ==> At(b, p) == At(given, p)))
    && (forall k: Kind, u, n :: 0 <= u < SUDOKU_SIZE && 0 <= n < SUDOKU_SIZE ==> Has(UnitChars(b, k, u), n))
    && (forall k: Kind, u :: 0 <= u < SUDOKU_SIZE ==> NoDup(UnitChars(b, k, u)))
  }

  /** A state of the solver with no free cell left holds a solution of the given board. */
  lemma SolvedIsSolution(s: Registers, given: seq<seq<char>>, cells: Cells)
    requires Consistent(s) && CellsOk(s.board, given, cells) && s.cellsLeft == 0
    ensures IsSolutionOf(s.board, given)
  {
    SolvedBoard(s);
    forall p | ValidPos(p) ensures !IsFree(At(given, p)) ==> At(s.board, p) == At(given, p) {
      assert CellFits(s.board, given, cells, p);
    }
  }

  /**
   * What sudokuSanityCheck asserts after each step of solveBoard holds in
   * every settled state: each placed digit is marked in its row, column and
   * region, every free cell keeps a candidate, each unit's count is the
   * number of digits placed in it, and `cellsLeft` is the number of free cells.
   */
  lemma SanityFacts(s: Registers, given: seq<seq<char>>, cells: Cells, q: Queue)
    requires Consistent(s) && CellsOk(s.board, given, cells) && QueueOk(s.board, cells, q, s.cellsLeft, {})
    ensures forall p :: ValidPos(p) && !IsFree(At(s.board, p)) ==>
      var n := GetNumber(At(s.board, p));
      s.rowsNumbers[p.row][n] && s.columnsNumbers[p.column][n] && s.regionsNumbers[RegionOf(p.row, p.column)][n]
    ensures forall p :: ValidPos(p) && IsFree(At(s.board, p)) ==> At(cells, p).possibleNumbersCount > 0
    ensures forall k: Kind, u :: 0 <= u < SUDOKU_SIZE ==> NumbersCount(s, k)[u] == PlacedCount(UnitChars(s.board, k, u))
    ensures s.cellsLeft == FreeCount(s.board)
  {
    forall p | ValidPos(p) && !IsFree(At(s.board, p))
      ensures var n := GetNumber(At(s.board, p));
        s.rowsNumbers[p.row][n] && s.columnsNumbers[p.column][n] && s.regionsNumbers[RegionOf(p.row, p.column)][n]
    {
      RegisteredHere(s, p, Row);
      RegisteredHere(s, p, Column);
      RegisteredHere(s, p, Region);
    }
    forall p | ValidPos(p) && IsFree(At(s.board, p)) ensures At(cells, p).possibleNumbersCount > 0 {
      assert Accounted(s.board, cells, q, {}, p);
    }
    forall k: Kind, u | 0 <= u < SUDOKU_SIZE ensures NumbersCount(s, k)[u] == PlacedCount(UnitChars(s.board, k, u)) {
      assert UnitOk(Numbers(s, k)[u], NumbersCount(s, k)[u], UnitChars(s.board, k, u));
    }
  }

  /**
   * The solver.  The registries, the free-cell count, the cell pool and the
   * queue are fields updated in place, as in the source; each cell of the
   * pool is a CellState value, and a queue entry is a cell position.
   */
  class SudokuGame {
    var cellsLeft: int
    var rowsNumbers: seq<seq<bool>>
    var rowsNumbersCount: seq<int>
    var columnsNumbers: seq<seq<bool>>
    var columnsNumbersCount: seq<int>
    var regionsNumbers: seq<seq<bool>>
    var regionsNumbersCount: seq<int>
    var initialFreeCellsNumber: int
    var boardAnalysed: bool
    var cellPool: Cells
    var cellPriorityQueue: Queue
    var board: seq<seq<char>>

    /** The board as it was handed over: its digits are the clues. */
    ghost const givenBoard: seq<seq<char>>

    /** Free cells that no bucket holds: not analysed yet, or popped and under trial. */
    ghost var pending: set<Pos>

    /** The board, registries and free count as one value. */
    function Regs(): Registers
      reads this`board, this`rowsNumbers, this`rowsNumbersCount, this`columnsNumbers, this`columnsNumbersCount
      reads this`regionsNumbers, this`regionsNumbersCount, this`cellsLeft
    {
      Registers(board, rowsNumbers, rowsNumbersCount, columnsNumbers, columnsNumbersCount,
                regionsNumbers, regionsNumbersCount, cellsLeft)
    }

    /** Registries exact, cells in place, every free cell queued or pending. */
    ghost predicate Inv()
      reads this`board, this`rowsNumbers, this`rowsNumbersCount, this`columnsNumbers, this`columnsNumbersCount
      reads this`regionsNumbers, this`regionsNumbersCount, this`cellsLeft, this`cellPool, this`cellPriorityQueue, this`pending
    {
      Consistent(Regs()) && CellsOk(board, givenBoard, cellPool)
      && QueueOk(board, cellPool, cellPriorityQueue, cellsLeft, pending)
    }

    /** The state between two steps of the search: nothing pending and no tentative placement. */
    ghost predicate Settled()
      reads this`board, this`rowsNumbers, this`rowsNumbersCount, this`columnsNumbers, this`columnsNumbersCount
      reads this`regionsNumbers, this`regionsNumbersCount, this`cellsLeft, this`cellPool, this`cellPriorityQueue, this`pending
    {
      Inv() && pending == {} && NoAttemptsIn(board, cellPool)
    }

    /** The state before analyseBoard: empty registries, 81 free cells, empty queue. */
    ghost predicate Initial()
      reads this
    {
      cellsLeft == SUDOKU_N_CELLS && !boardAnalysed
      && rowsNumbers == NoNumbers() && columnsNumbers == NoNumbers() && regionsNumbers == NoNumbers()
      && rowsNumbersCount == NoCounts() && columnsNumbersCount == NoCounts() && regionsNumbersCount == NoCounts()
      && cellPriorityQueue == [[], [], []] && IsGrid(cellPool) && pending == {}
      && board == givenBoard
    }

    /** SudokuGame(char[][] board): a new solver for `board`. */
    constructor (board: seq<seq<char>>)
      ensures Initial() && this.board == board
    {
      cellsLeft := SUDOKU_N_CELLS;
      rowsNumbers, columnsNumbers, regionsNumbers := NoNumbers(), NoNumbers(), NoNumbers();
      rowsNumbersCount, columnsNumbersCount, regionsNumbersCount := NoCounts(), NoCounts(), NoCounts();
      initialFreeCellsNumber := 0;
      boardAnalysed := false;
      cellPool := seq(SUDOKU_SIZE, r requires 0 <= r < SUDOKU_SIZE =>
                    seq(SUDOKU_SIZE, c requires 0 <= c < SUDOKU_SIZE => NewCell(r, c, false)));
      cellPriorityQueue := [[], [], []];
      this.board := board;
      givenBoard := board;
      pending := {};
    }

    /**
     * analyseCell: a free cell is accepted as it is; a digit is accepted when
     * none of its units holds it yet, and is then registered in all three.
     */
    method AnalyseCell(p: Pos) returns (valid: bool)
      requires WellShaped(Regs()) && ValidPos(p)
      modifies this`rowsNumbers, this`rowsNumbersCount, this`columnsNumbers, this`columnsNumbersCount
      modifies this`regionsNumbers, this`regionsNumbersCount, this`cellsLeft
      ensures IsFree(At(board, p)) ==> valid && Regs() == old(Regs())
      ensures !IsFree(At(board, p)) ==> valid == ValidCell(old(Regs()), p, GetNumber(At(board, p)))
      ensures !IsFree(At(board, p)) && valid ==> Regs() == Register(old(Regs()), p, GetNumber(At(board, p)))
      ensures !valid ==> Regs() == old(Regs())
    {
      if IsFree(At(board, p)) {
        return true;
      }
      var n := GetNumber(At(board, p));
      var r, c, g := p.row, p.column, RegionOf(p.row, p.column);
      valid := !rowsNumbers[r][n] && !columnsNumbers[c][n] && !regionsNumbers[g][n];
      if !valid {
        return;
      }
      rowsNumbers := rowsNumbers[r := rowsNumbers[r][n := true]];
      rowsNumbersCount := rowsNumbersCount[r := rowsNumbersCount[r] + 1];
      columnsNumbers := columnsNumbers[c := columnsNumbers[c][n := true]];
      columnsNumbersCount := columnsNumbersCount[c := columnsNumbersCount[c] + 1];
      regionsNumbers := regionsNumbers[g := regionsNumbers[g][n := true]];
      regionsNumbersCount := regionsNumbersCount[g := regionsNumbersCount[g] + 1];
      cellsLeft := cellsLeft - 1;
    }

    /**
     * attemptSolveCell: when no unit of the pending cell `p` holds digit `n`,
     * writes it and registers it; otherwise changes nothing.
     */
    method AttemptSolveCell(p: Pos, n: int) returns (ok: bool)
      requires Inv() && p in pending && 0 <= n < SUDOKU_SIZE
      modifies this`board, this`rowsNumbers, this`rowsNumbersCount, this`columnsNumbers, this`columnsNumbersCount
      modifies this`regionsNumbers, this`regionsNumbersCount, this`cellsLeft, this`pending
      ensures ok == !InUnits(old(Regs()), p, n)
      ensures ok ==> Regs() == Attempt(old(Regs()), p, n) && pending == old(pending) - {p}
      ensures !ok ==> Regs() == old(Regs()) && pending == old(pending)
      ensures Inv()
    {
      var g := RegionOf(p.row, p.column);
      if rowsNumbers[p.row][n] || columnsNumbers[p.column][n] || regionsNumbers[g][n] {
        return false;
      }
      ghost var s := Regs();
      AttemptKeepsInvariants(s, givenBoard, cellPool, cellPriorityQueue, pending, p, n);
      var valid := WriteDigit(p, n);
      assert valid;
      pending := pending - {p};
      return true;
    }

    /**
     * undoCell: clears the tentative digit of `p` (the board then reads '.')
     * and takes it out of the registries.  UndoKeepsInvariants says what this
     * does to the invariants; the caller moves the cell back to pending.
     */
    method UndoCell(p: Pos)
      requires WellShaped(Regs()) && ValidPos(p) && !IsFree(At(board, p))
      modifies this`board, this`rowsNumbers, this`rowsNumbersCount, this`columnsNumbers, this`columnsNumbersCount
      modifies this`regionsNumbers, this`regionsNumbersCount, this`cellsLeft
      ensures Regs() == Undo(old(Regs()), p)
    {
      ghost var s := Regs();
      var n := At(board, p) as int - '0' as int - 1;
      assert n == GetNumber(At(board, p));
      var r, c, g := p.row, p.column, RegionOf(p.row, p.column);
      board := Put(board, p, '.');
      rowsNumbers := rowsNumbers[r := rowsNumbers[r][n := false]];
      rowsNumbersCount := rowsNumbersCount[r := rowsNumbersCount[r] - 1];
      columnsNumbers := columnsNumbers[c := columnsNumbers[c][n := false]];
      columnsNumbersCount := columnsNumbersCount[c := columnsNumbersCount[c] - 1];
      regionsNumbers := regionsNumbers[g := regionsNumbers[g][n := false]];
      regionsNumbersCount := regionsNumbersCount[g := regionsNumbersCount[g] - 1];
      cellsLeft := cellsLeft + 1;
    }
  
    /**
     * addToQueue: moves `p` to the bucket of its current count, taking it out
     * of the bucket of `previous` when that count was positive; nothing moves
     * when neither the count nor the level changed.  The cell leaves the
     * pending set when a bucket now holds it.
     */
    method AddToQueue(p: Pos, previous: int)
      requires IsQueue(cellPriorityQueue) && IsGrid(cellPool) && ValidPos(p)
      requires At(cellPool, p).possibleNumbersCount >= 1
      modifies this`cellPriorityQueue, this`pending
      ensures cellPriorityQueue == Relocated(old(cellPriorityQueue), p, previous, At(cellPool, p).possibleNumbersCount)
      ensures pending == Settle(cellPriorityQueue, old(pending), p)
    {
      var count := At(cellPool, p).possibleNumbersCount;
      var previousQueueLevel := PossibleNumbersToQueueLevel(previous);
      var queueLevel := PossibleNumbersToQueueLevel(count);
      if count == previous || queueLevel == previousQueueLevel {
        pending := Settle(cellPriorityQueue, pending, p);
        return;
      }
      if previous > 0 {
        cellPriorityQueue := cellPriorityQueue[previousQueueLevel := RemoveAll(cellPriorityQueue[previousQueueLevel], p)];
      }
      cellPriorityQueue := cellPriorityQueue[queueLevel := cellPriorityQueue[queueLevel] + [p]];
      pending := Settle(cellPriorityQueue, pending, p);
    }

    /** addTryCellBackToQueue: `p` goes back to the front of the bucket of its count and stops pending. */
    method AddTryCellBackToQueue(p: Pos)
      requires IsQueue(cellPriorityQueue) && IsGrid(cellPool) && ValidPos(p)
      requires At(cellPool, p).possibleNumbersCount >= 1
      modifies this`cellPriorityQueue, this`pending
      ensures cellPriorityQueue ==
        PushedFront(old(cellPriorityQueue), p, PossibleNumbersToQueueLevel(At(cellPool, p).possibleNumbersCount))
      ensures pending == old(pending) - {p}
    {
      var queueLevel := PossibleNumbersToQueueLevel(At(cellPool, p).possibleNumbersCount);
      cellPriorityQueue := cellPriorityQueue[queueLevel := [p] + cellPriorityQueue[queueLevel]];
      pending := pending - {p};
    }

    /** popQueueLevel: the head of bucket `level`, which becomes pending; None when the bucket is empty. */
    method PopQueueLevel(level: int) returns (cell: Option<Pos>)
      requires IsQueue(cellPriorityQueue) && 0 <= level < QUEUE_PRIORITY_LEVELS
      modifies this`cellPriorityQueue, this`pending
      ensures old(cellPriorityQueue[level]) == [] ==>
        cell == None && cellPriorityQueue == old(cellPriorityQueue) && pending == old(pending)
      ensures old(cellPriorityQueue[level]) != [] ==>
        cell == Some(old(cellPriorityQueue[level][0]))
        && cellPriorityQueue == PoppedFront(old(cellPriorityQueue), level)
        && pending == old(pending) + {cell.value}
    {
      if cellPriorityQueue[level] == [] {
        return None;
      }
      var p := cellPriorityQueue[level][0];
      cellPriorityQueue := cellPriorityQueue[level := cellPriorityQueue[level][1..]];
      pending := pending + {p};
      return Some(p);
    }

    /** popQueueFirstLevel: a cell with a single candidate, if any. */
    method PopQueueFirstLevel() returns (cell: Option<Pos>)
      requires IsQueue(cellPriorityQueue)
      modifies this`cellPriorityQueue, this`pending
      ensures old(cellPriorityQueue[0]) == [] ==>
        cell == None && cellPriorityQueue == old(cellPriorityQueue) && pending == old(pending)
      ensures old(cellPriorityQueue[0]) != [] ==>
        cell == Some(old(cellPriorityQueue[0][0]))
        && cellPriorityQueue == PoppedFront(old(cellPriorityQueue), 0)
        && pending == old(pending) + {cell.value}
    {
      cell := PopQueueLevel(0);
    }

    /** popQueue: the head of the first non-empty bucket, or None when the queue is empty. */
    method PopQueue() returns (cell: Option<Pos>)
      requires IsQueue(cellPriorityQueue)
      modifies this`cellPriorityQueue, this`pending
      ensures var level := FirstNonEmpty(old(cellPriorityQueue));
        if level == QUEUE_PRIORITY_LEVELS then
          cell == None && cellPriorityQueue == old(cellPriorityQueue) && pending == old(pending)
        else
          cell == Some(old(cellPriorityQueue[level][0]))
          && cellPriorityQueue == PoppedFront(old(cellPriorityQueue), level)
          && pending == old(pending) + {cell.value}
    {
      for l := 0 to QUEUE_PRIORITY_LEVELS
        invariant cellPriorityQueue == old(cellPriorityQueue) && pending == old(pending)
        invariant forall m :: 0 <= m < l ==> cellPriorityQueue[m] == []
      {
        cell := PopQueueLevel(l);
        if cell.Some? {
          return;
        }
      }
      return None;
    }

    /** getQueueSize: the queue holds every free cell that is not pending. */
    function GetQueueSize(): (size: int)
      reads this
      requires Inv()
      ensures size + |pending| == cellsLeft
    {
      |cellPriorityQueue[0]| + |cellPriorityQueue[1]| + |cellPriorityQueue[2]|
    }

    /** isCellInQueue: some bucket holds `p` (the buckets are searched from the last). */
    method IsCellInQueue(p: Pos) returns (found: bool)
      requires IsQueue(cellPriorityQueue)
      ensures found <==> p in cellPriorityQueue[0] || p in cellPriorityQueue[1] || p in cellPriorityQueue[2]
    {
      var l := QUEUE_PRIORITY_LEVELS - 1;
      while l >= 0
        invariant -1 <= l < QUEUE_PRIORITY_LEVELS
        invariant forall m :: l < m < QUEUE_PRIORITY_LEVELS ==> p !in cellPriorityQueue[m]
      {
        if p in cellPriorityQueue[l] {
          return true;
        }
        l := l - 1;
      }
      return false;
    }

    /**
     * analyseCellPossibleNumbers: a solved cell and a hidden single are left
     * alone; any other cell gets as candidates exactly the digits none of its
     * units holds.  The cell is valid when some candidate is left, and is then
     * moved to the bucket of its new count.
     */
    method AnalyseCellPossibleNumbers(p: Pos) returns (valid: bool)
      requires WellShaped(Regs()) && IsGrid(cellPool) && IsQueue(cellPriorityQueue) && ValidPos(p)
      requires SaneCount(At(cellPool, p)) && !HasAttempt(At(board, p), At(cellPool, p))
      modifies this`cellPool, this`cellPriorityQueue, this`pending
      ensures var cell := old(At(cellPool, p));
        if IsSolved(At(board, p), cell) || cell.oneOccurence then
          valid && cellPool == old(cellPool) && cellPriorityQueue == old(cellPriorityQueue) && pending == old(pending)
        else
          cellPool == Put(old(cellPool), p, Recomputed(cell, Regs(), p))
          && (valid <==> exists n :: 0 <= n < SUDOKU_SIZE && !InUnits(Regs(), p, n))
          && (valid ==>
                cellPriorityQueue == Relocated(old(cellPriorityQueue), p, cell.possibleNumbersCount,
                                               At(cellPool, p).possibleNumbersCount)
                && pending == Settle(cellPriorityQueue, old(pending), p))
    {
      var cell := At(cellPool, p);
      if IsSolved(At(board, p), cell) {
        return true;
      }
      if cell.oneOccurence {
        return true;
      }
      CellStatesPartition(At(board, p), cell);
      var previousCellPossibleNumbersCount := cell.possibleNumbersCount;
      var g := RegionOf(p.row, p.column);
      for n := 0 to SUDOKU_SIZE
        invariant SaneCount(cell)
        invariant cell == old(At(cellPool, p)).(possibleNumbers := cell.possibleNumbers,
                                                 possibleNumbersCount := cell.possibleNumbersCount)
        invariant forall m :: 0 <= m < n ==> (cell.possibleNumbers[m] <==> !InUnits(Regs(), p, m))
      {
        if rowsNumbers[p.row][n] || columnsNumbers[p.column][n] || regionsNumbers[g][n] {
          cell := MarkNotPossible(cell, n);
        } else {
          cell := MarkPossible(cell, n);
        }
      }
      ghost var recomputed := Recomputed(old(At(cellPool, p)), Regs(), p);
      assert cell.possibleNumbers == recomputed.possibleNumbers;
      cellPool := Put(cellPool, p, cell);
      if cell.possibleNumbersCount == 0 {
        return false;
      }
      AddToQueue(p, previousCellPossibleNumbersCount);
      return true;
    }
  
    /**
     * processOneOccurence: `num` is a candidate of `p` and of no other cell
     * the scan of one of its units looked at, so `p` keeps `num` as its only
     * candidate, is marked as a hidden single and moves to bucket 0.  A cell
     * with one candidate already is left alone.
     */
    method ProcessOneOccurence(p: Pos, num: int)
      requires IsGrid(cellPool) && IsQueue(cellPriorityQueue) && ValidPos(p) && 0 <= num < SUDOKU_SIZE
      requires SaneCount(At(cellPool, p)) && Possible(At(cellPool, p), num)
      modifies this`cellPool, this`cellPriorityQueue, this`pending
      ensures var cell := old(At(cellPool, p));
        if cell.possibleNumbersCount == 1 then
          cellPool == old(cellPool) && cellPriorityQueue == old(cellPriorityQueue) && pending == old(pending)
        else
          cellPool == Put(old(cellPool), p, HiddenSingle(cell, num))
          && cellPriorityQueue == Relocated(old(cellPriorityQueue), p, cell.possibleNumbersCount, 1)
          && pending == Settle(cellPriorityQueue, old(pending), p)
      ensures forall m :: 0 <= m < SUDOKU_SIZE ==> (At(cellPool, p).possibleNumbers[m] <==> m == num)
    {
      var cell := At(cellPool, p);
      if cell.possibleNumbersCount == 1 {
        CountTrueOne(cell.possibleNumbers, num);
        return;
      }
      var oldCount := cell.possibleNumbersCount;
      for i := 0 to SUDOKU_SIZE
        invariant SaneCount(cell) && cell.possibleNumbers[num]
        invariant cell == old(At(cellPool, p)).(possibleNumbers := cell.possibleNumbers,
                                                 possibleNumbersCount := cell.possibleNumbersCount)
        invariant forall m :: 0 <= m < i && m != num ==> !cell.possibleNumbers[m]
      {
        if i != num {
          cell := MarkNotPossible(cell, i);
        }
      }
      cell := cell.(oneOccurence := true);
      assert cell.possibleNumbers == HiddenSingle(old(At(cellPool, p)), num).possibleNumbers;
      cellPool := Put(cellPool, p, cell);
      AddToQueue(p, oldCount);
    }
  
    /**
     * processOneOccurence on the whole game: the cell at `p` keeps only the
     * candidate `num`, and the invariants survive.
     */
    method SetHiddenSingle(p: Pos, num: int)
      requires Inv() && NoAttemptsIn(board, cellPool)
      requires ValidPos(p) && 0 <= num < SUDOKU_SIZE && Possible(At(cellPool, p), num)
      modifies this`cellPool, this`cellPriorityQueue, this`pending
      ensures Inv() && NoAttemptsIn(board, cellPool)
      ensures Narrowed(old(cellPool), old(cellPriorityQueue), old(pending), cellPool, cellPriorityQueue, pending)
      ensures SoleCandidate(At(cellPool, p), num)
    {
      ghost var s, pool, q := Regs(), cellPool, cellPriorityQueue;
      HiddenSingleKeepsInvariants(s, givenBoard, pool, q, pending, p, num);
      HiddenSingleKeepsSoles(pool, p, num);
      assert CellFits(board, givenBoard, pool, p);
      var count := At(cellPool, p).possibleNumbersCount;
      if count != 1 && p in pending {
        CountTrueZero(At(pool, p).possibleNumbers);
        QueuedWhere(board, pool, q, cellsLeft, pending, p);
        RelocatedEnqueues(q, p, count, 1);
      }
      ProcessOneOccurence(p, num);
    }

    /**
     * analyseRowOneOccurences, analyseColumnOneOccurences and
     * analyseRegionOneOccurences: for each digit unit `u` lacks, a single cell
     * of the unit that may take it becomes a hidden single, and no such cell
     * at all means the board has no solution.  Holders are counted in the
     * pool as it was on entry.
     */
    method AnalyseUnitOneOccurences(k: Kind, u: int) returns (r: Status)
      requires Inv() && NoAttemptsIn(board, cellPool) && 0 <= u < SUDOKU_SIZE
      modifies this`cellPool, this`cellPriorityQueue, this`pending
      ensures r == Ok || r == Throw(NoSolutions)
      ensures Inv() && NoAttemptsIn(board, cellPool)
      ensures Narrowed(old(cellPool), old(cellPriorityQueue), old(pending), cellPool, cellPriorityQueue, pending)
      ensures (exists n :: Homeless(Regs(), old(cellPool), k, u, n)) ==> r.Throw?
      ensures r.Ok? ==> Found(Regs(), old(cellPool), cellPool, k, u)
      ensures r.Throw? ==> NumbersCount(Regs(), k)[u] != SUDOKU_SIZE && exists n :: Homeless(Regs(), cellPool, k, u, n)
    {
      var numbers := match k case Row => rowsNumbers case Column => columnsNumbers case Region => regionsNumbers;
      var numbersCount := match k
        case Row => rowsNumbersCount case Column => columnsNumbersCount case Region => regionsNumbersCount;
      if numbersCount[u] == SUDOKU_SIZE {
        FullUnitRegistered(Regs(), k, u);
        UnitPassedFull(Regs(), cellPool, k, u);
        UnitPassedFound(Regs(), cellPool, cellPool, k, u);
        return Ok;
      }
      for n := 0 to SUDOKU_SIZE
        invariant Inv() && NoAttemptsIn(board, cellPool)
        invariant Narrowed(old(cellPool), old(cellPriorityQueue), old(pending), cellPool, cellPriorityQueue, pending)
        invariant UnitPassed(Regs(), old(cellPool), cellPool, k, u, n)
      {
        if numbers[u][n] {
          UnitPassedHeld(Regs(), old(cellPool), cellPool, k, u, n);
          continue;
        }
        ghost var pool, q, pending0 := cellPool, cellPriorityQueue, pending;
        r := AnalyseUnitDigit(k, u, n, old(cellPool));
        NarrowedTrans(old(cellPool), old(cellPriorityQueue), old(pending), pool, q, pending0,
                      cellPool, cellPriorityQueue, pending);
        if r.Throw? {
          return;
        }
      }
      UnitPassedFound(Regs(), old(cellPool), cellPool, k, u);
      return Ok;
    }

    /**
     * One digit `n` that unit `u` lacks, in the loop of the unit's
     * hidden-single analyser: the cells of the unit that may take it are
     * counted, a single one becomes a hidden single, and none at all means
     * the board has no solution.  `cells0` is the pool as it was when the
     * unit's pass began.
     */
    method AnalyseUnitDigit(k: Kind, u: int, n: int, ghost cells0: Cells) returns (r: Status)
      requires Inv() && NoAttemptsIn(board, cellPool) && 0 <= u < SUDOKU_SIZE && 0 <= n < SUDOKU_SIZE
      requires !Numbers(Regs(), k)[u][n] && IsGrid(cells0) && Pruned(cells0, cellPool)
      requires UnitPassed(Regs(), cells0, cellPool, k, u, n)
      modifies this`cellPool, this`cellPriorityQueue, this`pending
      ensures r == Ok || r == Throw(NoSolutions)
      ensures Inv() && NoAttemptsIn(board, cellPool)
      ensures Narrowed(old(cellPool), old(cellPriorityQueue), old(pending), cellPool, cellPriorityQueue, pending)
      ensures r.Throw? <==> Homeless(Regs(), old(cellPool), k, u, n)
      ensures r.Throw? ==> cellPool == old(cellPool)
      ensures var passed := UnitPassed(Regs(), cells0, cellPool, k, u, n + 1); r.Ok? ==> passed
    {
      var occurences, occurencePos := ScanUnit(Regs(), cellPool, k, u, n);
      ghost var pool, q, pending0 := cellPool, cellPriorityQueue, pending;
      if occurences == 1 {
        var p := occurencePos.value;
        HolderHasCandidate(Regs(), cellPool, k, u, n, SUDOKU_SIZE, p);
        SetHiddenSingle(p, n);
        SinglesKept(Regs(), cells0, k, u, n, pool, q, pending0, cellPool, cellPriorityQueue, pending);
      }
      DigitAnalysed(Regs(), cells0, pool, cellPool, k, u, n, occurences, occurencePos);
      r := if occurences == 0 then Throw(NoSolutions) else Ok;
    }

    /**
     * analyseCellPossibleNumbers on one cell for updateAffectedCells, with
     * nothing pending: the cell joins those recomputed, or is a free cell
     * none of whose candidates is left.
     */
    method RefreshPeer(y: Pos, ghost cells0: Cells, ghost done: seq<Pos>) returns (valid: bool)
      requires Inv() && NoAttemptsIn(board, cellPool) && pending == {} && ValidPos(y)
      requires Refreshed(Regs(), cells0, cellPool, done)
      modifies this`cellPool, this`cellPriorityQueue, this`pending
      ensures valid ==>
        Inv() && NoAttemptsIn(board, cellPool) && pending == {} && Refreshed(Regs(), cells0, cellPool, done + [y])
      ensures !valid ==> IsFree(At(board, y)) && forall n :: 0 <= n < SUDOKU_SIZE ==> InUnits(Regs(), y, n)
    {
      RefreshKeepsInvariants(Regs(), givenBoard, cells0, cellPool, cellPriorityQueue, done, y);
      valid := AnalyseCellPossibleNumbers(y);
    }

    /**
     * updateAffectedCells: after a digit is placed at `p`, the candidates of
     * every stale cell sharing a unit with `p` are recomputed, in the order of
     * Peers(p); a cell left without candidates means the board has no
     * solution.
     */
    method UpdateAffectedCells(p: Pos) returns (r: Status)
      requires Inv() && NoAttemptsIn(board, cellPool) && pending == {} && ValidPos(p)
      modifies this`cellPool, this`cellPriorityQueue, this`pending
      ensures r == Ok || r == Throw(NoSolutions)
      ensures r.Ok? ==>
        Inv() && NoAttemptsIn(board, cellPool) && pending == {} && Refreshed(Regs(), old(cellPool), cellPool, Peers(p))
      ensures r.Throw? ==>
        exists y :: ValidPos(y) && y in Peers(p) && IsFree(At(board, y)) && forall n :: 0 <= n < SUDOKU_SIZE ==> InUnits(Regs(), y, n)
    {
      var peers := Peers(p);
      for i := 0 to |peers|
        invariant Inv() && NoAttemptsIn(board, cellPool) && pending == {}
        invariant Refreshed(Regs(), old(cellPool), cellPool, peers[..i])
      {
        var y := peers[i];
        PeerSharesAUnit(p, i);
        assert peers[..i + 1] == peers[..i] + [y];
        var valid := RefreshPeer(y, old(cellPool), peers[..i]);
        if !valid {
          return Throw(NoSolutions);
        }
      }
      assert peers[..|peers|] == peers;
      return Ok;
    }

    /**
     * The step solveCell and attemptSolveCell share: digit `n` is written at
     * `p` and analyseCell registers it, which succeeds exactly when no unit
     * of `p` holds `n` yet.
     */
    method WriteDigit(p: Pos, n: int) returns (valid: bool)
      requires WellShaped(Regs()) && ValidPos(p) && 0 <= n < SUDOKU_SIZE
      modifies this`board, this`rowsNumbers, this`rowsNumbersCount, this`columnsNumbers, this`columnsNumbersCount
      modifies this`regionsNumbers, this`regionsNumbersCount, this`cellsLeft
      ensures valid == !InUnits(old(Regs()), p, n)
      ensures valid ==> Regs() == Attempt(old(Regs()), p, n)
    {
      DigitCharRoundTrip(n);
      board := Put(board, p, DigitChar(n));
      valid := AnalyseCell(p);
    }

    /**
     * The placement half of solveCell: digit `n`, the only candidate of the
     * pending cell `p`, is written on the board and registered when none of
     * its units holds it, and the cell is then left without candidates.
     */
    method PlaceOnlyCandidate(p: Pos, n: int) returns (valid: bool)
      requires Inv() && NoAttemptsIn(board, cellPool) && pending == {p} && ValidPos(p) && 0 <= n < SUDOKU_SIZE
      requires SaneCount(At(cellPool, p)) && At(cellPool, p).possibleNumbersCount == 1 && Possible(At(cellPool, p), n)
      modifies this`board, this`rowsNumbers, this`rowsNumbersCount, this`columnsNumbers, this`columnsNumbersCount
      modifies this`regionsNumbers, this`regionsNumbersCount, this`cellsLeft
      modifies this`cellPool, this`pending
      ensures valid == !InUnits(old(Regs()), p, n)
      ensures valid ==>
        Settled() && Regs() == Attempt(old(Regs()), p, n) && IsSolved(At(board, p), At(cellPool, p))
        && cellPool == Put(old(cellPool), p, MarkNotPossible(old(At(cellPool, p)), n))
    {
      ghost var s, pool, q := Regs(), cellPool, cellPriorityQueue;
      valid := WriteDigit(p, n);
      if !valid {
        return;
      }
      SolveKeepsInvariants(s, givenBoard, pool, q, p, n);
      cellPool := Put(cellPool, p, MarkNotPossible(At(cellPool, p), n));
      pending := {};
    }

    /**
     * solveCell: the pending cell `p` has a single candidate, found by a
     * search from the last digit down; it is written on the board and
     * registered, the cell is left without candidates (solved) and the cells
     * around it are recomputed.  A digit its units already hold, or a cell
     * around it left without candidates, means the board has no solution.
     */
    method SolveCell(p: Pos) returns (r: Status)
      requires Inv() && NoAttemptsIn(board, cellPool) && pending == {p} && ValidPos(p)
      requires SaneCount(At(cellPool, p)) && At(cellPool, p).possibleNumbersCount == 1
      modifies this`board, this`rowsNumbers, this`rowsNumbersCount, this`columnsNumbers, this`columnsNumbersCount
      modifies this`regionsNumbers, this`regionsNumbersCount, this`cellsLeft
      modifies this`cellPool, this`cellPriorityQueue, this`pending
      ensures r == Ok || r == Throw(NoSolutions)
      ensures var cell := old(At(cellPool, p));
        var n := OnlyCandidate(cell);
        r.Ok? ==>
          Settled() && Regs() == Attempt(old(Regs()), p, n) && IsSolved(At(board, p), At(cellPool, p))
          && Refreshed(Regs(), Put(old(cellPool), p, MarkNotPossible(cell, n)), cellPool, Peers(p))
      ensures var n := OnlyCandidate(old(At(cellPool, p)));
        r.Throw? ==>
          InUnits(old(Regs()), p, n)
          || (Regs() == Attempt(old(Regs()), p, n)
              && exists y :: ValidPos(y) && y in Peers(p) && IsFree(At(board, y))
                   && forall m :: 0 <= m < SUDOKU_SIZE ==> InUnits(Regs(), y, m))
    {
      var cell := At(cellPool, p);
      ghost var only := OnlyCandidate(cell);
      var n := SUDOKU_SIZE - 1;
      while n >= 0 && !cell.possibleNumbers[n]
        invariant only <= n < SUDOKU_SIZE
      {
        n := n - 1;
      }
      assert Possible(cell, n);
      var valid := PlaceOnlyCandidate(p, n);
      if !valid {
        return Throw(NoSolutions);
      }
      ghost var placed := cellPool;
      r := UpdateAffectedCells(p);
      if r.Ok? {
        PeersShareAUnit(p);
        assert RefreshedAt(Regs(), placed, cellPool, Peers(p), p);
      }
    }

    /**
     * findOneOccurrences: the hidden-single pass over row i, column i and
     * region i, for i from 0 to 8, stopping at the first unit that shows the
     * board has no solution.
     */
    method FindOneOccurrences() returns (r: Status)
      requires Inv() && NoAttemptsIn(board, cellPool)
      modifies this`cellPool, this`cellPriorityQueue, this`pending
      ensures r == Ok || r == Throw(NoSolutions)
      ensures Inv() && NoAttemptsIn(board, cellPool)
      ensures Narrowed(old(cellPool), old(cellPriorityQueue), old(pending), cellPool, cellPriorityQueue, pending)
      ensures (exists k, u, n :: Homeless(Regs(), old(cellPool), k, u, n)) ==> r.Throw?
      ensures r.Ok? ==> forall k, u :: 0 <= u < SUDOKU_SIZE ==> Found(Regs(), old(cellPool), cellPool, k, u)
      ensures r.Throw? ==> exists k, u, n :: Homeless(Regs(), cellPool, k, u, n)
    {
      for i := 0 to SUDOKU_SIZE
        invariant Inv() && NoAttemptsIn(board, cellPool)
        invariant Narrowed(old(cellPool), old(cellPriorityQueue), old(pending), cellPool, cellPriorityQueue, pending)
        invariant FoundIn(Regs(), old(cellPool), cellPool, UnitsBelow(i))
      {
        ghost var pool, q, pending0 := cellPool, cellPriorityQueue, pending;
        r := AnalyseIndexOneOccurences(i, old(cellPool));
        NarrowedTrans(old(cellPool), old(cellPriorityQueue), old(pending), pool, q, pending0,
                      cellPool, cellPriorityQueue, pending);
        if r.Throw? {
          return;
        }
      }
      AllFound(Regs(), old(cellPool), cellPool);
      return Ok;
    }

    /**
     * Round `i` of findOneOccurrences: row `i`, column `i` and region `i`
     * in turn, in a pass that began with the pool `cells0` and has found the
     * units of index below `i`.
     */
    method AnalyseIndexOneOccurences(i: int, ghost cells0: Cells) returns (r: Status)
      requires Inv() && NoAttemptsIn(board, cellPool) && 0 <= i < SUDOKU_SIZE
      requires IsGrid(cells0) && Pruned(cells0, cellPool) && FoundIn(Regs(), cells0, cellPool, UnitsBelow(i))
      modifies this`cellPool, this`cellPriorityQueue, this`pending
      ensures r == Ok || r == Throw(NoSolutions)
      ensures Inv() && NoAttemptsIn(board, cellPool)
      ensures Narrowed(old(cellPool), old(cellPriorityQueue), old(pending), cellPool, cellPriorityQueue, pending)
      ensures r.Throw? ==> exists k, u, n :: Homeless(Regs(), cellPool, k, u, n)
      ensures r.Ok? ==> FoundIn(Regs(), cells0, cellPool, UnitsBelow(i + 1))
    {
      ghost var units := UnitsBelow(i);
      r := AnalyseUnitInPass(Row, i, cells0, units);
      if r.Throw? {
        return;
      }
      ghost var pool, q, pending0 := cellPool, cellPriorityQueue, pending;
      units := units + {UnitId(Row, i)};
      r := AnalyseUnitInPass(Column, i, cells0, units);
      NarrowedTrans(old(cellPool), old(cellPriorityQueue), old(pending), pool, q, pending0,
                    cellPool, cellPriorityQueue, pending);
      if r.Throw? {
        return;
      }
      pool, q, pending0 := cellPool, cellPriorityQueue, pending;
      units := units + {UnitId(Column, i)};
      r := AnalyseUnitInPass(Region, i, cells0, units);
      NarrowedTrans(old(cellPool), old(cellPriorityQueue), old(pending), pool, q, pending0,
                    cellPool, cellPriorityQueue, pending);
    }

    /**
     * One unit of a hidden-single pass that began with the pool `cells0` and
     * has found the units of `done`: the unit is analysed and, unless the
     * board has no solution, found as well.
     */
    method AnalyseUnitInPass(k: Kind, u: int, ghost cells0: Cells, ghost done: set<UnitId>) returns (r: Status)
      requires Inv() && NoAttemptsIn(board, cellPool) && 0 <= u < SUDOKU_SIZE
      requires IsGrid(cells0) && Pruned(cells0, cellPool) && FoundIn(Regs(), cells0, cellPool, done)
      modifies this`cellPool, this`cellPriorityQueue, this`pending
      ensures r == Ok || r == Throw(NoSolutions)
      ensures Inv() && NoAttemptsIn(board, cellPool) && Pruned(cells0, cellPool)
      ensures Narrowed(old(cellPool), old(cellPriorityQueue), old(pending), cellPool, cellPriorityQueue, pending)
      ensures r.Throw? ==> exists n :: Homeless(Regs(), cellPool, k, u, n)
      ensures r.Ok? ==> FoundIn(Regs(), cells0, cellPool, done + {UnitId(k, u)})
    {
      ghost var pool := cellPool;
      r := AnalyseUnitOneOccurences(k, u);
      PrunedTrans(cells0, pool, cellPool);
      if r.Ok? {
        FoundInStep(Regs(), cells0, done, k, u, pool, old(cellPriorityQueue), old(pending),
                    cellPool, cellPriorityQueue, pending);
      }
    }

    /**
     * After the hidden-single pass at the first backtracking level has found
     * a single, the cell under trial goes back to the queue with
     * addToQueue(cell, -1), taken only when no bucket holds the cell already
     * (Scheduler.Reenqueue).
     */
    method RequeueTrialCell(p: Pos)
      requires Inv() && pending <= {p} && ValidPos(p) && IsFree(At(board, p))
      requires At(cellPool, p).possibleNumbersCount >= 1
      modifies this`cellPriorityQueue, this`pending
      ensures Inv() && pending == {}
      ensures cellPriorityQueue == Reenqueue(old(cellPriorityQueue), p, At(cellPool, p).possibleNumbersCount)
    {
      QueuedWhere(board, cellPool, cellPriorityQueue, cellsLeft, pending, p);
      var queued := IsCellInQueue(p);
      if !queued {
        var count := At(cellPool, p).possibleNumbersCount;
        RelocatedEnqueues(cellPriorityQueue, p, -1, count);
        RelocatePendingKeepsQueue(board, cellPool, cellPriorityQueue, cellsLeft, pending, p, At(cellPool, p), -1);
        PutSame(cellPool, p);
        AddToQueue(p, -1);
      }
    }

    /**
     * The hidden-single pass over the row, the column and the region of `p`
     * (analyseRowOneOccurences, analyseColumnOneOccurences and
     * analyseRegionOneOccurences in turn), stopping at the first unit that
     * shows the board has no solution.
     */
    method HiddenSinglesAround(p: Pos) returns (r: Status)
      requires Inv() && NoAttemptsIn(board, cellPool) && ValidPos(p)
      modifies this`cellPool, this`cellPriorityQueue, this`pending
      ensures r == Ok || r == Throw(NoSolutions)
      ensures Inv() && NoAttemptsIn(board, cellPool)
      ensures Narrowed(old(cellPool), old(cellPriorityQueue), old(pending), cellPool, cellPriorityQueue, pending)
      ensures (exists k, n :: Homeless(Regs(), old(cellPool), k, UnitOf(k, p), n)) ==> r.Throw?
      ensures r.Ok? ==> forall k :: Found(Regs(), old(cellPool), cellPool, k, UnitOf(k, p))
      ensures r.Throw? ==> exists k, n :: Homeless(Regs(), cellPool, k, UnitOf(k, p), n)
    {
      assert CellFits(board, givenBoard, cellPool, p);
      var region := At(cellPool, p).region;
      assert region == UnitOf(Region, p);
      ghost var units: set<UnitId> := {};
      r := AnalyseUnitInPass(Row, p.row, old(cellPool), units);
      if r.Throw? {
        ghost var n :| Homeless(Regs(), cellPool, Row, p.row, n);
        assert Homeless(Regs(), cellPool, Row, UnitOf(Row, p), n);
        return;
      }
      ghost var pool, q, pending0 := cellPool, cellPriorityQueue, pending;
      units := units + {UnitId(Row, p.row)};
      r := AnalyseUnitInPass(Column, p.column, old(cellPool), units);
      NarrowedTrans(old(cellPool), old(cellPriorityQueue), old(pending), pool, q, pending0,
                    cellPool, cellPriorityQueue, pending);
      if r.Throw? {
        ghost var n :| Homeless(Regs(), cellPool, Column, p.column, n);
        assert Homeless(Regs(), cellPool, Column, UnitOf(Column, p), n);
        return;
      }
      pool, q, pending0 := cellPool, cellPriorityQueue, pending;
      units := units + {UnitId(Column, p.column)};
      r := AnalyseUnitInPass(Region, region, old(cellPool), units);
      NarrowedTrans(old(cellPool), old(cellPriorityQueue), old(pending), pool, q, pending0,
                    cellPool, cellPriorityQueue, pending);
      if r.Throw? {
        ghost var n :| Homeless(Regs(), cellPool, Region, region, n);
        assert Homeless(Regs(), cellPool, Region, UnitOf(Region, p), n);
        return;
      }
      assert units + {UnitId(Region, region)} == UnitsAround(p);
      AroundFound(Regs(), old(cellPool), cellPool, p);
    }

    /**
     * The step solveBoardBacktrackingSingleThread takes at its first level
     * before every digit but the first: a cell down to one candidate is
     * solved and solveBoard takes over; otherwise the hidden-single pass runs
     * over the cell's row, column and region, and when it has found a single
     * the cell is queued again and solveBoard takes over.  None means the
     * trial of the next digit goes on, with nothing changed that it depends on.
     */
    method PropagateAroundTrial(p: Pos) returns (r: Option<Outcome>)
      requires Inv() && NoAttemptsIn(board, cellPool) && pending == {p} && cellPriorityQueue[0] == []
      requires ValidPos(p) && SaneCount(At(cellPool, p)) && At(cellPool, p).possibleNumbersCount >= 1
      modifies this`board, this`rowsNumbers, this`rowsNumbersCount, this`columnsNumbers, this`columnsNumbersCount
      modifies this`regionsNumbers, this`regionsNumbersCount, this`cellsLeft
      modifies this`cellPool, this`cellPriorityQueue, this`pending
      decreases cellsLeft, 2
      ensures r.None? ==>
        Inv() && NoAttemptsIn(board, cellPool) && pending == {p} && cellPriorityQueue[0] == []
        && Regs() == old(Regs()) && At(cellPool, p) == old(At(cellPool, p))
        && At(cellPool, p).possibleNumbersCount >= 2
      ensures r.Some? ==> r.value == Done(true) || r.value == Done(false) || r.value == Fail(NoSolutions)
      ensures r.Some? && r.value.Done? ==> Inv() && (r.value.solved ==> cellsLeft == 0)
    {
      if At(cellPool, p).possibleNumbersCount == 1 {
        var st := SolveCell(p);
        if st.Throw? {
          return Some(Fail(NoSolutions));
        }
        var outcome := SolveBoard();
        return Some(outcome);
      }
      var st := HiddenSinglesAround(p);
      if st.Throw? {
        return Some(Fail(NoSolutions));
      }
      QueuedWhere(board, cellPool, cellPriorityQueue, cellsLeft, pending, p);
      if cellPriorityQueue[0] != [] {
        RequeueTrialCell(p);
        var outcome := SolveBoard();
        return Some(outcome);
      }
      return None;
    }

    /**
     * undoCell on the cell under trial once the search below it has failed:
     * the registries and digits are those from before attemptSolveCell, and
     * the cell is pending again.
     */
    method UndoTrial(p: Pos, ghost s: Registers, ghost n: int)
      requires Inv() && pending == {} && ValidPos(p) && !At(cellPool, p).isClue
      requires Consistent(s) && IsFree(At(s.board, p)) && 0 <= n < SUDOKU_SIZE && !InUnits(s, p, n)
      requires SameRegisters(Regs(), Attempt(s, p, n))
      modifies this`board, this`rowsNumbers, this`rowsNumbersCount, this`columnsNumbers, this`columnsNumbersCount
      modifies this`regionsNumbers, this`regionsNumbersCount, this`cellsLeft, this`pending
      ensures Inv() && pending == {p} && SameRegisters(Regs(), s)
    {
      UndoAfterAttempt(s, Regs(), p, n);
      UndoKeepsInvariants(Regs(), givenBoard, cellPool, cellPriorityQueue, pending, p);
      UndoCell(p);
      pending := pending + {p};
    }

    /**
     * One trial of solveBoardBacktrackingSingleThread: attemptSolveCell with
     * digit `n` on the cell under trial, the search one level down, and
     * undoCell when that search fails.  Unless the board got solved, the
     * game is back where it was: the same registries and digits, the same
     * cells and queue, and `p` pending.
     */
    method TryCandidate(p: Pos, n: int) returns (tried: bool, solved: bool)
      requires Inv() && pending == {p} && cellPriorityQueue[0] == [] && 0 <= n < SUDOKU_SIZE
      modifies this`board, this`rowsNumbers, this`rowsNumbersCount, this`columnsNumbers, this`columnsNumbersCount
      modifies this`regionsNumbers, this`regionsNumbersCount, this`cellsLeft
      modifies this`cellPool, this`cellPriorityQueue, this`pending
      decreases cellsLeft, 2
      ensures Inv()
      ensures tried == !InUnits(old(Regs()), p, n)
      ensures solved ==> tried && cellsLeft == 0
      ensures !solved ==>
        SameRegisters(Regs(), old(Regs())) && cellPool == old(cellPool)
        && cellPriorityQueue == old(cellPriorityQueue) && pending == {p}
    {
      ghost var s := Regs();
      assert CellFits(board, givenBoard, cellPool, p);
      tried := AttemptSolveCell(p, n);
      if !tried {
        return false, false;
      }
      var r := SolveBoardBacktrackingSingleThread(false);
      if r.solved {
        return true, true;
      }
      UndoTrial(p, s, n);
      return true, false;
    }

    /**
     * cell.markNumberAsNotPossible(n) on the cell under trial at the first
     * backtracking level, after digit `n` failed: the cell loses that one
     * candidate and the invariants hold on.
     */
    method DiscardDigit(p: Pos, n: int)
      requires Inv() && NoAttemptsIn(board, cellPool) && p in pending && ValidPos(p) && 0 <= n < SUDOKU_SIZE
      requires SaneCount(At(cellPool, p)) && Possible(At(cellPool, p), n)
      modifies this`cellPool
      ensures Inv() && NoAttemptsIn(board, cellPool)
      ensures cellPool == Put(old(cellPool), p, MarkNotPossible(old(At(cellPool, p)), n))
      ensures SaneCount(At(cellPool, p)) && At(cellPool, p).possibleNumbersCount == old(At(cellPool, p).possibleNumbersCount) - 1
    {
      DiscardKeepsInvariants(Regs(), givenBoard, cellPool, cellPriorityQueue, pending, p, n);
      cellPool := Put(cellPool, p, MarkNotPossible(At(cellPool, p), n));
    }

    /**
     * The state between two digits of a trial of `p`: `p` is the one pending
     * cell, bucket 0 is empty, and the free count is the one the trial
     * started with.  At the first level no placement is tentative and, until
     * a digit has been tried, the cell still has two candidates or more;
     * below it the registries, digits, cells and queue are those the trial
     * started with (`s0`, `pool0`, `q1`).
     */
    ghost predicate Trial(p: Pos, first: bool, numbersTested: int, s0: Registers, pool0: Cells, q1: Queue)
      reads this
    {
      Inv() && pending == {p} && cellPriorityQueue[0] == [] && cellsLeft == s0.cellsLeft && numbersTested >= 0
      && ValidPos(p) && SaneCount(At(cellPool, p)) && At(cellPool, p).possibleNumbersCount >= 1
      && (first ==> NoAttemptsIn(board, cellPool) && (numbersTested == 0 ==> At(cellPool, p).possibleNumbersCount >= 2))
      && (!first ==> SameRegisters(Regs(), s0) && cellPool == pool0 && cellPriorityQueue == q1)
    }

    /**
     * One turn of the digit loop of solveBoardBacktrackingSingleThread for a
     * candidate `n` of `p`: at the first level, once a digit has been tried,
     * PropagateAroundTrial may end the search; then `n` is tried, and at the
     * first level a digit that failed is struck from the cell.  `tested`
     * says whether the attempt got past attemptSolveCell (numbersTested++).
     */
    method TryNextDigit(p: Pos, n: int, first: bool, numbersTested: int,
                        ghost s0: Registers, ghost pool0: Cells, ghost q1: Queue)
      returns (stop: Option<Outcome>, tested: bool)
      requires Trial(p, first, numbersTested, s0, pool0, q1) && 0 <= n < SUDOKU_SIZE && Possible(At(cellPool, p), n)
      modifies this`board, this`rowsNumbers, this`rowsNumbersCount, this`columnsNumbers, this`columnsNumbersCount
      modifies this`regionsNumbers, this`regionsNumbersCount, this`cellsLeft
      modifies this`cellPool, this`cellPriorityQueue, this`pending
      decreases cellsLeft, 3
      ensures stop.None? ==> Trial(p, first, if tested then numbersTested + 1 else numbersTested, s0, pool0, q1)
      ensures stop.Some? ==> stop.value == Done(true) || stop.value == Done(false) || stop.value == Fail(NoSolutions)
      ensures stop.Some? && stop.value.Done? ==> Inv() && (stop.value.solved ==> cellsLeft == 0)
      ensures !first && stop.Some? ==> stop.value == Done(true)
    {
      if first && numbersTested > 0 {
        stop := PropagateAroundTrial(p);
        if stop.Some? {
          return stop, false;
        }
      }
      ghost var b := board;
      var tried, solved := TryCandidate(p, n);
      if solved {
        return Some(Done(true)), true;
      }
      if first {
        SameDigitsNoAttempts(board, b, cellPool);
        if tried {
          DiscardDigit(p, n);
        }
      }
      return None, tried;
    }

    /**
     * solveBoardBacktrackingSingleThread(firstBacktrackingLevel): the cell at
     * the head of the queue (bucket 0 is empty, so it has two candidates or
     * more) takes each of its candidates in turn, and the search goes one
     * level down; an empty queue means the board is full.  Below the first
     * level a search that fails puts everything back as it found it, the
     * cell back at the front of its bucket.  At the first level each digit
     * that failed is struck from the cell, which is then solved or left to
     * the hidden-single pass before the next digit (PropagateAroundTrial).
     */
    method SolveBoardBacktrackingSingleThread(first: bool) returns (r: Outcome)
      requires Inv() && pending == {} && cellPriorityQueue[0] == []
      requires first ==> NoAttemptsIn(board, cellPool)
      modifies this`board, this`rowsNumbers, this`rowsNumbersCount, this`columnsNumbers, this`columnsNumbersCount
      modifies this`regionsNumbers, this`regionsNumbersCount, this`cellsLeft
      modifies this`cellPool, this`cellPriorityQueue, this`pending
      decreases cellsLeft, 4
      ensures r == Done(true) || r == Done(false) || r == Fail(NoSolutions)
      ensures r.Done? ==> Inv() && (r.solved ==> cellsLeft == 0)
      ensures !first ==> r.Done?
      ensures !first && r == Done(false) ==>
        SameRegisters(Regs(), old(Regs())) && cellPool == old(cellPool)
        && cellPriorityQueue == old(cellPriorityQueue) && pending == {}
    {
      ghost var q0 := cellPriorityQueue;
      ghost var level := FirstNonEmpty(q0);
      var cell := PopQueue();
      if cell.None? {
        return Done(true);
      }
      var p := cell.value;
      PopKeepsQueue(board, cellPool, q0, cellsLeft, {}, level);
      assert CellFits(board, givenBoard, cellPool, p);
      ghost var s0, pool0, q1 := Regs(), cellPool, cellPriorityQueue;
      var numbersTested := 0;
      for n := 0 to SUDOKU_SIZE
        invariant Trial(p, first, numbersTested, s0, pool0, q1)
      {
        if !At(cellPool, p).possibleNumbers[n] {
          continue;
        }
        var stop, tested := TryNextDigit(p, n, first, numbersTested, s0, pool0, q1);
        if stop.Some? {
          return stop.value;
        }
        if tested {
          numbersTested := numbersTested + 1;
        }
      }
      PushFrontKeepsQueue(board, cellPool, cellPriorityQueue, cellsLeft, pending, p);
      AddTryCellBackToQueue(p);
      if !first {
        PopPushRoundTrip(q0, level);
      }
      return Done(false);
    }

    /**
     * solveBoardBacktracking: the single-threaded search from its first
     * level (the multi-threaded one is off for a game made from a board).
     */
    method SolveBoardBacktracking() returns (r: Outcome)
      requires Settled() && cellPriorityQueue[0] == []
      modifies this`board, this`rowsNumbers, this`rowsNumbersCount, this`columnsNumbers, this`columnsNumbersCount
      modifies this`regionsNumbers, this`regionsNumbersCount, this`cellsLeft
      modifies this`cellPool, this`cellPriorityQueue, this`pending
      decreases cellsLeft, 5
      ensures r == Done(true) || r == Done(false) || r == Fail(NoSolutions)
      ensures r.Done? ==> Inv() && (r.solved ==> cellsLeft == 0)
    {
      r := SolveBoardBacktrackingSingleThread(true);
    }

    /**
     * One turn of the loop of solveBoard: a cell of bucket 0 is solved; when
     * bucket 0 is empty the hidden-single pass runs, and when it finds
     * nothing either, backtracking takes over and its outcome ends the
     * search (Some).  A turn that does not end the search leaves the game
     * settled and either one free cell fewer or bucket 0 no longer empty.
     */
    method SolveBoardStep() returns (stop: Option<Outcome>)
      requires Settled()
      modifies this`board, this`rowsNumbers, this`rowsNumbersCount, this`columnsNumbers, this`columnsNumbersCount
      modifies this`regionsNumbers, this`regionsNumbersCount, this`cellsLeft
      modifies this`cellPool, this`cellPriorityQueue, this`pending
      decreases cellsLeft, if cellPriorityQueue[0] != [] then 0 else 6
      ensures stop.None? ==>
        Settled()
        && (cellsLeft < old(cellsLeft)
            || (cellsLeft == old(cellsLeft) && old(cellPriorityQueue[0]) == [] && cellPriorityQueue[0] != []))
      ensures stop.Some? ==> stop.value == Done(true) || stop.value == Done(false) || stop.value == Fail(NoSolutions)
      ensures stop.Some? && stop.value.Done? ==> Inv() && (stop.value.solved ==> cellsLeft == 0)
    {
      ghost var q := cellPriorityQueue;
      var cell := PopQueueFirstLevel();
      if cell.None? {
        var st := FindOneOccurrences();
        if st.Throw? {
          return Some(Fail(NoSolutions));
        }
        if cellPriorityQueue[0] == [] {
          var outcome := SolveBoardBacktracking();
          return Some(outcome);
        }
        return None;
      }
      var p := cell.value;
      PopKeepsQueue(board, cellPool, q, cellsLeft, {}, 0);
      assert CellFits(board, givenBoard, cellPool, p);
      var st := SolveCell(p);
      if st.Throw? {
        return Some(Fail(NoSolutions));
      }
      return None;
    }

    /**
     * solveBoard: turns of SolveBoardStep while free cells are left.
     * Done(true) means the board is full (SolvedIsSolution says it is then
     * a solution of the given board).
     */
    method SolveBoard() returns (r: Outcome)
      requires Settled()
      modifies this`board, this`rowsNumbers, this`rowsNumbersCount, this`columnsNumbers, this`columnsNumbersCount
      modifies this`regionsNumbers, this`regionsNumbersCount, this`cellsLeft
      modifies this`cellPool, this`cellPriorityQueue, this`pending
      decreases cellsLeft, if cellPriorityQueue[0] != [] then 1 else 7
      ensures r == Done(true) || r == Done(false) || r == Fail(NoSolutions)
      ensures r.Done? ==> Inv() && (r.solved ==> cellsLeft == 0)
    {
      ghost var c0, e0 := cellsLeft, if cellPriorityQueue[0] != [] then 1 else 7;
      while cellsLeft > 0
        invariant Settled()
        invariant cellsLeft <= c0 && (cellsLeft == c0 && e0 == 1 ==> cellPriorityQueue[0] != [])
        decreases cellsLeft, if cellPriorityQueue[0] != [] then 0 else 1
      {
        var stop := SolveBoardStep();
        if stop.Some? {
          return stop.value;
        }
      }
      return Done(true);
    }

    /** The first pass of analyseBoard before step `i`; nothing is queued yet. */
    ghost predicate FirstPass(i: int)
      reads this
    {
      FirstPassAt(Regs(), givenBoard, cellPool, pending, i) && cellPriorityQueue == [[], [], []] && !boardAnalysed
    }

    /**
     * createAndAnalyseCell: a fresh cell for (row, column), a clue when the
     * board holds a digit there, then analyseCell; "Invalid board!" when one
     * of the units of the digit already holds it.  A free cell is left
     * pending for the second pass.
     */
    method CreateAndAnalyseCell(row: int, column: int) returns (st: Status)
      requires 0 <= row < SUDOKU_SIZE && 0 <= column < SUDOKU_SIZE
      requires WellShaped(Regs()) && IsGrid(cellPool)
      modifies this`rowsNumbers, this`rowsNumbersCount, this`columnsNumbers, this`columnsNumbersCount
      modifies this`regionsNumbers, this`regionsNumbersCount, this`cellsLeft, this`cellPool, this`pending
      ensures var p, ch := Pos(row, column), At(board, Pos(row, column));
        && (st == Ok || st == Throw(InvalidBoard))
        && (st.Throw? <==> !IsFree(ch) && InUnits(old(Regs()), p, GetNumber(ch)))
        && cellPool == Put(old(cellPool), p, NewCell(row, column, !IsFree(ch)))
        && (st.Throw? ==> Regs() == old(Regs()) && pending == old(pending))
        && (st.Ok? && IsFree(ch) ==> Regs() == old(Regs()) && pending == old(pending) + {p})
        && (st.Ok? && !IsFree(ch) ==> Regs() == Register(old(Regs()), p, GetNumber(ch)) && pending == old(pending))
    {
      var p := Pos(row, column);
      var n := board[row][column] as int - '0' as int - 1;
      var isClue := 0 <= n < SUDOKU_SIZE;
      var valid := AnalyseCell(p);
      cellPool := Put(cellPool, p, NewCell(row, column, isClue));
      if !valid {
        return Throw(InvalidBoard);
      }
      if !isClue {
        pending := pending + {p};
      }
      return Ok;
    }

    /**
     * One step of the first pass of analyseBoard: the cell at (row, column)
     * is created and analysed; the board is refused exactly when that cell
     * repeats an earlier clue of one of its units.
     */
    method FirstPassVisit(row: int, column: int) returns (st: Status)
      requires 0 <= row < SUDOKU_SIZE && 0 <= column < SUDOKU_SIZE && FirstPass(Index(Pos(row, column)))
      modifies this`rowsNumbers, this`rowsNumbersCount, this`columnsNumbers, this`columnsNumbersCount
      modifies this`regionsNumbers, this`regionsNumbersCount, this`cellsLeft, this`cellPool, this`pending
      ensures st == Ok || st == Throw(InvalidBoard)
      ensures st.Throw? <==> RepeatedClue(board, Pos(row, column))
      ensures st.Ok? ==> FirstPass(Index(Pos(row, column + 1)))
    {
      var p := Pos(row, column);
      PosAtIndex(p);
      ghost var s, cells, pending0 := Regs(), cellPool, pending;
      FirstPassCheck(s, givenBoard, cells, pending0, Index(p));
      st := CreateAndAnalyseCell(row, column);
      if st.Ok? {
        FirstPassNext(s, givenBoard, cells, pending0, Index(p), Regs(), cellPool, pending);
        assert Index(Pos(row, column + 1)) == Index(p) + 1;
      }
    }

    /** The cells, the queue and the pending set as one value. */
    ghost function Current(): PassState
      reads this
    {
      PassState(cellPool, cellPriorityQueue, pending)
    }

    /**
     * solveSudoku: analyseBoard, then solveBoard.  A SudokuException ends the
     * run, which is Fail here: "Invalid board!" exactly for the refused
     * boards.  When the run ends with a full board, that board solves the
     * given one.
     */
    method SolveSudoku() returns (r: Outcome)
      requires Initial()
      modifies this`board, this`rowsNumbers, this`rowsNumbersCount, this`columnsNumbers, this`columnsNumbersCount
      modifies this`regionsNumbers, this`regionsNumbersCount, this`cellsLeft, this`cellPool
      modifies this`cellPriorityQueue, this`pending, this`initialFreeCellsNumber, this`boardAnalysed
      ensures r == Done(true) || r == Done(false) || r == Fail(InvalidBoard) || r == Fail(NoSolutions)
      ensures r == Fail(InvalidBoard) <==> Refused(givenBoard)
      ensures r == Done(true) ==> IsSolutionOf(board, givenBoard)
    {
      var st := AnalyseBoard();
      if st.Throw? {
        return Fail(st.error);
      }
      r := SolveBoard();
      if r == Done(true) {
        SolvedIsSolution(Regs(), givenBoard, cellPool);
      }
    }

    /**
     * analyseBoard: a board that is not 9x9 is refused; the first pass
     * registers the clues cell by cell, the second gives every free cell the
     * candidates its units leave and queues it.  "Invalid board!" exactly
     * for the boards Refused describes; otherwise the solver starts settled,
     * with the queue holding every free cell.
     */
    method AnalyseBoard() returns (st: Status)
      requires Initial()
      modifies this`rowsNumbers, this`rowsNumbersCount, this`columnsNumbers, this`columnsNumbersCount
      modifies this`regionsNumbers, this`regionsNumbersCount, this`cellsLeft, this`cellPool
      modifies this`cellPriorityQueue, this`pending, this`initialFreeCellsNumber, this`boardAnalysed
      ensures st == Ok || st == Throw(InvalidBoard)
      ensures st.Throw? <==> Refused(board)
      ensures st.Ok? ==> Settled() && boardAnalysed && initialFreeCellsNumber == cellsLeft
      ensures st.Ok? ==> QueueSize(cellPriorityQueue) == cellsLeft
    {
      var shaped := IsSquareBoard();
      if !shaped {
        return Throw(InvalidBoard);
      }
      EmptyConsistent(Regs().(board := Masked(board, 0)));
      st := FirstPassAll();
      if st.Throw? {
        return;
      }
      var valid := SecondPassAll();
      if !valid {
        return Throw(InvalidBoard);
      }
      MarkAnalysed();
      return Ok;
    }

    /** The size checks of analyseBoard: nine rows of nine cells each. */
    method IsSquareBoard() returns (shaped: bool)
      ensures shaped == IsGrid(board)
    {
      if |board| != SUDOKU_SIZE {
        return false;
      }
      for l := 0 to SUDOKU_SIZE
        invariant forall r :: 0 <= r < l ==> |board[r]| == SUDOKU_SIZE
      {
        if |board[l]| != SUDOKU_SIZE {
          return false;
        }
      }
      return true;
    }

    /** The first loop of analyseBoard: createAndAnalyseCell on every cell, row by row. */
    method FirstPassAll() returns (st: Status)
      requires FirstPass(0)
      modifies this`rowsNumbers, this`rowsNumbersCount, this`columnsNumbers, this`columnsNumbersCount
      modifies this`regionsNumbers, this`regionsNumbersCount, this`cellsLeft, this`cellPool, this`pending
      ensures st == Ok || st == Throw(InvalidBoard)
      ensures st.Throw? ==> IsGrid(board) && exists p :: ValidPos(p) && RepeatedClue(board, p)
      ensures st.Ok? ==> FirstPass(SUDOKU_N_CELLS)
    {
      assert Index(Pos(0, 0)) == 0;
      for l := 0 to SUDOKU_SIZE
        invariant FirstPass(Index(Pos(l, 0)))
      {
        st := FirstPassRow(l);
        if st.Throw? {
          return;
        }
        assert Index(Pos(l, SUDOKU_SIZE)) == Index(Pos(l + 1, 0));
      }
      assert Index(Pos(SUDOKU_SIZE, 0)) == SUDOKU_N_CELLS;
      return Ok;
    }

    /** The inner loop of the first pass: createAndAnalyseCell on each cell of row `l`. */
    method FirstPassRow(l: int) returns (st: Status)
      requires 0 <= l < SUDOKU_SIZE && FirstPass(Index(Pos(l, 0)))
      modifies this`rowsNumbers, this`rowsNumbersCount, this`columnsNumbers, this`columnsNumbersCount
      modifies this`regionsNumbers, this`regionsNumbersCount, this`cellsLeft, this`cellPool, this`pending
      ensures st == Ok || st == Throw(InvalidBoard)
      ensures st.Throw? ==> IsGrid(board) && exists p :: ValidPos(p) && RepeatedClue(board, p)
      ensures st.Ok? ==> FirstPass(Index(Pos(l, SUDOKU_SIZE)))
    {
      for c := 0 to SUDOKU_SIZE
        invariant FirstPass(Index(Pos(l, c)))
      {
        st := FirstPassVisit(l, c);
        if st.Throw? {
          assert ValidPos(Pos(l, c));
          return;
        }
      }
      return Ok;
    }

    /**
     * The second loop of analyseBoard, once the first pass has registered
     * every clue: it refuses exactly the boards with a dead cell, and
     * otherwise leaves the solver settled, with every free cell queued.
     */
    method SecondPassAll() returns (valid: bool)
      requires FirstPass(SUDOKU_N_CELLS)
      modifies this`cellPool, this`cellPriorityQueue, this`pending
      ensures valid <==> !Refused(board)
      ensures valid ==> Settled() && QueueSize(cellPriorityQueue) == cellsLeft
    {
      ghost var s, start := Regs(), Current();
      SecondPassFromFirst(s, givenBoard, cellPool, pending);
      valid := SecondPassRows(s, start);
      if valid {
        ghost var r := SecondPassRun(s, start, SUDOKU_N_CELLS).value;
        assert Regs() == s && board == s.board && cellsLeft == s.cellsLeft;
        assert cellPool == r.cells && cellPriorityQueue == r.q && pending == r.pending;
      }
    }

    /** The end of analyseBoard: the free count is recorded and the board marked as analysed. */
    method MarkAnalysed()
      requires Settled() && QueueSize(cellPriorityQueue) == cellsLeft
      modifies this`initialFreeCellsNumber, this`boardAnalysed
      ensures Settled() && QueueSize(cellPriorityQueue) == cellsLeft
      ensures boardAnalysed && initialFreeCellsNumber == cellsLeft
    {
      initialFreeCellsNumber := cellsLeft;
      boardAnalysed := true;
    }

    /** analyseCellPossibleNumbers on every cell, row by row: the second pass run from `start`. */
    method SecondPassRows(ghost s: Registers, ghost start: PassState) returns (valid: bool)
      requires WellShaped(s) && IsGrid(start.cells) && IsQueue(start.q)
      requires AllReady(s, start)
      requires Regs() == s && Current() == start
      modifies this`cellPool, this`cellPriorityQueue, this`pending
      ensures var r := SecondPassRun(s, start, SUDOKU_N_CELLS);
        valid == r.Some? && (valid ==> Current() == r.value)
    {
      assert Index(Pos(0, 0)) == 0;
      for l := 0 to SUDOKU_SIZE
        invariant SecondPassRun(s, start, Index(Pos(l, 0))) == Some(Current())
      {
        valid := SecondPassRow(s, start, l);
        if !valid {
          return;
        }
        assert Index(Pos(l, SUDOKU_SIZE)) == Index(Pos(l + 1, 0));
      }
      assert Index(Pos(SUDOKU_SIZE, 0)) == SUDOKU_N_CELLS;
      return true;
    }

    /** The inner loop of the second pass: analyseCellPossibleNumbers on each cell of row `l`. */
    method SecondPassRow(ghost s: Registers, ghost start: PassState, l: int) returns (valid: bool)
      requires 0 <= l < SUDOKU_SIZE && WellShaped(s) && IsGrid(start.cells) && IsQueue(start.q)
      requires AllReady(s, start)
      requires Regs() == s && SecondPassRun(s, start, Index(Pos(l, 0))) == Some(Current())
      modifies this`cellPool, this`cellPriorityQueue, this`pending
      ensures valid ==> SecondPassRun(s, start, Index(Pos(l, SUDOKU_SIZE))) == Some(Current())
      ensures !valid ==> SecondPassRun(s, start, SUDOKU_N_CELLS) == None
    {
      for c := 0 to SUDOKU_SIZE
        invariant Regs() == s
        invariant SecondPassRun(s, start, Index(Pos(l, c))) == Some(Current())
      {
        var p := Pos(l, c);
        assert ReadyAt(s, start, p);
        valid := SecondPassVisit(s, start, p);
        if !valid {
          return;
        }
        assert Index(p) + 1 == Index(Pos(l, c + 1));
      }
      return true;
    }

    /** The step of the second pass at `p`: the run reaches one step further, or stops for good. */
    method SecondPassVisit(ghost s: Registers, ghost start: PassState, p: Pos) returns (valid: bool)
      requires ValidPos(p) && WellShaped(s) && IsGrid(start.cells) && IsQueue(start.q)
      requires Regs() == s && SecondPassRun(s, start, Index(p)) == Some(Current())
      requires ReadyAt(s, start, p)
      modifies this`cellPool, this`cellPriorityQueue, this`pending
      ensures valid ==> SecondPassRun(s, start, Index(p) + 1) == Some(Current())
      ensures !valid ==> SecondPassRun(s, start, SUDOKU_N_CELLS) == None
    {
      PosAtIndex(p);
      valid := AnalyseFreshCell(p);
      if !valid {
        SecondPassRunStops(s, start, Index(p) + 1, SUDOKU_N_CELLS);
      }
    }

    /** One step of the second pass: analyseCellPossibleNumbers on `p`, as PassStep describes it. */
    method AnalyseFreshCell(p: Pos) returns (valid: bool)
      requires WellShaped(Regs()) && IsGrid(cellPool) && IsQueue(cellPriorityQueue) && ValidPos(p)
      requires SaneCount(At(cellPool, p)) && !HasAttempt(At(board, p), At(cellPool, p))
      modifies this`cellPool, this`cellPriorityQueue, this`pending
      ensures var r := PassStep(Regs(), old(Current()), p);
        valid == r.Some? && (valid ==> Current() == r.value)
    {
      valid := AnalyseCellPossibleNumbers(p);
    }
  }
}
