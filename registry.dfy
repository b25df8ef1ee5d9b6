/**
 * The per-unit registries of SudokuGame.java (rowsNumbers, columnsNumbers,
 * regionsNumbers and their counts) together with the board and the number
 * of free cells, as one value.  Placing a digit (analyseCell, attemptSolveCell)
 * and taking it back (undoCell) are functions on that value.
 */
module Registry {
  import opened SudokuCell
  import opened Board

  datatype Registers = Registers(
    board: seq<seq<char>>,
    rowsNumbers: seq<seq<bool>>,
    rowsNumbersCount: seq<int>,
    columnsNumbers: seq<seq<bool>>,
    columnsNumbersCount: seq<int>,
    regionsNumbers: seq<seq<bool>>,
    regionsNumbersCount: seq<int>,
    cellsLeft: int)

  /** The presence table of the units of kind `k`. */
  function Numbers(s: Registers, k: Kind): seq<seq<bool>>
  {
    match k
    case Row => s.rowsNumbers
    case Column => s.columnsNumbers
    case Region => s.regionsNumbers
  }

  /** The digit counts of the units of kind `k`. */
  function NumbersCount(s: Registers, k: Kind): seq<int>
  {
    match k
    case Row => s.rowsNumbersCount
    case Column => s.columnsNumbersCount
    case Region => s.regionsNumbersCount
  }

  predicate WellShaped(s: Registers)
  {
    IsGrid(s.board) && IsGrid(s.rowsNumbers) && IsGrid(s.columnsNumbers) && IsGrid(s.regionsNumbers)
    && |s.rowsNumbersCount| == SUDOKU_SIZE && |s.columnsNumbersCount| == SUDOKU_SIZE
    && |s.regionsNumbersCount| == SUDOKU_SIZE
  }

  /**
   * The registries describe the board exactly: each unit's presence table
   * and count match the digits it holds, no unit holds a digit twice, and
   * `cellsLeft` is the number of free cells.
   */
  ghost predicate Consistent(s: Registers)
  {
    WellShaped(s)
    && (forall k: Kind, u :: 0 <= u < SUDOKU_SIZE ==>
          UnitOk(Numbers(s, k)[u], NumbersCount(s, k)[u], UnitChars(s.board, k, u)))
    && s.cellsLeft == FreeCount(s.board)
  }

  /** Some unit of `p` already holds digit `n`, according to the registries. */
  predicate InUnits(s: Registers, p: Pos, n: int)
    requires WellShaped(s) && ValidPos(p) && 0 <= n < SUDOKU_SIZE
  {
    s.rowsNumbers[p.row][n] || s.columnsNumbers[p.column][n]
    || s.regionsNumbers[RegionOf(p.row, p.column)][n]
  }

  /** On consistent registries, InUnits says that a cell sharing a unit with `p` holds `n`. */
  lemma InUnitsMeaning(s: Registers, p: Pos, n: int)
    requires Consistent(s) && ValidPos(p) && 0 <= n < SUDOKU_SIZE
    ensures InUnits(s, p, n) <==> exists k: Kind :: Has(UnitChars(s.board, k, UnitOf(k, p)), n)
  {
    assert UnitOk(Numbers(s, Row)[p.row], NumbersCount(s, Row)[p.row], UnitChars(s.board, Row, p.row));
    var g := RegionOf(p.row, p.column);
    assert UnitOk(Numbers(s, Column)[p.column], NumbersCount(s, Column)[p.column], UnitChars(s.board, Column, p.column));
    assert UnitOk(Numbers(s, Region)[g], NumbersCount(s, Region)[g], UnitChars(s.board, Region, g));
    assert UnitOf(Row, p) == p.row && UnitOf(Column, p) == p.column && UnitOf(Region, p) == g;
    if s.rowsNumbers[p.row][n] {
      assert Has(UnitChars(s.board, Row, UnitOf(Row, p)), n);
    } else if s.columnsNumbers[p.column][n] {
      assert Has(UnitChars(s.board, Column, UnitOf(Column, p)), n);
    } else if s.regionsNumbers[g][n] {
      assert Has(UnitChars(s.board, Region, UnitOf(Region, p)), n);
    }
  }

  /** Records digit `n` at `p` in the three units of `p` (the bookkeeping of analyseCell). */
  function Register(s: Registers, p: Pos, n: int): (t: Registers)
    requires WellShaped(s) && ValidPos(p) && 0 <= n < SUDOKU_SIZE
    ensures WellShaped(t) && t.board == s.board && t.cellsLeft == s.cellsLeft - 1
  {
    var r, c, g := p.row, p.column, RegionOf(p.row, p.column);
    s.(rowsNumbers := s.rowsNumbers[r := s.rowsNumbers[r][n := true]],
       rowsNumbersCount := s.rowsNumbersCount[r := s.rowsNumbersCount[r] + 1],
       columnsNumbers := s.columnsNumbers[c := s.columnsNumbers[c][n := true]],
       columnsNumbersCount := s.columnsNumbersCount[c := s.columnsNumbersCount[c] + 1],
       regionsNumbers := s.regionsNumbers[g := s.regionsNumbers[g][n := true]],
       regionsNumbersCount := s.regionsNumbersCount[g := s.regionsNumbersCount[g] + 1],
       cellsLeft := s.cellsLeft - 1)
  }

  /** Forgets digit `n` at `p` in the three units of `p` (the bookkeeping of undoCell). */
  function Unregister(s: Registers, p: Pos, n: int): (t: Registers)
    requires WellShaped(s) && ValidPos(p) && 0 <= n < SUDOKU_SIZE
    ensures WellShaped(t) && t.board == s.board && t.cellsLeft == s.cellsLeft + 1
  {
    var r, c, g := p.row, p.column, RegionOf(p.row, p.column);
    s.(rowsNumbers := s.rowsNumbers[r := s.rowsNumbers[r][n := false]],
       rowsNumbersCount := s.rowsNumbersCount[r := s.rowsNumbersCount[r] - 1],
       columnsNumbers := s.columnsNumbers[c := s.columnsNumbers[c][n := false]],
       columnsNumbersCount := s.columnsNumbersCount[c := s.columnsNumbersCount[c] - 1],
       regionsNumbers := s.regionsNumbers[g := s.regionsNumbers[g][n := false]],
       regionsNumbersCount := s.regionsNumbersCount[g := s.regionsNumbersCount[g] - 1],
       cellsLeft := s.cellsLeft + 1)
  }

  /** Writes the character of digit `n` at `p` and registers it (attemptSolveCell). */
  function Attempt(s: Registers, p: Pos, n: int): (t: Registers)
    requires WellShaped(s) && ValidPos(p) && 0 <= n < SUDOKU_SIZE
    ensures WellShaped(t) && t.board == Put(s.board, p, DigitChar(n)) && GetNumber(At(t.board, p)) == n
    ensures t.cellsLeft == s.cellsLeft - 1
    ensures t.rowsNumbers[p.row][n] && t.columnsNumbers[p.column][n] && t.regionsNumbers[RegionOf(p.row, p.column)][n]
  {
    Register(s.(board := Put(s.board, p, DigitChar(n))), p, n)
  }

  /** Writes '.' at `p` and unregisters the digit that was there (undoCell). */
  function Undo(s: Registers, p: Pos): (t: Registers)
    requires WellShaped(s) && ValidPos(p) && !IsFree(At(s.board, p))
    ensures WellShaped(t) && t.board == Put(s.board, p, '.') && IsFree(At(t.board, p))
    ensures t.cellsLeft == s.cellsLeft + 1
    ensures var n := GetNumber(At(s.board, p));
      !t.rowsNumbers[p.row][n] && !t.columnsNumbers[p.column][n] && !t.regionsNumbers[RegionOf(p.row, p.column)][n]
  {
    Unregister(s.(board := Put(s.board, p, '.')), p, GetNumber(At(s.board, p)))
  }

  /** Registering a digit that none of its units holds, written into a free cell, keeps the registries exact. */
  lemma RegisterKeepsConsistent(s: Registers, p: Pos, ch: char)
    requires Consistent(s) && ValidPos(p) && IsFree(At(s.board, p)) && !IsFree(ch)
    requires !InUnits(s, p, GetNumber(ch))
    ensures Consistent(Register(s.(board := Put(s.board, p, ch)), p, GetNumber(ch)))
  {
    var n := GetNumber(ch);
    var b := Put(s.board, p, ch);
    var t := Register(s.(board := b), p, n);
    FreeCountPut(s.board, p, ch);
    forall k: Kind, u | 0 <= u < SUDOKU_SIZE
      ensures UnitOk(Numbers(t, k)[u], NumbersCount(t, k)[u], UnitChars(b, k, u))
    {
      UnitCharsPut(s.board, p, ch, k, u);
      assert UnitOk(Numbers(s, k)[u], NumbersCount(s, k)[u], UnitChars(s.board, k, u));
      if u == UnitOf(k, p) {
        UnitPosOf(k, p);
        PlaceInUnit(Numbers(s, k)[u], NumbersCount(s, k)[u], UnitChars(s.board, k, u), IndexIn(k, p), ch);
      }
    }
  }

  /** Clearing a placed digit and unregistering it keeps the registries exact. */
  lemma UnregisterKeepsConsistent(s: Registers, p: Pos, ch: char)
    requires Consistent(s) && ValidPos(p) && !IsFree(At(s.board, p)) && IsFree(ch)
    ensures Consistent(Unregister(s.(board := Put(s.board, p, ch)), p, GetNumber(At(s.board, p))))
  {
    var n := GetNumber(At(s.board, p));
    var b := Put(s.board, p, ch);
    var t := Unregister(s.(board := b), p, n);
    FreeCountPut(s.board, p, ch);
    forall k: Kind, u | 0 <= u < SUDOKU_SIZE
      ensures UnitOk(Numbers(t, k)[u], NumbersCount(t, k)[u], UnitChars(b, k, u))
    {
      UnitCharsPut(s.board, p, ch, k, u);
      assert UnitOk(Numbers(s, k)[u], NumbersCount(s, k)[u], UnitChars(s.board, k, u));
      if u == UnitOf(k, p) {
        UnitPosOf(k, p);
        ClearInUnit(Numbers(s, k)[u], NumbersCount(s, k)[u], UnitChars(s.board, k, u), IndexIn(k, p), ch);
      }
    }
  }

  /** Rewriting a free cell with another free character changes nothing the registries record. */
  lemma FreeRewriteKeepsConsistent(s: Registers, p: Pos, ch: char)
    requires Consistent(s) && ValidPos(p) && IsFree(At(s.board, p)) && IsFree(ch)
    ensures Consistent(s.(board := Put(s.board, p, ch)))
  {
    var b := Put(s.board, p, ch);
    FreeCountPut(s.board, p, ch);
    forall k: Kind, u | 0 <= u < SUDOKU_SIZE
      ensures UnitOk(Numbers(s, k)[u], NumbersCount(s, k)[u], UnitChars(b, k, u))
    {
      UnitCharsPut(s.board, p, ch, k, u);
      assert UnitOk(Numbers(s, k)[u], NumbersCount(s, k)[u], UnitChars(s.board, k, u));
      if u == UnitOf(k, p) {
        UnitPosOf(k, p);
        FreeOverFree(Numbers(s, k)[u], NumbersCount(s, k)[u], UnitChars(s.board, k, u), IndexIn(k, p), ch);
      }
    }
  }

  /** A tentative placement keeps the registries exact and uses up one free cell. */
  lemma AttemptKeepsConsistent(s: Registers, p: Pos, n: int)
    requires Consistent(s) && ValidPos(p) && IsFree(At(s.board, p)) && 0 <= n < SUDOKU_SIZE
    requires !InUnits(s, p, n)
    ensures Consistent(Attempt(s, p, n))
    ensures GetNumber(At(Attempt(s, p, n).board, p)) == n
    ensures Attempt(s, p, n).cellsLeft == s.cellsLeft - 1
  {
    DigitCharRoundTrip(n);
    var w := s.(board := Put(s.board, p, DigitChar(n)));
    assert Attempt(s, p, n) == Register(w, p, n);
    RegisterKeepsConsistent(s, p, DigitChar(n));
  }

  /** Undoing a placement keeps the registries exact and frees the cell again. */
  lemma UndoKeepsConsistent(s: Registers, p: Pos)
    requires Consistent(s) && ValidPos(p) && !IsFree(At(s.board, p))
    ensures Consistent(Undo(s, p))
    ensures IsFree(At(Undo(s, p).board, p))
    ensures Undo(s, p).cellsLeft == s.cellsLeft + 1
  {
    UnregisterKeepsConsistent(s, p, '.');
  }

  /** undoCell reverses attemptSolveCell exactly, except that the freed cell now reads '.'. */
  lemma UndoAttempt(s: Registers, p: Pos, n: int)
    requires Consistent(s) && ValidPos(p) && IsFree(At(s.board, p)) && 0 <= n < SUDOKU_SIZE
    requires !InUnits(s, p, n)
    ensures Undo(Attempt(s, p, n), p) == s.(board := Put(s.board, p, '.'))
  {
    var r, c, g := p.row, p.column, RegionOf(p.row, p.column);
    var a := Attempt(s, p, n);
    assert GetNumber(At(a.board, p)) == n;
    assert s.board[r][c := DigitChar(n)][c := '.'] == s.board[r][c := '.'];
    assert s.rowsNumbers[r][n := true][n := false] == s.rowsNumbers[r];
    assert s.columnsNumbers[c][n := true][n := false] == s.columnsNumbers[c];
    assert s.regionsNumbers[g][n := true][n := false] == s.regionsNumbers[g];
  }

  /** attemptSolveCell with the digit undoCell removed puts back exactly what was there. */
  lemma AttemptUndo(s: Registers, p: Pos)
    requires Consistent(s) && ValidPos(p) && !IsFree(At(s.board, p))
    ensures Attempt(Undo(s, p), p, GetNumber(At(s.board, p))) == s
  {
    var r, c, g := p.row, p.column, RegionOf(p.row, p.column);
    var n := GetNumber(At(s.board, p));
    var u := Undo(s, p);
    var a := Attempt(u, p, n);
    assert a.board == s.board by {
      assert s.board[r][c := '.'][c := DigitChar(n)] == s.board[r];
    }
    RegisteredHere(s, p, Row);
    RegisteredHere(s, p, Column);
    RegisteredHere(s, p, Region);
    assert a.rowsNumbers == s.rowsNumbers by {
      assert s.rowsNumbers[r][n := false][n := true] == s.rowsNumbers[r];
    }
    assert a.columnsNumbers == s.columnsNumbers by {
      assert s.columnsNumbers[c][n := false][n := true] == s.columnsNumbers[c];
    }
    assert a.regionsNumbers == s.regionsNumbers by {
      assert s.regionsNumbers[g][n := false][n := true] == s.regionsNumbers[g];
    }
    assert a.rowsNumbersCount == s.rowsNumbersCount;
    assert a.columnsNumbersCount == s.columnsNumbersCount;
    assert a.regionsNumbersCount == s.regionsNumbersCount;
  }

  /** The digit a cell holds is registered in each of its units. */
  lemma RegisteredHere(s: Registers, p: Pos, k: Kind)
    requires Consistent(s) && ValidPos(p) && !IsFree(At(s.board, p))
    ensures Numbers(s, k)[UnitOf(k, p)][GetNumber(At(s.board, p))]
  {
    var u := UnitOf(k, p);
    assert UnitOk(Numbers(s, k)[u], NumbersCount(s, k)[u], UnitChars(s.board, k, u));
    UnitPosOf(k, p);
    assert GetNumber(UnitChars(s.board, k, u)[IndexIn(k, p)]) == GetNumber(At(s.board, p));
  }

  /** Equal registries over boards that hold the same digits. */
  ghost predicate SameRegisters(s: Registers, t: Registers)
  {
    s.(board := t.board) == t && SameDigits(s.board, t.board)
  }

  /**
   * Undoing after an attempt restores the registries even when the board was
   * rewritten in between, as long as it still holds the same digits.
   */
  lemma UndoAfterAttempt(s: Registers, t: Registers, p: Pos, n: int)
    requires Consistent(s) && ValidPos(p) && IsFree(At(s.board, p)) && 0 <= n < SUDOKU_SIZE
    requires !InUnits(s, p, n)
    requires SameRegisters(t, Attempt(s, p, n))
    ensures !IsFree(At(t.board, p))
    ensures SameRegisters(Undo(t, p), s)
  {
    var a := Attempt(s, p, n);
    AttemptKeepsConsistent(s, p, n);
    assert Canon(At(t.board, p)) == Canon(At(a.board, p));
    UndoAttempt(s, p, n);
    assert !IsFree(At(t.board, p)) && GetNumber(At(t.board, p)) == GetNumber(At(a.board, p));
    UndoSameRegisters(t, a, p);
    UndoSameDigits(s.board, a.board, t.board, p);
  }

  /** Undoing the same digit at `p` on two boards with the same registries gives the same registries. */
  lemma UndoSameRegisters(t: Registers, a: Registers, p: Pos)
    requires t.(board := a.board) == a && IsGrid(t.board) && WellShaped(a) && ValidPos(p)
    requires !IsFree(At(a.board, p)) && !IsFree(At(t.board, p))
    requires GetNumber(At(t.board, p)) == GetNumber(At(a.board, p))
    ensures Undo(t, p).(board := Undo(a, p).board) == Undo(a, p)
  {
    assert t.rowsNumbers == a.rowsNumbers && t.columnsNumbers == a.columnsNumbers && t.regionsNumbers == a.regionsNumbers;
    assert t.rowsNumbersCount == a.rowsNumbersCount && t.columnsNumbersCount == a.columnsNumbersCount;
    assert t.regionsNumbersCount == a.regionsNumbersCount && t.cellsLeft == a.cellsLeft;
  }

  /**
   * A board `t` with the digits of `a`, where `a` is `s` with `p` filled in,
   * holds the digits of `s` once `p` is cleared.
   */
  lemma UndoSameDigits(s: seq<seq<char>>, a: seq<seq<char>>, t: seq<seq<char>>, p: Pos)
    requires SameDigits(t, a) && IsGrid(s) && ValidPos(p) && IsFree(At(s, p))
    requires forall q :: ValidPos(q) && q != p ==> At(a, q) == At(s, q)
    ensures SameDigits(Put(t, p, '.'), s)
  {
    var u := Put(t, p, '.');
    forall q | ValidPos(q) ensures Canon(At(u, q)) == Canon(At(s, q)) {
      if q != p {
        assert At(u, q) == At(t, q);
      }
    }
  }

  /**
   * When no cell is free, every row, column and region holds each digit
   * exactly once: the board is a solution.
   */
  lemma SolvedBoard(s: Registers)
    requires Consistent(s) && s.cellsLeft == 0
    ensures forall p :: ValidPos(p) ==> !IsFree(At(s.board, p))
    ensures forall k: Kind, u, n :: 0 <= u < SUDOKU_SIZE && 0 <= n < SUDOKU_SIZE ==>
      Has(UnitChars(s.board, k, u), n)
    ensures forall k: Kind, u :: 0 <= u < SUDOKU_SIZE ==> NoDup(UnitChars(s.board, k, u))
  {
    FreeCountZero(s.board);
    forall k: Kind, u, n | 0 <= u < SUDOKU_SIZE && 0 <= n < SUDOKU_SIZE
      ensures Has(UnitChars(s.board, k, u), n)
    {
      var cs := UnitChars(s.board, k, u);
      assert UnitOk(Numbers(s, k)[u], NumbersCount(s, k)[u], cs);
      FreeInZero(cs);
      FullUnitHasAll(cs);
    }
  }

  /**
   * A unit whose registry counts nine digits has every digit registered:
   * the full-unit skips of the hidden-single scans lose no digit.
   */
  lemma FullUnitRegistered(s: Registers, k: Kind, u: int)
    requires Consistent(s) && 0 <= u < SUDOKU_SIZE && NumbersCount(s, k)[u] == SUDOKU_SIZE
    ensures forall n :: 0 <= n < SUDOKU_SIZE ==> Numbers(s, k)[u][n]
  {
    var cs := UnitChars(s.board, k, u);
    assert UnitOk(Numbers(s, k)[u], NumbersCount(s, k)[u], cs);
    FullUnitHasAll(cs);
  }

  /**
   * The validity test of analyseCell as the source writes it: the three
   * registries agree about digit `n`.  It lets a digit through when all three
   * units already hold it.
   */
  function ValidCellAsWritten(s: Registers, p: Pos, n: int): (r: bool)
    requires WellShaped(s) && ValidPos(p) && 0 <= n < SUDOKU_SIZE
    ensures !InUnits(s, p, n) ==> r
    ensures r && InUnits(s, p, n) ==>
      s.rowsNumbers[p.row][n] && s.columnsNumbers[p.column][n] && s.regionsNumbers[RegionOf(p.row, p.column)][n]
  {
    var g := RegionOf(p.row, p.column);
    s.rowsNumbers[p.row][n] == s.columnsNumbers[p.column][n]
    && s.columnsNumbers[p.column][n] == s.regionsNumbers[g][n]
    && s.regionsNumbers[g][n] == s.rowsNumbers[p.row][n]
  }

  /** The intended validity test: none of the three units holds digit `n` yet. */
  predicate ValidCell(s: Registers, p: Pos, n: int)
    requires WellShaped(s) && ValidPos(p) && 0 <= n < SUDOKU_SIZE
  {
    !InUnits(s, p, n)
  }

  /** On consistent registries, a digit on the board is registered in each of its units. */
  lemma DigitRegistered(s: Registers, k: Kind, p: Pos)
    requires Consistent(s) && ValidPos(p) && !IsFree(At(s.board, p))
    ensures Numbers(s, k)[UnitOf(k, p)][GetNumber(At(s.board, p))]
  {
    var u := UnitOf(k, p);
    var cs := UnitChars(s.board, k, u);
    assert UnitOk(Numbers(s, k)[u], NumbersCount(s, k)[u], cs);
    UnitPosOf(k, p);
    assert cs[IndexIn(k, p)] == At(s.board, p);
  }

  /**
   * On any registries that describe a board with clues '5' at (0,4), (3,3)
   * and (4,0), the test as written accepts a fourth '5' at (4,4), although
   * its row, column and region each hold a '5': the board that results
   * repeats '5' in row 4.  The intended test refuses it.
   */
  lemma ValidCellAsWrittenAcceptsDuplicate(s: Registers)
    requires Consistent(s)
    requires At(s.board, Pos(0, 4)) == '5' && At(s.board, Pos(3, 3)) == '5' && At(s.board, Pos(4, 0)) == '5'
    ensures ValidCellAsWritten(s, Pos(4, 4), 4)
    ensures !ValidCell(s, Pos(4, 4), 4)
    ensures !NoDup(UnitChars(Put(s.board, Pos(4, 4), '5'), Row, 4))
  {
    FivesRegistered(s);
    SecondFiveInRow(s.board);
  }

  /** The three clues '5' mark digit 4 in row 4, column 4 and region 4. */
  lemma FivesRegistered(s: Registers)
    requires Consistent(s)
    requires At(s.board, Pos(0, 4)) == '5' && At(s.board, Pos(3, 3)) == '5' && At(s.board, Pos(4, 0)) == '5'
    ensures s.rowsNumbers[4][4] && s.columnsNumbers[4][4] && s.regionsNumbers[RegionOf(4, 4)][4]
  {
    assert s.rowsNumbers[4][4] by { DigitRegistered(s, Row, Pos(4, 0)); }
    assert s.columnsNumbers[4][4] by { DigitRegistered(s, Column, Pos(0, 4)); }
    assert s.regionsNumbers[4][4] by { DigitRegistered(s, Region, Pos(3, 3)); }
    assert RegionOf(4, 4) == 4;
  }

  /** A '5' written at (4,4) next to the clue at (4,0) repeats the digit in row 4. */
  lemma SecondFiveInRow(b: seq<seq<char>>)
    requires IsGrid(b) && At(b, Pos(4, 0)) == '5'
    ensures !NoDup(UnitChars(Put(b, Pos(4, 4), '5'), Row, 4))
  {
    var row4 := UnitChars(Put(b, Pos(4, 4), '5'), Row, 4);
    assert row4[0] == '5' && row4[4] == '5';
  }

  /** With the intended test, registering a digit never creates a repetition (see RegisterKeepsConsistent). */
  lemma ValidCellKeepsNoDup(s: Registers, p: Pos, ch: char)
    requires Consistent(s) && ValidPos(p) && IsFree(At(s.board, p)) && !IsFree(ch)
    requires ValidCell(s, p, GetNumber(ch))
    ensures forall k: Kind, u :: 0 <= u < SUDOKU_SIZE ==> NoDup(UnitChars(Put(s.board, p, ch), k, u))
  {
    RegisterKeepsConsistent(s, p, ch);
    var t := Register(s.(board := Put(s.board, p, ch)), p, GetNumber(ch));
    forall k: Kind, u | 0 <= u < SUDOKU_SIZE
      ensures NoDup(UnitChars(Put(s.board, p, ch), k, u))
    {
      assert UnitOk(Numbers(t, k)[u], NumbersCount(t, k)[u], UnitChars(t.board, k, u));
    }
  }
}
