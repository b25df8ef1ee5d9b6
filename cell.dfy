/**
 * One cell of the 9x9 grid (SudokuCell.java): its coordinates, whether it is a
 * clue, and the set of digits it may still take, kept together with a count
 * of that set.  The digit a cell holds lives on the board, as a character.
 *
 * Digits are numbered 0..8 internally; the board shows them as '1'..'9'.
 */
module SudokuCell {

  /** Side of the grid and number of digits. */
  const SUDOKU_SIZE: int := 9

  /** Number of cells of the grid. */
  const SUDOKU_N_CELLS: int := 81

  /** What GetNumber answers for a board character that is not a digit. */
  const FREE_CELL: int := -1

  /** The character the solver writes for internal digit `n` ('0' + n + 1). */
  function DigitChar(n: int): (ch: char)
    requires FREE_CELL <= n < SUDOKU_SIZE
    ensures '0' <= ch <= '9'
    ensures n == FREE_CELL <==> ch == '0'
  {
    ('0' as int + n + 1) as char
  }

  /**
   * The internal digit a board character stands for: '1'..'9' give 0..8,
   * every other character (the '.' placeholder included) means "free".
   */
  function GetNumber(ch: char): (n: int)
    ensures FREE_CELL <= n < SUDOKU_SIZE
    ensures n == FREE_CELL <==> !('1' <= ch <= '9')
    ensures n != FREE_CELL ==> DigitChar(n) == ch
  {
    var n := ch as int - '0' as int - 1;
    if n < 0 || n >= SUDOKU_SIZE then FREE_CELL else n
  }

  /** Writing a digit and reading it back gives the digit again. */
  lemma DigitCharRoundTrip(n: int)
    requires 0 <= n < SUDOKU_SIZE
    ensures GetNumber(DigitChar(n)) == n
  {
  }

  /**
   * The 3x3 block of a cell, numbered row-major: rows 0-2 hold blocks 0-2 and
   * so on.  The block is the one that the region scans of the solver visit:
   * block g covers rows 3*(g/3)..3*(g/3)+2 and columns 3*(g%3)..3*(g%3)+2.
   */
  function RegionOf(row: int, column: int): (g: int)
    requires 0 <= row < SUDOKU_SIZE && 0 <= column < SUDOKU_SIZE
    ensures 0 <= g < SUDOKU_SIZE
    ensures (g / 3) * 3 <= row < (g / 3) * 3 + 3
    ensures (g % 3) * 3 <= column < (g % 3) * 3 + 3
  {
    (row / 3) * 3 + (column / 3) % 3
  }

  /** Number of `true` entries of a candidate array. */
  function CountTrue(s: seq<bool>): (k: nat)
    ensures k <= |s|
  {
    if s == [] then 0 else CountTrue(s[..|s| - 1]) + (if s[|s| - 1] then 1 else 0)
  }

  /** Changing one entry changes the count by the difference of the two entries. */
  lemma {:induction false} CountTrueUpdate(s: seq<bool>, i: int, b: bool)
    requires 0 <= i < |s|
    ensures CountTrue(s[i := b]) == CountTrue(s) - (if s[i] then 1 else 0) + (if b then 1 else 0)
    decreases |s|
  {
    var t := s[i := b];
    if i < |s| - 1 {
      assert t[..|t| - 1] == s[..|s| - 1][i := b];
      CountTrueUpdate(s[..|s| - 1], i, b);
    } else {
      assert t[..|t| - 1] == s[..|s| - 1];
    }
  }

  /** An array with no candidate counts zero, and only such an array does. */
  lemma {:induction false} CountTrueZero(s: seq<bool>)
    ensures CountTrue(s) == 0 <==> forall i :: 0 <= i < |s| ==> !s[i]
  {
    if s != [] {
      var t := s[..|s| - 1];
      CountTrueZero(t);
      assert forall i :: 0 <= i < |t| ==> t[i] == s[i];
    }
  }

  /** With exactly one candidate, every other digit is excluded. */
  lemma {:induction false} CountTrueOne(s: seq<bool>, n: int)
    requires CountTrue(s) == 1 && 0 <= n < |s| && s[n]
    ensures forall m :: 0 <= m < |s| && m != n ==> !s[m]
  {
    CountTrueUpdate(s, n, false);
    CountTrueZero(s[n := false]);
    forall m | 0 <= m < |s| && m != n ensures !s[m] {
      assert s[n := false][m] == s[m];
    }
  }

  /** A positive count has a witness. */
  lemma CountTruePositive(s: seq<bool>) returns (n: int)
    requires CountTrue(s) > 0
    ensures 0 <= n < |s| && s[n]
  {
    CountTrueZero(s);
    n :| 0 <= n < |s| && s[n];
  }

  /**
   * A cell as a value.  `possibleNumbers[n]` says whether digit n may still
   * go in the cell and `possibleNumbersCount` caches how many may.
   */
  datatype CellState = CellState(
    row: int,
    column: int,
    region: int,
    isClue: bool,
    oneOccurence: bool,
    possibleNumbers: seq<bool>,
    possibleNumbersCount: int)

  /** The cached count agrees with the candidate array (possibleNumbersSanityCheck). */
  ghost predicate SaneCount(c: CellState)
  {
    |c.possibleNumbers| == SUDOKU_SIZE && c.possibleNumbersCount == CountTrue(c.possibleNumbers)
  }

  /** A fresh cell: no candidate yet and a count of zero. */
  function NewCell(row: int, column: int, isClue: bool): (c: CellState)
    requires 0 <= row < SUDOKU_SIZE && 0 <= column < SUDOKU_SIZE
    ensures SaneCount(c) && c.possibleNumbersCount == 0
    ensures forall n :: 0 <= n < SUDOKU_SIZE ==> !c.possibleNumbers[n]
    ensures c.row == row && c.column == column && c.isClue == isClue && !c.oneOccurence
    ensures c.region == RegionOf(row, column)
  {
    var none := seq(SUDOKU_SIZE, _ => false);
    CountTrueZero(none);
    CellState(row, column, (row / 3) * 3 + (column / 3) % 3, isClue, false, none, 0)
  }

  /** Admits digit n; the count grows only when n was not a candidate already. */
  function MarkPossible(c: CellState, n: int): (r: CellState)
    requires SaneCount(c) && 0 <= n < SUDOKU_SIZE
    ensures SaneCount(r)
    ensures r.possibleNumbers == c.possibleNumbers[n := true]
    ensures r == c.(possibleNumbers := r.possibleNumbers, possibleNumbersCount := r.possibleNumbersCount)
  {
    if c.possibleNumbers[n] then
      assert c.possibleNumbers[n := true] == c.possibleNumbers;
      c
    else
      CountTrueUpdate(c.possibleNumbers, n, true);
      c.(possibleNumbers := c.possibleNumbers[n := true],
         possibleNumbersCount := c.possibleNumbersCount + 1)
  }

  /** Excludes digit n; the count drops only when n was a candidate. */
  function MarkNotPossible(c: CellState, n: int): (r: CellState)
    requires SaneCount(c) && 0 <= n < SUDOKU_SIZE
    ensures SaneCount(r)
    ensures r.possibleNumbers == c.possibleNumbers[n := false]
    ensures r == c.(possibleNumbers := r.possibleNumbers, possibleNumbersCount := r.possibleNumbersCount)
  {
    if !c.possibleNumbers[n] then
      assert c.possibleNumbers[n := false] == c.possibleNumbers;
      c
    else
      CountTrueUpdate(c.possibleNumbers, n, false);
      c.(possibleNumbers := c.possibleNumbers[n := false],
         possibleNumbersCount := c.possibleNumbersCount - 1)
  }

  /** Marking is idempotent, the count moves by at most one, and the two marks undo each other. */
  lemma MarkLaws(c: CellState, n: int)
    requires SaneCount(c) && 0 <= n < SUDOKU_SIZE
    ensures MarkPossible(MarkPossible(c, n), n) == MarkPossible(c, n)
    ensures MarkNotPossible(MarkNotPossible(c, n), n) == MarkNotPossible(c, n)
    ensures MarkPossible(c, n).possibleNumbersCount == c.possibleNumbersCount + (if c.possibleNumbers[n] then 0 else 1)
    ensures MarkNotPossible(c, n).possibleNumbersCount == c.possibleNumbersCount - (if c.possibleNumbers[n] then 1 else 0)
    ensures c.possibleNumbers[n] ==> MarkPossible(MarkNotPossible(c, n), n) == c
    ensures !c.possibleNumbers[n] ==> MarkNotPossible(MarkPossible(c, n), n) == c
    ensures 0 <= c.possibleNumbersCount <= SUDOKU_SIZE
  {
    CountTrueUpdate(c.possibleNumbers, n, true);
    CountTrueUpdate(c.possibleNumbers, n, false);
    assert c.possibleNumbers[n := false][n := true] == c.possibleNumbers[n := true];
    assert c.possibleNumbers[n := true][n := false] == c.possibleNumbers[n := false];
    if c.possibleNumbers[n] {
      assert c.possibleNumbers[n := false][n := true] == c.possibleNumbers;
    } else {
      assert c.possibleNumbers[n := true][n := false] == c.possibleNumbers;
    }
  }

  /** The board holds no digit for the cell. */
  predicate IsFree(ch: char)
  {
    GetNumber(ch) == FREE_CELL
  }

  /** The board holds a digit and the cell has no candidate left: a clue or a placed digit. */
  predicate IsSolved(ch: char, c: CellState)
  {
    GetNumber(ch) != FREE_CELL && c.possibleNumbersCount == 0
  }

  /** The board holds a digit but the cell still has candidates: a tentative placement. */
  predicate HasAttempt(ch: char, c: CellState)
  {
    GetNumber(ch) != FREE_CELL && c.possibleNumbersCount > 0
  }

  /**
   * Every cell is in exactly one of the three states, and a clue (which keeps
   * its digit and no candidate) is solved, never free and never an attempt.
   */
  lemma CellStatesPartition(ch: char, c: CellState)
    requires c.possibleNumbersCount >= 0
    ensures IsFree(ch) || IsSolved(ch, c) || HasAttempt(ch, c)
    ensures !(IsFree(ch) && IsSolved(ch, c)) && !(IsFree(ch) && HasAttempt(ch, c))
    ensures !(IsSolved(ch, c) && HasAttempt(ch, c))
    ensures c.isClue && '1' <= ch <= '9' && c.possibleNumbersCount == 0 ==>
      IsSolved(ch, c) && !IsFree(ch) && !HasAttempt(ch, c)
  {
  }

  /** Orders cells by their number of candidates (compareTo). */
  function CompareTo(c: CellState, other: CellState): (r: int)
    ensures r < 0 <==> c.possibleNumbersCount < other.possibleNumbersCount
    ensures r == 0 <==> c.possibleNumbersCount == other.possibleNumbersCount
  {
    c.possibleNumbersCount - other.possibleNumbersCount
  }

  /**
   * The cell object: fixed coordinates and clue flag, a candidate array that is
   * updated in place and a count kept beside it.
   */
  class SudokuCell {
    const row: int
    const column: int
    const region: int
    const isClue: bool
    var oneOccurence: bool
    const possibleNumbers: array<bool>
    var possibleNumbersCount: int

    /** The count matches the array and the region matches the coordinates. */
    ghost predicate Valid()
      reads this, possibleNumbers
    {
      possibleNumbers.Length == SUDOKU_SIZE
      && 0 <= row < SUDOKU_SIZE && 0 <= column < SUDOKU_SIZE
      && region == RegionOf(row, column)
      && possibleNumbersCount == CountTrue(possibleNumbers[..])
    }

    /** The object's current state as a value. */
    ghost function Value(): CellState
      reads this, possibleNumbers
    {
      CellState(row, column, region, isClue, oneOccurence, possibleNumbers[..], possibleNumbersCount)
    }

    /** SudokuCell(row, column, isClue): no candidate yet; the region follows from the coordinates. */
    constructor (row: int, column: int, isClue: bool)
      requires 0 <= row < SUDOKU_SIZE && 0 <= column < SUDOKU_SIZE
      ensures Valid() && fresh(possibleNumbers)
      ensures Value() == NewCell(row, column, isClue)
    {
      this.row := row;
      this.column := column;
      this.isClue := isClue;
      this.oneOccurence := false;
      this.region := (row / 3) * 3 + (column / 3) % 3;
      this.possibleNumbers := new bool[SUDOKU_SIZE](_ => false);
      this.possibleNumbersCount := 0;
      new;
      CountTrueZero(possibleNumbers[..]);
    }

    /** Whether `number` is still a candidate. */
    function IsNumberPossible(number: int): (b: bool)
      requires 0 <= number < possibleNumbers.Length
      reads possibleNumbers
    {
      possibleNumbers[number]
    }

    /** Recounts the array and compares with the cached count. */
    method PossibleNumbersSanityCheck() returns (ok: bool)
      requires possibleNumbers.Length == SUDOKU_SIZE
      ensures ok <==> possibleNumbersCount == CountTrue(possibleNumbers[..])
    {
      var p := 0;
      for i := 0 to SUDOKU_SIZE
        invariant p == CountTrue(possibleNumbers[..i])
      {
        assert possibleNumbers[..i + 1][..i] == possibleNumbers[..i];
        p := p + if possibleNumbers[i] then 1 else 0;
      }
      assert possibleNumbers[..SUDOKU_SIZE] == possibleNumbers[..];
      ok := 0 <= possibleNumbersCount <= SUDOKU_SIZE && possibleNumbersCount == p;
    }

    /** Makes `number` a candidate, counting it only when it was not one already. */
    method MarkNumberAsPossible(number: int)
      requires Valid() && !isClue && 0 <= number < SUDOKU_SIZE
      modifies this, possibleNumbers
      ensures Valid() && Value() == MarkPossible(old(Value()), number)
    {
      var alreadyPossible := possibleNumbers[number];
      if alreadyPossible {
        return;
      }
      CountTrueUpdate(possibleNumbers[..], number, true);
      possibleNumbers[number] := true;
      possibleNumbersCount := possibleNumbersCount + 1;
    }

    /** Takes `number` out of the candidates, counting it only when it was one. */
    method MarkNumberAsNotPossible(number: int)
      requires Valid() && !isClue && 0 <= number < SUDOKU_SIZE
      modifies this, possibleNumbers
      ensures Valid() && Value() == MarkNotPossible(old(Value()), number)
    {
      var alreadyNotPossible := !possibleNumbers[number];
      if alreadyNotPossible {
        return;
      }
      CountTrueUpdate(possibleNumbers[..], number, false);
      possibleNumbers[number] := false;
      possibleNumbersCount := possibleNumbersCount - 1;
    }

    /** The cached number of candidates. */
    function GetPossibleNumbersCount(): (k: int)
      reads this, possibleNumbers
      requires Valid()
      ensures 0 <= k <= SUDOKU_SIZE
    {
      possibleNumbersCount
    }
  }
}
