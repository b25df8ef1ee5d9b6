/**
 * Geometry of the 9x9 board (SudokuGame.java): positions, the three kinds of
 * unit (row, column, 3x3 region), the characters a unit holds, and counts of
 * free and placed cells.  A unit is read as a sequence of nine characters in
 * the order the solver scans it.
 */
module Board {
  import opened SudokuCell

  datatype Option<T> = None | Some(value: T)

  /** A cell position; the solver identifies a cell by its row and column. */
  datatype Pos = Pos(row: int, column: int)

  predicate ValidPos(p: Pos)
  {
    0 <= p.row < SUDOKU_SIZE && 0 <= p.column < SUDOKU_SIZE
  }

  /** A 9x9 table (the board, the cell pool). */
  predicate IsGrid<T>(g: seq<seq<T>>)
  {
    |g| == SUDOKU_SIZE && forall r :: 0 <= r < SUDOKU_SIZE ==> |g[r]| == SUDOKU_SIZE
  }

  function At<T>(g: seq<seq<T>>, p: Pos): T
    requires IsGrid(g) && ValidPos(p)
  {
    g[p.row][p.column]
  }

  /** The table with the entry at `p` replaced by `x`. */
  function Put<T>(g: seq<seq<T>>, p: Pos, x: T): (h: seq<seq<T>>)
    requires IsGrid(g) && ValidPos(p)
    ensures IsGrid(h) && At(h, p) == x
    ensures forall q :: ValidPos(q) && q != p ==> At(h, q) == At(g, q)
  {
    g[p.row := g[p.row][p.column := x]]
  }

  /** Writing back what a table holds changes nothing. */
  lemma PutSame<T>(g: seq<seq<T>>, p: Pos)
    requires IsGrid(g) && ValidPos(p)
    ensures Put(g, p, At(g, p)) == g
  {
    assert g[p.row][p.column := g[p.row][p.column]] == g[p.row];
  }

  datatype Kind = Row | Column | Region

  /** The unit of kind `k` that contains `p`. */
  function UnitOf(k: Kind, p: Pos): (u: int)
    requires ValidPos(p)
    ensures 0 <= u < SUDOKU_SIZE
  {
    match k
    case Row => p.row
    case Column => p.column
    case Region => RegionOf(p.row, p.column)
  }

  /** Where `p` comes in the scan order of its unit of kind `k`. */
  function IndexIn(k: Kind, p: Pos): (i: int)
    requires ValidPos(p)
    ensures 0 <= i < SUDOKU_SIZE
  {
    match k
    case Row => p.column
    case Column => p.row
    case Region => (p.row % 3) * 3 + p.column % 3
  }

  /**
   * The i-th cell of unit `u` of kind `k`: rows are scanned by column,
   * columns by row, and regions row by row from their top-left corner.
   */
  function UnitPos(k: Kind, u: int, i: int): (p: Pos)
    requires 0 <= u < SUDOKU_SIZE && 0 <= i < SUDOKU_SIZE
    ensures ValidPos(p)
  {
    match k
    case Row => Pos(u, i)
    case Column => Pos(i, u)
    case Region => Pos((u / 3) * 3 + i / 3, (u % 3) * 3 + i % 3)
  }

  /** The i-th cell of unit `u` lies in unit `u`, at place `i` of the scan order. */
  lemma UnitPosIn(k: Kind, u: int, i: int)
    requires 0 <= u < SUDOKU_SIZE && 0 <= i < SUDOKU_SIZE
    ensures UnitOf(k, UnitPos(k, u, i)) == u && IndexIn(k, UnitPos(k, u, i)) == i
  {
    if k == Region {
      RegionCorner(u, i);
    }
  }

  /** Block arithmetic: the i-th cell of block u lies in block u, at place i. */
  lemma RegionCorner(u: int, i: int)
    requires 0 <= u < SUDOKU_SIZE && 0 <= i < SUDOKU_SIZE
    ensures RegionOf((u / 3) * 3 + i / 3, (u % 3) * 3 + i % 3) == u
    ensures ((((u / 3) * 3 + i / 3) % 3) * 3 + ((u % 3) * 3 + i % 3) % 3) == i
  {
    var a, b, x, y := u / 3, u % 3, i / 3, i % 3;
    assert 0 <= a < 3 && 0 <= b < 3 && 0 <= x < 3 && 0 <= y < 3;
    var r, c := 3 * a + x, 3 * b + y;
    assert r / 3 == a && r % 3 == x;
    assert c / 3 == b && c % 3 == y;
    assert RegionOf(r, c) == 3 * a + b;
  }

  /** UnitPos and (UnitOf, IndexIn) are inverse to each other. */
  lemma UnitPosOf(k: Kind, p: Pos)
    requires ValidPos(p)
    ensures UnitPos(k, UnitOf(k, p), IndexIn(k, p)) == p
  {
    if k == Region {
      var r, c := p.row, p.column;
      var u, i := (r / 3) * 3 + (c / 3) % 3, (r % 3) * 3 + c % 3;
      assert c / 3 < 3;
      assert u / 3 == r / 3 && u % 3 == c / 3;
      assert i / 3 == r % 3 && i % 3 == c % 3;
    }
  }

  /** The j-th of the numbers 0, 1, 2, ... other than `x`. */
  function Skip(j: int, x: int): (k: int)
    ensures k != x && (k < x <==> j < x)
  {
    if j < x then j else j + 1
  }

  /**
   * The cells updateAffectedCells visits around `p`, in its order: the rest
   * of the column of `p` from the top, the rest of its row from the left,
   * then the four cells of its region that share neither, row by row.
   */
  function Peers(p: Pos): (s: seq<Pos>)
    requires ValidPos(p)
    ensures |s| == 20
  {
    var top, left := (p.row / 3) * 3, (p.column / 3) * 3;
    seq(8, j requires 0 <= j < 8 => Pos(Skip(j, p.row), p.column))
    + seq(8, j requires 0 <= j < 8 => Pos(p.row, Skip(j, p.column)))
    + seq(4, j requires 0 <= j < 4 => Pos(top + Skip(j / 2, p.row - top), left + Skip(j % 2, p.column - left)))
  }

  /** Each peer of `p` is another cell of the board sharing a unit with it. */
  lemma PeerSharesAUnit(p: Pos, i: int)
    requires ValidPos(p) && 0 <= i < 20
    ensures var y := Peers(p)[i];
      ValidPos(y) && y != p
      && (y.row == p.row || y.column == p.column || RegionOf(y.row, y.column) == RegionOf(p.row, p.column))
  {
    if i < 8 {
      assert Peers(p)[i] == Pos(Skip(i, p.row), p.column);
    } else if i < 16 {
      assert Peers(p)[i] == Pos(p.row, Skip(i - 8, p.column));
    } else {
      var top, left := (p.row / 3) * 3, (p.column / 3) * 3;
      var j := i - 16;
      var y := Pos(top + Skip(j / 2, p.row - top), left + Skip(j % 2, p.column - left));
      assert Peers(p)[i] == y;
      BlockMate(p, j / 2, j % 2);
    }
  }

  /** The region of a cell is named by the block row and the block column it lies in. */
  lemma RegionBlocks(r: int, c: int)
    requires 0 <= r < SUDOKU_SIZE && 0 <= c < SUDOKU_SIZE
    ensures RegionOf(r, c) / 3 == r / 3 && RegionOf(r, c) % 3 == c / 3
  {
    var a, b := r / 3, c / 3;
    assert 0 <= a < 3 && 0 <= b < 3;
    assert RegionOf(r, c) == 3 * a + b;
  }

  /** The block cells listed last among the peers lie in the region of `p`, apart from `p` itself. */
  lemma BlockMate(p: Pos, a: int, b: int)
    requires ValidPos(p) && 0 <= a < 2 && 0 <= b < 2
    ensures var top, left := (p.row / 3) * 3, (p.column / 3) * 3;
      var y := Pos(top + Skip(a, p.row - top), left + Skip(b, p.column - left));
      ValidPos(y) && y != p && RegionOf(y.row, y.column) == RegionOf(p.row, p.column)
  {
    var top, left := (p.row / 3) * 3, (p.column / 3) * 3;
    var y := Pos(top + Skip(a, p.row - top), left + Skip(b, p.column - left));
    assert top <= y.row < top + 3 && left <= y.column < left + 3;
    assert y.row / 3 == p.row / 3 && y.column / 3 == p.column / 3;
  }

  /** Every other cell sharing a unit with `p` is one of its peers. */
  lemma MateIsPeer(p: Pos, y: Pos)
    requires ValidPos(p) && ValidPos(y) && y != p
    requires y.row == p.row || y.column == p.column || RegionOf(y.row, y.column) == RegionOf(p.row, p.column)
    ensures y in Peers(p)
  {
    var s := Peers(p);
    if y.column == p.column {
      var j := if y.row < p.row then y.row else y.row - 1;
      assert s[j] == y;
    } else if y.row == p.row {
      var j := if y.column < p.column then y.column else y.column - 1;
      assert s[8 + j] == y;
    } else {
      RegionBlocks(y.row, y.column);
      RegionBlocks(p.row, p.column);
      RegionMateIsPeer(p, y);
    }
  }

  /** A cell of the region of `p` in another row and column is among the last four peers. */
  lemma RegionMateIsPeer(p: Pos, y: Pos)
    requires ValidPos(p) && ValidPos(y) && y.row != p.row && y.column != p.column
    requires y.row / 3 == p.row / 3 && y.column / 3 == p.column / 3
    ensures y in Peers(p)
  {
    var top, left := (p.row / 3) * 3, (p.column / 3) * 3;
    var a := if y.row < p.row then y.row - top else y.row - top - 1;
    var b := if y.column < p.column then y.column - left else y.column - left - 1;
    assert 0 <= a < 2 && 0 <= b < 2;
    var j := 2 * a + b;
    assert j / 2 == a && j % 2 == b by {
      if a == 0 { assert j == b; } else { assert j == 2 + b; }
    }
    assert Peers(p)[16 + j] == y;
  }

  /** The peers of `p` are exactly the other cells that share a row, a column or a region with it. */
  lemma PeersShareAUnit(p: Pos)
    requires ValidPos(p)
    ensures forall y :: y in Peers(p) <==>
      ValidPos(y) && y != p && (y.row == p.row || y.column == p.column || RegionOf(y.row, y.column) == RegionOf(p.row, p.column))
  {
    forall i | 0 <= i < 20 {
      PeerSharesAUnit(p, i);
    }
    forall y | ValidPos(y) && y != p
      && (y.row == p.row || y.column == p.column || RegionOf(y.row, y.column) == RegionOf(p.row, p.column))
    {
      MateIsPeer(p, y);
    }
  }

  /** The characters of a unit, in scan order. */
  function UnitChars(b: seq<seq<char>>, k: Kind, u: int): (s: seq<char>)
    requires IsGrid(b) && 0 <= u < SUDOKU_SIZE
    ensures |s| == SUDOKU_SIZE
    ensures forall i :: 0 <= i < SUDOKU_SIZE ==> s[i] == At(b, UnitPos(k, u, i))
  {
    seq(SUDOKU_SIZE, i requires 0 <= i < SUDOKU_SIZE => At(b, UnitPos(k, u, i)))
  }

  /** Writing one cell changes exactly one entry of each of its three units and no other unit. */
  lemma UnitCharsPut(b: seq<seq<char>>, p: Pos, ch: char, k: Kind, u: int)
    requires IsGrid(b) && ValidPos(p) && 0 <= u < SUDOKU_SIZE
    ensures u == UnitOf(k, p) ==> UnitChars(Put(b, p, ch), k, u) == UnitChars(b, k, u)[IndexIn(k, p) := ch]
    ensures u != UnitOf(k, p) ==> UnitChars(Put(b, p, ch), k, u) == UnitChars(b, k, u)
  {
    UnitPosOf(k, p);
    var t, s := UnitChars(Put(b, p, ch), k, u), UnitChars(b, k, u);
    forall i | 0 <= i < SUDOKU_SIZE
      ensures t[i] == if UnitPos(k, u, i) == p then ch else s[i]
      ensures UnitPos(k, u, i) == p ==> u == UnitOf(k, p) && i == IndexIn(k, p)
    {
      UnitPosIn(k, u, i);
    }
  }

  /** Some cell of the unit holds digit n. */
  predicate Has(s: seq<char>, n: int)
  {
    exists i :: 0 <= i < |s| && GetNumber(s[i]) == n
  }

  /** No digit occurs twice in the unit. */
  predicate NoDup(s: seq<char>)
  {
    forall i, j :: 0 <= i < |s| && 0 <= j < |s| && i != j && !IsFree(s[i]) ==> GetNumber(s[i]) != GetNumber(s[j])
  }

  /** Number of free characters. */
  function FreeIn(s: seq<char>): (k: nat)
    ensures k <= |s|
  {
    if s == [] then 0 else FreeIn(s[..|s| - 1]) + (if IsFree(s[|s| - 1]) then 1 else 0)
  }

  /** Number of cells holding a digit. */
  function PlacedCount(s: seq<char>): nat
  {
    |s| - FreeIn(s)
  }

  /** Rewriting one character changes the free count by the difference it makes. */
  lemma {:induction false} FreeInUpdate(s: seq<char>, i: int, ch: char)
    requires 0 <= i < |s|
    ensures FreeIn(s[i := ch]) == FreeIn(s) - (if IsFree(s[i]) then 1 else 0) + (if IsFree(ch) then 1 else 0)
    decreases |s|
  {
    var t := s[i := ch];
    if i < |s| - 1 {
      assert t[..|t| - 1] == s[..|s| - 1][i := ch];
      FreeInUpdate(s[..|s| - 1], i, ch);
    } else {
      assert t[..|t| - 1] == s[..|s| - 1];
    }
  }

  /** No free character means every cell of the sequence holds a digit. */
  lemma {:induction false} FreeInZero(s: seq<char>)
    ensures FreeIn(s) == 0 <==> forall i :: 0 <= i < |s| ==> !IsFree(s[i])
  {
    if s != [] {
      var t := s[..|s| - 1];
      FreeInZero(t);
      assert forall i :: 0 <= i < |t| ==> t[i] == s[i];
    }
  }

  /** An all-free sequence counts all its cells as free. */
  lemma {:induction false} FreeInAll(s: seq<char>)
    requires forall i :: 0 <= i < |s| ==> IsFree(s[i])
    ensures FreeIn(s) == |s|
  {
    if s != [] {
      FreeInAll(s[..|s| - 1]);
    }
  }

  /**
   * The registry entry of a unit: `reg[n]` says whether digit n is present,
   * `cnt` how many digits are present, and no digit is present twice.
   */
  ghost predicate UnitOk(reg: seq<bool>, cnt: int, s: seq<char>)
  {
    |reg| == SUDOKU_SIZE && |s| == SUDOKU_SIZE && NoDup(s) && cnt == PlacedCount(s)
    && forall n :: 0 <= n < SUDOKU_SIZE ==> reg[n] == Has(s, n)
  }

  /** Placing a digit that the unit does not hold yet keeps the unit's registry entry exact. */
  lemma PlaceInUnit(reg: seq<bool>, cnt: int, s: seq<char>, i: int, ch: char)
    requires UnitOk(reg, cnt, s) && 0 <= i < |s| && IsFree(s[i]) && !IsFree(ch)
    requires !reg[GetNumber(ch)]
    ensures UnitOk(reg[GetNumber(ch) := true], cnt + 1, s[i := ch])
  {
    var n := GetNumber(ch);
    var t := s[i := ch];
    FreeInUpdate(s, i, ch);
    forall m | 0 <= m < SUDOKU_SIZE
      ensures reg[n := true][m] == Has(t, m)
    {
      if m == n {
        assert GetNumber(t[i]) == n;
      } else {
        if Has(s, m) {
          var j :| 0 <= j < |s| && GetNumber(s[j]) == m;
          assert t[j] == s[j];
        }
        if Has(t, m) {
          var j :| 0 <= j < |t| && GetNumber(t[j]) == m;
          assert s[j] == t[j];
        }
      }
    }
    forall j, k | 0 <= j < |t| && 0 <= k < |t| && j != k && !IsFree(t[j])
      ensures GetNumber(t[j]) != GetNumber(t[k])
    {
      if j == i {
        assert !Has(s, n);
      } else if k == i {
        assert !Has(s, n);
        assert GetNumber(s[j]) != n;
      }
    }
  }

  /** Clearing a digit removes it from the unit's registry entry. */
  lemma ClearInUnit(reg: seq<bool>, cnt: int, s: seq<char>, i: int, ch: char)
    requires UnitOk(reg, cnt, s) && 0 <= i < |s| && !IsFree(s[i]) && IsFree(ch)
    ensures UnitOk(reg[GetNumber(s[i]) := false], cnt - 1, s[i := ch])
  {
    var n := GetNumber(s[i]);
    var t := s[i := ch];
    FreeInUpdate(s, i, ch);
    forall m | 0 <= m < SUDOKU_SIZE
      ensures reg[n := false][m] == Has(t, m)
    {
      if Has(t, m) {
        var j :| 0 <= j < |t| && GetNumber(t[j]) == m;
        assert j != i && s[j] == t[j];
      }
      if m != n && Has(s, m) {
        var j :| 0 <= j < |s| && GetNumber(s[j]) == m;
        assert t[j] == s[j];
      }
    }
  }

  /** Replacing one free character by another changes nothing a registry records. */
  lemma FreeOverFree(reg: seq<bool>, cnt: int, s: seq<char>, i: int, ch: char)
    requires UnitOk(reg, cnt, s) && 0 <= i < |s| && IsFree(s[i]) && IsFree(ch)
    ensures UnitOk(reg, cnt, s[i := ch])
  {
    var t := s[i := ch];
    FreeInUpdate(s, i, ch);
    forall m | 0 <= m < SUDOKU_SIZE
      ensures reg[m] == Has(t, m)
    {
      if Has(t, m) {
        var j :| 0 <= j < |t| && GetNumber(t[j]) == m;
        assert j != i && s[j] == t[j];
      }
      if Has(s, m) {
        var j :| 0 <= j < |s| && GetNumber(s[j]) == m;
        assert j != i && t[j] == s[j];
      }
    }
  }

  /** Number of free cells of the whole board, row by row. */
  function FreeCount(b: seq<seq<char>>): nat
  {
    if b == [] then 0 else FreeCount(b[..|b| - 1]) + FreeIn(b[|b| - 1])
  }

  /** Replacing a row changes the board's free count by the difference of the two rows. */
  lemma {:induction false} FreeCountRow(b: seq<seq<char>>, r: int, row: seq<char>)
    requires 0 <= r < |b|
    ensures FreeCount(b[r := row]) == FreeCount(b) - FreeIn(b[r]) + FreeIn(row)
    decreases |b|
  {
    var t := b[r := row];
    if r < |b| - 1 {
      assert t[..|t| - 1] == b[..|b| - 1][r := row];
      FreeCountRow(b[..|b| - 1], r, row);
    } else {
      assert t[..|t| - 1] == b[..|b| - 1];
    }
  }

  /** Writing one cell moves the free count by one at most. */
  lemma FreeCountPut(b: seq<seq<char>>, p: Pos, ch: char)
    requires IsGrid(b) && ValidPos(p)
    ensures FreeCount(Put(b, p, ch)) ==
      FreeCount(b) - (if IsFree(At(b, p)) then 1 else 0) + (if IsFree(ch) then 1 else 0)
  {
    FreeInUpdate(b[p.row], p.column, ch);
    FreeCountRow(b, p.row, b[p.row][p.column := ch]);
  }

  /** A board without free cells holds a digit everywhere. */
  lemma {:induction false} FreeCountZero(b: seq<seq<char>>)
    requires FreeCount(b) == 0
    ensures forall r, c :: 0 <= r < |b| && 0 <= c < |b[r]| ==> !IsFree(b[r][c])
  {
    if b != [] {
      var t := b[..|b| - 1];
      FreeCountZero(t);
      FreeInZero(b[|b| - 1]);
      assert forall r :: 0 <= r < |t| ==> t[r] == b[r];
    }
  }

  /** A board of free cells only counts all of them. */
  lemma {:induction false} FreeCountAll(b: seq<seq<char>>)
    requires forall r, c :: 0 <= r < |b| && 0 <= c < |b[r]| ==> IsFree(b[r][c])
    ensures FreeCount(b) == |b| * SUDOKU_SIZE || exists r :: 0 <= r < |b| && |b[r]| != SUDOKU_SIZE
  {
    if b != [] {
      var t := b[..|b| - 1];
      assert forall r :: 0 <= r < |t| ==> t[r] == b[r];
      FreeCountAll(t);
      FreeInAll(b[|b| - 1]);
      if exists r :: 0 <= r < |t| && |t[r]| != SUDOKU_SIZE {
        var r :| 0 <= r < |t| && |t[r]| != SUDOKU_SIZE;
        assert |b[r]| != SUDOKU_SIZE;
      }
    }
  }

  /** The digits a unit holds, as a set. */
  function Digits(s: seq<char>): (d: set<int>)
    ensures forall m :: m in d ==> 0 <= m < SUDOKU_SIZE
  {
    if s == [] then {}
    else Digits(s[..|s| - 1]) + (if IsFree(s[|s| - 1]) then {} else {GetNumber(s[|s| - 1])})
  }

  /** Digits collects exactly the digits Has finds. */
  lemma {:induction false} DigitsHas(s: seq<char>, n: int)
    requires 0 <= n
    ensures n in Digits(s) <==> Has(s, n)
  {
    if s != [] {
      var t := s[..|s| - 1];
      DigitsHas(t, n);
      if Has(t, n) {
        var i :| 0 <= i < |t| && GetNumber(t[i]) == n;
        assert GetNumber(s[i]) == n;
      }
      if Has(s, n) {
        var i :| 0 <= i < |s| && GetNumber(s[i]) == n;
        if i < |t| { assert GetNumber(t[i]) == n; }
      }
    }
  }

  /** Without repetitions, the unit holds as many distinct digits as placed cells. */
  lemma {:induction false} DigitsCard(s: seq<char>)
    requires NoDup(s)
    ensures |Digits(s)| == PlacedCount(s)
  {
    if s != [] {
      var t := s[..|s| - 1];
      assert NoDup(t) by {
        forall i, j | 0 <= i < |t| && 0 <= j < |t| && i != j && !IsFree(t[i])
          ensures GetNumber(t[i]) != GetNumber(t[j])
        {
          assert t[i] == s[i] && t[j] == s[j];
        }
      }
      DigitsCard(t);
      var last := s[|s| - 1];
      if !IsFree(last) {
        DigitsHas(t, GetNumber(last));
        assert forall i :: 0 <= i < |t| ==> t[i] == s[i];
      }
    }
  }

  /** A subset is no larger. */
  lemma SubsetCard(a: set<int>, b: set<int>)
    requires a <= b
    ensures |a| <= |b|
  {
    assert b == a + (b - a);
    assert a * (b - a) == {};
  }

  /** The digits 0..k-1. */
  function Range(k: nat): (r: set<int>)
    ensures forall n :: n in r <==> 0 <= n < k
    ensures |r| == k
  {
    if k == 0 then {} else Range(k - 1) + {k - 1}
  }

  /**
   * Pigeonhole: a unit whose nine cells all hold digits, none repeated,
   * holds every digit (so each exactly once).
   */
  lemma FullUnitHasAll(s: seq<char>)
    requires |s| == SUDOKU_SIZE && NoDup(s) && FreeIn(s) == 0
    ensures forall n :: 0 <= n < SUDOKU_SIZE ==> Has(s, n)
  {
    DigitsCard(s);
    forall n | 0 <= n < SUDOKU_SIZE
      ensures Has(s, n)
    {
      DigitsHas(s, n);
      if n !in Digits(s) {
        var others := Range(SUDOKU_SIZE) - {n};
        assert Digits(s) <= others;
        SubsetCard(Digits(s), others);
      }
    }
  }

  /** Free characters all read alike: '.' stands for each of them. */
  function Canon(ch: char): char
  {
    if IsFree(ch) then '.' else ch
  }

  /** Two boards that hold the same digits in the same cells. */
  ghost predicate SameDigits(b1: seq<seq<char>>, b2: seq<seq<char>>)
  {
    IsGrid(b1) && IsGrid(b2) && forall p :: ValidPos(p) ==> Canon(At(b1, p)) == Canon(At(b2, p))
  }
}
