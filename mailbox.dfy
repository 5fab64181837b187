/**
 * `Mailbox<T, WIDTH, HEIGHT>`: a grid of cells stored column by column, `data[x][y]`.
 *
 * The grid as a value is a `Grid<T>`, a sequence of WIDTH columns of HEIGHT cells; the
 * `Mailbox` class keeps the cells in an `array2` that its methods update in place, and
 * `Cells()` reads them back as a `Grid`.
 */
module Mailboxes {

  /** `cells[x][y]`: WIDTH columns, each of HEIGHT cells. */
  type Grid<T> = seq<seq<T>>

  predicate IsGrid<T>(w: nat, h: nat, g: Grid<T>)
  {
    |g| == w && forall x :: 0 <= x < w ==> |g[x]| == h
  }

  /** `on_board`. */
  predicate OnBoard(w: nat, h: nat, x: int, y: int)
  {
    0 <= x < w && 0 <= y < h
  }

  /** A grid of WIDTH x HEIGHT copies of `v`, as `Default` and `fill` leave it. */
  function Uniform<T>(w: nat, h: nat, v: T): (g: Grid<T>)
    ensures IsGrid(w, h, g)
  {
    seq(w, _ => seq(h, _ => v))
  }

  /** Every cell of a uniform grid holds its value. */
  lemma UniformAt<T>(w: nat, h: nat, v: T, x: nat, y: nat)
    requires x < w && y < h
    ensures Uniform(w, h, v)[x][y] == v
  {
  }

  /** The grid with cell (x, y) set to `v`. */
  function Update<T>(g: Grid<T>, x: nat, y: nat, v: T): Grid<T>
    requires x < |g| && y < |g[x]|
  {
    g[x := g[x][y := v]]
  }

  /** Getting a cell after setting it gives the value set; every other cell is as it was. */
  lemma GetAfterSet<T>(w: nat, h: nat, g: Grid<T>, x: nat, y: nat, v: T)
    requires IsGrid(w, h, g) && x < w && y < h
    ensures IsGrid(w, h, Update(g, x, y, v))
    ensures Update(g, x, y, v)[x][y] == v
    ensures forall x', y' :: 0 <= x' < w && 0 <= y' < h && (x', y') != (x, y) ==> Update(g, x, y, v)[x'][y'] == g[x'][y']
  {
  }

  /** How many cells of column `col` hold `p`. */
  function ColumnCount<T(==)>(col: seq<T>, p: T): nat
  {
    multiset(col)[p]
  }

  /** How many cells of the first `n` columns hold `p`. */
  function CountCols<T(==)>(g: Grid<T>, p: T, n: nat): nat
    requires n <= |g|
  {
    if n == 0 then 0 else CountCols(g, p, n - 1) + ColumnCount(g[n - 1], p)
  }

  /** How many cells of the grid hold `p`. */
  function CountIn<T(==)>(g: Grid<T>, p: T): nat
  {
    CountCols(g, p, |g|)
  }

  /** A uniform grid: every cell holds its value, and no cell holds anything else. */
  lemma {:induction false} CountColsUniform<T>(w: nat, h: nat, v: T, p: T, n: nat)
    requires n <= w
    ensures CountCols(Uniform(w, h, v), p, n) == if p == v then n * h else 0
  {
    if n > 0 {
      CountColsUniform(w, h, v, p, n - 1);
      var col := Uniform(w, h, v)[n - 1];
      assert multiset(col) == multiset{}[v := h] by {
        ColumnOfCopies(col, v);
      }
    }
  }

  lemma {:induction false} ColumnOfCopies<T>(col: seq<T>, v: T)
    requires forall i :: 0 <= i < |col| ==> col[i] == v
    ensures multiset(col) == multiset{}[v := |col|]
  {
    if col != [] {
      assert col == col[..|col| - 1] + [v];
      ColumnOfCopies(col[..|col| - 1], v);
    }
  }

  /** `count_piece` after `fill(v)`: every cell when `p == v`, none otherwise. */
  lemma CountUniform<T>(w: nat, h: nat, v: T, p: T)
    ensures CountIn(Uniform(w, h, v), p) == if p == v then w * h else 0
  {
    CountColsUniform(w, h, v, p, w);
  }

  /** Setting one cell changes the count of `p` by what left the cell and what entered it. */
  lemma {:induction false} CountColsUpdate<T>(g: Grid<T>, x: nat, y: nat, v: T, p: T, n: nat)
    requires x < |g| && y < |g[x]| && n <= |g|
    ensures CountCols(Update(g, x, y, v), p, n) + (if x < n && g[x][y] == p then 1 else 0)
      == CountCols(g, p, n) + (if x < n && v == p then 1 else 0)
  {
    if n > 0 {
      CountColsUpdate(g, x, y, v, p, n - 1);
      if n - 1 == x {
        ColumnCountUpdate(g[x], y, v, p);
      }
    }
  }

  lemma ColumnCountUpdate<T>(col: seq<T>, y: nat, v: T, p: T)
    requires y < |col|
    ensures ColumnCount(col[y := v], p) + (if col[y] == p then 1 else 0) == ColumnCount(col, p) + (if v == p then 1 else 0)
  {
    assert col == col[..y] + [col[y]] + col[y + 1..];
    assert col[y := v] == col[..y] + [v] + col[y + 1..];
  }

  lemma CountUpdate<T>(g: Grid<T>, x: nat, y: nat, v: T, p: T)
    requires x < |g| && y < |g[x]|
    ensures CountIn(Update(g, x, y, v), p) + (if g[x][y] == p then 1 else 0) == CountIn(g, p) + (if v == p then 1 else 0)
  {
    CountColsUpdate(g, x, y, v, p, |g|);
  }

  /**
   * `streak::<MAX_LEN, DX, DY>(x, y)` as written, from step `i` on: the cells (x + DX*i, y + DY*i)
   * for i up to MAX_LEN that hold `piece`, stopping only at the edge of the board. A cell that
   * holds something else does not stop the count.
   */
  function MatchesFrom<T(==)>(w: nat, h: nat, g: Grid<T>, x: int, y: int, dx: int, dy: int, maxLen: int, piece: T, i: int): (n: nat)
    requires IsGrid(w, h, g) && 1 <= i
    ensures n <= if maxLen < i then 0 else maxLen - i + 1
    decreases maxLen - i + 1
  {
    if i > maxLen then 0
    else if !OnBoard(w, h, x + dx * i, y + dy * i) then 0
    else (if g[x + dx * i][y + dy * i] == piece then 1 else 0) + MatchesFrom(w, h, g, x, y, dx, dy, maxLen, piece, i + 1)
  }

  /** `streak` as written: 1 for the starting cell plus every matching cell up to the edge. */
  function StreakAsWritten<T(==)>(w: nat, h: nat, g: Grid<T>, x: int, y: int, dx: int, dy: int, maxLen: int): nat
    requires IsGrid(w, h, g) && OnBoard(w, h, x, y)
  {
    1 + MatchesFrom(w, h, g, x, y, dx, dy, maxLen, g[x][y], 1)
  }

  /** The count `streak` returns lies between 1 and MAX_LEN + 1. */
  lemma StreakAsWrittenBounds<T>(w: nat, h: nat, g: Grid<T>, x: int, y: int, dx: int, dy: int, maxLen: int)
    requires IsGrid(w, h, g) && OnBoard(w, h, x, y) && 0 <= maxLen
    ensures 1 <= StreakAsWritten(w, h, g, x, y, dx, dy, maxLen) <= maxLen + 1
  {
  }

  /**
   * The evidently intended count, from step `i` on: the cells in a row that hold `piece`,
   * stopping at the edge or at the first cell that holds anything else.
   */
  function RunFrom<T(==)>(w: nat, h: nat, g: Grid<T>, x: int, y: int, dx: int, dy: int, maxLen: int, piece: T, i: int): (n: nat)
    requires IsGrid(w, h, g) && 1 <= i
    ensures n <= MatchesFrom(w, h, g, x, y, dx, dy, maxLen, piece, i)
    decreases maxLen - i + 1
  {
    if i > maxLen || !OnBoard(w, h, x + dx * i, y + dy * i) || g[x + dx * i][y + dy * i] != piece then 0
    else 1 + RunFrom(w, h, g, x, y, dx, dy, maxLen, piece, i + 1)
  }

  /** The corrected `streak`: the starting cell and the matching cells that follow it without a gap. */
  function Streak<T(==)>(w: nat, h: nat, g: Grid<T>, x: int, y: int, dx: int, dy: int, maxLen: int): nat
    requires IsGrid(w, h, g) && OnBoard(w, h, x, y)
  {
    1 + RunFrom(w, h, g, x, y, dx, dy, maxLen, g[x][y], 1)
  }

  /** The cells at steps i..j hold `piece`. */
  ghost predicate RowOf<T>(w: nat, h: nat, g: Grid<T>, x: int, y: int, dx: int, dy: int, piece: T, i: int, j: int)
    requires IsGrid(w, h, g)
  {
    forall k :: i <= k <= j ==> OnBoard(w, h, x + dx * k, y + dy * k) && g[x + dx * k][y + dy * k] == piece
  }

  /** The run from step i reaches n cells exactly when the cells at steps i..i+n-1 all hold `piece`. */
  lemma {:induction false} RunFromReaches<T>(w: nat, h: nat, g: Grid<T>, x: int, y: int, dx: int, dy: int,
                                             maxLen: int, piece: T, i: int, n: nat)
    requires IsGrid(w, h, g) && 1 <= i && i + n - 1 <= maxLen
    ensures RunFrom(w, h, g, x, y, dx, dy, maxLen, piece, i) >= n <==> RowOf(w, h, g, x, y, dx, dy, piece, i, i + n - 1)
    decreases n
  {
    if n > 0 {
      RunFromReaches(w, h, g, x, y, dx, dy, maxLen, piece, i + 1, n - 1);
      if RowOf(w, h, g, x, y, dx, dy, piece, i, i + n - 1) {
        assert OnBoard(w, h, x + dx * i, y + dy * i) && g[x + dx * i][y + dy * i] == piece;
      }
    }
  }

  /**
   * The corrected streak is at least n + 1 (for n up to MAX_LEN) exactly when the n cells
   * after the start, in a row, hold the starting cell's piece.
   */
  lemma StreakReaches<T>(w: nat, h: nat, g: Grid<T>, x: int, y: int, dx: int, dy: int, maxLen: int, n: nat)
    requires IsGrid(w, h, g) && OnBoard(w, h, x, y) && n <= maxLen
    ensures Streak(w, h, g, x, y, dx, dy, maxLen) >= n + 1 <==> RowOf(w, h, g, x, y, dx, dy, g[x][y], 1, n)
  {
    RunFromReaches(w, h, g, x, y, dx, dy, maxLen, g[x][y], 1, n);
  }

  /** A row of n + 1 cells after (x, y) is a row of n cells after the next cell. */
  lemma RowShift<T>(w: nat, h: nat, g: Grid<T>, x: int, y: int, dx: int, dy: int, piece: T, n: int)
    requires IsGrid(w, h, g) && RowOf(w, h, g, x, y, dx, dy, piece, 1, n + 1)
    ensures RowOf(w, h, g, x + dx, y + dy, dx, dy, piece, 1, n)
  {
    forall k | 1 <= k <= n
      ensures OnBoard(w, h, x + dx + dx * k, y + dy + dy * k) && g[x + dx + dx * k][y + dy + dy * k] == piece
    {
      assert x + dx + dx * k == x + dx * (k + 1) && y + dy + dy * k == y + dy * (k + 1);
    }
  }

  /** The corrected streak never exceeds the streak as written, and both lie in 1..MAX_LEN + 1. */
  lemma StreakBelowAsWritten<T>(w: nat, h: nat, g: Grid<T>, x: int, y: int, dx: int, dy: int, maxLen: int)
    requires IsGrid(w, h, g) && OnBoard(w, h, x, y) && 0 <= maxLen
    ensures 1 <= Streak(w, h, g, x, y, dx, dy, maxLen) <= StreakAsWritten(w, h, g, x, y, dx, dy, maxLen) <= maxLen + 1
  {
  }

  /** One rank of six cells, "x x x x _ x": four stones, a gap, one more stone. */
  function GappedRow(): Grid<int>
  {
    [[1], [1], [1], [1], [0], [1]]
  }

  /**
   * On the rank "x x x x _ x" the streak to the right from the first stone, as written, is 5,
   * though only four stones stand in a row; the corrected streak is 4.
   */
  lemma GappedRowCounts()
    ensures StreakAsWritten(6, 1, GappedRow(), 0, 0, 1, 0, 5) == 5
    ensures Streak(6, 1, GappedRow(), 0, 0, 1, 0, 5) == 4
  {
    var g := GappedRow();
    assert IsGrid(6, 1, g);
    assert MatchesFrom(6, 1, g, 0, 0, 1, 0, 5, 1, 6) == 0;
    assert MatchesFrom(6, 1, g, 0, 0, 1, 0, 5, 1, 5) == 1;
    assert MatchesFrom(6, 1, g, 0, 0, 1, 0, 5, 1, 4) == 1;
    assert MatchesFrom(6, 1, g, 0, 0, 1, 0, 5, 1, 3) == 2;
    assert MatchesFrom(6, 1, g, 0, 0, 1, 0, 5, 1, 2) == 3;
    assert MatchesFrom(6, 1, g, 0, 0, 1, 0, 5, 1, 1) == 4;
    assert RunFrom(6, 1, g, 0, 0, 1, 0, 5, 1, 4) == 0;
    assert RunFrom(6, 1, g, 0, 0, 1, 0, 5, 1, 3) == 1;
    assert RunFrom(6, 1, g, 0, 0, 1, 0, 5, 1, 2) == 2;
    assert RunFrom(6, 1, g, 0, 0, 1, 0, 5, 1, 1) == 3;
  }

  /** The grid in place: WIDTH x HEIGHT cells of an `array2`, `data[x, y]`. */
  class Mailbox<T(==)> {
    const width: nat
    const height: nat
    const data: array2<T>

    ghost predicate Valid()
      reads this
    {
      data.Length0 == width && data.Length1 == height
    }

    /** The cells as a grid value. */
    ghost function Cells(): (g: Grid<T>)
      reads this, data
      requires Valid()
      ensures IsGrid(width, height, g)
    {
      seq(width, x requires 0 <= x < width reads data => seq(height, y requires 0 <= y < height reads data => data[x, y]))
    }

    /** `Default`: every cell holds the default value `v`. */
    constructor(w: nat, h: nat, v: T)
      ensures Valid() && width == w && height == h && fresh(data)
      ensures Cells() == Uniform(w, h, v)
    {
      width, height := w, h;
      data := new T[w, h]((_, _) => v);
      new;
      assert forall i | 0 <= i < w :: Cells()[i] == Uniform(w, h, v)[i];
    }

    /** `get_piece_coords`: the cell at (x, y), which must be on the board. */
    function GetPiece(x: int, y: int): (v: T)
      reads this, data
      requires Valid() && OnBoard(width, height, x, y)
      ensures v == Cells()[x][y]
    {
      data[x, y]
    }

    /** `set_piece` / `set_piece_coords` / `set_piece_square`: cell (x, y) becomes `v`, nothing else changes. */
    method SetPiece(x: int, y: int, v: T)
      requires Valid() && OnBoard(width, height, x, y)
      modifies data
      ensures Valid() && Cells() == Update(old(Cells()), x, y, v)
    {
      data[x, y] := v;
      ghost var was := old(Cells());
      assert forall i | 0 <= i < width :: Cells()[i] == Update(was, x, y, v)[i];
    }

    /** `fill`: rank by rank, every cell becomes `v`. */
    method Fill(v: T)
      requires Valid()
      modifies data
      ensures Valid() && Cells() == Uniform(width, height, v)
    {
      var y := 0;
      while y < height
        invariant y <= height
        invariant forall i, j :: 0 <= i < width && 0 <= j < y ==> data[i, j] == v
      {
        var x := 0;
        while x < width
          invariant x <= width
          invariant forall i, j :: 0 <= i < width && 0 <= j < y ==> data[i, j] == v
          invariant forall i :: 0 <= i < x ==> data[i, y] == v
        {
          data[x, y] := v;
          x := x + 1;
        }
        y := y + 1;
      }
      assert forall i | 0 <= i < width :: Cells()[i] == Uniform(width, height, v)[i];
    }

    /** `count_piece`: file by file, the cells that hold `p`. */
    method CountPiece(p: T) returns (count: nat)
      requires Valid()
      ensures count == CountIn(Cells(), p)
    {
      count := 0;
      var x := 0;
      while x < width
        invariant x <= width
        invariant count == CountCols(Cells(), p, x)
      {
        var c := CountColumn(x, p);
        count := count + c;
        x := x + 1;
      }
    }

    /** The inner loop of `count_piece`: the cells of file `x` that hold `p`. */
    method CountColumn(x: nat, p: T) returns (count: nat)
      requires Valid() && x < width
      ensures count == ColumnCount(Cells()[x], p)
    {
      ghost var col := Cells()[x];
      count := 0;
      var y := 0;
      while y < height
        invariant y <= height
        invariant count == multiset(col[..y])[p]
      {
        assert col[..y + 1] == col[..y] + [data[x, y]];
        count := count + if data[x, y] == p then 1 else 0;
        y := y + 1;
      }
      assert col[..height] == col;
    }

    /** `streak::<MAX_LEN, DX, DY>(x, y)` as written: counts matching cells up to the edge, skipping the others. */
    method CountStreakAsWritten(maxLen: int, dx: int, dy: int, x: int, y: int) returns (count: nat)
      requires Valid() && OnBoard(width, height, x, y)
      ensures count == StreakAsWritten(width, height, Cells(), x, y, dx, dy, maxLen)
    {
      ghost var g := Cells();
      var piece := data[x, y];
      count := 1;
      var i := 1;
      while i <= maxLen
        invariant 1 <= i
        invariant count + MatchesFrom(width, height, g, x, y, dx, dy, maxLen, piece, i) == StreakAsWritten(width, height, g, x, y, dx, dy, maxLen)
        decreases maxLen - i
      {
        var nx := x + dx * i;
        var ny := y + dy * i;
        if !OnBoard(width, height, nx, ny) {
          break;
        } else if data[nx, ny] == piece {
          count := count + 1;
        }
        i := i + 1;
      }
    }

    /** The corrected `streak`: as written, but a cell that holds anything else also ends the count. */
    method CountStreak(maxLen: int, dx: int, dy: int, x: int, y: int) returns (count: nat)
      requires Valid() && OnBoard(width, height, x, y)
      ensures count == Streak(width, height, Cells(), x, y, dx, dy, maxLen)
    {
      ghost var g := Cells();
      var piece := data[x, y];
      count := 1;
      var i := 1;
      while i <= maxLen
        invariant 1 <= i
        invariant count + RunFrom(width, height, g, x, y, dx, dy, maxLen, piece, i) == Streak(width, height, g, x, y, dx, dy, maxLen)
        decreases maxLen - i
      {
        var nx := x + dx * i;
        var ny := y + dy * i;
        if !OnBoard(width, height, nx, ny) || data[nx, ny] != piece {
          break;
        }
        count := count + 1;
        i := i + 1;
      }
    }
  }
}
