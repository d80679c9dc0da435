/**
 * A board as the source keeps it: a list of rows of tiles, addressed `level[row][col]`,
 * together with the facts about cells and tile counts that the rest of the model uses.
 * The source mutates its board in place; that board is an `array2<Tile>` here, and
 * `Snapshot` reads it back as a value.
 */
module Grids {
  import opened Wrappers
  import opened Tiles

  type Grid = seq<seq<Tile>>

  /** A cell address in (row, column) order, i.e. (y, x). */
  datatype RowCol = RowCol(row: int, col: int)

  function Width(g: Grid): nat
  {
    if |g| == 0 then 0 else |g[0]|
  }

  predicate Rect(g: Grid)
  {
    forall y | 0 <= y < |g| :: |g[y]| == Width(g)
  }

  predicate InBounds(g: Grid, c: RowCol)
  {
    0 <= c.row < |g| && 0 <= c.col < Width(g)
  }

  function At(g: Grid, c: RowCol): Tile
    requires Rect(g) && InBounds(g, c)
  {
    g[c.row][c.col]
  }

  predicate OnBorder(g: Grid, c: RowCol)
  {
    c.row == 0 || c.row == |g| - 1 || c.col == 0 || c.col == Width(g) - 1
  }

  /** The invariant every board of the game keeps: its outer ring is wall. */
  ghost predicate BorderIsWall(g: Grid)
    requires Rect(g)
  {
    forall c | InBounds(g, c) && OnBorder(g, c) :: At(g, c) == Wall
  }

  predicate Distinct(s: seq<RowCol>)
  {
    forall i, j | 0 <= i < j < |s| :: s[i] != s[j]
  }

  /** One cell overwritten, as `level[row][col] = t` does. */
  function Write(g: Grid, c: RowCol, t: Tile): (r: Grid)
    requires Rect(g) && InBounds(g, c)
    ensures Rect(r) && |r| == |g| && Width(r) == Width(g)
    ensures forall d | InBounds(g, d) :: At(r, d) == if d == c then t else At(g, d)
  {
    g[c.row := g[c.row][c.col := t]]
  }

  /** The cells of `marks` overwritten with `t`, one after the other (marks off the board are skipped). */
  function Stamp(g: Grid, marks: seq<RowCol>, t: Tile): (r: Grid)
    requires Rect(g)
    ensures Rect(r) && |r| == |g| && Width(r) == Width(g)
    ensures forall d | InBounds(g, d) :: At(r, d) == if d in marks then t else At(g, d)
    decreases |marks|
  {
    if |marks| == 0 then g
    else
      var init, last := marks[..|marks| - 1], marks[|marks| - 1];
      var h := Stamp(g, init, t);
      assert forall d | d in marks :: d in init || d == last;
      if InBounds(g, last) then Write(h, last, t) else h
  }

  /** The cells holding tile `t`. */
  ghost function CellsOf(g: Grid, t: Tile): (r: set<RowCol>)
    requires Rect(g)
    ensures forall c :: c in r <==> InBounds(g, c) && At(g, c) == t
  {
    set y, x | 0 <= y < |g| && 0 <= x < Width(g) && g[y][x] == t :: RowCol(y, x)
  }

  /** How many cells hold tile `t`. */
  ghost function Count(g: Grid, t: Tile): nat
    requires Rect(g)
  {
    |CellsOf(g, t)|
  }

  ghost function Elems(s: seq<RowCol>): (r: set<RowCol>)
    ensures forall c :: c in r <==> c in s
  {
    set c | c in s
  }

  /** The rectangle of cells with r0 <= row < r1 and c0 <= col < c1. */
  ghost function Block(r0: int, r1: int, c0: int, c1: int): (r: set<RowCol>)
    ensures forall c :: c in r <==> r0 <= c.row < r1 && c0 <= c.col < c1
  {
    set y, x | r0 <= y < r1 && c0 <= x < c1 :: RowCol(y, x)
  }

  /** Overwriting one cell changes, among the cells holding `t`, at most that cell. */
  lemma CellsAfterWrite(g: Grid, c: RowCol, u: Tile, t: Tile)
    requires Rect(g) && InBounds(g, c)
    ensures var before, after := CellsOf(g, t), CellsOf(Write(g, c, u), t);
            && after - {c} == before - {c}
            && (c in before <==> At(g, c) == t) && (c in after <==> u == t)
  {
    var before, after := CellsOf(g, t), CellsOf(Write(g, c, u), t);
    forall d
      ensures d in after - {c} <==> d in before - {c}
    {
    }
  }

  /** Two sets that differ at most in one element differ in size by that element alone. */
  lemma CardAcrossOne(before: set<RowCol>, after: set<RowCol>, c: RowCol)
    requires after - {c} == before - {c}
    ensures |after| == |before| - (if c in before then 1 else 0) + (if c in after then 1 else 0)
  {
    var rest := before - {c};
    if c in before {
      assert before == rest + {c};
    } else {
      assert before == rest;
    }
    if c in after {
      assert after == rest + {c};
    } else {
      assert after == rest;
    }
  }

  /** Overwriting one cell moves it from the count of its old tile to that of its new one. */
  lemma CountAfterWrite(g: Grid, c: RowCol, u: Tile, t: Tile)
    requires Rect(g) && InBounds(g, c)
    ensures Count(Write(g, c, u), t)
         == Count(g, t) - (if At(g, c) == t then 1 else 0) + (if u == t then 1 else 0)
  {
    CellsAfterWrite(g, c, u, t);
    CardAcrossOne(CellsOf(g, t), CellsOf(Write(g, c, u), t), c);
  }

  /** A list without repetitions has as many elements as it has distinct ones. */
  lemma {:induction false} DistinctCard(s: seq<RowCol>)
    requires Distinct(s)
    ensures |Elems(s)| == |s|
  {
    if |s| > 0 {
      var init := s[..|s| - 1];
      DistinctCard(init);
      assert Elems(s) == Elems(init) + {s[|s| - 1]};
      assert s[|s| - 1] !in init;
    }
  }

  lemma {:induction false} RowCard(y: int, c0: int, c1: int)
    requires c0 <= c1
    ensures |Block(y, y + 1, c0, c1)| == c1 - c0
    decreases c1 - c0
  {
    if c0 < c1 {
      RowCard(y, c0, c1 - 1);
      assert Block(y, y + 1, c0, c1) == Block(y, y + 1, c0, c1 - 1) + {RowCol(y, c1 - 1)};
    } else {
      assert Block(y, y + 1, c0, c1) == {};
    }
  }

  lemma {:induction false} SpanCard(r0: int, r1: int, c0: int, c1: int)
    requires r0 <= r1 && c0 <= c1
    ensures |Block(r0, r1, c0, c1)| == (r1 - r0) * (c1 - c0)
    decreases r1 - r0
  {
    if r0 == r1 {
      assert Block(r0, r1, c0, c1) == {};
    } else {
      var upper, last := Block(r0, r1 - 1, c0, c1), Block(r1 - 1, r1, c0, c1);
      SpanCard(r0, r1 - 1, c0, c1);
      RowCard(r1 - 1, c0, c1);
      assert Block(r0, r1, c0, c1) == upper + last;
      assert upper !! last;
      var h, w := r1 - r0, c1 - c0;
      assert (h - 1) * w + w == h * w;
    }
  }

  /** A rectangle of cells has (height * width) members. */
  lemma BlockCard(r0: int, r1: int, c0: int, c1: int)
    ensures |Block(r0, r1, c0, c1)| == Clamp(r1 - r0) * Clamp(c1 - c0)
  {
    if r1 <= r0 || c1 <= c0 {
      assert Block(r0, r1, c0, c1) == {};
    } else {
      SpanCard(r0, r1, c0, c1);
    }
  }

  /**
   * Stamping distinct floor cells with a tile `t` other than floor adds exactly that many
   * `t` cells, takes as many floor cells away, and leaves every other tile's count alone.
   */
  lemma {:induction false} StampCount(g: Grid, marks: seq<RowCol>, t: Tile, u: Tile)
    requires Rect(g) && Distinct(marks) && t != Floor
    requires forall c | c in marks :: InBounds(g, c) && At(g, c) == Floor
    ensures Count(Stamp(g, marks, t), t) == Count(g, t) + |marks|
    ensures Count(Stamp(g, marks, t), Floor) == Count(g, Floor) - |marks|
    ensures u != t && u != Floor ==> Count(Stamp(g, marks, t), u) == Count(g, u)
    decreases |marks|
  {
    if |marks| > 0 {
      var init, last := marks[..|marks| - 1], marks[|marks| - 1];
      assert forall c | c in init :: c in marks;
      StampCount(g, init, t, u);
      var h := Stamp(g, init, t);
      assert last !in init;
      assert At(h, last) == Floor;
      CountAfterWrite(h, last, t, t);
      CountAfterWrite(h, last, t, Floor);
      CountAfterWrite(h, last, t, u);
    }
  }

  /** A board that differs from a walled board only off its border is walled too. */
  lemma BorderKept(g: Grid, h: Grid)
    requires Rect(g) && Rect(h) && |h| == |g| && Width(h) == Width(g) && BorderIsWall(g)
    requires forall c | InBounds(g, c) && OnBorder(g, c) :: At(h, c) == At(g, c)
    ensures BorderIsWall(h)
  {
    forall c | InBounds(h, c) && OnBorder(h, c)
      ensures At(h, c) == Wall
    {
      assert InBounds(g, c) && OnBorder(g, c);
    }
  }

  /** Removing b from a takes away at most |b| elements. */
  lemma CardDiff(a: set<RowCol>, b: set<RowCol>)
    ensures |a - b| >= |a| - |b|
  {
    assert a == (a - b) + (a * b);
    SubsetCard(a * b, b);
  }

  lemma SubsetCard(a: set<RowCol>, b: set<RowCol>)
    requires a <= b
    ensures |a| <= |b|
  {
    assert b == a + (b - a);
  }

  lemma MulMono(a: nat, b: nat, c: nat, d: nat)
    requires a <= c && b <= d
    ensures a * b <= c * d
  {
    assert a * b <= c * b;
    assert c * b <= c * d;
  }

  /** `StampCount` for every tile at once. */
  lemma StampOverFloor(g: Grid, marks: seq<RowCol>, t: Tile)
    requires Rect(g) && Distinct(marks) && t != Floor
    requires forall c | c in marks :: InBounds(g, c) && At(g, c) == Floor
    ensures var h := Stamp(g, marks, t);
            && Count(h, t) == Count(g, t) + |marks|
            && Count(h, Floor) == Count(g, Floor) - |marks|
            && forall u | u != t && u != Floor :: Count(h, u) == Count(g, u)
  {
    StampCount(g, marks, t, t);
    forall u | u != t && u != Floor
      ensures Count(Stamp(g, marks, t), u) == Count(g, u)
    {
      StampCount(g, marks, t, u);
    }
  }

  /** Two boards of one shape that agree on every cell are the same board. */
  lemma GridExt(a: Grid, b: Grid)
    requires Rect(a) && Rect(b) && |a| == |b| && Width(a) == Width(b)
    requires forall c | InBounds(a, c) :: At(a, c) == At(b, c)
    ensures a == b
  {
    forall y | 0 <= y < |a|
      ensures a[y] == b[y]
    {
      forall x | 0 <= x < |a[y]|
        ensures a[y][x] == b[y][x]
      {
        assert At(a, RowCol(y, x)) == At(b, RowCol(y, x));
      }
    }
  }

  /** The array board read back as a list of rows. */
  function Snapshot(a: array2<Tile>): (g: Grid)
    reads a
    ensures Rect(g) && |g| == a.Length0 && (a.Length0 > 0 ==> Width(g) == a.Length1)
    ensures forall c | InBounds(g, c) :: At(g, c) == a[c.row, c.col]
  {
    seq(a.Length0, y requires 0 <= y < a.Length0 reads a =>
      seq(a.Length1, x requires 0 <= x < a.Length1 reads a => a[y, x]))
  }

  /** An array that holds `g` cell for cell reads back as `g`. */
  lemma SnapshotIs(a: array2<Tile>, g: Grid)
    requires Rect(g) && |g| == a.Length0 && (a.Length0 > 0 ==> Width(g) == a.Length1)
    requires forall c | InBounds(g, c) :: a[c.row, c.col] == At(g, c)
    ensures Snapshot(a) == g
  {
    GridExt(Snapshot(a), g);
  }

  lemma StampSnoc(g: Grid, marks: seq<RowCol>, c: RowCol, t: Tile)
    requires Rect(g) && InBounds(g, c)
    ensures Stamp(g, marks + [c], t) == Write(Stamp(g, marks, t), c, t)
  {
    assert (marks + [c])[..|marks|] == marks;
  }

  lemma SliceSnoc(s: seq<RowCol>, a: nat, b: nat)
    requires a <= b < |s|
    ensures s[a..b + 1] == s[a..b] + [s[b]]
  {
  }

  /** What `pop()` leaves of a list it was applied to. */
  lemma PopLeavesPrefix(s: seq<RowCol>, m: nat)
    requires 0 < m <= |s|
    ensures s[..m][..m - 1] == s[..m - 1]
  {
  }

  /**
   * The list of rows that the source passes around and changes in place (`map_data`,
   * `level`), held as a 2-D array. `grid` is its content as a value.
   */
  class Board {
    var cells: array2<Tile>
    ghost var grid: Grid

    ghost predicate Valid()
      reads this, cells
    {
      && Rect(grid) && |grid| == cells.Length0 && (|grid| > 0 ==> Width(grid) == cells.Length1)
      && forall c | InBounds(grid, c) :: cells[c.row, c.col] == At(grid, c)
    }

    /** A board holding the given rows. */
    constructor (rows: Grid)
      requires Rect(rows)
      ensures Valid() && grid == rows && fresh(cells)
    {
      cells := new Tile[|rows|, Width(rows)]((y, x) requires 0 <= y < |rows| && 0 <= x < Width(rows) => rows[y][x]);
      grid := rows;
    }

    /** The rows, read out of the array. */
    method Rows() returns (g: Grid)
      requires Valid()
      ensures g == grid
    {
      g := Snapshot(cells);
      SnapshotIs(cells, grid);
    }

    /** `level[row][col]`. */
    method Get(c: RowCol) returns (t: Tile)
      requires Valid() && InBounds(grid, c)
      ensures t == At(grid, c)
    {
      t := cells[c.row, c.col];
    }

    /** `level[row][col] = t`. */
    method Put(c: RowCol, t: Tile)
      requires Valid() && InBounds(grid, c)
      modifies this, cells
      ensures Valid() && cells == old(cells)
      ensures grid == Write(old(grid), c, t)
    {
      cells[c.row, c.col] := t;
      grid := Write(grid, c, t);
    }
  }
}
