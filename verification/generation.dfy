/**
 * Level generation: an empty walled board, then a player and the goals on shuffled floor
 * cells, then one box per goal on shuffled floor cells that touch no wall.
 *
 * `random.shuffle` is not modelled; the caller supplies the permutation it would have
 * produced (`shuffle(n)` is a permutation of 0..n-1 for every length n). `pop()` hands
 * out the last element of the shuffled list first, and fails with `IndexError` on an
 * empty list, which is the only way generation fails.
 */
module Generation {
  import opened Wrappers
  import opened Tiles
  import opened Grids

  /** A width x height board whose outer ring is wall and whose inside is floor. */
  function CreateEmptyMap(width: int, height: int): (g: Grid)
    ensures Rect(g) && |g| == Clamp(height) && (|g| > 0 ==> Width(g) == Clamp(width))
    ensures BorderIsWall(g)
    ensures forall c | InBounds(g, c) && !OnBorder(g, c) :: At(g, c) == Floor
  {
    var g := seq(Clamp(height), y =>
      seq(Clamp(width), x =>
        if x == 0 || x == width - 1 || y == 0 || y == height - 1 then Wall else Floor));
    assert forall y | 0 <= y < |g| :: |g[y]| == Clamp(width);
    g
  }

  /** The floor cells of the empty map are exactly its inside cells... */
  lemma EmptyMapFloorCells(width: int, height: int)
    ensures CellsOf(CreateEmptyMap(width, height), Floor) == Block(1, height - 1, 1, width - 1)
  {
    var g := CreateEmptyMap(width, height);
    var inside := Block(1, height - 1, 1, width - 1);
    forall c
      ensures c in CellsOf(g, Floor) <==> c in inside
    {
      if c in inside {
        assert InBounds(g, c) && !OnBorder(g, c);
      }
    }
  }

  /** ...so it has (width - 2) * (height - 2) of them... */
  lemma EmptyMapFloors(width: int, height: int)
    ensures Count(CreateEmptyMap(width, height), Floor) == Clamp(width - 2) * Clamp(height - 2)
  {
    EmptyMapFloorCells(width, height);
    BlockCard(1, height - 1, 1, width - 1);
  }

  /** ...and nothing but wall and floor. */
  lemma EmptyMapHoldsNoPieces(width: int, height: int, t: Tile)
    requires t != Wall && t != Floor
    ensures Count(CreateEmptyMap(width, height), t) == 0
  {
    assert CellsOf(CreateEmptyMap(width, height), t) == {};
  }

  /** Everything the later stages use about the empty map. */
  ghost predicate EmptyMapFacts(g: Grid, width: int, height: int)
  {
    && Rect(g) && |g| == Clamp(height) && (|g| > 0 ==> Width(g) == Clamp(width))
    && BorderIsWall(g)
    && (forall c | InBounds(g, c) && !OnBorder(g, c) :: At(g, c) == Floor)
    && Count(g, Floor) == Clamp(width - 2) * Clamp(height - 2)
    && (forall t | t != Wall && t != Floor :: Count(g, t) == 0)
  }

  lemma EmptyMapHasFacts(width: int, height: int)
    ensures EmptyMapFacts(CreateEmptyMap(width, height), width, height)
  {
    EmptyMapFloors(width, height);
    forall t | t != Wall && t != Floor
      ensures Count(CreateEmptyMap(width, height), t) == 0
    {
      EmptyMapHoldsNoPieces(width, height, t);
    }
  }

  function Abs(n: int): nat
  {
    if n < 0 then -n else n
  }

  /** Manhattan distance between two cells; the orthogonal neighbours are those at distance 1. */
  function Distance(a: RowCol, b: RowCol): nat
  {
    Abs(a.row - b.row) + Abs(a.col - b.col)
  }

  /** Whether any of the four orthogonal neighbours of (y, x) is a wall. */
  function IsAdjacentToWall(g: Grid, y: int, x: int): (r: bool)
    requires Rect(g) && 0 < y < |g| - 1 && 0 < x < Width(g) - 1
    ensures r <==> exists c | InBounds(g, c) && Distance(c, RowCol(y, x)) == 1 :: At(g, c) == Wall
  {
    var adjacent := [RowCol(y - 1, x), RowCol(y + 1, x), RowCol(y, x - 1), RowCol(y, x + 1)];
    assert forall c | Distance(c, RowCol(y, x)) == 1 :: c in adjacent;
    exists i | 0 <= i < |adjacent| :: At(g, adjacent[i]) == Wall
  }

  /** The two free-space comprehensions: every floor cell, or floor cells touching no wall. */
  datatype Pool = AnyFloor | AwayFromWalls

  predicate Keeps(g: Grid, pool: Pool, c: RowCol)
    requires Rect(g) && InBounds(g, c) && (pool == AwayFromWalls ==> BorderIsWall(g))
  {
    At(g, c) == Floor && (pool == AwayFromWalls ==> !IsAdjacentToWall(g, c.row, c.col))
  }

  /** Whether c is at or after (y, x) in row-major order. */
  predicate Later(c: RowCol, y: int, x: int)
  {
    c.row > y || (c.row == y && c.col >= x)
  }

  predicate Before(a: RowCol, b: RowCol)
  {
    a.row < b.row || (a.row == b.row && a.col < b.col)
  }

  predicate Sorted(s: seq<RowCol>)
  {
    forall i, j | 0 <= i < j < |s| :: Before(s[i], s[j])
  }

  /** The cells from (y, x) on that `pool` keeps, in the row-major order of `enumerate`. */
  function Scan(g: Grid, pool: Pool, y: nat, x: nat): (s: seq<RowCol>)
    requires Rect(g) && (pool == AwayFromWalls ==> BorderIsWall(g)) && x <= Width(g)
    ensures forall c :: c in s <==> InBounds(g, c) && Later(c, y, x) && Keeps(g, pool, c)
    ensures Sorted(s)
    decreases |g| - y, Width(g) - x
  {
    if y >= |g| then []
    else if x == Width(g) then Scan(g, pool, y + 1, 0)
    else
      var rest := Scan(g, pool, y, x + 1);
      assert forall j | 0 <= j < |rest| :: rest[j] in rest;
      (if Keeps(g, pool, RowCol(y, x)) then [RowCol(y, x)] else []) + rest
  }

  /** `free_spaces` of `place_player_and_goals`: every floor cell, each once. */
  function FloorCells(g: Grid): (s: seq<RowCol>)
    requires Rect(g)
    ensures forall c :: c in s <==> InBounds(g, c) && At(g, c) == Floor
    ensures Distinct(s)
  {
    Scan(g, AnyFloor, 0, 0)
  }

  /** `free_spaces` of `place_boxes`: every floor cell with no wall beside it, each once. */
  function BoxCandidates(g: Grid): (s: seq<RowCol>)
    requires Rect(g) && BorderIsWall(g)
    ensures forall c :: c in s <==>
      InBounds(g, c) && At(g, c) == Floor && !IsAdjacentToWall(g, c.row, c.col)
    ensures Distinct(s)
  {
    Scan(g, AwayFromWalls, 0, 0)
  }

  /** The free-space list of floor cells is as long as there are floor cells. */
  lemma FloorCellsCount(g: Grid)
    requires Rect(g)
    ensures |FloorCells(g)| == Count(g, Floor)
  {
    var s := FloorCells(g);
    assert Elems(s) == CellsOf(g, Floor);
    DistinctCard(s);
  }

  predicate IsPermutation(p: seq<nat>, n: nat)
  {
    && |p| == n
    && (forall i | 0 <= i < n :: p[i] < n)
    && (forall i, j | 0 <= i < j < n :: p[i] != p[j])
  }

  /** What `random.shuffle` may do: rearrange a list of any length by some permutation. */
  ghost predicate IsShuffle(shuffle: nat -> seq<nat>)
  {
    forall n: nat :: IsPermutation(shuffle(n), n)
  }

  /** The list whose i-th element is the p[i]-th element of s. */
  function Permute(s: seq<RowCol>, p: seq<nat>): (r: seq<RowCol>)
    requires IsPermutation(p, |s|)
    ensures |r| == |s|
  {
    seq(|s|, i requires 0 <= i < |s| => s[p[i]])
  }

  /** The list without its m-th element. */
  function Without(s: seq<RowCol>, m: nat): (r: seq<RowCol>)
    requires m < |s|
    ensures |r| == |s| - 1 && multiset(r) + multiset{s[m]} == multiset(s)
    ensures forall i | 0 <= i < |s| && i != m :: r[if i < m then i else i - 1] == s[i]
  {
    assert s == s[..m] + [s[m]] + s[m + 1..];
    s[..m] + s[m + 1..]
  }

  /** The indices of a permutation of n that ends with m, renumbered to skip m. */
  function Renumbered(p: seq<nat>, n: nat): (q: seq<nat>)
    requires n > 0 && IsPermutation(p, n)
    ensures IsPermutation(q, n - 1)
    ensures forall i | 0 <= i < n - 1 :: q[i] == if p[i] < p[n - 1] then p[i] else p[i] - 1
  {
    var m := p[n - 1];
    var q := seq(n - 1, i requires 0 <= i < n - 1 => if p[i] < m then p[i] else p[i] - 1);
    assert forall i | 0 <= i < n - 1 :: p[i] != m;
    q
  }

  /**
   * The last element of a rearrangement is s[m], where m ends the permutation; what comes
   * before it is a rearrangement of s without its m-th element.
   */
  lemma PermuteLast(s: seq<RowCol>, p: seq<nat>)
    requires |s| > 0 && IsPermutation(p, |s|)
    ensures Permute(s, p) == Permute(Without(s, p[|s| - 1]), Renumbered(p, |s|)) + [s[p[|s| - 1]]]
  {
    var n, m := |s|, p[|s| - 1];
    var rest, q := Without(s, m), Renumbered(p, n);
    forall i | 0 <= i < n - 1
      ensures Permute(s, p)[i] == Permute(rest, q)[i]
    {
      assert p[i] != m;
    }
  }

  /** Rearranging by a permutation keeps every element with its multiplicity. */
  lemma {:induction false} PermuteMultiset(s: seq<RowCol>, p: seq<nat>)
    requires IsPermutation(p, |s|)
    ensures multiset(Permute(s, p)) == multiset(s)
    decreases |s|
  {
    if |s| > 0 {
      var m := p[|s| - 1];
      PermuteMultiset(Without(s, m), Renumbered(p, |s|));
      PermuteLast(s, p);
    }
  }

  /** A list after `random.shuffle`, with the permutation supplied from outside. */
  function Shuffled(s: seq<RowCol>, shuffle: nat -> seq<nat>): (r: seq<RowCol>)
    requires IsShuffle(shuffle)
    ensures |r| == |s| && (forall c | c in r :: c in s) && (Distinct(s) ==> Distinct(r))
  {
    var p := shuffle(|s|);
    assert IsPermutation(p, |s|);
    Permute(s, p)
  }

  /** Shuffling rearranges: every element stays, as often as it occurred. */
  lemma ShuffledKeepsElements(s: seq<RowCol>, shuffle: nat -> seq<nat>)
    requires IsShuffle(shuffle)
    ensures multiset(Shuffled(s, shuffle)) == multiset(s)
  {
    PermuteMultiset(s, shuffle(|s|));
  }

  /** The order in which repeated `pop()` hands out the elements of a list: last first. */
  function PopOrder(s: seq<RowCol>): (r: seq<RowCol>)
    ensures |r| == |s| && forall i | 0 <= i < |s| :: r[i] == s[|s| - 1 - i]
  {
    seq(|s|, i requires 0 <= i < |s| => s[|s| - 1 - i])
  }

  /** The cells a shuffled free-space list hands out, in order, with what they inherit from it. */
  function PopSequence(pool: seq<RowCol>, shuffle: nat -> seq<nat>): (r: seq<RowCol>)
    requires IsShuffle(shuffle)
    ensures |r| == |pool| && (forall c | c in r :: c in pool) && (Distinct(pool) ==> Distinct(r))
  {
    var s := Shuffled(pool, shuffle);
    var r := PopOrder(s);
    assert forall i | 0 <= i < |r| :: r[i] in s;
    assert Distinct(s) ==> Distinct(r) by {
      if Distinct(s) {
        forall i, j | 0 <= i < j < |r|
          ensures r[i] != r[j]
        {
          assert r[i] == s[|s| - 1 - i] && r[j] == s[|s| - 1 - j];
        }
      }
    }
    r
  }

  /**
   * What placing a player and goals on the distinct floor cells `player` and `goals` of `g`
   * has done when it yields `h`: those cells now hold the player and the goals, every other
   * cell is as it was, and the tile counts moved accordingly.
   */
  ghost predicate PlayerAndGoalsPlaced(g: Grid, h: Grid, player: RowCol, goals: seq<RowCol>)
  {
    && Rect(g) && Rect(h) && |h| == |g| && Width(h) == Width(g)
    && Distinct([player] + goals)
    && InBounds(g, player) && At(g, player) == Floor
    && (forall c | c in goals :: InBounds(g, c) && At(g, c) == Floor)
    && (forall c | InBounds(g, c) ::
          At(h, c) == if c == player then Player else if c in goals then Goal else At(g, c))
    && Count(h, Player) == Count(g, Player) + 1
    && Count(h, Goal) == Count(g, Goal) + |goals|
    && Count(h, Floor) == Count(g, Floor) - 1 - |goals|
    && (forall u | u != Player && u != Goal && u != Floor :: Count(h, u) == Count(g, u))
  }

  /** Splits the distinctness of a player cell followed by goal cells. */
  lemma DistinctCons(player: RowCol, goals: seq<RowCol>)
    requires Distinct([player] + goals)
    ensures Distinct(goals) && player !in goals
  {
    forall c | c in goals
      ensures c != player
    {
      var j :| 0 <= j < |goals| && goals[j] == c;
      assert ([player] + goals)[0] == player && ([player] + goals)[j + 1] == c;
    }
    forall i, j | 0 <= i < j < |goals|
      ensures goals[i] != goals[j]
    {
      assert ([player] + goals)[i + 1] == goals[i] && ([player] + goals)[j + 1] == goals[j];
    }
  }

  /** Stamping a player cell and then distinct goal cells, all of them floor, places them as said. */
  lemma PlayerAndGoalsStamped(g: Grid, player: RowCol, goals: seq<RowCol>)
    requires Rect(g) && Distinct([player] + goals)
    requires InBounds(g, player) && At(g, player) == Floor
    requires forall c | c in goals :: InBounds(g, c) && At(g, c) == Floor
    ensures PlayerAndGoalsPlaced(g, Stamp(Stamp(g, [player], Player), goals, Goal), player, goals)
  {
    DistinctCons(player, goals);
    StampedCells(g, player, goals);
    StampedCounts(g, player, goals);
  }

  lemma StampedCells(g: Grid, player: RowCol, goals: seq<RowCol>)
    requires Rect(g) && player !in goals
    ensures var h := Stamp(Stamp(g, [player], Player), goals, Goal);
            forall c | InBounds(g, c) ::
              At(h, c) == if c == player then Player else if c in goals then Goal else At(g, c)
  {
  }

  lemma StampedCounts(g: Grid, player: RowCol, goals: seq<RowCol>)
    requires Rect(g) && Distinct(goals) && player !in goals
    requires InBounds(g, player) && At(g, player) == Floor
    requires forall c | c in goals :: InBounds(g, c) && At(g, c) == Floor
    ensures var h := Stamp(Stamp(g, [player], Player), goals, Goal);
            && Count(h, Player) == Count(g, Player) + 1
            && Count(h, Goal) == Count(g, Goal) + |goals|
            && Count(h, Floor) == Count(g, Floor) - 1 - |goals|
            && (forall u | u != Player && u != Goal && u != Floor :: Count(h, u) == Count(g, u))
  {
    var g1 := Stamp(g, [player], Player);
    StampOverFloor(g, [player], Player);
    forall c | c in goals
      ensures InBounds(g1, c) && At(g1, c) == Floor
    {
      assert c != player;
    }
    StampOverFloor(g1, goals, Goal);
  }

  /**
   * The board after the first k cells that `pop()` hands out went in: the first as the
   * player, the rest as goals.
   */
  ghost function PlacedPrefix(g: Grid, pops: seq<RowCol>, k: nat): Grid
    requires Rect(g) && k <= |pops|
  {
    if k == 0 then g else Stamp(Stamp(g, [pops[0]], Player), pops[1..k], Goal)
  }

  /**
   * `place_player_and_goals` as a value: what it returns (or that it raises) and the board
   * it leaves behind, which on failure holds the cells written before the failing `pop()`.
   */
  ghost function PlayerAndGoals(g: Grid, numGoals: int, shuffle: nat -> seq<nat>)
    : (Result<(RowCol, seq<RowCol>)>, Grid)
    requires Rect(g) && IsShuffle(shuffle)
  {
    var pops := PopSequence(FloorCells(g), shuffle);
    var n := Clamp(numGoals);
    (if |pops| >= 1 + n then Ok((pops[0], pops[1..1 + n])) else IndexError,
     PlacedPrefix(g, pops, Min(|pops|, 1 + n)))
  }

  /**
   * `place_player_and_goals` succeeds exactly when the board has a floor cell for the player
   * and one for each goal, and then places them as `PlayerAndGoalsPlaced` says, with exactly
   * `numGoals` goals.
   */
  lemma PlayerAndGoalsEffect(g: Grid, numGoals: int, shuffle: nat -> seq<nat>)
    requires Rect(g) && IsShuffle(shuffle)
    ensures var (r, h) := PlayerAndGoals(g, numGoals, shuffle);
            && (r.Ok? <==> Count(g, Floor) >= 1 + Clamp(numGoals))
            && (r.Ok? ==> |r.value.1| == Clamp(numGoals) && PlayerAndGoalsPlaced(g, h, r.value.0, r.value.1))
  {
    FloorCellsCount(g);
    var pops := PopSequence(FloorCells(g), shuffle);
    var n := Clamp(numGoals);
    if |pops| >= 1 + n {
      var h := PlacedPrefix(g, pops, 1 + n);
      assert PlayerAndGoals(g, numGoals, shuffle) == (Ok((pops[0], pops[1..1 + n])), h);
      PopsPlaced(g, pops, n);
    }
  }

  /** The same for the first 1 + n cells handed out of any list of distinct floor cells. */
  lemma PopsPlaced(g: Grid, pops: seq<RowCol>, n: nat)
    requires Rect(g) && Distinct(pops) && 1 + n <= |pops|
    requires forall c | c in pops :: InBounds(g, c) && At(g, c) == Floor
    ensures PlayerAndGoalsPlaced(g, PlacedPrefix(g, pops, 1 + n), pops[0], pops[1..1 + n])
  {
    var goals := pops[1..1 + n];
    assert [pops[0]] + goals == pops[..1 + n];
    assert forall c | c in goals :: c in pops;
    PlayerAndGoalsStamped(g, pops[0], goals);
  }

  /** Placing the player and goals, even when it fails part way, only writes over floor cells. */
  lemma PlayerAndGoalsKeepBorder(g: Grid, numGoals: int, shuffle: nat -> seq<nat>)
    requires Rect(g) && BorderIsWall(g) && IsShuffle(shuffle)
    ensures BorderIsWall(PlayerAndGoals(g, numGoals, shuffle).1)
  {
    var pops := PopSequence(FloorCells(g), shuffle);
    var k := Min(|pops|, 1 + Clamp(numGoals));
    var h := PlayerAndGoals(g, numGoals, shuffle).1;
    if k > 0 {
      var g1 := Stamp(g, [pops[0]], Player);
      forall c | InBounds(g, c) && OnBorder(g, c)
        ensures At(h, c) == At(g, c)
      {
        assert c != pops[0] && c !in pops[1..k];
        assert At(g1, c) == At(g, c);
      }
    }
    BorderKept(g, h);
  }

  /** Popping the last element of the list prefix full[..m] yields the (|full| - m)-th cell handed out. */
  lemma PopAt(full: seq<RowCol>, m: nat)
    requires 0 < m <= |full|
    ensures full[m - 1] == PopOrder(full)[|full| - m]
  {
  }

  /** After the first `pop()`, the remaining list hands out the rest of the cells in the same order. */
  lemma PopOrderAfterPop(full: seq<RowCol>, k: nat)
    requires 0 < |full| && k < |full|
    ensures PopOrder(full[..|full| - 1])[..k] == PopOrder(full)[1..1 + k]
  {
  }

  /**
   * The loop both placement functions run: n times, pops a cell off the end of `free` and
   * writes t into it; raises `IndexError` once `free` runs dry, leaving the cells written so far.
   */
  method PopInto(board: Board, free: seq<RowCol>, n: nat, t: Tile) returns (r: Result<seq<RowCol>>)
    requires board.Valid() && forall c | c in free :: InBounds(board.grid, c)
    modifies board, board.cells
    ensures board.Valid() && board.cells == old(board.cells)
    ensures (r.Ok? <==> n <= |free|) && (r.Ok? ==> r.value == PopOrder(free)[..n])
    ensures board.grid == Stamp(old(board.grid), PopOrder(free)[..Min(|free|, n)], t)
  {
    ghost var g := board.grid;
    ghost var pops := PopOrder(free);
    var rest := free;
    var popped := [];
    for i := 0 to n
      invariant board.Valid() && board.cells == old(board.cells)
      invariant |rest| + i == |free| && rest == free[..|rest|]
      invariant popped == pops[..i]
      invariant board.grid == Stamp(g, popped, t)
    {
      if |rest| == 0 {
        return IndexError;
      }
      PopAt(free, |rest|);
      var c := rest[|rest| - 1];
      PopLeavesPrefix(free, |rest|);
      rest := rest[..|rest| - 1];
      assert c in free;
      board.Put(c, t);
      StampSnoc(g, popped, c, t);
      SliceSnoc(pops, 0, i);
      popped := popped + [c];
    }
    return Ok(popped);
  }

  /**
   * Pops a player cell and then `numGoals` goal cells off the shuffled list of floor cells,
   * writing each into the board as it goes. The player cell comes back in (row, col) order.
   */
  method PlacePlayerAndGoals(board: Board, numGoals: int, shuffle: nat -> seq<nat>)
    returns (r: Result<(RowCol, seq<RowCol>)>)
    requires board.Valid() && IsShuffle(shuffle)
    modifies board, board.cells
    ensures board.Valid() && board.cells == old(board.cells)
    ensures (r, board.grid) == PlayerAndGoals(old(board.grid), numGoals, shuffle)
  {
    ghost var g := board.grid;
    var rows := board.Rows();
    var freeSpaces := Shuffled(FloorCells(rows), shuffle);
    ghost var pops := PopOrder(freeSpaces);
    if |freeSpaces| == 0 {
      return IndexError;
    }
    PopAt(freeSpaces, |freeSpaces|);
    var player := freeSpaces[|freeSpaces| - 1];
    var rest := freeSpaces[..|freeSpaces| - 1];
    board.Put(player, Player);
    assert Stamp(g, [], Player) == g;
    assert board.grid == Stamp(g, [player], Player) by {
      assert Stamp(g, [player], Player) == Write(Stamp(g, [], Player), player, Player);
    }
    var count := Clamp(numGoals);
    ghost var m := Min(|rest|, count);
    ghost var g1 := board.grid;
    var goals := PopInto(board, rest, count, Goal);
    PopOrderAfterPop(freeSpaces, m);
    assert Min(|pops|, 1 + count) == 1 + m;
    assert board.grid == PlacedPrefix(g, pops, 1 + m) by {
      assert board.grid == Stamp(g1, pops[1..1 + m], Goal);
    }
    if goals.IndexError? {
      return IndexError;
    }
    return Ok((player, goals.value));
  }

  /** `place_boxes` as a value: whether it raises, and the board it leaves behind. */
  ghost function Boxes(g: Grid, count: nat, shuffle: nat -> seq<nat>): (Result<()>, Grid)
    requires Rect(g) && BorderIsWall(g) && IsShuffle(shuffle)
  {
    var boxes := PopSequence(BoxCandidates(g), shuffle);
    (if count <= |boxes| then Ok(()) else IndexError, Stamp(g, boxes[..Min(|boxes|, count)], Box))
  }

  /**
   * Pops one box cell per goal off the shuffled list of floor cells that touch no wall,
   * writing a box into each. Raises `IndexError` when there are fewer such cells than goals.
   */
  method PlaceBoxes(board: Board, goals: seq<RowCol>, shuffle: nat -> seq<nat>) returns (r: Result<()>)
    requires board.Valid() && BorderIsWall(board.grid) && IsShuffle(shuffle)
    modifies board, board.cells
    ensures board.Valid() && board.cells == old(board.cells)
    ensures (r, board.grid) == Boxes(old(board.grid), |goals|, shuffle)
  {
    var rows := board.Rows();
    var freeSpaces := Shuffled(BoxCandidates(rows), shuffle);
    var boxes := PopInto(board, freeSpaces, |goals|, Box);
    if boxes.IndexError? {
      return IndexError;
    }
    return Ok(());
  }

  /**
   * What putting the distinct boxes `boxes` on a walled board `g` has done when it yields `h`:
   * each box went on a cell that was floor with no wall beside it, every other cell is as it
   * was, there are |boxes| more boxes and as many fewer floor cells, no other tile's count
   * changed, and the border is still wall.
   */
  ghost predicate BoxesPlaced(g: Grid, h: Grid, boxes: seq<RowCol>)
  {
    && Rect(g) && BorderIsWall(g) && Rect(h) && |h| == |g| && Width(h) == Width(g)
    && Distinct(boxes)
    && (forall c | c in boxes ::
          InBounds(g, c) && At(g, c) == Floor && !IsAdjacentToWall(g, c.row, c.col))
    && (forall c | InBounds(g, c) :: At(h, c) == if c in boxes then Box else At(g, c))
    && Count(h, Box) == Count(g, Box) + |boxes|
    && Count(h, Floor) == Count(g, Floor) - |boxes|
    && (forall u | u != Box && u != Floor :: Count(h, u) == Count(g, u))
    && BorderIsWall(h)
  }

  /**
   * `place_boxes` succeeds exactly when there are at least as many floor cells with no wall
   * beside them as goals, and then places exactly one box per goal as `BoxesPlaced` says;
   * when it fails, the boxes it did place are placed the same way.
   */
  lemma BoxesEffect(g: Grid, n: nat, shuffle: nat -> seq<nat>)
    requires Rect(g) && BorderIsWall(g) && IsShuffle(shuffle)
    ensures var (r, h) := Boxes(g, n, shuffle);
            var boxes := PopSequence(BoxCandidates(g), shuffle)[..Min(|BoxCandidates(g)|, n)];
            && (r.Ok? <==> n <= |BoxCandidates(g)|)
            && (r.Ok? ==> |boxes| == n)
            && BoxesPlaced(g, h, boxes)
  {
    var pops := PopSequence(BoxCandidates(g), shuffle);
    var boxes := pops[..Min(|pops|, n)];
    BoxesDrawn(g, shuffle, Min(|pops|, n));
    StampOverFloor(g, boxes, Box);
    BorderKept(g, Stamp(g, boxes, Box));
  }

  /** The first k cells handed out of the shuffled box candidates are distinct candidates. */
  lemma BoxesDrawn(g: Grid, shuffle: nat -> seq<nat>, k: nat)
    requires Rect(g) && BorderIsWall(g) && IsShuffle(shuffle)
    requires k <= |PopSequence(BoxCandidates(g), shuffle)|
    ensures var boxes := PopSequence(BoxCandidates(g), shuffle)[..k];
            && Distinct(boxes)
            && forall c | c in boxes ::
                 InBounds(g, c) && At(g, c) == Floor && !IsAdjacentToWall(g, c.row, c.col)
  {
    var pops := PopSequence(BoxCandidates(g), shuffle);
    assert forall c | c in pops[..k] :: c in pops;
  }

  /** What `generate_sokoban_map` returns: the board, the player cell in (row, col) order, `len(goals)`. */
  datatype Generated = Generated(board: Board, player: RowCol, goalCount: nat)

  /**
   * Generation as a value: the empty map, then the player and goals off the first
   * shuffled list, then the boxes off the second.
   */
  ghost function Generate(width: int, height: int, numGoals: int,
                          shuffle1: nat -> seq<nat>, shuffle2: nat -> seq<nat>): Result<(Grid, RowCol, nat)>
    requires IsShuffle(shuffle1) && IsShuffle(shuffle2)
  {
    var g0 := CreateEmptyMap(width, height);
    var (r1, g1) := PlayerAndGoals(g0, numGoals, shuffle1);
    if r1.IndexError? then IndexError
    else
      PlayerAndGoalsKeepBorder(g0, numGoals, shuffle1);
      var (r2, g2) := Boxes(g1, |r1.value.1|, shuffle2);
      if r2.IndexError? then IndexError else Ok((g2, r1.value.0, |r1.value.1|))
  }

  /**
   * Builds a board, places the player and goals, then the boxes. Fails exactly when one of
   * the two placements runs out of cells.
   */
  method GenerateSokobanMap(width: int, height: int, numGoals: int,
                            shuffle1: nat -> seq<nat>, shuffle2: nat -> seq<nat>)
    returns (r: Result<Generated>)
    requires IsShuffle(shuffle1) && IsShuffle(shuffle2)
    ensures r.Ok? <==> Generate(width, height, numGoals, shuffle1, shuffle2).Ok?
    ensures r.Ok? ==>
      && fresh(r.value.board) && fresh(r.value.board.cells) && r.value.board.Valid()
      && (r.value.board.grid, r.value.player, r.value.goalCount)
         == Generate(width, height, numGoals, shuffle1, shuffle2).value
  {
    var board := new Board(CreateEmptyMap(width, height));
    ghost var g0 := board.grid;
    PlayerAndGoalsKeepBorder(g0, numGoals, shuffle1);
    var placed := PlacePlayerAndGoals(board, numGoals, shuffle1);
    if placed.IndexError? {
      return IndexError;
    }
    var goals := placed.value.1;
    var boxed := PlaceBoxes(board, goals, shuffle2);
    if boxed.IndexError? {
      return IndexError;
    }
    return Ok(Generated(board, placed.value.0, |goals|));
  }

  /** With fewer inside cells than the player and goals need, generation raises. */
  lemma GenerateFailsWhenCrowded(width: int, height: int, numGoals: int,
                                 shuffle1: nat -> seq<nat>, shuffle2: nat -> seq<nat>)
    requires IsShuffle(shuffle1) && IsShuffle(shuffle2)
    requires Clamp(width - 2) * Clamp(height - 2) < 1 + Clamp(numGoals)
    ensures Generate(width, height, numGoals, shuffle1, shuffle2).IndexError?
  {
    EmptyMapFloors(width, height);
    PlayerAndGoalsEffect(CreateEmptyMap(width, height), numGoals, shuffle1);
  }

  /**
   * A generated board has the requested size, a wall border, the player on the returned
   * cell, exactly one player, n goals and n boxes, floor everywhere else inside, and no
   * box-on-goal or player-on-goal tile; the returned count is n.
   */
  lemma GeneratedBoard(width: int, height: int, numGoals: int,
                       shuffle1: nat -> seq<nat>, shuffle2: nat -> seq<nat>)
    requires IsShuffle(shuffle1) && IsShuffle(shuffle2)
    requires Generate(width, height, numGoals, shuffle1, shuffle2).Ok?
    ensures var (g, player, count) := Generate(width, height, numGoals, shuffle1, shuffle2).value;
            GoodBoard(g, player, width, height, count) && count == Clamp(numGoals)
  {
    var g0 := CreateEmptyMap(width, height);
    EmptyMapHasFacts(width, height);
    var (r1, g1) := PlayerAndGoals(g0, numGoals, shuffle1);
    PlayerAndGoalsEffect(g0, numGoals, shuffle1);
    PlayerAndGoalsKeepBorder(g0, numGoals, shuffle1);
    var n := |r1.value.1|;
    BoxesEffect(g1, n, shuffle2);
    var boxes := PopSequence(BoxCandidates(g1), shuffle2)[..Min(|BoxCandidates(g1)|, n)];
    StagesAddUp(g0, g1, Boxes(g1, n, shuffle2).1, r1.value.0, r1.value.1, boxes, width, height);
  }

  /**
   * A board as generation promises it: width x height, a wall border, the player on
   * `player`, exactly one player, n goals and n boxes, floor on every other inside cell,
   * and no box-on-goal or player-on-goal tile.
   */
  ghost predicate GoodBoard(g: Grid, player: RowCol, width: int, height: int, n: nat)
  {
    && Rect(g) && |g| == Clamp(height) && Width(g) == Clamp(width)
    && BorderIsWall(g)
    && InBounds(g, player) && At(g, player) == Player
    && Count(g, Player) == 1 && Count(g, Goal) == n && Count(g, Box) == n
    && Count(g, Floor) == Clamp(width - 2) * Clamp(height - 2) - 1 - 2 * n
    && Count(g, BoxOnGoal) == 0 && Count(g, PlayerOnGoal) == 0
  }

  /** The two placement stages on the empty map add up to a board as generation promises it. */
  lemma StagesAddUp(g0: Grid, g1: Grid, g2: Grid, player: RowCol, goals: seq<RowCol>,
                    boxes: seq<RowCol>, width: int, height: int)
    requires EmptyMapFacts(g0, width, height)
    requires PlayerAndGoalsPlaced(g0, g1, player, goals) && BorderIsWall(g1)
    requires BoxesPlaced(g1, g2, boxes) && |boxes| == |goals|
    ensures GoodBoard(g2, player, width, height, |goals|)
  {
    GoalsStage(g0, g1, player, goals, width, height);
    BoxStage(g1, g2, player, boxes, width, height, |goals|);
  }

  /** The empty map after the player and n goals: its counts. */
  lemma GoalsStage(g0: Grid, g1: Grid, player: RowCol, goals: seq<RowCol>, width: int, height: int)
    requires EmptyMapFacts(g0, width, height)
    requires PlayerAndGoalsPlaced(g0, g1, player, goals)
    ensures Rect(g1) && |g1| == Clamp(height) && Width(g1) == Clamp(width)
    ensures InBounds(g1, player) && At(g1, player) == Player
    ensures Count(g1, Player) == 1 && Count(g1, Goal) == |goals| && Count(g1, Box) == 0
    ensures Count(g1, BoxOnGoal) == 0 && Count(g1, PlayerOnGoal) == 0
    ensures Count(g1, Floor) == Clamp(width - 2) * Clamp(height - 2) - 1 - |goals|
  {
    assert InBounds(g0, player);
    assert Count(g0, Player) == 0 && Count(g0, Goal) == 0 && Count(g0, Box) == 0;
    assert Count(g0, BoxOnGoal) == 0 && Count(g0, PlayerOnGoal) == 0;
  }

  /** That board after n boxes is a board as generation promises it. */
  lemma BoxStage(g1: Grid, g2: Grid, player: RowCol, boxes: seq<RowCol>, width: int, height: int, n: nat)
    requires Rect(g1) && |g1| == Clamp(height) && Width(g1) == Clamp(width)
    requires InBounds(g1, player) && At(g1, player) == Player
    requires Count(g1, Player) == 1 && Count(g1, Goal) == n && Count(g1, Box) == 0
    requires Count(g1, BoxOnGoal) == 0 && Count(g1, PlayerOnGoal) == 0
    requires Count(g1, Floor) == Clamp(width - 2) * Clamp(height - 2) - 1 - n
    requires BoxesPlaced(g1, g2, boxes) && |boxes| == n
    ensures GoodBoard(g2, player, width, height, n)
  {
    assert player !in boxes;
    assert Count(g2, Player) == Count(g1, Player) && Count(g2, Goal) == Count(g1, Goal);
    assert Count(g2, BoxOnGoal) == Count(g1, BoxOnGoal);
    assert Count(g2, PlayerOnGoal) == Count(g1, PlayerOnGoal);
  }

  /** A floor cell two steps from the border of a board whose inside has no wall is a box candidate. */
  lemma DeepCellIsCandidate(g1: Grid, c: RowCol)
    requires Rect(g1) && BorderIsWall(g1)
    requires forall d | InBounds(g1, d) && !OnBorder(g1, d) :: At(g1, d) != Wall
    requires 2 <= c.row < |g1| - 2 && 2 <= c.col < Width(g1) - 2 && At(g1, c) == Floor
    ensures c in BoxCandidates(g1)
  {
    forall d | InBounds(g1, d) && Distance(d, c) == 1
      ensures At(g1, d) != Wall
    {
      assert !OnBorder(g1, d);
    }
  }

  /** Placing the player and goals on the empty map puts no wall inside it. */
  lemma NoWallInside(g0: Grid, g1: Grid, player: RowCol, goals: seq<RowCol>, width: int, height: int)
    requires EmptyMapFacts(g0, width, height)
    requires PlayerAndGoalsPlaced(g0, g1, player, goals)
    ensures forall d | InBounds(g1, d) && !OnBorder(g1, d) :: At(g1, d) != Wall
  {
    forall d | InBounds(g1, d) && !OnBorder(g1, d)
      ensures At(g1, d) != Wall
    {
      assert InBounds(g0, d) && !OnBorder(g0, d);
    }
  }

  /** A cell two steps from the border that got neither the player nor a goal is a box candidate. */
  lemma DeepLeftover(g0: Grid, g1: Grid, player: RowCol, goals: seq<RowCol>, width: int, height: int, c: RowCol)
    requires EmptyMapFacts(g0, width, height)
    requires PlayerAndGoalsPlaced(g0, g1, player, goals) && BorderIsWall(g1)
    requires forall d | InBounds(g1, d) && !OnBorder(g1, d) :: At(g1, d) != Wall
    requires 2 <= c.row < height - 2 && 2 <= c.col < width - 2
    requires c != player && c !in goals
    ensures c in BoxCandidates(g1)
  {
    assert |g0| == height && Width(g0) == width;
    assert InBounds(g0, c) && !OnBorder(g0, c);
    assert At(g1, c) == Floor;
    DeepCellIsCandidate(g1, c);
  }

  /**
   * When the cells two steps from the border outnumber the player, the goals and the boxes
   * together, enough box candidates remain once the player and goals are placed.
   */
  lemma CandidatesBound(g0: Grid, g1: Grid, player: RowCol, goals: seq<RowCol>, width: int, height: int)
    requires EmptyMapFacts(g0, width, height)
    requires PlayerAndGoalsPlaced(g0, g1, player, goals) && BorderIsWall(g1)
    requires Clamp(width - 4) * Clamp(height - 4) >= 2 * |goals| + 1
    ensures |BoxCandidates(g1)| >= |goals|
  {
    var placed := [player] + goals;
    var deep := Block(2, height - 2, 2, width - 2);
    NoWallInside(g0, g1, player, goals, width, height);
    forall c | c in deep - Elems(placed)
      ensures c in Elems(BoxCandidates(g1))
    {
      assert c != player && c !in goals;
      DeepLeftover(g0, g1, player, goals, width, height, c);
    }
    BlockCard(2, height - 2, 2, width - 2);
    LeftoverBound(deep, placed, BoxCandidates(g1), |goals|, Clamp(height - 4), Clamp(width - 4));
  }

  /** Taking 1 + n distinct cells out of a set of at least 2n + 1 leaves at least n of them. */
  lemma LeftoverBound(deep: set<RowCol>, placed: seq<RowCol>, candidates: seq<RowCol>,
                      n: nat, rows: nat, cols: nat)
    requires |deep| == rows * cols && cols * rows >= 2 * n + 1
    requires Distinct(placed) && |placed| == 1 + n && Distinct(candidates)
    requires deep - Elems(placed) <= Elems(candidates)
    ensures |candidates| >= n
  {
    assert rows * cols == cols * rows;
    DistinctCard(placed);
    CardDiff(deep, Elems(placed));
    SubsetCard(deep - Elems(placed), Elems(candidates));
    DistinctCard(candidates);
  }

  /**
   * Generation always succeeds when the cells two steps from the border outnumber the
   * player, the goals and the boxes together.
   */
  lemma GenerateSucceeds(width: int, height: int, numGoals: int,
                         shuffle1: nat -> seq<nat>, shuffle2: nat -> seq<nat>)
    requires IsShuffle(shuffle1) && IsShuffle(shuffle2)
    requires Clamp(width - 4) * Clamp(height - 4) >= 2 * Clamp(numGoals) + 1
    ensures Generate(width, height, numGoals, shuffle1, shuffle2).Ok?
  {
    EnoughCandidates(width, height, numGoals, shuffle1);
    var g1 := PlayerAndGoals(CreateEmptyMap(width, height), numGoals, shuffle1).1;
    BoxesEffect(g1, Clamp(numGoals), shuffle2);
  }

  /**
   * When the cells two steps from the border outnumber the player, the goals and the boxes,
   * the player and goals fit on the empty map, and enough box candidates remain after them.
   */
  lemma EnoughCandidates(width: int, height: int, numGoals: int, shuffle: nat -> seq<nat>)
    requires IsShuffle(shuffle)
    requires Clamp(width - 4) * Clamp(height - 4) >= 2 * Clamp(numGoals) + 1
    ensures var (r, g1) := PlayerAndGoals(CreateEmptyMap(width, height), numGoals, shuffle);
            && r.Ok? && |r.value.1| == Clamp(numGoals) && BorderIsWall(g1)
            && |BoxCandidates(g1)| >= Clamp(numGoals)
  {
    var g0 := CreateEmptyMap(width, height);
    EmptyMapHasFacts(width, height);
    MulMono(Clamp(width - 4), Clamp(height - 4), Clamp(width - 2), Clamp(height - 2));
    PlayerAndGoalsEffect(g0, numGoals, shuffle);
    PlayerAndGoalsKeepBorder(g0, numGoals, shuffle);
    var (r1, g1) := PlayerAndGoals(g0, numGoals, shuffle);
    CandidatesBound(g0, g1, r1.value.0, r1.value.1, width, height);
  }

  /** The game's own request, a 10 x 10 board with 3 goals, never fails. */
  lemma GameBoardAlwaysGenerates(shuffle1: nat -> seq<nat>, shuffle2: nat -> seq<nat>)
    requires IsShuffle(shuffle1) && IsShuffle(shuffle2)
    ensures Generate(10, 10, 3, shuffle1, shuffle2).Ok?
  {
    GenerateSucceeds(10, 10, 3, shuffle1, shuffle2);
  }
}
