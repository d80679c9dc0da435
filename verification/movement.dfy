/**
 * Moving the player, with box pushing, exactly as `move_player` does it: the player
 * enters only floor, only a plain box is pushed, the square it is pushed onto must be
 * floor or goal, a box pushed onto a goal is written as a plain box, and every square
 * the player leaves becomes floor.
 *
 * `move_player` reads `player_pos` as (x, y) and indexes `level[y][x]`, while generation
 * stores the player as (row, col). Both conventions are kept as they are: `Pos` is the
 * (x, y) pair that movement reads, and `Cell` turns it into the (row, col) address.
 */
module Movement {
  import opened Tiles
  import opened Grids
  import opened Generation

  /** `player_pos` as `move_player` reads it: (x, y). */
  type Pos = (int, int)

  /** The four unit moves of `DIRS`. */
  const DIRS: seq<Pos> := [(0, 1), (1, 0), (0, -1), (-1, 0)]

  /** The square an (x, y) position names: `level[y][x]`. */
  function Cell(p: Pos): RowCol
  {
    RowCol(p.1, p.0)
  }

  function Step(p: Pos, d: Pos): Pos
  {
    (p.0 + d.0, p.1 + d.1)
  }

  /** A square off the border. */
  predicate Inside(g: Grid, c: RowCol)
  {
    0 < c.row < |g| - 1 && 0 < c.col < Width(g) - 1
  }

  /** The part of the game state `move_player` reads and writes: `level`, `player_pos`, `player_history`. */
  datatype Play = Play(level: Grid, pos: Pos, history: seq<Pos>)

  /**
   * What `move_player` needs so that none of its indexing leaves the board: a walled board
   * and a position off the border. Moves keep it (`MoveKeepsMovable`).
   */
  ghost predicate Movable(s: Play)
  {
    Placed(s.level, s.pos)
  }

  /** A walled board with the position off its border. */
  ghost predicate Placed(g: Grid, p: Pos)
  {
    Rect(g) && BorderIsWall(g) && Inside(g, Cell(p))
  }

  /** Movable, and the player tile is where the position says. */
  ghost predicate Playable(s: Play)
  {
    Movable(s) && At(s.level, Cell(s.pos)) == Player
  }

  /** One step from a square off the border stays on the board. */
  lemma StepInBounds(g: Grid, p: Pos, d: Pos)
    requires Rect(g) && Inside(g, Cell(p)) && d in DIRS
    ensures InBounds(g, Cell(Step(p, d)))
  {
  }

  /** On a walled board a box is never on the border, so the square beyond it is on the board. */
  lemma BeyondBoxInBounds(g: Grid, target: Pos, d: Pos)
    requires Rect(g) && BorderIsWall(g) && InBounds(g, Cell(target)) && At(g, Cell(target)) == Box
    requires d in DIRS
    ensures Inside(g, Cell(target)) && InBounds(g, Cell(Step(target, d)))
  {
    assert !OnBorder(g, Cell(target));
  }

  /** The move walks: the target square is floor. */
  predicate Walks(s: Play, d: Pos)
    requires Rect(s.level) && Inside(s.level, Cell(s.pos)) && d in DIRS
  {
    StepInBounds(s.level, s.pos, d);
    At(s.level, Cell(Step(s.pos, d))) == Floor
  }

  /** The move pushes: the target square is a box and the square beyond it is floor or goal. */
  ghost predicate Pushes(s: Play, d: Pos)
    requires Movable(s) && d in DIRS
  {
    var target := Step(s.pos, d);
    StepInBounds(s.level, s.pos, d);
    && At(s.level, Cell(target)) == Box
    && (BeyondBoxInBounds(s.level, target, d);
        At(s.level, Cell(Step(target, d))) in {Floor, Goal})
  }

  /**
   * `move_player(dx, dy)` on values. On a walk or a push the history gains the old position;
   * otherwise nothing changes.
   */
  function MovePlayer(s: Play, d: Pos): (r: Play)
    requires Movable(s) && d in DIRS
    ensures Rect(r.level) && |r.level| == |s.level| && Width(r.level) == Width(s.level)
    ensures r == s || (r.pos == Step(s.pos, d) && r.history == s.history + [s.pos])
  {
    var target := Step(s.pos, d);
    StepInBounds(s.level, s.pos, d);
    var t := At(s.level, Cell(target));
    if t == Floor then
      var l1 := Write(s.level, Cell(s.pos), Floor);
      Play(Write(l1, Cell(target), Player), target, s.history + [s.pos])
    else if t == Box then
      var beyond := Step(target, d);
      BeyondBoxInBounds(s.level, target, d);
      if At(s.level, Cell(beyond)) in {Floor, Goal} then
        var l1 := Write(s.level, Cell(target), Floor);
        var l2 := Write(l1, Cell(beyond), Box);
        var l3 := Write(l2, Cell(s.pos), Floor);
        Play(Write(l3, Cell(target), Player), target, s.history + [s.pos])
      else s
    else s
  }

  /**
   * A move changes nothing at all exactly when it neither walks nor pushes: the target is
   * wall, goal, box-on-goal or anything but floor and box, or it is a box whose far side is
   * not floor or goal.
   */
  lemma MoveNoOp(s: Play, d: Pos)
    requires Movable(s) && d in DIRS
    ensures MovePlayer(s, d) == s <==> !Walks(s, d) && !Pushes(s, d)
  {
    if Walks(s, d) || Pushes(s, d) {
      assert MovePlayer(s, d).pos != s.pos;
    }
  }

  /**
   * A walk: the old square becomes floor, the target becomes the player, the position
   * becomes the target, the history gains the old position, and no other square changes.
   */
  lemma WalkEffect(s: Play, d: Pos)
    requires Movable(s) && d in DIRS && Walks(s, d)
    ensures var r := MovePlayer(s, d);
            var target := Step(s.pos, d);
            && r.pos == target && r.history == s.history + [s.pos]
            && forall c | InBounds(s.level, c) ::
                 At(r.level, c) == if c == Cell(target) then Player
                                   else if c == Cell(s.pos) then Floor
                                   else At(s.level, c)
  {
  }

  /**
   * A push: as a walk, and the square beyond the box becomes a box, even when it was a goal.
   */
  lemma PushEffect(s: Play, d: Pos)
    requires Movable(s) && d in DIRS && Pushes(s, d)
    ensures var r := MovePlayer(s, d);
            var target := Step(s.pos, d);
            var beyond := Step(target, d);
            && r.pos == target && r.history == s.history + [s.pos]
            && forall c | InBounds(s.level, c) ::
                 At(r.level, c) == if c == Cell(target) then Player
                                   else if c == Cell(s.pos) then Floor
                                   else if c == Cell(beyond) then Box
                                   else At(s.level, c)
  {
    var target := Step(s.pos, d);
    var beyond := Step(target, d);
    assert Cell(beyond) != Cell(s.pos) && Cell(beyond) != Cell(target);
  }

  /** Every move leaves the border wall and the player off the border. */
  lemma MoveKeepsMovable(s: Play, d: Pos)
    requires Movable(s) && d in DIRS
    ensures Movable(MovePlayer(s, d))
  {
    var r := MovePlayer(s, d);
    var target := Step(s.pos, d);
    if Walks(s, d) {
      WalkEffect(s, d);
      assert !OnBorder(s.level, Cell(target));
    } else if Pushes(s, d) {
      PushEffect(s, d);
      BeyondBoxInBounds(s.level, target, d);
      assert !OnBorder(s.level, Cell(Step(target, d)));
    } else {
      MoveNoOp(s, d);
    }
    BorderKept(s.level, r.level);
  }

  /** With the player tile under the position, every move keeps it there. */
  lemma MoveKeepsPlayable(s: Play, d: Pos)
    requires Playable(s) && d in DIRS
    ensures Playable(MovePlayer(s, d))
  {
    MoveKeepsMovable(s, d);
    if Walks(s, d) {
      WalkEffect(s, d);
    } else if Pushes(s, d) {
      PushEffect(s, d);
    } else {
      MoveNoOp(s, d);
    }
  }

  /**
   * With the player tile under the position, a move keeps every tile count except that a
   * box pushed onto a goal swallows the goal: one goal fewer, one floor more.
   */
  lemma MoveCounts(s: Play, d: Pos, t: Tile)
    requires Playable(s) && d in DIRS
    ensures var swallowed := Pushes(s, d) && At(s.level, Cell(Step(Step(s.pos, d), d))) == Goal;
            Count(MovePlayer(s, d).level, t)
              == Count(s.level, t) + (if swallowed && t == Floor then 1 else 0)
                                   - (if swallowed && t == Goal then 1 else 0)
  {
    var target := Step(s.pos, d);
    if Walks(s, d) {
      WalkCounts(s.level, Cell(s.pos), Cell(target), t);
    } else if Pushes(s, d) {
      BeyondBoxInBounds(s.level, target, d);
      var beyond := Step(target, d);
      assert Cell(beyond) != Cell(s.pos) && Cell(beyond) != Cell(target);
      PushCounts(s.level, Cell(s.pos), Cell(target), Cell(beyond), t);
    } else {
      MoveNoOp(s, d);
    }
  }

  lemma WalkCounts(g: Grid, from: RowCol, to: RowCol, t: Tile)
    requires Rect(g) && InBounds(g, from) && InBounds(g, to) && from != to
    requires At(g, from) == Player && At(g, to) == Floor
    ensures Count(Write(Write(g, from, Floor), to, Player), t) == Count(g, t)
  {
    var l1 := Write(g, from, Floor);
    CountAfterWrite(g, from, Floor, t);
    CountAfterWrite(l1, to, Player, t);
  }

  lemma PushCounts(g: Grid, from: RowCol, to: RowCol, beyond: RowCol, t: Tile)
    requires Rect(g) && InBounds(g, from) && InBounds(g, to) && InBounds(g, beyond)
    requires from != to && beyond != from && beyond != to
    requires At(g, from) == Player && At(g, to) == Box && At(g, beyond) in {Floor, Goal}
    ensures var l1 := Write(g, to, Floor);
            var l2 := Write(l1, beyond, Box);
            var l3 := Write(l2, from, Floor);
            Count(Write(l3, to, Player), t)
              == Count(g, t) + (if At(g, beyond) == Goal && t == Floor then 1 else 0)
                             - (if At(g, beyond) == Goal && t == Goal then 1 else 0)
  {
    var l1 := Write(g, to, Floor);
    var l2 := Write(l1, beyond, Box);
    var l3 := Write(l2, from, Floor);
    CountAfterWrite(g, to, Floor, t);
    CountAfterWrite(l1, beyond, Box, t);
    CountAfterWrite(l2, from, Floor, t);
    CountAfterWrite(l3, to, Player, t);
  }

  /** Moves applied one after another, as a run of arrow keys during play applies them. */
  function Replay(s: Play, moves: seq<Pos>): (r: Play)
    requires Movable(s) && forall i | 0 <= i < |moves| :: moves[i] in DIRS
    ensures Movable(r) && s.history <= r.history && |r.history| <= |s.history| + |moves|
    decreases |moves|
  {
    if moves == [] then s
    else
      MoveKeepsMovable(s, moves[0]);
      Replay(MovePlayer(s, moves[0]), moves[1..])
  }

  /**
   * From a state with one player tile, under the position, any run of moves keeps one
   * player tile under the position and keeps the number of boxes.
   */
  lemma {:induction false} ReplayKeepsOnePlayer(s: Play, moves: seq<Pos>)
    requires Playable(s) && Count(s.level, Player) == 1
    requires forall i | 0 <= i < |moves| :: moves[i] in DIRS
    ensures var r := Replay(s, moves);
            Playable(r) && Count(r.level, Player) == 1 && Count(r.level, Box) == Count(s.level, Box)
    decreases |moves|
  {
    if moves != [] {
      var d := moves[0];
      MoveKeepsPlayable(s, d);
      MoveCounts(s, d, Player);
      MoveCounts(s, d, Box);
      ReplayKeepsOnePlayer(MovePlayer(s, d), moves[1..]);
    }
  }

  /**
   * A walk from a position whose square holds floor instead of the player, with the player
   * tile elsewhere: the square left stays floor and the target becomes a second player tile.
   */
  lemma StrayWalkAddsPlayer(s: Play, d: Pos)
    requires Movable(s) && d in DIRS && Walks(s, d) && At(s.level, Cell(s.pos)) == Floor
    ensures Count(MovePlayer(s, d).level, Player) == Count(s.level, Player) + 1
  {
    var target := Step(s.pos, d);
    StepInBounds(s.level, s.pos, d);
    var l1 := Write(s.level, Cell(s.pos), Floor);
    CountAfterWrite(s.level, Cell(s.pos), Floor, Player);
    CountAfterWrite(l1, Cell(target), Player, Player);
  }

  /** Two distinct squares that both hold the player tile make the count at least two. */
  lemma TwoPlayers(g: Grid, a: RowCol, b: RowCol)
    requires Rect(g) && InBounds(g, a) && InBounds(g, b) && a != b
    requires At(g, a) == Player && At(g, b) == Player
    ensures Count(g, Player) >= 2
  {
    SubsetCard({a, b}, CellsOf(g, Player));
  }

  /**
   * The player square as generation stores it, (row, col), read back by `move_player` as
   * (x, y), names the player's square only when row and column agree: on every other
   * generated 10 by 10 board the player tile is not under the position.
   */
  lemma TransposedStartMisplaced(g: Grid, player: RowCol, n: nat)
    requires GoodBoard(g, player, 10, 10, n)
    ensures var s := Play(g, (player.row, player.col), []);
            Movable(s) && (Playable(s) <==> player.row == player.col)
  {
    assert !OnBorder(g, player);
    var other := RowCol(player.col, player.row);
    if player.row != player.col && At(g, other) == Player {
      TwoPlayers(g, player, other);
    }
  }

  /** The start position in the (x, y) order `move_player` reads: (col, row). */
  function IntendedStart(g: Grid, player: RowCol): Play
  {
    Play(g, (player.col, player.row), [])
  }

  /**
   * Started in (x, y) order on a generated board, the game has its one player tile under the
   * position, and every run of moves keeps it so and keeps the boxes.
   */
  lemma IntendedStartKeepsOnePlayer(g: Grid, player: RowCol, width: int, height: int, n: nat,
                                    moves: seq<Pos>)
    requires GoodBoard(g, player, width, height, n)
    requires forall i | 0 <= i < |moves| :: moves[i] in DIRS
    ensures var s := IntendedStart(g, player);
            && Playable(s) && Count(s.level, Player) == 1
            && var r := Replay(s, moves);
               Playable(r) && Count(r.level, Player) == 1 && Count(r.level, Box) == n
  {
    assert !OnBorder(g, player);
    ReplayKeepsOnePlayer(IntendedStart(g, player), moves);
  }

  /**
   * What every reset installs: a generated 10 by 10 board with three goals and three boxes,
   * and the position holding the player square as generation returns it, (row, col).
   */
  ghost predicate Started(g: Grid, p: Pos, n: nat)
  {
    GoodBoard(g, RowCol(p.0, p.1), 10, 10, n) && n == 3
  }

  /**
   * The game's global state: `level`, `player_pos`, `player_history` and `goal_count`.
   * The board is replaced by a new one on every reset, as `reset_game` rebinds `level`.
   */
  class Game {
    var level: Board
    var pos: Pos
    var history: seq<Pos>
    var goalCount: nat

    ghost predicate Valid()
      reads this, level, level.cells
    {
      level.Valid() && Placed(level.grid, pos)
    }

    ghost function View(): Play
      reads this, level
    {
      Play(level.grid, pos, history)
    }

    /**
     * `generate_sokoban_map(10, 10, 3)` as `reset_game` and the menu call it; it never fails.
     * The position comes back as generation stores it, (row, col).
     */
    static method NewBoard(shuffle1: nat -> seq<nat>, shuffle2: nat -> seq<nat>)
      returns (board: Board, pos: Pos, goalCount: nat)
      requires IsShuffle(shuffle1) && IsShuffle(shuffle2)
      ensures fresh(board) && fresh(board.cells) && board.Valid()
      ensures Started(board.grid, pos, goalCount)
      ensures Placed(board.grid, pos)
    {
      GameBoardAlwaysGenerates(shuffle1, shuffle2);
      GeneratedBoard(10, 10, 3, shuffle1, shuffle2);
      var r := GenerateSokobanMap(10, 10, 3, shuffle1, shuffle2);
      board := r.value.board;
      pos := (r.value.player.row, r.value.player.col);
      goalCount := r.value.goalCount;
      assert !OnBorder(board.grid, r.value.player);
    }

    /** The state `run` starts from: `choose_difficulty` ends with `reset_game`. */
    constructor (shuffle1: nat -> seq<nat>, shuffle2: nat -> seq<nat>)
      requires IsShuffle(shuffle1) && IsShuffle(shuffle2)
      ensures Valid() && fresh(level) && history == []
      ensures Started(level.grid, pos, goalCount)
    {
      var board, p, n := NewBoard(shuffle1, shuffle2);
      level, pos, goalCount, history := board, p, n, [];
    }

    /**
     * The menu's Enter key: a new board and position as `reset_game` installs them, but the
     * history is not cleared.
     */
    method StartNewMap(shuffle1: nat -> seq<nat>, shuffle2: nat -> seq<nat>)
      requires IsShuffle(shuffle1) && IsShuffle(shuffle2)
      modifies this
      ensures Valid() && fresh(level) && history == old(history)
      ensures Started(level.grid, pos, goalCount)
    {
      var board, p, n := NewBoard(shuffle1, shuffle2);
      level, pos, goalCount := board, p, n;
    }

    /** `reset_game`: a new board, the position as generation returns it, and an empty history. */
    method Reset(shuffle1: nat -> seq<nat>, shuffle2: nat -> seq<nat>)
      requires IsShuffle(shuffle1) && IsShuffle(shuffle2)
      modifies this
      ensures Valid() && fresh(level) && history == []
      ensures Started(level.grid, pos, goalCount)
    {
      StartNewMap(shuffle1, shuffle2);
      history := [];
    }

    /**
     * The four statements both branches of `move_player` end with: the old square becomes
     * floor, the history gains the old position, the position moves, and the new square
     * becomes the player.
     */
    method Relocate(newX: int, newY: int)
      requires level.Valid() && InBounds(level.grid, Cell(pos)) && InBounds(level.grid, Cell((newX, newY)))
      modifies this, level, level.cells
      ensures level.Valid() && level == old(level) && goalCount == old(goalCount)
      ensures View() == Play(Write(Write(old(level.grid), Cell(old(pos)), Floor), Cell((newX, newY)), Player),
                             (newX, newY), old(history) + [old(pos)])
    {
      level.Put(RowCol(pos.1, pos.0), Floor);
      history := history + [pos];
      pos := (newX, newY);
      level.Put(RowCol(newY, newX), Player);
    }

    /** The branch of `move_player` that walks onto floor. */
    method Walk(d: Pos)
      requires Valid() && d in DIRS && Walks(View(), d)
      modifies this, level, level.cells
      ensures Valid() && level == old(level) && goalCount == old(goalCount)
      ensures View() == MovePlayer(old(View()), d)
    {
      ghost var s := View();
      Relocate(pos.0 + d.0, pos.1 + d.1);
      MoveKeepsMovable(s, d);
      assert View() == MovePlayer(s, d);
    }

    /** The branch of `move_player` that pushes a box onto floor or goal. */
    method Push(d: Pos)
      requires Valid() && d in DIRS && Pushes(View(), d)
      modifies this, level, level.cells
      ensures Valid() && level == old(level) && goalCount == old(goalCount)
      ensures View() == MovePlayer(old(View()), d)
    {
      ghost var s := View();
      var newX, newY := pos.0 + d.0, pos.1 + d.1;
      var boxX, boxY := newX + d.0, newY + d.1;
      StepInBounds(level.grid, pos, d);
      BeyondBoxInBounds(level.grid, (newX, newY), d);
      level.Put(RowCol(newY, newX), Floor);
      level.Put(RowCol(boxY, boxX), Box);
      Relocate(newX, newY);
      MoveKeepsMovable(s, d);
      assert View() == MovePlayer(s, d);
    }

    /** `move_player(dx, dy)`, in place. */
    method Move(dx: int, dy: int)
      requires Valid() && (dx, dy) in DIRS
      modifies this, level, level.cells
      ensures Valid() && level == old(level) && goalCount == old(goalCount)
      ensures View() == MovePlayer(old(View()), (dx, dy))
    {
      var newX, newY := pos.0 + dx, pos.1 + dy;
      StepInBounds(level.grid, pos, (dx, dy));
      var t := level.Get(RowCol(newY, newX));
      if t == Floor {
        Walk((dx, dy));
      } else if t == Box {
        var boxX, boxY := newX + dx, newY + dy;
        BeyondBoxInBounds(level.grid, (newX, newY), (dx, dy));
        var beyond := level.Get(RowCol(boxY, boxX));
        if beyond == Floor || beyond == Goal {
          Push((dx, dy));
        }
      }
    }
  }
}
