# Sokoban rules engine

This project models, in Dafny, the rules engine of a small pygame Sokoban game (`main.py`). It covers four things:

- **Level generation.** `create_empty_map` builds a walled board with a floor interior. `place_player_and_goals` pops a player cell and the goal cells from a shuffled list of floor cells. `place_boxes` pops one box cell per goal from a shuffled list of floor cells that touch no wall. `generate_sokoban_map` composes the three.
- **Movement and pushing.** `move_player` moves the player in place on the board.
- **Difficulty.** The mapping in `choose_difficulty` from a menu answer to a timer budget.
- **Event handling.** The key handling of `run` over the menu, game and controls screens.

The model follows the code as written, including where it departs from the usual Sokoban rules:

- **Goals.** In the usual game the player walks onto goals and a box pushed onto a goal becomes box-on-goal. Here the player enters only floor, so a goal blocks. Only a plain box is pushed, and only onto floor or goal. A box pushed onto a goal is written as a plain box, so the goal disappears.
- **Squares left behind.** Every square the player or a box leaves becomes floor, even one that was a goal.
- **Combined tiles.** Box-on-goal and player-on-goal tiles are never produced.
- **Winning and losing.** The usual game ends on a win or when time runs out. Here `is_win` is never defined and `is_defeat` is never called, so neither happens.

Modules:

- `Wrappers`: `Result`, whose one error is the `IndexError` of `list.pop()` on an empty list. `Option`. Clamping of sizes.
- `Tiles`: the seven character tiles.
- `Grids`: boards as rows of tiles, tile counts, and the `Board` class. `Board` holds the mutable board as an `array2<Tile>`, together with its value as a ghost field.
- `Generation`: the four generation functions. Each imperative one is a method on a `Board`. Each method is proved equal to a ghost specification function (`PlayerAndGoals`, `Boxes`, `Generate`), and lemmas about those functions state what the source promises.
  - `random.shuffle` is a permutation supplied by the caller: `shuffle(n)` is a permutation of `0..n-1` for every `n`.
  - `pop()` takes the last element.
- `Movement`: `MovePlayer`, a pure specification of `move_player`, and lemmas about it. The class `Game` holds the globals `level`, `player_pos` and `player_history`, and the goal count that generation returns. Its `Move` changes the board in place and is proved equal to `MovePlayer`.
- `Difficulty`: the difficulty table.
- `Session`: the transition function over (screen, key), and the class `Session` whose `HandleEvent` applies one event to the game.

Coordinates follow the source. Generation stores the player as (row, col). `move_player` reads the same two numbers as (x, y) and indexes `level[y][x]`. `Movement.Cell` makes that reading explicit. The model does not claim that generation and movement compose; see Findings.

An unrecognised difficulty answer sets the timer to 60 seconds and leaves the difficulty as it was. At startup that difficulty is easy (`Difficulty.TimerMatchesLevelFromStart`).

## Model

| member | source | states |
|---|---|---|
| Tiles.FromChar | main.py:31-37 | exactly the seven tile characters name a tile, and each names the tile whose character it is |
| Tiles.CharRoundTrip | main.py:31-37 | every tile is read back from its own character, so no two tiles share a character |
| Grids.Write | main.py:116 | a single-cell assignment keeps the board's shape and changes that cell only |
| Grids.Stamp | main.py:119-122 | writing a tile into a list of cells one after the other leaves exactly those cells holding it and every other cell unchanged |
| Grids.Board.Put | main.py:121 | the in-place write into the array changes the board's value exactly as `Write` does |
| Grids.Board.Rows | main.py:111 | reading the array row by row yields the board's value |
| Generation.CreateEmptyMap | main.py:104-106 | `height` rows of `width` cells; the outer ring is wall and every other cell is floor |
| Generation.EmptyMapFloors | main.py:106 | the empty map has (width-2)*(height-2) floor cells |
| Generation.EmptyMapHoldsNoPieces | main.py:106 | the empty map holds no player, box, goal, box-on-goal or player-on-goal |
| Generation.IsAdjacentToWall | main.py:126-129 | true exactly when one of the four orthogonal neighbours (distance 1) is a wall |
| Generation.FloorCells | main.py:111 | the free-space list holds every floor cell, exactly once |
| Generation.BoxCandidates | main.py:134 | the box free-space list holds every floor cell with no wall neighbour, exactly once |
| Generation.FloorCellsCount | main.py:111 | the free-space list is as long as there are floor cells |
| Generation.Shuffled | main.py:112 | shuffling keeps the length, draws every element from the list, and keeps distinct lists distinct |
| Generation.ShuffledKeepsElements | main.py:112 | shuffling is a rearrangement: the shuffled list holds every element exactly as often as the list did |
| Generation.PermuteMultiset | main.py:112 | rearranging a list by any permutation of its indices keeps every element with its multiplicity |
| Generation.PopOrder | main.py:114 | repeated `pop()` hands out the last element first; `Generation.PopAt`, `Generation.PopOrderAfterPop` and `Generation.PopInto` show that the list left after popping is the prefix and the cells popped are those of this order |
| Generation.PopAt | main.py:114 | the k-th pop takes the element at index len-k |
| Generation.PopOrderAfterPop | main.py:114-120 | popping the last element, then more, hands out the cells of the pop order in sequence |
| Generation.PopInto | main.py:119-122 | pops `n` cells in pop order and writes the tile into each; raises `IndexError` exactly when fewer than `n` are left; on failure the board keeps the cells written before the failing pop |
| Generation.PlacePlayerAndGoals | main.py:108-124 | the returned player and goals, or the `IndexError`, and the board left behind equal `PlayerAndGoals` |
| Generation.PlayerAndGoalsEffect | main.py:108-124 | succeeds exactly when there are at least 1+num_goals floor cells. It then puts one player and exactly num_goals goals on distinct floor cells, returns those cells, and leaves every other cell unchanged. The player count goes up by 1, goals by num_goals, floor down by 1+num_goals, and other tiles stay the same |
| Generation.PlayerAndGoalsKeepBorder | main.py:114-122 | placing the player and goals leaves a wall border a wall border |
| Generation.PlaceBoxes | main.py:131-142 | the outcome and the board left behind equal `Boxes` |
| Generation.BoxesEffect | main.py:131-142 | succeeds exactly when there are at least len(goals) floor cells with no wall neighbour. It then writes exactly len(goals) boxes, each on a distinct cell that was floor with no wall neighbour, and leaves every other cell unchanged. Boxes go up and floor goes down by that number, other tiles stay the same, and the border stays wall |
| Generation.GenerateSokobanMap | main.py:144-149 | fails exactly when `Generate` fails; otherwise returns a new board whose value, player cell and goal count are those of `Generate` |
| Generation.GeneratedBoard | main.py:144-149 | a generated board has the requested size and a wall border, and holds the player on the returned cell. It has exactly one player, n goals and n boxes, floor everywhere else inside, and no box-on-goal or player-on-goal; the returned count is n = num_goals |
| Generation.GenerateFailsWhenCrowded | main.py:114-120 | with fewer inside cells than 1+num_goals, generation raises `IndexError` |
| Generation.GenerateSucceeds | main.py:137-139 | when the cells two steps from the border number at least 2*num_goals+1, generation succeeds |
| Generation.GameBoardAlwaysGenerates | main.py:100 | the game's own request, 10 by 10 with 3 goals, never raises |
| Movement.BeyondBoxInBounds | main.py:179-182 | on a walled board a box is never on the border, so the square beyond it is on the board |
| Movement.MovePlayer | main.py:169-189 | a move either changes nothing, or moves the position one step and appends exactly the pre-move position to the history |
| Movement.MoveNoOp | main.py:172-189 | a move changes nothing, board, position or history, exactly when the target is neither floor nor a box with floor or goal beyond it |
| Movement.WalkEffect | main.py:174-178 | walking sets the old square to floor and the target to player, moves the position to the target, appends the old position, and changes no other square |
| Movement.PushEffect | main.py:179-189 | pushing does the same and writes a box beyond the target, even onto a goal; no other square changes |
| Movement.MoveKeepsMovable | main.py:169-189 | every move keeps the wall border and keeps the position off the border, so indexing stays on the board |
| Movement.MoveKeepsPlayable | main.py:169-189 | with the player tile under the position, every move keeps it there |
| Movement.MoveCounts | main.py:174-189 | with the player tile under the position, a move keeps every tile count, except that a box pushed onto a goal removes that goal and adds a floor |
| Movement.Replay | main.py:217-219 | a run of arrow moves keeps the position off the border, and the history only grows, by at most one entry per move |
| Movement.ReplayKeepsOnePlayer | main.py:169-189 | from one player tile under the position, any run of moves keeps one player tile under the position and keeps the box count |
| Movement.TransposedStartMisplaced | main.py:115-116 | on a generated 10 by 10 board, the position as stored, (row, col), has the player tile under it as `move_player` reads it exactly when row = col |
| Movement.StrayWalkAddsPlayer | main.py:174-178 | a walk from a position whose square holds floor adds a second player tile |
| Movement.IntendedStartKeepsOnePlayer | main.py:115-116 | stored in (x, y) order, the start has its one player tile under the position, and any run of moves keeps one player tile there and keeps all n boxes |
| Movement.Game.NewBoard | main.py:100 | `generate_sokoban_map(10, 10, 3)` yields a new, valid board: 10 by 10 with a wall border, one player on the returned cell, three goals and three boxes, stored as (row, col) |
| Movement.Game.constructor | main.py:196 | the game `run` starts with: a board as `reset_game` installs it and an empty history |
| Movement.Game.Reset | main.py:97-102 | `reset_game` installs a new generated board, the returned position and goal count, and clears the history |
| Movement.Game.StartNewMap | main.py:205 | Enter on the menu installs a new generated board and position but keeps the history |
| Movement.Game.Walk | main.py:174-178 | the walking branch changes the board, position and history in place exactly as `MovePlayer` says |
| Movement.Game.Push | main.py:179-189 | the pushing branch changes them in place exactly as `MovePlayer` says |
| Movement.Game.Move | main.py:169-189 | `move_player` changes the board, position and history in place exactly as `MovePlayer` says, keeps the goal count and keeps the game valid |
| Difficulty.ChooseDifficulty | main.py:81-91 | the answer '1', '2' or '3' selects easy, normal or hard with that level's budget; any other answer gives 60 seconds and keeps the difficulty |
| Difficulty.HarderIsShorter | main.py:82-89 | budgets are 60 > 30 > 15, so harder levels allow strictly less time and each budget belongs to one level |
| Difficulty.TimerMatchesLevelFromStart | main.py:60 | from the starting difficulty, easy, every answer yields a timer equal to the budget of the difficulty it yields |
| Session.Transition | main.py:203-219 | Enter on the menu starts a new map and goes to the game. h on the menu goes to the controls. Escape on the controls or the game goes to the menu and resets. An arrow in the game moves. Each effect happens exactly in those cases |
| Session.TransitionNoOp | main.py:203-219 | every other (screen, key) pair leaves the screen unchanged and has no effect |
| Session.Session.constructor | main.py:191-196 | `run` starts running on the menu with the timer and difficulty that the answer selects from easy, and a freshly reset game |
| Session.Session.HandleEvent | main.py:199-219 | Quit stops the loop. A key changes the screen as `Transition` says and applies its effect to the game: a new map that keeps the history, a reset that clears it, or a move equal to `MovePlayer`. No effect leaves the game unchanged. Only a new map or a reset changes the goal count |

## Left out

- Drawing, the window, images and the frame clock (`draw_level`, `draw_player`, `display_timer`, `is_defeat`, the drawing half of the loop in `run`, `pygame.quit`, `sys.exit`): these are I/O with no rules in them.
- The text prompt in `choose_difficulty`: the answer it reads is a parameter of `Difficulty.ChooseDifficulty`, and the message printed for an invalid answer is not modelled.
- The timer clock: `time.time()`, `start_time` and the floating-point remaining time are not modelled. Only the budget in seconds is kept, because nothing in the code ever checks for expiry.
- `random.shuffle`: the permutation it would produce is a parameter.
- Key codes: an arrow key carries its `DIRS` vector directly. The arithmetic `DIRS[event.key - pygame.K_UP]` depends on pygame's constants and on Python's negative list indexing, so it is not modelled.
- `is_win`, `show_menu` and `show_controls` are called but never defined in the source, so they have no behaviour to model. The `NameError` that follows every arrow move is not modelled.
- Line 88 of `main.py` is a syntax error (`elif choice == '3` has no closing quote or colon). The model uses the evident intent: answer '3' selects hard with 15 seconds.
- `place_boxes` increments the global `goal_count` (line 140), and `run` binds a local `goal_count` at line 205. The model tracks only the count that generation returns.
- `player_pos` is one list object that generation updates in place and returns. The model keeps the position as a value, so the aliasing is not modelled.
- The `while running` loop itself: `Session.Session.HandleEvent` models one event, and a batch of events is those calls one after another.
- Generation.IsAdjacentToWall: requires a cell off the border. The only cells it is asked about are floor cells of a walled board, so Python's wrap-around for negative indices never arises.
- Generation.PlaceBoxes: requires a wall border. Every board it receives comes from `create_empty_map`, followed by a placement that keeps the border (`Generation.PlayerAndGoalsKeepBorder`).
- Movement.Game.NewBoard: states what the board is (`Movement.Started`: 10 by 10 with a wall border, one player on the stored cell, three goals and three boxes), not that it equals `Generation.Generate` for the given shuffles. `Generation.GenerateSokobanMap` states that equality. Carrying the full generation definition into the game's contracts makes their proofs too costly.
- Movement.Game.constructor: states the installed board through `Movement.Started`, not as equal to `Generation.Generate` for the given shuffles, for the same reason as `Movement.Game.NewBoard`.
- Movement.Game.Reset: states the installed board through `Movement.Started`, not as equal to `Generation.Generate` for the given shuffles, for the same reason as `Movement.Game.NewBoard`.
- Movement.Game.StartNewMap: states the installed board through `Movement.Started`, not as equal to `Generation.Generate` for the given shuffles, for the same reason as `Movement.Game.NewBoard`.
- Session.Session.constructor: states the freshly reset game through `Movement.Started`, not as equal to `Generation.Generate` for the given shuffles, for the same reason as `Movement.Game.NewBoard`.
- Session.Session.HandleEvent: after a new map or a reset, states the installed board through `Movement.Started`, not as equal to `Generation.Generate` for the given shuffles, for the same reason as `Movement.Game.NewBoard`.
- Movement.Game.Move: requires only what keeps its indexing on the board, a wall border and a position off the border, not that the player tile is under the position. The properties that need the player tile there carry that condition themselves (`Movement.MoveCounts`, `Movement.MoveKeepsPlayable`).

## Findings

| source | as written | input that shows it | evidently intended | confidence | as-written member | corrected member |
|---|---|---|---|---|---|---|
| main.py:115-116, 172 | generation stores `player_pos` as (row, col), and `move_player` reads it as (x, y) | any shuffle that pops the player onto a floor cell with row ≠ col, e.g. row 2, col 5: `move_player` then treats the square at row 5, col 2 as the player's, and a walk from it leaves the real player tile behind and adds a second one | store the position as (x, y) = (col, row), so that the player tile is under the position `move_player` reads | high; not executed | Movement.TransposedStartMisplaced, Movement.StrayWalkAddsPlayer | Movement.IntendedStart, Movement.IntendedStartKeepsOnePlayer |

`Movement.Game` keeps the (row, col) order the code uses. The corrected start, `Movement.IntendedStart`, is the state from which the model's run-of-moves lemmas (`Movement.ReplayKeepsOnePlayer`) hold for every generated board.
