/**
 * The event handling of `run`: the menu, controls and game screens, the keys that move
 * between them, and what each transition does to the game.
 */
module Session {
  import opened Generation
  import opened Movement
  import opened Difficulty

  /** `game_state`: `STATE_MENU`, `STATE_GAME` or `STATE_CONTROLS`. */
  datatype Screen = Menu | Playing | Controls

  /** A unit move of `DIRS`. */
  type Dir = d: Pos | d in DIRS witness (0, 1)

  /** The keys `run` tells apart; an arrow key carries the move it stands for. */
  datatype Key = Return | LetterH | Escape | Arrow(dir: Dir) | OtherKey

  datatype Event = Quit | KeyDown(key: Key) | OtherEvent

  /** What a key press does to the game besides changing the screen. */
  datatype Effect = NoEffect | NewMap | ResetGame | MoveBy(dir: Dir)

  /**
   * The screen after a key press and its effect on the game. Enter on the menu starts a new
   * map, h on the menu opens the controls, Escape on the controls or the game returns to the
   * menu and resets the game, an arrow in the game moves; every other pair changes nothing.
   */
  function Transition(screen: Screen, key: Key): (r: (Screen, Effect))
    ensures r.1 == NewMap <==> screen == Menu && key == Return
    ensures r.1 == ResetGame <==> screen != Menu && key == Escape
    ensures r.1.MoveBy? <==> screen == Playing && key.Arrow?
    ensures r.1.MoveBy? ==> r.1.dir == key.dir
    ensures r.0 == Menu <==> (screen == Menu && key != Return && key != LetterH) || (screen != Menu && key == Escape)
    ensures r.0 == Playing <==> (screen == Menu && key == Return) || (screen == Playing && key != Escape)
  {
    match screen
    case Menu =>
      if key == Return then (Playing, NewMap)
      else if key == LetterH then (Controls, NoEffect)
      else (Menu, NoEffect)
    case Controls =>
      if key == Escape then (Menu, ResetGame) else (Controls, NoEffect)
    case Playing =>
      if key == Escape then (Menu, ResetGame)
      else if key.Arrow? then (Playing, MoveBy(key.dir))
      else (Playing, NoEffect)
  }

  /** Exactly the pairs `run` handles do something: every other (screen, key) pair is a no-op. */
  lemma {:induction false} TransitionNoOp(screen: Screen, key: Key)
    ensures Transition(screen, key) == (screen, NoEffect)
            <==> !(|| (screen == Menu && (key == Return || key == LetterH))
                   || (screen != Menu && key == Escape)
                   || (screen == Playing && key.Arrow?))
  {
    var r := Transition(screen, key);
    if screen == Menu && key == LetterH {
      assert r.0 == Controls;
    }
  }

  /** The state of `run`: the screen, the loop flag, the timer settings and the game. */
  class Session {
    var screen: Screen
    var running: bool
    var timer: nat
    var difficulty: Level
    var game: Game

    ghost predicate Valid()
      reads this, game, game.level, game.level.cells
    {
      game.Valid()
    }

    /**
     * The start of `run`: the loop runs, the menu shows, `choose_difficulty` has read
     * `choice` starting from the easy default, and `reset_game` has installed a board.
     */
    constructor (choice: string, shuffle1: nat -> seq<nat>, shuffle2: nat -> seq<nat>)
      requires IsShuffle(shuffle1) && IsShuffle(shuffle2)
      ensures Valid() && fresh(game) && screen == Menu && running
      ensures (timer, difficulty) == ChooseDifficulty(choice, Easy)
      ensures game.history == [] && Started(game.level.grid, game.pos, game.goalCount)
    {
      screen := Menu;
      running := true;
      timer, difficulty := ChooseDifficulty(choice, Easy).0, ChooseDifficulty(choice, Easy).1;
      game := new Game(shuffle1, shuffle2);
    }

    /**
     * One event of the loop in `run`. Quit stops the loop; a key press changes the screen as
     * `Transition` says and applies its effect: a new map keeps the history, a reset clears
     * it, a move is `move_player`, and no effect leaves the game as it was.
     */
    method HandleEvent(e: Event, shuffle1: nat -> seq<nat>, shuffle2: nat -> seq<nat>)
      requires Valid() && IsShuffle(shuffle1) && IsShuffle(shuffle2)
      modifies this, game, game.level, game.level.cells
      ensures Valid() && game == old(game) && timer == old(timer) && difficulty == old(difficulty)
      ensures running == (old(running) && !e.Quit?)
      ensures screen == if e.KeyDown? then Transition(old(screen), e.key).0 else old(screen)
      ensures var effect := if e.KeyDown? then Transition(old(screen), e.key).1 else NoEffect;
              match effect
              case NoEffect => game.View() == old(game.View()) && game.goalCount == old(game.goalCount)
              case NewMap =>
                && Started(game.level.grid, game.pos, game.goalCount)
                && game.history == old(game.history)
              case ResetGame =>
                Started(game.level.grid, game.pos, game.goalCount) && game.history == []
              case MoveBy(d) =>
                game.View() == MovePlayer(old(game.View()), d) && game.goalCount == old(game.goalCount)
    {
      match e
      case Quit =>
        running := false;
      case KeyDown(key) =>
        var (next, effect) := Transition(screen, key);
        screen := next;
        match effect {
          case NoEffect =>
          case NewMap =>
            game.StartNewMap(shuffle1, shuffle2);
          case ResetGame =>
            game.Reset(shuffle1, shuffle2);
          case MoveBy(d) =>
            game.Move(d.0, d.1);
        }
      case OtherEvent =>
    }
  }
}
