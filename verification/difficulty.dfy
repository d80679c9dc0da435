/**
 * The difficulty menu of `choose_difficulty`: each level has a menu key and a time budget
 * in seconds; an answer that is no menu key keeps the difficulty and gives the easy budget.
 */
module Difficulty {
  datatype Level = Easy | Normal | Hard

  /** The answer that selects a level. */
  function MenuKey(l: Level): string
  {
    match l
    case Easy => "1"
    case Normal => "2"
    case Hard => "3"
  }

  /** The seconds a level allows. */
  function Budget(l: Level): nat
  {
    match l
    case Easy => 60
    case Normal => 30
    case Hard => 15
  }

  /**
   * `choose_difficulty` on an answer already read: the new `(game_timer, difficulty)`.
   * A menu key selects its level and that level's budget; any other answer sets the timer
   * to 60 seconds and leaves the difficulty as it was.
   */
  function ChooseDifficulty(choice: string, current: Level): (r: (nat, Level))
    ensures forall l :: MenuKey(l) == choice ==> r == (Budget(l), l)
    ensures (forall l :: MenuKey(l) != choice) ==> r == (60, current)
  {
    if choice == "1" then assert MenuKey(Easy) == choice; (60, Easy)
    else if choice == "2" then assert MenuKey(Normal) == choice; (30, Normal)
    else if choice == "3" then assert MenuKey(Hard) == choice; (15, Hard)
    else (60, current)
  }

  /** A harder level never allows more time, and different levels allow different times. */
  lemma HarderIsShorter()
    ensures Budget(Hard) < Budget(Normal) < Budget(Easy)
    ensures forall a, b :: Budget(a) == Budget(b) ==> a == b
  {
  }

  /**
   * From the starting difficulty, easy, every answer yields a timer equal to the budget of
   * the difficulty it yields: the fallback to 60 seconds is the easy budget.
   */
  lemma TimerMatchesLevelFromStart(choice: string)
    ensures var r := ChooseDifficulty(choice, Easy);
            r.0 == Budget(r.1)
  {
  }
}
