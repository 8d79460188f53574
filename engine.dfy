/**
 * The logic state of GameEngine (engine/GameEngine.ts) and the parts of it
 * that do not go through the match pipeline: the interaction-mode switch and
 * the per-frame combo timer.
 */
module GameEngine {
  import opened Types
  import opened Board

  /** One frame of the combo timer (GameEngine.ts:125-130), on (combo, comboTimer). */
  function ComboTick(combo: int, timer: int): (int, int)
  {
    if combo > 0 then
      (if timer - 1 <= 0 then 0 else combo, timer - 1)
    else
      (combo, timer)
  }

  /** A combo is running exactly when its timer is, and the timer never exceeds its limit. */
  predicate ComboOk(combo: int, timer: int)
  {
    0 <= combo && 0 <= timer <= ComboTimeLimit && (combo == 0 <==> timer == 0)
  }

  /** n frames of the combo timer. */
  function Ticks(combo: int, timer: int, n: nat): (int, int)
  {
    if n == 0 then (combo, timer)
    else
      var (c, t) := ComboTick(combo, timer);
      Ticks(c, t, n - 1)
  }

  lemma TickKeepsComboOk(combo: int, timer: int)
    requires ComboOk(combo, timer)
    ensures ComboOk(ComboTick(combo, timer).0, ComboTick(combo, timer).1)
  {
  }

  /**
   * A running combo survives exactly `timer` frames without a new match: it is
   * still running, unchanged, after fewer, and is reset after `timer` frames.
   */
  lemma {:induction false} ComboExpires(combo: int, timer: int, n: nat)
    requires ComboOk(combo, timer) && combo > 0
    ensures n < timer ==> Ticks(combo, timer, n) == (combo, timer - n)
    ensures n >= timer ==> Ticks(combo, timer, n) == (0, 0)
    decreases n
  {
    if n > 0 {
      var (c, t) := ComboTick(combo, timer);
      if timer == 1 {
        assert (c, t) == (0, 0);
        IdleStays(n - 1);
      } else {
        assert (c, t) == (combo, timer - 1);
        ComboExpires(c, t, n - 1);
      }
    }
  }

  /** With no combo running the timer is idle. */
  lemma {:induction false} IdleStays(n: nat)
    ensures Ticks(0, 0, n) == (0, 0)
  {
    if n > 0 {
      IdleStays(n - 1);
    }
  }

  class Engine {
    /** The random source: the k-th draw Math.floor(Math.random() * n) is rng(k) % n. */
    const rng: nat -> nat
    /** How many random draws have been made. */
    var draws: nat

    var grid: Grid
    var gems: Gems
    var nextId: int

    var isProcessing: bool
    var selectedGemId: Selection
    var score: int
    var targetScore: int
    var combo: int
    var comboTimer: int
    var movesLeft: int
    var level: int
    var bombs: int
    var reshuffles: int
    var interactionMode: InteractionMode
    /** Every event sent to onGameEvent, oldest first. */
    var events: seq<GameEvent>

    /** The board invariant, and every registered id already handed out. */
    ghost predicate Valid()
      reads this`grid, this`gems, this`nextId
    {
      Consistent(grid, gems) && nextId >= 1 && forall id :: id in gems ==> id < nextId
    }

    ghost predicate ComboValid()
      reads this`combo, this`comboTimer
    {
      ComboOk(combo, comboTimer)
    }

    /** The level number indexes the level table (LEVELS[level - 1] is read on settling). */
    predicate LevelOk()
      reads this`level
    {
      1 <= level <= |Levels|
    }

    /** The field initialisers and the grid set up by the constructor (GameEngine.ts:11-63). */
    constructor (rng: nat -> nat)
      ensures this.rng == rng && draws == 0
      ensures grid == EmptyGrid() && gems == map[] && nextId == 1
      ensures !isProcessing && selectedGemId == Unselected && score == 0 && targetScore == 1000
      ensures combo == 0 && comboTimer == 0 && movesLeft == 0 && level == 1
      ensures bombs == 3 && reshuffles == 3 && interactionMode == Normal && events == []
      ensures Valid() && ComboValid() && LevelOk()
    {
      this.rng := rng;
      draws := 0;
      grid := EmptyGrid();
      gems := map[];
      nextId := 1;
      isProcessing := false;
      selectedGemId := Unselected;
      score := 0;
      targetScore := 1000;
      combo := 0;
      comboTimer := 0;
      movesLeft := 0;
      level := 1;
      bombs := 3;
      reshuffles := 3;
      interactionMode := Normal;
      events := [];
    }

    /** setInteractionMode (GameEngine.ts:111-114): switching mode drops the selection. */
    method SetInteractionMode(mode: InteractionMode)
      modifies this`interactionMode, this`selectedGemId
      ensures interactionMode == mode && selectedGemId == Unselected
    {
      interactionMode := mode;
      selectedGemId := Unselected;
    }

    /** The combo-timer step of update (GameEngine.ts:125-130). */
    method UpdateCombo()
      modifies this`combo, this`comboTimer
      ensures (combo, comboTimer) == ComboTick(old(combo), old(comboTimer))
      ensures old(ComboValid()) ==> ComboValid()
    {
      if combo > 0 {
        comboTimer := comboTimer - 1;
        if comboTimer <= 0 {
          combo := 0;
        }
      }
    }

    /** Math.floor(Math.random() * n), the next draw of the random source. */
    method RandomBelow(n: int) returns (r: int)
      requires n >= 1
      modifies this`draws
      ensures r == rng(old(draws)) % n && 0 <= r < n
      ensures draws == old(draws) + 1
    {
      r := rng(draws) % n;
      draws := draws + 1;
    }
  }
}
