/**
 * Press, drag and release handling of InputSystem (engine/systems/InputSystem.ts): a press
 * selects the gem under it, a drag past the threshold swaps it with its
 * neighbour in the drag direction, and a short tap on a special gem sets it
 * off. Pixel coordinates are integers here, and the cell under the press
 * and the clock reading are given with each event.
 */
module Input {
  import opened Types
  import opened Board
  import opened GameEngine
  import opened Matching
  import opened MatchSystem

  datatype InputKind = Start | Move | End

  /** The cell an input event falls in, or none when it is outside the board. */
  datatype CellHit = Outside | Inside(gx: int, gy: int)

  /** The swap partner a swipe finds, if any. */
  datatype Partner = NoPartner | Partner(id: int)

  /** 30 * 30: a drag counts as a swipe once its squared length exceeds this. */
  const SwipeThreshold: int := 900
  /** A press released within this many milliseconds is a tap. */
  const TapLimit: int := 500

  function Abs(v: int): int
  {
    if v < 0 then -v else v
  }

  predicate Swipes(dx: int, dy: int)
  {
    dx * dx + dy * dy > SwipeThreshold
  }

  /**
   * The cell a drag of (dx, dy) from (gx, gy) aims at (InputSystem.ts:54-63):
   * one step along the dominant axis, horizontal only when |dx| > |dy|, in the
   * direction of the drag.
   */
  function SwipeTarget(gx: int, gy: int, dx: int, dy: int): (r: (int, int))
    ensures Abs(r.0 - gx) + Abs(r.1 - gy) == 1
    ensures r.0 != gx <==> Abs(dx) > Abs(dy)
    ensures r.0 > gx <==> Abs(dx) > Abs(dy) && dx > 0
    ensures r.1 > gy <==> Abs(dx) <= Abs(dy) && dy > 0
  {
    if Abs(dx) > Abs(dy) then (gx + (if dx > 0 then 1 else -1), gy)
    else (gx, gy + (if dy > 0 then 1 else -1))
  }

  /** A real swipe moves (its delta exceeds the threshold), and swiping back the opposite way returns to the start cell. */
  lemma SwipeReverses(gx: int, gy: int, dx: int, dy: int)
    requires Swipes(dx, dy)
    ensures dx != 0 || dy != 0
    ensures SwipeTarget(SwipeTarget(gx, gy, dx, dy).0, SwipeTarget(gx, gy, dx, dy).1, -dx, -dy) == (gx, gy)
  {
  }

  /**
   * The gem a swipe of the gem `a` would swap with (InputSystem.ts:52-72):
   * the registered gem in the target cell, when `a` is registered and the
   * target cell is on the board. It is a neighbour of `a`.
   */
  function SwipePartner(grid: Grid, gems: Gems, a: int, dx: int, dy: int): (r: Partner)
    requires IsGrid(grid)
    ensures r.Partner? ==> a in gems && r.id in gems
    ensures r.Partner? && Consistent(grid, gems) ==>
      Abs(gems[r.id].gridX - gems[a].gridX) + Abs(gems[r.id].gridY - gems[a].gridY) == 1
    ensures r.NoPartner? <==>
      a !in gems ||
      var (tx, ty) := SwipeTarget(gems[a].gridX, gems[a].gridY, dx, dy);
      !InBounds(tx, ty) || grid[ty][tx] !in gems
  {
    if a !in gems then NoPartner
    else
      var (tx, ty) := SwipeTarget(gems[a].gridX, gems[a].gridY, dx, dy);
      if InBounds(tx, ty) && grid[ty][tx] in gems then Partner(grid[ty][tx]) else NoPartner
  }

  /** Whether a release sets off the selected gem (InputSystem.ts:81-86): a short press on a special gem. */
  predicate TapActivates(gems: Gems, dragging: bool, selected: Selection, elapsed: int)
  {
    dragging && selected.Selected? && elapsed < TapLimit &&
    selected.id in gems && gems[selected.id].special != None
  }

  class InputSystem {
    const engine: Engine
    var dragStartX: int
    var dragStartY: int
    var dragStartTime: int
    var isDragging: bool

    constructor (engine: Engine)
      ensures this.engine == engine
      ensures dragStartX == 0 && dragStartY == 0 && dragStartTime == 0 && !isDragging
    {
      this.engine := engine;
      dragStartX, dragStartY, dragStartTime := 0, 0, 0;
      isDragging := false;
    }

    /**
     * handleInput (InputSystem.ts:17-99): nothing happens while the engine is
     * processing or no move is left; otherwise the event is handled by kind.
     */
    method HandleInput(x: int, y: int, hit: CellHit, kind: InputKind, now: int, fuel: nat)
      requires engine.Valid() && engine.ComboValid() && engine.LevelOk()
      requires hit.Inside? ==> InBounds(hit.gx, hit.gy)
      modifies this, engine`selectedGemId
      modifies engine`isProcessing, engine`grid, engine`gems, engine`movesLeft, engine`score, engine`draws
      modifies engine`combo, engine`comboTimer, engine`events, engine`nextId
      ensures engine.Valid() && engine.ComboValid()
      ensures old(engine.isProcessing) || old(engine.movesLeft) <= 0 ==> unchanged(this) && unchanged(engine)
      ensures !old(engine.isProcessing) && old(engine.movesLeft) > 0 && kind == Start ==>
        && engine.grid == old(engine.grid) && engine.gems == old(engine.gems)
        && engine.movesLeft == old(engine.movesLeft) && engine.score == old(engine.score)
        && engine.isProcessing == old(engine.isProcessing) && engine.events == old(engine.events)
        && engine.combo == old(engine.combo) && engine.comboTimer == old(engine.comboTimer)
        && engine.draws == old(engine.draws) && engine.nextId == old(engine.nextId)
        && (hit.Inside? ==>
              && engine.selectedGemId == Selected(old(engine.grid)[hit.gy][hit.gx])
              && isDragging && dragStartX == x && dragStartY == y && dragStartTime == now)
        && (hit.Outside? ==> engine.selectedGemId == Unselected && unchanged(this))
      ensures !old(engine.isProcessing) && old(engine.movesLeft) > 0 && kind == Move ==>
        && dragStartX == old(dragStartX) && dragStartY == old(dragStartY) && dragStartTime == old(dragStartTime)
        && (!(old(isDragging) && old(engine.selectedGemId).Selected? && Swipes(x - old(dragStartX), y - old(dragStartY))) ==>
              unchanged(this) && unchanged(engine))
        && (old(isDragging) && old(engine.selectedGemId).Selected? && Swipes(x - old(dragStartX), y - old(dragStartY)) ==>
              && !isDragging && engine.selectedGemId == Unselected
              && var a := old(engine.selectedGemId).id;
              && var p := SwipePartner(old(engine.grid), old(engine.gems), a, x - old(dragStartX), y - old(dragStartY));
              && (p.NoPartner? ==>
                    && engine.grid == old(engine.grid) && engine.gems == old(engine.gems)
                    && engine.movesLeft == old(engine.movesLeft) && engine.score == old(engine.score)
                    && engine.events == old(engine.events) && engine.isProcessing == old(engine.isProcessing)
                    && engine.combo == old(engine.combo) && engine.comboTimer == old(engine.comboTimer)
                    && engine.draws == old(engine.draws) && engine.nextId == old(engine.nextId))
              && (p.Partner? && !SwapCommits(old(engine.grid), old(engine.gems), a, p.id) ==>
                    && engine.grid == old(engine.grid) && engine.gems == old(engine.gems)
                    && engine.movesLeft == old(engine.movesLeft) && !engine.isProcessing
                    && engine.score == old(engine.score) && engine.events == old(engine.events)
                    && engine.combo == old(engine.combo) && engine.comboTimer == old(engine.comboTimer)
                    && engine.draws == old(engine.draws) && engine.nextId == old(engine.nextId))
              && (p.Partner? && SwapCommits(old(engine.grid), old(engine.gems), a, p.id) ==>
                    && engine.movesLeft == old(engine.movesLeft) - 1 && Full(engine.grid)
                    && engine.score >= old(engine.score) && engine.combo > old(engine.combo)
                    && engine.comboTimer == ComboTimeLimit
                    && engine.isProcessing == (MatchedIds(engine.grid, engine.gems) != {})))
      ensures !old(engine.isProcessing) && old(engine.movesLeft) > 0 && kind == End ==>
        && !isDragging && engine.selectedGemId == Unselected
        && dragStartX == old(dragStartX) && dragStartY == old(dragStartY) && dragStartTime == old(dragStartTime)
        && (!TapActivates(old(engine.gems), old(isDragging), old(engine.selectedGemId), now - old(dragStartTime)) ==>
              && engine.grid == old(engine.grid) && engine.gems == old(engine.gems)
              && engine.movesLeft == old(engine.movesLeft) && engine.score == old(engine.score)
              && engine.isProcessing == old(engine.isProcessing) && engine.events == old(engine.events)
              && engine.combo == old(engine.combo) && engine.comboTimer == old(engine.comboTimer)
              && engine.draws == old(engine.draws) && engine.nextId == old(engine.nextId))
        && (TapActivates(old(engine.gems), old(isDragging), old(engine.selectedGemId), now - old(dragStartTime)) ==>
              && engine.movesLeft == old(engine.movesLeft) - 1
              && old(engine.selectedGemId).id !in engine.gems
              && engine.combo > old(engine.combo) && engine.score >= old(engine.score) + 10
              && Full(engine.grid) && engine.comboTimer == ComboTimeLimit
              && engine.isProcessing == (MatchedIds(engine.grid, engine.gems) != {}))
    {
      if engine.isProcessing || engine.movesLeft <= 0 {
        return;
      }
      match kind
      case Start => Press(x, y, hit, now);
      case Move => Drag(x, y, fuel);
      case End => Release(now, fuel);
    }

    /** A press (InputSystem.ts:29-41): inside the board it selects the cell's id and starts a drag. */
    method Press(x: int, y: int, hit: CellHit, now: int)
      requires IsGrid(engine.grid) && (hit.Inside? ==> InBounds(hit.gx, hit.gy))
      modifies this, engine`selectedGemId
      ensures hit.Inside? ==>
        && engine.selectedGemId == Selected(engine.grid[hit.gy][hit.gx])
        && dragStartX == x && dragStartY == y && dragStartTime == now && isDragging
      ensures hit.Outside? ==> engine.selectedGemId == Unselected && unchanged(this)
    {
      match hit
      case Inside(gx, gy) =>
        engine.selectedGemId := Selected(engine.grid[gy][gx]);
        dragStartX, dragStartY, dragStartTime := x, y, now;
        isDragging := true;
      case Outside =>
        engine.selectedGemId := Unselected;
    }

    /**
     * A drag (InputSystem.ts:42-78): once a drag with a selection passes the
     * threshold, the selected gem is swapped with its swipe partner if it has
     * one, and the drag ends with the selection cleared, so one drag makes at
     * most one swap. Short of the threshold nothing happens.
     */
    method Drag(x: int, y: int, fuel: nat)
      requires engine.Valid() && engine.ComboValid() && engine.LevelOk()
      modifies this`isDragging, engine`selectedGemId
      modifies engine`isProcessing, engine`grid, engine`gems, engine`movesLeft, engine`score, engine`draws
      modifies engine`combo, engine`comboTimer, engine`events, engine`nextId
      ensures engine.Valid() && engine.ComboValid()
      ensures !(old(isDragging) && old(engine.selectedGemId).Selected? && Swipes(x - dragStartX, y - dragStartY)) ==>
        unchanged(this) && unchanged(engine)
      ensures old(isDragging) && old(engine.selectedGemId).Selected? && Swipes(x - dragStartX, y - dragStartY) ==>
        && !isDragging && engine.selectedGemId == Unselected
        && var p := SwipePartner(old(engine.grid), old(engine.gems), old(engine.selectedGemId).id, x - dragStartX, y - dragStartY);
        && (p.NoPartner? ==>
              && engine.grid == old(engine.grid) && engine.gems == old(engine.gems)
              && engine.movesLeft == old(engine.movesLeft) && engine.score == old(engine.score)
              && engine.events == old(engine.events) && engine.isProcessing == old(engine.isProcessing)
              && engine.combo == old(engine.combo) && engine.comboTimer == old(engine.comboTimer)
              && engine.draws == old(engine.draws) && engine.nextId == old(engine.nextId))
        && (p.Partner? && !SwapCommits(old(engine.grid), old(engine.gems), old(engine.selectedGemId).id, p.id) ==>
              && engine.grid == old(engine.grid) && engine.gems == old(engine.gems)
              && engine.movesLeft == old(engine.movesLeft) && !engine.isProcessing
              && engine.score == old(engine.score) && engine.events == old(engine.events)
              && engine.combo == old(engine.combo) && engine.comboTimer == old(engine.comboTimer)
              && engine.draws == old(engine.draws) && engine.nextId == old(engine.nextId))
        && (p.Partner? && SwapCommits(old(engine.grid), old(engine.gems), old(engine.selectedGemId).id, p.id) ==>
              && engine.movesLeft == old(engine.movesLeft) - 1 && Full(engine.grid)
              && engine.score >= old(engine.score) && engine.combo > old(engine.combo)
              && engine.comboTimer == ComboTimeLimit
              && engine.isProcessing == (MatchedIds(engine.grid, engine.gems) != {}))
    {
      if isDragging && engine.selectedGemId.Selected? {
        var dx, dy := x - dragStartX, y - dragStartY;
        if dx * dx + dy * dy > SwipeThreshold {
          var a := engine.selectedGemId.id;
          var p := SwipePartner(engine.grid, engine.gems, a, dx, dy);
          if p.Partner? {
            AttemptSwap(engine, a, p.id, fuel);
          }
          isDragging := false;
          engine.selectedGemId := Unselected;
        }
      }
    }

    /**
     * A release (InputSystem.ts:79-98): a tap on a special gem spends a move
     * and sets the gem off as a match of one; every release ends the drag and
     * clears the selection.
     */
    method Release(now: int, fuel: nat)
      requires engine.Valid() && engine.ComboValid() && engine.LevelOk()
      modifies this`isDragging, engine`selectedGemId
      modifies engine`isProcessing, engine`grid, engine`gems, engine`movesLeft, engine`score, engine`draws
      modifies engine`combo, engine`comboTimer, engine`events, engine`nextId
      ensures engine.Valid() && engine.ComboValid()
      ensures !isDragging && engine.selectedGemId == Unselected
      ensures !TapActivates(old(engine.gems), old(isDragging), old(engine.selectedGemId), now - dragStartTime) ==>
        && engine.grid == old(engine.grid) && engine.gems == old(engine.gems)
        && engine.movesLeft == old(engine.movesLeft) && engine.score == old(engine.score)
        && engine.isProcessing == old(engine.isProcessing) && engine.events == old(engine.events)
        && engine.combo == old(engine.combo) && engine.comboTimer == old(engine.comboTimer)
        && engine.draws == old(engine.draws) && engine.nextId == old(engine.nextId)
      ensures TapActivates(old(engine.gems), old(isDragging), old(engine.selectedGemId), now - dragStartTime) ==>
        && engine.movesLeft == old(engine.movesLeft) - 1
        && old(engine.selectedGemId).id !in engine.gems
        && engine.combo > old(engine.combo)
        && engine.score >= old(engine.score) + 10
        && Full(engine.grid) && engine.comboTimer == ComboTimeLimit
        && engine.isProcessing == (MatchedIds(engine.grid, engine.gems) != {})
    {
      if TapActivates(engine.gems, isDragging, engine.selectedGemId, now - dragStartTime) {
        var id := engine.selectedGemId.id;
        engine.movesLeft := engine.movesLeft - 1;
        engine.isProcessing := true;
        ProcessMatches(engine, [id], fuel);
      }
      isDragging := false;
      engine.selectedGemId := Unselected;
    }
  }
}
