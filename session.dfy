/**
 * The GameEngine operations that hand over to MatchSystem
 * (engine/GameEngine.ts): starting a level with fresh items and using the
 * reshuffle item.
 */
module Session {
  import opened Types
  import opened Board
  import opened GameEngine
  import opened Matching
  import opened Rearrange
  import opened MatchSystem

  /**
   * GameEngine.startLevel (GameEngine.ts:100-105): three bombs and three
   * reshuffles, normal mode, the level's target, then the board reset of
   * MatchSystem.startLevel.
   */
  method StartLevel(e: Engine, config: LevelConfig) returns (ghost attempts: int)
    requires e.nextId >= 1 && config.gemTypes >= 1
    modifies e`bombs, e`reshuffles, e`interactionMode, e`targetScore
    modifies e`level, e`movesLeft, e`score, e`combo, e`comboTimer, e`gems, e`grid, e`isProcessing, e`nextId, e`draws
    ensures e.bombs == 3 && e.reshuffles == 3 && e.interactionMode == Normal
    ensures e.targetScore == config.targetScore
    ensures e.level == config.level && e.movesLeft == config.moves
    ensures e.score == 0 && e.combo == 0 && e.comboTimer == 0 && !e.isProcessing
    ensures e.Valid() && e.ComboValid() && Dealt(config.gemTypes, old(e.nextId), e.grid, e.gems, e.nextId)
    ensures 0 <= attempts <= 10
    ensures attempts < 10 ==> MatchedIds(e.grid, e.gems) == {}
  {
    e.bombs, e.reshuffles := 3, 3;
    e.interactionMode := Normal;
    e.targetScore := config.targetScore;
    attempts := MatchSystem.StartLevel(e, config);
  }

  /**
   * useReshuffleItem (GameEngine.ts:116-121): with a reshuffle left and the
   * engine idle, one reshuffle is spent and the board is reshuffled;
   * otherwise nothing happens.
   */
  method UseReshuffleItem(e: Engine)
    requires e.Valid()
    modifies e`reshuffles, e`events, e`isProcessing, e`gems, e`grid, e`draws
    ensures e.Valid()
    ensures !(old(e.reshuffles) > 0 && !old(e.isProcessing)) ==>
      && e.reshuffles == old(e.reshuffles) && e.events == old(e.events) && e.isProcessing == old(e.isProcessing)
      && e.gems == old(e.gems) && e.grid == old(e.grid) && e.draws == old(e.draws)
    ensures old(e.reshuffles) > 0 && !old(e.isProcessing) ==>
      && e.reshuffles == old(e.reshuffles) - 1
      && e.events == old(e.events) + [GameEvent.Reshuffle] && e.isProcessing
      && Moved(old(e.gems), e.gems) && Cells(e.gems) == Cells(old(e.gems))
  {
    if e.reshuffles > 0 && !e.isProcessing {
      e.reshuffles := e.reshuffles - 1;
      MatchSystem.Reshuffle(e);
    }
  }
}
