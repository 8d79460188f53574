/** Entity types and constants of the game core (types.ts and constants.ts). */
module Types {

  /** Board size: the grid is Rows x Cols cells. */
  const Rows: int := 8
  const Cols: int := 8

  /** Frames a combo survives without a new match. */
  const ComboTimeLimit: int := 180

  /** GemType values. Colours 0..5 are drawn at random; White marks a rainbow gem. */
  const Red: int := 0
  const Orange: int := 1
  const Yellow: int := 2
  const Green: int := 3
  const Blue: int := 4
  const Purple: int := 5
  const White: int := 6
  const Empty: int := -1

  /** A rainbow set off in a cascade picks its colour among 0..RainbowColours-1. */
  const RainbowColours: int := 5

  datatype SpecialType = None | RowBlast | ColBlast | AreaBlast | Rainbow

  /**
   * A gem record (GemComponent without its visual fields). The record's id is
   * its key in the engine's gem registry.
   */
  datatype Gem = Gem(gridX: int, gridY: int, gemType: int, special: SpecialType, isMatched: bool)

  datatype LevelConfig = LevelConfig(level: int, targetScore: int, moves: int, gemTypes: int)

  /** The built-in level table. */
  const Levels: seq<LevelConfig> := [
    LevelConfig(1, 1000, 20, 4),
    LevelConfig(2, 2500, 25, 5),
    LevelConfig(3, 5000, 30, 6),
    LevelConfig(4, 8000, 35, 6),
    LevelConfig(5, 12000, 40, 6)
  ]

  /** Notifications sent through the engine's game-event callback. */
  datatype GameEvent = Win | Lose | Reshuffle | MultiMatch

  datatype InteractionMode = Normal | ItemBomb

  /** The engine's selectedGemId: null or a grid value. */
  datatype Selection = Unselected | Selected(id: int)

  /** grid[y][x] is the id of the gem in cell (x, y), 0 when the cell is empty. */
  type Grid = seq<seq<int>>

  /** The gem registry: id to record. */
  type Gems = map<int, Gem>
}
