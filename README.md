# neon_rush board resolution, in Dafny

A Dafny model of the match-resolution core of the neon_rush match-3 game, with
proofs of its properties. The board is an 8 x 8 grid of gem ids, where 0 means an
empty cell, next to a registry that maps each id to its gem record. The model
covers:

- how a swap is tried and kept or undone;
- how runs of three or more are found and grouped into shapes;
- how a group turns into a special gem;
- how specials go off, recursively;
- how matched gems are removed and the board falls and refills;
- how cascades are scored and end in a win or a loss;
- the bomb and reshuffle items;
- how a level is dealt;
- the session bookkeeping of the engine;
- the input rules that turn a press, a drag or a release into one of those
  operations.

The modules follow the source:

| module | models |
|---|---|
| `Types` | `types.ts` and `constants.ts` |
| `Board` | the grid/registry bookkeeping invariant and the writes that keep it |
| `GameEngine` | the logic fields of `GameEngine`, `setInteractionMode` and the combo timer of `update`, as the class `Engine` |
| `Matching` | `findMatches`, `groupMatches`, `checkSpecialCombo` and the special-gem rules inside `processMatches` |
| `Specials` | `triggerSpecial` and `executeSpecialCombo` |
| `Gravity` | `removeGems`, `spawnGem` and `applyGravity` |
| `Rearrange` | the position shuffle of `reshuffle` and the recolouring of `resolveInitialBoard` |
| `MatchSystem` | `processMatches`, `attemptSwap`, `useBombItem`, `reshuffle`, `resolveInitialBoard`, `startLevel` and `hasPossibleMoves` |
| `Session` | `GameEngine.startLevel` and `useReshuffleItem` |
| `Input` | `InputSystem.handleInput`, as the class `InputSystem` |

The central invariant is `Board.Consistent`, carried as `Engine.Valid()`.

- Cell contents: every non-zero cell holds a registered id whose record names
  that cell.
- Registered gems: every registered gem is on the board, in its cell.
- Ids: every id is positive and below `nextId`.

Every operation that writes the grid or the registry is proved to keep this
invariant.

A special going off can set off further specials, recursively. The methods
that mark gems return a ghost trail, `Specials.Mark`, to bound which gems such
a chain may mark. A trail is a list of marks, each the id of a gem and its
cause. The cause is either a direct mark by the caller's own loop, or a chain
mark by a special `u`. A chain mark by `u` needs two things. The marked gem
must lie in `u`'s reach (`Specials.Reaches`: its row, its column or its
clipped 3 x 3 block, or for a rainbow a gem of a colour below 5). And `u` must
be one of the specials the operation sets off, or a gem chain-marked earlier
in the trail (`Specials.Traced`). The contracts state that the newly marked gems
are exactly the trail's ids. A chain therefore marks nothing beyond what its
specials reach.

`Math.random()` is an oracle `rng: nat -> nat` fixed in the engine, with a
counter `draws`. The k-th call of `Math.floor(Math.random() * n)` is
`rng(k) % n`. The contracts pin the colours of spawned gems, the draws a
recolouring uses, the colour of a rainbow set off directly and the number of
draws the shuffle uses and, for a chain started by one special or a
non-rainbow combo pair, the number its rainbows use. They do not pin the permutation
the shuffle makes, the colour a chained rainbow draws or the colours a
recolouring leaves (only that they lie in the palette).

Game events are recorded in the engine field `events`; the `onGameEvent`
callback is not called.

Some behaviours of the code are easy to miss, and the model keeps them:

- The spawn cell of a rainbow is the middle member in search order
  (`gems[floor(len/2)]`), not the geometric middle of the group.
- Three aligned rainbow gems (type White) match one another: only type Empty is
  excluded from runs.
- Nothing ever decreases `bombs`, while `reshuffles` falls by one on each
  use: `useBombItem` does not touch the bomb count, and the input handler
  never calls `useBombItem`.
- A settled board is never reshuffled for lack of moves: `hasPossibleMoves`
  always answers true (`MatchSystem.HasPossibleMoves`), so that branch of
  `processMatches` is unreachable and is not modelled.
- The level verdict compares the score with `LEVELS[level - 1].targetScore`,
  not with the engine's own `targetScore` that `startLevel` copies from the
  possibly difficulty-scaled config.
- Grouping ignores colour: adjacent matched runs of different colours form
  one group.
- A rainbow set off in a cascade destroys a colour drawn from 0..4, whatever
  the level's colour count. A rainbow swapped with a plain gem destroys the
  partner's colour.
- The cell selected by a press may be empty: the selection is then id 0.
- The input handler does not look at the interaction mode.

## Model

| member | source | states |
|---|---|---|
| Board.PlaceFresh | engine/systems/MatchSystem.ts:65-66 | writing a fresh id into an empty cell together with its record keeps the grid/registry invariant |
| Board.ClearGem | engine/systems/MatchSystem.ts:521-522 | zeroing a gem's cell and deleting its record keeps the invariant |
| Board.MoveGem | engine/systems/MatchSystem.ts:536-541 | moving a gem into an empty cell, clearing its old cell and updating its coordinates keeps the invariant |
| Board.Relabel | engine/systems/MatchSystem.ts:598 | changing a record without moving it keeps the invariant |
| Board.SwapIsConsistent | engine/systems/MatchSystem.ts:80-83 | the four writes of a swap keep the invariant |
| Board.SwapBack | engine/systems/MatchSystem.ts:103-106 | swapping the same two gems again restores grid and registry exactly |
| Board.SwapGems | engine/systems/MatchSystem.ts:82-83 | the two records exchange coordinates and keep their type, special and flag; every other record is unchanged; the set of ids is the same |
| Board.MarksOnlyConsistent | engine/systems/MatchSystem.ts:132 | raising isMatched flags keeps the invariant |
| Board.UnmatchedShrinks | engine/systems/MatchSystem.ts:503-509 | marking an unmatched gem strictly shrinks the set of unmatched gems, the measure that ends the recursion of triggerSpecial |
| Board.OrderedIds | engine/systems/MatchSystem.ts:519 | the registry's ids in Map order (ascending, since ids are issued increasing): exactly the registered ids in range, strictly increasing |
| GameEngine.TickKeepsComboOk | engine/GameEngine.ts:125-130 | a frame keeps a combo running exactly while its timer is, with the timer within its limit |
| GameEngine.ComboExpires | engine/GameEngine.ts:125-130 | a running combo with timer T survives T-1 frames unchanged but for the timer, and after T frames both combo and timer are 0 |
| GameEngine.IdleStays | engine/GameEngine.ts:125 | with no combo running, any number of frames changes neither combo nor timer |
| GameEngine.Engine.constructor | engine/GameEngine.ts:11-40 | the initial logic state: empty grid and registry, nextId 1, score 0, target 1000, level 1, 3 bombs, 3 reshuffles, normal mode, nothing selected |
| GameEngine.Engine.SetInteractionMode | engine/GameEngine.ts:111-114 | sets the mode and always clears the selection |
| GameEngine.Engine.UpdateCombo | engine/GameEngine.ts:123-130 | one frame of the combo timer: with a combo running the timer drops by one and the combo is reset once the timer reaches 0; otherwise nothing changes |
| GameEngine.Engine.RandomBelow | engine/systems/MatchSystem.ts:48 | the next random draw below n, in [0, n), using up one draw |
| Gravity.LevelGemTypes | engine/systems/MatchSystem.ts:551 | the colour count of the level's LEVELS entry, or 4 when there is none; always 4..6 |
| Gravity.RemoveGems | engine/systems/MatchSystem.ts:518-525 | exactly the unmatched gems stay, with unchanged records; exactly the removed gems' cells become empty; the invariant holds |
| Gravity.ClearMatched | engine/systems/MatchSystem.ts:519-524 | the removal loop over the registry in Map order: same result as RemoveGems |
| Gravity.SubBoard | engine/systems/MatchSystem.ts:518-525 | two consistent boards whose registries are nested agree on every cell of the smaller one and are empty elsewhere |
| Gravity.SpawnGem | engine/systems/MatchSystem.ts:46-68 | the new gem takes id nextId, the next draw as its colour, no special and no match; its cell holds the id; nextId advances by one; the invariant holds |
| Gravity.DropKeepsOrder | engine/systems/MatchSystem.ts:533-537 | moving a gem down into the hole below it keeps the column's gems in the same top-to-bottom order |
| Gravity.SpawnHeads | engine/systems/MatchSystem.ts:550-552 | a gem spawned in an empty top cell goes in front of the column's gems |
| Gravity.DropStep | engine/systems/MatchSystem.ts:533-537 | a drop keeps the column's gem order, leaves other columns alone and lowers the height measure by one |
| Gravity.SpawnStep | engine/systems/MatchSystem.ts:550-552 | a spawn puts the new id first in its column, leaves other columns alone and lowers the height measure by one |
| Gravity.DropColumn | engine/systems/MatchSystem.ts:532-545 | one bottom-up sweep of a column: gems only fall, the column keeps its gem order, other columns are unchanged; either the measure fell or nothing moved and no hole has a gem above it |
| Gravity.DropPass | engine/systems/MatchSystem.ts:531-546 | the sweep of every column, with the same facts for the whole grid |
| Gravity.SpawnPass | engine/systems/MatchSystem.ts:549-555 | every empty top cell gets a fresh gem, left to right, with successive draws as colours; rows below are unchanged |
| Gravity.GravityPass | engine/systems/MatchSystem.ts:530-555 | one pass of the while loop: the registry is refilled, each column gets new ids on top of its old gems; if nothing moved, the board is settled with a full top row |
| Gravity.FilledFromTop | engine/systems/MatchSystem.ts:529-557 | a settled column with a full top cell has no empty cell |
| Gravity.ApplyGravity | engine/systems/MatchSystem.ts:527-559 | ends with no empty cell; each column reads some freshly spawned ids followed by its old gems in their old order; old gems only fell within their column; new gems have successive ids and draws |
| Matching.InMatched | engine/systems/MatchSystem.ts:233-234 | every cell of a run of three or more is in the match set |
| Matching.RunEnd | engine/systems/MatchSystem.ts:235-243 | where the run extension stops: every cell before it has the run's type, and the cell at it does not (or it is the line's end) |
| Matching.Add | engine/systems/MatchSystem.ts:234 | matchedSet.add: the elements gain exactly v, without duplicates |
| Matching.Extend | engine/systems/MatchSystem.ts:235-243 | the extension loop adds exactly the rest of the run after its first three cells, and only matched ids |
| Matching.ScanAt | engine/systems/MatchSystem.ts:226-244 | the test at one start: only matched ids are added, and every cell of a run beginning there is reported |
| Matching.TripleRun | engine/systems/MatchSystem.ts:233 | three registered same-type non-empty cells form a run, so all three are matched |
| Matching.ScanLine | engine/systems/MatchSystem.ts:225-245 | one line's scan: only matched ids are added, and every start of the line is covered |
| Matching.ScanLines | engine/systems/MatchSystem.ts:224-246 | all rows (or, at lines 249-271, all columns): every start of every line is covered |
| Matching.FindMatches | engine/systems/MatchSystem.ts:220-274 | the result has no duplicates and holds exactly the ids in some horizontal or vertical run of three or more registered gems of one non-empty type |
| Matching.TouchesSymmetric | engine/systems/MatchSystem.ts:297-311 | 4-adjacency on a consistent board is symmetric |
| Matching.VisitNeighbours | engine/systems/MatchSystem.ts:297-312 | the neighbour loop adds exactly the unvisited input ids next to the current gem, once each |
| Matching.SearchStep | engine/systems/MatchSystem.ts:291-313 | one step of the breadth-first search keeps it connected and closed and makes progress |
| Matching.Explore | engine/systems/MatchSystem.ts:287-314 | the group of one start: non-empty, starts with it, no duplicates, disjoint from earlier groups, 4-connected and closed under adjacency within the input |
| Matching.GroupMatches | engine/systems/MatchSystem.ts:279-317 | the groups partition the input: together they hold each input id exactly once and nothing else; each group is 4-connected and contains every input gem adjacent to one of its members |
| Matching.OneValue | engine/systems/MatchSystem.ts:345-347 | a list's set has one element exactly when all its entries are equal |
| Matching.FirstCorner | engine/systems/MatchSystem.ts:387-391 | gems.find for a corner: the first member with another member in its row and another in its column, or none |
| Matching.ClassifyGroup | engine/systems/MatchSystem.ts:342-403 | under 4 members nothing; 4 give a row blast when they share a row and a column blast otherwise; 5 or more give a rainbow (type White) in a line and an area blast otherwise; the special keeps the first member's type and sits at the first corner for an area blast with a corner, else at member floor(len/2) |
| Matching.CheckSpecialCombo | engine/systems/MatchSystem.ts:164-168 | a swap pair combines exactly when both are special or either is a rainbow |
| MatchSystem.MatchedInGems | engine/systems/MatchSystem.ts:229-233 | every id findMatches reports is a registered gem |
| MatchSystem.Creations | engine/systems/MatchSystem.ts:341-403 | at most one special per group; nothing is planned exactly when every group has fewer than 4 members |
| MatchSystem.PlanSpecials | engine/systems/MatchSystem.ts:339-403 | the forEach over the groups builds exactly the planned specials |
| MatchSystem.SourcesFacts | engine/systems/MatchSystem.ts:385-400 | each planned special sits at the cell of a registered member of its group, and distinct specials replace distinct members |
| MatchSystem.MarkMatches | engine/systems/MatchSystem.ts:406-414 | every listed gem ends matched with its special gone off; only flags change; the newly marked gems are exactly the marks of a trail in which each mark is a listed gem (marked directly by the loop) or lies in the reach of a listed gem or of an earlier chained mark; the loop's direct marks are listed gems; every chained mark is worth 20 and has gone off |
| MatchSystem.MatchOne | engine/systems/MatchSystem.ts:407-413 | one listed gem: it ends matched and has gone off; it is marked directly exactly when it was unmatched before, and every other newly marked gem is a chained mark traced back to it, worth 20 |
| MatchSystem.SpecialGem | engine/systems/MatchSystem.ts:428-441 | a created special's record: its planned cell, type and special, unmatched |
| MatchSystem.PlaceSpecials | engine/systems/MatchSystem.ts:426-444 | the k-th planned special gets id nextId + k at its cell; every other record and cell is unchanged; the invariant holds |
| MatchSystem.CreateSpecials | engine/systems/MatchSystem.ts:426-444 | the engine-level creation step; nextId grows by the number of specials |
| MatchSystem.SpawnsOnMatched | engine/systems/MatchSystem.ts:385-414 | once the matches are marked, every planned special sits on a matched gem, and no two share a cell |
| MatchSystem.RemovalFrees | engine/systems/MatchSystem.ts:423-426 | after removal, the cells of the planned specials are empty |
| MatchSystem.MarkRound | engine/systems/MatchSystem.ts:321-417 | combo rises by one, comboTimer is 180; MultiMatch is sent exactly when there are 2 or more groups; the newly marked gems are exactly a trail traced back to the listed gems; score grows by n*(10+combo), or n*(20+combo) with 2 or more groups (the real-number value of the source's multiplier), plus 20 per chained mark |
| MatchSystem.ClearAndRefill | engine/systems/MatchSystem.ts:423-447 | matched gems are gone, survivors only fell, the planned specials hold ids from the old nextId on, every other id is new, and the board is full |
| MatchSystem.Verdict | engine/systems/MatchSystem.ts:457-465 | the events of a settled board: win exactly when score reaches the target; lose exactly when no move is left and the score is short (checked before the win); nothing otherwise |
| MatchSystem.HasPossibleMoves | engine/systems/MatchSystem.ts:561-563 | every board is judged to have a move |
| MatchSystem.ProcessMatches | engine/systems/MatchSystem.ts:319-472 | combo grows by at least 1 and at most fuel+1, and comboTimer is 180; score grows by at least 10 per listed gem; the listed and already matched gems are gone and every other id is old or new; the board is full; once no match is left, processing ends with the level verdict, otherwise processing is unchanged (the fuel is used up) |
| MatchSystem.Round | engine/systems/MatchSystem.ts:319-450 | one round and the search for cascade matches: the new matches are exactly the board's runs |
| MatchSystem.Settle | engine/systems/MatchSystem.ts:455-465 | processing ends and exactly the verdict's events are sent |
| MatchSystem.CascadeRemoves | engine/systems/MatchSystem.ts:450-453 | gems removed by the first round stay gone through the cascade |
| MatchSystem.Unswap | engine/systems/MatchSystem.ts:103-106 | writing both ids and coordinates back undoes the swap exactly |
| MatchSystem.AttemptSwap | engine/systems/MatchSystem.ts:70-109 | without a match or combo after the swap, grid, registry, moves, score, combo, combo timer, events, draws and nextId are exactly restored and processing is cleared; with one, movesLeft drops by exactly 1, combo rises, comboTimer is 180, a combo pair and every gem matched after the swap are removed, every remaining id is old or new, the board is full and processing ends exactly when no match is left |
| MatchSystem.CommitSwap | engine/systems/MatchSystem.ts:94-99 | the committing branch: one move spent, the combo pair and every listed match removed, every remaining id old or new, the board full and processing ending exactly when no match is left |
| MatchSystem.BombTargets | engine/systems/MatchSystem.ts:129-140 | every target ends matched; the newly marked gems are exactly a trail whose direct marks are targets, and whose chained marks lie in the reach of a directly marked special other than the bomb gem or of an earlier chained mark; each direct mark is worth 50, each chained mark 20 and has gone off; directly marked specials other than the bomb gem go off |
| MatchSystem.BombOne | engine/systems/MatchSystem.ts:130-139 | one target: matched afterwards; a missing or already matched target changes nothing; an unmatched one is marked directly for 50 and every further newly marked gem is a chained mark traced back to it, worth 20 |
| MatchSystem.UseBombItem | engine/systems/MatchSystem.ts:112-157 | nothing changes for a missing gem or while processing; otherwise every gem of the 3 x 3 area around it is gone, score does not drop, the board is full and processing ends exactly when no match is left |
| MatchSystem.Detonate | engine/systems/MatchSystem.ts:116-156 | the bomb body: area gone, board full, score not lower |
| MatchSystem.Blast | engine/systems/MatchSystem.ts:119-147 | marking, removal and refill of the bomb: the area is gone and every other id is old or new |
| MatchSystem.FollowUp | engine/systems/MatchSystem.ts:149-156 | the follow-up matches are processed, or processing ends with none |
| MatchSystem.BlastMarksArea | engine/systems/MatchSystem.ts:121-140 | marking every target marks every gem of the 3 x 3 area |
| MatchSystem.AreaGone | engine/systems/MatchSystem.ts:146-147 | marked area gems are removed by the refill |
| MatchSystem.CascadeKeepsGone | engine/systems/MatchSystem.ts:150-153 | removed area gems stay gone through the cascade |
| MatchSystem.Reshuffle | engine/systems/MatchSystem.ts:565-590 | sends Reshuffle and sets processing; every gem keeps its id, type, special and flag and only its cell changes; the set of occupied cells is the same; grid and registry agree again; one draw per gem after the first |
| MatchSystem.FillBoard | engine/systems/MatchSystem.ts:35-39 | the k-th spawned gem (column by column, top to bottom) has id n0+k, sits at the k-th cell and has the k-th draw's colour |
| MatchSystem.ResolveInitialBoard | engine/systems/MatchSystem.ts:592-603 | only colours change and stay within the level's colours; no attempt is made exactly when the board has no match, and then nothing changes; at most 10 attempts, and fewer than 10 leave no match |
| MatchSystem.StartLevel | engine/systems/MatchSystem.ts:22-44 | level and moves from the config; score, combo and timer 0; processing off; a full fresh board of 64 new gems of the level's colours, none special or matched; with fewer than 10 recolouring attempts it has no match; with none, every gem has its spawn colour |
| MatchSystem.SetUpBoard | engine/systems/MatchSystem.ts:28-41 | the board part of StartLevel |
| Specials.FiredMono | engine/systems/MatchSystem.ts:503 | a special that has gone off stays so as more gems are marked |
| Specials.RegionTargets | engine/systems/MatchSystem.ts:482-491 | the targets of a line or area blast: every cell of the row, the column or the clipped 3 x 3 block, and nothing outside it |
| Specials.ColourTargets | engine/systems/MatchSystem.ts:494-497 | the targets of a rainbow: exactly the gems of the colour |
| Specials.TriggerSpecial | engine/systems/MatchSystem.ts:474-516 | a plain gem changes nothing; otherwise the gem ends matched, its whole row, column, clipped block or, for a rainbow, every gem of colour rng(draws) % 5 ends matched; the other newly marked gems are exactly a trail in which each mark lies in the reach of the gem or of an earlier chained mark, each worth 20 and gone off itself; only flags change; draws grow by one for a rainbow plus one per chained rainbow |
| Specials.TracedCovers | engine/systems/MatchSystem.ts:500-510 | the upper bound of a trail: every gem it marks is a seed of the operation or lies in the blast of one of the specials it sets off or of a gem the chain itself marked |
| Specials.LoneSpecial | engine/systems/MatchSystem.ts:480-510 | with no other special on the board, everything a triggered special's chain marks lies in its own row, column, block or rainbow palette |
| Specials.MarkSelf | engine/systems/MatchSystem.ts:477 | the trigger marks its own gem and nothing else |
| Specials.CollectTargets | engine/systems/MatchSystem.ts:480-498 | the target list covers the blast region, or for a rainbow every gem of a drawn colour below 5, using one draw; every registered target lies in the special's reach |
| Specials.BlastTargets | engine/systems/MatchSystem.ts:500-511 | every target ends matched; the newly marked gems are exactly a trail traced back to the triggering gem, each worth 20 and gone off; draws grow by one per chained rainbow |
| Specials.BlastOne | engine/systems/MatchSystem.ts:502-510 | one target: matched afterwards; a missing or already matched target changes nothing; otherwise the newly marked gems are a trail traced back to the triggering gem, each worth 20 |
| Specials.TargetsFired | engine/systems/MatchSystem.ts:480-511 | all targets matched means the special has gone off |
| Specials.ExecuteSpecialCombo | engine/systems/MatchSystem.ts:170-218 | both gems end matched; two rainbows match every gem for 100 a gem and no draw; a rainbow and another gem match every gem of the partner's colour, 50 each, and the other newly marked gems are exactly a trail traced to that colour's specials other than the pair, 20 each; those specials go off; any other pair sets off both specials, the other newly marked gems are exactly a trail traced back to the pair, 20 each, with one draw per chained rainbow |
| Specials.DoubleRainbow | engine/systems/MatchSystem.ts:183-190 | every gem matched, score up by 100 per gem |
| Specials.MarkPair | engine/systems/MatchSystem.ts:172-173 | both gems matched, nothing else marked |
| Specials.MarkAll | engine/systems/MatchSystem.ts:185-188 | every gem matched, only flags change |
| Specials.MarkListed | engine/systems/MatchSystem.ts:185-188 | every listed gem matched, only flags change |
| Specials.TriggerPair | engine/systems/MatchSystem.ts:216-217 | both specials have gone off; the newly marked gems are exactly a trail traced back to the pair, each worth 20; one draw per chained rainbow |
| Specials.ColourBlast | engine/systems/MatchSystem.ts:193-209 | every gem of the colour ends matched; the newly marked gems are exactly a trail whose direct marks are gems of the colour and whose chained marks are traced to specials of the colour other than the pair; 50 per gem of the colour and 20 per chained mark; specials of the colour other than the pair go off |
| Specials.ColourOne | engine/systems/MatchSystem.ts:196-204 | one gem of the colour: matched; marked directly exactly when it was unmatched; set off unless it is one of the pair, every other newly marked gem then being a chained mark traced back to it, 20 each |
| Specials.VisitedAll | engine/systems/MatchSystem.ts:195-206 | having visited every id, the colour is matched |
| Specials.CountOfDistinct | engine/systems/MatchSystem.ts:199 | over distinct ids the counter equals the number of gems of the colour visited |
| Specials.CountOfOrdered | engine/systems/MatchSystem.ts:194-207 | count is the number of gems of that colour on the board |
| Specials.TypeIdsMarks | engine/systems/MatchSystem.ts:197 | marking does not change which gems have a colour |
| Rearrange.ConsistentPlaceable | engine/systems/MatchSystem.ts:583-587 | a consistent registry has positive ids on board cells, no two on one cell |
| Rearrange.Occupancy | engine/systems/MatchSystem.ts:583-587 | on a consistent board a cell is occupied exactly when some record names it |
| Rearrange.SwapMoves | engine/systems/MatchSystem.ts:574-579 | exchanging two gems' coordinates changes only coordinates, keeps the set of cells and keeps cells distinct |
| Rearrange.ShufflePositions | engine/systems/MatchSystem.ts:572-580 | the Fisher-Yates loop: only coordinates change, the set of cells is the same, no two gems share a cell, one draw per index from the last down to 1 |
| Rearrange.RebuildGrid | engine/systems/MatchSystem.ts:583-587 | the rebuilt grid agrees with the registry in both directions |
| Rearrange.RecolouredConsistent | engine/systems/MatchSystem.ts:598 | recolouring keeps the invariant |
| Rearrange.Recolour | engine/systems/MatchSystem.ts:596-599 | only the listed registered gems change, and only in colour, each to a colour within the palette; with all listed ids registered and distinct, the i-th gets rng(d0+i) % types |
| Rearrange.ShuffleBoard | engine/systems/MatchSystem.ts:568-587 | the board part of reshuffle: only coordinates change, the same cells are occupied and grid and registry agree |
| Session.StartLevel | engine/GameEngine.ts:100-105 | 3 bombs, 3 reshuffles, normal mode and the config's target, then the full board reset of MatchSystem.StartLevel |
| Session.UseReshuffleItem | engine/GameEngine.ts:116-121 | with no reshuffle left or while processing nothing changes; otherwise reshuffles drops by exactly 1 and the board is reshuffled: same gems, same types and specials, same occupied cells, each gem at its own cell |
| Input.SwipeTarget | engine/systems/InputSystem.ts:54-63 | the target is exactly one cell away, sideways exactly when abs(dx) > abs(dy), in the direction of the delta's sign |
| Input.SwipeReverses | engine/systems/InputSystem.ts:46-63 | a drag past the threshold has a non-zero delta, and swiping back the opposite way from the target returns to the start cell |
| Input.SwipePartner | engine/systems/InputSystem.ts:52-72 | a partner exists exactly when the selected gem is registered and its target cell is on the board and holds a registered gem; the partner is a neighbour of the selected gem |
| Input.InputSystem.constructor | engine/systems/InputSystem.ts:6-15 | no drag in progress, all drag fields 0 |
| Input.InputSystem.HandleInput | engine/systems/InputSystem.ts:17-99 | while processing or with no move left nothing changes, in the handler or the engine; otherwise a press selects the gem under it and starts a drag at the press position and time (inside the board) or clears the selection (outside), the board untouched; a move has the effect of a drag (nothing short of the threshold; past it the selection clears and the swipe partner's swap is attempted, with no partner or a rejected swap leaving the board as it was, and a kept one spending one move); a release ends the drag and clears the selection, and a short tap on a special spends one move and removes that gem |
| Input.InputSystem.Press | engine/systems/InputSystem.ts:29-41 | inside the board the cell's id is selected and a drag starts at the press position and time; outside the selection is cleared and nothing else changes |
| Input.InputSystem.Drag | engine/systems/InputSystem.ts:42-78 | below the threshold, without a drag or without a selection nothing changes; past it the drag stops and the selection clears, and the swap with the swipe partner, if any, is attempted: with no partner the engine is otherwise unchanged, a rejected swap restores the board, score, combo, events and draws, and a kept one spends exactly one move and leaves a full board with the combo up and processing ending exactly when no match is left |
| Input.InputSystem.Release | engine/systems/InputSystem.ts:79-98 | the drag stops and the selection clears; a press shorter than 500 ms on a special gem spends exactly one move and processes that gem as a match of one, so it is gone, combo rises, score grows by at least 10, the board is full and processing ends exactly when no match is left; any other release leaves the engine unchanged |

## Left out

- Rendering, animation targets (`visualX/Y`, `scale`, `opacity`, `velocity`,
  `shakeOffset`, `shakeAmount`), particles, floating texts and audio: they
  produce no game state.
- The `await delay(...)` pauses: each asynchronous operation is one sequential
  method.
- The 1-second timer after a reshuffle that clears `isProcessing`: it is a
  timer callback. After `MatchSystem.Reshuffle` the engine stays processing in
  the model.
- MatchSystem.ProcessMatches: models at most `fuel` cascade rounds after the
  first, because random refills can cascade without bound. When the fuel runs
  out with matches on the board, the engine is left processing and no verdict
  is sent. The same fuel parameter is passed through `AttemptSwap`,
  `UseBombItem` and `InputSystem`.
- MatchSystem.ProcessMatches: states a lower bound for the score over the whole
  cascade (at least 10 per listed gem). The score of each round, with its
  multiplier taken over the reals, is stated by `MatchSystem.MarkRound`.
- MatchSystem.MarkRound: the score of a round is `n*(10+combo)`, or
  `n*(20+combo)` with two or more groups. That is the value of
  `floor(n*10*(1+0.1*combo))`, and of that value with the +1.0 bonus, over the
  reals only. The source computes it in IEEE doubles, where the product can fall
  just below the whole number, and its score is then one point lower than the
  model's. For combo 3, two groups and 10 gems, the source adds 229 where the
  model adds 230. For combo 4 and a single group of 9 gems, it is 125 against
  126. The same happens at combos 8, 13, 18, 21 and 26, among others.
  Floating-point rounding is not modelled.
- MatchSystem.ProcessMatches: requires that every listed id is registered.
  All callers pass registered ids: findMatches results, and the tapped gem
  after the check at InputSystem.ts:86. The group loop would dereference a
  missing id (`gems.get(id)!`, MatchSystem.ts:344).
- The automatic reshuffle of a settled board with no possible move
  (MatchSystem.ts:466-469): it is unreachable, because
  `MatchSystem.HasPossibleMoves` is always true.
- Gem records are values in a map, not shared objects: the aliasing of
  `GemComponent` objects between the registry, `allGems` and the swap
  arguments is not modelled. Updates write the map instead.
- `Math.random()` is the oracle `rng` with a draw counter. Its uniformity is
  not modelled.
- The `if (gem)` test in applyGravity (MatchSystem.ts:539): under the
  bookkeeping invariant every id on the grid is registered, so the branch
  without a gem cannot happen.
- Pixel unprojection and `Date.now()` in handleInput (InputSystem.ts:21-27, 36,
  82): the cell under the press is passed as a `CellHit` parameter and the
  clock reading as `now`, with integer pixels.
- MatchSystem.StartLevel: requires a colour count of at least 1. With 0
  colours the source would give every gem type NaN. The level table only has
  4 to 6.
- MatchSystem.StartLevel: the colour of every dealt gem is pinned to its draw
  only when no recolouring happened. After recolouring, only the palette bound
  is stated.
- The level verdict requires a level within the level table (`LevelOk`), as
  the source reads `LEVELS[level - 1].targetScore`, which fails for any other
  level.
- The UI callbacks `onScoreUpdate` and `onGameEvent`: events are appended to
  `events` instead. `resize`, `setCanvas` and `draw` are presentation.
- Specials.Reaches: a rainbow's reach is every gem of a colour below 5, not
  only the colour it draws. A trail mark made by a chained rainbow is thus
  bounded by the palette of rainbow colours, not by the drawn colour.
- MatchSystem.MarkMatches: does not state how many draws the chained rainbows use.
- MatchSystem.MatchOne: does not state how many draws the chained rainbows use.
- MatchSystem.BombTargets: does not state how many draws the chained rainbows use.
- MatchSystem.BombOne: does not state how many draws the chained rainbows use.
- Specials.ColourBlast: does not state how many draws the chained rainbows use.
- Specials.ColourOne: does not state how many draws the chained rainbows use.
- Specials.ExecuteSpecialCombo: in the branch of a rainbow and another gem,
  does not state how many draws the chained rainbows use.
- The draws of chained rainbows are counted, one per rainbow set off, by
  the contracts of `Specials.TriggerSpecial`,
  `Specials.BlastTargets`, `Specials.BlastOne`, `Specials.TriggerPair` and the
  non-rainbow pairs of `Specials.ExecuteSpecialCombo`.
- The trails are not proved free of repeated ids. Their id sets equal the
  newly marked gems, which is what the contracts use.
