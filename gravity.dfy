/**
 * Clearing and refilling the board (MatchSystem.ts: spawnGem, removeGems,
 * applyGravity): matched gems leave the board, the gems above each hole fall
 * one cell per pass in column order, and fresh gems enter at the top row
 * until the board is full.
 */
module Gravity {
  import opened Types
  import opened Board
  import opened GameEngine

  /** LEVELS[level - 1]?.gemTypes || 4: the level's colour count, 4 for an unknown level. */
  function LevelGemTypes(level: int): (r: int)
    ensures 1 <= level <= |Levels| ==> r == Levels[level - 1].gemTypes
    ensures !(1 <= level <= |Levels|) ==> r == 4
    ensures 4 <= r <= 6
  {
    if 1 <= level <= |Levels| then Levels[level - 1].gemTypes else 4
  }

  // ---------------------------------------------------------------- removeGems

  /**
   * removeGems (MatchSystem.ts:518-525): every matched gem is deleted from the
   * registry and its cell emptied; everything else stays as it was.
   */
  method RemoveGems(e: Engine)
    requires e.Valid()
    modifies e`grid, e`gems
    ensures e.Valid()
    ensures forall t :: t in e.gems <==> t in old(e.gems) && !old(e.gems)[t].isMatched
    ensures forall t :: t in e.gems ==> e.gems[t] == old(e.gems)[t]
    ensures forall y, x :: 0 <= y < Rows && 0 <= x < Cols ==>
      e.grid[y][x] == if old(e.grid)[y][x] in e.gems then old(e.grid)[y][x] else 0
  {
    e.grid, e.gems := ClearMatched(e.grid, e.gems, OrderedIds(e.gems, 1, e.nextId));
  }

  /** The loop of removeGems over the registry in its iteration order `ids`. */
  method ClearMatched(grid: Grid, gems: Gems, ids: seq<int>) returns (grid': Grid, gems': Gems)
    requires Consistent(grid, gems)
    requires forall t :: t in gems ==> t in ids
    requires forall i, j :: 0 <= i < j < |ids| ==> ids[i] < ids[j]
    requires forall i :: 0 <= i < |ids| ==> ids[i] in gems
    ensures Consistent(grid', gems')
    ensures forall t :: t in gems' <==> t in gems && !gems[t].isMatched
    ensures forall t :: t in gems' ==> gems'[t] == gems[t]
    ensures forall y, x :: 0 <= y < Rows && 0 <= x < Cols ==>
      grid'[y][x] == if grid[y][x] in gems' then grid[y][x] else 0
  {
    grid', gems' := grid, gems;
    for i := 0 to |ids|
      invariant Consistent(grid', gems')
      invariant forall t :: t in gems' <==> t in gems && !(t in ids[..i] && gems[t].isMatched)
      invariant forall t :: t in gems' ==> gems'[t] == gems[t]
    {
      var t := ids[i];
      assert t !in ids[..i];
      var g := gems'[t];
      if g.isMatched {
        ClearGem(grid', gems', t);
        grid' := SetCell(grid', g.gridX, g.gridY, 0);
        gems' := gems' - {t};
      }
    }
    SubBoard(grid, gems, grid', gems');
  }

  /** A consistent board whose gems are records of another board, unmoved, is that board with the other cells emptied. */
  lemma SubBoard(grid0: Grid, g0: Gems, grid1: Grid, g1: Gems)
    requires Consistent(grid0, g0) && Consistent(grid1, g1)
    requires forall t :: t in g1 ==> t in g0 && g1[t] == g0[t]
    ensures forall y, x :: 0 <= y < Rows && 0 <= x < Cols ==>
      grid1[y][x] == if grid0[y][x] in g1 then grid0[y][x] else 0
  {
    forall y, x | 0 <= y < Rows && 0 <= x < Cols
      ensures grid1[y][x] == if grid0[y][x] in g1 then grid0[y][x] else 0
    {
      if grid1[y][x] != 0 {
        assert g0[grid1[y][x]] == g1[grid1[y][x]];
      }
    }
  }

  // ---------------------------------------------------------------- spawnGem

  /**
   * spawnGem (MatchSystem.ts:46-68): a fresh gem of a random colour among the
   * first `types`, with no special, written into an empty cell.
   */
  method SpawnGem(e: Engine, x: int, y: int, types: int) returns (id: int)
    requires e.Valid() && InBounds(x, y) && e.grid[y][x] == 0 && types >= 1
    modifies e`grid, e`gems, e`nextId, e`draws
    ensures id == old(e.nextId) && e.nextId == id + 1 && id !in old(e.gems)
    ensures e.gems == old(e.gems)[id := Gem(x, y, e.rng(old(e.draws)) % types, None, false)]
    ensures e.grid == SetCell(old(e.grid), x, y, id)
    ensures e.draws == old(e.draws) + 1
    ensures e.Valid()
  {
    id := e.nextId;
    e.nextId := e.nextId + 1;
    var c := e.RandomBelow(types);
    var g := Gem(x, y, c, None, false);
    PlaceFresh(e.grid, e.gems, id, g);
    e.gems := e.gems[id := g];
    e.grid := SetCell(e.grid, x, y, id);
  }

  // ---------------------------------------------------------------- columns

  /** Column x of the grid, top (row 0) first. */
  function Column(grid: Grid, x: int): (r: seq<int>)
    requires IsGrid(grid) && 0 <= x < Cols
    ensures |r| == Rows && forall y :: 0 <= y < Rows ==> r[y] == grid[y][x]
  {
    seq(Rows, y requires 0 <= y < Rows => grid[y][x])
  }

  /** The gems of a column, top first, with the holes squeezed out. */
  function NonZeros(s: seq<int>): (r: seq<int>)
  {
    if |s| == 0 then [] else (if s[0] == 0 then [] else [s[0]]) + NonZeros(s[1..])
  }

  lemma {:induction false} NonZerosConcat(a: seq<int>, b: seq<int>)
    ensures NonZeros(a + b) == NonZeros(a) + NonZeros(b)
    decreases |a|
  {
    if |a| == 0 {
      assert a + b == b;
    } else {
      assert (a + b)[0] == a[0] && (a + b)[1..] == a[1..] + b;
      NonZerosConcat(a[1..], b);
    }
  }

  /** A column without holes is its own list of gems. */
  lemma {:induction false} NonZerosFull(s: seq<int>)
    requires forall i :: 0 <= i < |s| ==> s[i] != 0
    ensures NonZeros(s) == s
    decreases |s|
  {
    if |s| > 0 {
      NonZerosFull(s[1..]);
    }
  }

  /** One fall: the gem above a hole moves into it, and the column keeps its gems in order. */
  lemma DropKeepsOrder(s: seq<int>, y: int)
    requires 1 <= y < |s| && s[y] == 0 && s[y - 1] != 0
    ensures NonZeros(s[y := s[y - 1]][y - 1 := 0]) == NonZeros(s)
  {
    var t := s[y := s[y - 1]][y - 1 := 0];
    assert s == s[..y - 1] + [s[y - 1], 0] + s[y + 1..];
    assert t == s[..y - 1] + [0, s[y - 1]] + s[y + 1..];
    NonZerosConcat(s[..y - 1] + [s[y - 1], 0], s[y + 1..]);
    NonZerosConcat(s[..y - 1], [s[y - 1], 0]);
    NonZerosConcat(s[..y - 1] + [0, s[y - 1]], s[y + 1..]);
    NonZerosConcat(s[..y - 1], [0, s[y - 1]]);
  }

  /** A gem written into an empty top cell heads the column's list. */
  lemma SpawnHeads(s: seq<int>, id: int)
    requires |s| > 0 && s[0] == 0 && id != 0
    ensures NonZeros(s[0 := id]) == [id] + NonZeros(s)
  {
    assert s[0 := id][1..] == s[1..];
  }

  // ---------------------------------------------------------------- weight

  /** A cell's share of the termination measure: a hole weighs more than any gem, a gem less the lower it sits. */
  function CellWeight(v: int, y: int): int
  {
    if v == 0 then Rows + 1 else Rows - y
  }

  function ColumnWeight(s: seq<int>, i: nat): int
    requires i <= |s|
    decreases |s| - i
  {
    if i == |s| then 0 else CellWeight(s[i], i) + ColumnWeight(s, i + 1)
  }

  lemma {:induction false} ColumnWeightNonNeg(s: seq<int>, i: nat)
    requires i <= |s| <= Rows
    ensures ColumnWeight(s, i) >= 0
    decreases |s| - i
  {
    if i < |s| {
      ColumnWeightNonNeg(s, i + 1);
    }
  }

  lemma {:induction false} ColumnWeightUpdate(s: seq<int>, i: nat, j: int, v: int)
    requires i <= |s| && 0 <= j < |s|
    ensures ColumnWeight(s[j := v], i) ==
      ColumnWeight(s, i) + if i <= j then CellWeight(v, j) - CellWeight(s[j], j) else 0
    decreases |s| - i
  {
    if i < |s| {
      ColumnWeightUpdate(s, i + 1, j, v);
    }
  }

  /** The termination measure of applyGravity: the weights of the columns from x on. */
  function GridWeight(grid: Grid, x: nat): int
    requires IsGrid(grid) && x <= Cols
    decreases Cols - x
  {
    if x == Cols then 0 else ColumnWeight(Column(grid, x), 0) + GridWeight(grid, x + 1)
  }

  lemma {:induction false} GridWeightNonNeg(grid: Grid, x: nat)
    requires IsGrid(grid) && x <= Cols
    ensures GridWeight(grid, x) >= 0
    decreases Cols - x
  {
    if x < Cols {
      ColumnWeightNonNeg(Column(grid, x), 0);
      GridWeightNonNeg(grid, x + 1);
    }
  }

  /** A change confined to column c changes the measure by that column's change. */
  lemma {:induction false} GridWeightColumn(g0: Grid, g1: Grid, c: int, x: nat)
    requires IsGrid(g0) && IsGrid(g1) && 0 <= c < Cols && x <= Cols
    requires forall x' :: 0 <= x' < Cols && x' != c ==> Column(g1, x') == Column(g0, x')
    ensures GridWeight(g1, x) == GridWeight(g0, x) +
      if x <= c then ColumnWeight(Column(g1, c), 0) - ColumnWeight(Column(g0, c), 0) else 0
    decreases Cols - x
  {
    if x < Cols {
      GridWeightColumn(g0, g1, c, x + 1);
    }
  }

  /** The effect on one column of writing one cell. */
  lemma ColumnSet(grid: Grid, x: int, y: int, v: int)
    requires IsGrid(grid) && InBounds(x, y)
    ensures Column(SetCell(grid, x, y, v), x) == Column(grid, x)[y := v]
    ensures forall x' :: 0 <= x' < Cols && x' != x ==> Column(SetCell(grid, x, y, v), x') == Column(grid, x')
  {
    var r := SetCell(grid, x, y, v);
    assert Column(r, x) == Column(grid, x)[y := v];
    forall x' | 0 <= x' < Cols && x' != x
      ensures Column(r, x') == Column(grid, x')
    {
    }
  }

  /** One fall in column x: the column keeps its gems in order, the others are untouched, and the measure drops by one. */
  lemma DropStep(grid: Grid, x: int, y: int)
    requires IsGrid(grid) && InBounds(x, y) && y >= 1 && grid[y][x] == 0 && grid[y - 1][x] != 0
    ensures var r := SetCell(SetCell(grid, x, y, grid[y - 1][x]), x, y - 1, 0);
      && NonZeros(Column(r, x)) == NonZeros(Column(grid, x))
      && (forall x' :: 0 <= x' < Cols && x' != x ==> Column(r, x') == Column(grid, x'))
      && GridWeight(r, 0) == GridWeight(grid, 0) - 1
  {
    var id := grid[y - 1][x];
    var r1 := SetCell(grid, x, y, id);
    var r := SetCell(r1, x, y - 1, 0);
    ColumnSet(grid, x, y, id);
    ColumnSet(r1, x, y - 1, 0);
    var s := Column(grid, x);
    assert Column(r, x) == s[y := id][y - 1 := 0];
    DropKeepsOrder(s, y);
    ColumnWeightUpdate(s, 0, y, id);
    ColumnWeightUpdate(s[y := id], 0, y - 1, 0);
    GridWeightColumn(grid, r, x, 0);
  }

  /** A gem placed in the empty top cell of column x heads that column, and the measure drops by one. */
  lemma SpawnStep(grid: Grid, x: int, id: int)
    requires IsGrid(grid) && 0 <= x < Cols && grid[0][x] == 0 && id != 0
    ensures var r := SetCell(grid, x, 0, id);
      && NonZeros(Column(r, x)) == [id] + NonZeros(Column(grid, x))
      && (forall x' :: 0 <= x' < Cols && x' != x ==> Column(r, x') == Column(grid, x'))
      && GridWeight(r, 0) == GridWeight(grid, 0) - 1
  {
    var r := SetCell(grid, x, 0, id);
    var s := Column(grid, x);
    ColumnSet(grid, x, 0, id);
    SpawnHeads(s, id);
    ColumnWeightUpdate(s, 0, 0, id);
    GridWeightColumn(grid, r, x, 0);
  }

  // ---------------------------------------------------------------- passes

  /** No hole has a gem right above it in column x, from row `from` down. */
  ghost predicate Settled(grid: Grid, x: int, from: int)
    requires IsGrid(grid) && 0 <= x < Cols
  {
    forall y :: 1 <= y < Rows && from <= y ==> !(grid[y][x] == 0 && grid[y - 1][x] != 0)
  }

  /** Only falls: same gems, same records except a row that never goes up. */
  ghost predicate Sank(g0: Gems, g1: Gems)
  {
    && g1.Keys == g0.Keys
    && forall t :: t in g0 ==> g1[t] == g0[t].(gridY := g1[t].gridY) && g1[t].gridY >= g0[t].gridY
  }

  /** The column contents of a pass: column x of `grid` lists `added[x]` followed by the gems column x of `grid0` listed. */
  ghost predicate Stacked(grid0: Grid, grid: Grid, added: seq<seq<int>>)
    requires IsGrid(grid0) && IsGrid(grid)
  {
    |added| == Cols && forall x :: 0 <= x < Cols ==> NonZeros(Column(grid, x)) == added[x] + NonZeros(Column(grid0, x))
  }

  /**
   * One sweep of column x from the bottom row up (MatchSystem.ts:531-542): each
   * gem above a hole moves down one cell. The gem's record follows it.
   */
  method DropColumn(grid: Grid, gems: Gems, x: int) returns (grid': Grid, gems': Gems, moved: bool)
    requires Consistent(grid, gems) && 0 <= x < Cols
    ensures Consistent(grid', gems') && Sank(gems, gems')
    ensures NonZeros(Column(grid', x)) == NonZeros(Column(grid, x))
    ensures forall x' :: 0 <= x' < Cols && x' != x ==> Column(grid', x') == Column(grid, x')
    ensures moved ==> GridWeight(grid', 0) < GridWeight(grid, 0)
    ensures !moved ==> grid' == grid && gems' == gems && Settled(grid', x, 1)
  {
    moved := false;
    grid', gems' := grid, gems;
    for y := Rows downto 1
      invariant DropInv(grid, gems, grid', gems', x, y, moved)
    {
      if grid'[y][x] == 0 && grid'[y - 1][x] != 0 {
        var id := grid'[y - 1][x];
        DropInvStep(grid, gems, grid', gems', x, y, moved);
        grid' := SetCell(SetCell(grid', x, y, id), x, y - 1, 0);
        gems' := gems'[id := gems'[id].(gridY := y)];
        moved := true;
      } else {
        DropInvSkip(grid, gems, grid', gems', x, y, moved);
      }
    }
  }

  /** What a sweep of column x has done once rows y..Rows-1 are behind it. */
  ghost predicate DropInv(grid: Grid, gems: Gems, grid': Grid, gems': Gems, x: int, y: int, moved: bool)
  {
    && Consistent(grid, gems) && Consistent(grid', gems') && Sank(gems, gems') && 0 <= x < Cols
    && NonZeros(Column(grid', x)) == NonZeros(Column(grid, x))
    && (forall x' :: 0 <= x' < Cols && x' != x ==> Column(grid', x') == Column(grid, x'))
    && (moved ==> GridWeight(grid', 0) < GridWeight(grid, 0))
    && (!moved ==> grid' == grid && gems' == gems && Settled(grid', x, y))
  }

  /** The gem above the hole at row y falls into it. */
  lemma DropInvStep(grid: Grid, gems: Gems, grid': Grid, gems': Gems, x: int, y: int, moved: bool)
    requires DropInv(grid, gems, grid', gems', x, y + 1, moved) && 1 <= y < Rows
    requires grid'[y][x] == 0 && grid'[y - 1][x] != 0
    ensures grid'[y - 1][x] in gems'
    ensures DropInv(grid, gems, SetCell(SetCell(grid', x, y, grid'[y - 1][x]), x, y - 1, 0),
      gems'[grid'[y - 1][x] := gems'[grid'[y - 1][x]].(gridY := y)], x, y, true)
  {
    var id := grid'[y - 1][x];
    var r := SetCell(SetCell(grid', x, y, id), x, y - 1, 0);
    var g2 := gems'[id := gems'[id].(gridY := y)];
    FallConsistent(grid', gems', x, y);
    DropStep(grid', x, y);
    SankMove(gems, gems', id, y);
  }

  lemma FallConsistent(grid: Grid, gems: Gems, x: int, y: int)
    requires Consistent(grid, gems) && InBounds(x, y) && y >= 1 && grid[y][x] == 0 && grid[y - 1][x] != 0
    ensures grid[y - 1][x] in gems && gems[grid[y - 1][x]].gridY == y - 1
    ensures Consistent(SetCell(SetCell(grid, x, y, grid[y - 1][x]), x, y - 1, 0),
      gems[grid[y - 1][x] := gems[grid[y - 1][x]].(gridY := y)])
  {
    var id := grid[y - 1][x];
    MoveGem(grid, gems, id, x, y);
    assert gems[id].(gridX := x, gridY := y) == gems[id].(gridY := y);
  }

  lemma SankMove(g0: Gems, g1: Gems, id: int, y: int)
    requires Sank(g0, g1) && id in g1 && g1[id].gridY <= y
    ensures Sank(g0, g1[id := g1[id].(gridY := y)])
  {
  }

  /** Rows without a gem above a hole leave the sweep as it was. */
  lemma DropInvSkip(grid: Grid, gems: Gems, grid': Grid, gems': Gems, x: int, y: int, moved: bool)
    requires DropInv(grid, gems, grid', gems', x, y + 1, moved) && 1 <= y < Rows
    requires !(grid'[y][x] == 0 && grid'[y - 1][x] != 0)
    ensures DropInv(grid, gems, grid', gems', x, y, moved)
  {
  }

  /** The drop half of one applyGravity pass (MatchSystem.ts:530-544): every column swept once. */
  method DropPass(grid: Grid, gems: Gems) returns (grid': Grid, gems': Gems, moved: bool)
    requires Consistent(grid, gems)
    ensures Consistent(grid', gems') && Sank(gems, gems')
    ensures forall x :: 0 <= x < Cols ==> NonZeros(Column(grid', x)) == NonZeros(Column(grid, x))
    ensures moved ==> GridWeight(grid', 0) < GridWeight(grid, 0)
    ensures !moved ==> grid' == grid && gems' == gems && forall x :: 0 <= x < Cols ==> Settled(grid', x, 1)
  {
    moved := false;
    grid', gems' := grid, gems;
    SankRefl(gems);
    for x := 0 to Cols
      invariant PassInv(grid, gems, grid', gems', x, moved)
    {
      ghost var gridA, gA := grid', gems';
      var m;
      grid', gems', m := DropColumn(grid', gems', x);
      PassInvStep(grid, gems, gridA, gA, grid', gems', x, moved, m);
      moved := moved || m;
    }
  }

  /** What the drop pass has done once columns 0..x-1 are swept. */
  ghost predicate PassInv(grid: Grid, gems: Gems, grid': Grid, gems': Gems, x: int, moved: bool)
  {
    && Consistent(grid, gems) && Consistent(grid', gems') && Sank(gems, gems') && 0 <= x <= Cols
    && (forall x' :: 0 <= x' < Cols ==> NonZeros(Column(grid', x')) == NonZeros(Column(grid, x')))
    && (moved ==> GridWeight(grid', 0) < GridWeight(grid, 0))
    && (!moved ==> grid' == grid && gems' == gems && forall x' :: 0 <= x' < x ==> Settled(grid', x', 1))
  }

  lemma PassInvStep(grid: Grid, gems: Gems, gridA: Grid, gA: Gems, gridB: Grid, gB: Gems, x: int, moved: bool, m: bool)
    requires PassInv(grid, gems, gridA, gA, x, moved) && x < Cols
    requires Consistent(gridB, gB) && Sank(gA, gB)
    requires NonZeros(Column(gridB, x)) == NonZeros(Column(gridA, x))
    requires forall x' :: 0 <= x' < Cols && x' != x ==> Column(gridB, x') == Column(gridA, x')
    requires m ==> GridWeight(gridB, 0) < GridWeight(gridA, 0)
    requires !m ==> gridB == gridA && gB == gA && Settled(gridB, x, 1)
    ensures PassInv(grid, gems, gridB, gB, x + 1, moved || m)
  {
    SankTrans(gems, gA, gB);
    forall x' | 0 <= x' < Cols
      ensures NonZeros(Column(gridB, x')) == NonZeros(Column(grid, x'))
    {
      if x' != x {
        assert Column(gridB, x') == Column(gridA, x');
      }
    }
  }

  lemma SankRefl(g: Gems)
    ensures Sank(g, g)
  {
    forall t | t in g
      ensures g[t] == g[t].(gridY := g[t].gridY)
    {
    }
  }

  lemma SankTrans(g0: Gems, g1: Gems, g2: Gems)
    requires Sank(g0, g1) && Sank(g1, g2)
    ensures Sank(g0, g2)
  {
  }

  /** The registry grew by fresh gems n0..n1-1, one random draw each (spawnGem), nothing else changed. */
  ghost predicate Spawned(rng: nat -> nat, types: int, g0: Gems, g1: Gems, n0: int, n1: int, d0: nat, d1: nat)
  {
    && types >= 1 && n0 <= n1 && d1 - d0 == n1 - n0
    && (forall t :: t in g1 <==> t in g0 || n0 <= t < n1)
    && (forall t :: t in g0 ==> t < n0 && g1[t] == g0[t])
    && (forall t :: n0 <= t < n1 ==>
          g1[t].gemType == rng(d0 + (t - n0)) % types && g1[t].special == None && !g1[t].isMatched)
  }

  /**
   * The spawn half of one applyGravity pass (MatchSystem.ts:546-552): a fresh
   * gem in every empty top cell, left to right.
   */
  method SpawnPass(e: Engine) returns (spawned: bool, ghost added: seq<seq<int>>)
    requires e.Valid()
    modifies e`grid, e`gems, e`nextId, e`draws
    ensures e.Valid()
    ensures Spawned(e.rng, LevelGemTypes(e.level), old(e.gems), e.gems, old(e.nextId), e.nextId, old(e.draws), e.draws)
    ensures Stacked(old(e.grid), e.grid, added)
    ensures forall x :: 0 <= x < Cols ==> e.grid[0][x] != 0
    ensures forall y, x :: 1 <= y < Rows && 0 <= x < Cols ==> e.grid[y][x] == old(e.grid)[y][x]
    ensures spawned ==> GridWeight(e.grid, 0) < GridWeight(old(e.grid), 0)
    ensures !spawned ==> e.grid == old(e.grid) && e.gems == old(e.gems) && e.nextId == old(e.nextId) && e.draws == old(e.draws)
  {
    spawned := false;
    added := seq(Cols, _ => []);
    ghost var grid0, g0, n0, d0 := e.grid, e.gems, e.nextId, e.draws;
    var types := LevelGemTypes(e.level);
    for x := 0 to Cols
      invariant e.Valid()
      invariant SpawnInv(e.rng, types, grid0, g0, n0, d0, e.grid, e.gems, e.nextId, e.draws, added, x, spawned)
    {
      if e.grid[0][x] == 0 {
        ghost var gridA, gA, nA, dA := e.grid, e.gems, e.nextId, e.draws;
        var id := SpawnGem(e, x, 0, types);
        ghost var addedA, spawnedA := added, spawned;
        added := added[x := [id] + added[x]];
        spawned := true;
        SpawnInvStep(e.rng, types, grid0, g0, n0, d0, gridA, gA, nA, dA, addedA, x, spawnedA, id,
                     e.grid, e.gems, e.nextId, e.draws, added);
      } else {
        SpawnInvSkip(e.rng, types, grid0, g0, n0, d0, e.grid, e.gems, e.nextId, e.draws, added, x, spawned);
      }
    }
  }

  /** What the spawn pass has done once columns 0..x-1 are visited. */
  ghost predicate SpawnInv(rng: nat -> nat, types: int, grid0: Grid, g0: Gems, n0: int, d0: nat,
                           grid: Grid, gems: Gems, nextId: int, draws: nat, added: seq<seq<int>>, x: int, spawned: bool)
  {
    && IsGrid(grid0) && IsGrid(grid) && 0 <= x <= Cols
    && Spawned(rng, types, g0, gems, n0, nextId, d0, draws)
    && Stacked(grid0, grid, added)
    && (forall x' :: 0 <= x' < x ==> grid[0][x'] != 0)
    && (forall y, x' :: 0 <= y < Rows && 0 <= x' < Cols && (y >= 1 || x' >= x) ==> grid[y][x'] == grid0[y][x'])
    && (spawned ==> GridWeight(grid, 0) < GridWeight(grid0, 0))
    && (!spawned ==> grid == grid0 && gems == g0 && nextId == n0 && draws == d0)
  }

  /** A fresh gem in the empty top cell of column x. */
  lemma SpawnInvStep(rng: nat -> nat, types: int, grid0: Grid, g0: Gems, n0: int, d0: nat,
                     grid: Grid, gems: Gems, nextId: int, draws: nat, added: seq<seq<int>>, x: int, spawned: bool, id: int,
                     grid': Grid, gems': Gems, nextId': int, draws': nat, added': seq<seq<int>>)
    requires SpawnInv(rng, types, grid0, g0, n0, d0, grid, gems, nextId, draws, added, x, spawned) && x < Cols
    requires grid[0][x] == 0 && id == nextId && id >= 1 && id !in gems
    requires grid' == SetCell(grid, x, 0, id) && gems' == gems[id := Gem(x, 0, rng(draws) % types, None, false)]
    requires nextId' == nextId + 1 && draws' == draws + 1 && added' == added[x := [id] + added[x]]
    ensures SpawnInv(rng, types, grid0, g0, n0, d0, grid', gems', nextId', draws', added', x + 1, true)
  {
    SpawnStacked(grid0, grid, added, x, id);
    SpawnedStep(rng, types, g0, gems, n0, nextId, d0, draws, Gem(x, 0, rng(draws) % types, None, false));
  }

  lemma SpawnStacked(grid0: Grid, grid: Grid, added: seq<seq<int>>, x: int, id: int)
    requires IsGrid(grid0) && IsGrid(grid) && Stacked(grid0, grid, added)
    requires 0 <= x < Cols && grid[0][x] == 0 && id != 0
    ensures Stacked(grid0, SetCell(grid, x, 0, id), added[x := [id] + added[x]])
    ensures GridWeight(SetCell(grid, x, 0, id), 0) == GridWeight(grid, 0) - 1
  {
    SpawnStep(grid, x, id);
    forall x' | 0 <= x' < Cols
      ensures NonZeros(Column(SetCell(grid, x, 0, id), x')) ==
        added[x := [id] + added[x]][x'] + NonZeros(Column(grid0, x'))
    {
      SpawnColumn(grid0, grid, added, x, id, x');
    }
  }

  lemma SpawnColumn(grid0: Grid, grid: Grid, added: seq<seq<int>>, x: int, id: int, x': int)
    requires IsGrid(grid0) && IsGrid(grid) && Stacked(grid0, grid, added)
    requires 0 <= x < Cols && grid[0][x] == 0 && id != 0 && 0 <= x' < Cols
    requires NonZeros(Column(SetCell(grid, x, 0, id), x)) == [id] + NonZeros(Column(grid, x))
    requires x' != x ==> Column(SetCell(grid, x, 0, id), x') == Column(grid, x')
    ensures NonZeros(Column(SetCell(grid, x, 0, id), x')) ==
      added[x := [id] + added[x]][x'] + NonZeros(Column(grid0, x'))
  {
    if x' == x {
      var old0 := NonZeros(Column(grid0, x));
      assert [id] + (added[x] + old0) == ([id] + added[x]) + old0;
    }
  }

  lemma SpawnedStep(rng: nat -> nat, types: int, g0: Gems, gems: Gems, n0: int, nextId: int, d0: nat, draws: nat, g: Gem)
    requires Spawned(rng, types, g0, gems, n0, nextId, d0, draws)
    requires g.gemType == rng(draws) % types && g.special == None && !g.isMatched
    ensures Spawned(rng, types, g0, gems[nextId := g], n0, nextId + 1, d0, draws + 1)
  {
    assert draws == d0 + (nextId - n0);
  }

  /** A filled top cell is left alone. */
  lemma SpawnInvSkip(rng: nat -> nat, types: int, grid0: Grid, g0: Gems, n0: int, d0: nat,
                     grid: Grid, gems: Gems, nextId: int, draws: nat, added: seq<seq<int>>, x: int, spawned: bool)
    requires SpawnInv(rng, types, grid0, g0, n0, d0, grid, gems, nextId, draws, added, x, spawned) && x < Cols
    requires grid[0][x] != 0
    ensures SpawnInv(rng, types, grid0, g0, n0, d0, grid, gems, nextId, draws, added, x + 1, spawned)
  {
  }

  /** The board has no holes once every top cell is filled and no hole has a gem above it. */
  lemma {:induction false} FilledFromTop(grid: Grid, x: int, y: int)
    requires IsGrid(grid) && 0 <= x < Cols && 0 <= y < Rows
    requires grid[0][x] != 0 && Settled(grid, x, 1)
    ensures grid[y][x] != 0
    decreases y
  {
    if y > 0 {
      FilledFromTop(grid, x, y - 1);
    }
  }

  /**
   * applyGravity (MatchSystem.ts:527-556): drop and spawn passes repeat until a
   * pass changes nothing. The board ends full; the surviving gems keep their
   * records apart from a row that never goes up; each column ends with its
   * fresh gems on top of its old gems in their old order; the fresh gems are
   * the next ids, drawn in order from the random source.
   */
  method ApplyGravity(e: Engine) returns (ghost tops: seq<seq<int>>)
    requires e.Valid()
    modifies e`grid, e`gems, e`nextId, e`draws
    ensures e.Valid() && Full(e.grid)
    ensures Refilled(e.rng, LevelGemTypes(e.level), old(e.gems), e.gems, old(e.nextId), e.nextId, old(e.draws), e.draws)
    ensures |tops| == Cols
    ensures forall x :: 0 <= x < Cols ==> Column(e.grid, x) == tops[x] + NonZeros(Column(old(e.grid), x))
  {
    ghost var grid0, g0, n0, d0 := e.grid, e.gems, e.nextId, e.draws;
    var types := LevelGemTypes(e.level);
    tops := seq(Cols, _ => []);
    var moved := true;
    GravInvInit(e.rng, types, grid0, g0, n0, d0);
    while moved
      invariant e.Valid()
      invariant GravInv(e.rng, types, grid0, g0, n0, d0, e.grid, e.gems, e.nextId, e.draws, tops, moved)
      decreases GridWeight(e.grid, 0) + if moved then 1 else 0
    {
      ghost var gridA, gA, nA, dA, topsA := e.grid, e.gems, e.nextId, e.draws, tops;
      ghost var added;
      moved, added := GravityPass(e);
      tops := Prepend(added, tops);
      GravInvStep(e.rng, types, grid0, g0, n0, d0, gridA, gA, nA, dA, e.grid, e.gems, e.nextId, e.draws,
                  topsA, added, tops, moved);
    }
    GravInvDone(e.rng, types, grid0, g0, n0, d0, e.grid, e.gems, e.nextId, e.draws, tops);
  }

  /**
   * One iteration of the applyGravity loop (MatchSystem.ts:529-553): the drop
   * pass, then the spawn pass; `moved` says whether either changed the board.
   */
  method GravityPass(e: Engine) returns (moved: bool, ghost added: seq<seq<int>>)
    requires e.Valid()
    modifies e`grid, e`gems, e`nextId, e`draws
    ensures e.Valid()
    ensures Refilled(e.rng, LevelGemTypes(e.level), old(e.gems), e.gems, old(e.nextId), e.nextId, old(e.draws), e.draws)
    ensures Stacked(old(e.grid), e.grid, added)
    ensures moved ==> GridWeight(e.grid, 0) < GridWeight(old(e.grid), 0)
    ensures !moved ==> e.grid == old(e.grid) && forall x :: 0 <= x < Cols ==> e.grid[0][x] != 0 && Settled(e.grid, x, 1)
  {
    ghost var gridA, gA := e.grid, e.gems;
    var dropped;
    e.grid, e.gems, dropped := DropPass(e.grid, e.gems);
    ghost var gridB, gB := e.grid, e.gems;
    var spawned;
    spawned, added := SpawnPass(e);
    moved := dropped || spawned;
    PassRefills(e.rng, LevelGemTypes(e.level), gA, gB, e.gems, old(e.nextId), e.nextId, old(e.draws), e.draws);
    DropThenSpawn(gridA, gridB, e.grid, added);
  }

  /** A drop pass keeps every column's list of gems, so the pass adds only the spawned gems. */
  lemma DropThenSpawn(gridA: Grid, gridB: Grid, gridC: Grid, added: seq<seq<int>>)
    requires IsGrid(gridA) && IsGrid(gridB) && IsGrid(gridC)
    requires forall x :: 0 <= x < Cols ==> NonZeros(Column(gridB, x)) == NonZeros(Column(gridA, x))
    requires Stacked(gridB, gridC, added)
    ensures Stacked(gridA, gridC, added)
  {
  }

  /** A drop pass followed by a spawn pass does what applyGravity does to the registry. */
  lemma PassRefills(rng: nat -> nat, types: int, gA: Gems, gB: Gems, gC: Gems, nA: int, nC: int, dA: nat, dC: nat)
    requires Sank(gA, gB) && Spawned(rng, types, gB, gC, nA, nC, dA, dC)
    ensures Refilled(rng, types, gA, gC, nA, nC, dA, dC)
  {
  }

  /** What the passes so far have done, and how the last one ended. */
  ghost predicate GravInv(rng: nat -> nat, types: int, grid0: Grid, g0: Gems, n0: int, d0: nat,
                          grid: Grid, gems: Gems, nextId: int, draws: nat, tops: seq<seq<int>>, moved: bool)
  {
    && IsGrid(grid0) && IsGrid(grid)
    && Refilled(rng, types, g0, gems, n0, nextId, d0, draws)
    && Stacked(grid0, grid, tops)
    && (!moved ==> forall x :: 0 <= x < Cols ==> grid[0][x] != 0 && Settled(grid, x, 1))
    && GridWeight(grid, 0) >= 0
  }

  lemma GravInvInit(rng: nat -> nat, types: int, grid0: Grid, g0: Gems, n0: int, d0: nat)
    requires Consistent(grid0, g0) && types >= 1 && forall t :: t in g0 ==> t < n0
    ensures GravInv(rng, types, grid0, g0, n0, d0, grid0, g0, n0, d0, seq(Cols, _ => []), true)
  {
    RefilledRefl(rng, types, g0, n0, d0);
    GridWeightNonNeg(grid0, 0);
  }

  /** One more pass, from state A to state C. */
  lemma GravInvStep(rng: nat -> nat, types: int, grid0: Grid, g0: Gems, n0: int, d0: nat,
                    gridA: Grid, gA: Gems, nA: int, dA: nat, gridC: Grid, gC: Gems, nC: int, dC: nat,
                    tops: seq<seq<int>>, added: seq<seq<int>>, tops': seq<seq<int>>, moved: bool)
    requires GravInv(rng, types, grid0, g0, n0, d0, gridA, gA, nA, dA, tops, true)
    requires IsGrid(gridC) && Refilled(rng, types, gA, gC, nA, nC, dA, dC)
    requires Stacked(gridA, gridC, added)
    requires moved ==> GridWeight(gridC, 0) < GridWeight(gridA, 0)
    requires !moved ==> gridC == gridA && forall x :: 0 <= x < Cols ==> gridC[0][x] != 0 && Settled(gridC, x, 1)
    requires tops' == Prepend(added, tops)
    ensures GravInv(rng, types, grid0, g0, n0, d0, gridC, gC, nC, dC, tops', moved)
    ensures GridWeight(gridC, 0) + (if moved then 1 else 0) < GridWeight(gridA, 0) + 1
  {
    RefilledTrans(rng, types, g0, gA, gC, n0, nA, nC, d0, dA, dC);
    StackTrans(grid0, gridA, gridC, tops, added);
    GridWeightNonNeg(gridC, 0);
  }

  /** The last pass changed nothing: the board is full and each column is its list of gems. */
  lemma GravInvDone(rng: nat -> nat, types: int, grid0: Grid, g0: Gems, n0: int, d0: nat,
                    grid: Grid, gems: Gems, nextId: int, draws: nat, tops: seq<seq<int>>)
    requires GravInv(rng, types, grid0, g0, n0, d0, grid, gems, nextId, draws, tops, false)
    ensures Full(grid) && |tops| == Cols
    ensures forall x :: 0 <= x < Cols ==> Column(grid, x) == tops[x] + NonZeros(Column(grid0, x))
  {
    forall x | 0 <= x < Cols
      ensures Column(grid, x) == tops[x] + NonZeros(Column(grid0, x))
    {
      forall y | 0 <= y < Rows
        ensures grid[y][x] != 0
      {
        FilledFromTop(grid, x, y);
      }
      NonZerosFull(Column(grid, x));
    }
    forall y, x | 0 <= y < Rows && 0 <= x < Cols
      ensures grid[y][x] != 0
    {
      FilledFromTop(grid, x, y);
    }
  }

  /**
   * What applyGravity does to the registry: the old gems only fell, and the
   * new ones are ids n0..n1-1 with the colours of successive random draws.
   */
  ghost predicate Refilled(rng: nat -> nat, types: int, g0: Gems, g1: Gems, n0: int, n1: int, d0: nat, d1: nat)
  {
    && types >= 1 && n0 <= n1 && d1 - d0 == n1 - n0
    && (forall t :: t in g1 <==> t in g0 || n0 <= t < n1)
    && (forall t :: t in g0 ==> t < n0 && g1[t] == g0[t].(gridY := g1[t].gridY) && g1[t].gridY >= g0[t].gridY)
    && (forall t :: n0 <= t < n1 ==>
          g1[t].gemType == rng(d0 + (t - n0)) % types && g1[t].special == None && !g1[t].isMatched)
  }

  lemma RefilledRefl(rng: nat -> nat, types: int, g0: Gems, n0: int, d0: nat)
    requires types >= 1
    requires forall t :: t in g0 ==> t < n0
    ensures Refilled(rng, types, g0, g0, n0, n0, d0, d0)
  {
  }

  /** Two stretches of refilling make one. */
  lemma RefilledTrans(rng: nat -> nat, types: int, g0: Gems, gA: Gems, gC: Gems,
                      n0: int, nA: int, nC: int, d0: nat, dA: nat, dC: nat)
    requires Refilled(rng, types, g0, gA, n0, nA, d0, dA)
    requires Refilled(rng, types, gA, gC, nA, nC, dA, dC)
    ensures Refilled(rng, types, g0, gC, n0, nC, d0, dC)
  {
    assert dA - d0 == nA - n0;
  }

  /** Each column after a pass lists the pass's new gems, then what it listed before. */
  function Prepend(added: seq<seq<int>>, tops: seq<seq<int>>): (r: seq<seq<int>>)
    requires |added| == Cols && |tops| == Cols
    ensures |r| == Cols && forall x :: 0 <= x < Cols ==> r[x] == added[x] + tops[x]
  {
    seq(Cols, x requires 0 <= x < Cols => added[x] + tops[x])
  }

  lemma StackTrans(grid0: Grid, gridA: Grid, gridC: Grid, tops: seq<seq<int>>, added: seq<seq<int>>)
    requires IsGrid(grid0) && IsGrid(gridA) && IsGrid(gridC)
    requires Stacked(grid0, gridA, tops) && Stacked(gridA, gridC, added)
    ensures Stacked(grid0, gridC, Prepend(added, tops))
  {
    forall x | 0 <= x < Cols
      ensures NonZeros(Column(gridC, x)) == Prepend(added, tops)[x] + NonZeros(Column(grid0, x))
    {
      assert NonZeros(Column(gridC, x)) == added[x] + NonZeros(Column(gridA, x));
    }
  }
}
