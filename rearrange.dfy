/**
 * Rewriting gem records without adding or removing gems: the position
 * shuffle of reshuffle (MatchSystem.ts:565-590) and the recolouring of
 * resolveInitialBoard (MatchSystem.ts:592-603).
 */
module Rearrange {
  import opened Types
  import opened Board

  // ---------------------------------------------------------------- positions

  /** The cells the registry's records name. */
  ghost function Cells(gems: Gems): set<(int, int)>
  {
    set t | t in gems :: (gems[t].gridX, gems[t].gridY)
  }

  /** Every id is positive and names a board cell, and no two records name the same cell. */
  ghost predicate Placeable(gems: Gems)
  {
    && (forall t :: t in gems ==> t > 0 && InBounds(gems[t].gridX, gems[t].gridY))
    && (forall s, t :: s in gems && t in gems && s != t ==>
          (gems[s].gridX, gems[s].gridY) != (gems[t].gridX, gems[t].gridY))
  }

  /** g1 is g0 with only the recorded cells changed. */
  ghost predicate Moved(g0: Gems, g1: Gems)
  {
    g1.Keys == g0.Keys && forall t :: t in g0 ==> g1[t] == g0[t].(gridX := g1[t].gridX, gridY := g1[t].gridY)
  }

  /** A consistent registry can be written back into a grid. */
  lemma ConsistentPlaceable(grid: Grid, gems: Gems)
    requires Consistent(grid, gems)
    ensures Placeable(gems)
  {
    forall s, t | s in gems && t in gems && s != t
      ensures (gems[s].gridX, gems[s].gridY) != (gems[t].gridX, gems[t].gridY)
    {
      assert grid[gems[s].gridY][gems[s].gridX] == s;
      assert grid[gems[t].gridY][gems[t].gridX] == t;
    }
  }

  /** Under the bookkeeping invariant a cell is occupied exactly when some record names it. */
  lemma Occupancy(grid: Grid, gems: Gems, x: int, y: int)
    requires Consistent(grid, gems) && InBounds(x, y)
    ensures grid[y][x] != 0 <==> (x, y) in Cells(gems)
  {
    if grid[y][x] != 0 {
      var t := grid[y][x];
      assert (gems[t].gridX, gems[t].gridY) == (x, y);
    }
    if (x, y) in Cells(gems) {
      var t :| t in gems && (gems[t].gridX, gems[t].gridY) == (x, y);
      assert grid[y][x] == t;
    }
  }

  /** Exchanging two gems' coordinates moves them, keeps the set of cells and keeps them placeable. */
  lemma SwapMoves(gems: Gems, a: int, b: int)
    requires a in gems && b in gems
    ensures Moved(gems, SwapGems(gems, a, b))
    ensures Cells(SwapGems(gems, a, b)) == Cells(gems)
    ensures Placeable(gems) ==> Placeable(SwapGems(gems, a, b))
  {
    var r := SwapGems(gems, a, b);
    var pa, pb := (gems[a].gridX, gems[a].gridY), (gems[b].gridX, gems[b].gridY);
    assert (r[a].gridX, r[a].gridY) == pb && (r[b].gridX, r[b].gridY) == pa;
    forall t | t in gems && t != a && t != b
      ensures r[t] == gems[t]
    {
    }
    forall p | p in Cells(r)
      ensures p in Cells(gems)
    {
      var t :| t in r && (r[t].gridX, r[t].gridY) == p;
      if t == a {
        assert p == pb;
      } else if t == b {
        assert p == pa;
      }
    }
    forall p | p in Cells(gems)
      ensures p in Cells(r)
    {
      var t :| t in gems && (gems[t].gridX, gems[t].gridY) == p;
      if t == a {
        assert (r[b].gridX, r[b].gridY) == p;
      } else if t == b {
        assert (r[a].gridX, r[a].gridY) == p;
      } else {
        assert (r[t].gridX, r[t].gridY) == p;
      }
    }
  }

  /** The random draws a Fisher-Yates pass over n elements makes. */
  function ShuffleDraws(n: int): int
  {
    if n > 1 then n - 1 else 0
  }

  /**
   * The shuffle loop of reshuffle (MatchSystem.ts:572-582): for i from the
   * last index down to 1, the gem at order[i] exchanges coordinates with the
   * gem at order[j], j the next draw below i + 1. Only coordinates change,
   * the set of occupied cells is the same, and no two gems end on one cell.
   */
  method ShufflePositions(rng: nat -> nat, d0: nat, gems: Gems, order: seq<int>) returns (shuffled: Gems, d: nat)
    requires forall i :: 0 <= i < |order| ==> order[i] in gems
    ensures Moved(gems, shuffled) && Cells(shuffled) == Cells(gems)
    ensures Placeable(gems) ==> Placeable(shuffled)
    ensures d == d0 + ShuffleDraws(|order|)
  {
    shuffled, d := gems, d0;
    var i := |order| - 1;
    while i > 0
      invariant |order| == 0 ==> i == -1 && d == d0
      invariant |order| > 0 ==> 0 <= i < |order| && d == d0 + (|order| - 1 - i)
      invariant Moved(gems, shuffled) && Cells(shuffled) == Cells(gems)
      invariant Placeable(gems) ==> Placeable(shuffled)
    {
      var j := rng(d) % (i + 1);
      d := d + 1;
      SwapMoves(shuffled, order[i], order[j]);
      shuffled := SwapGems(shuffled, order[i], order[j]);
      i := i - 1;
    }
  }

  /**
   * The grid rebuild of reshuffle (MatchSystem.ts:584-588): an empty grid,
   * then every gem's id written at its recorded cell. The result agrees with
   * the registry in both directions.
   */
  method RebuildGrid(gems: Gems, order: seq<int>) returns (grid: Grid)
    requires Placeable(gems)
    requires forall i :: 0 <= i < |order| ==> order[i] in gems
    requires forall t :: t in gems ==> t in order
    ensures Consistent(grid, gems)
  {
    grid := EmptyGrid();
    for i := 0 to |order|
      invariant IsGrid(grid)
      invariant forall j :: 0 <= j < i ==>
        InBounds(gems[order[j]].gridX, gems[order[j]].gridY) && grid[gems[order[j]].gridY][gems[order[j]].gridX] == order[j]
      invariant forall y, x :: 0 <= y < Rows && 0 <= x < Cols && grid[y][x] != 0 ==>
        grid[y][x] in gems && gems[grid[y][x]].gridX == x && gems[grid[y][x]].gridY == y
    {
      var g := gems[order[i]];
      grid := SetCell(grid, g.gridX, g.gridY, order[i]);
    }
    forall t | t in gems
      ensures grid[gems[t].gridY][gems[t].gridX] == t
    {
      var j :| 0 <= j < |order| && order[j] == t;
    }
  }

  // ---------------------------------------------------------------- colours

  /** g1 is g0 with only colours changed. */
  ghost predicate Recoloured(g0: Gems, g1: Gems)
  {
    g1.Keys == g0.Keys && forall t :: t in g0 ==> g1[t] == g0[t].(gemType := g1[t].gemType)
  }

  /** Every gem has one of the first `types` colours. */
  ghost predicate Coloured(gems: Gems, types: int)
  {
    forall t :: t in gems ==> 0 <= gems[t].gemType < types
  }

  lemma RecolouredConsistent(grid: Grid, g0: Gems, g1: Gems)
    requires Consistent(grid, g0) && Recoloured(g0, g1)
    ensures Consistent(grid, g1)
  {
  }

  /**
   * One recolouring pass of resolveInitialBoard (MatchSystem.ts:596-599):
   * every listed gem that is registered gets the next draw below `types` as
   * its colour; nothing else changes. When every listed id is registered and
   * none repeats, the i-th one gets the i-th draw.
   */
  method Recolour(rng: nat -> nat, d0: nat, gems: Gems, ids: seq<int>, types: int) returns (recoloured: Gems, d: nat)
    requires types >= 1
    ensures Recoloured(gems, recoloured)
    ensures forall t :: t in gems && t !in ids ==> recoloured[t] == gems[t]
    ensures forall t :: t in gems && t in ids ==> 0 <= recoloured[t].gemType < types
    ensures d0 <= d <= d0 + |ids|
    ensures (forall i :: 0 <= i < |ids| ==> ids[i] in gems) ==> d == d0 + |ids|
    ensures (forall i :: 0 <= i < |ids| ==> ids[i] in gems) && NoDup(ids) ==>
      forall i :: 0 <= i < |ids| ==> recoloured[ids[i]].gemType == rng(d0 + i) % types
  {
    recoloured, d := gems, d0;
    ghost var allIn := forall i :: 0 <= i < |ids| ==> ids[i] in gems;
    for i := 0 to |ids|
      invariant Recoloured(gems, recoloured)
      invariant forall t :: t in gems && t !in ids[..i] ==> recoloured[t] == gems[t]
      invariant forall t :: t in gems && t in ids[..i] ==> 0 <= recoloured[t].gemType < types
      invariant d0 <= d <= d0 + i
      invariant allIn ==> d == d0 + i
      invariant allIn && NoDup(ids) ==> forall j :: 0 <= j < i ==> recoloured[ids[j]].gemType == rng(d0 + j) % types
    {
      assert ids[..i + 1] == ids[..i] + [ids[i]];
      if ids[i] in recoloured {
        var c := rng(d) % types;
        d := d + 1;
        recoloured := recoloured[ids[i] := recoloured[ids[i]].(gemType := c)];
      }
    }
    assert ids[..|ids|] == ids;
  }

  /**
   * The board part of reshuffle (MatchSystem.ts:569-588): the registry's
   * gems, in Map order, exchange positions, and the grid is rebuilt from the
   * result. The records change only in their coordinates, the same cells are
   * occupied, and grid and registry agree again.
   */
  method ShuffleBoard(rng: nat -> nat, d0: nat, grid: Grid, gems: Gems, nextId: int)
    returns (grid': Grid, gems': Gems, d: nat)
    requires Consistent(grid, gems) && forall t :: t in gems ==> t < nextId
    ensures Consistent(grid', gems')
    ensures Moved(gems, gems') && Cells(gems') == Cells(gems)
    ensures forall y, x :: 0 <= y < Rows && 0 <= x < Cols ==> (grid'[y][x] == 0 <==> grid[y][x] == 0)
    ensures d == d0 + ShuffleDraws(|OrderedIds(gems, 1, nextId)|)
  {
    var order := OrderedIds(gems, 1, nextId);
    ConsistentPlaceable(grid, gems);
    gems', d := ShufflePositions(rng, d0, gems, order);
    grid' := RebuildGrid(gems', order);
    forall y, x | 0 <= y < Rows && 0 <= x < Cols
      ensures grid'[y][x] == 0 <==> grid[y][x] == 0
    {
      Occupancy(grid, gems, x, y);
      Occupancy(grid', gems', x, y);
    }
  }
}
