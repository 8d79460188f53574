/**
 * The grid/registry pair and its bookkeeping invariant: every non-empty cell
 * names a registered gem that records that cell, and every registered gem sits
 * in the cell it records. Every mutation of the core goes through one of the
 * lemmas below.
 */
module Board {
  import opened Types

  predicate InBounds(x: int, y: int)
  {
    0 <= x < Cols && 0 <= y < Rows
  }

  predicate IsGrid(grid: Grid)
  {
    |grid| == Rows && forall y :: 0 <= y < Rows ==> |grid[y]| == Cols
  }

  /** The central bookkeeping invariant, in both directions. */
  ghost predicate Consistent(grid: Grid, gems: Gems)
  {
    && IsGrid(grid)
    && (forall y, x :: 0 <= y < Rows && 0 <= x < Cols && grid[y][x] != 0 ==>
          grid[y][x] in gems && gems[grid[y][x]].gridX == x && gems[grid[y][x]].gridY == y)
    && (forall id :: id in gems ==>
          id > 0 && InBounds(gems[id].gridX, gems[id].gridY) &&
          grid[gems[id].gridY][gems[id].gridX] == id)
  }

  /** grid[y][x] = v */
  function SetCell(grid: Grid, x: int, y: int, v: int): (r: Grid)
    requires IsGrid(grid) && InBounds(x, y)
    ensures IsGrid(r)
    ensures forall y', x' :: 0 <= y' < Rows && 0 <= x' < Cols ==>
      r[y'][x'] == if y' == y && x' == x then v else grid[y'][x']
  {
    grid[y := grid[y][x := v]]
  }

  /** The grid of initializeGrid: every cell empty. */
  function EmptyGrid(): (r: Grid)
    ensures IsGrid(r)
    ensures forall y, x :: 0 <= y < Rows && 0 <= x < Cols ==> r[y][x] == 0
  {
    seq(Rows, _ => seq(Cols, _ => 0))
  }

  /** No cell of the grid is empty. */
  ghost predicate Full(grid: Grid)
    requires IsGrid(grid)
  {
    forall y, x :: 0 <= y < Rows && 0 <= x < Cols ==> grid[y][x] != 0
  }

  /** Writing a fresh id into an empty cell, with its record (spawnGem, special creation). */
  lemma PlaceFresh(grid: Grid, gems: Gems, id: int, g: Gem)
    requires Consistent(grid, gems)
    requires id > 0 && id !in gems
    requires InBounds(g.gridX, g.gridY) && grid[g.gridY][g.gridX] == 0
    ensures Consistent(SetCell(grid, g.gridX, g.gridY, id), gems[id := g])
  {
  }

  /** Zeroing a gem's cell and deleting its record (removeGems). */
  lemma ClearGem(grid: Grid, gems: Gems, id: int)
    requires Consistent(grid, gems) && id in gems
    ensures Consistent(SetCell(grid, gems[id].gridX, gems[id].gridY, 0), gems - {id})
  {
    var r := SetCell(grid, gems[id].gridX, gems[id].gridY, 0);
    forall id' | id' in gems - {id}
      ensures r[gems[id'].gridY][gems[id'].gridX] == id'
    {
    }
  }

  /** Moving a gem into an empty cell: the new cell is written first, then the old one cleared (one gravity step). */
  lemma MoveGem(grid: Grid, gems: Gems, id: int, x: int, y: int)
    requires Consistent(grid, gems) && id in gems
    requires InBounds(x, y) && grid[y][x] == 0
    ensures Consistent(
      SetCell(SetCell(grid, x, y, id), gems[id].gridX, gems[id].gridY, 0),
      gems[id := gems[id].(gridX := x, gridY := y)])
  {
    var g := gems[id];
    var r := SetCell(SetCell(grid, x, y, id), g.gridX, g.gridY, 0);
    var gs := gems[id := g.(gridX := x, gridY := y)];
    forall id' | id' in gs
      ensures r[gs[id'].gridY][gs[id'].gridX] == id'
    {
    }
  }

  /** Changing a record without moving it (marking, recolouring). */
  lemma Relabel(grid: Grid, gems: Gems, id: int, g: Gem)
    requires Consistent(grid, gems) && id in gems
    requires g.gridX == gems[id].gridX && g.gridY == gems[id].gridY
    ensures Consistent(grid, gems[id := g])
  {
  }

  /** Exchanging the cells of two gems (attemptSwap and its revert). */
  function SwapGrid(grid: Grid, gems: Gems, a: int, b: int): (r: Grid)
    requires IsGrid(grid) && a in gems && b in gems
    requires InBounds(gems[a].gridX, gems[a].gridY) && InBounds(gems[b].gridX, gems[b].gridY)
    ensures IsGrid(r)
  {
    SetCell(SetCell(grid, gems[a].gridX, gems[a].gridY, b), gems[b].gridX, gems[b].gridY, a)
  }

  /** The records of a swap: a and b exchange coordinates, every other record is kept. */
  function SwapGems(gems: Gems, a: int, b: int): (r: Gems)
    requires a in gems && b in gems
    ensures r.Keys == gems.Keys
    ensures r[a].gridX == gems[b].gridX && r[a].gridY == gems[b].gridY
    ensures r[b].gridX == gems[a].gridX && r[b].gridY == gems[a].gridY
    ensures r[a].gemType == gems[a].gemType && r[a].special == gems[a].special && r[a].isMatched == gems[a].isMatched
    ensures r[b].gemType == gems[b].gemType && r[b].special == gems[b].special && r[b].isMatched == gems[b].isMatched
    ensures forall t :: t in gems && t != a && t != b ==> r[t] == gems[t]
  {
    gems[a := gems[a].(gridX := gems[b].gridX, gridY := gems[b].gridY)]
        [b := gems[b].(gridX := gems[a].gridX, gridY := gems[a].gridY)]
  }

  /** A swap keeps the bookkeeping invariant. */
  lemma SwapIsConsistent(grid: Grid, gems: Gems, a: int, b: int)
    requires Consistent(grid, gems) && a in gems && b in gems
    ensures Consistent(SwapGrid(grid, gems, a, b), SwapGems(gems, a, b))
  {
    var r := SwapGrid(grid, gems, a, b);
    var gs := SwapGems(gems, a, b);
    var ax, ay, bx, by0 := gems[a].gridX, gems[a].gridY, gems[b].gridX, gems[b].gridY;
    assert a != b ==> ax != bx || ay != by0;
    forall y, x | 0 <= y < Rows && 0 <= x < Cols && r[y][x] != 0
      ensures r[y][x] in gs && gs[r[y][x]].gridX == x && gs[r[y][x]].gridY == y
    {
      if y == by0 && x == bx {
      } else if y == ay && x == ax {
      } else {
        assert r[y][x] == grid[y][x];
        assert grid[y][x] != a && grid[y][x] != b;
      }
    }
    forall id | id in gs
      ensures id > 0 && InBounds(gs[id].gridX, gs[id].gridY) && r[gs[id].gridY][gs[id].gridX] == id
    {
      if id != a && id != b {
        assert gs[id] == gems[id];
      }
    }
  }

  /** Swapping back restores both sides exactly. */
  lemma SwapBack(grid: Grid, gems: Gems, a: int, b: int)
    requires Consistent(grid, gems) && a in gems && b in gems
    ensures SwapGems(SwapGems(gems, a, b), a, b) == gems
    ensures SwapGrid(SwapGrid(grid, gems, a, b), SwapGems(gems, a, b), a, b) == grid
  {
    var gs := SwapGems(gems, a, b);
    var r := SwapGrid(grid, gems, a, b);
    var back := SwapGrid(r, gs, a, b);
    var ax, ay, bx, by0 := gems[a].gridX, gems[a].gridY, gems[b].gridX, gems[b].gridY;
    assert a != b ==> ax != bx || ay != by0;
    if a == b {
      assert gs == gems;
    }
    assert gs[a].gridX == bx && gs[a].gridY == by0 && gs[b].gridX == ax && gs[b].gridY == ay;
    assert SwapGems(gs, a, b) == gems;
    forall y | 0 <= y < Rows
      ensures back[y] == grid[y]
    {
      forall x | 0 <= x < Cols
        ensures back[y][x] == grid[y][x]
      {
      }
    }
  }

  /** The registry changed only by raising isMatched flags. */
  ghost predicate MarksOnly(g0: Gems, g1: Gems)
  {
    && g1.Keys == g0.Keys
    && (forall t :: t in g0 ==> g1[t] == g0[t].(isMatched := g1[t].isMatched))
    && (forall t :: t in g0 && g0[t].isMatched ==> g1[t].isMatched)
  }

  /** The gems whose flags went from unmatched to matched. */
  ghost function Newly(g0: Gems, g1: Gems): set<int>
  {
    set t | t in g0 && t in g1 && !g0[t].isMatched && g1[t].isMatched
  }

  /** The unmatched gems: what a trigger can still reach. */
  ghost function Unmatched(gems: Gems): set<int>
  {
    set t | t in gems && !gems[t].isMatched
  }

  lemma MarksOnlyConsistent(grid: Grid, g0: Gems, g1: Gems)
    requires Consistent(grid, g0) && MarksOnly(g0, g1)
    ensures Consistent(grid, g1)
  {
  }

  lemma {:induction false} MarksOnlyRefl(g: Gems)
    ensures MarksOnly(g, g) && Newly(g, g) == {}
  {
    forall t | t in g
      ensures g[t] == g[t].(isMatched := g[t].isMatched)
    {
    }
  }

  /** Raising flags twice is raising flags once, and the newly matched sets add up. */
  lemma MarksOnlyTrans(g0: Gems, g1: Gems, g2: Gems)
    requires MarksOnly(g0, g1) && MarksOnly(g1, g2)
    ensures MarksOnly(g0, g2)
    ensures Newly(g0, g2) == Newly(g0, g1) + Newly(g1, g2)
    ensures Newly(g0, g1) !! Newly(g1, g2)
  {
    forall t | t in Newly(g0, g2)
      ensures t in Newly(g0, g1) + Newly(g1, g2)
    {
      if g1[t].isMatched {
        assert t in Newly(g0, g1);
      } else {
        assert t in Newly(g1, g2);
      }
    }
    forall t | t in Newly(g0, g1) + Newly(g1, g2)
      ensures t in Newly(g0, g2)
    {
    }
  }

  /** Marking one unmatched gem. */
  lemma MarkOne(g0: Gems, t: int)
    requires t in g0 && !g0[t].isMatched
    ensures MarksOnly(g0, g0[t := g0[t].(isMatched := true)])
    ensures Newly(g0, g0[t := g0[t].(isMatched := true)]) == {t}
  {
  }

  /** Marking one gem that may already be matched. */
  lemma MarkAny(g0: Gems, t: int)
    requires t in g0
    ensures MarksOnly(g0, g0[t := g0[t].(isMatched := true)])
    ensures Newly(g0, g0[t := g0[t].(isMatched := true)]) == if g0[t].isMatched then {} else {t}
  {
  }

  /** Each marked gem leaves the unmatched set. */
  lemma UnmatchedShrinks(g0: Gems, g1: Gems, t: int)
    requires MarksOnly(g0, g1) && t in g0 && !g0[t].isMatched && g1[t].isMatched
    ensures Unmatched(g1) < Unmatched(g0)
  {
    assert t in Unmatched(g0) && t !in Unmatched(g1);
    forall u | u in Unmatched(g1)
      ensures u in Unmatched(g0)
    {
    }
  }

  /** seq has no repeated element */
  predicate NoDup(s: seq<int>)
  {
    forall i, j :: 0 <= i < j < |s| ==> s[i] != s[j]
  }

  function Elems(s: seq<int>): set<int>
  {
    set v | v in s
  }

  lemma NoDupConcat(a: seq<int>, b: seq<int>)
    requires NoDup(a) && NoDup(b) && Elems(a) !! Elems(b)
    ensures NoDup(a + b) && Elems(a + b) == Elems(a) + Elems(b)
  {
    forall i, j | 0 <= i < j < |a + b|
      ensures (a + b)[i] != (a + b)[j]
    {
      if j >= |a| && i < |a| {
        assert a[i] in Elems(a) && b[j - |a|] in Elems(b);
      }
    }
  }

  /**
   * The registry's ids in Map iteration order. Ids are handed out in
   * increasing order and never reused, so insertion order is ascending id order.
   */
  function OrderedIds(gems: Gems, lo: int, hi: int): (r: seq<int>)
    ensures forall i :: 0 <= i < |r| ==> r[i] in gems && lo <= r[i] < hi
    ensures forall t :: t in gems && lo <= t < hi ==> t in r
    ensures forall i, j :: 0 <= i < j < |r| ==> r[i] < r[j]
    decreases hi - lo
  {
    if lo >= hi then []
    else if lo in gems then [lo] + OrderedIds(gems, lo + 1, hi)
    else OrderedIds(gems, lo + 1, hi)
  }
}
