/**
 * The match pipeline of MatchSystem (engine/systems/MatchSystem.ts):
 * processMatches and its cascade, attemptSwap, useBombItem, reshuffle,
 * startLevel and resolveInitialBoard, built on the detection of Matching,
 * the blasts of Specials and the removal and refill of Gravity.
 */
module MatchSystem {
  import opened Types
  import opened Board
  import opened GameEngine
  import opened Matching
  import opened Specials
  import opened Gravity
  import opened Rearrange

  /** Every id findMatches reports is a registered gem. */
  lemma MatchedInGems(grid: Grid, gems: Gems)
    requires IsGrid(grid)
    ensures forall t :: t in MatchedIds(grid, gems) ==> t in gems
  {
    forall t | t in MatchedIds(grid, gems)
      ensures t in gems
    {
      var h: bool, line, i :| 0 <= line < Lines(h) && 0 <= i < LineLen(h) && InRun(grid, gems, h, line, i)
        && t == At(grid, h, line, i);
      var a, b, c :| a <= i <= b && Run(grid, gems, h, line, a, b, c);
      assert TypeAt(grid, gems, h, line, i, c);
    }
  }

  // ------------------------------------------------ step 2: specials to create

  predicate GroupsIn(gems: Gems, groups: seq<seq<int>>)
  {
    forall k, i :: 0 <= k < |groups| && 0 <= i < |groups[k]| ==> groups[k][i] in gems
  }

  /** group.map(id => gems.get(id)!) */
  function Members(gems: Gems, group: seq<int>): (r: seq<Gem>)
    requires forall i :: 0 <= i < |group| ==> group[i] in gems
    ensures |r| == |group| && forall i :: 0 <= i < |group| ==> r[i] == gems[group[i]]
  {
    seq(|group|, i requires 0 <= i < |group| => gems[group[i]])
  }

  /** What one group contributes to gemsToCreate: groups under three are skipped, the rest classified. */
  function GroupSpawn(gems: Gems, group: seq<int>): Spawn
    requires forall i :: 0 <= i < |group| ==> group[i] in gems
  {
    if |group| < 3 then NoSpawn else ClassifyGroup(Members(gems, group))
  }

  /** The specials processMatches creates, one per group of four or more, in group order. */
  function Creations(gems: Gems, groups: seq<seq<int>>): (r: seq<Spawn>)
    requires GroupsIn(gems, groups)
    ensures |r| <= |groups|
    ensures forall j :: 0 <= j < |r| ==> r[j].Spawn?
    ensures r == [] <==> forall k :: 0 <= k < |groups| ==> |groups[k]| < 4
  {
    if |groups| == 0 then []
    else
      var s := GroupSpawn(gems, groups[|groups| - 1]);
      Creations(gems, groups[..|groups| - 1]) + if s.Spawn? then [s] else []
  }

  /** The gemsToCreate loop of processMatches (MatchSystem.ts:342-410). */
  method PlanSpecials(gems: Gems, groups: seq<seq<int>>) returns (creations: seq<Spawn>)
    requires GroupsIn(gems, groups)
    ensures creations == Creations(gems, groups)
  {
    creations := [];
    for k := 0 to |groups|
      invariant creations == Creations(gems, groups[..k])
    {
      assert groups[..k + 1][..k] == groups[..k];
      var group := groups[k];
      if |group| >= 3 {
        var s := ClassifyGroup(Members(gems, group));
        if s.Spawn? {
          creations := creations + [s];
        }
      }
    }
    assert groups[..|groups|] == groups;
  }

  /** Which member a spawn sits on. */
  ghost function SpawnIndex(members: seq<Gem>, s: Spawn): (k: int)
    requires s.Spawn? && exists k :: SpawnsAt(members, s, k)
    ensures SpawnsAt(members, s, k)
  {
    var k :| SpawnsAt(members, s, k); k
  }

  /** For each created special, the matched gem whose cell it takes. */
  ghost function Sources(gems: Gems, groups: seq<seq<int>>): (r: seq<int>)
    requires GroupsIn(gems, groups)
    ensures |r| == |Creations(gems, groups)|
  {
    if |groups| == 0 then []
    else
      var g := groups[|groups| - 1];
      var s := GroupSpawn(gems, g);
      Sources(gems, groups[..|groups| - 1]) + if s.Spawn? then [g[SpawnIndex(Members(gems, g), s)]] else []
  }

  /**
   * Each special is created on the cell of a distinct member of its group,
   * so the cells of gemsToCreate are cells of matched gems and pairwise distinct.
   */
  lemma {:induction false} SourcesFacts(gems: Gems, groups: seq<seq<int>>)
    requires GroupsIn(gems, groups)
    ensures forall j :: 0 <= j < |Sources(gems, groups)| ==>
      && Sources(gems, groups)[j] in Elems(Flatten(groups))
      && Sources(gems, groups)[j] in gems
      && Creations(gems, groups)[j].x == gems[Sources(gems, groups)[j]].gridX
      && Creations(gems, groups)[j].y == gems[Sources(gems, groups)[j]].gridY
    ensures NoDup(Flatten(groups)) ==> NoDup(Sources(gems, groups))
  {
    if |groups| > 0 {
      var init := groups[..|groups| - 1];
      var g := groups[|groups| - 1];
      assert GroupsIn(gems, init);
      SourcesFacts(gems, init);
      assert Flatten(groups) == Flatten(init) + g;
      var s := GroupSpawn(gems, g);
      var rs, cs := Sources(gems, groups), Creations(gems, groups);
      var ri, ci := Sources(gems, init), Creations(gems, init);
      ElemsConcat(Flatten(init), g);
      if s.Spawn? {
        var k := SpawnIndex(Members(gems, g), s);
        assert rs == ri + [g[k]] && cs == ci + [s];
        assert g[k] in Elems(g);
        if NoDup(Flatten(groups)) {
          NoDupSplit(Flatten(init), g);
          assert g[k] !in Elems(ri);
        }
      } else {
        assert rs == ri && cs == ci;
        if NoDup(Flatten(groups)) {
          NoDupSplit(Flatten(init), g);
        }
      }
    }
  }

  lemma ElemsConcat(a: seq<int>, b: seq<int>)
    ensures Elems(a + b) == Elems(a) + Elems(b)
  {
    forall v | v in Elems(a + b)
      ensures v in Elems(a) + Elems(b)
    {
      var i :| 0 <= i < |a + b| && (a + b)[i] == v;
      if i >= |a| {
        assert b[i - |a|] == v;
      }
    }
  }

  lemma NoDupSplit(a: seq<int>, b: seq<int>)
    requires NoDup(a + b)
    ensures NoDup(a) && NoDup(b) && Elems(a) !! Elems(b)
  {
    assert forall i :: 0 <= i < |a| ==> (a + b)[i] == a[i];
    assert forall i :: 0 <= i < |b| ==> (a + b)[|a| + i] == b[i];
    forall v | v in Elems(a)
      ensures v !in Elems(b)
    {
      var i :| 0 <= i < |a| && a[i] == v;
      forall j | 0 <= j < |b|
        ensures b[j] != v
      {
        assert (a + b)[i] != (a + b)[|a| + j];
      }
    }
  }

  /** Each member of a group is in the flattened list. */
  lemma {:induction false} FlattenHas(groups: seq<seq<int>>, k: int, i: int)
    requires 0 <= k < |groups| && 0 <= i < |groups[k]|
    ensures groups[k][i] in Elems(Flatten(groups))
  {
    var init := groups[..|groups| - 1];
    assert Flatten(groups) == Flatten(init) + groups[|groups| - 1];
    ElemsConcat(Flatten(init), groups[|groups| - 1]);
    if k < |groups| - 1 {
      assert init[k] == groups[k];
      FlattenHas(init, k, i);
    } else {
      assert groups[k][i] in Elems(groups[|groups| - 1]);
    }
  }

  /** Groups drawn from registered ids hold registered ids only. */
  lemma GroupsOfMatches(gems: Gems, groups: seq<seq<int>>, matches: seq<int>)
    requires Elems(Flatten(groups)) == Elems(matches)
    requires forall i :: 0 <= i < |matches| ==> matches[i] in gems
    ensures GroupsIn(gems, groups)
  {
    forall k, i | 0 <= k < |groups| && 0 <= i < |groups[k]|
      ensures groups[k][i] in gems
    {
      FlattenHas(groups, k, i);
    }
  }

  // ------------------------------------------------ step 3: mark the matches

  /** The matches forEach of processMatches (MatchSystem.ts:413-421): every listed gem is marked and set off. */
  method MarkMatches(e: Engine, matches: seq<int>) returns (ghost trail: seq<Mark>)
    requires e.Valid()
    modifies e`gems, e`score, e`draws
    ensures e.Valid() && MarksOnly(old(e.gems), e.gems)
    ensures forall t :: t in matches && t in e.gems ==> e.gems[t].isMatched && Fired(e.grid, e.gems, t)
    ensures Ids(trail) == Newly(old(e.gems), e.gems) && Traced(old(e.gems), Elems(matches), Elems(matches), trail)
    ensures DirectIds(trail) <= Elems(matches)
    ensures Chained(e.grid, e.gems, Newly(old(e.gems), e.gems) - DirectIds(trail))
    ensures e.score == old(e.score) + 20 * |Newly(old(e.gems), e.gems) - DirectIds(trail)|
  {
    ghost var g0, s0 := e.gems, e.score;
    trail := [];
    MarksOnlyRefl(g0);
    EmptyTrail(g0, Elems(matches), Elems(matches));
    for i := 0 to |matches|
      invariant e.Valid() && MatchInv(e.grid, g0, e.gems, s0, e.score, matches, i, trail)
    {
      trail := MatchVisit(e, matches, i, g0, s0, trail);
    }
    MatchDone(e.grid, g0, e.gems, matches);
    DirectSeeds(g0, Elems(matches), Elems(matches), trail);
  }

  /** The marking loop after the first i listed ids. */
  ghost predicate MatchInv(grid: Grid, g0: Gems, gems: Gems, s0: int, score: int, matches: seq<int>, i: int,
                           trail: seq<Mark>)
    requires IsGrid(grid) && 0 <= i <= |matches|
  {
    && MarksOnly(g0, gems)
    && Ids(trail) == Newly(g0, gems) && Traced(g0, Elems(matches), Elems(matches), trail)
    && Chained(grid, gems, Newly(g0, gems) - DirectIds(trail))
    && score == s0 + 20 * |Newly(g0, gems) - DirectIds(trail)|
    && forall j :: 0 <= j < i && matches[j] in gems ==> gems[matches[j]].isMatched && Fired(grid, gems, matches[j])
  }

  lemma MatchDone(grid: Grid, g0: Gems, gems: Gems, matches: seq<int>)
    requires IsGrid(grid)
    requires forall j :: 0 <= j < |matches| && matches[j] in gems ==>
      gems[matches[j]].isMatched && Fired(grid, gems, matches[j])
    ensures forall t :: t in matches && t in gems ==> gems[t].isMatched && Fired(grid, gems, t)
  {
    forall t | t in matches && t in gems
      ensures gems[t].isMatched && Fired(grid, gems, t)
    {
      var j :| 0 <= j < |matches| && matches[j] == t;
    }
  }

  /** One call of the forEach callback: `if (g)`, mark it and set it off. */
  method MatchVisit(e: Engine, matches: seq<int>, i: int, ghost g0: Gems, ghost s0: int, ghost trail: seq<Mark>)
    returns (ghost trail': seq<Mark>)
    requires e.Valid() && 0 <= i < |matches|
    requires MatchInv(e.grid, g0, e.gems, s0, e.score, matches, i, trail)
    modifies e`gems, e`score, e`draws
    ensures e.Valid() && MatchInv(e.grid, g0, e.gems, s0, e.score, matches, i + 1, trail')
  {
    var t := matches[i];
    if t in e.gems {
      ghost var ga, sa := e.gems, e.score;
      ghost var tr := MatchOne(e, t);
      MatchAfter(e.grid, g0, ga, e.gems, s0, sa, e.score, matches, i, trail, tr);
      trail' := trail + tr;
    } else {
      trail' := trail;
    }
  }

  /** The loop state after one listed gem. */
  lemma MatchAfter(grid: Grid, g0: Gems, ga: Gems, gf: Gems, s0: int, sa: int, sf: int, matches: seq<int>, i: int,
                   trail: seq<Mark>, tr: seq<Mark>)
    requires IsGrid(grid) && 0 <= i < |matches| && matches[i] in ga
    requires MatchInv(grid, g0, ga, s0, sa, matches, i, trail)
    requires MarksOnly(ga, gf) && gf[matches[i]].isMatched && Fired(grid, gf, matches[i])
    requires Ids(tr) == Newly(ga, gf) && Traced(ga, {matches[i]}, {matches[i]}, tr)
    requires DirectIds(tr) == if ga[matches[i]].isMatched then {} else {matches[i]}
    requires Chained(grid, gf, Newly(ga, gf) - DirectIds(tr))
    requires sf == sa + 20 * |Newly(ga, gf) - DirectIds(tr)|
    ensures MatchInv(grid, g0, gf, s0, sf, matches, i + 1, trail + tr)
  {
    var t := matches[i];
    DirectInIds(trail);
    DirectInIds(tr);
    ColourStep(grid, g0, ga, gf, DirectIds(trail), DirectIds(tr), s0, sa, sf);
    assert {t} <= Elems(matches);
    TrailStep(g0, ga, gf, Elems(matches), Elems(matches), {t}, {t}, trail, tr);
    MatchStep(grid, ga, gf, matches, i);
  }

  lemma MatchStep(grid: Grid, ga: Gems, gf: Gems, matches: seq<int>, i: int)
    requires IsGrid(grid) && MarksOnly(ga, gf) && 0 <= i < |matches| && matches[i] in gf
    requires forall j :: 0 <= j < i && matches[j] in ga ==> ga[matches[j]].isMatched && Fired(grid, ga, matches[j])
    requires gf[matches[i]].isMatched && Fired(grid, gf, matches[i])
    ensures forall j :: 0 <= j < i + 1 && matches[j] in gf ==> gf[matches[j]].isMatched && Fired(grid, gf, matches[j])
  {
    forall j | 0 <= j < i && matches[j] in gf
      ensures gf[matches[j]].isMatched && Fired(grid, gf, matches[j])
    {
      FiredMono(grid, ga, gf, matches[j]);
    }
  }

  /** One listed gem: marked, then triggerSpecial (which does nothing for a plain gem). */
  method MatchOne(e: Engine, t: int) returns (ghost tr: seq<Mark>)
    requires e.Valid() && t in e.gems
    modifies e`gems, e`score, e`draws
    ensures e.Valid() && MarksOnly(old(e.gems), e.gems) && e.gems[t].isMatched && Fired(e.grid, e.gems, t)
    ensures Ids(tr) == Newly(old(e.gems), e.gems) && Traced(old(e.gems), {t}, {t}, tr)
    ensures DirectIds(tr) == if old(e.gems)[t].isMatched then {} else {t}
    ensures Chained(e.grid, e.gems, Newly(old(e.gems), e.gems) - DirectIds(tr))
    ensures e.score == old(e.score) + 20 * |Newly(old(e.gems), e.gems) - DirectIds(tr)|
  {
    ghost var ga := e.gems;
    MarkAny(e.gems, t);
    ghost var head := if e.gems[t].isMatched then [] else [Mark(t, Direct)];
    e.gems := e.gems[t := e.gems[t].(isMatched := true)];
    MarksOnlyConsistent(e.grid, ga, e.gems);
    ghost var gb := e.gems;
    ghost var chain := TriggerSpecial(e, t);
    MarkThen(ga, gb, e.gems, t);
    DirectHead(ga, gb, e.gems, t, {t}, {t}, head, chain);
    tr := head + chain;
  }

  // ------------------------------------------------ step 5: create the specials

  /** The cells of the planned specials are on the board, empty and pairwise distinct. */
  ghost predicate FreeCells(grid: Grid, creations: seq<Spawn>)
    requires IsGrid(grid)
  {
    && (forall j :: 0 <= j < |creations| ==>
          creations[j].Spawn? && InBounds(creations[j].x, creations[j].y) &&
          grid[creations[j].y][creations[j].x] == 0)
    && (forall j, k :: 0 <= j < k < |creations| && creations[j].Spawn? && creations[k].Spawn? ==>
          creations[j].x != creations[k].x || creations[j].y != creations[k].y)
  }

  /** The record of a created special. */
  function SpecialGem(c: Spawn): (g: Gem)
    requires c.Spawn?
    ensures g.gridX == c.x && g.gridY == c.y && g.gemType == c.gemType && g.special == c.special && !g.isMatched
  {
    Gem(c.x, c.y, c.gemType, c.special, false)
  }

  /** One of the first k planned specials sits on (x, y). */
  ghost predicate Covered(creations: seq<Spawn>, k: int, x: int, y: int)
  {
    exists j :: 0 <= j < k && j < |creations| && creations[j].Spawn? && creations[j].x == x && creations[j].y == y
  }

  /** The first k specials have been created, with ids n0, n0 + 1, ..., and nothing else changed. */
  ghost predicate Placed(grid0: Grid, gems0: Gems, n0: int, creations: seq<Spawn>, k: int, grid: Grid, gems: Gems)
    requires IsGrid(grid0) && IsGrid(grid) && 0 <= k <= |creations|
    requires forall j :: 0 <= j < |creations| ==> creations[j].Spawn?
  {
    && (forall t :: t in gems <==> t in gems0 || n0 <= t < n0 + k)
    && (forall t :: t in gems0 ==> gems[t] == gems0[t])
    && (forall j :: 0 <= j < k ==> gems[n0 + j] == SpecialGem(creations[j]))
    && (forall y, x :: 0 <= y < Rows && 0 <= x < Cols && !Covered(creations, k, x, y) ==> grid[y][x] == grid0[y][x])
  }

  /** The state of the creation loop after k specials. */
  ghost predicate PlaceInv(grid0: Grid, gems0: Gems, n0: int, creations: seq<Spawn>, k: int,
                           grid: Grid, gems: Gems, n: int)
  {
    && Consistent(grid0, gems0) && Consistent(grid, gems) && FreeCells(grid0, creations)
    && 0 <= k <= |creations| && n == n0 + k && n0 >= 1
    && (forall t :: t in gems0 ==> t < n0)
    && (forall t :: t in gems ==> t < n)
    && Placed(grid0, gems0, n0, creations, k, grid, gems)
    && forall j :: k <= j < |creations| ==> grid[creations[j].y][creations[j].x] == 0
  }

  /** gemsToCreate.forEach (MatchSystem.ts:427-445): each special takes the next id and its planned cell. */
  method PlaceSpecials(grid: Grid, gems: Gems, nextId: int, creations: seq<Spawn>)
    returns (grid': Grid, gems': Gems, nextId': int)
    requires Consistent(grid, gems) && nextId >= 1 && forall t :: t in gems ==> t < nextId
    requires FreeCells(grid, creations)
    ensures Consistent(grid', gems') && nextId' == nextId + |creations|
    ensures forall t :: t in gems' ==> t < nextId'
    ensures Placed(grid, gems, nextId, creations, |creations|, grid', gems')
  {
    grid', gems', nextId' := grid, gems, nextId;
    PlaceInvInit(grid, gems, nextId, creations);
    for k := 0 to |creations|
      invariant PlaceInv(grid, gems, nextId, creations, k, grid', gems', nextId')
    {
      ghost var gridA, gemsA := grid', gems';
      var c := creations[k];
      var id := nextId';
      nextId' := nextId' + 1;
      gems' := gems'[id := SpecialGem(c)];
      grid' := SetCell(grid', c.x, c.y, id);
      PlaceInvStep(grid, gems, nextId, creations, k, gridA, gemsA, grid', gems', nextId');
    }
  }

  lemma PlaceInvInit(grid: Grid, gems: Gems, n0: int, creations: seq<Spawn>)
    requires Consistent(grid, gems) && n0 >= 1 && forall t :: t in gems ==> t < n0
    requires FreeCells(grid, creations)
    ensures PlaceInv(grid, gems, n0, creations, 0, grid, gems, n0)
  {
  }

  lemma PlaceInvStep(grid0: Grid, gems0: Gems, n0: int, creations: seq<Spawn>, k: int,
                     grid: Grid, gems: Gems, grid': Grid, gems': Gems, n': int)
    requires PlaceInv(grid0, gems0, n0, creations, k, grid, gems, n' - 1) && k < |creations|
    requires gems' == gems[n' - 1 := SpecialGem(creations[k])]
    requires grid' == SetCell(grid, creations[k].x, creations[k].y, n' - 1)
    ensures PlaceInv(grid0, gems0, n0, creations, k + 1, grid', gems', n')
  {
    var c := creations[k];
    PlaceFresh(grid, gems, n' - 1, SpecialGem(c));
    forall t | t in gems0
      ensures gems'[t] == gems0[t]
    {
      assert t < n0;
    }
    forall j | 0 <= j < k + 1
      ensures gems'[n0 + j] == SpecialGem(creations[j])
    {
      if j < k {
        assert n0 + j != n' - 1;
      }
    }
    forall j | k + 1 <= j < |creations|
      ensures grid'[creations[j].y][creations[j].x] == 0
    {
      assert creations[j].x != c.x || creations[j].y != c.y;
    }
    forall y, x | 0 <= y < Rows && 0 <= x < Cols && !Covered(creations, k + 1, x, y)
      ensures grid'[y][x] == grid0[y][x]
    {
      assert !Covered(creations, k, x, y);
      assert x != c.x || y != c.y;
    }
  }

  /** createSpecials on the engine. */
  method CreateSpecials(e: Engine, creations: seq<Spawn>)
    requires e.Valid() && FreeCells(e.grid, creations)
    modifies e`grid, e`gems, e`nextId
    ensures e.Valid() && e.nextId == old(e.nextId) + |creations|
    ensures Placed(old(e.grid), old(e.gems), old(e.nextId), creations, |creations|, e.grid, e.gems)
  {
    e.grid, e.gems, e.nextId := PlaceSpecials(e.grid, e.gems, e.nextId, creations);
  }

  /** Each planned special sits on a matched gem, and no two share a cell. */
  ghost predicate OnMatched(grid: Grid, gems: Gems, creations: seq<Spawn>)
    requires IsGrid(grid)
  {
    && (forall j :: 0 <= j < |creations| ==>
          && creations[j].Spawn? && InBounds(creations[j].x, creations[j].y)
          && grid[creations[j].y][creations[j].x] in gems
          && gems[grid[creations[j].y][creations[j].x]].isMatched)
    && (forall j, k :: 0 <= j < k < |creations| && creations[j].Spawn? && creations[k].Spawn? ==>
          creations[j].x != creations[k].x || creations[j].y != creations[k].y)
  }

  /**
   * Once the listed gems are marked, every planned special sits on one of them:
   * on the matched member it replaces, and distinct members had distinct cells.
   */
  lemma SpawnsOnMatched(grid: Grid, g0: Gems, g1: Gems, groups: seq<seq<int>>, matches: seq<int>)
    requires Consistent(grid, g0) && MarksOnly(g0, g1)
    requires GroupsIn(g0, groups) && NoDup(Flatten(groups)) && Elems(Flatten(groups)) == Elems(matches)
    requires forall t :: t in matches && t in g1 ==> g1[t].isMatched
    ensures OnMatched(grid, g1, Creations(g0, groups))
  {
    SourcesFacts(g0, groups);
    var src, cr := Sources(g0, groups), Creations(g0, groups);
    forall j | 0 <= j < |cr|
      ensures InBounds(cr[j].x, cr[j].y) && grid[cr[j].y][cr[j].x] in g1 && g1[grid[cr[j].y][cr[j].x]].isMatched
    {
      var t := src[j];
      assert t in Elems(matches);
      assert grid[cr[j].y][cr[j].x] == t;
    }
    forall j, k | 0 <= j < k < |cr|
      ensures cr[j].x != cr[k].x || cr[j].y != cr[k].y
    {
      assert src[j] != src[k];
      assert grid[cr[j].y][cr[j].x] == src[j] && grid[cr[k].y][cr[k].x] == src[k];
    }
  }

  /** Removing the matched gems frees the cells the specials are planned on. */
  lemma RemovalFrees(grid: Grid, gems: Gems, grid2: Grid, g2: Gems, creations: seq<Spawn>)
    requires IsGrid(grid) && OnMatched(grid, gems, creations)
    requires IsGrid(grid2) && forall t :: t in g2 <==> t in gems && !gems[t].isMatched
    requires forall y, x :: 0 <= y < Rows && 0 <= x < Cols ==>
      grid2[y][x] == if grid[y][x] in g2 then grid[y][x] else 0
    ensures FreeCells(grid2, creations)
  {
  }

  // ------------------------------------------------ processMatches

  /**
   * Steps 1 to 3 of processMatches (MatchSystem.ts:321-424): the combo grows,
   * the matches are grouped, the specials are planned, the listed gems are
   * marked and set off and the round is scored.
   */
  method MarkRound(e: Engine, matches: seq<int>) returns (groups: seq<seq<int>>, creations: seq<Spawn>, ghost trail: seq<Mark>)
    requires e.Valid() && e.ComboValid()
    requires forall i :: 0 <= i < |matches| ==> matches[i] in e.gems
    modifies e`combo, e`comboTimer, e`events, e`gems, e`score, e`draws
    ensures e.Valid() && e.ComboValid()
    ensures e.combo == old(e.combo) + 1 && e.comboTimer == ComboTimeLimit
    ensures e.events == old(e.events) + if |groups| >= 2 then [MultiMatch] else []
    ensures Marked(e.grid, old(e.gems), e.gems, old(e.score), e.score, e.combo, matches, groups, creations, trail)
  {
    e.combo := e.combo + 1;
    e.comboTimer := ComboTimeLimit;
    groups := GroupMatches(e.grid, e.gems, matches);
    var multi := |groups| >= 2;
    if multi {
      e.events := e.events + [MultiMatch];
    }
    GroupsOfMatches(e.gems, groups, matches);
    creations := PlanSpecials(e.gems, groups);
    ghost var g0, s0 := e.gems, e.score;
    trail := MarkMatches(e, matches);
    ghost var sm := e.score;
    e.score := e.score + |matches| * ((if multi then 20 else 10) + e.combo);
    MarkedIntro(e.grid, g0, e.gems, s0, sm, e.score, e.combo, matches, groups, creations, trail);
  }

  lemma MarkedIntro(grid: Grid, g0: Gems, g1: Gems, s0: int, sm: int, s1: int, combo: int, matches: seq<int>,
                    groups: seq<seq<int>>, creations: seq<Spawn>, trail: seq<Mark>)
    requires Consistent(grid, g0) && forall i :: 0 <= i < |matches| ==> matches[i] in g0
    requires NoDup(Flatten(groups)) && Elems(Flatten(groups)) == Elems(matches) && GroupsIn(g0, groups)
    requires creations == Creations(g0, groups)
    requires MarksOnly(g0, g1)
    requires forall t :: t in matches && t in g1 ==> g1[t].isMatched && Fired(grid, g1, t)
    requires Ids(trail) == Newly(g0, g1) && Traced(g0, Elems(matches), Elems(matches), trail)
    requires Chained(grid, g1, Newly(g0, g1) - DirectIds(trail))
    requires sm == s0 + 20 * |Newly(g0, g1) - DirectIds(trail)|
    requires s1 == sm + |matches| * ((if |groups| >= 2 then 20 else 10) + combo)
    ensures Marked(grid, g0, g1, s0, s1, combo, matches, groups, creations, trail)
  {
    forall t | t in matches
      ensures t in g1
    {
      var i :| 0 <= i < |matches| && matches[i] == t;
    }
    SpawnsOnMatched(grid, g0, g1, groups, matches);
  }

  /**
   * What steps 1 to 3 leave behind, from registry g0 and score s0 to g1 and
   * s1: the groups partition the matches, the planned specials are those of
   * the groups, every listed gem is matched and has gone off, each gem its
   * blasts marked is worth 20 and the listed gems are scored by the combo
   * (with the multi-match bonus for two groups or more); the planned specials
   * sit on matched gems. The trail lists every newly matched gem: a direct
   * mark of a listed gem, or a gem in the blast of a listed gem or of a gem a
   * blast marked earlier.
   */
  ghost predicate Marked(grid: Grid, g0: Gems, g1: Gems, s0: int, s1: int, combo: int, matches: seq<int>,
                         groups: seq<seq<int>>, creations: seq<Spawn>, trail: seq<Mark>)
  {
    && IsGrid(grid)
    && NoDup(Flatten(groups)) && Elems(Flatten(groups)) == Elems(matches) && GroupsIn(g0, groups)
    && creations == Creations(g0, groups)
    && MarksOnly(g0, g1)
    && (forall t :: t in matches ==> t in g1 && g1[t].isMatched && Fired(grid, g1, t))
    && Ids(trail) == Newly(g0, g1) && Traced(g0, Elems(matches), Elems(matches), trail)
    && Chained(grid, g1, Newly(g0, g1) - DirectIds(trail))
    && s1 == s0 + 20 * |Newly(g0, g1) - DirectIds(trail)| + |matches| * ((if |groups| >= 2 then 20 else 10) + combo)
    && OnMatched(grid, g1, creations)
  }

  /**
   * Steps 4 to 6 of processMatches (MatchSystem.ts:428-449), shared with
   * useBombItem when nothing is planned: the matched gems are removed, the
   * planned specials created, and the board falls and refills.
   */
  method ClearAndRefill(e: Engine, creations: seq<Spawn>)
    requires e.Valid() && OnMatched(e.grid, e.gems, creations)
    modifies e`grid, e`gems, e`nextId, e`draws
    ensures e.Valid() && Full(e.grid)
    ensures Rebuilt(old(e.gems), old(e.nextId), creations, e.gems, e.nextId)
  {
    ghost var grid1, g1, n1 := e.grid, e.gems, e.nextId;
    RemoveGems(e);
    ghost var grid2, g2 := e.grid, e.gems;
    RemovalFrees(grid1, g1, e.grid, e.gems, creations);
    CreateSpecials(e, creations);
    ghost var grid3, g3, n3, d3 := e.grid, e.gems, e.nextId, e.draws;
    ghost var tops := ApplyGravity(e);
    RoundRegistry(grid2, grid3, g1, g2, g3, e.gems, n1, n3, e.nextId, creations, LevelGemTypes(e.level), e.rng, d3, e.draws);
  }

  /**
   * The registry g4 after a round's removal, creation and refill, against g1
   * before removal: the matched gems are gone, survivors only sank, the
   * planned specials hold the ids from n1 on, and every other id is new.
   */
  ghost predicate Rebuilt(g1: Gems, n1: int, creations: seq<Spawn>, g4: Gems, n4: int)
    requires forall j :: 0 <= j < |creations| ==> creations[j].Spawn?
  {
    && n4 >= n1 + |creations|
    && (forall t :: t in g1 ==> (t in g4 <==> !g1[t].isMatched))
    && (forall t :: t in g1 && t in g4 ==> g4[t] == g1[t].(gridY := g4[t].gridY) && g4[t].gridY >= g1[t].gridY)
    && (forall j :: 0 <= j < |creations| ==>
          n1 + j in g4 && g4[n1 + j] == SpecialGem(creations[j]).(gridY := g4[n1 + j].gridY))
    && (forall t :: t in g4 ==> t in g1 || t >= n1)
  }

  /** How the registry after refilling relates to the one before removal. */
  lemma RoundRegistry(grid2: Grid, grid3: Grid, g1: Gems, g2: Gems, g3: Gems, g4: Gems, n1: int, n3: int, n4: int,
                      creations: seq<Spawn>, types: int, rng: nat -> nat, d3: nat, d4: nat)
    requires forall t :: t in g1 ==> t < n1
    requires forall t :: t in g2 <==> t in g1 && !g1[t].isMatched
    requires forall t :: t in g2 ==> g2[t] == g1[t]
    requires IsGrid(grid2) && FreeCells(grid2, creations)
    requires n3 == n1 + |creations|
    requires IsGrid(grid3) && Placed(grid2, g2, n1, creations, |creations|, grid3, g3)
    requires Refilled(rng, types, g3, g4, n3, n4, d3, d4)
    ensures Rebuilt(g1, n1, creations, g4, n4)
  {
    forall t | t in g1 && t in g4
      ensures g4[t] == g1[t].(gridY := g4[t].gridY) && g4[t].gridY >= g1[t].gridY
    {
      assert t in g3;
      assert t in g2;
    }
    forall j | 0 <= j < |creations|
      ensures n1 + j in g4 && g4[n1 + j] == SpecialGem(creations[j]).(gridY := g4[n1 + j].gridY)
    {
      assert n1 + j in g3;
    }
  }

  /** The win/lose check of a settled board (MatchSystem.ts:457-465): the events it sends. */
  function Verdict(movesLeft: int, score: int, target: int): (r: seq<GameEvent>)
    ensures r == [Win] <==> score >= target
    ensures r == [Lose] <==> movesLeft == 0 && score < target
    ensures r == [] <==> movesLeft != 0 && score < target
  {
    if movesLeft == 0 && score < target then [Lose]
    else if score >= target then [Win]
    else []
  }

  /**
   * hasPossibleMoves (MatchSystem.ts:561-563): the board is never judged
   * stuck, whatever it holds. The automatic reshuffle of a settled board
   * (MatchSystem.ts:466-469) therefore never happens and Settle leaves it out.
   */
  function HasPossibleMoves(grid: Grid, gems: Gems): (r: bool)
    ensures r
  {
    true
  }

  /** events ends with tail. */
  predicate EndsWith(events: seq<GameEvent>, tail: seq<GameEvent>)
  {
    |tail| <= |events| && events[|events| - |tail|..] == tail
  }

  /**
   * processMatches (MatchSystem.ts:319-472) with its cascade: a round, then
   * either the next round on the new matches, or the board has settled, the
   * engine stops processing and the level is won or lost. Up to fuel further
   * rounds are modelled; when they run out with matches on the board the
   * engine is still processing.
   */
  method ProcessMatches(e: Engine, matches: seq<int>, fuel: nat)
    requires e.Valid() && e.ComboValid() && e.LevelOk()
    requires forall i :: 0 <= i < |matches| ==> matches[i] in e.gems
    modifies e`combo, e`comboTimer, e`events, e`gems, e`grid, e`score, e`draws, e`nextId, e`isProcessing
    ensures e.Valid() && Full(e.grid) && e.ComboValid()
    ensures old(e.combo) < e.combo <= old(e.combo) + fuel + 1 && e.comboTimer == ComboTimeLimit
    ensures e.score >= old(e.score) + 10 * |matches|
    ensures e.nextId >= old(e.nextId)
    ensures forall t :: t in matches ==> t !in e.gems
    ensures forall t :: t in old(e.gems) && old(e.gems)[t].isMatched ==> t !in e.gems
    ensures forall t :: t in e.gems ==> t in old(e.gems) || t >= old(e.nextId)
    ensures old(e.events) <= e.events
    ensures MatchedIds(e.grid, e.gems) == {} ==>
      !e.isProcessing && EndsWith(e.events, Verdict(e.movesLeft, e.score, Levels[e.level - 1].targetScore))
    ensures MatchedIds(e.grid, e.gems) != {} ==> e.isProcessing == old(e.isProcessing)
    decreases fuel
  {
    ghost var g0, n0 := e.gems, e.nextId;
    var newMatches := Round(e, matches);
    if |newMatches| > 0 {
      assert newMatches[0] in Elems(newMatches);
      if fuel > 0 {
        ghost var g2, n2 := e.gems, e.nextId;
        ProcessMatches(e, newMatches, fuel - 1);
        CascadeRemoves(matches, g0, n0, g2, n2, e.gems);
      }
    } else {
      assert Elems(newMatches) == {};
      Settle(e);
    }
  }

  /** One round of processMatches and the search for cascading matches (MatchSystem.ts:319-450). */
  method Round(e: Engine, matches: seq<int>) returns (newMatches: seq<int>)
    requires e.Valid() && e.ComboValid()
    requires forall i :: 0 <= i < |matches| ==> matches[i] in e.gems
    modifies e`combo, e`comboTimer, e`events, e`gems, e`grid, e`score, e`draws, e`nextId
    ensures e.Valid() && Full(e.grid) && e.ComboValid()
    ensures e.combo == old(e.combo) + 1 && e.comboTimer == ComboTimeLimit
    ensures old(e.events) <= e.events
    ensures RoundDone(old(e.gems), old(e.nextId), old(e.score), matches, e.gems, e.nextId, e.score)
    ensures NoDup(newMatches) && Elems(newMatches) == MatchedIds(e.grid, e.gems)
    ensures forall i :: 0 <= i < |newMatches| ==> newMatches[i] in e.gems
  {
    ghost var g0, n0, s0 := e.gems, e.nextId, e.score;
    var groups, creations, trail := MarkRound(e, matches);
    ghost var grid1, g1, s1 := e.grid, e.gems, e.score;
    ClearAndRefill(e, creations);
    RoundFacts(grid1, g0, g1, s0, s1, e.combo, matches, groups, creations, trail, n0, e.gems, e.nextId);
    newMatches := FindMatches(e.grid, e.gems);
    FoundInGems(e.grid, e.gems, newMatches);
  }

  /** A round from (g0, n0, s0) to (g, n, s): the listed gems are gone, other ids are old or new, score grew by at least ten a gem. */
  ghost predicate RoundDone(g0: Gems, n0: int, s0: int, matches: seq<int>, g: Gems, n: int, s: int)
  {
    && s >= s0 + 10 * |matches|
    && n >= n0
    && (forall t :: t in matches ==> t !in g)
    && (forall t :: t in g0 && g0[t].isMatched ==> t !in g)
    && (forall t :: t in g ==> t in g0 || t >= n0)
  }

  lemma RoundFacts(grid: Grid, g0: Gems, g1: Gems, s0: int, s1: int, combo: int, matches: seq<int>,
                   groups: seq<seq<int>>, creations: seq<Spawn>, trail: seq<Mark>, n1: int, g4: Gems, n4: int)
    requires combo >= 0
    requires Marked(grid, g0, g1, s0, s1, combo, matches, groups, creations, trail)
    requires Rebuilt(g1, n1, creations, g4, n4)
    ensures RoundDone(g0, n1, s0, matches, g4, n4, s1)
  {
    AtLeastTen(|matches|, (if |groups| >= 2 then 20 else 10) + combo);
  }

  /** Every id findMatches reports is a registered gem. */
  lemma FoundInGems(grid: Grid, gems: Gems, found: seq<int>)
    requires IsGrid(grid) && Elems(found) == MatchedIds(grid, gems)
    ensures forall i :: 0 <= i < |found| ==> found[i] in gems
  {
    MatchedInGems(grid, gems);
    forall i | 0 <= i < |found|
      ensures found[i] in gems
    {
      assert found[i] in Elems(found);
    }
  }

  /** The settled branch of processMatches (MatchSystem.ts:455-466): processing ends and the level is judged. */
  method Settle(e: Engine)
    requires e.LevelOk()
    modifies e`isProcessing, e`events
    ensures !e.isProcessing
    ensures e.events == old(e.events) + Verdict(e.movesLeft, e.score, Levels[e.level - 1].targetScore)
  {
    e.isProcessing := false;
    var target := Levels[e.level - 1].targetScore;
    if e.movesLeft == 0 && e.score < target {
      e.events := e.events + [Lose];
    } else if e.score >= target {
      e.events := e.events + [Win];
    }
  }

  lemma AtLeastTen(n: nat, k: int)
    requires k >= 10
    ensures n * k >= 10 * n
  {
  }

  /** Ids the first round removed do not come back in later rounds. */
  lemma CascadeRemoves(matches: seq<int>, g0: Gems, n0: int, g2: Gems, n2: int, g3: Gems)
    requires forall t :: t in g0 ==> t < n0
    requires forall t :: t in matches ==> t in g0 && t !in g2
    requires forall t :: t in g0 && g0[t].isMatched ==> t !in g2
    requires n2 >= n0 && forall t :: t in g3 ==> t in g2 || t >= n2
    ensures forall t :: t in matches ==> t !in g3
    ensures forall t :: t in g0 && g0[t].isMatched ==> t !in g3
  {
  }

  // ------------------------------------------------ attemptSwap

  /** A swap is kept when the swapped board has a match or the two gems combine. */
  ghost predicate SwapCommits(grid: Grid, gems: Gems, a: int, b: int)
    requires Consistent(grid, gems) && a in gems && b in gems
  {
    SwapIsConsistent(grid, gems, a, b);
    || MatchedIds(SwapGrid(grid, gems, a, b), SwapGems(gems, a, b)) != {}
    || CheckSpecialCombo(SwapGems(gems, a, b)[a], SwapGems(gems, a, b)[b])
  }

  /** Writing both gems back into their own cells undoes the swap exactly. */
  lemma Unswap(grid: Grid, gems: Gems, a: int, b: int)
    requires Consistent(grid, gems) && a in gems && b in gems
    ensures
      var ax, ay, bx, by0 := gems[a].gridX, gems[a].gridY, gems[b].gridX, gems[b].gridY;
      var gs := SwapGems(gems, a, b);
      && SetCell(SetCell(SwapGrid(grid, gems, a, b), ax, ay, a), bx, by0, b) == grid
      && gs[a := gs[a].(gridX := ax, gridY := ay)][b := gs[b].(gridX := bx, gridY := by0)] == gems
  {
    var ax, ay, bx, by0 := gems[a].gridX, gems[a].gridY, gems[b].gridX, gems[b].gridY;
    var gs := SwapGems(gems, a, b);
    var back := SetCell(SetCell(SwapGrid(grid, gems, a, b), ax, ay, a), bx, by0, b);
    assert a != b ==> ax != bx || ay != by0;
    forall y | 0 <= y < Rows
      ensures back[y] == grid[y]
    {
      forall x | 0 <= x < Cols
        ensures back[y][x] == grid[y][x]
      {
      }
    }
    var gb := gs[a := gs[a].(gridX := ax, gridY := ay)][b := gs[b].(gridX := bx, gridY := by0)];
    forall t | t in gems
      ensures gb[t] == gems[t]
    {
    }
  }

  /**
   * attemptSwap (MatchSystem.ts:70-109): the two gems exchange cells; the swap
   * is kept, costing a move, when the board then has a match or the pair
   * combines, and the combo goes off before the matches are processed;
   * otherwise both gems go back and the engine is idle again.
   */
  method AttemptSwap(e: Engine, a: int, b: int, fuel: nat)
    requires e.Valid() && e.ComboValid() && e.LevelOk() && a in e.gems && b in e.gems
    modifies e`isProcessing, e`grid, e`gems, e`movesLeft, e`score, e`draws, e`combo, e`comboTimer, e`events, e`nextId
    ensures e.Valid() && e.ComboValid()
    ensures !SwapCommits(old(e.grid), old(e.gems), a, b) ==>
      && e.grid == old(e.grid) && e.gems == old(e.gems) && !e.isProcessing
      && e.movesLeft == old(e.movesLeft) && e.score == old(e.score) && e.combo == old(e.combo)
      && e.events == old(e.events) && e.draws == old(e.draws) && e.nextId == old(e.nextId)
      && e.comboTimer == old(e.comboTimer)
    ensures SwapCommits(old(e.grid), old(e.gems), a, b) ==>
      && e.movesLeft == old(e.movesLeft) - 1 && Full(e.grid) && e.score >= old(e.score)
      && e.combo > old(e.combo) && e.comboTimer == ComboTimeLimit
      && (CheckSpecialCombo(old(e.gems)[a], old(e.gems)[b]) ==> a !in e.gems && b !in e.gems)
      && (forall t :: t in MatchedIds(SwapGrid(old(e.grid), old(e.gems), a, b), SwapGems(old(e.gems), a, b)) ==>
            t !in e.gems)
      && e.nextId >= old(e.nextId) && (forall t :: t in e.gems ==> t in old(e.gems) || t >= old(e.nextId))
      && e.isProcessing == (MatchedIds(e.grid, e.gems) != {})
  {
    e.isProcessing := true;
    ghost var grid0, g0 := e.grid, e.gems;
    var ax, ay, bx, by0 := e.gems[a].gridX, e.gems[a].gridY, e.gems[b].gridX, e.gems[b].gridY;
    SwapIsConsistent(e.grid, e.gems, a, b);
    e.grid := SwapGrid(e.grid, e.gems, a, b);
    e.gems := SwapGems(e.gems, a, b);
    var matches := FindMatches(e.grid, e.gems);
    var specialCombo := CheckSpecialCombo(e.gems[a], e.gems[b]);
    if |matches| > 0 || specialCombo {
      assert |matches| > 0 ==> matches[0] in Elems(matches);
      FoundInGems(e.grid, e.gems, matches);
      CommitSwap(e, a, b, matches, specialCombo, fuel);
    } else {
      assert Elems(matches) == {};
      Unswap(grid0, g0, a, b);
      e.grid := SetCell(SetCell(e.grid, ax, ay, a), bx, by0, b);
      e.gems := e.gems[a := e.gems[a].(gridX := ax, gridY := ay)][b := e.gems[b].(gridX := bx, gridY := by0)];
      e.isProcessing := false;
    }
  }

  /** The kept swap: a move is spent, the combo goes off, then the matches are processed. */
  method CommitSwap(e: Engine, a: int, b: int, matches: seq<int>, specialCombo: bool, fuel: nat)
    requires e.Valid() && e.ComboValid() && e.LevelOk() && a in e.gems && b in e.gems && e.isProcessing
    requires forall i :: 0 <= i < |matches| ==> matches[i] in e.gems
    requires specialCombo == CheckSpecialCombo(e.gems[a], e.gems[b])
    modifies e`isProcessing, e`grid, e`gems, e`movesLeft, e`score, e`draws, e`combo, e`comboTimer, e`events, e`nextId
    ensures e.Valid() && e.ComboValid()
    ensures e.movesLeft == old(e.movesLeft) - 1 && Full(e.grid) && e.score >= old(e.score)
    ensures e.combo > old(e.combo) && e.comboTimer == ComboTimeLimit
    ensures specialCombo ==> a !in e.gems && b !in e.gems
    ensures forall t :: t in matches ==> t !in e.gems
    ensures e.nextId >= old(e.nextId) && forall t :: t in e.gems ==> t in old(e.gems) || t >= old(e.nextId)
    ensures e.isProcessing == (MatchedIds(e.grid, e.gems) != {})
  {
    e.movesLeft := e.movesLeft - 1;
    if specialCombo {
      ghost var trail := ExecuteSpecialCombo(e, a, b);
    }
    ProcessMatches(e, matches, fuel);
  }

  // ------------------------------------------------ useBombItem

  /**
   * The bomb loop after the first i targets (MatchSystem.ts:128-139). The
   * trail lists every newly matched gem: a direct mark of a target, or a gem in
   * the blast of a target the bomb marked (other than the bomb's own gem) or
   * of a gem a blast marked earlier.
   */
  ghost predicate BombInv(grid: Grid, g0: Gems, gems: Gems, s0: int, score: int, targets: seq<int>, i: int,
                          trail: seq<Mark>, bomb: int)
    requires IsGrid(grid) && 0 <= i <= |targets|
  {
    && MarksOnly(g0, gems)
    && Ids(trail) == Newly(g0, gems) && DirectIds(trail) <= Newly(g0, gems)
    && Traced(g0, Elems(targets), DirectIds(trail) - {bomb}, trail)
    && Chained(grid, gems, Newly(g0, gems) - DirectIds(trail))
    && score == s0 + 50 * |DirectIds(trail)| + 20 * |Newly(g0, gems) - DirectIds(trail)|
    && (forall j :: 0 <= j < i && targets[j] in gems ==> gems[targets[j]].isMatched)
    && (forall t :: t in DirectIds(trail) && g0[t].special != None && t != bomb ==> Fired(grid, gems, t))
  }

  /** Before the first target nothing is marked or scored. */
  lemma BombStart(grid: Grid, g0: Gems, s0: int, targets: seq<int>, bomb: int)
    requires IsGrid(grid)
    ensures BombInv(grid, g0, g0, s0, s0, targets, 0, [], bomb)
  {
    MarksOnlyRefl(g0);
    EmptyTrail(g0, Elems(targets), {});
    assert DirectIds([]) - {bomb} == {};
  }

  /**
   * The targets forEach of useBombItem: each unmatched registered target is
   * marked for 50 points, and a special other than the bomb's own gem goes off.
   */
  method BombTargets(e: Engine, targets: seq<int>, bomb: int) returns (ghost trail: seq<Mark>)
    requires e.Valid()
    modifies e`gems, e`score, e`draws
    ensures e.Valid()
    ensures BombInv(e.grid, old(e.gems), e.gems, old(e.score), e.score, targets, |targets|, trail, bomb)
  {
    ghost var g0, s0 := e.gems, e.score;
    trail := [];
    BombStart(e.grid, g0, s0, targets, bomb);
    for i := 0 to |targets|
      invariant e.Valid() && BombInv(e.grid, g0, e.gems, s0, e.score, targets, i, trail, bomb)
    {
      trail := BombVisit(e, targets, i, bomb, g0, s0, trail);
    }
  }

  /** One call of the targets forEach callback (MatchSystem.ts:130-139). */
  method BombVisit(e: Engine, targets: seq<int>, i: int, bomb: int, ghost g0: Gems, ghost s0: int, ghost trail: seq<Mark>)
    returns (ghost trail': seq<Mark>)
    requires e.Valid() && 0 <= i < |targets|
    requires BombInv(e.grid, g0, e.gems, s0, e.score, targets, i, trail, bomb)
    modifies e`gems, e`score, e`draws
    ensures e.Valid() && BombInv(e.grid, g0, e.gems, s0, e.score, targets, i + 1, trail', bomb)
  {
    ghost var ga, sa := e.gems, e.score;
    var t := targets[i];
    ghost var tr := BombOne(e, t, bomb);
    BombStep(e.grid, g0, ga, e.gems, s0, sa, e.score, targets, i, trail, tr, bomb);
    trail' := trail + tr;
  }

  /** One target of the bomb: an unmatched registered gem is marked and, unless it is the bomb's own gem, set off. */
  method BombOne(e: Engine, t: int, bomb: int) returns (ghost tr: seq<Mark>)
    requires e.Valid()
    modifies e`gems, e`score, e`draws
    ensures e.Valid() && MarksOnly(old(e.gems), e.gems)
    ensures t in e.gems ==> e.gems[t].isMatched
    ensures !(t in old(e.gems) && !old(e.gems)[t].isMatched) ==>
      e.gems == old(e.gems) && e.score == old(e.score) && e.draws == old(e.draws)
    ensures Ids(tr) == Newly(old(e.gems), e.gems)
    ensures DirectIds(tr) == if t in old(e.gems) && !old(e.gems)[t].isMatched then {t} else {}
    ensures Traced(old(e.gems), {t}, DirectIds(tr) - {bomb}, tr)
    ensures Chained(e.grid, e.gems, Newly(old(e.gems), e.gems) - DirectIds(tr))
    ensures e.score == old(e.score) + 50 * |DirectIds(tr)| + 20 * |Newly(old(e.gems), e.gems) - DirectIds(tr)|
    ensures t in DirectIds(tr) && old(e.gems)[t].special != None && t != bomb ==> Fired(e.grid, e.gems, t)
  {
    ghost var ga := e.gems;
    if t in e.gems && !e.gems[t].isMatched {
      ghost var head := [Mark(t, Direct)];
      MarkOne(e.gems, t);
      e.gems := e.gems[t := e.gems[t].(isMatched := true)];
      MarksOnlyConsistent(e.grid, ga, e.gems);
      e.score := e.score + 50;
      ghost var gb := e.gems;
      if e.gems[t].special != None && t != bomb {
        ghost var chain := TriggerSpecial(e, t);
        MarkThen(ga, gb, e.gems, t);
        DirectHead(ga, gb, e.gems, t, {t}, {t} - {bomb}, head, chain);
        tr := head + chain;
      } else {
        MarksOnlyRefl(gb);
        EmptyTrail(gb, {}, {});
        DirectHead(ga, gb, gb, t, {}, {t} - {bomb}, head, []);
        tr := head + [];
        assert Newly(ga, gb) - {t} == {};
      }
    } else {
      tr := [];
      MarksOnlyRefl(ga);
      EmptyTrail(ga, {t}, {});
      assert DirectIds(tr) - {bomb} == {};
    }
  }

  lemma BombStep(grid: Grid, g0: Gems, ga: Gems, gf: Gems, s0: int, sa: int, sf: int, targets: seq<int>, i: int,
                 trail: seq<Mark>, tr: seq<Mark>, bomb: int)
    requires IsGrid(grid) && 0 <= i < |targets|
    requires BombInv(grid, g0, ga, s0, sa, targets, i, trail, bomb)
    requires MarksOnly(ga, gf) && (targets[i] in gf ==> gf[targets[i]].isMatched)
    requires Ids(tr) == Newly(ga, gf)
    requires DirectIds(tr) == (if targets[i] in ga && !ga[targets[i]].isMatched then {targets[i]} else {})
    requires Traced(ga, {targets[i]}, DirectIds(tr) - {bomb}, tr)
    requires Chained(grid, gf, Newly(ga, gf) - DirectIds(tr))
    requires sf == sa + 50 * |DirectIds(tr)| + 20 * |Newly(ga, gf) - DirectIds(tr)|
    requires targets[i] in DirectIds(tr) && ga[targets[i]].special != None && targets[i] != bomb ==> Fired(grid, gf, targets[i])
    ensures BombInv(grid, g0, gf, s0, sf, targets, i + 1, trail + tr, bomb)
  {
    var direct, d := DirectIds(trail), DirectIds(tr);
    var seeds, roots := Elems(targets), (direct + d) - {bomb};
    DirectInIds(trail);
    DirectInIds(tr);
    assert direct !! d;
    assert |direct + d| == |direct| + |d|;
    MarksOnlyRefl(g0);
    TracedLift(g0, g0, seeds, direct - {bomb}, seeds, roots, trail);
    assert targets[i] in seeds;
    TrailStep(g0, ga, gf, seeds, roots, {targets[i]}, d - {bomb}, trail, tr);
    ColourStep(grid, g0, ga, gf, direct, d, s0 + 50 * |direct|, sa, sf - 50 * |d|);
    BombFired(grid, g0, ga, gf, direct, d, bomb);
    PrefixMarked(ga, gf, targets, i);
  }

  lemma PrefixMarked(ga: Gems, gf: Gems, targets: seq<int>, i: int)
    requires MarksOnly(ga, gf) && 0 <= i < |targets|
    requires forall j :: 0 <= j < i && targets[j] in ga ==> ga[targets[j]].isMatched
    requires targets[i] in gf ==> gf[targets[i]].isMatched
    ensures forall j :: 0 <= j < i + 1 && targets[j] in gf ==> gf[targets[j]].isMatched
  {
    forall j | 0 <= j < i && targets[j] in gf
      ensures gf[targets[j]].isMatched
    {
      var t := targets[j];
      assert t in gf.Keys;
      assert t in ga;
      assert ga[t].isMatched;
      assert gf[t] == ga[t].(isMatched := gf[t].isMatched);
    }
  }

  lemma BombFired(grid: Grid, g0: Gems, ga: Gems, gf: Gems, direct: set<int>, d: set<int>, bomb: int)
    requires IsGrid(grid) && MarksOnly(g0, ga) && MarksOnly(ga, gf) && direct <= Newly(g0, ga)
    requires forall t :: t in direct && g0[t].special != None && t != bomb ==> Fired(grid, ga, t)
    requires forall t :: t in d ==> t in g0
    requires forall t :: t in d && ga[t].special != None && t != bomb ==> Fired(grid, gf, t)
    ensures forall t :: t in direct + d && g0[t].special != None && t != bomb ==> Fired(grid, gf, t)
  {
    forall t | t in direct + d && g0[t].special != None && t != bomb
      ensures Fired(grid, gf, t)
    {
      if t in direct {
        FiredMono(grid, ga, gf, t);
      } else {
        assert ga[t].special == g0[t].special;
      }
    }
  }

  /** The gem sits in the bomb's three-by-three area around (cx, cy). */
  predicate InBlast(gems: Gems, t: int, cx: int, cy: int)
    requires t in gems
  {
    InRegion(AreaBlast, cx, cy, gems[t].gridX, gems[t].gridY)
  }

  /**
   * useBombItem (MatchSystem.ts:112-157): ignored for a missing gem or while
   * the board is busy; otherwise the bomb marks the three-by-three area around
   * the gem for 50 points a gem, setting off the specials it hits other than
   * the gem itself, then the board is cleared and refilled and any cascade is
   * processed. No level verdict is reached when no follow-up match appears.
   */
  method UseBombItem(e: Engine, gemId: int, fuel: nat)
    requires e.Valid() && e.ComboValid() && e.LevelOk()
    modifies e`isProcessing, e`grid, e`gems, e`score, e`draws, e`combo, e`comboTimer, e`events, e`nextId
    ensures e.Valid() && e.ComboValid()
    ensures gemId !in old(e.gems) || old(e.isProcessing) ==>
      && e.grid == old(e.grid) && e.gems == old(e.gems) && e.isProcessing == old(e.isProcessing)
      && e.score == old(e.score) && e.combo == old(e.combo) && e.comboTimer == old(e.comboTimer)
      && e.events == old(e.events) && e.draws == old(e.draws) && e.nextId == old(e.nextId)
    ensures gemId in old(e.gems) && !old(e.isProcessing) ==>
      && Full(e.grid) && e.score >= old(e.score)
      && (forall t :: t in old(e.gems) && InBlast(old(e.gems), t, old(e.gems)[gemId].gridX, old(e.gems)[gemId].gridY) ==>
            t !in e.gems)
      && e.isProcessing == (MatchedIds(e.grid, e.gems) != {})
  {
    if gemId !in e.gems || e.isProcessing {
      return;
    }
    e.isProcessing := true;
    Detonate(e, gemId, fuel);
  }

  /** The bomb going off, and what follows it. */
  method Detonate(e: Engine, gemId: int, fuel: nat)
    requires e.Valid() && e.ComboValid() && e.LevelOk() && gemId in e.gems && e.isProcessing
    modifies e`isProcessing, e`grid, e`gems, e`score, e`draws, e`combo, e`comboTimer, e`events, e`nextId
    ensures e.Valid() && e.ComboValid() && Full(e.grid) && e.score >= old(e.score)
    ensures forall t :: t in old(e.gems) && InBlast(old(e.gems), t, old(e.gems)[gemId].gridX, old(e.gems)[gemId].gridY) ==>
      t !in e.gems
    ensures e.isProcessing == (MatchedIds(e.grid, e.gems) != {})
  {
    ghost var g0, n0 := e.gems, e.nextId;
    Blast(e, gemId);
    ghost var g2, n2 := e.gems, e.nextId;
    FollowUp(e, fuel);
    CascadeKeepsGone(g0, g0[gemId].gridX, g0[gemId].gridY, n0, g2, n2, e.gems);
  }

  /** The bomb's marking (MatchSystem.ts:119-139), then removeGems and applyGravity. */
  method Blast(e: Engine, gemId: int)
    requires e.Valid() && gemId in e.gems
    modifies e`grid, e`gems, e`score, e`draws, e`nextId
    ensures e.Valid() && Full(e.grid) && e.score >= old(e.score)
    ensures forall t :: t in old(e.gems) && InBlast(old(e.gems), t, old(e.gems)[gemId].gridX, old(e.gems)[gemId].gridY) ==>
      t !in e.gems
    ensures e.nextId >= old(e.nextId) && forall t :: t in e.gems ==> t in old(e.gems) || t >= old(e.nextId)
  {
    var gem := e.gems[gemId];
    var targets := RegionTargets(e.grid, AreaBlast, gem.gridX, gem.gridY);
    ghost var grid0, g0, n0 := e.grid, e.gems, e.nextId;
    ghost var trail := BombTargets(e, targets, gemId);
    BlastMarksArea(grid0, g0, e.gems, targets, gem.gridX, gem.gridY);
    ghost var g1 := e.gems;
    ClearAndRefill(e, []);
    AreaGone(g0, g1, e.gems, n0, e.nextId, gem.gridX, gem.gridY);
  }

  /** The follow-up check of useBombItem: any new matches are processed, otherwise the engine goes idle. */
  method FollowUp(e: Engine, fuel: nat)
    requires e.Valid() && e.ComboValid() && e.LevelOk() && Full(e.grid) && e.isProcessing
    modifies e`isProcessing, e`grid, e`gems, e`score, e`draws, e`combo, e`comboTimer, e`events, e`nextId
    ensures e.Valid() && e.ComboValid() && Full(e.grid) && e.score >= old(e.score)
    ensures e.nextId >= old(e.nextId) && forall t :: t in e.gems ==> t in old(e.gems) || t >= old(e.nextId)
    ensures e.isProcessing == (MatchedIds(e.grid, e.gems) != {})
  {
    var newMatches := FindMatches(e.grid, e.gems);
    if |newMatches| > 0 {
      assert newMatches[0] in Elems(newMatches);
      FoundInGems(e.grid, e.gems, newMatches);
      ProcessMatches(e, newMatches, fuel);
    } else {
      assert Elems(newMatches) == {};
      e.isProcessing := false;
    }
  }

  /** Every registered gem of the area is among the targets, so the bomb marks it. */
  lemma BlastMarksArea(grid: Grid, g0: Gems, g1: Gems, targets: seq<int>, cx: int, cy: int)
    requires Consistent(grid, g0) && MarksOnly(g0, g1)
    requires forall y, x :: InBounds(x, y) && InRegion(AreaBlast, cx, cy, x, y) ==> grid[y][x] in targets
    requires forall j :: 0 <= j < |targets| && targets[j] in g1 ==> g1[targets[j]].isMatched
    ensures forall t :: t in g0 && InBlast(g0, t, cx, cy) ==> g1[t].isMatched
  {
    forall t | t in g0 && InBlast(g0, t, cx, cy)
      ensures g1[t].isMatched
    {
      assert grid[g0[t].gridY][g0[t].gridX] == t;
      var j :| 0 <= j < |targets| && targets[j] == t;
    }
  }

  lemma AreaGone(g0: Gems, g1: Gems, g2: Gems, n0: int, n2: int, cx: int, cy: int)
    requires MarksOnly(g0, g1) && forall t :: t in g0 && InBlast(g0, t, cx, cy) ==> g1[t].isMatched
    requires Rebuilt(g1, n0, [], g2, n2)
    ensures forall t :: t in g0 && InBlast(g0, t, cx, cy) ==> t !in g2
  {
  }

  lemma CascadeKeepsGone(g0: Gems, cx: int, cy: int, n0: int, g2: Gems, n2: int, g3: Gems)
    requires forall t :: t in g0 ==> t < n0
    requires forall t :: t in g2 ==> t in g0 || t >= n0
    requires forall t :: t in g0 && InBlast(g0, t, cx, cy) ==> t !in g2
    requires n2 >= n0 && forall t :: t in g3 ==> t in g2 || t >= n2
    ensures forall t :: t in g0 && InBlast(g0, t, cx, cy) ==> t !in g3
  {
  }

  // ------------------------------------------------ reshuffle

  /**
   * reshuffle (MatchSystem.ts:565-590), up to the timer that releases the
   * engine: the event is sent, the gems exchange positions in Map order and
   * the grid is rebuilt from their records. The same gems keep their colours
   * and specials, the occupied cells are the same, and the grid agrees with
   * the registry.
   */
  method Reshuffle(e: Engine)
    requires e.Valid()
    modifies e`events, e`isProcessing, e`gems, e`grid, e`draws
    ensures e.Valid()
    ensures e.events == old(e.events) + [GameEvent.Reshuffle] && e.isProcessing
    ensures Moved(old(e.gems), e.gems) && Cells(e.gems) == Cells(old(e.gems))
    ensures forall y, x :: 0 <= y < Rows && 0 <= x < Cols ==> (e.grid[y][x] == 0 <==> old(e.grid)[y][x] == 0)
    ensures e.draws == old(e.draws) + ShuffleDraws(|OrderedIds(old(e.gems), 1, old(e.nextId))|)
  {
    e.events := e.events + [GameEvent.Reshuffle];
    e.isProcessing := true;
    e.grid, e.gems, e.draws := ShuffleBoard(e.rng, e.draws, e.grid, e.gems, e.nextId);
  }

  // ------------------------------------------------ startLevel

  /** Cell (x', y') comes before cell (x, y) in the fill order: column by column, top to bottom. */
  predicate Before(x': int, y': int, x: int, y: int)
  {
    x' < x || (x' == x && y' < y)
  }

  /**
   * The fill of startLevel (MatchSystem.ts:33-38) up to cell (x, y): the
   * cells before it hold gems n0, n0 + 1, ... in fill order, each of the next
   * random colour, with no special; the other cells are empty.
   */
  ghost predicate Filled(rng: nat -> nat, types: int, n0: int, d0: nat, x: int, y: int,
                         grid: Grid, gems: Gems, nextId: int, draws: nat)
  {
    && Consistent(grid, gems)
    && types >= 1 && n0 >= 1 && nextId == n0 + x * Rows + y && draws == d0 + x * Rows + y
    && (forall t :: t in gems <==> n0 <= t < nextId)
    && (forall t :: t in gems ==>
          && gems[t].gridX * Rows + gems[t].gridY == t - n0
          && gems[t].gemType == rng(d0 + (t - n0)) % types
          && gems[t].special == None && !gems[t].isMatched)
    && (forall y', x' :: 0 <= y' < Rows && 0 <= x' < Cols ==>
          grid[y'][x'] == if Before(x', y', x, y) then n0 + x' * Rows + y' else 0)
  }

  /** The initial fill (MatchSystem.ts:33-38): spawnGem at every cell, column by column. */
  method FillBoard(e: Engine, types: int)
    requires e.grid == EmptyGrid() && e.gems == map[] && e.nextId >= 1 && types >= 1
    modifies e`grid, e`gems, e`nextId, e`draws
    ensures Filled(e.rng, types, old(e.nextId), old(e.draws), Cols, 0, e.grid, e.gems, e.nextId, e.draws)
  {
    ghost var n0, d0 := e.nextId, e.draws;
    for x := 0 to Cols
      invariant Filled(e.rng, types, n0, d0, x, 0, e.grid, e.gems, e.nextId, e.draws)
    {
      for y := 0 to Rows
        invariant Filled(e.rng, types, n0, d0, x, y, e.grid, e.gems, e.nextId, e.draws)
      {
        ghost var grid, gems, draws := e.grid, e.gems, e.draws;
        var id := SpawnGem(e, x, y, types);
        FillStep(e.rng, types, n0, d0, x, y, grid, gems, draws, id, e.grid, e.gems);
      }
      FillColumn(e.rng, types, n0, d0, x, e.grid, e.gems, e.nextId, e.draws);
    }
  }

  lemma FillStep(rng: nat -> nat, types: int, n0: int, d0: nat, x: int, y: int,
                 grid: Grid, gems: Gems, draws: nat, id: int, grid': Grid, gems': Gems)
    requires 0 <= x < Cols && 0 <= y < Rows && types >= 1
    requires Filled(rng, types, n0, d0, x, y, grid, gems, id, draws)
    requires gems' == gems[id := Gem(x, y, rng(draws) % types, None, false)]
    requires grid' == SetCell(grid, x, y, id)
    requires Consistent(grid', gems')
    ensures Filled(rng, types, n0, d0, x, y + 1, grid', gems', id + 1, draws + 1)
  {
  }

  lemma FillColumn(rng: nat -> nat, types: int, n0: int, d0: nat, x: int,
                   grid: Grid, gems: Gems, nextId: int, draws: nat)
    requires Filled(rng, types, n0, d0, x, Rows, grid, gems, nextId, draws)
    ensures Filled(rng, types, n0, d0, x + 1, 0, grid, gems, nextId, draws)
  {
  }

  /**
   * resolveInitialBoard (MatchSystem.ts:592-603): while the board has a match
   * and fewer than 10 attempts were made, every matched gem is recoloured.
   * Only colours change; after fewer than 10 attempts the board has no match.
   */
  method ResolveInitialBoard(e: Engine, types: int) returns (ghost attempts: int)
    requires e.Valid() && types >= 1
    modifies e`gems, e`draws
    ensures e.Valid() && Recoloured(old(e.gems), e.gems)
    ensures Coloured(old(e.gems), types) ==> Coloured(e.gems, types)
    ensures 0 <= attempts <= 10
    ensures attempts == 0 <==> MatchedIds(e.grid, old(e.gems)) == {}
    ensures attempts == 0 ==> e.gems == old(e.gems) && e.draws == old(e.draws)
    ensures attempts < 10 ==> MatchedIds(e.grid, e.gems) == {}
  {
    var matches := FindMatches(e.grid, e.gems);
    var tries := 0;
    while |matches| > 0 && tries < 10
      invariant e.Valid() && Recoloured(old(e.gems), e.gems)
      invariant Coloured(old(e.gems), types) ==> Coloured(e.gems, types)
      invariant 0 <= tries <= 10
      invariant Elems(matches) == MatchedIds(e.grid, e.gems)
      invariant tries == 0 ==> e.gems == old(e.gems) && e.draws == old(e.draws)
      invariant tries > 0 ==> MatchedIds(e.grid, old(e.gems)) != {}
      decreases 10 - tries
    {
      assert matches[0] in Elems(matches);
      ghost var g := e.gems;
      var recoloured, d := Recolour(e.rng, e.draws, e.gems, matches, types);
      RecolouredConsistent(e.grid, g, recoloured);
      e.gems, e.draws := recoloured, d;
      matches := FindMatches(e.grid, e.gems);
      tries := tries + 1;
    }
    attempts := tries;
    assert |matches| > 0 ==> matches[0] in Elems(matches);
    assert |matches| == 0 ==> Elems(matches) == {};
  }

  /**
   * startLevel (MatchSystem.ts:22-44): the level's counters are reset, the
   * registry and grid are emptied and refilled with fresh gems in fill order,
   * the initial matches are recoloured away, and the engine is idle.
   */
  method StartLevel(e: Engine, config: LevelConfig) returns (ghost attempts: int)
    requires e.nextId >= 1 && config.gemTypes >= 1
    modifies e`level, e`movesLeft, e`score, e`combo, e`comboTimer, e`gems, e`grid, e`isProcessing, e`nextId, e`draws
    ensures e.level == config.level && e.movesLeft == config.moves
    ensures e.score == 0 && e.combo == 0 && e.comboTimer == 0 && !e.isProcessing
    ensures e.Valid() && Dealt(config.gemTypes, old(e.nextId), e.grid, e.gems, e.nextId)
    ensures 0 <= attempts <= 10
    ensures attempts < 10 ==> MatchedIds(e.grid, e.gems) == {}
    ensures attempts == 0 ==> FirstDeal(e.rng, config.gemTypes, old(e.nextId), old(e.draws), e.gems)
  {
    e.level := config.level;
    e.movesLeft := config.moves;
    e.score := 0;
    e.combo := 0;
    e.comboTimer := 0;
    e.isProcessing := true;
    attempts := SetUpBoard(e, config.gemTypes);
    e.isProcessing := false;
  }

  /**
   * A freshly dealt board: full, holding exactly the gems n0 .. n0 + 63, the
   * k-th of them at the k-th cell of the fill order, none special or matched,
   * each of one of the first `types` colours.
   */
  ghost predicate Dealt(types: int, n0: int, grid: Grid, gems: Gems, nextId: int)
  {
    && Consistent(grid, gems) && Full(grid)
    && nextId == n0 + Rows * Cols
    && (forall t :: t in gems <==> n0 <= t < nextId)
    && (forall t :: t in gems ==>
          && gems[t].gridX * Rows + gems[t].gridY == t - n0
          && gems[t].special == None && !gems[t].isMatched
          && 0 <= gems[t].gemType < types)
  }

  /** Every dealt gem still has the colour spawnGem drew for it. */
  ghost predicate FirstDeal(rng: nat -> nat, types: int, n0: int, d0: nat, gems: Gems)
    requires types >= 1
  {
    forall t :: t in gems && t >= n0 ==> gems[t].gemType == rng(d0 + (t - n0)) % types
  }

  /** The board part of startLevel (MatchSystem.ts:28-41): cleared, filled, and its initial matches recoloured. */
  method SetUpBoard(e: Engine, types: int) returns (ghost attempts: int)
    requires e.nextId >= 1 && types >= 1
    modifies e`gems, e`grid, e`nextId, e`draws
    ensures e.Valid() && Dealt(types, old(e.nextId), e.grid, e.gems, e.nextId)
    ensures 0 <= attempts <= 10
    ensures attempts < 10 ==> MatchedIds(e.grid, e.gems) == {}
    ensures attempts == 0 ==> FirstDeal(e.rng, types, old(e.nextId), old(e.draws), e.gems)
  {
    ghost var n0, d0 := e.nextId, e.draws;
    e.gems := map[];
    e.grid := EmptyGrid();
    FillBoard(e, types);
    ghost var filled, draws := e.gems, e.draws;
    assert Coloured(e.gems, types);
    attempts := ResolveInitialBoard(e, types);
    DealtIntro(e.rng, types, n0, d0, e.grid, filled, e.gems, e.nextId, draws, attempts);
  }

  lemma DealtIntro(rng: nat -> nat, types: int, n0: int, d0: nat, grid: Grid, g1: Gems, g2: Gems,
                   nextId: int, draws: nat, attempts: int)
    requires Filled(rng, types, n0, d0, Cols, 0, grid, g1, nextId, draws)
    requires Consistent(grid, g2) && Recoloured(g1, g2) && (Coloured(g1, types) ==> Coloured(g2, types))
    requires attempts == 0 ==> g2 == g1
    ensures Dealt(types, n0, grid, g2, nextId)
    ensures attempts == 0 ==> FirstDeal(rng, types, n0, d0, g2)
  {
    assert Coloured(g1, types);
  }
}
