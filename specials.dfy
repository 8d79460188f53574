/**
 * Special gems going off: triggerSpecial and executeSpecialCombo
 * (MatchSystem.ts:164-218 and 474-516). A blast only raises isMatched flags
 * and adds to the score; the grid is left alone until removeGems.
 */
module Specials {
  import opened Types
  import opened Board
  import opened GameEngine

  // ---------------------------------------------------------------------
  // What a blast reaches

  /** Cell (x, y) lies in the blast of a line or area special sitting at (cx, cy). */
  predicate InRegion(special: SpecialType, cx: int, cy: int, x: int, y: int)
  {
    match special
    case RowBlast => y == cy
    case ColBlast => x == cx
    case AreaBlast => cx - 1 <= x <= cx + 1 && cy - 1 <= y <= cy + 1
    case _ => false
  }

  /** v is the content of some board cell in the blast. */
  ghost predicate InRegionId(grid: Grid, special: SpecialType, cx: int, cy: int, v: int)
    requires IsGrid(grid)
  {
    exists y, x :: InBounds(x, y) && InRegion(special, cx, cy, x, y) && grid[y][x] == v
  }

  /** Every registered gem in the blast is matched. */
  ghost predicate RegionMatched(grid: Grid, gems: Gems, special: SpecialType, cx: int, cy: int)
    requires IsGrid(grid)
  {
    forall y, x :: InBounds(x, y) && InRegion(special, cx, cy, x, y) && grid[y][x] in gems ==> gems[grid[y][x]].isMatched
  }

  /** Every gem of colour c is matched. */
  ghost predicate ColourMatched(gems: Gems, c: int)
  {
    forall t :: t in gems && gems[t].gemType == c ==> gems[t].isMatched
  }

  /** The blast of special gem t has gone off: its region, or for a rainbow some colour, is matched. */
  ghost predicate Fired(grid: Grid, gems: Gems, t: int)
    requires IsGrid(grid) && t in gems
  {
    match gems[t].special
    case None => true
    case Rainbow => exists c :: 0 <= c < RainbowColours && ColourMatched(gems, c)
    case _ => RegionMatched(grid, gems, gems[t].special, gems[t].gridX, gems[t].gridY)
  }

  /** Every gem of s has fired. */
  ghost predicate Chained(grid: Grid, gems: Gems, s: set<int>)
    requires IsGrid(grid)
  {
    forall t :: t in s && t in gems ==> Fired(grid, gems, t)
  }

  lemma FiredMono(grid: Grid, g1: Gems, g2: Gems, t: int)
    requires IsGrid(grid) && MarksOnly(g1, g2) && t in g1 && Fired(grid, g1, t)
    ensures Fired(grid, g2, t)
  {
    assert g2[t] == g1[t].(isMatched := g2[t].isMatched);
    if g1[t].special == Rainbow {
      var c :| 0 <= c < RainbowColours && ColourMatched(g1, c);
      forall u | u in g2 && g2[u].gemType == c
        ensures g2[u].isMatched
      {
        assert u in g1 && g2[u] == g1[u].(isMatched := g2[u].isMatched);
      }
      assert ColourMatched(g2, c);
    } else if g1[t].special != None {
      var sp, cx, cy := g1[t].special, g1[t].gridX, g1[t].gridY;
      forall y, x | InBounds(x, y) && InRegion(sp, cx, cy, x, y) && grid[y][x] in g2
        ensures g2[grid[y][x]].isMatched
      {
        var v := grid[y][x];
        assert v in g1 && g1[v].isMatched;
        assert g2[v].isMatched;
      }
    }
  }

  lemma ChainedMono(grid: Grid, g1: Gems, g2: Gems, s: set<int>)
    requires IsGrid(grid) && MarksOnly(g1, g2) && Chained(grid, g1, s)
    ensures Chained(grid, g2, s)
  {
    forall t | t in s && t in g2
      ensures Fired(grid, g2, t)
    {
      FiredMono(grid, g1, g2, t);
    }
  }

  // ---------------------------------------------------------------------
  // Trails: why each newly matched gem was marked

  /** Gem t lies in the blast of gem u: its line or area, or for a rainbow a colour it can draw. */
  predicate Reaches(u: Gem, t: Gem)
  {
    match u.special
    case None => false
    case Rainbow => 0 <= t.gemType < RainbowColours
    case _ => InRegion(u.special, u.gridX, u.gridY, t.gridX, t.gridY)
  }

  /** Why a flag was raised: by the operation's own loop, or by the blast of gem u. */
  datatype Cause = Direct | By(u: int)

  /** One isMatched flag raised; a trail lists them in the order they were raised. */
  datatype Mark = Mark(id: int, cause: Cause)

  ghost function Ids(trail: seq<Mark>): set<int>
  {
    set i | 0 <= i < |trail| :: trail[i].id
  }

  /** The gems the operation's own loop marked. */
  ghost function DirectIds(trail: seq<Mark>): set<int>
  {
    set i | 0 <= i < |trail| && trail[i].cause.Direct? :: trail[i].id
  }

  /** Before position i of the trail a blast marked gem u, and so u went off in turn. */
  ghost predicate ChainedBefore(trail: seq<Mark>, i: int, u: int)
  {
    exists j :: 0 <= j < i && j < |trail| && trail[j].id == u && trail[j].cause.By?
  }

  /**
   * Mark i of the trail is accounted for: a direct mark of one of seeds, or a
   * gem in the blast of one of roots or of a gem a blast marked before it.
   */
  ghost predicate Justified(gems: Gems, seeds: set<int>, roots: set<int>, trail: seq<Mark>, i: int)
    requires 0 <= i < |trail|
  {
    && trail[i].id in gems
    && match trail[i].cause
       case Direct => trail[i].id in seeds
       case By(u) => u in gems && Reaches(gems[u], gems[trail[i].id]) && (u in roots || ChainedBefore(trail, i, u))
  }

  /** Every mark of the trail is accounted for, against the registry as it was before the first mark. */
  ghost predicate Traced(gems: Gems, seeds: set<int>, roots: set<int>, trail: seq<Mark>)
  {
    forall i :: 0 <= i < |trail| ==> Justified(gems, seeds, roots, trail, i)
  }

  /** How many gems of the trail are rainbows; each draws a colour when it goes off. */
  ghost function Rainbows(gems: Gems, trail: seq<Mark>): nat
  {
    if trail == [] then 0
    else (if trail[0].id in gems && gems[trail[0].id].special == Rainbow then 1 else 0) + Rainbows(gems, trail[1..])
  }

  lemma EmptyTrail(gems: Gems, seeds: set<int>, roots: set<int>)
    ensures Ids([]) == {} && DirectIds([]) == {} && Traced(gems, seeds, roots, []) && Rainbows(gems, []) == 0
  {
  }

  lemma DirectInIds(trail: seq<Mark>)
    ensures DirectIds(trail) <= Ids(trail)
  {
  }

  /** Direct marks are marks of seeds; with no seeds every mark is a blast's. */
  lemma DirectSeeds(gems: Gems, seeds: set<int>, roots: set<int>, trail: seq<Mark>)
    requires Traced(gems, seeds, roots, trail)
    ensures DirectIds(trail) <= seeds
  {
    forall v | v in DirectIds(trail)
      ensures v in seeds
    {
      var i :| 0 <= i < |trail| && trail[i].cause.Direct? && trail[i].id == v;
      assert Justified(gems, seeds, roots, trail, i);
    }
  }

  /**
   * The upper bound a trail gives: every gem it marks is registered, and is a
   * seed or lies in the blast of a root or of a gem the trail chain-marked.
   */
  lemma TracedCovers(gems: Gems, seeds: set<int>, roots: set<int>, trail: seq<Mark>)
    requires Traced(gems, seeds, roots, trail)
    ensures forall t :: t in Ids(trail) ==>
      t in gems && (t in seeds || exists u :: u in gems && (u in roots || u in Ids(trail)) && Reaches(gems[u], gems[t]))
  {
    forall t | t in Ids(trail)
      ensures t in gems && (t in seeds || exists u :: u in gems && (u in roots || u in Ids(trail)) && Reaches(gems[u], gems[t]))
    {
      var i :| 0 <= i < |trail| && trail[i].id == t;
      assert Justified(gems, seeds, roots, trail, i);
      if trail[i].cause.By? {
        var u := trail[i].cause.u;
        if u !in roots {
          var j :| 0 <= j < i && j < |trail| && trail[j].id == u && trail[j].cause.By?;
          assert u in Ids(trail);
        }
      }
    }
  }

  /**
   * With no other special on the board, a chain started by the gem id marks
   * only gems in its own blast: a lone row blast marks nothing off its row.
   */
  lemma LoneSpecial(gems: Gems, id: int, trail: seq<Mark>)
    requires id in gems && forall v :: v in gems && v != id ==> gems[v].special == None
    requires Traced(gems, {}, {id}, trail)
    ensures forall t :: t in Ids(trail) ==> t in gems && Reaches(gems[id], gems[t])
  {
    forall t | t in Ids(trail)
      ensures t in gems && Reaches(gems[id], gems[t])
    {
      var i :| 0 <= i < |trail| && trail[i].id == t;
      assert Justified(gems, {}, {id}, trail, i);
    }
  }

  lemma TrailConcat(a: seq<Mark>, b: seq<Mark>)
    ensures Ids(a + b) == Ids(a) + Ids(b)
    ensures DirectIds(a + b) == DirectIds(a) + DirectIds(b)
  {
    var ab := a + b;
    forall v | v in Ids(ab)
      ensures v in Ids(a) + Ids(b)
    {
      var i :| 0 <= i < |ab| && ab[i].id == v;
      if i >= |a| {
        assert b[i - |a|] == ab[i];
      }
    }
    forall v | v in Ids(a) + Ids(b)
      ensures v in Ids(ab)
    {
      if v in Ids(a) {
        var i :| 0 <= i < |a| && a[i].id == v;
        assert ab[i] == a[i];
      } else {
        var i :| 0 <= i < |b| && b[i].id == v;
        assert ab[|a| + i] == b[i];
      }
    }
    forall v | v in DirectIds(ab)
      ensures v in DirectIds(a) + DirectIds(b)
    {
      var i :| 0 <= i < |ab| && ab[i].cause.Direct? && ab[i].id == v;
      if i >= |a| {
        assert b[i - |a|] == ab[i];
      }
    }
    forall v | v in DirectIds(a) + DirectIds(b)
      ensures v in DirectIds(ab)
    {
      if v in DirectIds(a) {
        var i :| 0 <= i < |a| && a[i].cause.Direct? && a[i].id == v;
        assert ab[i] == a[i];
      } else {
        var i :| 0 <= i < |b| && b[i].cause.Direct? && b[i].id == v;
        assert ab[|a| + i] == b[i];
      }
    }
  }

  lemma {:induction false} RainbowsConcat(gems: Gems, a: seq<Mark>, b: seq<Mark>)
    ensures Rainbows(gems, a + b) == Rainbows(gems, a) + Rainbows(gems, b)
  {
    if a == [] {
      assert a + b == b;
    } else {
      assert (a + b)[0] == a[0] && (a + b)[1..] == a[1..] + b;
      RainbowsConcat(gems, a[1..], b);
    }
  }

  /** Raising flags changes no gem's kind. */
  lemma {:induction false} RainbowsMarks(g0: Gems, g1: Gems, trail: seq<Mark>)
    requires MarksOnly(g0, g1)
    ensures Rainbows(g0, trail) == Rainbows(g1, trail)
  {
    if trail != [] {
      RainbowsMarks(g0, g1, trail[1..]);
      var v := trail[0].id;
      if v in g0 {
        assert g1[v] == g0[v].(isMatched := g1[v].isMatched);
      }
    }
  }

  lemma ReachesMarks(g0: Gems, g1: Gems, u: int, t: int)
    requires MarksOnly(g0, g1) && u in g0 && t in g0
    ensures Reaches(g1[u], g1[t]) == Reaches(g0[u], g0[t])
  {
    assert g1[u] == g0[u].(isMatched := g1[u].isMatched);
    assert g1[t] == g0[t].(isMatched := g1[t].isMatched);
  }

  /** Raising flags moves no blast, so a trail stays accounted for; more seeds and roots only allow more. */
  lemma TracedLift(g0: Gems, g1: Gems, seeds: set<int>, roots: set<int>, seeds': set<int>, roots': set<int>, trail: seq<Mark>)
    requires MarksOnly(g0, g1) && Traced(g1, seeds, roots, trail)
    requires seeds <= seeds' && roots <= roots'
    ensures Traced(g0, seeds', roots', trail)
  {
    forall i | 0 <= i < |trail|
      ensures Justified(g0, seeds', roots', trail, i)
    {
      assert Justified(g1, seeds, roots, trail, i);
      var v := trail[i].id;
      assert g1[v] == g0[v].(isMatched := g1[v].isMatched);
      if trail[i].cause.By? {
        var u := trail[i].cause.u;
        assert g1[u] == g0[u].(isMatched := g1[u].isMatched);
      }
    }
  }

  /** Two accounted-for trails in a row; the second may also blame gems a blast marked in the first. */
  lemma TracedConcat(gems: Gems, seeds: set<int>, roots: set<int>, extra: set<int>, a: seq<Mark>, b: seq<Mark>)
    requires Traced(gems, seeds, roots, a) && Traced(gems, seeds, roots + extra, b)
    requires forall u :: u in extra ==> ChainedBefore(a, |a|, u)
    ensures Traced(gems, seeds, roots, a + b)
  {
    var ab := a + b;
    forall i | 0 <= i < |ab|
      ensures Justified(gems, seeds, roots, ab, i)
    {
      if i < |a| {
        assert ab[i] == a[i];
        assert Justified(gems, seeds, roots, a, i);
        if a[i].cause.By? && a[i].cause.u !in roots {
          var j :| 0 <= j < i && j < |a| && a[j].id == a[i].cause.u && a[j].cause.By?;
          assert ab[j] == a[j];
        }
      } else {
        var k := i - |a|;
        assert ab[i] == b[k];
        assert Justified(gems, seeds, roots + extra, b, k);
        if b[k].cause.By? && b[k].cause.u !in roots {
          var u := b[k].cause.u;
          if u in extra {
            var j :| 0 <= j < |a| && j < |a| && a[j].id == u && a[j].cause.By?;
            assert ab[j] == a[j];
          } else {
            var j :| 0 <= j < k && j < |b| && b[j].id == u && b[j].cause.By?;
            assert ab[|a| + j] == b[j];
          }
        }
      }
    }
  }

  /** One more call in a loop that collects a trail: newly matched sets, trails and rainbow counts add up. */
  lemma TrailStep(g0: Gems, ga: Gems, gf: Gems, seeds: set<int>, roots: set<int>, sa: set<int>, ra: set<int>,
                  trail: seq<Mark>, tr: seq<Mark>)
    requires MarksOnly(g0, ga) && MarksOnly(ga, gf)
    requires Ids(trail) == Newly(g0, ga) && Traced(g0, seeds, roots, trail)
    requires Ids(tr) == Newly(ga, gf) && Traced(ga, sa, ra, tr) && sa <= seeds && ra <= roots
    ensures MarksOnly(g0, gf) && Newly(g0, gf) == Newly(g0, ga) + Newly(ga, gf)
    ensures Ids(trail + tr) == Newly(g0, gf) && Traced(g0, seeds, roots, trail + tr)
    ensures DirectIds(trail + tr) == DirectIds(trail) + DirectIds(tr)
    ensures Rainbows(g0, trail + tr) == Rainbows(g0, trail) + Rainbows(ga, tr)
  {
    MarksOnlyTrans(g0, ga, gf);
    TrailConcat(trail, tr);
    TracedLift(g0, ga, sa, ra, seeds, roots + {}, tr);
    TracedConcat(g0, seeds, roots, {}, trail, tr);
    RainbowsConcat(g0, trail, tr);
    RainbowsMarks(g0, ga, tr);
  }

  /** A target marked by the blast of u, followed by the trail of its own blast. */
  lemma ChainHead(ga: Gems, gb: Gems, gc: Gems, u: int, t: int, tr: seq<Mark>)
    requires t in ga && !ga[t].isMatched && gb == ga[t := ga[t].(isMatched := true)] && MarksOnly(gb, gc)
    requires u in ga && Reaches(ga[u], ga[t])
    requires Ids(tr) == Newly(gb, gc) - {t} && Traced(gb, {}, {t}, tr)
    ensures MarksOnly(ga, gc) && Ids([Mark(t, By(u))] + tr) == Newly(ga, gc)
    ensures Traced(ga, {}, {u}, [Mark(t, By(u))] + tr)
    ensures Rainbows(ga, [Mark(t, By(u))] + tr) == (if ga[t].special == Rainbow then 1 else 0) + Rainbows(gb, tr)
  {
    var head := [Mark(t, By(u))];
    MarkThen(ga, gb, gc, t);
    MarkOne(ga, t);
    TrailConcat(head, tr);
    assert Ids(head) == {t} by {
      assert head[0].id == t;
    }
    assert Justified(ga, {}, {u}, head, 0);
    TracedLift(ga, gb, {}, {t}, {}, {u} + {t}, tr);
    assert ChainedBefore(head, 1, t) by {
      assert head[0].id == t && head[0].cause.By?;
    }
    TracedConcat(ga, {}, {u}, {t}, head, tr);
    RainbowsConcat(ga, head, tr);
    RainbowsMarks(ga, gb, tr);
    assert head[1..] == [];
  }

  /** A gem the loop marks itself (when it was not matched yet), followed by the trail of its own blast. */
  lemma DirectHead(ga: Gems, gb: Gems, gc: Gems, t: int, r0: set<int>, roots: set<int>, head: seq<Mark>, tr: seq<Mark>)
    requires t in ga && gb == ga[t := ga[t].(isMatched := true)] && MarksOnly(gb, gc)
    requires head == if ga[t].isMatched then [] else [Mark(t, Direct)]
    requires Ids(tr) == Newly(gb, gc) - {t} && Traced(gb, {}, r0, tr) && r0 <= roots
    ensures MarksOnly(ga, gc) && Ids(head + tr) == Newly(ga, gc)
    ensures DirectIds(head + tr) == Newly(ga, gb) == (if ga[t].isMatched then {} else {t})
    ensures Traced(ga, {t}, roots, head + tr)
  {
    MarkThen(ga, gb, gc, t);
    MarkAny(ga, t);
    TrailConcat(head, tr);
    DirectSeeds(gb, {}, r0, tr);
    if head != [] {
      assert head[0].id == t && head[0].cause.Direct?;
      assert Ids(head) == {t} && DirectIds(head) == {t};
      assert Justified(ga, {t}, roots, head, 0);
    }
    TracedLift(ga, gb, {}, r0, {t}, roots + {}, tr);
    TracedConcat(ga, {t}, roots, {}, head, tr);
  }

  // ---------------------------------------------------------------------
  // Target lists

  /** The target loops of a line or area special (MatchSystem.ts:482-491): the board cells of its blast. */
  method RegionTargets(grid: Grid, special: SpecialType, cx: int, cy: int) returns (targets: seq<int>)
    requires IsGrid(grid) && InBounds(cx, cy)
    requires special == RowBlast || special == ColBlast || special == AreaBlast
    ensures forall y, x :: InBounds(x, y) && InRegion(special, cx, cy, x, y) ==> grid[y][x] in targets
    ensures forall i :: 0 <= i < |targets| ==> InRegionId(grid, special, cx, cy, targets[i])
  {
    targets := [];
    if special == RowBlast {
      for x := 0 to Cols
        invariant forall x' :: 0 <= x' < x ==> grid[cy][x'] in targets
        invariant forall i :: 0 <= i < |targets| ==> InRegionId(grid, special, cx, cy, targets[i])
      {
        assert InRegion(special, cx, cy, x, cy);
        targets := targets + [grid[cy][x]];
      }
    } else if special == ColBlast {
      for y := 0 to Rows
        invariant forall y' :: 0 <= y' < y ==> grid[y'][cx] in targets
        invariant forall i :: 0 <= i < |targets| ==> InRegionId(grid, special, cx, cy, targets[i])
      {
        assert InRegion(special, cx, cy, cx, y);
        targets := targets + [grid[y][cx]];
      }
    } else {
      for y := cy - 1 to cy + 2
        invariant forall y', x' :: cy - 1 <= y' < y && InBounds(x', y') && cx - 1 <= x' <= cx + 1 ==> grid[y'][x'] in targets
        invariant forall i :: 0 <= i < |targets| ==> InRegionId(grid, special, cx, cy, targets[i])
      {
        for x := cx - 1 to cx + 2
          invariant forall y', x' :: cy - 1 <= y' < y && InBounds(x', y') && cx - 1 <= x' <= cx + 1 ==> grid[y'][x'] in targets
          invariant forall x' :: cx - 1 <= x' < x && InBounds(x', y) ==> grid[y][x'] in targets
          invariant forall i :: 0 <= i < |targets| ==> InRegionId(grid, special, cx, cy, targets[i])
        {
          if 0 <= y < Rows && 0 <= x < Cols {
            assert InRegion(special, cx, cy, x, y);
            targets := targets + [grid[y][x]];
          }
        }
      }
    }
  }

  /** The rainbow target loop (MatchSystem.ts:495-497): the ids of colour c, in registry order. */
  method ColourTargets(gems: Gems, order: seq<int>, c: int) returns (targets: seq<int>)
    requires forall i :: 0 <= i < |order| ==> order[i] in gems
    ensures forall i :: 0 <= i < |targets| ==> targets[i] in gems && gems[targets[i]].gemType == c
    ensures forall t :: t in order && gems[t].gemType == c ==> t in targets
  {
    targets := [];
    for i := 0 to |order|
      invariant forall j :: 0 <= j < |targets| ==> targets[j] in gems && gems[targets[j]].gemType == c
      invariant forall j :: 0 <= j < i && gems[order[j]].gemType == c ==> order[j] in targets
    {
      if gems[order[i]].gemType == c {
        targets := targets + [order[i]];
      }
    }
  }

  // ---------------------------------------------------------------------
  // triggerSpecial

  /** After the target loop, every target that is registered is matched. */
  ghost predicate AllMarked(gems: Gems, targets: seq<int>, n: int)
    requires 0 <= n <= |targets|
  {
    forall j :: 0 <= j < n && targets[j] in gems ==> gems[targets[j]].isMatched
  }

  /**
   * triggerSpecial: a special gem goes off. It is marked, every registered gem
   * it reaches that was not yet matched is marked for 20 points and goes off
   * in turn. A rainbow reached this way picks its colour with a random draw
   * among the first RainbowColours colours.
   */
  method TriggerSpecial(e: Engine, id: int) returns (ghost trail: seq<Mark>)
    requires e.Valid() && id in e.gems
    modifies e`gems, e`score, e`draws
    ensures e.Valid() && MarksOnly(old(e.gems), e.gems)
    ensures old(e.gems)[id].special == None ==>
      e.gems == old(e.gems) && e.score == old(e.score) && e.draws == old(e.draws)
    ensures old(e.gems)[id].special != None ==> e.gems[id].isMatched
    ensures old(e.gems)[id].special == Rainbow ==>
      ColourMatched(e.gems, e.rng(old(e.draws)) % RainbowColours)
    ensures old(e.gems)[id].special != Rainbow ==>
      RegionMatched(e.grid, e.gems, old(e.gems)[id].special, old(e.gems)[id].gridX, old(e.gems)[id].gridY)
    ensures Fired(e.grid, e.gems, id)
    ensures Chained(e.grid, e.gems, Newly(old(e.gems), e.gems) - {id})
    ensures e.score == old(e.score) + 20 * |Newly(old(e.gems), e.gems) - {id}|
    ensures Ids(trail) == Newly(old(e.gems), e.gems) - {id} && Traced(old(e.gems), {}, {id}, trail)
    ensures e.draws == old(e.draws) + (if old(e.gems)[id].special == Rainbow then 1 else 0) + Rainbows(old(e.gems), trail)
    decreases Unmatched(e.gems), 2
  {
    var g := e.gems[id];
    if g.special == None {
      MarksOnlyRefl(e.gems);
      assert Newly(e.gems, e.gems) - {id} == {};
      trail := [];
      EmptyTrail(e.gems, {}, {id});
      return;
    }
    ghost var g0, s0 := e.gems, e.score;
    MarkSelf(e, id);
    ghost var g1 := e.gems;
    var targets, c := CollectTargets(e, g);
    assert e.gems[id].special == g.special && e.gems[id].gridX == g.gridX && e.gems[id].gridY == g.gridY;
    trail := BlastTargets(e, targets, id);
    TriggerFinish(e.grid, g0, g1, e.gems, id, s0, e.score);
    TargetsFired(e.grid, e.gems, e.nextId, id, g, c, g1, targets);
    TracedLift(g0, g1, {}, {id}, {}, {id}, trail);
    RainbowsMarks(g0, g1, trail);
  }

  /** triggerSpecial's first step: the gem itself is marked, for no points. */
  method MarkSelf(e: Engine, id: int)
    requires e.Valid() && id in e.gems
    modifies e`gems
    ensures e.gems == old(e.gems)[id := old(e.gems)[id].(isMatched := true)]
    ensures e.Valid() && MarksOnly(old(e.gems), e.gems) && Newly(old(e.gems), e.gems) <= {id}
    ensures Unmatched(e.gems) <= Unmatched(old(e.gems))
  {
    ghost var g0 := e.gems;
    MarkAny(e.gems, id);
    e.gems := e.gems[id := e.gems[id].(isMatched := true)];
    MarksOnlyConsistent(e.grid, g0, e.gems);
    UnmatchedSub(g0, e.gems);
  }

  /** The target list of a special gem, with the random colour a rainbow draws (MatchSystem.ts:480-498). */
  method CollectTargets(e: Engine, g: Gem) returns (targets: seq<int>, ghost c: int)
    requires e.Valid() && InBounds(g.gridX, g.gridY) && g.special != None
    modifies e`draws
    ensures g.special == Rainbow ==> e.draws == old(e.draws) + 1 && c == e.rng(old(e.draws)) % RainbowColours
    ensures g.special == Rainbow ==> 0 <= c < RainbowColours
    ensures g.special == Rainbow ==>
      forall t :: t in OrderedIds(e.gems, 1, e.nextId) && e.gems[t].gemType == c ==> t in targets
    ensures g.special != Rainbow ==> e.draws == old(e.draws)
    ensures g.special != Rainbow ==>
      forall y, x :: InBounds(x, y) && InRegion(g.special, g.gridX, g.gridY, x, y) ==> e.grid[y][x] in targets
    ensures forall i :: 0 <= i < |targets| && targets[i] in e.gems ==> Reaches(g, e.gems[targets[i]])
  {
    c := 0;
    if g.special == Rainbow {
      var colour := e.RandomBelow(RainbowColours);
      c := colour;
      targets := ColourTargets(e.gems, OrderedIds(e.gems, 1, e.nextId), colour);
    } else {
      targets := RegionTargets(e.grid, g.special, g.gridX, g.gridY);
      RegionReach(e.grid, e.gems, g, targets);
    }
  }

  /** A registered gem on a cell of the blast records that cell, so the blast reaches it. */
  lemma RegionReach(grid: Grid, gems: Gems, g: Gem, targets: seq<int>)
    requires Consistent(grid, gems) && g.special != None && g.special != Rainbow
    requires forall i :: 0 <= i < |targets| ==> InRegionId(grid, g.special, g.gridX, g.gridY, targets[i])
    ensures forall i :: 0 <= i < |targets| && targets[i] in gems ==> Reaches(g, gems[targets[i]])
  {
    forall i | 0 <= i < |targets| && targets[i] in gems
      ensures Reaches(g, gems[targets[i]])
    {
      assert InRegionId(grid, g.special, g.gridX, g.gridY, targets[i]);
      var y, x :| InBounds(x, y) && InRegion(g.special, g.gridX, g.gridY, x, y) && grid[y][x] == targets[i];
    }
  }

  /** Marking the gem itself scores nothing; what its targets marked is what counts. */
  lemma TriggerFinish(grid: Grid, g0: Gems, g1: Gems, g2: Gems, id: int, s1: int, s2: int)
    requires IsGrid(grid) && MarksOnly(g0, g1) && MarksOnly(g1, g2) && id in g1 && g1[id].isMatched
    requires Newly(g0, g1) <= {id}
    requires Chained(grid, g2, Newly(g1, g2))
    requires s2 == s1 + 20 * |Newly(g1, g2)|
    ensures MarksOnly(g0, g2)
    ensures Chained(grid, g2, Newly(g0, g2) - {id})
    ensures s2 == s1 + 20 * |Newly(g0, g2) - {id}|
    ensures Newly(g0, g2) - {id} == Newly(g1, g2)
  {
    MarksOnlyTrans(g0, g1, g2);
    assert Newly(g0, g2) - {id} == Newly(g1, g2);
  }

  /** The target loop of triggerSpecial (MatchSystem.ts:501-511): every target lies in the blast of gem id. */
  method BlastTargets(e: Engine, targets: seq<int>, ghost id: int) returns (ghost trail: seq<Mark>)
    requires e.Valid() && id in e.gems
    requires forall i :: 0 <= i < |targets| && targets[i] in e.gems ==> Reaches(e.gems[id], e.gems[targets[i]])
    modifies e`gems, e`score, e`draws
    ensures e.Valid() && MarksOnly(old(e.gems), e.gems)
    ensures AllMarked(e.gems, targets, |targets|)
    ensures Chained(e.grid, e.gems, Newly(old(e.gems), e.gems))
    ensures e.score == old(e.score) + 20 * |Newly(old(e.gems), e.gems)|
    ensures Ids(trail) == Newly(old(e.gems), e.gems) && Traced(old(e.gems), {}, {id}, trail)
    ensures e.draws == old(e.draws) + Rainbows(old(e.gems), trail)
    decreases Unmatched(e.gems), 1
  {
    ghost var g0 := e.gems;
    MarksOnlyRefl(g0);
    trail := [];
    EmptyTrail(g0, {}, {id});
    for i := 0 to |targets|
      invariant e.Valid() && MarksOnly(g0, e.gems) && Unmatched(e.gems) <= Unmatched(g0)
      invariant AllMarked(e.gems, targets, i)
      invariant Chained(e.grid, e.gems, Newly(g0, e.gems))
      invariant e.score == old(e.score) + 20 * |Newly(g0, e.gems)|
      invariant Ids(trail) == Newly(g0, e.gems) && Traced(g0, {}, {id}, trail)
      invariant e.draws == old(e.draws) + Rainbows(g0, trail)
    {
      ghost var ga := e.gems;
      if targets[i] in g0 {
        ReachesMarks(g0, ga, id, targets[i]);
      }
      ghost var tr := BlastOne(e, targets[i], id);
      TrailStep(g0, ga, e.gems, {}, {id}, {}, {id}, trail, tr);
      trail := trail + tr;
      UnmatchedSub(ga, e.gems);
      ChainedMono(e.grid, ga, e.gems, Newly(g0, ga));
      AllMarkedMono(ga, e.gems, targets, i);
    }
  }

  /** One target: a registered, unmatched gem is marked for 20 points and goes off; any other is skipped. */
  method BlastOne(e: Engine, t: int, ghost id: int) returns (ghost trail: seq<Mark>)
    requires e.Valid() && id in e.gems && (t in e.gems ==> Reaches(e.gems[id], e.gems[t]))
    modifies e`gems, e`score, e`draws
    ensures e.Valid() && MarksOnly(old(e.gems), e.gems)
    ensures t in e.gems ==> e.gems[t].isMatched
    ensures !(t in old(e.gems) && !old(e.gems)[t].isMatched) ==>
      e.gems == old(e.gems) && e.score == old(e.score) && e.draws == old(e.draws)
    ensures Chained(e.grid, e.gems, Newly(old(e.gems), e.gems))
    ensures e.score == old(e.score) + 20 * |Newly(old(e.gems), e.gems)|
    ensures Ids(trail) == Newly(old(e.gems), e.gems) && Traced(old(e.gems), {}, {id}, trail)
    ensures e.draws == old(e.draws) + Rainbows(old(e.gems), trail)
    decreases Unmatched(e.gems), 0
  {
    if t in e.gems && !e.gems[t].isMatched {
      ghost var ga := e.gems;
      MarkOne(e.gems, t);
      e.gems := e.gems[t := e.gems[t].(isMatched := true)];
      e.score := e.score + 20;
      ghost var gb := e.gems;
      MarksOnlyConsistent(e.grid, ga, gb);
      UnmatchedShrinks(ga, gb, t);
      ghost var chain := TriggerSpecial(e, t);
      MarkThen(ga, gb, e.gems, t);
      ChainHead(ga, gb, e.gems, id, t, chain);
      assert gb[t].special == ga[t].special;
      trail := [Mark(t, By(id))] + chain;
    } else {
      MarksOnlyRefl(e.gems);
      trail := [];
      EmptyTrail(e.gems, {}, {id});
    }
  }

  /**
   * Marking t and then setting it off: what the trigger marked besides t is
   * everything newly marked except what the marking itself did.
   */
  lemma MarkThen(ga: Gems, gb: Gems, gc: Gems, t: int)
    requires t in ga && gb == ga[t := ga[t].(isMatched := true)] && MarksOnly(gb, gc)
    ensures MarksOnly(ga, gc)
    ensures Newly(ga, gb) == if ga[t].isMatched then {} else {t}
    ensures Newly(ga, gc) - Newly(ga, gb) == Newly(gb, gc) - {t}
    ensures Newly(ga, gc) == Newly(ga, gb) + (Newly(gb, gc) - {t})
  {
    MarkAny(ga, t);
    MarksOnlyTrans(ga, gb, gc);
    assert t !in Newly(gb, gc);
  }

  lemma UnmatchedSub(g0: Gems, g1: Gems)
    requires MarksOnly(g0, g1)
    ensures Unmatched(g1) <= Unmatched(g0)
  {
    forall u | u in Unmatched(g1)
      ensures u in Unmatched(g0)
    {
    }
  }

  lemma AllMarkedMono(g1: Gems, g2: Gems, targets: seq<int>, i: int)
    requires 0 <= i < |targets| && MarksOnly(g1, g2) && AllMarked(g1, targets, i)
    requires targets[i] in g2 ==> g2[targets[i]].isMatched
    ensures AllMarked(g2, targets, i + 1)
  {
    forall j | 0 <= j < i + 1 && targets[j] in g2
      ensures g2[targets[j]].isMatched
    {
      if j < i {
        var v := targets[j];
        assert v in g1 && g1[v].isMatched;
        assert g2[v].isMatched;
      }
    }
  }

  /** The target list covered the blast, so once all targets are marked the blast has gone off. */
  lemma TargetsFired(grid: Grid, gems: Gems, nextId: int, id: int, g: Gem, c: int, g1: Gems, targets: seq<int>)
    requires IsGrid(grid) && MarksOnly(g1, gems)
    requires id in gems && gems[id].special == g.special && gems[id].gridX == g.gridX && gems[id].gridY == g.gridY
    requires g.special == Rainbow ==> 0 <= c < RainbowColours
    requires forall t :: t in g1 ==> 1 <= t < nextId
    requires AllMarked(gems, targets, |targets|)
    requires g.special == Rainbow ==>
      forall t :: t in OrderedIds(g1, 1, nextId) && g1[t].gemType == c ==> t in targets
    requires g.special != Rainbow && g.special != None ==>
      forall y, x :: InBounds(x, y) && InRegion(g.special, g.gridX, g.gridY, x, y) ==> grid[y][x] in targets
    ensures g.special == Rainbow ==> ColourMatched(gems, c)
    ensures g.special != Rainbow ==> RegionMatched(grid, gems, g.special, g.gridX, g.gridY)
    ensures Fired(grid, gems, id)
  {
    if g.special == Rainbow {
      forall t | t in gems && gems[t].gemType == c
        ensures gems[t].isMatched
      {
        assert t in OrderedIds(g1, 1, nextId);
        var j :| 0 <= j < |targets| && targets[j] == t;
      }
    } else if g.special != None {
      forall y, x | InBounds(x, y) && InRegion(g.special, g.gridX, g.gridY, x, y) && grid[y][x] in gems
        ensures gems[grid[y][x]].isMatched
      {
        var j :| 0 <= j < |targets| && targets[j] == grid[y][x];
      }
    }
  }

  // ---------------------------------------------------------------------
  // executeSpecialCombo

  predicate IsRainbow(gems: Gems, t: int)
    requires t in gems
  {
    gems[t].special == Rainbow
  }

  /** The registered ids of gem type c. */
  ghost function TypeIds(gems: Gems, c: int): set<int>
  {
    set t | t in gems && gems[t].gemType == c
  }

  /** Every registered gem is matched. */
  ghost predicate AllMatched(gems: Gems)
  {
    forall t :: t in gems ==> gems[t].isMatched
  }

  /**
   * executeSpecialCombo (MatchSystem.ts:170-218): both swapped gems are marked.
   * Two rainbows clear the board for 100 points a gem. A rainbow and another
   * gem mark every gem of the partner's type for 50 points each, setting off
   * the specials among them (except the pair itself); the trail's direct marks
   * are the gems this marking reached first, its other marks the gems the
   * chains reached, at 20 points each. Any other pair sets off both specials.
   */
  method ExecuteSpecialCombo(e: Engine, a: int, b: int) returns (ghost trail: seq<Mark>)
    requires e.Valid() && a in e.gems && b in e.gems
    modifies e`gems, e`score, e`draws
    ensures e.Valid() && MarksOnly(old(e.gems), e.gems)
    ensures e.gems[a].isMatched && e.gems[b].isMatched
    ensures IsRainbow(old(e.gems), a) && IsRainbow(old(e.gems), b) ==>
      AllMatched(e.gems) && e.score == old(e.score) + 100 * |old(e.gems)| && e.draws == old(e.draws)
    ensures IsRainbow(old(e.gems), a) != IsRainbow(old(e.gems), b) ==>
      var c := old(e.gems)[if IsRainbow(old(e.gems), a) then b else a].gemType;
      && ColourMatched(e.gems, c)
      && Ids(trail) == Newly(old(e.gems), e.gems) - {a, b}
      && Traced(old(e.gems), TypeIds(old(e.gems), c), TypeIds(old(e.gems), c) - {a, b}, trail)
      && e.score == old(e.score) + 50 * |TypeIds(old(e.gems), c)| + 20 * |Ids(trail) - DirectIds(trail)|
      && Chained(e.grid, e.gems, Ids(trail) - DirectIds(trail))
      && (forall t :: t in TypeIds(old(e.gems), c) && t != a && t != b ==> Fired(e.grid, e.gems, t))
    ensures !IsRainbow(old(e.gems), a) && !IsRainbow(old(e.gems), b) ==>
      && Fired(e.grid, e.gems, a) && Fired(e.grid, e.gems, b)
      && Ids(trail) == Newly(old(e.gems), e.gems) - {a, b}
      && Traced(old(e.gems), {}, {a, b}, trail)
      && e.score == old(e.score) + 20 * |Newly(old(e.gems), e.gems) - {a, b}|
      && Chained(e.grid, e.gems, Newly(old(e.gems), e.gems) - {a, b})
      && e.draws == old(e.draws) + Rainbows(old(e.gems), trail)
  {
    ghost var g0, s0 := e.gems, e.score;
    MarkPair(e, a, b);
    ghost var g1 := e.gems;
    if e.gems[a].special == Rainbow || e.gems[b].special == Rainbow {
      var rainbow := if e.gems[a].special == Rainbow then a else b;
      var other := if e.gems[a].special == Rainbow then b else a;
      if e.gems[other].special == Rainbow {
        DoubleRainbow(e);
        MarksOnlyTrans(g0, g1, e.gems);
        trail := [];
      } else {
        var c := e.gems[other].gemType;
        trail := ColourBlast(e, c, rainbow, other);
        NewlyAfterPair(g0, g1, e.gems, a, b);
        TypeIdsMarks(g0, g1, c);
        assert {rainbow, other} == {a, b};
        TracedLift(g0, g1, TypeIds(g1, c), TypeIds(g1, c) - {a, b}, TypeIds(g0, c), TypeIds(g0, c) - {a, b}, trail);
      }
    } else {
      trail := TriggerPair(e, a, b);
      NewlyAfterPair(g0, g1, e.gems, a, b);
      TracedLift(g0, g1, {}, {a, b}, {}, {a, b}, trail);
      RainbowsMarks(g0, g1, trail);
    }
  }

  /** The double-rainbow branch (MatchSystem.ts:183-190): every gem is marked and each is worth 100. */
  method DoubleRainbow(e: Engine)
    requires e.Valid()
    modifies e`gems, e`score
    ensures e.Valid() && MarksOnly(old(e.gems), e.gems) && AllMatched(e.gems)
    ensures e.score == old(e.score) + 100 * |old(e.gems)|
  {
    MarkAll(e);
    assert |e.gems| == |e.gems.Keys| == |old(e.gems).Keys| == |old(e.gems)|;
    e.score := e.score + |e.gems| * 100;
  }

  /** With both gems of the pair already marked, what the rest marks is what is newly marked apart from the pair. */
  lemma NewlyAfterPair(g0: Gems, g1: Gems, g2: Gems, a: int, b: int)
    requires MarksOnly(g0, g1) && MarksOnly(g1, g2) && Newly(g0, g1) <= {a, b}
    requires a in g1 && b in g1 && g1[a].isMatched && g1[b].isMatched
    ensures MarksOnly(g0, g2) && Newly(g0, g2) - {a, b} == Newly(g1, g2)
  {
    MarksOnlyTrans(g0, g1, g2);
    assert a !in Newly(g1, g2) && b !in Newly(g1, g2);
  }

  /** executeSpecialCombo's first step: both gems are marked, for no points. */
  method MarkPair(e: Engine, a: int, b: int)
    requires e.Valid() && a in e.gems && b in e.gems
    modifies e`gems
    ensures e.Valid() && MarksOnly(old(e.gems), e.gems) && Newly(old(e.gems), e.gems) <= {a, b}
    ensures e.gems[a].isMatched && e.gems[b].isMatched
  {
    ghost var g0 := e.gems;
    MarkAny(e.gems, a);
    e.gems := e.gems[a := e.gems[a].(isMatched := true)];
    ghost var g1 := e.gems;
    MarkAny(e.gems, b);
    e.gems := e.gems[b := e.gems[b].(isMatched := true)];
    MarksOnlyTrans(g0, g1, e.gems);
    MarksOnlyConsistent(e.grid, g0, e.gems);
  }

  /** The double-rainbow loop (MatchSystem.ts:185-188): every gem is marked. */
  method MarkAll(e: Engine)
    requires e.Valid()
    modifies e`gems
    ensures e.Valid() && MarksOnly(old(e.gems), e.gems) && AllMatched(e.gems)
  {
    ghost var g0 := e.gems;
    var order := OrderedIds(e.gems, 1, e.nextId);
    var marked := MarkListed(e.gems, order);
    MarksOnlyConsistent(e.grid, g0, marked);
    e.gems := marked;
    forall t | t in e.gems
      ensures e.gems[t].isMatched
    {
      assert t in g0 && 1 <= t < e.nextId;
      assert t in order;
    }
  }

  /** Raising the flag of every listed gem, in list order; nothing else changes. */
  method MarkListed(gems: Gems, ids: seq<int>) returns (marked: Gems)
    requires forall i :: 0 <= i < |ids| ==> ids[i] in gems
    ensures MarksOnly(gems, marked)
    ensures forall i :: 0 <= i < |ids| ==> marked[ids[i]].isMatched
  {
    marked := gems;
    MarksOnlyRefl(gems);
    for i := 0 to |ids|
      invariant MarksOnly(gems, marked)
      invariant forall j :: 0 <= j < i ==> marked[ids[j]].isMatched
    {
      ghost var ga := marked;
      MarkAny(marked, ids[i]);
      marked := marked[ids[i] := marked[ids[i]].(isMatched := true)];
      MarksOnlyTrans(gems, ga, marked);
    }
  }

  /** The other-combo branch (MatchSystem.ts:216-217): both specials go off. */
  method TriggerPair(e: Engine, a: int, b: int) returns (ghost trail: seq<Mark>)
    requires e.Valid() && a in e.gems && b in e.gems
    requires e.gems[a].isMatched && e.gems[b].isMatched
    requires e.gems[a].special != Rainbow && e.gems[b].special != Rainbow
    modifies e`gems, e`score, e`draws
    ensures e.Valid() && MarksOnly(old(e.gems), e.gems)
    ensures Fired(e.grid, e.gems, a) && Fired(e.grid, e.gems, b)
    ensures Chained(e.grid, e.gems, Newly(old(e.gems), e.gems))
    ensures e.score == old(e.score) + 20 * |Newly(old(e.gems), e.gems)|
    ensures Ids(trail) == Newly(old(e.gems), e.gems) && Traced(old(e.gems), {}, {a, b}, trail)
    ensures e.draws == old(e.draws) + Rainbows(old(e.gems), trail)
  {
    ghost var g0, s0 := e.gems, e.score;
    ghost var ta := TriggerSpecial(e, a);
    ghost var g1, s1 := e.gems, e.score;
    assert g1[b].special == g0[b].special;
    ghost var tb := TriggerSpecial(e, b);
    FiredMono(e.grid, g1, e.gems, a);
    PairFinish(e.grid, g0, g1, e.gems, a, b, s0, s1, e.score);
    MarksOnlyRefl(g0);
    TracedLift(g0, g0, {}, {a}, {}, {a, b}, ta);
    TrailStep(g0, g1, e.gems, {}, {a, b}, {}, {b}, ta, tb);
    trail := ta + tb;
  }

  /** Both triggers of a pair: each scores what it marked, the pair itself being marked already. */
  lemma PairFinish(grid: Grid, g0: Gems, g1: Gems, g2: Gems, a: int, b: int, s0: int, s1: int, s2: int)
    requires IsGrid(grid) && MarksOnly(g0, g1) && MarksOnly(g1, g2)
    requires a in g0 && b in g0 && g0[a].isMatched && g0[b].isMatched
    requires Chained(grid, g1, Newly(g0, g1) - {a}) && Chained(grid, g2, Newly(g1, g2) - {b})
    requires s1 == s0 + 20 * |Newly(g0, g1) - {a}| && s2 == s1 + 20 * |Newly(g1, g2) - {b}|
    ensures MarksOnly(g0, g2)
    ensures Newly(g0, g1) - {a} == Newly(g0, g1) && Newly(g1, g2) - {b} == Newly(g1, g2)
    ensures Chained(grid, g2, Newly(g0, g2))
    ensures s2 == s0 + 20 * |Newly(g0, g2)|
  {
    MarksOnlyTrans(g0, g1, g2);
    assert Newly(g0, g1) - {a} == Newly(g0, g1);
    assert Newly(g1, g2) - {b} == Newly(g1, g2);
    ChainedMono(grid, g1, g2, Newly(g0, g1));
    ChainedUnion(grid, g2, Newly(g0, g1), Newly(g1, g2));
  }

  /** The first i entries of order that have colour c are matched, and those other than the pair have fired. */
  ghost predicate ColourVisited(grid: Grid, g0: Gems, gems: Gems, order: seq<int>, c: int, i: int, rainbow: int, other: int)
    requires IsGrid(grid) && MarksOnly(g0, gems) && 0 <= i <= |order|
    requires forall j :: 0 <= j < |order| ==> order[j] in g0
  {
    forall j :: 0 <= j < i && g0[order[j]].gemType == c ==>
      gems[order[j]].isMatched && (order[j] != rainbow && order[j] != other ==> Fired(grid, gems, order[j]))
  }

  lemma VisitedStep(grid: Grid, g0: Gems, ga: Gems, gf: Gems, order: seq<int>, c: int, i: int, rainbow: int, other: int)
    requires IsGrid(grid) && MarksOnly(g0, ga) && MarksOnly(ga, gf) && 0 <= i < |order|
    requires forall j :: 0 <= j < |order| ==> order[j] in g0
    requires ColourVisited(grid, g0, ga, order, c, i, rainbow, other)
    requires gf[order[i]].isMatched
    requires ga[order[i]].special != None && order[i] != rainbow && order[i] != other ==> Fired(grid, gf, order[i])
    ensures MarksOnly(g0, gf) && ColourVisited(grid, g0, gf, order, c, i + 1, rainbow, other)
  {
    MarksOnlyTrans(g0, ga, gf);
    forall j | 0 <= j < i + 1 && g0[order[j]].gemType == c
      ensures gf[order[j]].isMatched
      ensures order[j] != rainbow && order[j] != other ==> Fired(grid, gf, order[j])
    {
      var v := order[j];
      if j < i {
        assert ga[v].isMatched;
        if v != rainbow && v != other {
          FiredMono(grid, ga, gf, v);
        }
      } else if ga[v].special == None {
        assert gf[v] == ga[v].(isMatched := gf[v].isMatched);
      }
    }
  }

  /** Once the whole registry is visited, the colour is matched and its specials other than the pair have fired. */
  lemma VisitedAll(grid: Grid, g0: Gems, gems: Gems, order: seq<int>, c: int, hi: int, rainbow: int, other: int)
    requires IsGrid(grid) && MarksOnly(g0, gems)
    requires order == OrderedIds(g0, 1, hi) && forall t :: t in g0 ==> 1 <= t < hi
    requires ColourVisited(grid, g0, gems, order, c, |order|, rainbow, other)
    ensures ColourMatched(gems, c)
    ensures forall t :: t in TypeIds(g0, c) && t != rainbow && t != other ==> Fired(grid, gems, t)
  {
    forall t | t in gems && gems[t].gemType == c
      ensures gems[t].isMatched
    {
      assert gems[t] == g0[t].(isMatched := gems[t].isMatched);
      assert t in order;
      var j :| 0 <= j < |order| && order[j] == t;
    }
    forall t | t in TypeIds(g0, c) && t != rainbow && t != other
      ensures Fired(grid, gems, t)
    {
      assert t in order;
      var j :| 0 <= j < |order| && order[j] == t;
    }
  }

  lemma VisitedSkip(grid: Grid, g0: Gems, gems: Gems, order: seq<int>, c: int, i: int, rainbow: int, other: int)
    requires IsGrid(grid) && MarksOnly(g0, gems) && 0 <= i < |order|
    requires forall j :: 0 <= j < |order| ==> order[j] in g0
    requires ColourVisited(grid, g0, gems, order, c, i, rainbow, other)
    requires g0[order[i]].gemType != c
    ensures ColourVisited(grid, g0, gems, order, c, i + 1, rainbow, other)
  {
  }

  /** How many entries of s have colour c. */
  ghost function CountOf(gems: Gems, s: seq<int>, c: int): nat
    requires forall j :: 0 <= j < |s| ==> s[j] in gems
  {
    if s == [] then 0
    else CountOf(gems, s[..|s| - 1], c) + (if gems[s[|s| - 1]].gemType == c then 1 else 0)
  }

  /**
   * The rainbow-and-gem loop (MatchSystem.ts:193-208): every gem of type c is
   * marked and counted, the specials among them other than the swapped pair go
   * off, and each counted gem is worth 50.
   */
  method ColourBlast(e: Engine, c: int, rainbow: int, other: int) returns (ghost trail: seq<Mark>)
    requires e.Valid()
    modifies e`gems, e`score, e`draws
    ensures e.Valid() && ColourBlasted(e.grid, old(e.gems), e.gems, old(e.score), e.score, c, trail, rainbow, other)
  {
    ghost var g0, s0 := e.gems, e.score;
    var order := OrderedIds(e.gems, 1, e.nextId);
    var count;
    count, trail := ColourLoop(e, order, c, rainbow, other);
    ghost var sm := e.score;
    e.score := e.score + count * 50;
    ColourDone(e.grid, g0, e.gems, s0, sm, e.score, order, c, e.nextId, count, trail, rainbow, other);
  }

  /** The forEach over the registry in Map order, before the 50 points per counted gem are added. */
  method ColourLoop(e: Engine, order: seq<int>, c: int, rainbow: int, other: int)
    returns (count: int, ghost trail: seq<Mark>)
    requires e.Valid() && forall j :: 0 <= j < |order| ==> order[j] in e.gems
    modifies e`gems, e`score, e`draws
    ensures e.Valid()
    ensures ColourInv(e.grid, old(e.gems), e.gems, old(e.score), e.score, order, c, |order|, count, trail, rainbow, other)
  {
    ghost var g0, s0 := e.gems, e.score;
    count := 0;
    trail := [];
    ColourStart(e.grid, g0, s0, order, c, rainbow, other);
    for i := 0 to |order|
      invariant e.Valid() && ColourInv(e.grid, g0, e.gems, s0, e.score, order, c, i, count, trail, rainbow, other)
    {
      count, trail := ColourVisit(e, order, i, c, rainbow, other, g0, s0, count, trail);
    }
  }

  /**
   * What the rainbow-and-gem loop achieves: only flags were raised, every gem
   * of colour c is matched, each is worth 50 and every other newly matched gem
   * 20, and the specials of that colour other than the pair went off. The
   * trail lists every newly matched gem: a direct mark of colour c, or a gem
   * in the blast of a special of colour c other than the pair or of a gem a
   * blast marked earlier.
   */
  ghost predicate ColourBlasted(grid: Grid, g0: Gems, g1: Gems, s0: int, s1: int, c: int,
                                trail: seq<Mark>, rainbow: int, other: int)
    requires IsGrid(grid)
  {
    && MarksOnly(g0, g1) && ColourMatched(g1, c)
    && Ids(trail) == Newly(g0, g1)
    && Traced(g0, TypeIds(g0, c), TypeIds(g0, c) - {rainbow, other}, trail)
    && s1 == s0 + 50 * |TypeIds(g0, c)| + 20 * |Ids(trail) - DirectIds(trail)|
    && Chained(grid, g1, Ids(trail) - DirectIds(trail))
    && forall t :: t in TypeIds(g0, c) && t != rainbow && t != other ==> Fired(grid, g1, t)
  }

  /** After the loop: the colour is matched and the 50-point bonus counts every gem of the colour. */
  lemma ColourDone(grid: Grid, g0: Gems, gems: Gems, s0: int, sm: int, score: int, order: seq<int>, c: int, hi: int,
                   count: int, trail: seq<Mark>, rainbow: int, other: int)
    requires IsGrid(grid) && order == OrderedIds(g0, 1, hi) && forall t :: t in g0 ==> 1 <= t < hi
    requires ColourInv(grid, g0, gems, s0, sm, order, c, |order|, count, trail, rainbow, other)
    requires score == sm + count * 50
    ensures ColourBlasted(grid, g0, gems, s0, score, c, trail, rainbow, other)
  {
    assert order[..|order|] == order;
    CountOfOrdered(g0, order, c, hi);
    VisitedAll(grid, g0, gems, order, c, hi, rainbow, other);
  }

  /** The state of the rainbow-and-gem loop after visiting the first i ids of the registry. */
  ghost predicate ColourInv(grid: Grid, g0: Gems, gems: Gems, s0: int, score: int, order: seq<int>, c: int, i: int,
                            count: int, trail: seq<Mark>, rainbow: int, other: int)
    requires IsGrid(grid) && 0 <= i <= |order| && forall j :: 0 <= j < |order| ==> order[j] in g0
  {
    && MarksOnly(g0, gems)
    && Ids(trail) == Newly(g0, gems)
    && Traced(g0, TypeIds(g0, c), TypeIds(g0, c) - {rainbow, other}, trail)
    && Chained(grid, gems, Newly(g0, gems) - DirectIds(trail))
    && score == s0 + 20 * |Newly(g0, gems) - DirectIds(trail)|
    && count == CountOf(g0, order[..i], c)
    && ColourVisited(grid, g0, gems, order, c, i, rainbow, other)
  }

  /** Before the first visit nothing is marked, counted or scored. */
  lemma ColourStart(grid: Grid, g0: Gems, s0: int, order: seq<int>, c: int, rainbow: int, other: int)
    requires IsGrid(grid) && forall j :: 0 <= j < |order| ==> order[j] in g0
    ensures ColourInv(grid, g0, g0, s0, s0, order, c, 0, 0, [], rainbow, other)
  {
    MarksOnlyRefl(g0);
    EmptyTrail(g0, TypeIds(g0, c), TypeIds(g0, c) - {rainbow, other});
    assert order[..0] == [];
  }

  /** One call of the rainbow-and-gem forEach callback (MatchSystem.ts:196-205). */
  method ColourVisit(e: Engine, order: seq<int>, i: int, c: int, rainbow: int, other: int,
                     ghost g0: Gems, ghost s0: int, count: int, ghost trail: seq<Mark>)
    returns (count': int, ghost trail': seq<Mark>)
    requires e.Valid() && 0 <= i < |order| && forall j :: 0 <= j < |order| ==> order[j] in g0
    requires ColourInv(e.grid, g0, e.gems, s0, e.score, order, c, i, count, trail, rainbow, other)
    modifies e`gems, e`score, e`draws
    ensures e.Valid() && ColourInv(e.grid, g0, e.gems, s0, e.score, order, c, i + 1, count', trail', rainbow, other)
  {
    var t := order[i];
    assert e.gems[t] == g0[t].(isMatched := e.gems[t].isMatched);
    CountOfStep(g0, order, c, i);
    if e.gems[t].gemType == c {
      ghost var ga, sa := e.gems, e.score;
      ghost var tr := ColourOne(e, t, rainbow, other);
      ColourAfter(e.grid, g0, ga, e.gems, s0, sa, e.score, order, c, i, count, trail, tr, rainbow, other);
      count' := count + 1;
      trail' := trail + tr;
    } else {
      count', trail' := count, trail;
      VisitedSkip(e.grid, g0, e.gems, order, c, i, rainbow, other);
    }
  }

  /** The loop state after one gem of the combo's colour. */
  lemma ColourAfter(grid: Grid, g0: Gems, ga: Gems, gf: Gems, s0: int, sa: int, sf: int, order: seq<int>, c: int, i: int,
                    count: int, trail: seq<Mark>, tr: seq<Mark>, rainbow: int, other: int)
    requires IsGrid(grid) && 0 <= i < |order| && forall j :: 0 <= j < |order| ==> order[j] in g0
    requires ColourInv(grid, g0, ga, s0, sa, order, c, i, count, trail, rainbow, other)
    requires g0[order[i]].gemType == c && CountOf(g0, order[..i + 1], c) == count + 1
    requires MarksOnly(ga, gf) && gf[order[i]].isMatched
    requires Ids(tr) == Newly(ga, gf) && Traced(ga, {order[i]}, {order[i]} - {rainbow, other}, tr)
    requires DirectIds(tr) == if ga[order[i]].isMatched then {} else {order[i]}
    requires ga[order[i]].special != None && order[i] != rainbow && order[i] != other ==> Fired(grid, gf, order[i])
    requires Chained(grid, gf, Newly(ga, gf) - DirectIds(tr))
    requires sf == sa + 20 * |Newly(ga, gf) - DirectIds(tr)|
    ensures ColourInv(grid, g0, gf, s0, sf, order, c, i + 1, count + 1, trail + tr, rainbow, other)
  {
    var t := order[i];
    DirectInIds(trail);
    DirectInIds(tr);
    ColourStep(grid, g0, ga, gf, DirectIds(trail), DirectIds(tr), s0, sa, sf);
    assert {t} <= TypeIds(g0, c);
    TrailStep(g0, ga, gf, TypeIds(g0, c), TypeIds(g0, c) - {rainbow, other}, {t}, {t} - {rainbow, other}, trail, tr);
    VisitedStep(grid, g0, ga, gf, order, c, i, rainbow, other);
  }

  /** One gem of the combo's colour: marked, and set off when it is a special other than the pair. */
  method ColourOne(e: Engine, t: int, rainbow: int, other: int) returns (ghost tr: seq<Mark>)
    requires e.Valid() && t in e.gems
    modifies e`gems, e`score, e`draws
    ensures e.Valid() && MarksOnly(old(e.gems), e.gems) && e.gems[t].isMatched
    ensures Ids(tr) == Newly(old(e.gems), e.gems)
    ensures DirectIds(tr) == if old(e.gems)[t].isMatched then {} else {t}
    ensures Traced(old(e.gems), {t}, {t} - {rainbow, other}, tr)
    ensures old(e.gems)[t].special != None && t != rainbow && t != other ==> Fired(e.grid, e.gems, t)
    ensures Chained(e.grid, e.gems, Newly(old(e.gems), e.gems) - DirectIds(tr))
    ensures e.score == old(e.score) + 20 * |Newly(old(e.gems), e.gems) - DirectIds(tr)|
  {
    ghost var ga := e.gems;
    MarkAny(e.gems, t);
    ghost var head := if e.gems[t].isMatched then [] else [Mark(t, Direct)];
    e.gems := e.gems[t := e.gems[t].(isMatched := true)];
    MarksOnlyConsistent(e.grid, ga, e.gems);
    ghost var gb := e.gems;
    if e.gems[t].special != None && t != rainbow && t != other {
      assert {t} <= {t} - {rainbow, other};
      ghost var chain := TriggerSpecial(e, t);
      MarkThen(ga, gb, e.gems, t);
      DirectHead(ga, gb, e.gems, t, {t}, {t} - {rainbow, other}, head, chain);
      tr := head + chain;
    } else {
      MarksOnlyRefl(gb);
      EmptyTrail(gb, {}, {});
      DirectHead(ga, gb, gb, t, {}, {t} - {rainbow, other}, head, []);
      tr := head + [];
      assert Newly(ga, gb) - DirectIds(tr) == {};
    }
  }

  /** The newly matched sets of two successive markings add up, less what each marked directly. */
  lemma NewlyStep(g0: Gems, ga: Gems, gf: Gems, direct: set<int>, d: set<int>)
    requires MarksOnly(g0, ga) && MarksOnly(ga, gf)
    requires direct <= Newly(g0, ga) && d <= Newly(ga, gf)
    ensures MarksOnly(g0, gf) && direct + d <= Newly(g0, gf)
    ensures Newly(g0, gf) - (direct + d) == (Newly(g0, ga) - direct) + (Newly(ga, gf) - d)
    ensures |Newly(g0, gf) - (direct + d)| == |Newly(g0, ga) - direct| + |Newly(ga, gf) - d|
  {
    MarksOnlyTrans(g0, ga, gf);
    assert Newly(g0, gf) - (direct + d) == (Newly(g0, ga) - direct) + (Newly(ga, gf) - d);
  }

  /** One gem of the combo's colour: 20 points for each gem its chain marked, and those gems have fired. */
  lemma ColourStep(grid: Grid, g0: Gems, ga: Gems, gf: Gems, direct: set<int>, d: set<int>, s0: int, sa: int, sf: int)
    requires IsGrid(grid) && MarksOnly(g0, ga) && MarksOnly(ga, gf)
    requires direct <= Newly(g0, ga) && d <= Newly(ga, gf)
    requires Chained(grid, ga, Newly(g0, ga) - direct) && Chained(grid, gf, Newly(ga, gf) - d)
    requires sa == s0 + 20 * |Newly(g0, ga) - direct|
    requires sf == sa + 20 * |Newly(ga, gf) - d|
    ensures MarksOnly(g0, gf) && direct + d <= Newly(g0, gf)
    ensures Chained(grid, gf, Newly(g0, gf) - (direct + d))
    ensures sf == s0 + 20 * |Newly(g0, gf) - (direct + d)|
  {
    NewlyStep(g0, ga, gf, direct, d);
    ChainedMono(grid, ga, gf, Newly(g0, ga) - direct);
    ChainedUnion(grid, gf, Newly(g0, ga) - direct, Newly(ga, gf) - d);
  }

  lemma ChainedUnion(grid: Grid, gems: Gems, s1: set<int>, s2: set<int>)
    requires IsGrid(grid) && Chained(grid, gems, s1) && Chained(grid, gems, s2)
    ensures Chained(grid, gems, s1 + s2)
  {
    forall t | t in s1 + s2 && t in gems
      ensures Fired(grid, gems, t)
    {
      if t in s1 {
      }
    }
  }

  lemma CountOfStep(gems: Gems, s: seq<int>, c: int, i: int)
    requires 0 <= i < |s| && forall j :: 0 <= j < |s| ==> s[j] in gems
    ensures CountOf(gems, s[..i + 1], c) == CountOf(gems, s[..i], c) + if gems[s[i]].gemType == c then 1 else 0
  {
    assert s[..i + 1][..i] == s[..i];
  }

  /** The ids of colour c in s. */
  ghost function IdsOf(gems: Gems, s: seq<int>, c: int): set<int>
    requires forall j :: 0 <= j < |s| ==> s[j] in gems
  {
    set t | t in s && gems[t].gemType == c
  }

  /** Over a list without repeats, the count of colour c is the number of such ids in the list. */
  lemma {:induction false} CountOfDistinct(gems: Gems, s: seq<int>, c: int)
    requires forall j :: 0 <= j < |s| ==> s[j] in gems
    requires forall j, k :: 0 <= j < k < |s| ==> s[j] < s[k]
    ensures CountOf(gems, s, c) == |IdsOf(gems, s, c)|
  {
    if s != [] {
      var p, x := s[..|s| - 1], s[|s| - 1];
      CountOfDistinct(gems, p, c);
      forall j | 0 <= j < |p|
        ensures p[j] != x
      {
        assert s[j] < s[|s| - 1];
      }
      IdsOfSnoc(gems, s, c);
    }
  }

  lemma IdsOfSnoc(gems: Gems, s: seq<int>, c: int)
    requires s != [] && forall j :: 0 <= j < |s| ==> s[j] in gems
    ensures IdsOf(gems, s, c) == IdsOf(gems, s[..|s| - 1], c) + (if gems[s[|s| - 1]].gemType == c then {s[|s| - 1]} else {})
  {
    var p, x := s[..|s| - 1], s[|s| - 1];
    assert s == p + [x];
  }

  /** Over the registry in iteration order, the count of colour c is the number of gems of that colour. */
  lemma CountOfOrdered(gems: Gems, order: seq<int>, c: int, hi: int)
    requires order == OrderedIds(gems, 1, hi)
    requires forall t :: t in gems ==> 1 <= t < hi
    ensures CountOf(gems, order, c) == |TypeIds(gems, c)|
  {
    CountOfDistinct(gems, order, c);
    assert IdsOf(gems, order, c) == TypeIds(gems, c);
  }

  /** Marking never changes a gem's type. */
  lemma TypeIdsMarks(g0: Gems, g1: Gems, c: int)
    requires MarksOnly(g0, g1)
    ensures TypeIds(g0, c) == TypeIds(g1, c)
  {
    forall t | t in TypeIds(g1, c)
      ensures t in TypeIds(g0, c)
    {
      assert g1[t] == g0[t].(isMatched := g1[t].isMatched);
    }
    forall t | t in TypeIds(g0, c)
      ensures t in TypeIds(g1, c)
    {
      assert g1[t] == g0[t].(isMatched := g1[t].isMatched);
    }
  }
}
