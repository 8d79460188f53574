/**
 * Match detection on a grid/registry pair (findMatches, groupMatches and the
 * special-gem rules of processMatches and checkSpecialCombo). Everything here
 * only reads the board.
 *
 * The horizontal and vertical scans of findMatches are the same code on rows
 * and on columns, so a "line" is either: line `line` with horiz = true is row
 * `line`, read left to right; with horiz = false it is column `line`, read top
 * to bottom.
 */
module Matching {
  import opened Types
  import opened Board

  function LineLen(horiz: bool): int
  {
    if horiz then Cols else Rows
  }

  function Lines(horiz: bool): int
  {
    if horiz then Rows else Cols
  }

  /** The id in cell i of a line. */
  function At(grid: Grid, horiz: bool, line: int, i: int): int
    requires IsGrid(grid) && 0 <= line < Lines(horiz) && 0 <= i < LineLen(horiz)
  {
    if horiz then grid[line][i] else grid[i][line]
  }

  /** Cell i of the line holds a registered gem of type t. */
  predicate TypeAt(grid: Grid, gems: Gems, horiz: bool, line: int, i: int, t: int)
    requires IsGrid(grid) && 0 <= line < Lines(horiz)
  {
    0 <= i < LineLen(horiz) && At(grid, horiz, line, i) in gems &&
    gems[At(grid, horiz, line, i)].gemType == t
  }

  /** Cells a..b of the line, at least three, hold registered gems of one non-empty type t. */
  ghost predicate Run(grid: Grid, gems: Gems, horiz: bool, line: int, a: int, b: int, t: int)
    requires IsGrid(grid) && 0 <= line < Lines(horiz)
  {
    && t != Empty && 0 <= a && a + 2 <= b < LineLen(horiz)
    && forall i :: a <= i <= b ==> TypeAt(grid, gems, horiz, line, i, t)
  }

  ghost predicate InRun(grid: Grid, gems: Gems, horiz: bool, line: int, i: int)
    requires IsGrid(grid) && 0 <= line < Lines(horiz)
  {
    exists a, b, t :: a <= i <= b && Run(grid, gems, horiz, line, a, b, t)
  }

  /** The ids that lie in a horizontal or vertical run of three or more: what findMatches reports. */
  ghost function MatchedIds(grid: Grid, gems: Gems): set<int>
    requires IsGrid(grid)
  {
    set h: bool, line, i | 0 <= line < Lines(h) && 0 <= i < LineLen(h) && InRun(grid, gems, h, line, i)
      :: At(grid, h, line, i)
  }

  lemma InMatched(grid: Grid, gems: Gems, horiz: bool, line: int, i: int, a: int, b: int, t: int)
    requires IsGrid(grid) && 0 <= line < Lines(horiz)
    requires Run(grid, gems, horiz, line, a, b, t) && a <= i <= b
    ensures At(grid, horiz, line, i) in MatchedIds(grid, gems)
  {
    assert InRun(grid, gems, horiz, line, i);
  }

  /** The triple test at start s (MatchSystem.ts:226-233). */
  predicate Triple(grid: Grid, gems: Gems, horiz: bool, line: int, s: int)
    requires IsGrid(grid) && 0 <= line < Lines(horiz) && 0 <= s
  {
    && s + 2 < LineLen(horiz)
    && At(grid, horiz, line, s) in gems
    && At(grid, horiz, line, s + 1) in gems
    && At(grid, horiz, line, s + 2) in gems
    && gems[At(grid, horiz, line, s)].gemType == gems[At(grid, horiz, line, s + 1)].gemType
    && gems[At(grid, horiz, line, s)].gemType == gems[At(grid, horiz, line, s + 2)].gemType
    && gems[At(grid, horiz, line, s)].gemType != Empty
  }

  /** Where the extension loop that starts at k stops for type t: the first cell not of type t. */
  function RunEnd(grid: Grid, gems: Gems, horiz: bool, line: int, t: int, k: int): (r: int)
    requires IsGrid(grid) && 0 <= line < Lines(horiz) && 0 <= k <= LineLen(horiz)
    ensures k <= r <= LineLen(horiz)
    ensures forall i :: k <= i < r ==> TypeAt(grid, gems, horiz, line, i, t)
    ensures r == LineLen(horiz) || !TypeAt(grid, gems, horiz, line, r, t)
    decreases LineLen(horiz) - k
  {
    if k < LineLen(horiz) && TypeAt(grid, gems, horiz, line, k, t) then
      RunEnd(grid, gems, horiz, line, t, k + 1)
    else
      k
  }

  /** A stretch of type t starting at k lies before the end the extension loop reaches. */
  lemma {:induction false} RunEndBeyond(grid: Grid, gems: Gems, horiz: bool, line: int, t: int, k: int, b: int)
    requires IsGrid(grid) && 0 <= line < Lines(horiz) && 0 <= k <= LineLen(horiz) && b < LineLen(horiz)
    requires forall i :: k <= i <= b ==> TypeAt(grid, gems, horiz, line, i, t)
    ensures b < RunEnd(grid, gems, horiz, line, t, k)
    decreases b - k + 1
  {
    if k <= b {
      assert TypeAt(grid, gems, horiz, line, k, t);
      RunEndBeyond(grid, gems, horiz, line, t, k + 1, b);
    }
  }

  /** After the scan from start s, every cell of the run found there is in ids. */
  ghost predicate Covered(grid: Grid, gems: Gems, horiz: bool, line: int, s: int, ids: set<int>)
    requires IsGrid(grid) && 0 <= line < Lines(horiz) && 0 <= s
  {
    Triple(grid, gems, horiz, line, s) ==>
      forall i :: s <= i < RunEnd(grid, gems, horiz, line, gems[At(grid, horiz, line, s)].gemType, s + 3) ==>
        At(grid, horiz, line, i) in ids
  }

  lemma CoveredMono(grid: Grid, gems: Gems, horiz: bool, line: int, s: int, ids: set<int>, ids': set<int>)
    requires IsGrid(grid) && 0 <= line < Lines(horiz) && 0 <= s
    requires Covered(grid, gems, horiz, line, s, ids) && ids <= ids'
    ensures Covered(grid, gems, horiz, line, s, ids')
  {
  }

  /** Every run of the line is covered by the scan from its first cell. */
  lemma RunCovered(grid: Grid, gems: Gems, horiz: bool, line: int, a: int, b: int, t: int, i: int, ids: set<int>)
    requires IsGrid(grid) && 0 <= line < Lines(horiz)
    requires Run(grid, gems, horiz, line, a, b, t) && a <= i <= b
    requires Covered(grid, gems, horiz, line, a, ids)
    ensures At(grid, horiz, line, i) in ids
  {
    assert TypeAt(grid, gems, horiz, line, a, t);
    assert TypeAt(grid, gems, horiz, line, a + 1, t);
    assert TypeAt(grid, gems, horiz, line, a + 2, t);
    assert Triple(grid, gems, horiz, line, a);
    RunEndBeyond(grid, gems, horiz, line, t, a + 3, b);
  }

  /** JS Set.add on an insertion-ordered set. */
  function Add(s: seq<int>, v: int): (r: seq<int>)
    ensures Elems(r) == Elems(s) + {v}
    ensures NoDup(s) ==> NoDup(r)
  {
    if v in s then s else s + [v]
  }

  /** The extension loop of one start (MatchSystem.ts:235-243): adds the rest of the run. */
  method Extend(grid: Grid, gems: Gems, horiz: bool, line: int, s: int, t: int, seen: seq<int>) returns (seen': seq<int>)
    requires IsGrid(grid) && 0 <= line < Lines(horiz)
    requires Run(grid, gems, horiz, line, s, s + 2, t)
    requires NoDup(seen)
    ensures NoDup(seen') && Elems(seen) <= Elems(seen')
    ensures Elems(seen') - Elems(seen) <= MatchedIds(grid, gems)
    ensures forall i :: s + 3 <= i < RunEnd(grid, gems, horiz, line, t, s + 3) ==> At(grid, horiz, line, i) in Elems(seen')
  {
    seen' := seen;
    var k := s + 3;
    while k < LineLen(horiz) && TypeAt(grid, gems, horiz, line, k, t)
      invariant ExtendInv(grid, gems, horiz, line, s, t, seen, seen', k)
      decreases LineLen(horiz) - k
    {
      ExtendStep(grid, gems, horiz, line, s, t, seen, seen', k);
      seen' := Add(seen', At(grid, horiz, line, k));
      k := k + 1;
    }
  }

  /** The extension loop after it has reached cell k. */
  ghost predicate ExtendInv(grid: Grid, gems: Gems, horiz: bool, line: int, s: int, t: int,
                            seen: seq<int>, seen': seq<int>, k: int)
    requires IsGrid(grid) && 0 <= line < Lines(horiz)
  {
    && s + 3 <= k <= LineLen(horiz)
    && Run(grid, gems, horiz, line, s, k - 1, t)
    && RunEnd(grid, gems, horiz, line, t, k) == RunEnd(grid, gems, horiz, line, t, s + 3)
    && NoDup(seen') && Elems(seen) <= Elems(seen')
    && Elems(seen') - Elems(seen) <= MatchedIds(grid, gems)
    && forall i :: s + 3 <= i < k ==> At(grid, horiz, line, i) in Elems(seen')
  }

  lemma ExtendStep(grid: Grid, gems: Gems, horiz: bool, line: int, s: int, t: int,
                   seen: seq<int>, seen': seq<int>, k: int)
    requires IsGrid(grid) && 0 <= line < Lines(horiz)
    requires ExtendInv(grid, gems, horiz, line, s, t, seen, seen', k)
    requires k < LineLen(horiz) && TypeAt(grid, gems, horiz, line, k, t)
    ensures ExtendInv(grid, gems, horiz, line, s, t, seen, Add(seen', At(grid, horiz, line, k)), k + 1)
  {
    var v := At(grid, horiz, line, k);
    var seen2 := Add(seen', v);
    assert Run(grid, gems, horiz, line, s, k, t);
    InMatched(grid, gems, horiz, line, k, s, k, t);
    assert RunEnd(grid, gems, horiz, line, t, k) == RunEnd(grid, gems, horiz, line, t, k + 1);
    forall i | s + 3 <= i < k + 1
      ensures At(grid, horiz, line, i) in Elems(seen2)
    {
      if i < k {
        assert At(grid, horiz, line, i) in Elems(seen');
      }
    }
  }

  /** One start of the scan: the triple test and its extension (MatchSystem.ts:226-243). */
  method ScanAt(grid: Grid, gems: Gems, horiz: bool, line: int, s: int, seen: seq<int>) returns (seen': seq<int>)
    requires IsGrid(grid) && 0 <= line < Lines(horiz) && 0 <= s && s + 2 < LineLen(horiz)
    requires NoDup(seen)
    ensures NoDup(seen') && Elems(seen) <= Elems(seen')
    ensures Elems(seen') - Elems(seen) <= MatchedIds(grid, gems)
    ensures Covered(grid, gems, horiz, line, s, Elems(seen'))
  {
    seen' := seen;
    if Triple(grid, gems, horiz, line, s) {
      var t := gems[At(grid, horiz, line, s)].gemType;
      TripleRun(grid, gems, horiz, line, s);
      var a0, a1, a2 := At(grid, horiz, line, s), At(grid, horiz, line, s + 1), At(grid, horiz, line, s + 2);
      var triple := Add(Add(Add(seen', a0), a1), a2);
      seen' := Extend(grid, gems, horiz, line, s, t, triple);
      assert Elems(seen') - Elems(seen) <= (Elems(seen') - Elems(triple)) + {a0, a1, a2};
      forall i | s <= i < RunEnd(grid, gems, horiz, line, t, s + 3)
        ensures At(grid, horiz, line, i) in Elems(seen')
      {
        if i < s + 3 {
          assert At(grid, horiz, line, i) in {a0, a1, a2};
        }
      }
    }
  }

  /** A triple is a run of three, and its cells are matched. */
  lemma TripleRun(grid: Grid, gems: Gems, horiz: bool, line: int, s: int)
    requires IsGrid(grid) && 0 <= line < Lines(horiz) && 0 <= s && Triple(grid, gems, horiz, line, s)
    ensures Run(grid, gems, horiz, line, s, s + 2, gems[At(grid, horiz, line, s)].gemType)
    ensures At(grid, horiz, line, s) in MatchedIds(grid, gems)
    ensures At(grid, horiz, line, s + 1) in MatchedIds(grid, gems)
    ensures At(grid, horiz, line, s + 2) in MatchedIds(grid, gems)
  {
    var t := gems[At(grid, horiz, line, s)].gemType;
    assert TypeAt(grid, gems, horiz, line, s + 1, t);
    assert TypeAt(grid, gems, horiz, line, s + 2, t);
    assert Run(grid, gems, horiz, line, s, s + 2, t);
    InMatched(grid, gems, horiz, line, s, s, s + 2, t);
    InMatched(grid, gems, horiz, line, s + 1, s, s + 2, t);
    InMatched(grid, gems, horiz, line, s + 2, s, s + 2, t);
  }

  /**
   * The scan of one line (the inner loop of either half of findMatches,
   * MatchSystem.ts:225-244 and 249-268): the triple test and extension at
   * every start that leaves room for three.
   */
  method ScanLine(grid: Grid, gems: Gems, horiz: bool, line: int, seen: seq<int>) returns (seen': seq<int>)
    requires IsGrid(grid) && 0 <= line < Lines(horiz)
    requires NoDup(seen) && Elems(seen) <= MatchedIds(grid, gems)
    ensures NoDup(seen') && Elems(seen) <= Elems(seen') <= MatchedIds(grid, gems)
    ensures forall s :: 0 <= s < LineLen(horiz) - 2 ==> Covered(grid, gems, horiz, line, s, Elems(seen'))
  {
    seen' := seen;
    for s := 0 to LineLen(horiz) - 2
      invariant NoDup(seen') && Elems(seen) <= Elems(seen') <= MatchedIds(grid, gems)
      invariant forall s' :: 0 <= s' < s ==> Covered(grid, gems, horiz, line, s', Elems(seen'))
    {
      ghost var before := Elems(seen');
      seen' := ScanAt(grid, gems, horiz, line, s, seen');
      forall s' | 0 <= s' < s
        ensures Covered(grid, gems, horiz, line, s', Elems(seen'))
      {
        CoveredMono(grid, gems, horiz, line, s', before, Elems(seen'));
      }
    }
  }

  /** One half of findMatches: every row (MatchSystem.ts:224-245) or every column (MatchSystem.ts:248-269). */
  method ScanLines(grid: Grid, gems: Gems, horiz: bool, seen: seq<int>) returns (seen': seq<int>)
    requires IsGrid(grid)
    requires NoDup(seen) && Elems(seen) <= MatchedIds(grid, gems)
    ensures NoDup(seen') && Elems(seen) <= Elems(seen') <= MatchedIds(grid, gems)
    ensures forall line, s :: 0 <= line < Lines(horiz) && 0 <= s < LineLen(horiz) - 2 ==>
      Covered(grid, gems, horiz, line, s, Elems(seen'))
  {
    seen' := seen;
    for line := 0 to Lines(horiz)
      invariant NoDup(seen') && Elems(seen) <= Elems(seen') <= MatchedIds(grid, gems)
      invariant forall l, s :: 0 <= l < line && 0 <= s < LineLen(horiz) - 2 ==>
        Covered(grid, gems, horiz, l, s, Elems(seen'))
    {
      ghost var before := Elems(seen');
      seen' := ScanLine(grid, gems, horiz, line, seen');
      forall l, s | 0 <= l < line && 0 <= s < LineLen(horiz) - 2
        ensures Covered(grid, gems, horiz, l, s, Elems(seen'))
      {
        CoveredMono(grid, gems, horiz, l, s, before, Elems(seen'));
      }
    }
  }

  /** findMatches (MatchSystem.ts:220-274): the distinct ids of every run of three or more. */
  method FindMatches(grid: Grid, gems: Gems) returns (matches: seq<int>)
    requires IsGrid(grid)
    ensures NoDup(matches)
    ensures Elems(matches) == MatchedIds(grid, gems)
  {
    // Horizontal
    matches := ScanLines(grid, gems, true, []);
    ghost var afterRows := Elems(matches);
    // Vertical
    matches := ScanLines(grid, gems, false, matches);
    forall u | u in MatchedIds(grid, gems)
      ensures u in Elems(matches)
    {
      var h: bool, line, i :| 0 <= line < Lines(h) && 0 <= i < LineLen(h) && InRun(grid, gems, h, line, i)
        && u == At(grid, h, line, i);
      var a, b, t :| a <= i <= b && Run(grid, gems, h, line, a, b, t);
      if h {
        CoveredMono(grid, gems, h, line, a, afterRows, Elems(matches));
      }
      RunCovered(grid, gems, h, line, a, b, t, i, Elems(matches));
    }
  }

  // ---------------------------------------------------------------------
  // groupMatches (MatchSystem.ts:279-317)

  /** Cell (x, y) is on the board and holds v. */
  predicate CellIs(grid: Grid, x: int, y: int, v: int)
    requires IsGrid(grid)
  {
    InBounds(x, y) && grid[y][x] == v
  }

  /** The four neighbour cells of (x, y), in the order the search visits them. */
  function Neighbours(x: int, y: int): seq<(int, int)>
  {
    [(x, y - 1), (x, y + 1), (x - 1, y), (x + 1, y)]
  }

  /** v is the content of one of the four cells next to registered gem u. */
  predicate Touches(grid: Grid, gems: Gems, u: int, v: int)
    requires IsGrid(grid)
  {
    && u in gems
    && var x, y := gems[u].gridX, gems[u].gridY;
       CellIs(grid, x, y - 1, v) || CellIs(grid, x, y + 1, v) || CellIs(grid, x - 1, y, v) || CellIs(grid, x + 1, y, v)
  }

  lemma TouchesSymmetric(grid: Grid, gems: Gems, u: int, v: int)
    requires Consistent(grid, gems) && Touches(grid, gems, u, v) && v in gems
    ensures Touches(grid, gems, v, u)
  {
    var x, y := gems[u].gridX, gems[u].gridY;
    assert grid[y][x] == u;
  }

  /** Every member after the first touches an earlier one, so the group is one connected cluster. */
  ghost predicate Connected(grid: Grid, gems: Gems, g: seq<int>)
    requires IsGrid(grid)
  {
    |g| > 0 && forall j :: 0 < j < |g| ==> Reached(grid, gems, g, j)
  }

  /** Member j touches some member before it. */
  ghost predicate Reached(grid: Grid, gems: Gems, g: seq<int>, j: int)
    requires IsGrid(grid) && 0 <= j < |g|
  {
    exists i :: 0 <= i < j && Touches(grid, gems, g[i], g[j])
  }

  /** Every registered id of ms that touches a member is itself a member: the group is a whole cluster. */
  ghost predicate Closed(grid: Grid, gems: Gems, ms: set<int>, g: seq<int>)
    requires IsGrid(grid)
  {
    forall i, v :: 0 <= i < |g| && v in ms && v in gems && Touches(grid, gems, g[i], v) ==> v in g
  }

  /** No registered id of ms touches a registered member of s from outside s. */
  ghost predicate SetClosed(grid: Grid, gems: Gems, ms: set<int>, s: set<int>)
    requires IsGrid(grid)
  {
    forall u, v :: u in s && u in gems && v in ms && v in gems && Touches(grid, gems, u, v) ==> v in s
  }

  function Flatten(groups: seq<seq<int>>): seq<int>
  {
    if |groups| == 0 then [] else Flatten(groups[..|groups| - 1]) + groups[|groups| - 1]
  }

  /** The neighbour loop for one dequeued id (MatchSystem.ts:297-312). */
  method VisitNeighbours(grid: Grid, gems: Gems, ms: set<int>, cur: int, visited: set<int>)
    returns (added: seq<int>, visited': set<int>)
    requires IsGrid(grid) && cur in gems
    ensures visited' == visited + Elems(added)
    ensures NoDup(added) && Elems(added) <= ms && Elems(added) !! visited
    ensures forall j :: 0 <= j < |added| ==> Touches(grid, gems, cur, added[j])
    ensures forall v :: v in ms && Touches(grid, gems, cur, v) ==> v in visited'
  {
    added := [];
    visited' := visited;
    var gem := gems[cur];
    var nbs := Neighbours(gem.gridX, gem.gridY);
    for n := 0 to 4
      invariant visited' == visited + Elems(added)
      invariant NoDup(added) && Elems(added) <= ms && Elems(added) !! visited
      invariant forall j :: 0 <= j < |added| ==> Touches(grid, gems, cur, added[j])
      invariant forall m, v :: 0 <= m < n && CellIs(grid, nbs[m].0, nbs[m].1, v) && v in ms ==> v in visited'
    {
      var (nx, ny) := nbs[n];
      if 0 <= nx < Cols && 0 <= ny < Rows {
        var nid := grid[ny][nx];
        if nid in ms && nid !in visited' {
          assert Touches(grid, gems, cur, nid);
          NoDupConcat(added, [nid]);
          visited' := visited' + {nid};
          added := added + [nid];
        }
      }
    }
    forall v | v in ms && Touches(grid, gems, cur, v)
      ensures v in visited'
    {
      if CellIs(grid, gem.gridX, gem.gridY - 1, v) {
        assert CellIs(grid, nbs[0].0, nbs[0].1, v);
      } else if CellIs(grid, gem.gridX, gem.gridY + 1, v) {
        assert CellIs(grid, nbs[1].0, nbs[1].1, v);
      } else if CellIs(grid, gem.gridX - 1, gem.gridY, v) {
        assert CellIs(grid, nbs[2].0, nbs[2].1, v);
      } else {
        assert CellIs(grid, nbs[3].0, nbs[3].1, v);
      }
    }
  }

  /** Every registered member's matched neighbours have been reached. */
  ghost predicate Processed(grid: Grid, gems: Gems, ms: set<int>, group: seq<int>, visited: set<int>)
    requires IsGrid(grid)
  {
    forall i, v :: 0 <= i < |group| && v in ms && Touches(grid, gems, group[i], v) ==> v in visited
  }

  lemma ProcessedExtend(grid: Grid, gems: Gems, ms: set<int>, group: seq<int>, cur: int, visited: set<int>, visited': set<int>)
    requires IsGrid(grid) && Processed(grid, gems, ms, group, visited) && visited <= visited'
    requires forall v :: v in ms && Touches(grid, gems, cur, v) ==> v in visited'
    ensures Processed(grid, gems, ms, group + [cur], visited')
  {
    var g := group + [cur];
    forall i, v | 0 <= i < |g| && v in ms && Touches(grid, gems, g[i], v)
      ensures v in visited'
    {
      if i < |group| {
        assert g[i] == group[i];
      }
    }
  }

  /** The loop invariant of the search: the sequence group + queue in discovery order. */
  ghost predicate Search(grid: Grid, gems: Gems, ms: set<int>, visited0: set<int>, start: int, gq: seq<int>, visited: set<int>)
    requires IsGrid(grid)
  {
    && visited == visited0 + Elems(gq) && visited <= ms
    && NoDup(gq) && Elems(gq) !! visited0
    && |gq| > 0 && gq[0] == start
    && Connected(grid, gems, gq)
  }

  /** One dequeue step of the search keeps its invariant. */
  method SearchStep(grid: Grid, gems: Gems, ms: set<int>, ghost visited0: set<int>, start: int,
                    group: seq<int>, queue: seq<int>, visited: set<int>)
    returns (group': seq<int>, queue': seq<int>, visited': set<int>)
    requires IsGrid(grid) && |queue| > 0
    requires Search(grid, gems, ms, visited0, start, group + queue, visited)
    requires Processed(grid, gems, ms, group, visited)
    ensures Search(grid, gems, ms, visited0, start, group' + queue', visited')
    ensures Processed(grid, gems, ms, group', visited')
    ensures visited <= visited' && (visited' == visited ==> |queue'| < |queue|)
  {
    var cur := queue[0];
    queue' := queue[1..];
    group' := group + [cur];
    assert group' + queue' == group + queue;
    visited' := visited;
    if cur in gems {
      var added;
      added, visited' := VisitNeighbours(grid, gems, ms, cur, visited);
      SearchExtend(grid, gems, ms, visited0, start, group + queue, visited, |group|, added, visited');
      assert group' + (queue' + added) == (group + queue) + added;
      queue' := queue' + added;
      if |added| > 0 {
        assert added[0] in visited';
      }
    }
    ProcessedExtend(grid, gems, ms, group, cur, visited, visited');
  }

  lemma SearchExtend(grid: Grid, gems: Gems, ms: set<int>, visited0: set<int>, start: int, gq: seq<int>,
                     visited: set<int>, c: int, added: seq<int>, visited': set<int>)
    requires IsGrid(grid) && Search(grid, gems, ms, visited0, start, gq, visited) && 0 <= c < |gq|
    requires visited' == visited + Elems(added)
    requires NoDup(added) && Elems(added) <= ms && Elems(added) !! visited
    requires forall j :: 0 <= j < |added| ==> Touches(grid, gems, gq[c], added[j])
    ensures Search(grid, gems, ms, visited0, start, gq + added, visited')
  {
    ConnectedExtend(grid, gems, gq, gq[c], c, added);
    NoDupConcat(gq, added);
  }

  /** One breadth-first search from start (MatchSystem.ts:287-313). */
  method Explore(grid: Grid, gems: Gems, ms: set<int>, visited0: set<int>, start: int)
    returns (group: seq<int>, visited: set<int>)
    requires Consistent(grid, gems)
    requires start in ms && start !in visited0 && visited0 <= ms
    requires SetClosed(grid, gems, ms, visited0)
    ensures visited == visited0 + Elems(group) && visited <= ms
    ensures Elems(group) !! visited0 && NoDup(group) && |group| > 0 && group[0] == start
    ensures Connected(grid, gems, group)
    ensures Closed(grid, gems, ms, group)
  {
    visited := visited0 + {start};
    group := [];
    var queue := [start];
    assert group + queue == [start];
    while |queue| > 0
      invariant Search(grid, gems, ms, visited0, start, group + queue, visited)
      invariant Processed(grid, gems, ms, group, visited)
      decreases ms - visited, |queue|
    {
      ghost var v0 := visited;
      group, queue, visited := SearchStep(grid, gems, ms, visited0, start, group, queue, visited);
      if visited != v0 {
        assert ms - visited < ms - v0;
      }
    }
    assert group + queue == group;
    forall i, v | 0 <= i < |group| && v in ms && v in gems && Touches(grid, gems, group[i], v)
      ensures v in group
    {
      TouchesSymmetric(grid, gems, group[i], v);
      assert group[i] in Elems(group);
    }
  }

  /** Appending ids that all touch member c keeps the cluster connected. */
  lemma ConnectedExtend(grid: Grid, gems: Gems, gq: seq<int>, cur: int, c: int, added: seq<int>)
    requires IsGrid(grid) && Connected(grid, gems, gq) && 0 <= c < |gq| && gq[c] == cur
    requires forall j :: 0 <= j < |added| ==> Touches(grid, gems, cur, added[j])
    ensures Connected(grid, gems, gq + added)
  {
    var r := gq + added;
    forall j | 0 < j < |r|
      ensures Reached(grid, gems, r, j)
    {
      if j < |gq| {
        assert Reached(grid, gems, gq, j);
        var i :| 0 <= i < j && Touches(grid, gems, gq[i], gq[j]);
        assert r[i] == gq[i] && r[j] == gq[j];
      } else {
        assert r[c] == cur && r[j] == added[j - |gq|];
        assert 0 <= c < j && Touches(grid, gems, r[c], r[j]);
      }
    }
  }

  /**
   * groupMatches: splits the match list into clusters of touching ids, each
   * found by a breadth-first search from its first id, in list order.
   */
  method GroupMatches(grid: Grid, gems: Gems, matchIds: seq<int>) returns (groups: seq<seq<int>>)
    requires Consistent(grid, gems)
    ensures NoDup(Flatten(groups)) && Elems(Flatten(groups)) == Elems(matchIds)
    ensures forall k :: 0 <= k < |groups| ==>
      Connected(grid, gems, groups[k]) && Closed(grid, gems, Elems(matchIds), groups[k])
  {
    groups := [];
    var visited: set<int> := {};
    var matchSet := Elems(matchIds);
    for i := 0 to |matchIds|
      invariant visited == Elems(Flatten(groups)) && visited <= matchSet
      invariant NoDup(Flatten(groups))
      invariant forall j :: 0 <= j < i ==> matchIds[j] in visited
      invariant forall k :: 0 <= k < |groups| ==>
        Connected(grid, gems, groups[k]) && Closed(grid, gems, matchSet, groups[k])
      invariant SetClosed(grid, gems, matchSet, visited)
    {
      var id := matchIds[i];
      if id !in visited {
        var group, visited' := Explore(grid, gems, matchSet, visited, id);
        assert (groups + [group])[..|groups|] == groups;
        NoDupConcat(Flatten(groups), group);
        forall u, v | u in visited' && u in gems && v in matchSet && v in gems && Touches(grid, gems, u, v)
          ensures v in visited'
        {
          if u !in visited {
            var k :| 0 <= k < |group| && group[k] == u;
          }
        }
        groups := groups + [group];
        visited := visited';
      }
    }
  }

  // ---------------------------------------------------------------------
  // Special-gem rules of processMatches (MatchSystem.ts:341-403)

  /** A special gem to create once the matched gems are gone. */
  datatype Spawn = NoSpawn | Spawn(x: int, y: int, gemType: int, special: SpecialType)

  function Xs(members: seq<Gem>): (r: seq<int>)
    ensures |r| == |members| && forall i :: 0 <= i < |members| ==> r[i] == members[i].gridX
  {
    seq(|members|, i requires 0 <= i < |members| => members[i].gridX)
  }

  function Ys(members: seq<Gem>): (r: seq<int>)
    ensures |r| == |members| && forall i :: 0 <= i < |members| ==> r[i] == members[i].gridY
  {
    seq(|members|, i requires 0 <= i < |members| => members[i].gridY)
  }

  /** A non-empty list holds one distinct value exactly when all its entries equal the first. */
  lemma OneValue(vs: seq<int>)
    requires |vs| > 0
    ensures |Elems(vs)| == 1 <==> forall i :: 0 <= i < |vs| ==> vs[i] == vs[0]
  {
    if forall i :: 0 <= i < |vs| ==> vs[i] == vs[0] {
      assert Elems(vs) == {vs[0]};
    } else {
      var i :| 0 <= i < |vs| && vs[i] != vs[0];
      assert vs[i] in Elems(vs) - {vs[0]};
      assert |Elems(vs) - {vs[0]}| == |Elems(vs)| - 1;
    }
  }

  ghost predicate SameRow(members: seq<Gem>)
    requires |members| > 0
  {
    forall i :: 0 <= i < |members| ==> members[i].gridY == members[0].gridY
  }

  ghost predicate SameColumn(members: seq<Gem>)
    requires |members| > 0
  {
    forall i :: 0 <= i < |members| ==> members[i].gridX == members[0].gridX
  }

  /** Member k has another member in its row and another in its column: the bend of an L or T. */
  predicate IsCorner(members: seq<Gem>, k: int)
    requires 0 <= k < |members|
  {
    && (exists j :: 0 <= j < |members| && members[j].gridY == members[k].gridY && members[j].gridX != members[k].gridX)
    && (exists j :: 0 <= j < |members| && members[j].gridX == members[k].gridX && members[j].gridY != members[k].gridY)
  }

  /** The first corner at or after k (gems.find), or |members| when there is none. */
  function FirstCorner(members: seq<Gem>, k: int): (r: int)
    requires 0 <= k <= |members|
    ensures k <= r <= |members|
    ensures r < |members| ==> IsCorner(members, r)
    ensures forall j :: k <= j < r ==> !IsCorner(members, j)
    decreases |members| - k
  {
    if k == |members| then k
    else if IsCorner(members, k) then k
    else FirstCorner(members, k + 1)
  }

  /**
   * The spawn sits on member k: an area blast on the first corner when there
   * is one, anything else on the middle member.
   */
  predicate SpawnsAt(members: seq<Gem>, r: Spawn, k: int)
    requires r.Spawn?
  {
    && 0 <= k < |members|
    && r.x == members[k].gridX && r.y == members[k].gridY
    && if r.special == AreaBlast && (exists c :: 0 <= c < |members| && IsCorner(members, c))
       then IsCorner(members, k) && (forall j :: 0 <= j < k ==> !IsCorner(members, j))
       else k == |members| / 2
  }

  /**
   * The special gem a matched group leaves behind: four in a row or column give
   * a line blast along it, five or more in a line a rainbow, five or more in
   * any other shape an area blast. The new gem goes to the group's middle
   * member, except that an area blast goes to the first corner if there is one.
   */
  function ClassifyGroup(members: seq<Gem>): (r: Spawn)
    ensures |members| < 4 <==> r == NoSpawn
    ensures |members| == 4 ==> r.special == (if SameRow(members) then RowBlast else ColBlast)
    ensures |members| >= 5 ==>
      r.special == (if SameRow(members) || SameColumn(members) then Rainbow else AreaBlast)
    ensures r.Spawn? ==> r.gemType == (if r.special == Rainbow then White else members[0].gemType)
    ensures r.Spawn? ==> exists k :: SpawnsAt(members, r, k)
  {
    if |members| < 4 then NoSpawn
    else
      var xs := Elems(Xs(members));
      var ys := Elems(Ys(members));
      OneValue(Xs(members));
      OneValue(Ys(members));
      var isLine := |xs| == 1 || |ys| == 1;
      var special :=
        if |members| == 4 then (if |ys| == 1 then RowBlast else ColBlast)
        else if isLine then Rainbow
        else AreaBlast;
      var gemType := if special == Rainbow then White else members[0].gemType;
      var c := FirstCorner(members, 0);
      var k := if special == AreaBlast && c < |members| then c else |members| / 2;
      var r := Spawn(members[k].gridX, members[k].gridY, gemType, special);
      assert SpawnsAt(members, r, k);
      r
  }

  /** checkSpecialCombo (MatchSystem.ts:164-168): a swap is a combo unless a plain gem meets a non-rainbow. */
  function CheckSpecialCombo(a: Gem, b: Gem): (r: bool)
    ensures !r <==> (a.special == None && b.special != Rainbow) || (b.special == None && a.special != Rainbow)
  {
    if a.special != None && b.special != None then true
    else if a.special == Rainbow || b.special == Rainbow then true
    else false
  }
}
