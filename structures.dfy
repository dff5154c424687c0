/** The structure finder shared by the ProAlphaBeta and newAlphaBeta players. A structure is
    a connected group of boxes of one kind: a chain is made of boxes with exactly two taken
    sides, a loop of boxes with exactly three. Boxes are named by (x, y) points (column,
    row). The finder scans the boxes row by row and grows each structure with a stack. The
    visited set that the explorations share is handed in and handed back. */
module Structures {
  import opened Boards
  import Heuristics

  type Point = (int, int)

  /** The kinds of structure a caller can ask for; any other name finds nothing. */
  datatype StructureType = Chain | Loop | OtherType

  /** The number of taken sides, in either sign, that marks a box as part of a structure of
      the kind; no box has -1. */
  function Sides(t: StructureType): int
  {
    match t
    case Chain => 2
    case Loop => 3
    case OtherType => -1
  }

  /** The (x, y) point is a box of the kind. */
  predicate Member(b: Board, t: StructureType, p: Point)
  {
    0 <= p.1 < |b.boardStatus| && 0 <= p.0 < |b.boardStatus[p.1]| && Abs(b.boardStatus[p.1][p.0]) == Sides(t)
  }

  /** is_part_of_structure: the test on the box's signed value. */
  function IsPartOfStructure(b: Board, x: int, y: int, t: StructureType): (r: bool)
    requires WellShaped(b) && IsBox(b, y, x)
    ensures r <==> Member(b, t, (x, y))
  {
    match t
    case Chain => b.boardStatus[y][x] == 2 || b.boardStatus[y][x] == -2
    case Loop => b.boardStatus[y][x] == 3 || b.boardStatus[y][x] == -3
    case OtherType => false
  }

  /* ---------------- get_structure_neighbors ---------------- */

  /** The place of q around p in the order above, below, left, right. */
  function NeighbourRank(p: Point, q: Point): int
  {
    if q == (p.0, p.1 - 1) then 0
    else if q == (p.0, p.1 + 1) then 1
    else if q == (p.0 - 1, p.1) then 2
    else 3
  }

  /** get_structure_neighbors: the boxes of the kind next to box (x, y), above, below, left
      and right, each probed only when it lies on the board. */
  function GetStructureNeighbors(b: Board, x: int, y: int, t: StructureType): (ns: seq<Point>)
    requires WellShaped(b) && IsBox(b, y, x)
    ensures forall q :: q in ns <==> Member(b, t, q) && Heuristics.Orth((x, y), q)
    ensures forall q :: q in ns ==> IsBox(b, q.1, q.0)
  {
    var above := Probe(b, t, (x, y - 1), y > 0);
    var below := Probe(b, t, (x, y + 1), y < Height(b) - 1);
    var left := Probe(b, t, (x - 1, y), x > 0);
    var right := Probe(b, t, (x + 1, y), x < Width(b) - 1);
    NeighboursIff(b, t, x, y, above, below, left, right);
    above + below + left + right
  }

  /** The neighbours come above, below, left, right. */
  lemma NeighboursInOrder(b: Board, x: int, y: int, t: StructureType)
    requires WellShaped(b) && IsBox(b, y, x)
    ensures var ns := GetStructureNeighbors(b, x, y, t);
      forall i, j :: 0 <= i < j < |ns| ==> NeighbourRank((x, y), ns[i]) < NeighbourRank((x, y), ns[j])
  {
    ProbesInOrder((x, y), Probe(b, t, (x, y - 1), y > 0), Probe(b, t, (x, y + 1), y < Height(b) - 1),
                  Probe(b, t, (x - 1, y), x > 0), Probe(b, t, (x + 1, y), x < Width(b) - 1));
  }

  /** Four probes of the four neighbours, concatenated, come in rank order. */
  lemma ProbesInOrder(p: Point, above: seq<Point>, below: seq<Point>, left: seq<Point>, right: seq<Point>)
    requires above == [] || above == [(p.0, p.1 - 1)]
    requires below == [] || below == [(p.0, p.1 + 1)]
    requires left == [] || left == [(p.0 - 1, p.1)]
    requires right == [] || right == [(p.0 + 1, p.1)]
    ensures RankedUpTo(p, above + below + left + right, 3)
  {
    var s1 := above + below;
    var s2 := s1 + left;
    assert RankedUpTo(p, above, 0);
    RankedAppend(p, above, below, (p.0, p.1 + 1), 0, 1);
    RankedAppend(p, s1, left, (p.0 - 1, p.1), 1, 2);
    RankedAppend(p, s2, right, (p.0 + 1, p.1), 2, 3);
  }

  /** One bounds test and one is_part_of_structure test of get_structure_neighbors. */
  function Probe(b: Board, t: StructureType, q: Point, inBounds: bool): (r: seq<Point>)
    requires inBounds ==> WellShaped(b) && IsBox(b, q.1, q.0)
    ensures r == [] || r == [q]
    ensures forall p :: p in r <==> inBounds && p == q && Member(b, t, q)
  {
    if inBounds && IsPartOfStructure(b, q.0, q.1, t) then [q] else []
  }

  /** The four probes together find exactly the boxes of the kind next to (x, y). */
  lemma NeighboursIff(b: Board, t: StructureType, x: int, y: int,
                      above: seq<Point>, below: seq<Point>, left: seq<Point>, right: seq<Point>)
    requires WellShaped(b) && IsBox(b, y, x)
    requires forall p :: p in above <==> y > 0 && p == (x, y - 1) && Member(b, t, p)
    requires forall p :: p in below <==> y < Height(b) - 1 && p == (x, y + 1) && Member(b, t, p)
    requires forall p :: p in left <==> x > 0 && p == (x - 1, y) && Member(b, t, p)
    requires forall p :: p in right <==> x < Width(b) - 1 && p == (x + 1, y) && Member(b, t, p)
    ensures forall q :: q in above + below + left + right <==> Member(b, t, q) && Heuristics.Orth((x, y), q)
  {
    forall q
      ensures q in above + below + left + right <==> Member(b, t, q) && Heuristics.Orth((x, y), q)
    {
      if Member(b, t, q) && Heuristics.Orth((x, y), q) {
        if q == (x, y - 1) {
          assert q in above;
        } else if q == (x, y + 1) {
          assert q in below;
        } else if q == (x - 1, y) {
          assert q in left;
        } else {
          assert q == (x + 1, y);
          assert q in right;
        }
      }
    }
  }

  /** The ranks around p along s increase and none is above hi. */
  predicate RankedUpTo(p: Point, s: seq<Point>, hi: int)
  {
    && (forall i, j :: 0 <= i < j < |s| ==> NeighbourRank(p, s[i]) < NeighbourRank(p, s[j]))
    && (forall i :: 0 <= i < |s| ==> NeighbourRank(p, s[i]) <= hi)
  }

  /** A run ranked up to lo followed by nothing or by one point of rank in (lo, hi] is ranked
      up to hi. */
  lemma RankedAppend(p: Point, s: seq<Point>, u: seq<Point>, q: Point, lo: int, hi: int)
    requires RankedUpTo(p, s, lo)
    requires u == [] || u == [q]
    requires lo < NeighbourRank(p, q) <= hi
    ensures RankedUpTo(p, s + u, hi)
  {
    if u == [q] {
      forall i | 0 <= i < |s|
        ensures (s + u)[i] == s[i]
      {
      }
      assert (s + u)[|s|] == q;
    } else {
      assert s + u == s;
    }
  }

  /* ---------------- explore_structure ---------------- */

  predicate Distinct(s: seq<Point>)
  {
    forall i, j :: 0 <= i < j < |s| ==> s[i] != s[j]
  }

  /** Every box of the kind next to a point of s lies in within. */
  ghost predicate Closed(b: Board, t: StructureType, s: set<Point>, within: set<Point>)
  {
    forall p, q {:trigger Heuristics.Orth(p, q)} :: p in s && Member(b, t, q) && Heuristics.Orth(p, q) ==> q in within
  }

  lemma ElemsAppend(s: seq<Point>, p: Point)
    ensures Elems(s + [p]) == Elems(s) + {p}
  {
  }

  /** A structure has at most as many boxes as the board. */
  lemma StructureBound(b: Board, t: StructureType, s: seq<Point>)
    requires WellShaped(b) && Distinct(s) && forall i :: 0 <= i < |s| ==> Member(b, t, s[i])
    ensures |s| <= Width(b) * Height(b)
  {
    DistinctCard(s);
    assert Heuristics.OnBoard(b, Elems(s)) by {
      forall p | p in Elems(s)
        ensures 0 <= p.0 < Width(b) && 0 <= p.1 < Height(b)
      {
        var i :| 0 <= i < |s| && s[i] == p;
        assert Member(b, t, s[i]);
      }
    }
    Heuristics.OnBoardCard(b, Elems(s));
  }

  /** The neighbours of the newest box of the structure, pushed on the stack, are boxes next
      to the structure, as the boxes already on the stack are. */
  lemma Pushed(b: Board, t: StructureType, structure: seq<Point>, stack: seq<Point>, neighbours: seq<Point>, current: Point)
    requires structure != [] && structure[|structure| - 1] == current
    requires forall k :: 0 <= k < |stack| ==> IsBox(b, stack[k].1, stack[k].0) && Heuristics.Borders(structure, |structure|, stack[k])
    requires forall q :: q in neighbours ==> IsBox(b, q.1, q.0) && Heuristics.Orth(current, q)
    ensures forall k :: 0 <= k < |stack + neighbours| ==>
      IsBox(b, (stack + neighbours)[k].1, (stack + neighbours)[k].0) && Heuristics.Borders(structure, |structure|, (stack + neighbours)[k])
    ensures Elems(stack + neighbours) == Elems(stack) + Elems(neighbours)
  {
    forall k | 0 <= k < |stack + neighbours|
      ensures IsBox(b, (stack + neighbours)[k].1, (stack + neighbours)[k].0) && Heuristics.Borders(structure, |structure|, (stack + neighbours)[k])
    {
      if k >= |stack| {
        var q := neighbours[k - |stack|];
        assert (stack + neighbours)[k] == q && q in neighbours;
        assert Heuristics.Orth(structure[|structure| - 1], q);
      } else {
        assert (stack + neighbours)[k] == stack[k];
      }
    }
    ElemsConcat(stack, neighbours);
  }

  /** explore_structure: the stack starts with (x, y); a popped box not yet visited and of
      the kind joins the structure and the visited set, and its neighbours of the kind are
      pushed. The structure is empty unless (x, y) is an unvisited box of the kind, and then
      it starts with (x, y). Its boxes are distinct, of the kind, newly visited and
      connected, and every box of the kind next to one of them ends up visited. */
  method ExploreStructure(b: Board, x: int, y: int, visited: set<Point>, t: StructureType)
    returns (structure: seq<Point>, seen: set<Point>)
    requires WellShaped(b) && IsBox(b, y, x)
    ensures seen == visited + Elems(structure)
    ensures Distinct(structure)
    ensures forall i :: 0 <= i < |structure| ==> Member(b, t, structure[i]) && structure[i] !in visited
    ensures structure != [] <==> (x, y) !in visited && Member(b, t, (x, y))
    ensures structure != [] ==> structure[0] == (x, y)
    ensures Heuristics.Connected(structure)
    ensures Closed(b, t, Elems(structure), seen)
  {
    ghost var cap := Width(b) * Height(b);
    structure, seen := [], visited;
    var stack := [(x, y)];
    while stack != []
      invariant ExploreInv(b, t, x, y, visited, structure, seen, stack)
      invariant |structure| <= cap
      decreases cap - |structure|, |stack|
    {
      var current := stack[|stack| - 1];
      var rest := stack[..|stack| - 1];
      assert stack == rest + [current];
      if current !in seen && IsPartOfStructure(b, current.0, current.1, t) {
        var neighbours := GetStructureNeighbors(b, current.0, current.1, t);
        AddStep(b, t, x, y, visited, structure, seen, rest, current, neighbours);
        structure := structure + [current];
        seen := seen + {current};
        stack := rest + neighbours;
        StructureBound(b, t, structure);
      } else {
        SkipStep(b, t, x, y, visited, structure, seen, rest, current);
        stack := rest;
      }
    }
    assert Elems(stack) == {};
  }

  /** The loop invariant of explore_structure: the structure so far is distinct, of the kind,
      newly visited and connected, starts with (x, y), and is empty only before (x, y) is
      popped or when (x, y) does not start one; every box on the stack is next to the
      structure; and every box of the kind next to the structure is visited or on the stack. */
  ghost predicate ExploreInv(b: Board, t: StructureType, x: int, y: int, visited: set<Point>,
                             structure: seq<Point>, seen: set<Point>, stack: seq<Point>)
  {
    && seen == visited + Elems(structure)
    && Distinct(structure)
    && (forall i :: 0 <= i < |structure| ==> Member(b, t, structure[i]) && structure[i] !in visited)
    && (structure == [] ==> stack == [(x, y)] || (stack == [] && !((x, y) !in visited && Member(b, t, (x, y)))))
    && (structure != [] ==> structure[0] == (x, y))
    && (forall k :: 0 <= k < |stack| ==> IsBox(b, stack[k].1, stack[k].0))
    && (structure != [] ==> forall k :: 0 <= k < |stack| ==> Heuristics.Borders(structure, |structure|, stack[k]))
    && Heuristics.Connected(structure)
    && Closed(b, t, Elems(structure), seen + Elems(stack))
  }

  /** A popped box that is visited or not of the kind is dropped. */
  lemma SkipStep(b: Board, t: StructureType, x: int, y: int, visited: set<Point>,
                 structure: seq<Point>, seen: set<Point>, rest: seq<Point>, current: Point)
    requires ExploreInv(b, t, x, y, visited, structure, seen, rest + [current])
    requires current in seen || !Member(b, t, current)
    ensures ExploreInv(b, t, x, y, visited, structure, seen, rest)
  {
    ElemsAppend(rest, current);
    if structure == [] {
      assert rest + [current] == [(x, y)];
      assert |rest| == 0;
    }
    forall k | 0 <= k < |rest|
      ensures IsBox(b, rest[k].1, rest[k].0)
      ensures structure != [] ==> Heuristics.Borders(structure, |structure|, rest[k])
    {
      assert (rest + [current])[k] == rest[k];
    }
  }

  /** A popped box that is unvisited and of the kind joins the structure and the visited set,
      and its neighbours of the kind are pushed. */
  lemma AddStep(b: Board, t: StructureType, x: int, y: int, visited: set<Point>,
                structure: seq<Point>, seen: set<Point>, rest: seq<Point>, current: Point, neighbours: seq<Point>)
    requires ExploreInv(b, t, x, y, visited, structure, seen, rest + [current])
    requires current !in seen && Member(b, t, current)
    requires forall q :: q in neighbours <==> Member(b, t, q) && Heuristics.Orth(current, q)
    requires forall q :: q in neighbours ==> IsBox(b, q.1, q.0)
    ensures ExploreInv(b, t, x, y, visited, structure + [current], seen + {current}, rest + neighbours)
  {
    ElemsAppend(rest, current);
    ElemsAppend(structure, current);
    if structure == [] {
      assert rest + [current] == [(x, y)];
      assert |rest| == 0;
    }
    forall k | 0 <= k < |rest|
      ensures IsBox(b, rest[k].1, rest[k].0)
      ensures Heuristics.Borders(structure + [current], |structure|, rest[k])
    {
      assert (rest + [current])[k] == rest[k];
      Heuristics.BordersGrow(structure, |structure|, current, rest[k]);
    }
    Heuristics.ConnectedAppend(structure, current);
    var grown := structure + [current];
    assert grown[|grown| - 1] == current;
    Pushed(b, t, grown, rest, neighbours, current);
    ClosedAdd(b, t, Elems(structure), seen, Elems(rest), current, neighbours);
    forall i, j | 0 <= i < j < |grown|
      ensures grown[i] != grown[j]
    {
      if j == |structure| {
        assert grown[i] == structure[i] && structure[i] in Elems(structure);
      } else {
        assert grown[i] == structure[i] && grown[j] == structure[j];
      }
    }
  }

  /** The closure invariant survives a box moving from the stack to the structure, its
      neighbours of the kind pushed. */
  lemma ClosedAdd(b: Board, t: StructureType, inside: set<Point>, seen: set<Point>, rest: set<Point>,
                  current: Point, neighbours: seq<Point>)
    requires Closed(b, t, inside, seen + rest + {current})
    requires forall q :: q in neighbours <==> Member(b, t, q) && Heuristics.Orth(current, q)
    ensures Closed(b, t, inside + {current}, seen + {current} + (rest + Elems(neighbours)))
  {
    forall p, q | p in inside + {current} && Member(b, t, q) && Heuristics.Orth(p, q)
      ensures q in seen + {current} + (rest + Elems(neighbours))
    {
      if p == current {
        assert q in neighbours;
      } else {
        assert q in seen + rest + {current};
      }
    }
  }

  /* ---------------- find_structures ---------------- */

  /** p comes before q in the row-by-row scan. */
  predicate Before(p: Point, q: Point)
  {
    p.1 < q.1 || (p.1 == q.1 && p.0 < q.0)
  }

  /** Every box of every structure. */
  ghost function Union(ss: seq<seq<Point>>): set<Point>
  {
    set i, k | 0 <= i < |ss| && 0 <= k < |ss[i]| :: ss[i][k]
  }

  /** One structure as the finder leaves it: a non-empty connected group of distinct boxes of
      the kind, no box of the kind outside it next to it, and its first box the earliest in
      scan order. */
  ghost predicate Component(b: Board, t: StructureType, s: seq<Point>)
  {
    && s != [] && Distinct(s) && Heuristics.Connected(s)
    && (forall k :: 0 <= k < |s| ==> Member(b, t, s[k]))
    && (forall k :: 0 < k < |s| ==> Before(s[0], s[k]))
    && Closed(b, t, Elems(s), Elems(s))
  }

  /** The structures split the boxes of the kind: each is a component, no two share a box,
      together they hold every box of the kind, and their first boxes come in scan order. */
  ghost predicate Partition(b: Board, t: StructureType, ss: seq<seq<Point>>)
  {
    && (forall i :: 0 <= i < |ss| ==> Component(b, t, ss[i]))
    && (forall i, j :: 0 <= i < j < |ss| ==> Elems(ss[i]) !! Elems(ss[j]) && Before(ss[i][0], ss[j][0]))
    && (forall p :: Member(b, t, p) <==> p in Union(ss))
  }

  /** The state of the scan just before box (x, y). */
  ghost predicate Progress(b: Board, t: StructureType, ss: seq<seq<Point>>, visited: set<Point>, x: int, y: int)
  {
    && visited == Union(ss)
    && (forall i :: 0 <= i < |ss| ==> Component(b, t, ss[i]))
    && StartsBefore(ss, (x, y))
    && (forall i, j :: 0 <= i < j < |ss| ==> Elems(ss[i]) !! Elems(ss[j]) && Before(ss[i][0], ss[j][0]))
    && (forall p :: Member(b, t, p) && Before(p, (x, y)) ==> p in visited)
  }

  /** Every structure is non-empty and starts before q. */
  predicate StartsBefore(ss: seq<seq<Point>>, q: Point)
  {
    forall i :: 0 <= i < |ss| ==> ss[i] != [] && Before(ss[i][0], q)
  }

  /** The scan moves past a box that starts no structure. */
  lemma StepSkip(b: Board, t: StructureType, ss: seq<seq<Point>>, visited: set<Point>, x: int, y: int)
    requires Progress(b, t, ss, visited, x, y)
    requires (x, y) in visited || !Member(b, t, (x, y))
    ensures Progress(b, t, ss, visited, x + 1, y)
  {
    CoverStep(b, t, visited, x, y);
    StartsLater(ss, x, y);
  }

  lemma StartsLater(ss: seq<seq<Point>>, x: int, y: int)
    requires StartsBefore(ss, (x, y))
    ensures StartsBefore(ss, (x + 1, y))
  {
  }

  /** The boxes of the kind before (x + 1, y) are visited once those before (x, y) are and
      (x, y) is visited or not of the kind. */
  lemma CoverStep(b: Board, t: StructureType, visited: set<Point>, x: int, y: int)
    requires forall p :: Member(b, t, p) && Before(p, (x, y)) ==> p in visited
    requires (x, y) in visited || !Member(b, t, (x, y))
    ensures forall p :: Member(b, t, p) && Before(p, (x + 1, y)) ==> p in visited
  {
  }

  /** The scan moves past a box that starts a structure, the structure explored from it. */
  lemma StepFound(b: Board, t: StructureType, ss: seq<seq<Point>>, visited: set<Point>, x: int, y: int,
                  s: seq<Point>, seen: set<Point>)
    requires Progress(b, t, ss, visited, x, y)
    requires (x, y) !in visited && Member(b, t, (x, y))
    requires seen == visited + Elems(s) && Distinct(s) && Heuristics.Connected(s)
    requires forall i :: 0 <= i < |s| ==> Member(b, t, s[i]) && s[i] !in visited
    requires s != [] && s[0] == (x, y)
    requires Closed(b, t, Elems(s), seen)
    ensures Progress(b, t, ss + [s], seen, x + 1, y)
  {
    UnionAppend(ss, s);
    ClosedInside(b, t, ss, visited, s);
    StartsFirst(b, t, visited, x, y, s);
    ComponentsAppend(b, t, ss, s);
    StartsAppend(ss, s, x, y);
    DisjointAppend(ss, visited, s, x, y);
    CoverFound(b, t, visited, seen, x, y, s);
  }

  lemma ComponentsAppend(b: Board, t: StructureType, ss: seq<seq<Point>>, s: seq<Point>)
    requires forall i :: 0 <= i < |ss| ==> Component(b, t, ss[i])
    requires Component(b, t, s)
    ensures forall i :: 0 <= i < |ss + [s]| ==> Component(b, t, (ss + [s])[i])
  {
    forall i | 0 <= i < |ss + [s]|
      ensures Component(b, t, (ss + [s])[i])
    {
      if i < |ss| {
        assert (ss + [s])[i] == ss[i];
      }
    }
  }

  lemma StartsAppend(ss: seq<seq<Point>>, s: seq<Point>, x: int, y: int)
    requires StartsBefore(ss, (x, y))
    requires s != [] && s[0] == (x, y)
    ensures StartsBefore(ss + [s], (x + 1, y))
  {
    forall i | 0 <= i < |ss + [s]|
      ensures (ss + [s])[i] != [] && Before((ss + [s])[i][0], (x + 1, y))
    {
      if i < |ss| {
        assert (ss + [s])[i] == ss[i];
      }
    }
  }

  /** A structure of newly visited boxes starting at (x, y) shares no box with the earlier
      ones and starts after each of them. */
  lemma DisjointAppend(ss: seq<seq<Point>>, visited: set<Point>, s: seq<Point>, x: int, y: int)
    requires visited == Union(ss) && StartsBefore(ss, (x, y))
    requires forall i, j :: 0 <= i < j < |ss| ==> Elems(ss[i]) !! Elems(ss[j]) && Before(ss[i][0], ss[j][0])
    requires forall k :: 0 <= k < |s| ==> s[k] !in visited
    requires s != [] && s[0] == (x, y)
    ensures forall i, j :: 0 <= i < j < |ss + [s]| ==>
      Elems((ss + [s])[i]) !! Elems((ss + [s])[j]) && Before((ss + [s])[i][0], (ss + [s])[j][0])
  {
    var ss' := ss + [s];
    forall i, j | 0 <= i < j < |ss'|
      ensures Elems(ss'[i]) !! Elems(ss'[j]) && Before(ss'[i][0], ss'[j][0])
    {
      assert ss'[i] == ss[i];
      if j == |ss| {
        assert ss'[j] == s;
        FreshDisjoint(ss, visited, s, i);
      } else {
        assert ss'[j] == ss[j];
      }
    }
  }

  lemma UnionAppend(ss: seq<seq<Point>>, s: seq<Point>)
    ensures Union(ss + [s]) == Union(ss) + Elems(s)
  {
    var ss' := ss + [s];
    forall p | p in Union(ss')
      ensures p in Union(ss) + Elems(s)
    {
      var i, k :| 0 <= i < |ss'| && 0 <= k < |ss'[i]| && ss'[i][k] == p;
      if i < |ss| {
        assert ss[i][k] == p;
      } else {
        assert s[k] == p;
      }
    }
    forall p | p in Union(ss) + Elems(s)
      ensures p in Union(ss')
    {
      if p in Union(ss) {
        var i, k :| 0 <= i < |ss| && 0 <= k < |ss[i]| && ss[i][k] == p;
        assert ss'[i][k] == p;
      } else {
        var k :| 0 <= k < |s| && s[k] == p;
        assert ss'[|ss|][k] == p;
      }
    }
  }

  /** A structure whose boxes are all newly visited, explored next to closed structures that
      make up the visited set, is itself closed. */
  lemma ClosedInside(b: Board, t: StructureType, ss: seq<seq<Point>>, visited: set<Point>, s: seq<Point>)
    requires visited == Union(ss)
    requires forall i :: 0 <= i < |ss| ==> Closed(b, t, Elems(ss[i]), Elems(ss[i]))
    requires forall i :: 0 <= i < |s| ==> Member(b, t, s[i]) && s[i] !in visited
    requires Closed(b, t, Elems(s), visited + Elems(s))
    ensures Closed(b, t, Elems(s), Elems(s))
  {
    forall p, q | p in Elems(s) && Member(b, t, q) && Heuristics.Orth(p, q)
      ensures q in Elems(s)
    {
      var j :| 0 <= j < |s| && s[j] == p;
      assert Heuristics.Orth(q, p);
      VisitedClosed(b, t, ss, visited, q, p);
    }
  }

  /** A box of the kind next to a visited box is visited, the visited set being made of
      closed structures. */
  lemma VisitedClosed(b: Board, t: StructureType, ss: seq<seq<Point>>, visited: set<Point>, q: Point, p: Point)
    requires visited == Union(ss)
    requires forall i :: 0 <= i < |ss| ==> Closed(b, t, Elems(ss[i]), Elems(ss[i]))
    requires Member(b, t, p) && Heuristics.Orth(q, p)
    ensures q in visited ==> p in visited
  {
    if q in visited {
      var i, k :| 0 <= i < |ss| && 0 <= k < |ss[i]| && ss[i][k] == q;
      assert q in Elems(ss[i]);
      assert p in Elems(ss[i]);
      var m :| 0 <= m < |ss[i]| && ss[i][m] == p;
    }
  }

  /** Every box of a structure explored from (x, y) after the first comes after (x, y) in
      scan order, all boxes of the kind before (x, y) being visited. */
  lemma StartsFirst(b: Board, t: StructureType, visited: set<Point>, x: int, y: int, s: seq<Point>)
    requires forall p :: Member(b, t, p) && Before(p, (x, y)) ==> p in visited
    requires Distinct(s) && s != [] && s[0] == (x, y)
    requires forall i :: 0 <= i < |s| ==> Member(b, t, s[i]) && s[i] !in visited
    ensures forall k :: 0 < k < |s| ==> Before(s[0], s[k])
  {
    forall k | 0 < k < |s|
      ensures Before(s[0], s[k])
    {
      assert s[k] != s[0];
    }
  }

  /** An earlier structure, inside the visited set, shares no box with a newly visited one. */
  lemma FreshDisjoint(ss: seq<seq<Point>>, visited: set<Point>, s: seq<Point>, i: int)
    requires visited == Union(ss) && 0 <= i < |ss|
    requires forall k :: 0 <= k < |s| ==> s[k] !in visited
    ensures Elems(ss[i]) !! Elems(s)
  {
    forall p | p in Elems(ss[i])
      ensures p !in Elems(s)
    {
      var k :| 0 <= k < |ss[i]| && ss[i][k] == p;
      assert p in visited;
    }
  }

  /** The boxes of the kind before (x + 1, y) are visited once (x, y) has been explored. */
  lemma CoverFound(b: Board, t: StructureType, visited: set<Point>, seen: set<Point>, x: int, y: int, s: seq<Point>)
    requires forall p :: Member(b, t, p) && Before(p, (x, y)) ==> p in visited
    requires seen == visited + Elems(s) && s != [] && s[0] == (x, y)
    ensures forall p :: Member(b, t, p) && Before(p, (x + 1, y)) ==> p in seen
  {
    assert (x, y) in Elems(s);
  }

  /** The end of a row is the start of the next one. */
  lemma NextRow(b: Board, t: StructureType, ss: seq<seq<Point>>, visited: set<Point>, y: int)
    requires WellShaped(b) && Progress(b, t, ss, visited, Width(b), y)
    ensures Progress(b, t, ss, visited, 0, y + 1)
  {
  }

  /** At the end of the scan the structures split the boxes of the kind. */
  lemma ScanDone(b: Board, t: StructureType, ss: seq<seq<Point>>, visited: set<Point>)
    requires Progress(b, t, ss, visited, 0, Height(b))
    ensures Partition(b, t, ss)
  {
    forall p | p in Union(ss)
      ensures Member(b, t, p)
    {
      var i, k :| 0 <= i < |ss| && 0 <= k < |ss[i]| && ss[i][k] == p;
      assert Component(b, t, ss[i]);
    }
  }

  /** find_structures: every box, row by row, that is of the kind and not yet visited starts
      an exploration, and each non-empty structure found is kept. */
  method FindStructures(b: Board, t: StructureType) returns (structures: seq<seq<Point>>)
    requires WellShaped(b)
    ensures Partition(b, t, structures)
  {
    structures := [];
    var visited: set<Point> := {};
    var y := 0;
    while y < Height(b)
      invariant 0 <= y <= Height(b)
      invariant Progress(b, t, structures, visited, 0, y)
    {
      var x := 0;
      while x < Width(b)
        invariant 0 <= x <= Width(b)
        invariant Progress(b, t, structures, visited, x, y)
      {
        structures, visited := VisitBox(b, t, x, y, structures, visited);
        x := x + 1;
      }
      NextRow(b, t, structures, visited, y);
      y := y + 1;
    }
    ScanDone(b, t, structures, visited);
  }

  /** The body of find_structures' inner loop: box (x, y), when it is of the kind and not yet
      visited, starts an exploration, and the structure found, when non-empty, is kept. */
  method VisitBox(b: Board, t: StructureType, x: int, y: int, structures: seq<seq<Point>>, visited: set<Point>)
    returns (structures': seq<seq<Point>>, visited': set<Point>)
    requires WellShaped(b) && IsBox(b, y, x)
    requires Progress(b, t, structures, visited, x, y)
    ensures Progress(b, t, structures', visited', x + 1, y)
  {
    structures', visited' := structures, visited;
    if (x, y) !in visited && IsPartOfStructure(b, x, y, t) {
      var structure, seen := ExploreStructure(b, x, y, visited, t);
      StepFound(b, t, structures, visited, x, y, structure, seen);
      assert structure != [];
      visited' := seen;
      if structure != [] {
        structures' := structures + [structure];
      }
    } else {
      StepSkip(b, t, structures, visited, x, y);
    }
  }

  /* ---------------- get_unclaimed_edges ---------------- */

  /** The place of an edge around box p in the order top, bottom, left, right. */
  function SideRank(p: Point, a: GameAction): int
  {
    match a.kind
    case Row => if a.y == p.1 then 0 else 1
    case Col => if a.x == p.0 then 2 else 3
  }

  /** get_unclaimed_edges: the free sides of box p, top, bottom, left, right. */
  function GetUnclaimedEdges(b: Board, p: Point): (edges: seq<GameAction>)
    requires WellShaped(b) && IsBox(b, p.1, p.0)
    ensures forall a :: a in edges <==> Unclaimed(b, a) && Adjacent(a, p.1, p.0)
    ensures forall i, j :: 0 <= i < j < |edges| ==> SideRank(p, edges[i]) < SideRank(p, edges[j])
  {
    var (x, y) := p;
    (if b.rowStatus[y][x] == 0 then [GameAction(Row, x, y)] else [])
    + (if y < |b.rowStatus| - 1 && b.rowStatus[y + 1][x] == 0 then [GameAction(Row, x, y + 1)] else [])
    + (if b.colStatus[y][x] == 0 then [GameAction(Col, x, y)] else [])
    + (if x < |b.colStatus[y]| - 1 && b.colStatus[y][x + 1] == 0 then [GameAction(Col, x + 1, y)] else [])
  }

  /* ---------------- eat_square_from_structure ---------------- */

  /** Box k of s is the first box of s with a free side. */
  predicate FirstFree(b: Board, s: seq<Point>, k: int)
    requires WellShaped(b) && forall i :: 0 <= i < |s| ==> IsBox(b, s[i].1, s[i].0)
  {
    0 <= k < |s| && GetUnclaimedEdges(b, s[k]) != [] && forall j :: 0 <= j < k ==> GetUnclaimedEdges(b, s[j]) == []
  }

  /** eat_square_from_structure: the structures of the kind are found; the move is the first
      free side of the first box with one in the first structure, and there is none when no
      structure exists or no box of the first has a free side. */
  method EatSquareFromStructure(b: Board, t: StructureType)
    returns (action: Option<GameAction>, ghost structures: seq<seq<Point>>)
    requires WellShaped(b)
    ensures Partition(b, t, structures)
    ensures action.None? <==> structures == [] || forall k :: 0 <= k < |structures[0]| ==> GetUnclaimedEdges(b, structures[0][k]) == []
    ensures action.Some? ==> Unclaimed(b, action.value)
    ensures action.Some? ==> exists k :: FirstFree(b, structures[0], k) && action.value == GetUnclaimedEdges(b, structures[0][k])[0]
  {
    var found := FindStructures(b, t);
    structures := found;
    if found == [] {
      return None, structures;
    }
    ComponentBoxes(b, t, found[0]);
    action := FirstFreeSide(b, found[0]);
  }

  /** The boxes of a structure lie on the board. */
  lemma ComponentBoxes(b: Board, t: StructureType, s: seq<Point>)
    requires WellShaped(b) && Component(b, t, s)
    ensures forall k :: 0 <= k < |s| ==> IsBox(b, s[k].1, s[k].0)
  {
  }

  /** The loop of eat_square_from_structure over the boxes of one structure: the first free
      side of the first box that has one, or none when no box has a free side. */
  method FirstFreeSide(b: Board, s: seq<Point>) returns (action: Option<GameAction>)
    requires WellShaped(b) && forall i :: 0 <= i < |s| ==> IsBox(b, s[i].1, s[i].0)
    ensures action.None? <==> forall k :: 0 <= k < |s| ==> GetUnclaimedEdges(b, s[k]) == []
    ensures action.Some? ==> Unclaimed(b, action.value)
    ensures action.Some? ==> exists k :: FirstFree(b, s, k) && action.value == GetUnclaimedEdges(b, s[k])[0]
  {
    var i := 0;
    while i < |s|
      invariant 0 <= i <= |s|
      invariant forall j :: 0 <= j < i ==> GetUnclaimedEdges(b, s[j]) == []
    {
      var edges := GetUnclaimedEdges(b, s[i]);
      if edges != [] {
        assert FirstFree(b, s, i);
        assert edges[0] in edges;
        return Some(edges[0]);
      }
      i := i + 1;
    }
    return None;
  }
}
