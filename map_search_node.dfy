/** The search state of the grid maze: the functions the A* engine calls on a state
    (goal test, state equality, heuristic, step cost, successor generation) and the node
    object itself, whose position can be moved and which keeps a list of observers. */
module MapSearch {
  import opened Wrappers
  import opened Terrain
  import ObserverList

  /** The (x, y) position a node stands for. The engine copies nodes by value, so this is
      all it ever compares, scores or expands. */
  datatype Pos = Pos(x: int, y: int)

  /** Two states are the same exactly when their positions coincide. */
  function IsSameState(a: Pos, rhs: Pos): (r: bool)
    ensures r <==> a == rhs
  {
    a.x == rhs.x && a.y == rhs.y
  }

  /** A node is the goal exactly when it stands on the goal's position. */
  function IsGoal(node: Pos, goal: Pos): (r: bool)
    ensures r <==> node == goal
  {
    node.x == goal.x && node.y == goal.y
  }

  function Abs(n: int): nat {
    if n < 0 then -n else n
  }

  /** The heuristic: Manhattan distance to the goal. It is zero exactly at the goal. */
  function GoalDistanceEstimate(node: Pos, goal: Pos): (r: int)
    ensures r >= 0
    ensures r == 0 <==> IsGoal(node, goal)
  {
    Abs(node.x - goal.x) + Abs(node.y - goal.y)
  }

  /** The cost of stepping from node to successor: the terrain code of the cell being
      left, whatever the successor is. */
  function GetCost(world: World, node: Pos, successor: Pos): (r: int)
    ensures OnMap(node.x, node.y) ==> r == world[node.y * MapWidth + node.x]
    ensures !OnMap(node.x, node.y) ==> r == Impassable
  {
    GetMap(world, node.x, node.y)
  }

  /** The coordinates compared against when a node has no parent. */
  const NoParent: Pos := Pos(-1, -1)

  function ParentCoords(parent: Option<Pos>): Pos {
    match parent
    case Some(p) => p
    case None => NoParent
  }

  /** The four orthogonal neighbours in the order they are tried: west, north, east, south. */
  function Neighbours(p: Pos): seq<Pos> {
    [Pos(p.x - 1, p.y), Pos(p.x, p.y - 1), Pos(p.x + 1, p.y), Pos(p.x, p.y + 1)]
  }

  /** A neighbour c is handed to the engine when its terrain is below the wall code
      and it is not where the parent stands. */
  predicate Admits(world: World, c: Pos, parent: Option<Pos>) {
    GetMap(world, c.x, c.y) < Impassable && c != ParentCoords(parent)
  }

  /** The states GetSuccessors passes to AddSuccessor, in call order. */
  function Successors(world: World, node: Pos, parent: Option<Pos>): (r: seq<Pos>)
    ensures |r| <= 4
    ensures forall s :: s in r ==> s in Neighbours(node) && Admits(world, s, parent)
  {
    var n := Neighbours(node);
    (if Admits(world, n[0], parent) then [n[0]] else [])
    + (if Admits(world, n[1], parent) then [n[1]] else [])
    + (if Admits(world, n[2], parent) then [n[2]] else [])
    + (if Admits(world, n[3], parent) then [n[3]] else [])
  }

  /** Which of the four directions (0 west, 1 north, 2 east, 3 south) leads from node to c;
      4 when c is not a neighbour. */
  function Direction(node: Pos, c: Pos): nat {
    if c == Pos(node.x - 1, node.y) then 0
    else if c == Pos(node.x, node.y - 1) then 1
    else if c == Pos(node.x + 1, node.y) then 2
    else if c == Pos(node.x, node.y + 1) then 3
    else 4
  }

  /** At most four successors, each a neighbour, listed in west, north, east, south order
      with no repetition. */
  lemma SuccessorsShape(world: World, node: Pos, parent: Option<Pos>)
    ensures |Successors(world, node, parent)| <= 4
    ensures forall s :: s in Successors(world, node, parent) ==> s in Neighbours(node)
    ensures forall i, j :: 0 <= i < j < |Successors(world, node, parent)| ==>
      Direction(node, Successors(world, node, parent)[i]) < Direction(node, Successors(world, node, parent)[j])
  {
  }

  /** A neighbour is a successor exactly when it is passable and not the parent's cell. */
  lemma SuccessorsExact(world: World, node: Pos, parent: Option<Pos>, c: Pos)
    requires c in Neighbours(node)
    ensures c in Successors(world, node, parent) <==> GetMap(world, c.x, c.y) < Impassable && c != ParentCoords(parent)
  {
  }

  /** Every successor is one step away, passable, on the map, and not the parent. */
  lemma SuccessorProperties(world: World, node: Pos, parent: Option<Pos>, s: Pos)
    requires s in Successors(world, node, parent)
    ensures GoalDistanceEstimate(node, s) == 1
    ensures GetMap(world, s.x, s.y) < Impassable
    ensures OnMap(s.x, s.y)
    ensures parent.Some? ==> s != parent.value
  {
  }

  /** Without a parent the sentinel never gets in the way: every passable neighbour is a
      successor, because the sentinel cell (-1, -1) is off the map. */
  lemma SuccessorsWithoutParent(world: World, node: Pos, c: Pos)
    requires c in Neighbours(node)
    ensures c in Successors(world, node, None) <==> GetMap(world, c.x, c.y) < Impassable
  {
  }

  /** Each step to a successor changes the heuristic by exactly one, in either direction. */
  lemma HeuristicStep(world: World, node: Pos, parent: Option<Pos>, s: Pos, goal: Pos)
    requires s in Successors(world, node, parent)
    ensures GoalDistanceEstimate(s, goal) == GoalDistanceEstimate(node, goal) + 1
         || GoalDistanceEstimate(s, goal) == GoalDistanceEstimate(node, goal) - 1
  {
  }

  /** The heuristic is symmetric. */
  lemma GoalDistanceSymmetric(a: Pos, b: Pos)
    ensures GoalDistanceEstimate(a, b) == GoalDistanceEstimate(b, a)
  {
  }

  /** The heuristic obeys the triangle inequality. */
  lemma GoalDistanceTriangle(a: Pos, b: Pos, c: Pos)
    ensures GoalDistanceEstimate(a, c) <= GoalDistanceEstimate(a, b) + GoalDistanceEstimate(b, c)
  {
  }

  /** The goal test and the state-equality test are the same predicate. */
  lemma IsGoalIsSameState(a: Pos, b: Pos)
    ensures IsGoal(a, b) == IsSameState(a, b)
  {
  }

  /** The step cost ignores the successor. */
  lemma GetCostIgnoresSuccessor(world: World, node: Pos, s1: Pos, s2: Pos)
    ensures GetCost(world, node, s1) == GetCost(world, node, s2)
  {
  }

  /** On the initial table every passable cell costs 1 to leave. */
  lemma InitialPassableCostsOne(node: Pos, s: Pos)
    requires GetMap(InitialWorld, node.x, node.y) < Impassable
    ensures GetCost(InitialWorld, node, s) == 1
  {
    InitialTerrainCodes(node.x, node.y);
  }

  /** The step cost with the lookup as the program writes it. None when the current
      cell's read falls past the end of the table. */
  function GetCostAsWritten(world: World, node: Pos, successor: Pos): (r: Option<int>)
    ensures r.None? <==> OverrunsTable(node.x, node.y)
    ensures node.x != MapWidth && node.y != MapHeight ==> r == Some(GetCost(world, node, successor))
  {
    GetMapAsWritten(world, node.x, node.y)
  }

  /** Leaving the off-map cell (20, 0), which the program can step onto, costs 1 as
      written (cell (0, 1) is read) and 9 with the corrected lookup; in row 20 the cost
      is a read past the table. */
  lemma GetCostAsWrittenExample(s: Pos)
    ensures GetCostAsWritten(InitialWorld, Pos(20, 0), s) == Some(1)
    ensures GetCost(InitialWorld, Pos(20, 0), s) == Impassable
    ensures GetCostAsWritten(InitialWorld, Pos(5, 20), s).None?
  {
    InitialWorldWrapExample();
  }

  /** Successor generation with the lookup as the program writes it. None when one of the
      four lookups reads past the end of the table. */
  function SuccessorsAsWritten(world: World, node: Pos, parent: Option<Pos>): (r: Option<seq<Pos>>)
    ensures r.None? <==> exists c :: c in Neighbours(node) && OverrunsTable(c.x, c.y)
  {
    var n := Neighbours(node);
    var t0, t1, t2, t3 := GetMapAsWritten(world, n[0].x, n[0].y), GetMapAsWritten(world, n[1].x, n[1].y),
                          GetMapAsWritten(world, n[2].x, n[2].y), GetMapAsWritten(world, n[3].x, n[3].y);
    if t0.None? || t1.None? || t2.None? || t3.None? then None
    else
      var pc := ParentCoords(parent);
      Some((if t0.value < Impassable && n[0] != pc then [n[0]] else [])
           + (if t1.value < Impassable && n[1] != pc then [n[1]] else [])
           + (if t2.value < Impassable && n[2] != pc then [n[2]] else [])
           + (if t3.value < Impassable && n[3] != pc then [n[3]] else []))
  }

  /** Away from the last column and row (and the off-map column and row next to them) the
      program's successor generation and the corrected one agree. */
  lemma SuccessorsAsWrittenAgree(world: World, node: Pos, parent: Option<Pos>)
    requires node.x != MapWidth - 1 && node.x != MapWidth && node.x != MapWidth + 1
    requires node.y != MapHeight - 1 && node.y != MapHeight && node.y != MapHeight + 1
    ensures SuccessorsAsWritten(world, node, parent) == Some(Successors(world, node, parent))
  {
    var n := Neighbours(node);
    AsWrittenAgreesElsewhere(world, n[0].x, n[0].y);
    AsWrittenAgreesElsewhere(world, n[1].x, n[1].y);
    AsWrittenAgreesElsewhere(world, n[2].x, n[2].y);
    AsWrittenAgreesElsewhere(world, n[3].x, n[3].y);
  }

  /** On the initial table the program steps off the map from (19, 0) to (20, 0), because
      (20, 0) reads cell (0, 1); the corrected generation does not. */
  lemma SuccessorsLeaveMapExample()
    ensures SuccessorsAsWritten(InitialWorld, Pos(19, 0), None) == Some([Pos(18, 0), Pos(20, 0), Pos(19, 1)])
    ensures Successors(InitialWorld, Pos(19, 0), None) == [Pos(18, 0), Pos(19, 1)]
  {
    var n := Neighbours(Pos(19, 0));
    assert n == [Pos(18, 0), Pos(19, -1), Pos(20, 0), Pos(19, 1)];
    assert InitialWorld[18] == 1 && InitialWorld[20] == 1 && InitialWorld[39] == 1;
    assert SuccessorsAsWritten(InitialWorld, Pos(19, 0), None) == Some([n[0]] + [] + [n[2]] + [n[3]]);
    assert [n[0]] + [] + [n[2]] + [n[3]] == [Pos(18, 0), Pos(20, 0), Pos(19, 1)];
    assert Successors(InitialWorld, Pos(19, 0), None) == [n[0]] + [] + [] + [n[3]];
    assert [n[0]] + [] + [] + [n[3]] == [Pos(18, 0), Pos(19, 1)];
  }

  /** From any cell of column 19 but the last, the program offers the off-map cell
      (20, y) exactly when the first cell of the next row is passable (and the parent
      does not stand at (20, y)). */
  lemma SuccessorsLeaveMapFromLastColumn(world: World, y: int, parent: Option<Pos>)
    requires 0 <= y < MapHeight - 1
    requires ParentCoords(parent) != Pos(MapWidth, y)
    ensures SuccessorsAsWritten(world, Pos(MapWidth - 1, y), parent).Some?
    ensures Pos(MapWidth, y) in SuccessorsAsWritten(world, Pos(MapWidth - 1, y), parent).value
            <==> world[(y + 1) * MapWidth] < Impassable
  {
    AsWrittenWrapsToNextRow(world, y);
  }

  /** From every cell of the last row the program's successor generation reads past
      the table, through the south neighbour (x, 20). */
  lemma SuccessorsAsWrittenLastRowOverruns(world: World, x: int, parent: Option<Pos>)
    requires 0 <= x < MapWidth
    ensures SuccessorsAsWritten(world, Pos(x, MapHeight - 1), parent).None?
  {
    var south := Pos(x, MapHeight);
    assert south in Neighbours(Pos(x, MapHeight - 1)) && OverrunsTable(south.x, south.y);
  }

  /** A display object attached to a node; only its identity matters here. */
  class Observer {
  }

  /** A node of the maze search: its position and the observers subscribed to it. */
  class MapSearchNode {
    var x: int
    var y: int
    var observers: seq<Observer>

    constructor ()
      ensures x == 0 && y == 0 && observers == []
    {
      x, y := 0, 0;
      observers := [];
    }

    constructor At(px: int, py: int)
      ensures x == px && y == py && observers == []
    {
      x, y := px, py;
      observers := [];
    }

    function State(): Pos
      reads this
    {
      Pos(x, y)
    }

    /** Hands the engine every admissible neighbour of this node, trying west, north,
        east and south in turn; a null parent compares as the sentinel (-1, -1). */
    method GetSuccessors(world: World, parentNode: MapSearchNode?) returns (ok: bool, added: seq<Pos>)
      ensures ok
      ensures added == Successors(world, State(), if parentNode == null then None else Some(parentNode.State()))
    {
      ghost var parent := if parentNode == null then None else Some(parentNode.State());
      ghost var n := Neighbours(State());
      var parentX, parentY := -1, -1;
      if parentNode != null {
        parentX, parentY := parentNode.x, parentNode.y;
      }
      assert Pos(parentX, parentY) == ParentCoords(parent);
      added := [];
      if GetMap(world, x - 1, y) < Impassable && !(parentX == x - 1 && parentY == y) {
        added := added + [Pos(x - 1, y)];
      }
      ghost var west := added;
      assert west == if Admits(world, n[0], parent) then [n[0]] else [];
      if GetMap(world, x, y - 1) < Impassable && !(parentX == x && parentY == y - 1) {
        added := added + [Pos(x, y - 1)];
      }
      ghost var north := added;
      assert north == west + if Admits(world, n[1], parent) then [n[1]] else [];
      if GetMap(world, x + 1, y) < Impassable && !(parentX == x + 1 && parentY == y) {
        added := added + [Pos(x + 1, y)];
      }
      ghost var east := added;
      assert east == north + if Admits(world, n[2], parent) then [n[2]] else [];
      if GetMap(world, x, y + 1) < Impassable && !(parentX == x && parentY == y + 1) {
        added := added + [Pos(x, y + 1)];
      }
      assert added == east + if Admits(world, n[3], parent) then [n[3]] else [];
      ok := true;
    }

    method Move(newX: int, newY: int)
      modifies this`x, this`y
      ensures x == newX && y == newY
    {
      x, y := newX, newY;
    }

    method Subscribe(o: Observer)
      modifies this`observers
      ensures observers == old(observers) + [o]
    {
      observers := observers + [o];
    }

    method Unsubscribe(o: Observer)
      modifies this`observers
      ensures observers == ObserverList.RemoveAll(old(observers), o)
    {
      observers := ObserverList.RemoveAll(observers, o);
    }
  }
}
