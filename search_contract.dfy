/** What the maze domain guarantees to the A* engine that drives it: the heuristic never
    overestimates the cost of a chain of successors, which is what an A* engine relies on
    to return a cheapest path. The engine itself is not part of this model. */
module SearchContract {
  import opened Wrappers
  import opened Terrain
  import opened MapSearch

  /** Every cell of the table costs at least 1 to leave. */
  ghost predicate PositiveTerrain(world: World) {
    forall i :: 0 <= i < |world| ==> world[i] >= 1
  }

  lemma InitialWorldPositive()
    ensures PositiveTerrain(InitialWorld)
  {
    InitialWorldCodes();
    forall i | 0 <= i < |InitialWorld|
      ensures InitialWorld[i] >= 1
    {
      assert InitialWorld[i] in InitialWorld;
    }
  }

  /** path is a chain the engine can build: each state is a successor of the one before,
      generated with that one's parent (parent for the first step). */
  ghost predicate IsChain(world: World, path: seq<Pos>, parent: Option<Pos>)
    decreases |path|
  {
    |path| >= 1 &&
    (|path| == 1 || (path[1] in Successors(world, path[0], parent) && IsChain(world, path[1..], Some(path[0]))))
  }

  /** The g value the engine accumulates along path: the sum of the step costs. */
  function PathCost(world: World, path: seq<Pos>): int
    decreases |path|
  {
    if |path| <= 1 then 0 else GetCost(world, path[0], path[1]) + PathCost(world, path[1..])
  }

  /** The heuristic is consistent: it drops by no more than the cost of a step. */
  lemma HeuristicConsistent(world: World, node: Pos, parent: Option<Pos>, s: Pos, goal: Pos)
    requires PositiveTerrain(world)
    requires s in Successors(world, node, parent)
    ensures GoalDistanceEstimate(node, goal) <= GetCost(world, node, s) + GoalDistanceEstimate(s, goal)
  {
    SuccessorProperties(world, node, parent, s);
    GoalDistanceTriangle(node, s, goal);
    if OnMap(node.x, node.y) {
      assert world[node.y * MapWidth + node.x] >= 1;
    }
  }

  /** The heuristic is admissible: from the first state of any chain it never exceeds the
      cost of reaching the last state. */
  lemma {:induction false} HeuristicAdmissible(world: World, path: seq<Pos>, parent: Option<Pos>)
    requires PositiveTerrain(world)
    requires IsChain(world, path, parent)
    ensures GoalDistanceEstimate(path[0], path[|path| - 1]) <= PathCost(world, path)
  {
    if |path| > 1 {
      var goal := path[|path| - 1];
      HeuristicAdmissible(world, path[1..], Some(path[0]));
      assert path[1..][|path[1..]| - 1] == goal;
      HeuristicConsistent(world, path[0], parent, path[1], goal);
    }
  }

  /** On the initial table a chain of k steps costs exactly k when it starts on open
      ground, so the search's g value is the number of steps taken. */
  lemma {:induction false} InitialChainCostIsLength(path: seq<Pos>, parent: Option<Pos>)
    requires IsChain(InitialWorld, path, parent)
    requires GetMap(InitialWorld, path[0].x, path[0].y) < Impassable
    ensures PathCost(InitialWorld, path) == |path| - 1
  {
    if |path| > 1 {
      InitialPassableCostsOne(path[0], path[1]);
      SuccessorProperties(InitialWorld, path[0], parent, path[1]);
      InitialChainCostIsLength(path[1..], Some(path[0]));
    }
  }
}
