/**
 * The searches run on the two domains: each wraps a search of
 * UninformedSearch.py or InformedSearch.py over the maze or the sliding
 * puzzle, with the grids of the start's shape as the finite set of states, and
 * reads what the search promises back in the domain's own terms: an answer
 * exists exactly when some sequence of moves reaches the goal, and the
 * answer's moves, replayed with `_result` from the start, end on the goal.
 */
module DomainSearch {
  import opened Wrappers
  import opened Grids
  import opened SearchCore
  import UninformedSearch
  import InformedSearch
  import Maze
  import SlidingPuzzle

  /** A path of a search over the maze, read back as actions that solve it. */
  lemma MazeRunSolves(initial: Maze.MazeGrid, goal: Maze.MazeGrid, run: seq<Move<Maze.MazeGrid, Direction>>)
    requires IsRun(Maze.MazeProblem(initial, goal), initial, run)
    requires Maze.MazeProblem(initial, goal).isGoal(EndOf(initial, run))
    ensures Maze.Solves(initial, goal, Labels(run))
  {
    Maze.RunReplays(initial, goal, initial, run);
  }

  /** `breadth_first_search` on a maze. */
  method MazeBreadthFirst(initial: Maze.MazeGrid, goal: Maze.MazeGrid, counter: NodeCounter)
    returns (path: seq<Option<Direction>>)
    modifies counter
    ensures Maze.IsGoal(initial, goal) ==> path == [None]
    ensures path == [] <==> forall acts :: !Maze.Solves(initial, goal, acts)
    ensures path != [] ==> exists acts :: path == [None] + Somes(acts) && Maze.Solves(initial, goal, acts)
  {
    var p := Maze.MazeProblem(initial, goal);
    Maze.UniverseClosed(initial, goal);
    Maze.SolvableIff(initial, goal);
    ghost var nodes, order;
    path, nodes, order := UninformedSearch.BreadthFirstSearch(p, Maze.Universe(|initial|, |initial[0]|), counter);
    if path != [] {
      ghost var run :| IsRun(p, p.initial, run) && p.isGoal(EndOf(p.initial, run)) && path == [None] + Somes(Labels(run));
      MazeRunSolves(initial, goal, run);
    }
  }

  /** `depth_first_search` on a maze. */
  method MazeDepthFirst(initial: Maze.MazeGrid, goal: Maze.MazeGrid, counter: NodeCounter)
    returns (path: seq<Option<Direction>>)
    modifies counter
    ensures Maze.IsGoal(initial, goal) ==> path == [None]
    ensures path == [] <==> forall acts :: !Maze.Solves(initial, goal, acts)
    ensures path != [] ==> exists acts :: path == [None] + Somes(acts) && Maze.Solves(initial, goal, acts)
  {
    var p := Maze.MazeProblem(initial, goal);
    Maze.UniverseClosed(initial, goal);
    Maze.SolvableIff(initial, goal);
    ghost var nodes, order, stacks;
    path, nodes, order, stacks := UninformedSearch.DepthFirstSearch(p, Maze.Universe(|initial|, |initial[0]|), counter);
    if path != [] {
      ghost var run :| IsRun(p, p.initial, run) && p.isGoal(EndOf(p.initial, run)) && path == [None] + Somes(Labels(run));
      MazeRunSolves(initial, goal, run);
    }
  }

  /**
   * `a_star` on a maze, guided by the Manhattan estimate of
   * `MazeNavigation.estimated_cost`.  `nodes` and `pops` are the nodes built and
   * the entries taken off the queue: each entry's priority is its parent's path
   * cost plus the estimate of its grid.
   */
  method MazeAStar(initial: Maze.MazeGrid, goal: Maze.MazeGrid, counter: NodeCounter)
    returns (outcome: InformedSearch.Outcome<Maze.MazeGrid, Direction>,
             ghost nodes: seq<Node<Maze.MazeGrid, Direction>>, ghost pops: seq<InformedSearch.Entry>)
    modifies counter
    ensures outcome.AtRoot? <==> Maze.IsGoal(initial, goal)
    ensures outcome.AtRoot? ==> outcome.node.state == initial && outcome.node.parent.None?
    ensures outcome.Actions? ==> (outcome.path == [] <==> forall acts :: !Maze.Solves(initial, goal, acts))
    ensures outcome.Actions? && outcome.path != [] ==>
      exists acts :: outcome.path == Somes(acts) && Maze.Solves(initial, goal, acts)
    ensures forall k :: 0 <= k < |pops| ==>
      pops[k].node < |nodes| && pops[k].priority
        == InformedSearch.BaseCost(nodes, pops[k].node) + Maze.EstimatedCost(nodes[pops[k].node].state, goal)
  {
    var p := Maze.MazeProblem(initial, goal);
    Maze.UniverseClosed(initial, goal);
    Maze.SolvableIff(initial, goal);
    ghost var queues;
    outcome, nodes, pops, queues :=
      InformedSearch.AStarSearch(p, s => Maze.EstimatedCost(s, goal), Maze.Universe(|initial|, |initial[0]|), counter);
    if outcome.Actions? && outcome.path != [] {
      ghost var run :| IsRun(p, p.initial, run) && p.isGoal(EndOf(p.initial, run)) && outcome.path == Somes(Labels(run));
      MazeRunSolves(initial, goal, run);
    }
  }

  /**
   * `greedy` on a maze, guided by the Manhattan estimate alone: each entry
   * taken off the queue has the estimate of its grid as its priority.
   */
  method MazeGreedy(initial: Maze.MazeGrid, goal: Maze.MazeGrid, counter: NodeCounter)
    returns (outcome: InformedSearch.Outcome<Maze.MazeGrid, Direction>,
             ghost nodes: seq<Node<Maze.MazeGrid, Direction>>, ghost pops: seq<InformedSearch.Entry>)
    modifies counter
    ensures outcome.AtRoot? <==> Maze.IsGoal(initial, goal)
    ensures outcome.AtRoot? ==> outcome.node.state == initial && outcome.node.parent.None?
    ensures outcome.Actions? ==> (outcome.path == [] <==> forall acts :: !Maze.Solves(initial, goal, acts))
    ensures outcome.Actions? && outcome.path != [] ==>
      exists acts :: outcome.path == Somes(acts) && Maze.Solves(initial, goal, acts)
    ensures forall k :: 0 <= k < |pops| ==>
      pops[k].node < |nodes| && pops[k].priority == Maze.EstimatedCost(nodes[pops[k].node].state, goal)
  {
    var p := Maze.MazeProblem(initial, goal);
    Maze.UniverseClosed(initial, goal);
    Maze.SolvableIff(initial, goal);
    ghost var queues;
    outcome, nodes, pops, queues :=
      InformedSearch.GreedySearch(p, s => Maze.EstimatedCost(s, goal), Maze.Universe(|initial|, |initial[0]|), counter);
    if outcome.Actions? && outcome.path != [] {
      ghost var run :| IsRun(p, p.initial, run) && p.isGoal(EndOf(p.initial, run)) && outcome.path == Somes(Labels(run));
      MazeRunSolves(initial, goal, run);
    }
  }

  /** `breadth_first_search` on a sliding puzzle: a goal with other tiles than the start gives no path. */
  method PuzzleBreadthFirst(initial: SlidingPuzzle.PuzzleGrid, goal: SlidingPuzzle.PuzzleGrid, counter: NodeCounter)
    returns (path: seq<Option<Direction>>)
    modifies counter
    ensures SlidingPuzzle.IsGoal(initial, goal) ==> path == [None]
    ensures path == [] <==> !GoalReachable(SlidingPuzzle.PuzzleProblem(initial, goal))
    ensures multiset(Flatten(goal)) != multiset(Flatten(initial)) ==> path == []
    ensures path != [] ==> exists run :: IsRun(SlidingPuzzle.PuzzleProblem(initial, goal), initial, run)
                                         && SlidingPuzzle.IsGoal(EndOf(initial, run), goal)
                                         && path == [None] + Somes(Labels(run))
  {
    var p := SlidingPuzzle.PuzzleProblem(initial, goal);
    SlidingPuzzle.UniverseClosed(initial, goal);
    if multiset(Flatten(goal)) != multiset(Flatten(initial)) {
      SlidingPuzzle.OtherTilesUnreachable(initial, goal);
    }
    ghost var nodes, order;
    path, nodes, order := UninformedSearch.BreadthFirstSearch(p, SlidingPuzzle.Universe(initial), counter);
  }
}
