/**
 * The maze navigation domain (`MazeNavigation` in Problem.py).  A state is a
 * rectangular grid whose cells are 0 (impassable), 1 (walkable), -1 (walkable
 * at a cost) and 2 (the agent, in exactly one cell).  A move steps the agent
 * to a neighbouring cell that is not impassable, leaving a walkable cell behind.
 */
module Maze {
  import opened Wrappers
  import opened Grids
  import opened SearchCore

  const Character: int := 2
  const Walkable: int := 1
  const Impassable: int := 0
  const Costly: int := -1

  /** The values a maze cell can hold. */
  const CellValues: set<int> := {Costly, Impassable, Walkable, Character}

  /** A rectangular grid over the maze cell values with the agent in exactly one cell. */
  predicate ValidMaze(g: Grid) {
    Rectangular(g) && CellsIn(g, CellValues) && Count(g, Character) == 1
  }

  type MazeGrid = g: Grid | ValidMaze(g) witness OneCell()

  /** The smallest maze: the agent alone. */
  function OneCell(): (g: Grid)
    ensures ValidMaze(g)
  {
    var g := [[Character]];
    assert g[1..] == [] && g[0][1..] == [];
    assert Rectangular(g);
    assert CountRow(g[0], Character) == 1;
    assert Count(g, Character) == 1;
    assert RowIn(g[0], CellValues);
    assert CellsIn(g, CellValues);
    g
  }

  /** The agent's cell: `(np.where(state == 2)[0][0], np.where(state == 2)[1][0])`. */
  function Agent(g: MazeGrid): (a: Pos)
    ensures Inside(g, a) && g[a.row][a.col] == Character
  {
    CountedIsFound(g, Character);
    Find(g, Character).value
  }

  /** The agent's cell is the only cell of a maze holding 2. */
  lemma AgentUnique(g: MazeGrid, i: nat, j: nat)
    requires i < |g| && j < |g[i]| && g[i][j] == Character
    ensures Pos(i, j) == Agent(g)
  {
    var a := Agent(g);
    if Pos(i, j) != a {
      var s := Set(g, a.row, a.col, Walkable);
      CountSet(g, a.row, a.col, Walkable, Character);
      assert s[i][j] == Character;
      CountAt(s, i, j);
    }
  }

  /** Every cell of a maze holds one of the maze cell values. */
  lemma CellValue(g: MazeGrid, i: nat, j: nat)
    requires i < |g| && j < |g[i]|
    ensures g[i][j] in CellValues
  {
    CellsInAt(g, CellValues, i, j);
  }

  /** The grid `_result` writes: the agent's cell made walkable, then the landing cell made the agent. */
  function Moved(g: MazeGrid, t: Pos): Grid
    requires Inside(g, t)
  {
    var a := Agent(g);
    Set(Set(g, a.row, a.col, Walkable), t.row, t.col, Character)
  }

  /** Moving the agent to any cell gives a maze again, with the agent there. */
  lemma MovedIsMaze(g: MazeGrid, t: Pos)
    requires Inside(g, t)
    ensures ValidMaze(Moved(g, t))
    ensures Find(Moved(g, t), Character) == Some(t)
  {
    var a := Agent(g);
    var s1 := Set(g, a.row, a.col, Walkable);
    var r := Moved(g, t);
    CountSet(g, a.row, a.col, Walkable, Character);
    CountSet(s1, t.row, t.col, Character, Character);
    if t != a {
      if g[t.row][t.col] == Character {
        AgentUnique(g, t.row, t.col);
      }
      assert s1[t.row][t.col] == g[t.row][t.col];
    }
    CellsInSet(g, CellValues, a.row, a.col, Walkable);
    CellsInSet(s1, CellValues, t.row, t.col, Character);
    assert Rectangular(r);
    AgentUnique(r, t.row, t.col);
  }

  /**
   * The agent may step in direction `d`: the neighbouring cell is on the grid
   * and not impassable (the test `_actions` makes for each direction).
   */
  predicate Open(g: MazeGrid, d: Direction) {
    var a := Agent(g);
    StepInside(g, a, d) && g[Step(a, d).0][Step(a, d).1] != Impassable
  }

  /**
   * `_actions`: the moves to a neighbouring cell that is on the grid and not
   * impassable, listed north, east, south, west.
   */
  function Actions(g: MazeGrid): (acts: seq<Direction>)
    ensures forall d :: d in acts <==> Open(g, d)
    ensures Ranked(acts)
  {
    DirectionsRanked();
    Keep(Directions, d => Open(g, d))
  }

  /**
   * `_result`: on a copy of the grid the agent's cell becomes walkable and the
   * cell the move writes to becomes the agent.  Outside `_actions` a step off
   * the top or the left edge writes to the last row or column, as Python's
   * index -1 does; a step off the bottom or the right edge raises an
   * IndexError, which the precondition excludes.
   */
  function Result(g: MazeGrid, d: Direction): (r: MazeGrid)
    requires NoIndexError(g, Agent(g), d)
    ensures SameShape(g, r)
    ensures Agent(r) == Landing(g, Agent(g), d)
  {
    var t := Landing(g, Agent(g), d);
    MovedIsMaze(g, t);
    Moved(g, t)
  }

  /**
   * `_result` changes at most two cells: the agent's old cell becomes walkable
   * unless the agent stays put, and every other cell but the new agent cell
   * keeps its value.
   */
  lemma ResultCells(g: MazeGrid, d: Direction)
    requires NoIndexError(g, Agent(g), d)
    ensures var r, a := Result(g, d), Agent(g);
      && (Agent(r) != a ==> r[a.row][a.col] == Walkable)
      && forall i, j :: 0 <= i < |g| && 0 <= j < |g[i]| && Pos(i, j) != a && Pos(i, j) != Agent(r) ==>
           r[i][j] == g[i][j]
  {
  }

  /** A move of `_actions` never raises an IndexError in `_result`. */
  lemma ActionSafe(g: MazeGrid, d: Direction)
    requires d in Actions(g)
    ensures NoIndexError(g, Agent(g), d)
  {
    assert Open(g, d);
  }

  /**
   * What a move of `_actions` does: the agent ends on the neighbouring cell in
   * that direction, the cell it left is walkable, and the impassable cells are
   * exactly those of the grid before.
   */
  lemma ActionMoves(g: MazeGrid, d: Direction)
    requires d in Actions(g)
    ensures NoIndexError(g, Agent(g), d)
    ensures Agent(Result(g, d)) == Pos(Step(Agent(g), d).0, Step(Agent(g), d).1) != Agent(g)
    ensures Result(g, d)[Agent(g).row][Agent(g).col] == Walkable
    ensures forall i, j :: 0 <= i < |g| && 0 <= j < |g[i]| ==>
      (Result(g, d)[i][j] == Impassable <==> g[i][j] == Impassable)
  {
    StepMoves(g, Agent(g), d);
    ResultCells(g, d);
  }

  /**
   * `_action_cost`: 1 when the cell the agent reaches in `next` is walkable or
   * costly in `curr`, and `None` otherwise.
   */
  function ActionCost(curr: MazeGrid, d: Direction, next: MazeGrid): (cost: Option<nat>)
    requires SameShape(curr, next)
    ensures var t := Agent(next);
      cost.Some? <==> curr[t.row][t.col] == Walkable || curr[t.row][t.col] == Costly
    ensures cost.Some? ==> cost.value == 1
  {
    var t := Agent(next);
    if curr[t.row][t.col] == Costly then Some(1)
    else if curr[t.row][t.col] == Walkable then Some(1)
    else None
  }

  /** Every move of `_actions` costs 1: the cell it enters is neither impassable nor the agent. */
  lemma ActionCostIsOne(g: MazeGrid, d: Direction)
    requires d in Actions(g)
    ensures NoIndexError(g, Agent(g), d) && ActionCost(g, d, Result(g, d)) == Some(1)
  {
    var a := Agent(g);
    assert Open(g, d);
    StepMoves(g, a, d);
    var t := Agent(Result(g, d));
    CellValue(g, t.row, t.col);
    if g[t.row][t.col] == Character {
      AgentUnique(g, t.row, t.col);
    }
  }

  /** The child `expand` makes for action `d`: its result and its `_action_cost`. */
  function MoveFor(g: MazeGrid, d: Direction): (m: Move<MazeGrid, Direction>)
    requires d in Actions(g)
    ensures NoIndexError(g, Agent(g), d) && m == Move(d, Result(g, d), 1)
  {
    ActionSafe(g, d);
    ActionCostIsOne(g, d);
    var next := Result(g, d);
    Move(d, next, ActionCost(g, d, next).value)
  }

  /** `expand`'s moves from state `g`: one per action of `_actions`, in order, each costing 1. */
  function Moves(g: MazeGrid): (ms: seq<Move<MazeGrid, Direction>>)
    ensures |ms| == |Actions(g)|
    ensures forall i :: 0 <= i < |ms| ==>
      && ms[i].action == Actions(g)[i] && ms[i].cost == 1
      && NoIndexError(g, Agent(g), Actions(g)[i]) && ms[i].next == Result(g, Actions(g)[i])
  {
    var acts := Actions(g);
    seq(|acts|, i requires 0 <= i < |acts| => MoveFor(g, acts[i]))
  }

  /** `is_goal`: `np.array_equal` with the goal grid, which holds exactly when the maze is the goal. */
  function IsGoal(current: MazeGrid, goal: MazeGrid): (r: bool)
    ensures r <==> current == goal
  {
    ArrayEqual(current, goal)
  }

  /**
   * `hashable_state`: the grid's bytes.  Among mazes of one shape the key
   * coincides with the state, so keying `reached` by it is exact.
   */
  function HashableState(g: MazeGrid): (key: seq<int>)
    ensures forall b: MazeGrid :: SameShape(b, g) ==> (Flatten(b) == key <==> b == g)
  {
    FlattenKeys(g);
    Flatten(g)
  }

  function Abs(x: int): nat {
    if x < 0 then -x else x
  }

  /**
   * `estimated_cost`: the Manhattan distance between the agent's cell and the
   * goal's agent cell.  It is zero exactly when the agent stands where the goal
   * has it, and in particular at the goal.
   */
  function EstimatedCost(current: MazeGrid, goal: MazeGrid): (h: nat)
    ensures h == 0 <==> Agent(current) == Agent(goal)
    ensures IsGoal(current, goal) ==> h == 0
  {
    Abs(Agent(current).row - Agent(goal).row) + Abs(Agent(current).col - Agent(goal).col)
  }

  /** One move of `_actions` changes the estimate by exactly 1, so the estimate never drops by more than a move costs. */
  lemma EstimateStep(g: MazeGrid, d: Direction, goal: MazeGrid)
    requires d in Actions(g)
    ensures NoIndexError(g, Agent(g), d)
    ensures EstimatedCost(Result(g, d), goal) == EstimatedCost(g, goal) + 1
         || EstimatedCost(Result(g, d), goal) + 1 == EstimatedCost(g, goal)
  {
    ActionMoves(g, d);
  }

  /** The maze as a search problem, from `initial` towards `goal`. */
  function MazeProblem(initial: MazeGrid, goal: MazeGrid): Problem<MazeGrid, Direction> {
    Problem(initial, s => IsGoal(s, goal), Moves)
  }

  /** Replaying actions from `g` with `_result`, as long as each is one of `_actions` there. */
  function Replay(g: MazeGrid, acts: seq<Direction>): Option<MazeGrid>
    decreases |acts|
  {
    if acts == [] then Some(g)
    else match Replay(g, acts[..|acts| - 1])
      case None => None
      case Some(h) =>
        var d := acts[|acts| - 1];
        if d in Actions(h) then
          ActionSafe(h, d);
          Some(Result(h, d))
        else None
  }

  /** Each child `expand` makes is the `_result` of one of the actions. */
  lemma MoveIsResult(g: MazeGrid, m: Move<MazeGrid, Direction>)
    requires m in Moves(g)
    ensures m.action in Actions(g) && NoIndexError(g, Agent(g), m.action)
    ensures m.next == Result(g, m.action)
  {
    var k :| 0 <= k < |Moves(g)| && Moves(g)[k] == m;
    assert Actions(g)[k] == m.action;
  }

  /** Replaying one more action that `_actions` offers at the end applies `_result` once more. */
  lemma ReplaySnoc(g: MazeGrid, acts: seq<Direction>, d: Direction)
    requires Replay(g, acts).Some? && d in Actions(Replay(g, acts).value)
    ensures Replay(g, acts + [d]) == Some(Result(Replay(g, acts).value, d))
  {
    assert (acts + [d])[..|acts|] == acts;
  }

  /** Every run of the maze problem replays, action by action, to the state it ends in. */
  lemma {:induction false} RunReplays(initial: MazeGrid, goal: MazeGrid, s: MazeGrid, run: seq<Move<MazeGrid, Direction>>)
    requires IsRun(MazeProblem(initial, goal), s, run)
    ensures Replay(s, Labels(run)) == Some(EndOf(s, run))
    decreases |run|
  {
    if run != [] {
      var p := MazeProblem(initial, goal);
      var init, last := run[..|run| - 1], run[|run| - 1];
      RunReplays(initial, goal, s, init);
      var h := EndOf(s, init);
      assert p.successors(h) == Moves(h);
      MoveIsResult(h, last);
      assert Labels(run)[..|run| - 1] == Labels(init);
    }
  }

  /** The child `MoveFor` builds is one of the moves `expand` makes. */
  lemma MoveForIsMove(g: MazeGrid, d: Direction)
    requires d in Actions(g)
    ensures MoveFor(g, d) in Moves(g)
  {
    var k :| 0 <= k < |Actions(g)| && Actions(g)[k] == d;
    assert Moves(g)[k] == MoveFor(g, d);
  }

  /** The moves that replaying `acts` from `s` makes, one child of `expand` per action. */
  function ReplayRun(s: MazeGrid, acts: seq<Direction>): (run: seq<Move<MazeGrid, Direction>>)
    requires Replay(s, acts).Some?
    ensures EndOf(s, run) == Replay(s, acts).value
    decreases |acts|
  {
    if acts == [] then []
    else
      var run0 := ReplayRun(s, acts[..|acts| - 1]);
      run0 + [MoveFor(EndOf(s, run0), acts[|acts| - 1])]
  }

  /** Every sequence of actions that replays is the label sequence of a run ending where the replay does. */
  lemma {:induction false} ReplayGivesRun(initial: MazeGrid, goal: MazeGrid, s: MazeGrid, acts: seq<Direction>)
    requires Replay(s, acts).Some?
    ensures IsRun(MazeProblem(initial, goal), s, ReplayRun(s, acts)) && Labels(ReplayRun(s, acts)) == acts
    decreases |acts|
  {
    if acts != [] {
      var init, d := acts[..|acts| - 1], acts[|acts| - 1];
      ReplayGivesRun(initial, goal, s, init);
      var p, run0 := MazeProblem(initial, goal), ReplayRun(s, init);
      MoveForIsMove(EndOf(s, run0), d);
      assert p.successors(EndOf(s, run0)) == Moves(EndOf(s, run0));
      RunSnoc(p, s, run0, MoveFor(EndOf(s, run0), d));
      FrontLast(acts);
    }
  }

  /** Replaying `acts` from `initial` with `_result` ends on a maze equal to `goal`. */
  predicate Solves(initial: MazeGrid, goal: MazeGrid, acts: seq<Direction>) {
    var e := Replay(initial, acts);
    e.Some? && IsGoal(e.value, goal)
  }

  /** The goal is reachable exactly when some sequence of actions replays from the start to it. */
  lemma SolvableIff(initial: MazeGrid, goal: MazeGrid)
    ensures GoalReachable(MazeProblem(initial, goal)) <==> exists acts :: Solves(initial, goal, acts)
  {
    var p := MazeProblem(initial, goal);
    if GoalReachable(p) {
      var run :| IsRun(p, p.initial, run) && p.isGoal(EndOf(p.initial, run));
      RunReplays(initial, goal, initial, run);
      assert Solves(initial, goal, Labels(run));
    }
    if acts :| Solves(initial, goal, acts) {
      ReplayGivesRun(initial, goal, initial, acts);
      var run := ReplayRun(initial, acts);
      assert p.isGoal(EndOf(p.initial, run));
    }
  }

  /** All mazes of the given shape. */
  ghost function Universe(height: nat, width: nat): set<MazeGrid> {
    set g: MazeGrid | g in AllGrids(height, width, CellValues)
  }

  /** The mazes of the initial maze's shape hold the initial maze and every result of a move. */
  lemma UniverseClosed(initial: MazeGrid, goal: MazeGrid)
    ensures initial in Universe(|initial|, |initial[0]|)
    ensures Closed(MazeProblem(initial, goal), Universe(|initial|, |initial[0]|))
  {
    var height, width := |initial|, |initial[0]|;
    var u := Universe(height, width);
    InGrids(initial, width, CellValues);
    forall s, i | s in u && 0 <= i < |Moves(s)| ensures Moves(s)[i].next in u {
      GridsShape(s, height, width, CellValues);
      var next := Result(s, Actions(s)[i]);
      InGrids(next, width, CellValues);
    }
  }
}
