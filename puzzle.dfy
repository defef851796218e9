/**
 * The sliding-tile domain (`SlidingPuzzle` in Problem.py).  A state is a
 * rectangular grid of tiles with a blank, 0; a move slides the tile next to
 * the blank into it, so the blank and that tile swap places.
 */
module SlidingPuzzle {
  import opened Wrappers
  import opened Grids
  import opened SearchCore

  const Blank: int := 0

  /** A rectangular grid with at least one blank, so that `np.where(state == 0)` finds one. */
  predicate ValidPuzzle(g: Grid) {
    Rectangular(g) && Find(g, Blank).Some?
  }

  type PuzzleGrid = g: Grid | ValidPuzzle(g) witness OneTile()

  /** The smallest puzzle: the blank alone. */
  function OneTile(): (g: Grid)
    ensures ValidPuzzle(g)
  {
    var g := [[Blank]];
    FindIsFirst(g, Blank, 0, 0);
    g
  }

  /** The blank's cell: the first 0 in row-major order. */
  function BlankAt(g: PuzzleGrid): (b: Pos)
    ensures Inside(g, b) && g[b.row][b.col] == Blank
    ensures forall i, j :: 0 <= i < |g| && 0 <= j < |g[i]| && g[i][j] == Blank ==> NotAfter(b, Pos(i, j))
  {
    var b := Find(g, Blank).value;
    forall i, j | 0 <= i < |g| && 0 <= j < |g[i]| && g[i][j] == Blank ensures NotAfter(b, Pos(i, j)) {
      FindIsFirst(g, Blank, i, j);
    }
    b
  }

  /**
   * `_actions`: the directions in which the neighbour of the blank is on the
   * grid, listed north, east, south, west.  The tiles themselves are not looked at.
   */
  function Actions(g: PuzzleGrid): (acts: seq<Direction>)
    ensures forall d :: d in acts <==> StepInside(g, BlankAt(g), d)
    ensures Ranked(acts)
  {
    DirectionsRanked();
    Keep(Directions, d => StepInside(g, BlankAt(g), d))
  }

  /** A move of `_actions` never raises an IndexError in `_result`, and takes the blank off its cell. */
  lemma ActionSafe(g: PuzzleGrid, d: Direction)
    requires d in Actions(g)
    ensures NoIndexError(g, BlankAt(g), d)
    ensures Landing(g, BlankAt(g), d) == Pos(Step(BlankAt(g), d).0, Step(BlankAt(g), d).1) != BlankAt(g)
  {
    StepMoves(g, BlankAt(g), d);
  }

  /** The grid `_result` writes: the tile at `t` copied onto the blank, then 0 written at `t`. */
  function Swapped(g: PuzzleGrid, t: Pos): Grid
    requires Inside(g, t)
  {
    var b := BlankAt(g);
    Set(Set(g, b.row, b.col, g[t.row][t.col]), t.row, t.col, Blank)
  }

  /** Swapping the blank with any cell keeps the shape and the multiset of tiles, and leaves a blank at that cell. */
  lemma SwappedIsPuzzle(g: PuzzleGrid, t: Pos)
    requires Inside(g, t)
    ensures var r := Swapped(g, t);
      && SameShape(g, r) && Rectangular(r)
      && r[t.row][t.col] == Blank
      && multiset(Flatten(r)) == multiset(Flatten(g))
      && ValidPuzzle(r)
  {
    var b := BlankAt(g);
    var v := g[t.row][t.col];
    var s1 := Set(g, b.row, b.col, v);
    var r := Swapped(g, t);
    SwapKeepsCells(g, b, t);
    assert s1[t.row][t.col] == v;
    assert Rectangular(r);
    FindIsFirst(r, Blank, t.row, t.col);
  }

  /**
   * `_result`: the blank and the tile in direction `d` trade places, where a
   * step to row or column -1 addresses the last one as numpy indexing does.
   */
  function Result(g: PuzzleGrid, d: Direction): (r: PuzzleGrid)
    requires NoIndexError(g, BlankAt(g), d)
    ensures SameShape(g, r)
    ensures multiset(Flatten(r)) == multiset(Flatten(g))
  {
    var t := Landing(g, BlankAt(g), d);
    SwappedIsPuzzle(g, t);
    Swapped(g, t)
  }

  /**
   * What `_result` does cell by cell: the landing cell becomes the blank, the
   * blank's cell takes the tile that was there, and no other cell changes.
   */
  lemma ResultCells(g: PuzzleGrid, d: Direction)
    requires NoIndexError(g, BlankAt(g), d)
    ensures var r, b, t := Result(g, d), BlankAt(g), Landing(g, BlankAt(g), d);
      && r[t.row][t.col] == Blank
      && r[b.row][b.col] == g[t.row][t.col]
      && forall i, j :: 0 <= i < |g| && 0 <= j < |g[i]| && Pos(i, j) != b && Pos(i, j) != t ==>
           r[i][j] == g[i][j]
  {
  }

  /** `_action_cost`: every slide costs 1. */
  function ActionCost(current: PuzzleGrid, d: Direction, next: PuzzleGrid): nat {
    1
  }

  /** The child `expand` makes for action `d`: its result and its `_action_cost`. */
  function MoveFor(g: PuzzleGrid, d: Direction): (m: Move<PuzzleGrid, Direction>)
    requires d in Actions(g)
    ensures NoIndexError(g, BlankAt(g), d) && m == Move(d, Result(g, d), 1)
  {
    ActionSafe(g, d);
    var next := Result(g, d);
    Move(d, next, ActionCost(g, d, next))
  }

  /** `expand`'s moves from state `g`: one per action of `_actions`, in order, each costing 1. */
  function Moves(g: PuzzleGrid): (ms: seq<Move<PuzzleGrid, Direction>>)
    ensures |ms| == |Actions(g)|
    ensures forall i :: 0 <= i < |ms| ==>
      && ms[i].action == Actions(g)[i] && ms[i].cost == 1
      && NoIndexError(g, BlankAt(g), Actions(g)[i]) && ms[i].next == Result(g, Actions(g)[i])
  {
    var acts := Actions(g);
    seq(|acts|, i requires 0 <= i < |acts| => MoveFor(g, acts[i]))
  }

  /** `is_goal`: `np.array_equal` with the goal, which holds exactly when the puzzle is the goal. */
  function IsGoal(current: PuzzleGrid, goal: PuzzleGrid): (r: bool)
    ensures r <==> current == goal
  {
    ArrayEqual(current, goal)
  }

  /**
   * `hashable_state`: the row-major bytes of the grid.  Among puzzles of one
   * shape the key coincides with the state.
   */
  function HashableState(g: PuzzleGrid): (key: seq<int>)
    ensures forall b: PuzzleGrid :: SameShape(b, g) ==> (Flatten(b) == key <==> b == g)
  {
    FlattenKeys(g);
    Flatten(g)
  }

  /** The puzzle as a search problem, from `initial` towards `goal`. */
  function PuzzleProblem(initial: PuzzleGrid, goal: PuzzleGrid): Problem<PuzzleGrid, Direction> {
    Problem(initial, s => IsGoal(s, goal), Moves)
  }

  /** `_action_cost` is 1 for every slide, so a run's cost is its number of slides. */
  lemma SlidesCostOne(initial: PuzzleGrid, goal: PuzzleGrid, s: PuzzleGrid, run: seq<Move<PuzzleGrid, Direction>>)
    requires IsRun(PuzzleProblem(initial, goal), s, run)
    ensures CostOf(run) == |run|
  {
    var p := PuzzleProblem(initial, goal);
    forall g, m | m in p.successors(g) ensures m.cost == 1 {
      var k :| 0 <= k < |Moves(g)| && Moves(g)[k] == m;
    }
    UnitCostRuns(p, s, run);
  }

  /** Each child `expand` makes is the `_result` of one of the actions. */
  lemma MoveIsResult(g: PuzzleGrid, m: Move<PuzzleGrid, Direction>)
    requires m in Moves(g)
    ensures m.action in Actions(g) && NoIndexError(g, BlankAt(g), m.action)
    ensures m.next == Result(g, m.action)
  {
    var k :| 0 <= k < |Moves(g)| && Moves(g)[k] == m;
    assert Actions(g)[k] == m.action;
  }

  /** Sliding never changes the tiles: every state a run reaches holds the tiles of its start. */
  lemma {:induction false} RunKeepsTiles(initial: PuzzleGrid, goal: PuzzleGrid, s: PuzzleGrid, run: seq<Move<PuzzleGrid, Direction>>)
    requires IsRun(PuzzleProblem(initial, goal), s, run)
    ensures multiset(Flatten(EndOf(s, run))) == multiset(Flatten(s))
    ensures SameShape(EndOf(s, run), s)
    decreases |run|
  {
    if run != [] {
      var p := PuzzleProblem(initial, goal);
      var init, last := run[..|run| - 1], run[|run| - 1];
      RunKeepsTiles(initial, goal, s, init);
      var h := EndOf(s, init);
      assert p.successors(h) == Moves(h);
      MoveIsResult(h, last);
    }
  }

  /** A goal with other tiles than the start is never reachable. */
  lemma OtherTilesUnreachable(initial: PuzzleGrid, goal: PuzzleGrid)
    requires multiset(Flatten(goal)) != multiset(Flatten(initial))
    ensures !GoalReachable(PuzzleProblem(initial, goal))
  {
    var p := PuzzleProblem(initial, goal);
    if GoalReachable(p) {
      var run :| IsRun(p, p.initial, run) && p.isGoal(EndOf(p.initial, run));
      RunKeepsTiles(initial, goal, initial, run);
    }
  }

  /** The values a cell of a puzzle that starts from `initial` can hold. */
  ghost function TileValues(initial: PuzzleGrid): set<int> {
    (set x | x in Flatten(initial)) + {Blank}
  }

  /** All puzzles of the initial puzzle's shape over its tiles. */
  ghost function Universe(initial: PuzzleGrid): set<PuzzleGrid> {
    set g: PuzzleGrid | g in AllGrids(|initial|, |initial[0]|, TileValues(initial))
  }

  /** The puzzles of the initial shape over its tiles hold the initial puzzle and every result of a move. */
  lemma UniverseClosed(initial: PuzzleGrid, goal: PuzzleGrid)
    ensures initial in Universe(initial)
    ensures Closed(PuzzleProblem(initial, goal), Universe(initial))
  {
    var height, width, vals := |initial|, |initial[0]|, TileValues(initial);
    var u := Universe(initial);
    CellsInOf(initial, vals);
    InGrids(initial, width, vals);
    forall s, i | s in u && 0 <= i < |Moves(s)| ensures Moves(s)[i].next in u {
      GridsShape(s, height, width, vals);
      var d := Actions(s)[i];
      var b, t := BlankAt(s), Landing(s, BlankAt(s), d);
      CellsInAt(s, vals, t.row, t.col);
      var s1 := Set(s, b.row, b.col, s[t.row][t.col]);
      CellsInSet(s, vals, b.row, b.col, s[t.row][t.col]);
      CellsInSet(s1, vals, t.row, t.col, Blank);
      var next := Result(s, d);
      InGrids(next, width, vals);
    }
  }
}
