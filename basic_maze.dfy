/**
 * The `basic_maze` fixture of mazes.py: a 3 by 3 maze whose agent starts in
 * the top-left corner and must reach the bottom-right one.  The route east,
 * south, south, east solves it, so every search over it finds a path.
 */
module BasicMaze {
  import opened Wrappers
  import opened Grids
  import opened SearchCore
  import Maze
  import DomainSearch

  /** The counts and cell values of a row of three cells. */
  lemma ThreeCells(row: seq<int>)
    requires |row| == 3
    ensures CountRow(row, Maze.Character)
         == (if row[0] == Maze.Character then 1 else 0) + (if row[1] == Maze.Character then 1 else 0)
          + (if row[2] == Maze.Character then 1 else 0)
    ensures row[0] in Maze.CellValues && row[1] in Maze.CellValues && row[2] in Maze.CellValues ==>
      RowIn(row, Maze.CellValues)
  {
    var tail := row[1..][1..];
    assert tail == [row[2]] && tail[1..] == [];
    assert CountRow(tail, Maze.Character) == (if row[2] == Maze.Character then 1 else 0);
    assert row[2] in Maze.CellValues ==> RowIn(tail, Maze.CellValues);
  }

  /** A grid of three rows of three maze cell values with one agent is a maze. */
  lemma ThreeRows(g: Grid)
    requires |g| == 3 && |g[0]| == 3 && |g[1]| == 3 && |g[2]| == 3
    requires forall i, j :: 0 <= i < 3 && 0 <= j < 3 ==> g[i][j] in Maze.CellValues
    requires CountRow(g[0], Maze.Character) + CountRow(g[1], Maze.Character) + CountRow(g[2], Maze.Character) == 1
    ensures Maze.ValidMaze(g)
  {
    var tail := g[1..][1..];
    assert tail == [g[2]] && tail[1..] == [];
    ThreeCells(g[0]);
    ThreeCells(g[1]);
    ThreeCells(g[2]);
    assert Count(tail, Maze.Character) == CountRow(g[2], Maze.Character);
    assert CellsIn(tail, Maze.CellValues);
    assert Rectangular(g);
  }

  /** `basic_maze`'s start. */
  function Start(): (g: Grid)
    ensures Maze.ValidMaze(g)
  {
    var g := [[2, 1, 0], [0, 1, 0], [0, 1, 1]];
    ThreeCells(g[0]);
    ThreeCells(g[1]);
    ThreeCells(g[2]);
    ThreeRows(g);
    g
  }

  /** The maze after the first move east. */
  function First(): (g: Grid)
    ensures Maze.ValidMaze(g)
  {
    var g := [[1, 2, 0], [0, 1, 0], [0, 1, 1]];
    ThreeCells(g[0]);
    ThreeCells(g[1]);
    ThreeCells(g[2]);
    ThreeRows(g);
    g
  }

  /** The maze after east, south. */
  function Second(): (g: Grid)
    ensures Maze.ValidMaze(g)
  {
    var g := [[1, 1, 0], [0, 2, 0], [0, 1, 1]];
    ThreeCells(g[0]);
    ThreeCells(g[1]);
    ThreeCells(g[2]);
    ThreeRows(g);
    g
  }

  /** The maze after east, south, south. */
  function Third(): (g: Grid)
    ensures Maze.ValidMaze(g)
  {
    var g := [[1, 1, 0], [0, 1, 0], [0, 2, 1]];
    ThreeCells(g[0]);
    ThreeCells(g[1]);
    ThreeCells(g[2]);
    ThreeRows(g);
    g
  }

  /** `basic_maze`'s goal: the agent in the bottom-right corner. */
  function Goal(): (g: Grid)
    ensures Maze.ValidMaze(g)
  {
    var g := [[1, 1, 0], [0, 1, 0], [0, 1, 2]];
    ThreeCells(g[0]);
    ThreeCells(g[1]);
    ThreeCells(g[2]);
    ThreeRows(g);
    g
  }

  /** The agent at cell (`i`, `j`) may step in direction `d` onto a cell that is not impassable, and lands there. */
  lemma MoveTo(g: Maze.MazeGrid, i: nat, j: nat, d: Direction)
    requires i < |g| && j < |g[i]| && g[i][j] == Maze.Character
    requires StepInside(g, Pos(i, j), d)
    requires g[Step(Pos(i, j), d).0][Step(Pos(i, j), d).1] != Maze.Impassable
    ensures d in Maze.Actions(g)
    ensures Maze.Result(g, d) == Set(Set(g, i, j, Maze.Walkable), Step(Pos(i, j), d).0, Step(Pos(i, j), d).1, Maze.Character)
  {
    Maze.AgentUnique(g, i, j);
    assert Maze.Open(g, d);
  }

  lemma FirstWritten()
    ensures Set(Set(Start(), 0, 0, Maze.Walkable), 0, 1, Maze.Character) == First()
  {
    var r := Set(Set(Start(), 0, 0, Maze.Walkable), 0, 1, Maze.Character);
    assert r[0] == First()[0];
  }

  lemma FirstMove()
    ensures East in Maze.Actions(Start()) && Maze.Result(Start(), East) == First()
  {
    MoveTo(Start(), 0, 0, East);
    FirstWritten();
  }

  lemma SecondWritten()
    ensures Set(Set(First(), 0, 1, Maze.Walkable), 1, 1, Maze.Character) == Second()
  {
    var r := Set(Set(First(), 0, 1, Maze.Walkable), 1, 1, Maze.Character);
    assert r[0] == Second()[0] && r[1] == Second()[1];
  }

  lemma SecondMove()
    ensures South in Maze.Actions(First()) && Maze.Result(First(), South) == Second()
  {
    MoveTo(First(), 0, 1, South);
    SecondWritten();
  }

  lemma ThirdWritten()
    ensures Set(Set(Second(), 1, 1, Maze.Walkable), 2, 1, Maze.Character) == Third()
  {
    var r := Set(Set(Second(), 1, 1, Maze.Walkable), 2, 1, Maze.Character);
    assert r[1] == Third()[1] && r[2] == Third()[2];
  }

  lemma ThirdMove()
    ensures South in Maze.Actions(Second()) && Maze.Result(Second(), South) == Third()
  {
    MoveTo(Second(), 1, 1, South);
    ThirdWritten();
  }

  lemma LastWritten()
    ensures Set(Set(Third(), 2, 1, Maze.Walkable), 2, 2, Maze.Character) == Goal()
  {
    var r := Set(Set(Third(), 2, 1, Maze.Walkable), 2, 2, Maze.Character);
    assert r[2] == Goal()[2];
  }

  lemma LastMove()
    ensures East in Maze.Actions(Third()) && Maze.Result(Third(), East) == Goal()
  {
    MoveTo(Third(), 2, 1, East);
    LastWritten();
  }

  lemma ReplayFirst()
    ensures Maze.Replay(Start(), [] + [East]) == Some(First())
  {
    FirstMove();
    Maze.ReplaySnoc(Start(), [], East);
  }

  lemma ReplaySecond()
    ensures Maze.Replay(Start(), [] + [East] + [South]) == Some(Second())
  {
    ReplayFirst();
    SecondMove();
    Maze.ReplaySnoc(Start(), [] + [East], South);
  }

  lemma ReplayThird()
    ensures Maze.Replay(Start(), [] + [East] + [South] + [South]) == Some(Third())
  {
    ReplaySecond();
    ThirdMove();
    Maze.ReplaySnoc(Start(), [] + [East] + [South], South);
  }

  /** East, south, south, east replays from the start of `basic_maze` to its goal. */
  lemma RouteSolves()
    ensures Maze.Solves(Start(), Goal(), [East, South, South, East])
  {
    ReplayThird();
    LastMove();
    Maze.ReplaySnoc(Start(), [] + [East] + [South] + [South], East);
    RouteSteps();
    assert Maze.IsGoal(Goal(), Goal());
  }

  /** The route, one action at a time. */
  lemma RouteSteps()
    ensures [] + [East] + [South] + [South] + [East] == [East, South, South, East]
  {
  }

  /** Breadth-first search over `basic_maze` finds a path, which starts with the root's `None`. */
  method SolveBreadthFirst(counter: NodeCounter) returns (path: seq<Option<Direction>>)
    modifies counter
    ensures path != [] && path[0] == None
    ensures exists acts :: path == [None] + Somes(acts) && Maze.Solves(Start(), Goal(), acts)
  {
    RouteSolves();
    path := DomainSearch.MazeBreadthFirst(Start(), Goal(), counter);
  }
}
