# bidirectional_search

This project models, in Dafny, the searches of the `bidirectional_search`
repository and the problems they run on.

The searches:

- **Breadth-first and depth-first graph search** (UninformedSearch.py).
  - Both goal-test the initial state, and then every child as it is generated.
  - `reached` is a first-come map from a state to the first node built for it.
  - Breadth-first search takes nodes from a FIFO queue; depth-first search from a list used as a stack.
- **A\* and greedy best-first search** (InformedSearch.py).
  - Both use a priority queue of `(priority, entry, node)` tuples, so equal priorities leave in the order they were put.
  - A node is goal-tested when it is taken off the queue.
  - A child replaces the node recorded for its state only when its path cost is strictly lower.
  - Greedy search queues a child at the estimate of its state. A\* queues it at the estimate plus the path cost of the node being expanded (not the child's own cost).

The domains:

- **Maze navigation** (`MazeNavigation` in Problem.py). A grid of walls (0), floor (1), costly floor (-1) and one agent (2).
- **Sliding-tile puzzle** (`SlidingPuzzle` in Problem.py). A grid of tiles with a blank (0).

## How the model is built

**Problems.** A problem is a value: an initial state, a goal test, and for each
state the moves `expand` produces from it, in order. A move carries the action,
the next state and the cost. Every domain's `expand` does the same thing, so it
is modelled once, as a method over that value (`SearchCore.Expand`).

**Nodes and the counter.** Nodes live in an arena, a sequence in creation order,
and a node names its parent by arena index. The class-level counter `Node.count`
is a class with one field; every node construction increments it.

**Search loops.** The loops are methods with loop invariants. Their
specification is the problem's graph:

- a **run** is a sequence of moves, each one offered by `expand` at the state the previous ones reached;
- a goal is **reachable** when some run from the initial state ends on a goal state.

Each search returns `[]` exactly when no goal is reachable. Otherwise it
returns the labels of a run that ends on a goal.

**Frontier histories.** Depth-first search and the two best-first searches
also return, as ghost values, the frontier before each expansion. Each turn
of that history takes the stack's top or a least queue entry. What follows
is the rest with entries for children of the node taken, and nothing else.
For A\* and greedy search every queue entry in that history carries the
strategy's priority, so the two contracts differ exactly in that priority.
Entries put in a turn are numbered above every entry already queued, and
every queue lists its entries in the order they were put. So of two entries
with the same priority, the one put later is never taken first
(`TiesInPutOrder`): ties leave the queue first in, first out.

**Termination and completeness.** Both are proved over a finite set of states
closed under moves: all grids of the start's shape over the domain's cell
values. This set is ghost and plays no part in the computation.

**Grids.** A numpy grid is a `seq<seq<int>>`. Python's negative indexing is
written out (`Grids.Wrap`, `Grids.Landing`), and so is the `IndexError` an
index one past the end raises (`Grids.NoIndexError`).

**Where the code and its own descriptions differ, the model follows the code:**

- On an initial goal, `breadth_first_search` and `depth_first_search` return `[None]`, not an empty path.
- On an initial goal, `a_star` and `greedy` return the root `Node` itself rather than a list. `InformedSearch.Outcome` keeps the two kinds of answer apart.
- `a_star`'s priority for a child uses the parent's path cost, as the code writes it.
- The two `get_path` functions differ:
  - the uninformed one collects the root's `None`;
  - the informed one stops at the root.
- `_action_cost` in the maze falls off its `if` and returns `None` when the target cell is neither floor nor costly floor. `Maze.ActionCost` returns an `Option`. Moves offered by `_actions` never reach that case (`Maze.ActionCostIsOne`).

## Model

| member | source | states |
|---|---|---|
| SearchCore.NodeCounter.constructor | Problem.py:12 | the counter starts at 0 |
| SearchCore.NodeCounter.Make | Problem.py:14-23 | a new node stores exactly its arguments and takes the counter's current value as its id; the counter goes up by one |
| SearchCore.Expand | Problem.py:190-203 | one child per move, in the moves' order; each child points at the parent, carries the move's action, the parent's cost plus the move's cost and one more level of depth; ids are consecutive |
| SearchCore.TreeGrows | Problem.py:190-203 | appending the children of an arena node keeps every node a child of its parent by one of the parent's moves |
| SearchCore.RunToIsRun | Problem.py:14-23 | following the parent links from any arena node gives a run from the initial state that ends on the node's state, whose total cost is the node's path cost and whose length is its depth; the run's labels are the node's path, with or without the root's `None` |
| SearchCore.RunSnoc | Problem.py:190-203 | a run extended by a move offered at its end is a run ending at that move's state, with the label and cost appended |
| SearchCore.UnitCostRuns | Problem.py:190-203 | where every move a problem offers costs 1, the cost of a run is its number of moves |
| SearchCore.PathToShape | UninformedSearch.py:5-16 | the uninformed path has length depth + 1, starts with the root's `None`, and every later entry is an action |
| SearchCore.PathBelowRootShape | InformedSearch.py:7-18 | the informed path has length depth and every entry is an action |
| SearchCore.ClosedHoldsRuns | UninformedSearch.py:35-49 | a run from a state of a closed set of states never leaves it |
| SearchCore.AllSettledNoGoal | UninformedSearch.py:49 | if the initial state is reached and every reached state has all its successors reached and is not a goal, then no goal is reachable |
| SearchCore.NodeWitnessesRun | UninformedSearch.py:40-42 | an arena node on a goal state means a goal is reachable |
| SearchCore.ChildrenCoverMoves | UninformedSearch.py:38-47 | once every child of an expanded node has been visited, every successor state of that node is reached |
| SearchCore.UnreachedShrinks | UninformedSearch.py:45-47 | recording a new state strictly shrinks the unreached part of the finite universe |
| SearchCore.IncreasingDistinct | UninformedSearch.py:35-47 | strictly increasing arena indices are pairwise distinct |
| UninformedSearch.GetPath | UninformedSearch.py:5-16 | the path is the actions along the parent links from the node up to and including the root, reversed, so the root's `None` comes first |
| UninformedSearch.Visit | UninformedSearch.py:39-47 | a child that is not a goal is recorded in `reached` and pushed at the back exactly when its state is not yet reached; otherwise nothing changes; the bookkeeping is kept |
| UninformedSearch.VisitChildren | UninformedSearch.py:38-47 | the children are visited in order and the goal reported is the first goal child: no child before it is a goal; without a goal every child's state is reached and none is a goal; `reached` only grows, the pushed children are exactly the new states, in index order, and the frontier is the old one plus the pushed children |
| UninformedSearch.Pop | UninformedSearch.py:36 | the popped index is the node recorded for its state, and the bookkeeping holds with that state open |
| UninformedSearch.Round | UninformedSearch.py:36-47 | the node taken is the frontier's first (FIFO) or last (LIFO); the new frontier is the rest plus the pushed children; the arena grows by the children, all one level deeper; a goal reported is a child of the node taken and no node built before it is a goal; with no goal, every node's state is reached, the node recorded for every reached state is on the frontier or expanded, and the unreached states or the frontier shrink |
| UninformedSearch.ExpandedStatesDistinct | UninformedSearch.py:44-47 | no state is expanded twice |
| UninformedSearch.DepthsSorted | UninformedSearch.py:31-36 | in an expansion order whose depths step up to at most the current level, any node expanded earlier is no deeper than one expanded later |
| UninformedSearch.FifoStep | UninformedSearch.py:31-47 | taking the front of a FIFO queue whose entries, after the expanded ones, are in creation order, and appending newer children, keeps the expanded nodes followed by the queue in creation order |
| UninformedSearch.ExhaustedExpanded | UninformedSearch.py:35-49 | when the queue runs dry without a goal, no node built is on a goal state and every node's state is the state of an expanded node |
| UninformedSearch.QueueRound | UninformedSearch.py:35-47 | one FIFO round: the node taken is the queue's front and is appended to the expansion order; the queue becomes the rest plus the pushed children; a goal reported is the first goal built and a child of the node taken; with no goal the expanded-then-queued nodes stay in creation order and every reached state's node is queued or expanded |
| UninformedSearch.BreadthRound | UninformedSearch.py:35-47 | one round of breadth-first search: the expansion order grows by the queue's front; expanded depths never decrease; expanded node indices strictly increase; a goal reported is the first goal built and a child of the last node expanded |
| UninformedSearch.DepthRound | UninformedSearch.py:68-80 | one round of depth-first search: the node taken is the stack's top (its last entry); the stack becomes the rest with the pushed children of that node on top; the history of the stack grows by the new stack; a goal reported is the first goal built and a child of the last node expanded; with no goal every reached state's node is on the stack or expanded |
| UninformedSearch.LifoStep | UninformedSearch.py:69-80 | a depth-first round on the stack takes the top and pushes only children of that node, so the history of the stack grows by one last-in-first-out turn |
| UninformedSearch.StacksGrow | UninformedSearch.py:69-80 | growing the arena keeps the history of the stack |
| UninformedSearch.BreadthLoop | UninformedSearch.py:35-49 | the FIFO loop ends either with the first goal built, a child of the last node expanded, or with an empty queue, every reached state expanded and the bookkeeping intact; every non-root node's parent was expanded; expanded depths never decrease and nodes are expanded in creation order |
| UninformedSearch.DepthLoop | UninformedSearch.py:65-82 | the LIFO loop ends either with the first goal built, a child of the last node expanded, or with an empty stack, every reached state expanded and the bookkeeping intact; every non-root node's parent was expanded; the stack starts as the root and each expansion takes the top of the stack of its time, leaving the rest with children of that node pushed on top |
| UninformedSearch.Finish | UninformedSearch.py:42-49 | a goal found gives the path to it; a non-empty answer is the path to the first goal node built, a child of the last node expanded; `[]` means no node built is a goal and every node's state was expanded, and holds exactly when no goal is reachable; otherwise the answer is the labels of a run to a goal behind the root's `None` |
| UninformedSearch.BreadthFirstSearch | UninformedSearch.py:19-49 | an initial goal gives `[None]` after one node; `[]` exactly when no goal is reachable, and then every node's state was expanded and none is a goal; otherwise the path to the first goal node built, a child of the last node expanded, which is `[None]` followed by the actions of a run from the initial state to a goal; every non-root node's parent was expanded; no state is expanded twice; nodes are expanded in creation order with depths that never decrease; node ids run on from the counter |
| UninformedSearch.DepthFirstSearch | UninformedSearch.py:53-82 | an initial goal gives `[None]` after one node; `[]` exactly when no goal is reachable, and then every node's state was expanded and none is a goal; otherwise the path to the first goal node built, a child of the last node expanded, which is `[None]` followed by the actions of a run from the initial state to a goal; every non-root node's parent was expanded; no state is expanded twice; the stack starts as the root and every expansion takes the top of the stack of its time, the rest keeping its order under the children pushed; node ids run on from the counter |
| InformedSearch.GetPath | InformedSearch.py:7-18 | the path is the actions along the parent links from the node up to the root, excluding the root, reversed |
| InformedSearch.Priority | InformedSearch.py:32-75 | the priority of `frontier.put` (lines 32, 45, 62 and 75): under A\* the parent's path cost plus the estimate of the child's state, under greedy search the estimate alone; it equals the estimate exactly for greedy search or a zero-cost parent |
| InformedSearch.PopMin | InformedSearch.py:36 | `frontier.get()` takes an entry that no other entry precedes in the (priority, entry) tuple order |
| InformedSearch.OrderedRemove | InformedSearch.py:36 | taking any entry out of the queue leaves the others in the order they were put |
| InformedSearch.OrderedPut | InformedSearch.py:45-46 | putting an entry with the next entry number keeps the queue in the order entries were put |
| InformedSearch.LeastIsFirstPut | InformedSearch.py:32-36 | in a queue kept in the order entries were put, the entry taken precedes every other one, and among entries of its priority it is the one put first |
| InformedSearch.TotalLower | InformedSearch.py:43-44 | replacing a recorded cost by a strictly lower one strictly lowers the sum of recorded costs |
| InformedSearch.Visit | InformedSearch.py:39-46 | a child is recorded and queued with the next entry number exactly when its state is new or it is strictly cheaper than the recorded node; the entry's priority is `Priority` from the parent's path cost, which under A\* plus the step cost equals the child's own path cost plus its estimate; a recorded cost never rises |
| InformedSearch.VisitChildren | InformedSearch.py:39-46 | the new queue is the old one followed by the entries put, one per child put, in the children's order, numbered on from the old entry counter, each with the strategy's priority from the expanded node's path cost; each put child is new or strictly cheaper than the node recorded before the round, and every child ends with its state recorded at no greater cost; the bookkeeping is restored and the recorded costs do not rise |
| InformedSearch.VisitPut | InformedSearch.py:39-46 | one child of the loop: the queue stays the old one plus the entries put, in child order and numbered on, and the cost facts of `VisitChildren` carry over |
| InformedSearch.PutsStep | InformedSearch.py:45-46 | a put appends exactly the child's entry, with the next entry number and the strategy's priority, to the entries put |
| InformedSearch.RelaxingStep | InformedSearch.py:43-46 | recording a child only when it is new or strictly cheaper keeps every recorded cost at or below the one before the round and every visited child's state recorded at no greater cost |
| InformedSearch.ProgressDecreases | InformedSearch.py:35-46 | each round lowers the loop's measure: unreached states, then the sum of recorded costs, then the queue's length |
| InformedSearch.Round | InformedSearch.py:36-46 | the entry taken precedes no other; the queue becomes what is left without that one entry followed by the entries put; a goal is reported exactly when the node taken is a goal, and then it is that node, nothing is put and nothing else changes; otherwise the arena grows by exactly the children of the node taken, the entries put are for those children with the strategy's priority from its path cost, every queued entry carries the strategy's priority, and the measure drops |
| InformedSearch.Removal | InformedSearch.py:36 | taking an entry out of a queue leaves the multiset of the other entries |
| InformedSearch.PricedRest | InformedSearch.py:36 | taking an entry off a queue whose entries carry the strategy's priority leaves the rest so |
| InformedSearch.PricedGrows | InformedSearch.py:39-46 | growing the arena keeps every queued entry's priority the strategy's priority for its node |
| InformedSearch.PutsPriced | InformedSearch.py:45-46 | the entries put for the children of the expanded node carry the strategy's priority for those children |
| InformedSearch.PricedAppend | InformedSearch.py:45-46 | a queue followed by further entries that carry the strategy's priority carries it throughout |
| InformedSearch.RestAfterMin | InformedSearch.py:36-38 | when the entry taken precedes no other, it precedes none of the entries left on the queue |
| InformedSearch.PopsGrow | InformedSearch.py:36-38 | adding a pop to the log keeps every earlier pop a non-goal, and the new pop is a goal exactly when the search stops on it |
| InformedSearch.Grow | InformedSearch.py:39-46 | expanding the non-goal node taken: the arena keeps its old nodes and grows by exactly that node's children; the queue becomes the rest followed by the entries put for them, with the strategy's priority from that node's path cost; the bookkeeping is restored and the measure drops |
| InformedSearch.TiesInPutOrder | InformedSearch.py:28-36 | over the history of the queue, of two entries with the same priority on one queue the one put later is never the one taken off it: ties leave in the order they were put |
| InformedSearch.NumberedBelow | InformedSearch.py:28-33 | while searching, every queued entry is numbered below the next entry number |
| InformedSearch.HistoryGrows | InformedSearch.py:35-46 | growing the arena keeps the history of the queue |
| InformedSearch.RoundTurn | InformedSearch.py:36-46 | a round is one turn of the queue: a least entry is taken, and what follows is the rest with entries for children of that entry's node only, numbered above every entry of the queue before it |
| InformedSearch.HistoryStep | InformedSearch.py:35-46 | a round extends the history of the queue by one turn: the queue before it, the least entry taken, and the rest followed by the entries put, numbered above every earlier entry, all carrying the strategy's priority and every queue in the order its entries were put |
| InformedSearch.Step | InformedSearch.py:36-46 | one loop round with the log of pops and the history of the queue: the queue before the round is followed by the queue after it; every pop but a last goal is a non-goal, and a goal reported is the node of the last pop, which precedes everything left on the queue |
| InformedSearch.Loop | InformedSearch.py:28-48 | the queue starts as the root's entry and its history records each turn: a least entry is taken, and the rest is followed by entries for children of that node only, numbered above every earlier entry; every queue lists its entries in the order they were put, so ties leave in the order they were put, and every entry has the strategy's priority; every node taken off is goal-tested: all but the last are non-goals, and the loop stops on the first goal taken; otherwise it ends with an empty queue and the bookkeeping intact |
| InformedSearch.Finish | InformedSearch.py:38-48 | the answer is non-empty exactly when a goal was found, and it is then the path to that goal without the root; `[]` exactly when no goal is reachable, otherwise the labels of a run to a goal |
| InformedSearch.BestFirst | InformedSearch.py:21-78 | the root itself is returned exactly when the initial state is a goal, after one node and no pops; otherwise `[]` exactly when no goal is reachable, else the actions of a run from the initial state to a goal, which is the path to the node of the last entry taken; every entry taken before it was a non-goal; the queue starts as the root's entry at the priority of the initial state and each pop takes a least entry of the queue of its time, whose entries all carry the strategy's priority and are numbered in the order they were put, so ties leave in the order they were put |
| InformedSearch.PopsPriced | InformedSearch.py:32-46 | every entry taken off the queue carries the strategy's priority for its node |
| InformedSearch.AStarSearch | InformedSearch.py:21-48 | `a_star`: the root on an initial goal; `[]` exactly when no goal is reachable; otherwise the actions of a run to a goal, the path to the first goal taken off the queue; the root is queued at `0 + h(initial)` and every entry taken off has priority its parent's path cost plus the estimate of its own state, each taken as a least entry of the queue of its time; of two entries with equal priority on a queue, the one put later is never the one taken (ties leave in the order they were put) |
| InformedSearch.GreedySearch | InformedSearch.py:51-78 | `greedy`: the root on an initial goal; `[]` exactly when no goal is reachable; otherwise the actions of a run to a goal, the path to the first goal taken off the queue; the root is queued at `h(initial)` and every entry taken off has the estimate of its own state as its priority, each taken as a least entry of the queue of its time; of two entries with equal priority on a queue, the one put later is never the one taken (ties leave in the order they were put) |
| Grids.Find | Problem.py:218-219 | `np.where(state == v)[0][0]`, `[1][0]`: a cell holding `v`, or none when no cell does |
| Grids.FindIsFirst | Problem.py:218-219 | the cell found comes first in row-major order among the cells holding `v` |
| Grids.FlattenInjective | Problem.py:288-300 | grids of one shape have the same row-major bytes exactly when they are equal |
| Grids.FlattenKeys | Problem.py:288-300 | a grid's bytes single it out among all grids of its shape |
| Grids.FlattenNeedsShape | Problem.py:296-300 | grids of different shapes can have the same bytes, so the key of `reached` is exact only within one shape |
| Grids.ArrayEqual | Problem.py:188 | `np.array_equal`: true exactly when the shapes and all cells agree |
| Grids.CellsEqual | Problem.py:188 | grids are equal exactly when they have the same shape and agree on every cell |
| Grids.SwapKeepsCells | Problem.py:361-375 | swapping two cells keeps the multiset of the grid's values |
| Grids.Keep | Problem.py:223-236 | the kept directions are exactly those in the list that pass the test, still north, east, south, west |
| Grids.Landing | Problem.py:256-263 | the cell a write lands on: the step itself on the grid, or the last row or column for index -1 |
| Grids.Wrap | Problem.py:257 | a Python index in range addresses position `i` or `i + n` |
| Grids.StepMoves | Problem.py:224-234 | a step that stays on the grid raises no IndexError and leaves its cell |
| Maze.Agent | Problem.py:218-219 | the agent's cell holds the character |
| Maze.AgentUnique | Problem.py:218-219 | a valid maze has exactly one agent cell |
| Maze.Actions | Problem.py:205-236 | a direction is listed exactly when its step stays on the grid and is not impassable; directions are listed north, east, south, west |
| Maze.Result | Problem.py:238-264 | `_result` keeps the shape and puts the agent on the cell the write lands on |
| Maze.ResultCells | Problem.py:247-263 | the agent's old cell becomes floor if the agent moved; every other cell except the new agent cell is unchanged |
| Maze.ActionMoves | Problem.py:205-264 | for an action of `_actions` the agent moves to the neighbouring cell, leaves floor behind, and walls stay walls |
| Maze.ActionCost | Problem.py:266-286 | `_action_cost` is 1 when the target cell in the current state is floor or costly floor, and `None` otherwise |
| Maze.ActionCostIsOne | Problem.py:266-286 | for an action of `_actions` the cost is 1 |
| Maze.Moves | Problem.py:190-203 | `expand`'s moves: one per action of `_actions`, in order, leading to `_result` at cost 1 |
| Maze.IsGoal | Problem.py:182-188 | `is_goal` holds exactly when the maze is the goal grid |
| Maze.HashableState | Problem.py:288-300 | among mazes of the same shape, a maze has this key exactly when it is this maze |
| Maze.EstimatedCost | Problem.py:302-318 | the Manhattan estimate is 0 exactly when the agent stands where the goal has it, and so it is 0 on the goal |
| Maze.EstimateStep | Problem.py:302-318 | one move changes the estimate by exactly one |
| Maze.RunReplays | Problem.py:190-264 | replaying a run's actions with `_result` reaches the run's end |
| Maze.ReplayGivesRun | Problem.py:190-264 | any sequence of actions that replays gives a run with those labels |
| Maze.SolvableIff | Problem.py:182-264 | a goal is reachable exactly when some sequence of actions replays from the start to the goal |
| Maze.UniverseClosed | Problem.py:238-264 | the mazes of the initial shape contain the start and every result of a move |
| SlidingPuzzle.BlankAt | Problem.py:341-342 | the blank's cell holds 0 and is the first such cell in row-major order |
| SlidingPuzzle.Actions | Problem.py:337-353 | a direction is listed exactly when the neighbour of the blank is on the grid; tiles are not looked at; directions are listed north, east, south, west |
| SlidingPuzzle.ActionSafe | Problem.py:344-375 | an action of `_actions` raises no IndexError and moves the blank off its cell |
| SlidingPuzzle.Result | Problem.py:355-377 | `_result` keeps the shape and the multiset of tiles |
| SlidingPuzzle.ResultCells | Problem.py:355-377 | the landing cell becomes the blank, the blank's cell takes the tile that was there, and no other cell changes |
| SlidingPuzzle.Moves | Problem.py:328-335 | `expand`'s moves: one per action, in order, leading to `_result` at cost 1 |
| SlidingPuzzle.IsGoal | Problem.py:325-326 | `is_goal` holds exactly when the puzzle is the goal |
| SlidingPuzzle.SlidesCostOne | Problem.py:379-381 | `_action_cost` is 1 for every slide, so the cost of a run of slides is its length |
| SlidingPuzzle.HashableState | Problem.py:383-384 | among puzzles of the same shape, a puzzle has this key exactly when it is this puzzle |
| SlidingPuzzle.RunKeepsTiles | Problem.py:355-377 | every state reached by sliding keeps the start's shape and multiset of tiles |
| SlidingPuzzle.OtherTilesUnreachable | Problem.py:325-326 | a goal with other tiles than the start is never reachable |
| SlidingPuzzle.UniverseClosed | Problem.py:355-377 | the puzzles of the initial shape over its tiles contain the start and every result of a move |
| DomainSearch.MazeBreadthFirst | UninformedSearch.py:19-49 | on a maze: `[None]` on an initial goal; `[]` exactly when no sequence of actions solves the maze; otherwise `[None]` followed by actions that, replayed with `_result`, reach the goal |
| DomainSearch.MazeDepthFirst | UninformedSearch.py:53-82 | the same, for depth-first search |
| DomainSearch.MazeAStar | InformedSearch.py:21-48 | on a maze: the root, on the initial state, exactly on an initial goal; `[]` exactly when nothing solves the maze; otherwise actions that replay to the goal; every entry taken off the queue has priority its parent's path cost plus the Manhattan estimate of its grid |
| DomainSearch.MazeGreedy | InformedSearch.py:51-78 | the same outcomes for greedy search; every entry taken off the queue has the Manhattan estimate of its grid as its priority |
| DomainSearch.PuzzleBreadthFirst | UninformedSearch.py:19-49 | on a puzzle: `[None]` on an initial goal; `[]` when the goal holds other tiles than the start and, in general, exactly when no goal is reachable; otherwise the actions of a run to the goal |
| BasicMaze.Start | mazes.py:11 | `basic_maze`'s initial state is a valid maze |
| BasicMaze.Goal | mazes.py:12 | `basic_maze`'s goal state is a valid maze |
| BasicMaze.RouteSolves | mazes.py:11-12 | east, south, south, east replays from the start of `basic_maze` to its goal |
| BasicMaze.SolveBreadthFirst | mazes.py:11-12 | breadth-first search on `basic_maze` returns a non-empty path starting with `None`, whose actions solve the maze |

## Left out

- `bidirectional_search` is not modelled: main.py:75 calls it, but none of the modules main.py imports (InformedSearch, UninformedSearch, mazes) defines it, so there is no code to model.
- `SlidingPuzzle.estimated_cost` is not modelled. It calls `current.shape()`, but `shape` is a tuple, so the call raises before it computes anything. So A\* and greedy search are modelled on the maze only.
- `SlidingPuzzle.__int__`, misspelt for `__init__`, is not modelled: the inherited `Problem.__init__` does the same work.
- `Node.__str__` and the commented-out `__eq__` and `__repr__` are not modelled: they only render text.
- main.py is not modelled: it only prints and times the searches. The mazes of mazes.py other than `basic_maze`, and `draw_maze`, are left out for the same reason.
- The internals of `queue.Queue` and `queue.PriorityQueue` are not modelled: a FIFO queue is a sequence taken from the front, and the priority queue is a sequence searched for an entry that no other precedes. Thread safety is not modelled.
- Path costs and estimates are natural numbers rather than floats. Every cost the domains produce is 1, and the Manhattan estimate is a whole number.
- Action strings `"north"`, `"east"`, `"south"`, `"west"` are the `Grids.Direction` datatype. The `_result` branches for other strings, which leave the state unchanged apart from the agent's old cell, are not reachable from `_actions` and are left out.
- `np.copy` and in-place writes to the copy are modelled as building a new grid value; there is no aliasing to model, since the copy is fresh.
- `hashable_state` is modelled by keying `reached` on the grid itself. The contracts of `Maze.HashableState` and `SlidingPuzzle.HashableState` (through `Grids.FlattenKeys`) show this agrees with keying on the bytes for states of one shape, which are all the searches meet. `Grids.FlattenNeedsShape` shows why the shape matters.
- UninformedSearch.BreadthFirstSearch: breadth-first search is not proved to return a path with the fewest actions. What is proved is that expanded depths never decrease, nodes leave the queue in creation order, and the answer is the first goal child generated.
- InformedSearch.AStarSearch: A\* is not proved optimal. With the parent-cost priority the code uses, the queue order is not exactly the textbook f = g + h order.
- BasicMaze.SolveBreadthFirst: the exact path breadth-first search returns on `basic_maze` is not derived, only that it is non-empty, starts with `None` and solves the maze.
- Node ids are checked for the nodes one search call constructs, starting from the counter's value at the call. The counter's value before the first call of a program run (0) is stated only by `SearchCore.NodeCounter.constructor`.
