/**
 * Breadth-first and depth-first graph search (UninformedSearch.py).
 *
 * Both goal-test the initial state and then every child as it is generated, and
 * both keep a first-come `reached` map from state to the arena index of the
 * first node found for it.  They differ only in the frontier: a FIFO queue for
 * breadth-first search (pop at the front) and a list used as a stack for
 * depth-first search (pop at the back); both push at the back.
 */
module UninformedSearch {
  import opened Wrappers
  import opened SearchCore

  /**
   * `get_path`: walk the parent links from node `n` up to and including the root,
   * collecting each node's action, then reverse.  The root's `None` is kept.
   */
  method GetPath<S, A>(nodes: seq<Node<S, A>>, n: nat) returns (path: seq<Option<A>>)
    requires ParentsBefore(nodes) && n < |nodes|
    ensures path == PathTo(nodes, n)
  {
    var root: Option<nat> := Some(n);
    var p: seq<Option<A>> := [];
    while root.Some?
      invariant root.Some? ==> root.value <= n
      invariant PathTo(nodes, n) == (if root.Some? then PathTo(nodes, root.value) else []) + Reverse(p)
      decreases if root.Some? then root.value + 1 else 0
    {
      PathStep(nodes, root.value, p);
      p := p + [nodes[root.value].action];
      root := nodes[root.value].parent;
    }
    path := Reverse(p);
  }

  /** One step of `GetPath`: the action of node `k` moves from the chain onto the collected tail. */
  lemma PathStep<S, A>(nodes: seq<Node<S, A>>, k: nat, acc: seq<Option<A>>)
    requires ParentsBefore(nodes) && k < |nodes|
    ensures PathTo(nodes, k) + Reverse(acc)
         == (if nodes[k].parent.None? then [] else PathTo(nodes, nodes[k].parent.value)) + Reverse(acc + [nodes[k].action])
  {
    ReverseSnoc(acc, nodes[k].action);
  }

  /**
   * The bookkeeping both strategies keep between pops: `reached` maps each state
   * seen so far to the arena node first found for it, none of them a goal; the
   * frontier holds only such first nodes; and every reached state is
   * either still waiting on the frontier or has been expanded (or is `open`,
   * the state being expanded right now).
   */
  ghost predicate Bookkeeping<S(!new), A(!new)>(p: Problem<S, A>, universe: set<S>, nodes: seq<Node<S, A>>,
                                                reached: map<S, nat>, frontier: seq<nat>, open: Option<S>)
  {
    && p.initial in reached && reached.Keys <= universe
    && (forall s :: s in reached ==> reached[s] < |nodes| && nodes[reached[s]].state == s && !p.isGoal(s))
    && (forall i :: 0 <= i < |frontier| ==>
          frontier[i] < |nodes| && nodes[frontier[i]].state in reached
          && reached[nodes[frontier[i]].state] == frontier[i])
    && (forall s :: s in reached ==> reached[s] in frontier || open == Some(s) || Settled(p, s, reached.Keys))
  }

  /** Recording a new, non-goal state with node `c` and pushing `c` keeps the bookkeeping. */
  lemma Record<S(!new), A(!new)>(p: Problem<S, A>, universe: set<S>, nodes: seq<Node<S, A>>,
                                 reached: map<S, nat>, frontier: seq<nat>, open: Option<S>, c: nat)
    requires Bookkeeping(p, universe, nodes, reached, frontier, open)
    requires c < |nodes| && nodes[c].state !in reached && nodes[c].state in universe && !p.isGoal(nodes[c].state)
    requires forall i :: 0 <= i < |frontier| ==> frontier[i] < c
    ensures Bookkeeping(p, universe, nodes, reached[nodes[c].state := c], frontier + [c], open)
  {
    var reached', frontier' := reached[nodes[c].state := c], frontier + [c];
    forall s | s in reached'
      ensures reached'[s] in frontier' || open == Some(s) || Settled(p, s, reached'.Keys)
    {
      if s != nodes[c].state && reached[s] !in frontier && open != Some(s) {
        assert Settled(p, s, reached.Keys);
      }
    }
  }

  /** The state being expanded is settled once all its successors are reached. */
  lemma CloseOpen<S(!new), A(!new)>(p: Problem<S, A>, universe: set<S>, nodes: seq<Node<S, A>>,
                                    reached: map<S, nat>, frontier: seq<nat>, sn: S)
    requires Bookkeeping(p, universe, nodes, reached, frontier, Some(sn))
    requires sn in reached
    requires forall i :: 0 <= i < |p.successors(sn)| ==> p.successors(sn)[i].next in reached
    ensures Bookkeeping(p, universe, nodes, reached, frontier, None)
  {
    assert Settled(p, sn, reached.Keys);
  }

  /**
   * What holds while the children of node `n` are visited, before child `c`:
   * the bookkeeping with `n`'s state open, the children so far all reached and
   * none of them a goal, `reached0` kept, and the new children pushed in order
   * behind `frontier0`.
   */
  ghost predicate Visiting<S(!new), A(!new)>(p: Problem<S, A>, universe: set<S>, nodes: seq<Node<S, A>>,
                                             n: nat, start: nat, c: nat, reached0: map<S, nat>,
                                             frontier0: seq<nat>, reached: map<S, nat>, frontier: seq<nat>,
                                             pushed: seq<nat>)
  {
    && n < |nodes| && start <= c <= |nodes|
    && Bookkeeping(p, universe, nodes, reached, frontier, Some(nodes[n].state))
    && Covered(nodes, start, c, reached.Keys)
    && Extends(reached0, reached)
    && frontier == frontier0 + pushed
    && (forall j :: 0 <= j < |pushed| ==> start <= pushed[j] < c && nodes[pushed[j]].state !in reached0)
    && Increasing(pushed)
    && (pushed == [] ==> reached == reached0)
    && (pushed != [] ==> nodes[pushed[0]].state in reached)
    && (forall s :: s in reached && s !in reached0 ==> reached[s] in pushed)
    && (forall j :: start <= j < c ==> !p.isGoal(nodes[j].state))
  }

  /** Visiting a child that is not a goal: record and push it unless its state is already reached. */
  method Visit<S(!new, ==), A(!new)>(p: Problem<S, A>, ghost universe: set<S>, nodes: seq<Node<S, A>>,
                                     n: nat, start: nat, c: nat, ghost reached0: map<S, nat>,
                                     ghost frontier0: seq<nat>, reached: map<S, nat>, frontier: seq<nat>,
                                     ghost pushed: seq<nat>)
    returns (reached1: map<S, nat>, frontier1: seq<nat>, ghost pushed1: seq<nat>)
    requires Generated(p, universe, nodes, n, start) && c < |nodes| && !p.isGoal(nodes[c].state)
    requires forall i :: 0 <= i < |frontier0| ==> frontier0[i] < start
    requires Visiting(p, universe, nodes, n, start, c, reached0, frontier0, reached, frontier, pushed)
    ensures Visiting(p, universe, nodes, n, start, c + 1, reached0, frontier0, reached1, frontier1, pushed1)
    ensures if nodes[c].state !in reached then reached1 == reached[nodes[c].state := c] && frontier1 == frontier + [c]
            else reached1 == reached && frontier1 == frontier
  {
    var state := nodes[c].state;
    reached1, frontier1, pushed1 := reached, frontier, pushed;
    if state !in reached {
      Record(p, universe, nodes, reached, frontier, Some(nodes[n].state), c);
      ExtendsAdd(reached0, reached, state, c);
      IncreasingSnoc(pushed, c);
      reached1, frontier1, pushed1 := reached[state := c], frontier + [c], pushed + [c];
    }
    CoveredStep(nodes, start, c, reached.Keys, reached1.Keys);
  }

  /**
   * The loop over `problem.expand(node)` shared by both strategies.  The children
   * of node `n` occupy the arena from index `start` on.  Each child is goal-tested
   * first; a goal child ends the scan.  Otherwise a child whose state is not yet
   * reached is recorded and pushed at the back of the frontier.
   */
  method VisitChildren<S(!new, ==), A(!new)>(p: Problem<S, A>, ghost universe: set<S>, nodes: seq<Node<S, A>>,
                                            n: nat, start: nat, reached0: map<S, nat>, frontier0: seq<nat>)
    returns (goal: Option<nat>, reached: map<S, nat>, frontier: seq<nat>, ghost pushed: seq<nat>)
    requires Generated(p, universe, nodes, n, start)
    requires nodes[n].state in reached0 && Bookkeeping(p, universe, nodes, reached0, frontier0, Some(nodes[n].state))
    requires forall i :: 0 <= i < |frontier0| ==> frontier0[i] < start
    ensures goal.Some? ==> start <= goal.value < |nodes| && p.isGoal(nodes[goal.value].state)
    ensures goal.Some? ==> forall j :: start <= j < goal.value ==> !p.isGoal(nodes[j].state)
    ensures goal.None? ==> forall j :: start <= j < |nodes| ==> !p.isGoal(nodes[j].state) && nodes[j].state in reached
    ensures goal.None? ==> Bookkeeping(p, universe, nodes, reached, frontier, None)
    ensures forall s :: s in reached && s !in reached0 ==> reached[s] in pushed
    ensures Extends(reached0, reached)
    ensures frontier == frontier0 + pushed
    ensures forall j :: 0 <= j < |pushed| ==> start <= pushed[j] < |nodes| && nodes[pushed[j]].state !in reached0
    ensures Increasing(pushed)
    ensures reached0.Keys <= reached.Keys
    ensures pushed == [] ==> reached == reached0
    ensures pushed != [] ==> nodes[pushed[0]].state in reached
  {
    ghost var sn := nodes[n].state;
    reached, frontier, pushed := reached0, frontier0, [];
    for c: nat := start to |nodes|
      invariant Visiting(p, universe, nodes, n, start, c, reached0, frontier0, reached, frontier, pushed)
    {
      if p.isGoal(nodes[c].state) {
        return Some(c), reached, frontier, pushed;
      }
      reached, frontier, pushed := Visit(p, universe, nodes, n, start, c, reached0, frontier0, reached, frontier, pushed);
    }
    ChildrenCoverMoves(p, universe, nodes, n, start, reached.Keys);
    CloseOpen(p, universe, nodes, reached, frontier, sn);
    goal := None;
  }

  /** Taking node `frontier[i]` off the frontier leaves its state open and all else as it was. */
  lemma Pop<S(!new), A(!new)>(p: Problem<S, A>, universe: set<S>, nodes: seq<Node<S, A>>,
                              reached: map<S, nat>, frontier: seq<nat>, i: nat)
    requires Bookkeeping(p, universe, nodes, reached, frontier, None) && i < |frontier|
    ensures nodes[frontier[i]].state in reached && reached[nodes[frontier[i]].state] == frontier[i]
    ensures Bookkeeping(p, universe, nodes, reached, frontier[..i] + frontier[i + 1..], Some(nodes[frontier[i]].state))
  {
    var rest := frontier[..i] + frontier[i + 1..];
    forall s | s in reached
      ensures reached[s] in rest || Some(nodes[frontier[i]].state) == Some(s) || Settled(p, s, reached.Keys)
    {
      if reached[s] in frontier && s != nodes[frontier[i]].state {
        var j :| 0 <= j < |frontier| && frontier[j] == reached[s];
        assert j != i;
        if j < i { assert rest[j] == reached[s]; } else { assert rest[j - 1] == reached[s]; }
      }
    }
    forall k | 0 <= k < |rest|
      ensures rest[k] < |nodes| && nodes[rest[k]].state in reached && reached[nodes[rest[k]].state] == rest[k]
    {
      if k < i { assert rest[k] == frontier[k]; } else { assert rest[k] == frontier[k + 1]; }
    }
  }

  /** Appending the children of an expansion to the arena changes nothing already recorded. */
  lemma ArenaGrows<S(!new), A(!new)>(p: Problem<S, A>, universe: set<S>, nodes: seq<Node<S, A>>,
                                     children: seq<Node<S, A>>, reached: map<S, nat>, frontier: seq<nat>,
                                     open: Option<S>)
    requires Bookkeeping(p, universe, nodes, reached, frontier, open)
    ensures Bookkeeping(p, universe, nodes + children, reached, frontier, open)
  {
    var all := nodes + children;
    assert forall k :: 0 <= k < |nodes| ==> all[k] == nodes[k];
  }

  /**
   * `order` lists the nodes taken off the frontier so far, each once; each was the
   * node recorded for its state, and none of them is on the frontier again.
   */
  ghost predicate Expanded<S, A>(nodes: seq<Node<S, A>>, reached: map<S, nat>, frontier: seq<nat>,
                                 order: seq<nat>, popped: set<nat>)
  {
    && (forall i :: 0 <= i < |order| ==> order[i] in popped && order[i] < |nodes|
                                          && nodes[order[i]].state in reached
                                          && reached[nodes[order[i]].state] == order[i])
    && (forall i, j :: 0 <= i < j < |order| ==> order[i] != order[j])
    && (forall j :: 0 <= j < |frontier| ==> frontier[j] !in popped)
    && (forall x :: x in popped ==> x < |nodes| && x in order)
  }

  /** Every node but the root is a child of a node that has been taken off the frontier and expanded. */
  ghost predicate Explored<S, A>(nodes: seq<Node<S, A>>, popped: set<nat>) {
    forall k :: 0 < k < |nodes| ==> nodes[k].parent.Some? && nodes[k].parent.value in popped
  }

  /**
   * What no goal found so far means for the arena: the state of every node
   * built is reached, and the node recorded for a reached state is either still
   * on the frontier or has been expanded.
   */
  ghost predicate Exhausting<S, A>(nodes: seq<Node<S, A>>, reached: map<S, nat>, frontier: seq<nat>,
                                   popped: set<nat>)
  {
    && (forall k :: 0 <= k < |nodes| ==> nodes[k].state in reached)
    && (forall s :: s in reached ==> reached[s] in frontier || reached[s] in popped)
  }

  /** Expanding node `n` appends children of `n` only. */
  lemma ExploredGrows<S, A>(nodes: seq<Node<S, A>>, children: seq<Node<S, A>>, popped: set<nat>, n: nat)
    requires Explored(nodes, popped)
    requires forall k :: 0 <= k < |children| ==> children[k].parent == Some(n)
    ensures Explored(nodes + children, popped + {n})
  {
    var all := nodes + children;
    forall k | 0 < k < |all| ensures all[k].parent.Some? && all[k].parent.value in popped + {n} {
      if k >= |nodes| {
        assert all[k] == children[k - |nodes|];
      }
    }
  }

  /**
   * A round that finds no goal keeps `Exhausting`: the children's states are all
   * reached, the newly reached ones are pushed, and the node taken off the
   * frontier has joined the expanded ones.
   */
  lemma ExhaustingStep<S, A>(nodes: seq<Node<S, A>>, children: seq<Node<S, A>>, reached0: map<S, nat>,
                             reached: map<S, nat>, queue: seq<nat>, i: nat, rest: seq<nat>, pushed: seq<nat>,
                             popped: set<nat>)
    requires Exhausting(nodes, reached0, queue, popped) && Popped(queue, i, rest)
    requires Extends(reached0, reached)
    requires forall s :: s in reached && s !in reached0 ==> reached[s] in pushed
    requires forall j :: |nodes| <= j < |nodes| + |children| ==> (nodes + children)[j].state in reached
    ensures Exhausting(nodes + children, reached, rest + pushed, popped + {queue[i]})
  {
    var all, f := nodes + children, rest + pushed;
    PoppedRest(queue, i, rest);
    forall k | 0 <= k < |all| ensures all[k].state in reached {
      if k < |nodes| {
        assert all[k] == nodes[k];
      }
    }
    forall s | s in reached ensures reached[s] in f || reached[s] in popped + {queue[i]} {
      if s in reached0 && reached0[s] in queue && reached0[s] != queue[i] {
        var j :| 0 <= j < |queue| && queue[j] == reached0[s];
        assert j != i;
        if j < i { assert rest[j] == reached0[s]; } else { assert rest[j - 1] == reached0[s]; }
        assert f[if j < i then j else j - 1] == reached0[s];
      } else if s !in reached0 {
        var j :| 0 <= j < |pushed| && pushed[j] == reached[s];
        assert f[|rest| + j] == reached[s];
      }
    }
  }

  /**
   * Popping `queue[i]` from the front or the back, expanding it and pushing the
   * children's new indices keeps the frontier increasing and the record of
   * expanded nodes valid.
   */
  lemma ExpandedStep<S, A>(nodes: seq<Node<S, A>>, children: seq<Node<S, A>>,
                           reached0: map<S, nat>, reached: map<S, nat>,
                           queue: seq<nat>, i: nat, rest: seq<nat>, pushed: seq<nat>,
                           order: seq<nat>, popped: set<nat>)
    requires Expanded(nodes, reached0, queue, order, popped) && Increasing(queue) && Popped(queue, i, rest)
    requires forall j :: 0 <= j < |queue| ==> queue[j] < |nodes|
    requires nodes[queue[i]].state in reached0 && reached0[nodes[queue[i]].state] == queue[i]
    requires Extends(reached0, reached)
    requires forall j :: 0 <= j < |pushed| ==> |nodes| <= pushed[j] < |nodes| + |children|
    requires Increasing(pushed)
    ensures Increasing(rest + pushed)
    ensures Expanded(nodes + children, reached, rest + pushed, order + [queue[i]], popped + {queue[i]})
  {
    var n, all := queue[i], nodes + children;
    IncreasingDistinct(queue);
    PoppedRest(queue, i, rest);
    var f := rest + pushed;
    forall j | 0 <= j < |f| - 1 ensures StepUp(f, j) {
      if j < |rest| - 1 {
        assert StepUp(queue, if i == 0 then j + 1 else j);
        assert f[j] == rest[j] && f[j + 1] == rest[j + 1];
      } else if j == |rest| - 1 {
        assert f[j] == rest[j] && f[j + 1] == pushed[0];
      } else {
        assert StepUp(pushed, j - |rest|);
        assert f[j] == pushed[j - |rest|] && f[j + 1] == pushed[j + 1 - |rest|];
      }
    }
    forall j | 0 <= j < |f| ensures f[j] !in popped + {n} {
      if j < |rest| {
        assert rest[j] in queue[..i] || rest[j] in queue[i + 1..];
        assert f[j] == rest[j] && rest[j] != n;
      } else {
        assert f[j] == pushed[j - |rest|];
      }
    }
    var o := order + [n];
    forall j | 0 <= j < |o|
      ensures o[j] in popped + {n} && o[j] < |all| && all[o[j]].state in reached && reached[all[o[j]].state] == o[j]
    {
      assert all[o[j]] == nodes[o[j]];
    }
  }

  /**
   * Depths of the expanded nodes never decrease, and the last of them is at most
   * the current breadth-first level.
   */
  ghost predicate Ascending<S, A>(nodes: seq<Node<S, A>>, order: seq<nat>, level: nat) {
    && (forall j :: 0 <= j < |order| ==> order[j] < |nodes|)
    && (forall i :: 0 <= i < |order| - 1 ==> DepthUp(nodes, order, i))
    && (order != [] ==> nodes[order[|order| - 1]].depth <= level)
  }

  /** Expanded nodes `i` and `i + 1` in non-decreasing order of depth. */
  ghost predicate DepthUp<S, A>(nodes: seq<Node<S, A>>, order: seq<nat>, i: nat)
    requires i < |order| - 1 && order[i] < |nodes| && order[i + 1] < |nodes|
  {
    nodes[order[i]].depth <= nodes[order[i + 1]].depth
  }

  /** Expanding a node of the current level keeps the depths ascending. */
  lemma AscendingStep<S, A>(nodes: seq<Node<S, A>>, children: seq<Node<S, A>>, order: seq<nat>, n: nat, level: nat)
    requires Ascending(nodes, order, level) && n < |nodes| && nodes[n].depth == level
    ensures Ascending(nodes + children, order + [n], level)
  {
    var all, o := nodes + children, order + [n];
    forall j | 0 <= j < |o| ensures o[j] < |nodes| && all[o[j]] == nodes[o[j]] {
    }
    forall i | 0 <= i < |o| - 1 ensures DepthUp(all, o, i) {
      if i < |order| - 1 {
        assert DepthUp(nodes, order, i);
      }
    }
  }

  /** No state appears twice among the expanded nodes. */
  lemma ExpandedStatesDistinct<S, A>(nodes: seq<Node<S, A>>, reached: map<S, nat>, frontier: seq<nat>,
                                     order: seq<nat>, popped: set<nat>)
    requires Expanded(nodes, reached, frontier, order, popped)
    ensures forall i, j :: 0 <= i < j < |order| ==> nodes[order[i]].state != nodes[order[j]].state
  {
  }

  /**
   * Breadth-first levels: the queue holds nodes of depth `level` up to position
   * `split` and nodes of depth `level + 1` after it.
   */
  ghost predicate Levels<S, A>(nodes: seq<Node<S, A>>, frontier: seq<nat>, level: nat, split: nat)
  {
    && split <= |frontier|
    && (forall j :: 0 <= j < |frontier| ==> frontier[j] < |nodes|)
    && (forall j :: 0 <= j < split ==> nodes[frontier[j]].depth == level)
    && (forall j :: split <= j < |frontier| ==> nodes[frontier[j]].depth == level + 1)
  }

  /**
   * When the current level of the queue is used up, the next one begins: every
   * queued node is then one level deeper, and the expanded nodes stay below it.
   */
  lemma NextLevel<S, A>(nodes: seq<Node<S, A>>, frontier: seq<nat>, order: seq<nat>, level: nat)
    requires Levels(nodes, frontier, level, 0) && Ascending(nodes, order, level)
    ensures Levels(nodes, frontier, level + 1, |frontier|) && Ascending(nodes, order, level + 1)
  {
  }

  /**
   * A breadth-first round in terms of levels: the head of the queue, at depth
   * `level`, joins the expanded nodes, and its children, one level deeper, join
   * the back of the queue.
   */
  lemma BreadthStep<S, A>(nodes: seq<Node<S, A>>, children: seq<Node<S, A>>, frontier: seq<nat>,
                          pushed: seq<nat>, order: seq<nat>, n: nat, level: nat, split: nat)
    requires Levels(nodes, frontier, level, split) && Ascending(nodes, order, level) && 1 <= split
    requires n == frontier[0]
    requires forall k :: 0 <= k < |children| ==> children[k].depth == nodes[n].depth + 1
    requires forall j :: 0 <= j < |pushed| ==> |nodes| <= pushed[j] < |nodes + children|
    ensures Ascending(nodes + children, order + [n], level)
    ensures Levels(nodes + children, frontier[1..] + pushed, level, split - 1)
  {
    AscendingStep(nodes, children, order, n, level);
    LevelsStep(nodes, children, frontier, pushed, level, split);
  }

  /**
   * One breadth-first step keeps the levels: the head, of depth `level`, is taken
   * off, and its children, one level deeper, join the back of the queue.
   */
  lemma LevelsStep<S, A>(nodes: seq<Node<S, A>>, children: seq<Node<S, A>>,
                         frontier: seq<nat>, pushed: seq<nat>, level: nat, split: nat)
    requires Levels(nodes, frontier, level, split) && 1 <= split
    requires forall k :: 0 <= k < |children| ==> children[k].depth == level + 1
    requires forall j :: 0 <= j < |pushed| ==> |nodes| <= pushed[j] < |nodes| + |children|
    ensures Levels(nodes + children, frontier[1..] + pushed, level, split - 1)
  {
    var all, f := nodes + children, frontier[1..] + pushed;
    forall j | 0 <= j < |f|
      ensures f[j] < |all|
      ensures j < split - 1 ==> all[f[j]].depth == level
      ensures split - 1 <= j ==> all[f[j]].depth == level + 1
    {
      if j < |frontier| - 1 {
        assert f[j] == frontier[j + 1] && all[f[j]] == nodes[f[j]];
      } else {
        assert f[j] == pushed[j - (|frontier| - 1)];
      }
    }
  }

  /** Non-decreasing neighbours give a non-decreasing sequence of depths. */
  lemma DepthsSorted<S, A>(nodes: seq<Node<S, A>>, order: seq<nat>, level: nat)
    requires Ascending(nodes, order, level)
    ensures forall i, j :: 0 <= i < j < |order| ==> nodes[order[i]].depth <= nodes[order[j]].depth
  {
    forall i, j | 0 <= i < j < |order| ensures nodes[order[i]].depth <= nodes[order[j]].depth {
      var k := i;
      while k < j
        invariant i <= k <= j && nodes[order[i]].depth <= nodes[order[k]].depth
      {
        assert DepthUp(nodes, order, k);
        k := k + 1;
      }
    }
  }

  /**
   * `rest` is the frontier left once entry `i` is taken off: the front for the
   * breadth-first queue, the back for the depth-first stack.
   */
  ghost predicate Popped(frontier: seq<nat>, i: nat, rest: seq<nat>) {
    && i < |frontier|
    && ((i == 0 && rest == frontier[1..]) || (i == |frontier| - 1 && rest == frontier[..i]))
  }

  /** Taking an entry from either end leaves the others in order. */
  lemma PoppedRest(frontier: seq<nat>, i: nat, rest: seq<nat>)
    requires Popped(frontier, i, rest)
    ensures rest == frontier[..i] + frontier[i + 1..]
  {
    if i == 0 {
      assert frontier[..0] == [];
    } else {
      assert frontier[i + 1..] == [];
    }
  }

  /**
   * One expansion: node `n == frontier[i]` is taken off the frontier and its
   * children are appended to the arena.  The tree and the bookkeeping stay
   * valid with `n`'s state open, the children sit at the arena's end in the
   * order of the moves, and their states are in the universe.
   */
  lemma Take<S(!new), A(!new)>(p: Problem<S, A>, universe: set<S>, nodes: seq<Node<S, A>>,
                               children: seq<Node<S, A>>, all: seq<Node<S, A>>, reached: map<S, nat>,
                               frontier: seq<nat>, i: nat, n: nat, rest: seq<nat>)
    requires Tree(p, nodes) && Closed(p, universe) && all == nodes + children
    requires Bookkeeping(p, universe, nodes, reached, frontier, None) && Popped(frontier, i, rest)
    requires n == frontier[i] && n < |nodes|
    requires |children| == |p.successors(nodes[n].state)|
    requires forall k :: 0 <= k < |children| ==>
      var m := p.successors(nodes[n].state)[k];
      children[k].state == m.next && children[k].parent == Some(n) && children[k].action == Some(m.action) &&
      children[k].pathCost == nodes[n].pathCost + m.cost && children[k].depth == nodes[n].depth + 1
    ensures n < |nodes| <= |all| && all[n] == nodes[n]
    ensures all[n].state in reached && reached[all[n].state] == n
    ensures Tree(p, all)
    ensures Bookkeeping(p, universe, all, reached, rest, Some(all[n].state))
    ensures forall j :: 0 <= j < |rest| ==> rest[j] < |nodes|
    ensures Generated(p, universe, all, n, |nodes|)
  {
    Pop(p, universe, nodes, reached, frontier, i);
    PoppedRest(frontier, i, rest);
    TreeGrows(p, nodes, children, n);
    ArenaGrows(p, universe, nodes, children, reached, rest, Some(nodes[n].state));
  }

  /** What holds of a search after every round: the arena, its numbering and the expanded nodes. */
  ghost predicate Trace<S, A>(p: Problem<S, A>, c0: nat, nodes: seq<Node<S, A>>, reached: map<S, nat>,
                              frontier: seq<nat>, order: seq<nat>, popped: set<nat>)
  {
    Tree(p, nodes) && IdsFrom(nodes, c0) && Expanded(nodes, reached, frontier, order, popped)
  }

  /** The loop invariant shared by both strategies while no goal has been found. */
  ghost predicate Searching<S(!new), A(!new)>(p: Problem<S, A>, universe: set<S>, c0: nat, nodes: seq<Node<S, A>>,
                                              reached: map<S, nat>, frontier: seq<nat>, order: seq<nat>,
                                              popped: set<nat>)
  {
    && Trace(p, c0, nodes, reached, frontier, order, popped)
    && Bookkeeping(p, universe, nodes, reached, frontier, None)
    && Increasing(frontier)
  }

  /**
   * Node `g` is the goal a search stops at: a child of the node expanded last,
   * and the first goal among all the nodes built.
   */
  ghost predicate FirstGoal<S, A>(p: Problem<S, A>, nodes: seq<Node<S, A>>, order: seq<nat>, g: nat) {
    && 0 < g < |nodes| && p.isGoal(nodes[g].state) && order != [] && nodes[g].parent == Some(order[|order| - 1])
    && forall j :: 0 <= j < g ==> !p.isGoal(nodes[j].state)
  }

  /**
   * Node `g` is the goal a round reports: a child of node `n` built from
   * `start` on, and the first goal among all the nodes built.
   */
  ghost predicate GoalChild<S, A>(p: Problem<S, A>, nodes: seq<Node<S, A>>, start: nat, n: nat, g: nat) {
    && start <= g < |nodes| && p.isGoal(nodes[g].state) && nodes[g].parent == Some(n)
    && forall j :: 0 <= j < g ==> !p.isGoal(nodes[j].state)
  }

  /** The search state right after the root is created and queued. */
  lemma Start<S(!new), A(!new)>(p: Problem<S, A>, universe: set<S>, c0: nat, root: Node<S, A>)
    requires root == Node(p.initial, None, None, 0, 0, c0)
    requires p.initial in universe && !p.isGoal(p.initial)
    ensures Searching(p, universe, c0, [root], map[p.initial := 0], [0], [], {})
  {
    var reached := map[p.initial := 0];
    assert reached.Keys == {p.initial};
  }

  /**
   * One round of the loop body shared by `breadth_first_search` and
   * `depth_first_search`: take node `n` off the frontier (the front when `lifo`
   * is false, the back when it is true), expand it, and visit its children.
   * On a goal child the round reports it; otherwise the bookkeeping is restored
   * and the unreached part of the universe or the frontier has shrunk.
   */
  method Round<S(!new, ==), A(!new)>(p: Problem<S, A>, ghost universe: set<S>, counter: NodeCounter, lifo: bool,
                                     arena0: seq<Node<S, A>>, reached0: map<S, nat>, frontier0: seq<nat>,
                                     ghost c0: nat, ghost order: seq<nat>, ghost popped: set<nat>)
    returns (goal: Option<nat>, arena: seq<Node<S, A>>, reached: map<S, nat>, frontier: seq<nat>,
             n: nat, children: seq<Node<S, A>>, ghost pushed: seq<nat>)
    requires Closed(p, universe) && frontier0 != []
    requires Searching(p, universe, c0, arena0, reached0, frontier0, order, popped)
    requires Explored(arena0, popped) && Exhausting(arena0, reached0, frontier0, popped)
    requires counter.count == c0 + |arena0|
    modifies counter
    ensures counter.count == c0 + |arena|
    ensures n == frontier0[if lifo then |frontier0| - 1 else 0] && n < |arena0|
    ensures Explored(arena, popped + {n})
    ensures arena == arena0 + children
    ensures forall k :: 0 <= k < |children| ==> children[k].depth == arena0[n].depth + 1
    ensures forall k :: 0 <= k < |children| ==> children[k].parent == Some(n)
    ensures frontier == (if lifo then frontier0[..|frontier0| - 1] else frontier0[1..]) + pushed
    ensures forall j :: 0 <= j < |pushed| ==> |arena0| <= pushed[j] < |arena|
    ensures Increasing(pushed)
    ensures Trace(p, c0, arena, reached, frontier, order + [n], popped + {n})
    ensures goal.Some? ==> GoalChild(p, arena, |arena0|, n, goal.value)
    ensures goal.None? ==> Searching(p, universe, c0, arena, reached, frontier, order + [n], popped + {n})
    ensures goal.None? ==> Exhausting(arena, reached, frontier, popped + {n})
    ensures goal.None? ==> reached0.Keys <= reached.Keys <= universe
    ensures goal.None? && pushed == [] ==> reached == reached0
    ensures goal.None? && pushed != [] ==> arena[pushed[0]].state in reached.Keys - reached0.Keys
  {
    var i := if lifo then |frontier0| - 1 else 0;
    n := frontier0[i];
    var rest := if lifo then frontier0[..i] else frontier0[1..];
    var node := arena0[n];
    children := Expand(p, counter, node, n);
    arena := arena0 + children;
    Take(p, universe, arena0, children, arena, reached0, frontier0, i, n, rest);
    IdsGrow(arena0, children, c0);
    goal, reached, frontier, pushed := VisitChildren(p, universe, arena, n, |arena0|, reached0, rest);
    ExpandedStep(arena0, children, reached0, reached, frontier0, i, rest, pushed, order, popped);
    ExploredGrows(arena0, children, popped, n);
    if goal.None? {
      ExhaustingStep(arena0, children, reached0, reached, frontier0, i, rest, pushed, popped);
    } else {
      forall j | 0 <= j < |arena0| ensures !p.isGoal(arena[j].state) {
        assert arena[j] == arena0[j];
      }
    }
  }

  /**
   * The end of either search: the path of the goal node found, or `[]` once the
   * frontier has run dry, which the bookkeeping turns into "no goal is reachable".
   */
  method Finish<S(!new), A(!new)>(p: Problem<S, A>, ghost universe: set<S>, ghost c0: nat, nodes: seq<Node<S, A>>,
                                  ghost reached: map<S, nat>, ghost frontier: seq<nat>, ghost order: seq<nat>,
                                  ghost popped: set<nat>, goal: Option<nat>)
    returns (path: seq<Option<A>>)
    requires Trace(p, c0, nodes, reached, frontier, order, popped)
    requires goal.None? ==> frontier == [] && Searching(p, universe, c0, nodes, reached, frontier, order, popped)
    requires goal.Some? ==> FirstGoal(p, nodes, order, goal.value)
    requires goal.None? ==> Exhausting(nodes, reached, frontier, popped)
    requires Explored(nodes, popped)
    ensures goal.Some? ==> path == PathTo(nodes, goal.value)
    ensures path != [] ==>
              exists g: nat :: FirstGoal(p, nodes, order, g) && p.isGoal(nodes[g].state) && path == PathTo(nodes, g)
    ensures path == [] ==> forall k :: 0 <= k < |nodes| ==>
              !p.isGoal(nodes[k].state) && exists i :: 0 <= i < |order| && nodes[order[i]].state == nodes[k].state
    ensures forall k :: 0 < k < |nodes| ==> nodes[k].parent.Some? && nodes[k].parent.value in order
    ensures path == [] <==> !GoalReachable(p)
    ensures path != [] ==> exists run :: IsRun(p, p.initial, run) && p.isGoal(EndOf(p.initial, run))
                                         && path == [None] + Somes(Labels(run))
    ensures forall i, j :: 0 <= i < j < |order| ==> nodes[order[i]].state != nodes[order[j]].state
  {
    ExpandedStatesDistinct(nodes, reached, frontier, order, popped);
    if goal.Some? {
      path := GetPath(nodes, goal.value);
      RunToIsRun(p, nodes, goal.value);
      PathToShape(p, nodes, goal.value);
    } else {
      AllSettledNoGoal(p, reached.Keys);
      ExhaustedExpanded(p, universe, c0, nodes, reached, order, popped);
      path := [];
    }
  }

  /**
   * A queue that ran dry leaves every built node's state expanded once, and
   * none of them a goal.
   */
  lemma ExhaustedExpanded<S(!new), A(!new)>(p: Problem<S, A>, universe: set<S>, c0: nat, nodes: seq<Node<S, A>>,
                                            reached: map<S, nat>, order: seq<nat>, popped: set<nat>)
    requires Searching(p, universe, c0, nodes, reached, [], order, popped)
    requires Exhausting(nodes, reached, [], popped)
    ensures forall k :: 0 <= k < |nodes| ==>
              !p.isGoal(nodes[k].state) && exists i :: 0 <= i < |order| && nodes[order[i]].state == nodes[k].state
  {
    forall k | 0 <= k < |nodes|
      ensures !p.isGoal(nodes[k].state) && exists i :: 0 <= i < |order| && nodes[order[i]].state == nodes[k].state
    {
      var x := reached[nodes[k].state];
      assert x in popped;
      var i :| 0 <= i < |order| && order[i] == x;
      assert nodes[order[i]].state == nodes[k].state;
    }
  }

  /**
   * First in, first out: with the expanded nodes and the queue increasing
   * together, taking the front and appending newer nodes keeps them so.
   */
  lemma FifoStep(order: seq<nat>, frontier0: seq<nat>, pushed: seq<nat>, bound: nat)
    requires frontier0 != [] && Increasing(order + frontier0) && frontier0[|frontier0| - 1] < bound
    requires Increasing(pushed) && forall j :: 0 <= j < |pushed| ==> bound <= pushed[j]
    ensures Increasing(order + [frontier0[0]])
    ensures Increasing(order + [frontier0[0]] + (frontier0[1..] + pushed))
  {
    assert order + frontier0 == order + [frontier0[0]] + frontier0[1..];
    IncreasingPrefix(order + [frontier0[0]], frontier0[1..]);
    IncreasingAppend(order + frontier0, pushed);
    assert order + [frontier0[0]] + (frontier0[1..] + pushed) == order + frontier0 + pushed;
  }

  /**
   * The state of the breadth-first loop while no goal has turned up: the search
   * bookkeeping, the queue in creation order behind the expanded nodes, and its
   * levels.
   */
  ghost predicate Queued<S(!new), A(!new)>(p: Problem<S, A>, universe: set<S>, c0: nat, nodes: seq<Node<S, A>>,
                                           reached: map<S, nat>, frontier: seq<nat>, order: seq<nat>,
                                           popped: set<nat>, level: nat, split: nat)
  {
    && Searching(p, universe, c0, nodes, reached, frontier, order, popped)
    && Exhausting(nodes, reached, frontier, popped)
    && Increasing(order + frontier)
    && Levels(nodes, frontier, level, split)
  }

  /**
   * `Round` on the front of the queue: the node taken off joins the expanded
   * ones, and the queue stays in creation order behind them.
   */
  method QueueRound<S(!new, ==), A(!new)>(p: Problem<S, A>, ghost universe: set<S>, counter: NodeCounter,
                                          arena0: seq<Node<S, A>>, reached0: map<S, nat>, frontier0: seq<nat>,
                                          ghost c0: nat, ghost order0: seq<nat>, ghost popped0: set<nat>)
    returns (goal: Option<nat>, arena: seq<Node<S, A>>, reached: map<S, nat>, frontier: seq<nat>,
             ghost order: seq<nat>, ghost popped: set<nat>, ghost children: seq<Node<S, A>>,
             ghost pushed: seq<nat>)
    requires Closed(p, universe) && frontier0 != []
    requires Searching(p, universe, c0, arena0, reached0, frontier0, order0, popped0)
    requires Explored(arena0, popped0) && Exhausting(arena0, reached0, frontier0, popped0)
    requires Increasing(order0 + frontier0)
    requires counter.count == c0 + |arena0|
    modifies counter
    ensures counter.count == c0 + |arena|
    ensures frontier0[0] < |arena0| && order == order0 + [frontier0[0]] && popped == popped0 + {frontier0[0]}
    ensures arena == arena0 + children && frontier == frontier0[1..] + pushed
    ensures forall k :: 0 <= k < |children| ==> children[k].depth == arena0[frontier0[0]].depth + 1
    ensures forall j :: 0 <= j < |pushed| ==> |arena0| <= pushed[j] < |arena|
    ensures Trace(p, c0, arena, reached, frontier, order, popped)
    ensures Explored(arena, popped) && Increasing(order)
    ensures goal.Some? ==> FirstGoal(p, arena, order, goal.value)
    ensures goal.None? ==> Searching(p, universe, c0, arena, reached, frontier, order, popped)
    ensures goal.None? ==> Exhausting(arena, reached, frontier, popped) && Increasing(order + frontier)
    ensures goal.None? ==> |universe - reached.Keys| < |universe - reached0.Keys|
                           || (reached == reached0 && |frontier| < |frontier0|)
  {
    var n;
    goal, arena, reached, frontier, n, children, pushed :=
      Round(p, universe, counter, false, arena0, reached0, frontier0, c0, order0, popped0);
    FifoStep(order0, frontier0, pushed, |arena0|);
    order, popped := order0 + [n], popped0 + {n};
    if goal.None? && pushed != [] {
      UnreachedShrinks(universe, reached0.Keys, reached.Keys, arena[pushed[0]].state);
    }
  }

  /**
   * One breadth-first round: `QueueRound`, together with the levels of the
   * queue and of the expanded nodes.
   */
  method BreadthRound<S(!new, ==), A(!new)>(p: Problem<S, A>, ghost universe: set<S>, counter: NodeCounter,
                                            arena0: seq<Node<S, A>>, reached0: map<S, nat>, frontier0: seq<nat>,
                                            ghost c0: nat, ghost order0: seq<nat>, ghost popped0: set<nat>,
                                            ghost level0: nat, ghost split0: nat)
    returns (goal: Option<nat>, arena: seq<Node<S, A>>, reached: map<S, nat>, frontier: seq<nat>,
             ghost order: seq<nat>, ghost popped: set<nat>, ghost level: nat, ghost split: nat)
    requires Closed(p, universe) && frontier0 != []
    requires Queued(p, universe, c0, arena0, reached0, frontier0, order0, popped0, level0, split0)
    requires Explored(arena0, popped0) && Ascending(arena0, order0, level0)
    requires counter.count == c0 + |arena0|
    modifies counter
    ensures counter.count == c0 + |arena|
    ensures order == order0 + [frontier0[0]] && popped == popped0 + {frontier0[0]}
    ensures Trace(p, c0, arena, reached, frontier, order, popped)
    ensures Explored(arena, popped)
    ensures Ascending(arena, order, level)
    ensures Increasing(order)
    ensures goal.Some? ==> FirstGoal(p, arena, order, goal.value)
    ensures goal.None? ==> Queued(p, universe, c0, arena, reached, frontier, order, popped, level, split)
    ensures goal.None? ==> |universe - reached.Keys| < |universe - reached0.Keys|
                           || (reached == reached0 && |frontier| < |frontier0|)
  {
    level, split := level0, split0;
    if split == 0 {
      NextLevel(arena0, frontier0, order0, level0);
      level, split := level + 1, |frontier0|;
    }
    ghost var children, pushed;
    goal, arena, reached, frontier, order, popped, children, pushed :=
      QueueRound(p, universe, counter, arena0, reached0, frontier0, c0, order0, popped0);
    BreadthStep(arena0, children, frontier0, pushed, order0, frontier0[0], level, split);
    split := split - 1;
  }

  /**
   * The `while frontier` loop of `breadth_first_search`, from the queue holding
   * only the root until a goal child turns up or the queue runs dry.  The nodes
   * are expanded level by level, so their depths never decrease.
   */
  method BreadthLoop<S(!new, ==), A(!new)>(p: Problem<S, A>, ghost universe: set<S>, counter: NodeCounter,
                                           ghost c0: nat, arena0: seq<Node<S, A>>)
    returns (goal: Option<nat>, arena: seq<Node<S, A>>, reached: map<S, nat>, frontier: seq<nat>,
             ghost order: seq<nat>, ghost popped: set<nat>)
    requires Closed(p, universe) && |arena0| == 1
    requires Searching(p, universe, c0, arena0, map[p.initial := 0], [0], [], {})
    requires counter.count == c0 + 1
    modifies counter
    ensures counter.count == c0 + |arena|
    ensures Trace(p, c0, arena, reached, frontier, order, popped)
    ensures goal.None? ==> frontier == [] && Searching(p, universe, c0, arena, reached, frontier, order, popped)
    ensures goal.Some? ==> FirstGoal(p, arena, order, goal.value)
    ensures goal.None? ==> Exhausting(arena, reached, frontier, popped)
    ensures Explored(arena, popped)
    ensures forall i, j :: 0 <= i < j < |order| ==> arena[order[i]].depth <= arena[order[j]].depth
    ensures forall i, j :: 0 <= i < j < |order| ==> order[i] < order[j]
  {
    arena, reached, frontier, order, popped := arena0, map[p.initial := 0], [0], [], {};
    ghost var level: nat, split: nat := 0, 1;
    goal := None;
    while goal.None? && frontier != []
      invariant counter.count == c0 + |arena|
      invariant Trace(p, c0, arena, reached, frontier, order, popped)
      invariant goal.None? ==> Queued(p, universe, c0, arena, reached, frontier, order, popped, level, split)
      invariant goal.Some? ==> FirstGoal(p, arena, order, goal.value)
      invariant Explored(arena, popped)
      invariant Ascending(arena, order, level)
      invariant Increasing(order)
      decreases if goal.None? then 1 else 0, |universe - reached.Keys|, |frontier|
    {
      goal, arena, reached, frontier, order, popped, level, split :=
        BreadthRound(p, universe, counter, arena, reached, frontier, c0, order, popped, level, split);
    }
    DepthsSorted(arena, order, level);
    IncreasingDistinct(order);
  }

  /**
   * The `while frontier` loop of `depth_first_search`: always the node pushed
   * last is expanded, until a goal child turns up or the stack runs dry.
   */
  method DepthLoop<S(!new, ==), A(!new)>(p: Problem<S, A>, ghost universe: set<S>, counter: NodeCounter,
                                         ghost c0: nat, arena0: seq<Node<S, A>>)
    returns (goal: Option<nat>, arena: seq<Node<S, A>>, reached: map<S, nat>, frontier: seq<nat>,
             ghost order: seq<nat>, ghost popped: set<nat>, ghost stacks: seq<seq<nat>>)
    requires Closed(p, universe) && |arena0| == 1
    requires Searching(p, universe, c0, arena0, map[p.initial := 0], [0], [], {})
    requires counter.count == c0 + 1
    modifies counter
    ensures counter.count == c0 + |arena|
    ensures Trace(p, c0, arena, reached, frontier, order, popped)
    ensures goal.None? ==> frontier == [] && Searching(p, universe, c0, arena, reached, frontier, order, popped)
    ensures goal.Some? ==> FirstGoal(p, arena, order, goal.value)
    ensures goal.None? ==> Exhausting(arena, reached, frontier, popped)
    ensures Explored(arena, popped)
    ensures Stacks(arena, order, stacks) && stacks[0] == [0] && stacks[|stacks| - 1] == frontier
  {
    arena, reached, frontier, order, popped := arena0, map[p.initial := 0], [0], [], {};
    stacks := [[0]];
    goal := None;
    while goal.None? && frontier != []
      invariant counter.count == c0 + |arena|
      invariant Trace(p, c0, arena, reached, frontier, order, popped)
      invariant goal.None? ==> Searching(p, universe, c0, arena, reached, frontier, order, popped)
      invariant goal.Some? ==> FirstGoal(p, arena, order, goal.value)
      invariant goal.None? ==> Exhausting(arena, reached, frontier, popped)
      invariant Explored(arena, popped)
      invariant Stacks(arena, order, stacks) && stacks[0] == [0] && stacks[|stacks| - 1] == frontier
      decreases if goal.None? then 1 else 0, |universe - reached.Keys|, |frontier|
    {
      ghost var pushed;
      goal, arena, reached, frontier, order, popped, pushed, stacks :=
        DepthRound(p, universe, counter, arena, reached, frontier, c0, order, popped, stacks);
    }
  }

  /**
   * One depth-first turn, seen on the stack: `n` is the node on top of `stack`,
   * and `stack1` is the rest of `stack` with children of `n` pushed on top.
   */
  ghost predicate LifoTurn<S, A>(nodes: seq<Node<S, A>>, stack: seq<nat>, n: nat, stack1: seq<nat>) {
    && stack != [] && n == stack[|stack| - 1]
    && |stack| - 1 <= |stack1| && stack1[..|stack| - 1] == stack[..|stack| - 1]
    && forall j :: |stack| - 1 <= j < |stack1| ==> stack1[j] < |nodes| && nodes[stack1[j]].parent == Some(n)
  }

  /**
   * The stack over a depth-first loop: `stacks[k]` is the stack `order[k]` is
   * taken from, the last one is the stack now, and each turn takes the top.
   */
  ghost predicate Stacks<S, A>(nodes: seq<Node<S, A>>, order: seq<nat>, stacks: seq<seq<nat>>) {
    && |stacks| == |order| + 1
    && forall k :: 0 <= k < |order| ==> LifoTurn(nodes, stacks[k], order[k], stacks[k + 1])
  }

  /**
   * A depth-first round on the stack: the top `n` is taken, and the children
   * of `n` that are pushed go on top of the rest.
   */
  lemma LifoStep<S, A>(arena0: seq<Node<S, A>>, children: seq<Node<S, A>>, arena: seq<Node<S, A>>,
                       frontier0: seq<nat>, frontier: seq<nat>, pushed: seq<nat>, n: nat, order0: seq<nat>,
                       stacks0: seq<seq<nat>>)
    requires arena == arena0 + children && forall k :: 0 <= k < |children| ==> children[k].parent == Some(n)
    requires frontier0 != [] && n == frontier0[|frontier0| - 1]
    requires frontier == frontier0[..|frontier0| - 1] + pushed
    requires forall j :: 0 <= j < |pushed| ==> |arena0| <= pushed[j] < |arena|
    ensures forall j :: 0 <= j < |pushed| ==> arena[pushed[j]].parent == Some(n)
    ensures Stacks(arena0, order0, stacks0) && stacks0[|stacks0| - 1] == frontier0 ==>
      Stacks(arena, order0 + [n], stacks0 + [frontier])
  {
    forall j | 0 <= j < |pushed| ensures arena[pushed[j]].parent == Some(n) {
      assert arena[pushed[j]] == children[pushed[j] - |arena0|];
    }
    if Stacks(arena0, order0, stacks0) && stacks0[|stacks0| - 1] == frontier0 {
      assert arena[..|arena0|] == arena0;
      StacksGrow(arena0, arena, order0, stacks0);
      assert frontier[..|frontier0| - 1] == frontier0[..|frontier0| - 1];
      forall j | |frontier0| - 1 <= j < |frontier| ensures frontier[j] < |arena| && arena[frontier[j]].parent == Some(n) {
        assert frontier[j] == pushed[j - (|frontier0| - 1)];
      }
      assert LifoTurn(arena, frontier0, n, frontier);
      var stacks := stacks0 + [frontier];
      forall k | 0 <= k < |order0| + 1 ensures LifoTurn(arena, stacks[k], (order0 + [n])[k], stacks[k + 1]) {
        if k < |order0| {
          assert stacks[k] == stacks0[k] && stacks[k + 1] == stacks0[k + 1];
        }
      }
    }
  }

  /** Growing the arena keeps the history of the stack. */
  lemma StacksGrow<S, A>(nodes0: seq<Node<S, A>>, nodes: seq<Node<S, A>>, order: seq<nat>, stacks: seq<seq<nat>>)
    requires |nodes0| <= |nodes| && nodes[..|nodes0|] == nodes0
    requires Stacks(nodes0, order, stacks)
    ensures Stacks(nodes, order, stacks)
  {
    forall k | 0 <= k < |order| ensures LifoTurn(nodes, stacks[k], order[k], stacks[k + 1]) {
      var s, s1 := stacks[k], stacks[k + 1];
      forall j | |s| - 1 <= j < |s1| ensures s1[j] < |nodes| && nodes[s1[j]].parent == Some(order[k]) {
        assert nodes[s1[j]] == nodes0[s1[j]];
      }
    }
  }

  /**
   * One depth-first round: `Round` on the top of the stack, which joins the
   * expanded nodes, and the measure that makes the search loop terminate.
   */
  method DepthRound<S(!new, ==), A(!new)>(p: Problem<S, A>, ghost universe: set<S>, counter: NodeCounter,
                                          arena0: seq<Node<S, A>>, reached0: map<S, nat>, frontier0: seq<nat>,
                                          ghost c0: nat, ghost order0: seq<nat>, ghost popped0: set<nat>,
                                          ghost stacks0: seq<seq<nat>>)
    returns (goal: Option<nat>, arena: seq<Node<S, A>>, reached: map<S, nat>, frontier: seq<nat>,
             ghost order: seq<nat>, ghost popped: set<nat>, ghost pushed: seq<nat>, ghost stacks: seq<seq<nat>>)
    requires Closed(p, universe) && frontier0 != []
    requires Searching(p, universe, c0, arena0, reached0, frontier0, order0, popped0)
    requires Explored(arena0, popped0) && Exhausting(arena0, reached0, frontier0, popped0)
    requires counter.count == c0 + |arena0|
    modifies counter
    ensures counter.count == c0 + |arena|
    ensures order == order0 + [frontier0[|frontier0| - 1]] && popped == popped0 + {frontier0[|frontier0| - 1]}
    ensures frontier == frontier0[..|frontier0| - 1] + pushed
    ensures forall j :: 0 <= j < |pushed| ==>
      |arena0| <= pushed[j] < |arena| && arena[pushed[j]].parent == Some(frontier0[|frontier0| - 1])
    ensures Stacks(arena0, order0, stacks0) && stacks0[|stacks0| - 1] == frontier0 ==>
      Stacks(arena, order, stacks) && stacks == stacks0 + [frontier]
    ensures Trace(p, c0, arena, reached, frontier, order, popped)
    ensures Explored(arena, popped)
    ensures goal.Some? ==> FirstGoal(p, arena, order, goal.value)
    ensures goal.None? ==> Searching(p, universe, c0, arena, reached, frontier, order, popped)
    ensures goal.None? ==> Exhausting(arena, reached, frontier, popped)
    ensures goal.None? ==> |universe - reached.Keys| < |universe - reached0.Keys|
                           || (reached == reached0 && |frontier| < |frontier0|)
  {
    var n, children;
    goal, arena, reached, frontier, n, children, pushed :=
      Round(p, universe, counter, true, arena0, reached0, frontier0, c0, order0, popped0);
    order, popped := order0 + [n], popped0 + {n};
    if goal.None? && pushed != [] {
      UnreachedShrinks(universe, reached0.Keys, reached.Keys, arena[pushed[0]].state);
    }
    stacks := stacks0 + [frontier];
    LifoStep(arena0, children, arena, frontier0, frontier, pushed, n, order0, stacks0);
  }

  /**
   * The breadth-first search proper, once the root is known not to be a goal:
   * the loop from the queue holding only the root, then the path of its result.
   */
  method BreadthRun<S(!new, ==), A(!new)>(p: Problem<S, A>, ghost universe: set<S>, counter: NodeCounter,
                                          root: Node<S, A>)
    returns (path: seq<Option<A>>, ghost nodes: seq<Node<S, A>>, ghost order: seq<nat>)
    requires p.initial in universe && Closed(p, universe) && !p.isGoal(p.initial)
    requires counter.count > 0 && root == Node(p.initial, None, None, 0, 0, counter.count - 1)
    modifies counter
    ensures Tree(p, nodes) && IdsFrom(nodes, old(counter.count) - 1) && nodes[0] == root
    ensures counter.count == old(counter.count) - 1 + |nodes|
    ensures path == [] <==> !GoalReachable(p)
    ensures path != [] ==> exists run :: IsRun(p, p.initial, run) && p.isGoal(EndOf(p.initial, run))
                                         && path == [None] + Somes(Labels(run))
    ensures forall i :: 0 <= i < |order| ==> order[i] < |nodes|
    ensures forall i, j :: 0 <= i < j < |order| ==> nodes[order[i]].state != nodes[order[j]].state
    ensures forall k :: 0 < k < |nodes| ==> nodes[k].parent.Some? && nodes[k].parent.value in order
    ensures path != [] ==>
              exists g: nat :: FirstGoal(p, nodes, order, g) && p.isGoal(nodes[g].state) && path == PathTo(nodes, g)
    ensures path == [] ==> forall k :: 0 <= k < |nodes| ==>
              !p.isGoal(nodes[k].state) && exists i :: 0 <= i < |order| && nodes[order[i]].state == nodes[k].state
    ensures forall i, j :: 0 <= i < j < |order| ==> nodes[order[i]].depth <= nodes[order[j]].depth
    ensures forall i, j :: 0 <= i < j < |order| ==> order[i] < order[j]
  {
    ghost var c0 := counter.count - 1;
    Start(p, universe, c0, root);
    var goal, arena, reached, frontier;
    ghost var popped;
    goal, arena, reached, frontier, order, popped := BreadthLoop(p, universe, counter, c0, [root]);
    nodes := arena;
    path := Finish(p, universe, c0, arena, reached, frontier, order, popped, goal);
  }

  /**
   * `breadth_first_search`.  On an initial goal it returns the root's path `[None]`
   * without expanding anything; otherwise it returns the path of the first
   * generated child that is a goal, behind the root's `None`, or `[]` once the
   * queue is empty, which happens exactly when no goal is reachable.  `nodes` is
   * every node the call constructs, numbered by the node counter; `order` lists
   * the expanded nodes: no state is expanded twice and depths never decrease.
   */
  method BreadthFirstSearch<S(!new, ==), A(!new)>(p: Problem<S, A>, ghost universe: set<S>, counter: NodeCounter)
    returns (path: seq<Option<A>>, ghost nodes: seq<Node<S, A>>, ghost order: seq<nat>)
    requires p.initial in universe && Closed(p, universe)
    modifies counter
    ensures Tree(p, nodes) && IdsFrom(nodes, old(counter.count))
    ensures counter.count == old(counter.count) + |nodes|
    ensures p.isGoal(p.initial) ==> path == [None] && |nodes| == 1 && order == []
    ensures path == [] <==> !GoalReachable(p)
    ensures path != [] ==> exists run :: IsRun(p, p.initial, run) && p.isGoal(EndOf(p.initial, run))
                                         && path == [None] + Somes(Labels(run))
    ensures forall i :: 0 <= i < |order| ==> order[i] < |nodes|
    ensures forall i, j :: 0 <= i < j < |order| ==> nodes[order[i]].state != nodes[order[j]].state
    ensures forall k :: 0 < k < |nodes| ==> nodes[k].parent.Some? && nodes[k].parent.value in order
    ensures !p.isGoal(p.initial) && path != [] ==>
              exists g: nat :: FirstGoal(p, nodes, order, g) && p.isGoal(nodes[g].state) && path == PathTo(nodes, g)
    ensures path == [] ==> forall k :: 0 <= k < |nodes| ==>
              !p.isGoal(nodes[k].state) && exists i :: 0 <= i < |order| && nodes[order[i]].state == nodes[k].state
    ensures forall i, j :: 0 <= i < j < |order| ==> nodes[order[i]].depth <= nodes[order[j]].depth
    ensures forall i, j :: 0 <= i < j < |order| ==> order[i] < order[j]
  {
    ghost var c0 := counter.count;
    var root := counter.Make(p.initial, None, None, 0, 0);
    nodes, order := [root], [];
    if p.isGoal(root.state) {
      path := GetPath([root], 0);
      RunToIsRun(p, nodes, 0);
      return;
    }
    path, nodes, order := BreadthRun(p, universe, counter, root);
  }

  /**
   * The depth-first search proper, once the root is known not to be a goal:
   * the loop from the stack holding only the root, then the path of its result.
   */
  method DepthRun<S(!new, ==), A(!new)>(p: Problem<S, A>, ghost universe: set<S>, counter: NodeCounter,
                                          root: Node<S, A>)
    returns (path: seq<Option<A>>, ghost nodes: seq<Node<S, A>>, ghost order: seq<nat>,
             ghost stacks: seq<seq<nat>>)
    requires p.initial in universe && Closed(p, universe) && !p.isGoal(p.initial)
    requires counter.count > 0 && root == Node(p.initial, None, None, 0, 0, counter.count - 1)
    modifies counter
    ensures Tree(p, nodes) && IdsFrom(nodes, old(counter.count) - 1) && nodes[0] == root
    ensures counter.count == old(counter.count) - 1 + |nodes|
    ensures path == [] <==> !GoalReachable(p)
    ensures path != [] ==> exists run :: IsRun(p, p.initial, run) && p.isGoal(EndOf(p.initial, run))
                                         && path == [None] + Somes(Labels(run))
    ensures forall i :: 0 <= i < |order| ==> order[i] < |nodes|
    ensures forall i, j :: 0 <= i < j < |order| ==> nodes[order[i]].state != nodes[order[j]].state
    ensures forall k :: 0 < k < |nodes| ==> nodes[k].parent.Some? && nodes[k].parent.value in order
    ensures path != [] ==>
              exists g: nat :: FirstGoal(p, nodes, order, g) && p.isGoal(nodes[g].state) && path == PathTo(nodes, g)
    ensures path == [] ==> forall k :: 0 <= k < |nodes| ==>
              !p.isGoal(nodes[k].state) && exists i :: 0 <= i < |order| && nodes[order[i]].state == nodes[k].state
    ensures Stacks(nodes, order, stacks) && stacks[0] == [0]
  {
    ghost var c0 := counter.count - 1;
    Start(p, universe, c0, root);
    var goal, arena, reached, frontier;
    ghost var popped;
    goal, arena, reached, frontier, order, popped, stacks := DepthLoop(p, universe, counter, c0, [root]);
    nodes := arena;
    path := Finish(p, universe, c0, arena, reached, frontier, order, popped, goal);
  }

  /**
   * `depth_first_search`: as breadth-first search, but the frontier is a stack
   * and the node expanded next is always the one pushed last.
   */
  method DepthFirstSearch<S(!new, ==), A(!new)>(p: Problem<S, A>, ghost universe: set<S>, counter: NodeCounter)
    returns (path: seq<Option<A>>, ghost nodes: seq<Node<S, A>>, ghost order: seq<nat>,
             ghost stacks: seq<seq<nat>>)
    requires p.initial in universe && Closed(p, universe)
    modifies counter
    ensures Tree(p, nodes) && IdsFrom(nodes, old(counter.count))
    ensures counter.count == old(counter.count) + |nodes|
    ensures p.isGoal(p.initial) ==> path == [None] && |nodes| == 1 && order == []
    ensures path == [] <==> !GoalReachable(p)
    ensures path != [] ==> exists run :: IsRun(p, p.initial, run) && p.isGoal(EndOf(p.initial, run))
                                         && path == [None] + Somes(Labels(run))
    ensures forall i :: 0 <= i < |order| ==> order[i] < |nodes|
    ensures forall i, j :: 0 <= i < j < |order| ==> nodes[order[i]].state != nodes[order[j]].state
    ensures forall k :: 0 < k < |nodes| ==> nodes[k].parent.Some? && nodes[k].parent.value in order
    ensures !p.isGoal(p.initial) && path != [] ==>
              exists g: nat :: FirstGoal(p, nodes, order, g) && p.isGoal(nodes[g].state) && path == PathTo(nodes, g)
    ensures path == [] ==> forall k :: 0 <= k < |nodes| ==>
              !p.isGoal(nodes[k].state) && exists i :: 0 <= i < |order| && nodes[order[i]].state == nodes[k].state
    ensures Stacks(nodes, order, stacks) && stacks[0] == [0]
  {
    ghost var c0 := counter.count;
    var root := counter.Make(p.initial, None, None, 0, 0);
    nodes, order, stacks := [root], [], [[0]];
    if p.isGoal(root.state) {
      path := GetPath([root], 0);
      RunToIsRun(p, nodes, 0);
      return;
    }
    path, nodes, order, stacks := DepthRun(p, universe, counter, root);
  }
}
