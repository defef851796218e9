/**
 * The search-tree node and the abstract problem contract (the `Node` and
 * `Problem` classes of Problem.py), shared by every strategy.
 *
 * Nodes live in an arena: the search keeps every node it creates in a
 * sequence, in creation order, and a node names its parent by its index in
 * that sequence.  Parents are created before their children, so every parent
 * index is smaller than the child's own index and the links form a tree.
 */
module SearchCore {
  import opened Wrappers

  /** One applicable transition: the action label, the state it leads to and its cost. */
  datatype Move<S, A> = Move(action: A, next: S, cost: nat)

  /**
   * A searchable problem: the initial state, the goal test and, for a state, its
   * moves in the order the domain's `expand` produces the children.
   */
  datatype Problem<!S, A> = Problem(initial: S, isGoal: S -> bool, successors: S -> seq<Move<S, A>>)

  /**
   * A search node.  `parent` is an arena index; `id` is the value the class-level
   * counter `Node.count` had when the node was constructed.
   */
  datatype Node<S, A> = Node(state: S, parent: Option<nat>, action: Option<A>,
                             pathCost: nat, depth: nat, id: nat)

  /** The class-level counter `Node.count`: every construction takes its value and bumps it. */
  class NodeCounter {
    var count: nat

    constructor ()
      ensures count == 0
    {
      count := 0;
    }

    /** `Node(state, parent, action, path_cost, depth)`: the stored fields are exactly the arguments. */
    method Make<S, A>(state: S, parent: Option<nat>, action: Option<A>, pathCost: nat, depth: nat)
      returns (n: Node<S, A>)
      modifies this
      ensures n == Node(state, parent, action, pathCost, depth, old(count))
      ensures count == old(count) + 1
    {
      n := Node(state, parent, action, pathCost, depth, count);
      count := count + 1;
    }
  }

  /**
   * `expand(node)` for any domain: one child per move, in the moves' order, each
   * pointing at the parent's arena index `n`, with the move's action, one more
   * level of depth and the move's cost added.
   */
  method Expand<S, A>(p: Problem<S, A>, counter: NodeCounter, node: Node<S, A>, n: nat)
    returns (children: seq<Node<S, A>>)
    modifies counter
    ensures |children| == |p.successors(node.state)|
    ensures counter.count == old(counter.count) + |children|
    ensures forall i :: 0 <= i < |children| ==>
      var m := p.successors(node.state)[i];
      children[i] == Node(m.next, Some(n), Some(m.action), node.pathCost + m.cost,
                          node.depth + 1, old(counter.count) + i)
  {
    var moves := p.successors(node.state);
    children := [];
    for i := 0 to |moves|
      invariant |children| == i
      invariant counter.count == old(counter.count) + i
      invariant forall j :: 0 <= j < i ==>
        children[j] == Node(moves[j].next, Some(n), Some(moves[j].action),
                            node.pathCost + moves[j].cost, node.depth + 1, old(counter.count) + j)
    {
      var child := counter.Make(moves[i].next, Some(n), Some(moves[i].action),
                                node.pathCost + moves[i].cost, node.depth + 1);
      children := children + [child];
    }
  }

  // ---------------------------------------------------------------------------
  // The arena

  /** Every parent index points to an earlier node. */
  ghost predicate ParentsBefore<S, A>(nodes: seq<Node<S, A>>) {
    forall k :: 0 <= k < |nodes| && nodes[k].parent.Some? ==> nodes[k].parent.value < k
  }

  /** `child`, whose parent is `parent`, was produced from one of the parent's moves. */
  ghost predicate IsChild<S, A>(p: Problem<S, A>, parent: Node<S, A>, child: Node<S, A>) {
    && child.action.Some?
    && child.depth == parent.depth + 1
    && parent.pathCost <= child.pathCost
    && Move(child.action.value, child.state, child.pathCost - parent.pathCost) in p.successors(parent.state)
  }

  /**
   * The arena of one search call: node 0 is the root built from the initial
   * state, and every other node is a child, produced by `expand`, of an earlier node.
   */
  ghost predicate Tree<S, A>(p: Problem<S, A>, nodes: seq<Node<S, A>>) {
    && |nodes| > 0
    && nodes[0].state == p.initial && nodes[0].parent == None && nodes[0].action == None
    && nodes[0].pathCost == 0 && nodes[0].depth == 0
    && ParentsBefore(nodes)
    && forall k :: 0 < k < |nodes| ==>
         nodes[k].parent.Some? && IsChild(p, nodes[nodes[k].parent.value], nodes[k])
  }

  /** The arena's ids are the counter values `start`, `start + 1`, ... in creation order. */
  ghost predicate IdsFrom<S, A>(nodes: seq<Node<S, A>>, start: nat) {
    forall k :: 0 <= k < |nodes| ==> nodes[k].id == start + k
  }

  /** A node built from one of the parent's moves, as `expand` builds it, is a child of that parent. */
  lemma NewChild<S, A>(p: Problem<S, A>, parent: Node<S, A>, child: Node<S, A>, m: Move<S, A>)
    requires m in p.successors(parent.state)
    requires child.state == m.next && child.action == Some(m.action)
    requires child.pathCost == parent.pathCost + m.cost && child.depth == parent.depth + 1
    ensures IsChild(p, parent, child)
  {
    assert Move(child.action.value, child.state, child.pathCost - parent.pathCost) == m;
  }

  lemma TreeGrows<S, A>(p: Problem<S, A>, nodes: seq<Node<S, A>>, children: seq<Node<S, A>>, n: nat)
    requires Tree(p, nodes) && n < |nodes|
    requires |children| <= |p.successors(nodes[n].state)|
    requires forall i :: 0 <= i < |children| ==>
      var m := p.successors(nodes[n].state)[i];
      children[i].state == m.next && children[i].parent == Some(n) && children[i].action == Some(m.action) &&
      children[i].pathCost == nodes[n].pathCost + m.cost && children[i].depth == nodes[n].depth + 1
    ensures Tree(p, nodes + children)
  {
    var all := nodes + children;
    forall k | |nodes| <= k < |all| ensures all[k].parent == Some(n) && IsChild(p, all[n], all[k]) {
      var i := k - |nodes|;
      NewChild(p, nodes[n], children[i], p.successors(nodes[n].state)[i]);
    }
    assert ParentsBefore(all);
  }

  // ---------------------------------------------------------------------------
  // Path reconstruction

  /**
   * The actions on the parent chain from the chain's root down to node `k`, in
   * root-to-`k` order, the root's own (absent) action included.
   */
  ghost function PathTo<S, A>(nodes: seq<Node<S, A>>, k: nat): seq<Option<A>>
    requires ParentsBefore(nodes) && k < |nodes|
    decreases k
  {
    (if nodes[k].parent.None? then [] else PathTo(nodes, nodes[k].parent.value)) + [nodes[k].action]
  }

  /** The same chain without its root: the actions of the nodes that have a parent. */
  ghost function PathBelowRoot<S, A>(nodes: seq<Node<S, A>>, k: nat): seq<Option<A>>
    requires ParentsBefore(nodes) && k < |nodes|
    decreases k
  {
    if nodes[k].parent.None? then [] else PathBelowRoot(nodes, nodes[k].parent.value) + [nodes[k].action]
  }

  // ---------------------------------------------------------------------------
  // Runs: sequences of moves applied from a state

  /** The state a run ends in. */
  function EndOf<S, A>(s: S, run: seq<Move<S, A>>): S {
    if run == [] then s else run[|run| - 1].next
  }

  /** Every move of the run is one of the moves of the state it is taken from. */
  ghost predicate IsRun<S, A>(p: Problem<S, A>, s: S, run: seq<Move<S, A>>)
    decreases |run|
  {
    run == [] || (IsRun(p, s, run[..|run| - 1]) && run[|run| - 1] in p.successors(EndOf(s, run[..|run| - 1])))
  }

  function Labels<S, A>(run: seq<Move<S, A>>): (r: seq<A>)
    ensures |r| == |run|
    ensures forall i :: 0 <= i < |run| ==> r[i] == run[i].action
  {
    if run == [] then [] else Labels(run[..|run| - 1]) + [run[|run| - 1].action]
  }

  function CostOf<S, A>(run: seq<Move<S, A>>): nat {
    if run == [] then 0 else CostOf(run[..|run| - 1]) + run[|run| - 1].cost
  }

  /** Where every move costs 1, the cost of a run is the number of its moves. */
  lemma {:induction false} UnitCostRuns<S, A>(p: Problem<S, A>, s: S, run: seq<Move<S, A>>)
    requires forall t, m :: m in p.successors(t) ==> m.cost == 1
    requires IsRun(p, s, run)
    ensures CostOf(run) == |run|
    decreases |run|
  {
    if run != [] {
      UnitCostRuns(p, s, run[..|run| - 1]);
    }
  }

  /** Some run from the initial state ends in a goal state. */
  ghost predicate GoalReachable<S(!new), A(!new)>(p: Problem<S, A>) {
    exists run :: IsRun(p, p.initial, run) && p.isGoal(EndOf(p.initial, run))
  }

  /** A run followed by one of the moves of the state it ends in is a run one move longer. */
  lemma RunSnoc<S, A>(p: Problem<S, A>, s: S, run: seq<Move<S, A>>, m: Move<S, A>)
    requires IsRun(p, s, run) && m in p.successors(EndOf(s, run))
    ensures IsRun(p, s, run + [m]) && EndOf(s, run + [m]) == m.next
    ensures Labels(run + [m]) == Labels(run) + [m.action]
    ensures CostOf(run + [m]) == CostOf(run) + m.cost
  {
    assert (run + [m])[..|run|] == run;
  }

  /** The moves along the parent chain from the root to node `k`. */
  ghost function RunTo<S, A>(p: Problem<S, A>, nodes: seq<Node<S, A>>, k: nat): seq<Move<S, A>>
    requires Tree(p, nodes) && k < |nodes|
    decreases k
  {
    if nodes[k].parent.None? then []
    else
      var q := nodes[k].parent.value;
      RunTo(p, nodes, q) + [Move(nodes[k].action.value, nodes[k].state, nodes[k].pathCost - nodes[q].pathCost)]
  }

  /**
   * Every node of the arena is reached from the initial state by the run along its
   * parent chain: the run ends in the node's state, costs the node's path cost and
   * has the node's depth as length; `PathTo` is that run's actions behind the root's
   * `None`, and `PathBelowRoot` is the run's actions alone.
   */
  lemma {:induction false} RunToIsRun<S, A>(p: Problem<S, A>, nodes: seq<Node<S, A>>, k: nat)
    requires Tree(p, nodes) && k < |nodes|
    ensures IsRun(p, p.initial, RunTo(p, nodes, k))
    ensures EndOf(p.initial, RunTo(p, nodes, k)) == nodes[k].state
    ensures CostOf(RunTo(p, nodes, k)) == nodes[k].pathCost
    ensures |RunTo(p, nodes, k)| == nodes[k].depth
    ensures PathTo(nodes, k) == [None] + Somes(Labels(RunTo(p, nodes, k)))
    ensures PathBelowRoot(nodes, k) == Somes(Labels(RunTo(p, nodes, k)))
    decreases k
  {
    if nodes[k].parent.Some? {
      var q := nodes[k].parent.value;
      RunToIsRun(p, nodes, q);
      assert IsChild(p, nodes[q], nodes[k]);
      var m := Move(nodes[k].action.value, nodes[k].state, nodes[k].pathCost - nodes[q].pathCost);
      assert RunTo(p, nodes, k) == RunTo(p, nodes, q) + [m];
      RunSnoc(p, p.initial, RunTo(p, nodes, q), m);
    } else {
      assert k == 0;
    }
    RunToLabels(p, nodes, k);
  }

  /** The run to a node with a parent is the run to the parent and one more move, labelled by the node's action. */
  lemma RunToStep<S, A>(p: Problem<S, A>, nodes: seq<Node<S, A>>, k: nat)
    requires Tree(p, nodes) && k < |nodes| && nodes[k].parent.Some?
    ensures Labels(RunTo(p, nodes, k)) == Labels(RunTo(p, nodes, nodes[k].parent.value)) + [nodes[k].action.value]
  {
    var run := RunTo(p, nodes, k);
    assert run[..|run| - 1] == RunTo(p, nodes, nodes[k].parent.value);
  }

  /** The labels of the run to node `k` are the actions on its parent chain. */
  lemma {:induction false} RunToLabels<S, A>(p: Problem<S, A>, nodes: seq<Node<S, A>>, k: nat)
    requires Tree(p, nodes) && k < |nodes|
    ensures PathTo(nodes, k) == [None] + Somes(Labels(RunTo(p, nodes, k)))
    ensures PathBelowRoot(nodes, k) == Somes(Labels(RunTo(p, nodes, k)))
    decreases k
  {
    if nodes[k].parent.Some? {
      var q := nodes[k].parent.value;
      RunToLabels(p, nodes, q);
      RunToStep(p, nodes, k);
      SomesSnoc(Labels(RunTo(p, nodes, q)), nodes[k].action.value);
    } else {
      assert k == 0;
    }
  }

  /** The uninformed path of a node is one longer than its depth and starts with the root's `None`. */
  lemma PathToShape<S, A>(p: Problem<S, A>, nodes: seq<Node<S, A>>, k: nat)
    requires Tree(p, nodes) && k < |nodes|
    ensures |PathTo(nodes, k)| == nodes[k].depth + 1 && PathTo(nodes, k)[0] == None
    ensures forall i :: 1 <= i < |PathTo(nodes, k)| ==> PathTo(nodes, k)[i].Some?
    ensures PathTo(nodes, k) == [None] + PathBelowRoot(nodes, k)
  {
    RunToIsRun(p, nodes, k);
  }

  /** The informed path of a node omits the root: its length is the node's depth and no entry is `None`. */
  lemma PathBelowRootShape<S, A>(p: Problem<S, A>, nodes: seq<Node<S, A>>, k: nat)
    requires Tree(p, nodes) && k < |nodes|
    ensures |PathBelowRoot(nodes, k)| == nodes[k].depth
    ensures forall i :: 0 <= i < |PathBelowRoot(nodes, k)| ==> PathBelowRoot(nodes, k)[i].Some?
  {
    RunToIsRun(p, nodes, k);
  }

  // ---------------------------------------------------------------------------
  // Exhaustion: when the frontier empties, nothing reachable is a goal

  /** State `s` has been expanded: it is not a goal and all its successors are in `keys`. */
  ghost predicate Settled<S, A>(p: Problem<S, A>, s: S, keys: set<S>) {
    !p.isGoal(s) && forall i :: 0 <= i < |p.successors(s)| ==> p.successors(s)[i].next in keys
  }

  /** A set closed under the successor relation holds the end of every run that starts in it. */
  lemma {:induction false} ClosedHoldsRuns<S, A>(p: Problem<S, A>, keys: set<S>, s: S, run: seq<Move<S, A>>)
    requires s in keys
    requires forall t, i :: t in keys && 0 <= i < |p.successors(t)| ==> p.successors(t)[i].next in keys
    requires IsRun(p, s, run)
    ensures EndOf(s, run) in keys
    decreases |run|
  {
    if run != [] {
      var prefix := run[..|run| - 1];
      ClosedHoldsRuns(p, keys, s, prefix);
      var t := EndOf(s, prefix);
      var i :| 0 <= i < |p.successors(t)| && p.successors(t)[i] == run[|run| - 1];
    }
  }

  /** If the initial state is among `keys` and every key is settled, no goal is reachable. */
  lemma AllSettledNoGoal<S(!new), A(!new)>(p: Problem<S, A>, keys: set<S>)
    requires p.initial in keys
    requires forall s :: s in keys ==> Settled(p, s, keys)
    ensures !GoalReachable(p)
  {
    forall run | IsRun(p, p.initial, run) ensures !p.isGoal(EndOf(p.initial, run)) {
      ClosedHoldsRuns(p, keys, p.initial, run);
    }
  }

  /** Any arena node lies at the end of a run from the initial state. */
  lemma NodeWitnessesRun<S(!new), A(!new)>(p: Problem<S, A>, nodes: seq<Node<S, A>>, k: nat)
    requires Tree(p, nodes) && k < |nodes| && p.isGoal(nodes[k].state)
    ensures GoalReachable(p)
  {
    RunToIsRun(p, nodes, k);
  }

  // ---------------------------------------------------------------------------
  // Facts about the arena, the reached map and the frontier shared by all strategies

  /** The universe is a finite set of states closed under the problem's moves. */
  ghost predicate Closed<S, A>(p: Problem<S, A>, universe: set<S>) {
    forall s, i :: s in universe && 0 <= i < |p.successors(s)| ==> p.successors(s)[i].next in universe
  }

  /**
   * The arena from index `start` on holds the children of node `n`: one per
   * successor of its state, in order, each inside `universe`, with `n` as its
   * parent and `n`'s path cost plus the move's cost as its own.
   */
  ghost predicate Generated<S, A>(p: Problem<S, A>, universe: set<S>, nodes: seq<Node<S, A>>, n: nat, start: nat) {
    && n < start <= |nodes| && |nodes| - start == |p.successors(nodes[n].state)|
    && forall i :: start <= i < |nodes| ==>
         && nodes[i].state == p.successors(nodes[n].state)[i - start].next && nodes[i].state in universe
         && nodes[i].parent == Some(n)
         && nodes[i].pathCost == nodes[n].pathCost + p.successors(nodes[n].state)[i - start].cost
  }

  /** Once every child state of node `n` is among `keys`, so is every successor of its state. */
  lemma ChildrenCoverMoves<S, A>(p: Problem<S, A>, universe: set<S>, nodes: seq<Node<S, A>>, n: nat, start: nat,
                                 keys: set<S>)
    requires Generated(p, universe, nodes, n, start)
    requires Covered(nodes, start, |nodes|, keys)
    ensures forall i :: 0 <= i < |p.successors(nodes[n].state)| ==> p.successors(nodes[n].state)[i].next in keys
  {
    forall i | 0 <= i < |p.successors(nodes[n].state)| ensures p.successors(nodes[n].state)[i].next in keys {
      assert nodes[start + i].state == p.successors(nodes[n].state)[i].next;
    }
  }

  /** The states of arena nodes `start` up to `c` are all among `keys`. */
  ghost predicate Covered<S, A>(nodes: seq<Node<S, A>>, start: nat, c: nat, keys: set<S>)
    requires c <= |nodes|
  {
    forall j :: start <= j < c ==> nodes[j].state in keys
  }

  lemma CoveredStep<S, A>(nodes: seq<Node<S, A>>, start: nat, c: nat, before: set<S>, after: set<S>)
    requires c < |nodes| && Covered(nodes, start, c, before) && before <= after && nodes[c].state in after
    ensures Covered(nodes, start, c + 1, after)
  {
  }

  /** `after` keeps every entry of `before`: the `reached` map only ever grows. */
  ghost predicate Extends<S>(before: map<S, nat>, after: map<S, nat>) {
    forall s :: s in before ==> s in after && after[s] == before[s]
  }

  lemma ExtendsAdd<S>(before: map<S, nat>, after: map<S, nat>, s: S, c: nat)
    requires Extends(before, after) && s !in after
    ensures Extends(before, after[s := c])
  {
  }

  /** Arena indices in strictly increasing order (the frontier, the pushed children). */
  ghost predicate Increasing(s: seq<nat>) {
    forall i :: 0 <= i < |s| - 1 ==> StepUp(s, i)
  }

  /** Neighbours `i` and `i + 1` are in strictly increasing order. */
  ghost predicate StepUp(s: seq<nat>, i: nat)
    requires i < |s| - 1
  {
    s[i] < s[i + 1]
  }

  /** Appending an index above the last keeps a sequence increasing. */
  lemma IncreasingSnoc(s: seq<nat>, c: nat)
    requires Increasing(s) && (s != [] ==> s[|s| - 1] < c)
    ensures Increasing(s + [c])
  {
    var t := s + [c];
    forall i | 0 <= i < |t| - 1 ensures StepUp(t, i) {
      if i < |s| - 1 {
        assert StepUp(s, i);
      }
    }
  }

  /** Two increasing sequences, the second starting above the end of the first, join into one. */
  lemma IncreasingAppend(s: seq<nat>, t: seq<nat>)
    requires Increasing(s) && Increasing(t) && (s != [] && t != [] ==> s[|s| - 1] < t[0])
    ensures Increasing(s + t)
  {
    var u := s + t;
    forall i | 0 <= i < |u| - 1 ensures StepUp(u, i) {
      if i < |s| - 1 {
        assert StepUp(s, i);
      } else if i >= |s| {
        assert StepUp(t, i - |s|);
      }
    }
  }

  /** A prefix of an increasing sequence is increasing. */
  lemma IncreasingPrefix(s: seq<nat>, t: seq<nat>)
    requires Increasing(s + t)
    ensures Increasing(s)
  {
    forall i | 0 <= i < |s| - 1 ensures StepUp(s, i) {
      assert StepUp(s + t, i);
    }
  }

  /** A strictly increasing sequence has no repeated element. */
  lemma IncreasingDistinct(s: seq<nat>)
    requires Increasing(s)
    ensures forall i, j :: 0 <= i < j < |s| ==> s[i] < s[j]
  {
    forall i, j | 0 <= i < j < |s| ensures s[i] < s[j] {
      var k := i;
      while k < j
        invariant i <= k <= j && s[i] <= s[k]
        invariant k > i ==> s[i] < s[k]
      {
        assert StepUp(s, k);
        k := k + 1;
      }
    }
  }

  /** Shrinking the unreached part of a finite universe. */
  lemma UnreachedShrinks<S>(universe: set<S>, before: set<S>, after: set<S>, x: S)
    requires before <= after <= universe && x in after && x !in before
    ensures |universe - after| < |universe - before|
  {
    assert universe - before == (universe - after) + (after - before);
    assert (universe - after) * (after - before) == {};
    assert x in after - before;
  }

  /** The node counter numbers the children it creates after the nodes before them. */
  lemma IdsGrow<S, A>(nodes: seq<Node<S, A>>, children: seq<Node<S, A>>, c0: nat)
    requires IdsFrom(nodes, c0)
    requires forall k :: 0 <= k < |children| ==> children[k].id == c0 + |nodes| + k
    ensures IdsFrom(nodes + children, c0)
  {
  }
}
