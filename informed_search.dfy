/**
 * A* and greedy best-first graph search (InformedSearch.py).
 *
 * Both goal-test the initial state, then keep a priority queue of entries
 * `(priority, entry, node)` ordered as tuples, so that ties in priority go to
 * the entry put first.  A node is goal-tested when it is taken off the queue,
 * not when it is generated.  A child is recorded in `reached` and queued when
 * its state is new or when it is strictly cheaper than the node recorded for
 * that state; the older, dearer entries stay on the queue and are expanded
 * again when their turn comes.  The two searches differ only in the priority:
 * greedy search uses the estimate of the child's state, A* adds to it the path
 * cost of the node being expanded.
 */
module InformedSearch {
  import opened Wrappers
  import opened SearchCore

  /**
   * `get_path`: walk the parent links from node `n`, collecting each action,
   * and stop at the root, whose absent action is not collected; then reverse.
   */
  method GetPath<S, A>(nodes: seq<Node<S, A>>, n: nat) returns (path: seq<Option<A>>)
    requires ParentsBefore(nodes) && n < |nodes|
    ensures path == PathBelowRoot(nodes, n)
  {
    var k: nat := n;
    var acc: seq<Option<A>> := [];
    while nodes[k].parent.Some?
      invariant k <= n
      invariant PathBelowRoot(nodes, n) == PathBelowRoot(nodes, k) + Reverse(acc)
      decreases k
    {
      BelowStep(nodes, k, acc);
      acc := acc + [nodes[k].action];
      k := nodes[k].parent.value;
    }
    path := Reverse(acc);
  }

  /** One step of `GetPath`: the action of node `k` moves from the chain onto the collected tail. */
  lemma BelowStep<S, A>(nodes: seq<Node<S, A>>, k: nat, acc: seq<Option<A>>)
    requires ParentsBefore(nodes) && k < |nodes| && nodes[k].parent.Some?
    ensures PathBelowRoot(nodes, k) + Reverse(acc)
         == PathBelowRoot(nodes, nodes[k].parent.value) + Reverse(acc + [nodes[k].action])
  {
    ReverseSnoc(acc, nodes[k].action);
  }

  // ---------------------------------------------------------------------------
  // The priority queue

  /** Which of the two searches runs. */
  datatype Strategy = AStar | Greedy

  /**
   * The priority a node with state `s` is queued with.  `base` is the path cost
   * of the node being expanded (0 for the root): A* adds it to the estimate
   * `h(s)`, greedy search uses the estimate alone.
   */
  function Priority<S>(strategy: Strategy, h: S -> nat, base: nat, s: S): (r: nat)
    ensures strategy.AStar? ==> r - base == h(s)
    ensures strategy.Greedy? ==> r == h(s)
    ensures r == h(s) <==> strategy.Greedy? || base == 0
  {
    match strategy
    case AStar => base + h(s)
    case Greedy => h(s)
  }

  /** The path cost of node `k`'s parent, 0 for the root: the `base` of the priority `k` is queued with. */
  ghost function BaseCost<S, A>(nodes: seq<Node<S, A>>, k: nat): nat {
    if k < |nodes| && nodes[k].parent.Some? && nodes[k].parent.value < |nodes|
    then nodes[nodes[k].parent.value].pathCost
    else 0
  }

  /** Every entry of `q` names a node of the arena and carries the strategy's priority for that node. */
  ghost predicate Priced<S, A>(strategy: Strategy, h: S -> nat, nodes: seq<Node<S, A>>, q: seq<Entry>) {
    forall j :: 0 <= j < |q| ==>
      q[j].node < |nodes|
      && q[j].priority == Priority(strategy, h, BaseCost(nodes, q[j].node), nodes[q[j].node].state)
  }

  /** A queue entry `(priority, entry, node)`; `node` is an arena index. */
  datatype Entry = Entry(priority: nat, entry: nat, node: nat)

  /** The tuple order of the queue: by priority, then by entry number. */
  predicate Before(a: Entry, b: Entry) {
    a.priority < b.priority || (a.priority == b.priority && a.entry < b.entry)
  }

  /** `frontier.get()`: the position of an entry that no other entry comes before. */
  method PopMin(frontier: seq<Entry>) returns (i: nat)
    requires frontier != []
    ensures i < |frontier|
    ensures forall j :: 0 <= j < |frontier| ==> !Before(frontier[j], frontier[i])
  {
    i := 0;
    for k := 1 to |frontier|
      invariant i < k
      invariant forall j :: 0 <= j < k ==> !Before(frontier[j], frontier[i])
    {
      if Before(frontier[k], frontier[i]) {
        i := k;
      }
    }
  }

  /** Entry numbers increase along the frontier: it lists the entries in the order they were put. */
  ghost predicate Ordered(frontier: seq<Entry>) {
    forall k :: 0 <= k < |frontier| - 1 ==> EntryUp(frontier, k)
  }

  /** Neighbours `k` and `k + 1` in the order they were put. */
  ghost predicate EntryUp(frontier: seq<Entry>, k: nat)
    requires k < |frontier| - 1
  {
    frontier[k].entry < frontier[k + 1].entry
  }

  /** In an ordered frontier every earlier entry has a smaller entry number. */
  lemma OrderedLess(frontier: seq<Entry>)
    requires Ordered(frontier)
    ensures forall i, j :: 0 <= i < j < |frontier| ==> frontier[i].entry < frontier[j].entry
  {
    forall i, j | 0 <= i < j < |frontier| ensures frontier[i].entry < frontier[j].entry {
      var k := i;
      while k < j
        invariant i <= k <= j && frontier[i].entry <= frontier[k].entry
        invariant k > i ==> frontier[i].entry < frontier[k].entry
      {
        assert EntryUp(frontier, k);
        k := k + 1;
      }
    }
  }

  /** Taking any entry out of an ordered frontier leaves it ordered. */
  lemma OrderedRemove(frontier: seq<Entry>, i: nat)
    requires Ordered(frontier) && i < |frontier|
    ensures Ordered(frontier[..i] + frontier[i + 1..])
  {
    OrderedLess(frontier);
    var rest := frontier[..i] + frontier[i + 1..];
    forall k | 0 <= k < |rest| - 1 ensures EntryUp(rest, k) {
      assert rest[k] == frontier[if k < i then k else k + 1];
      assert rest[k + 1] == frontier[if k + 1 < i then k + 1 else k + 2];
    }
  }

  /** Putting an entry numbered above all the others keeps the frontier ordered. */
  lemma OrderedPut(frontier: seq<Entry>, e: Entry)
    requires Ordered(frontier) && forall k :: 0 <= k < |frontier| ==> frontier[k].entry < e.entry
    ensures Ordered(frontier + [e])
  {
    var f := frontier + [e];
    forall k | 0 <= k < |f| - 1 ensures EntryUp(f, k) {
      if k < |frontier| - 1 {
        assert EntryUp(frontier, k);
      }
    }
  }

  /**
   * The tie-break of the queue: in an ordered frontier the least entry comes
   * before every other one, and of the entries with its priority it is the one
   * put first.
   */
  lemma LeastIsFirstPut(frontier: seq<Entry>, i: nat)
    requires Ordered(frontier) && i < |frontier|
    requires forall j :: 0 <= j < |frontier| ==> !Before(frontier[j], frontier[i])
    ensures forall j :: 0 <= j < |frontier| && j != i ==> Before(frontier[i], frontier[j])
    ensures forall j :: 0 <= j < |frontier| && frontier[j].priority == frontier[i].priority ==> i <= j
  {
    OrderedLess(frontier);
  }

  // ---------------------------------------------------------------------------
  // Costs recorded for the reached states

  /** The sum of the costs recorded in `m`. */
  ghost function Total<S>(m: map<S, nat>): nat
    decreases |m|
  {
    if m == map[] then 0
    else
      var k :| k in m;
      assert |m - {k}| < |m| by { assert m.Keys == (m - {k}).Keys + {k}; }
      m[k] + Total(m - {k})
  }

  /** `Total` can take any key first. */
  lemma {:induction false} TotalPick<S>(m: map<S, nat>, k: S)
    requires k in m
    ensures Total(m) == m[k] + Total(m - {k})
    decreases |m|
  {
    var j :| j in m && Total(m) == m[j] + Total(m - {j});
    if j != k {
      assert m.Keys == (m - {j}).Keys + {j};
      assert m.Keys == (m - {k}).Keys + {k};
      TotalPick(m - {j}, k);
      TotalPick(m - {k}, j);
      assert m - {j} - {k} == m - {k} - {j};
    }
  }

  /** Lowering one recorded cost lowers the total. */
  lemma TotalLower<S>(m: map<S, nat>, k: S, v: nat)
    requires k in m && v < m[k]
    ensures Total(m[k := v]) < Total(m)
  {
    TotalPick(m, k);
    TotalPick(m[k := v], k);
    assert m[k := v] - {k} == m - {k};
  }

  // ---------------------------------------------------------------------------
  // The bookkeeping between pops

  /** Node `x` has an entry on the frontier. */
  ghost predicate Waiting(frontier: seq<Entry>, x: nat) {
    exists k :: 0 <= k < |frontier| && frontier[k].node == x
  }

  /**
   * What both searches keep between pops: `reached` maps each state seen so far
   * to the cheapest node found for it, whose path cost `best` records; every
   * entry names a node of the arena whose state is reached and was numbered
   * before `entry`; the frontier is in the order it was put; and the node of
   * every reached state still waits on the frontier, or the state has been
   * expanded (or is `open`, the state being expanded right now).
   */
  ghost predicate Bookkeeping<S(!new), A(!new)>(p: Problem<S, A>, universe: set<S>, nodes: seq<Node<S, A>>,
                                                reached: map<S, nat>, best: map<S, nat>,
                                                frontier: seq<Entry>, entry: nat, open: Option<S>)
  {
    && p.initial in reached && reached.Keys <= universe && best.Keys == reached.Keys
    && (forall s :: s in reached ==>
          reached[s] < |nodes| && nodes[reached[s]].state == s && best[s] == nodes[reached[s]].pathCost)
    && (forall k :: 0 <= k < |frontier| ==>
          frontier[k].node < |nodes| && nodes[frontier[k].node].state in reached && frontier[k].entry < entry)
    && Ordered(frontier)
    && (forall s :: s in reached ==> Waiting(frontier, reached[s]) || open == Some(s) || Settled(p, s, reached.Keys))
  }

  /** Taking entry `i` off the frontier leaves its node's state open and all else as it was. */
  lemma Pop<S(!new), A(!new)>(p: Problem<S, A>, universe: set<S>, nodes: seq<Node<S, A>>,
                              reached: map<S, nat>, best: map<S, nat>, frontier: seq<Entry>, entry: nat, i: nat)
    requires Bookkeeping(p, universe, nodes, reached, best, frontier, entry, None) && i < |frontier|
    ensures frontier[i].node < |nodes| && nodes[frontier[i].node].state in reached
    ensures Bookkeeping(p, universe, nodes, reached, best, frontier[..i] + frontier[i + 1..], entry,
                        Some(nodes[frontier[i].node].state))
  {
    var rest := frontier[..i] + frontier[i + 1..];
    OrderedRemove(frontier, i);
    forall s | s in reached
      ensures Waiting(rest, reached[s]) || Some(nodes[frontier[i].node].state) == Some(s)
              || Settled(p, s, reached.Keys)
    {
      if Waiting(frontier, reached[s]) && reached[s] != frontier[i].node {
        var k :| 0 <= k < |frontier| && frontier[k].node == reached[s];
        if k < i { assert rest[k] == frontier[k]; } else { assert rest[k - 1] == frontier[k]; }
      }
    }
    forall k | 0 <= k < |rest|
      ensures rest[k].node < |nodes| && nodes[rest[k].node].state in reached && rest[k].entry < entry
    {
      if k < i { assert rest[k] == frontier[k]; } else { assert rest[k] == frontier[k + 1]; }
    }
  }

  /** Appending the children of an expansion to the arena changes nothing already recorded. */
  lemma ArenaGrows<S(!new), A(!new)>(p: Problem<S, A>, universe: set<S>, nodes: seq<Node<S, A>>,
                                     children: seq<Node<S, A>>, reached: map<S, nat>, best: map<S, nat>,
                                     frontier: seq<Entry>, entry: nat, open: Option<S>)
    requires Bookkeeping(p, universe, nodes, reached, best, frontier, entry, open)
    ensures Bookkeeping(p, universe, nodes + children, reached, best, frontier, entry, open)
  {
    var all := nodes + children;
    assert forall k :: 0 <= k < |nodes| ==> all[k] == nodes[k];
  }

  /**
   * Taking entry `i` off the frontier and appending the children of its node `n`
   * to the arena: the arena stays a tree, the bookkeeping holds with `n`'s state
   * open, and the new part of the arena holds `n`'s children.
   */
  lemma Open<S(!new), A(!new)>(p: Problem<S, A>, universe: set<S>, nodes: seq<Node<S, A>>,
                               children: seq<Node<S, A>>, all: seq<Node<S, A>>, reached: map<S, nat>,
                               best: map<S, nat>, frontier: seq<Entry>, entry: nat, i: nat, n: nat,
                               rest: seq<Entry>)
    requires Tree(p, nodes) && Closed(p, universe) && all == nodes + children
    requires Bookkeeping(p, universe, nodes, reached, best, frontier, entry, None)
    requires i < |frontier| && n == frontier[i].node && n < |nodes| && rest == frontier[..i] + frontier[i + 1..]
    requires |children| == |p.successors(nodes[n].state)|
    requires forall k :: 0 <= k < |children| ==>
      var m := p.successors(nodes[n].state)[k];
      children[k].state == m.next && children[k].parent == Some(n) && children[k].action == Some(m.action) &&
      children[k].pathCost == nodes[n].pathCost + m.cost && children[k].depth == nodes[n].depth + 1
    ensures n < |nodes| <= |all| && all[n] == nodes[n]
    ensures Tree(p, all)
    ensures Bookkeeping(p, universe, all, reached, best, rest, entry, Some(all[n].state))
    ensures Generated(p, universe, all, n, |nodes|)
  {
    Pop(p, universe, nodes, reached, best, frontier, entry, i);
    TreeGrows(p, nodes, children, n);
    ArenaGrows(p, universe, nodes, children, reached, best, rest, entry, Some(nodes[n].state));
  }

  /** Once every successor of the open state is reached, the open state is settled. */
  lemma CloseOpen<S(!new), A(!new)>(p: Problem<S, A>, universe: set<S>, nodes: seq<Node<S, A>>,
                                    reached: map<S, nat>, best: map<S, nat>, frontier: seq<Entry>,
                                    entry: nat, sn: S)
    requires Bookkeeping(p, universe, nodes, reached, best, frontier, entry, Some(sn)) && !p.isGoal(sn)
    requires forall i :: 0 <= i < |p.successors(sn)| ==> p.successors(sn)[i].next in reached
    ensures Bookkeeping(p, universe, nodes, reached, best, frontier, entry, None)
  {
    assert Settled(p, sn, reached.Keys);
  }

  /**
   * Recording child `c` for its state, which is new or recorded with a dearer
   * node, and putting it on the frontier as entry number `entry`.
   */
  lemma Relax<S(!new), A(!new)>(p: Problem<S, A>, universe: set<S>, nodes: seq<Node<S, A>>,
                                reached: map<S, nat>, best: map<S, nat>, frontier: seq<Entry>,
                                entry: nat, open: Option<S>, c: nat, priority: nat)
    requires Bookkeeping(p, universe, nodes, reached, best, frontier, entry, open)
    requires c < |nodes| && nodes[c].state in universe
    ensures Bookkeeping(p, universe, nodes, reached[nodes[c].state := c], best[nodes[c].state := nodes[c].pathCost],
                        frontier + [Entry(priority, entry, c)], entry + 1, open)
  {
    var s := nodes[c].state;
    var f, r := frontier + [Entry(priority, entry, c)], reached[s := c];
    OrderedPut(frontier, Entry(priority, entry, c));
    forall t | t in r ensures Waiting(f, r[t]) || open == Some(t) || Settled(p, t, r.Keys) {
      if t == s {
        assert f[|frontier|].node == c;
      } else if Waiting(frontier, reached[t]) {
        var k :| 0 <= k < |frontier| && frontier[k].node == reached[t];
        assert f[k].node == r[t];
      } else if open != Some(t) {
        assert Settled(p, t, reached.Keys);
      }
    }
  }

  // ---------------------------------------------------------------------------
  // Visiting the children of an expanded node

  /**
   * Progress in the measure of the search loop between the bookkeeping `before`
   * a round's children are visited and now: the reached states only grow; while
   * they stay the same the recorded costs never rise, and they fall once
   * anything has been put on the frontier.
   */
  ghost predicate Progress<S>(reached0: map<S, nat>, best0: map<S, nat>, frontier0: seq<Entry>,
                              reached: map<S, nat>, best: map<S, nat>, frontier: seq<Entry>)
  {
    && reached0.Keys <= reached.Keys && |frontier0| <= |frontier|
    && (|frontier| == |frontier0| ==> reached == reached0 && best == best0)
    && (reached.Keys == reached0.Keys ==> Total(best) <= Total(best0))
    && (reached.Keys == reached0.Keys && |frontier0| < |frontier| ==> Total(best) < Total(best0))
  }

  /** What holds while the children of node `n` are visited, before child `c`. */
  ghost predicate Visiting<S(!new), A(!new)>(p: Problem<S, A>, universe: set<S>, nodes: seq<Node<S, A>>,
                                             n: nat, start: nat, c: nat, reached0: map<S, nat>,
                                             best0: map<S, nat>, frontier0: seq<Entry>, reached: map<S, nat>,
                                             best: map<S, nat>, frontier: seq<Entry>, entry: nat)
  {
    && n < |nodes| && start <= c <= |nodes|
    && Bookkeeping(p, universe, nodes, reached, best, frontier, entry, Some(nodes[n].state))
    && Covered(nodes, start, c, reached.Keys)
    && Progress(reached0, best0, frontier0, reached, best, frontier)
  }

  /**
   * One child of the loop over `problem.expand(node)`: when its state is not
   * yet reached, or the child is strictly cheaper than the node recorded for
   * it, record the child and put it on the frontier with the next entry number.
   */
  method Visit<S(!new, ==), A(!new)>(p: Problem<S, A>, h: S -> nat, strategy: Strategy, ghost universe: set<S>,
                                     nodes: seq<Node<S, A>>, n: nat, start: nat, c: nat,
                                     ghost reached0: map<S, nat>, ghost best0: map<S, nat>,
                                     ghost frontier0: seq<Entry>, reached: map<S, nat>, ghost best: map<S, nat>,
                                     frontier: seq<Entry>, entry: nat)
    returns (reached1: map<S, nat>, ghost best1: map<S, nat>, frontier1: seq<Entry>, entry1: nat)
    requires Generated(p, universe, nodes, n, start) && c < |nodes|
    requires Visiting(p, universe, nodes, n, start, c, reached0, best0, frontier0, reached, best, frontier, entry)
    ensures Visiting(p, universe, nodes, n, start, c + 1, reached0, best0, frontier0, reached1, best1, frontier1, entry1)
    ensures var s := nodes[c].state;
      if s !in reached || nodes[c].pathCost < nodes[reached[s]].pathCost then
        && reached1 == reached[s := c] && entry1 == entry + 1
        && frontier1 == frontier + [Entry(Priority(strategy, h, nodes[n].pathCost, s), entry, c)]
      else
        reached1 == reached && frontier1 == frontier && entry1 == entry
    ensures strategy.AStar? && |frontier| < |frontier1| ==>
      frontier1[|frontier|].priority + p.successors(nodes[n].state)[c - start].cost == nodes[c].pathCost + h(nodes[c].state)
    ensures forall t :: t in reached && reached[t] < |nodes| ==>
      t in reached1 && reached1[t] < |nodes| && nodes[reached1[t]].pathCost <= nodes[reached[t]].pathCost
  {
    var child := nodes[c];
    var s := child.state;
    reached1, best1, frontier1, entry1 := reached, best, frontier, entry;
    if s !in reached || child.pathCost < nodes[reached[s]].pathCost {
      var priority := Priority(strategy, h, nodes[n].pathCost, s);
      Relax(p, universe, nodes, reached, best, frontier, entry, Some(nodes[n].state), c, priority);
      if s in reached {
        TotalLower(best, s, child.pathCost);
      }
      reached1, best1 := reached[s := c], best[s := child.pathCost];
      frontier1, entry1 := frontier + [Entry(priority, entry, c)], entry + 1;
    }
    CoveredStep(nodes, start, c, reached.Keys, reached1.Keys);
  }

  /**
   * The loop over `problem.expand(node)`: the children of node `n` occupy the
   * arena from index `start` on and are visited in order.
   */
  method VisitChildren<S(!new, ==), A(!new)>(p: Problem<S, A>, h: S -> nat, strategy: Strategy,
                                             ghost universe: set<S>, nodes: seq<Node<S, A>>, n: nat, start: nat,
                                             reached0: map<S, nat>, ghost best0: map<S, nat>,
                                             frontier0: seq<Entry>, entry0: nat)
    returns (reached: map<S, nat>, ghost best: map<S, nat>, frontier: seq<Entry>, entry: nat,
             ghost puts: seq<Entry>)
    requires Generated(p, universe, nodes, n, start) && !p.isGoal(nodes[n].state)
    requires Bookkeeping(p, universe, nodes, reached0, best0, frontier0, entry0, Some(nodes[n].state))
    ensures Bookkeeping(p, universe, nodes, reached, best, frontier, entry, None)
    ensures Progress(reached0, best0, frontier0, reached, best, frontier)
    ensures frontier == frontier0 + puts && entry == entry0 + |puts|
    ensures Puts(strategy, h, nodes, n, start, entry0, puts)
    ensures forall j :: 0 <= j < |puts| ==>
      var s := nodes[puts[j].node].state;
      s !in reached0 || nodes[puts[j].node].pathCost < nodes[reached0[s]].pathCost
    ensures forall c :: start <= c < |nodes| ==> NoDearer(nodes, reached, c)
  {
    reached, best, frontier, entry := reached0, best0, frontier0, entry0;
    puts := [];
    for c: nat := start to |nodes|
      invariant Visiting(p, universe, nodes, n, start, c, reached0, best0, frontier0, reached, best, frontier, entry)
      invariant frontier == frontier0 + puts && entry == entry0 + |puts|
      invariant Puts(strategy, h, nodes, n, start, entry0, puts) && forall j :: 0 <= j < |puts| ==> puts[j].node < c
      invariant Relaxing(nodes, start, c, reached0, reached, puts)
    {
      reached, best, frontier, entry, puts :=
        VisitPut(p, h, strategy, universe, nodes, n, start, c, reached0, best0, frontier0, entry0,
                 reached, best, frontier, entry, puts);
    }
    ChildrenCoverMoves(p, universe, nodes, n, start, reached.Keys);
    CloseOpen(p, universe, nodes, reached, best, frontier, entry, nodes[n].state);
  }

  /**
   * The costs while the children from `start` to `c` are visited: the node
   * recorded for a state seen before the round is never dearer than it was,
   * every entry put is for a new state or strictly cheaper than the node
   * recorded before the round, and every child visited so far has its state
   * recorded at no greater cost than its own.
   */
  ghost predicate Relaxing<S, A>(nodes: seq<Node<S, A>>, start: nat, c: nat, reached0: map<S, nat>,
                                 reached: map<S, nat>, puts: seq<Entry>)
  {
    && (forall t :: t in reached0 ==>
          t in reached && reached0[t] < |nodes| && reached[t] < |nodes|
          && nodes[reached[t]].pathCost <= nodes[reached0[t]].pathCost)
    && (forall j :: 0 <= j < |puts| ==>
          puts[j].node < |nodes|
          && var s := nodes[puts[j].node].state;
             s !in reached0 || (reached0[s] < |nodes| && nodes[puts[j].node].pathCost < nodes[reached0[s]].pathCost))
    && (forall d :: start <= d < c ==> NoDearer(nodes, reached, d))
  }

  /** The state of child `d` is recorded, with a node no dearer than `d`. */
  ghost predicate NoDearer<S, A>(nodes: seq<Node<S, A>>, reached: map<S, nat>, d: nat) {
    d < |nodes| && nodes[d].state in reached && reached[nodes[d].state] < |nodes|
    && nodes[reached[nodes[d].state]].pathCost <= nodes[d].pathCost
  }

  /** `Visit`, with the entry it puts, if any, logged in `puts`. */
  method VisitPut<S(!new, ==), A(!new)>(p: Problem<S, A>, h: S -> nat, strategy: Strategy, ghost universe: set<S>,
                                        nodes: seq<Node<S, A>>, n: nat, start: nat, c: nat,
                                        ghost reached0: map<S, nat>, ghost best0: map<S, nat>,
                                        ghost frontier0: seq<Entry>, ghost entry0: nat, reached: map<S, nat>,
                                        ghost best: map<S, nat>, frontier: seq<Entry>, entry: nat,
                                        ghost puts: seq<Entry>)
    returns (reached1: map<S, nat>, ghost best1: map<S, nat>, frontier1: seq<Entry>, entry1: nat,
             ghost puts1: seq<Entry>)
    requires Generated(p, universe, nodes, n, start) && c < |nodes|
    requires Visiting(p, universe, nodes, n, start, c, reached0, best0, frontier0, reached, best, frontier, entry)
    requires frontier == frontier0 + puts && entry == entry0 + |puts|
    requires Puts(strategy, h, nodes, n, start, entry0, puts) && forall j :: 0 <= j < |puts| ==> puts[j].node < c
    requires Relaxing(nodes, start, c, reached0, reached, puts)
    ensures Visiting(p, universe, nodes, n, start, c + 1, reached0, best0, frontier0, reached1, best1, frontier1, entry1)
    ensures frontier1 == frontier0 + puts1 && entry1 == entry0 + |puts1|
    ensures Puts(strategy, h, nodes, n, start, entry0, puts1) && forall j :: 0 <= j < |puts1| ==> puts1[j].node < c + 1
    ensures Relaxing(nodes, start, c + 1, reached0, reached1, puts1)
  {
    reached1, best1, frontier1, entry1 :=
      Visit(p, h, strategy, universe, nodes, n, start, c, reached0, best0, frontier0, reached, best, frontier, entry);
    puts1 := if |frontier| < |frontier1| then puts + [frontier1[|frontier|]] else puts;
    assert forall t :: t in reached ==> reached[t] < |nodes|;
    PutsStep(p, universe, strategy, h, nodes, n, start, c, frontier0, entry0, reached, frontier, entry, puts,
             frontier1, entry1, puts1);
    RelaxingStep(nodes, start, c, reached0, reached, reached1, puts, puts1);
  }

  /** `Puts` carries over one visited child, put on the queue or not. */
  lemma PutsStep<S(!new), A(!new)>(p: Problem<S, A>, universe: set<S>, strategy: Strategy, h: S -> nat,
                                   nodes: seq<Node<S, A>>, n: nat, start: nat, c: nat, frontier0: seq<Entry>,
                                   entry0: nat, reached: map<S, nat>, frontier: seq<Entry>, entry: nat,
                                   puts: seq<Entry>, frontier1: seq<Entry>, entry1: nat, puts1: seq<Entry>)
    requires n < |nodes| && start <= c < |nodes|
    requires frontier == frontier0 + puts && entry == entry0 + |puts|
    requires Puts(strategy, h, nodes, n, start, entry0, puts) && forall j :: 0 <= j < |puts| ==> puts[j].node < c
    requires var s := nodes[c].state;
      if s !in reached || (reached[s] < |nodes| && nodes[c].pathCost < nodes[reached[s]].pathCost) then
        entry1 == entry + 1 && frontier1 == frontier + [Entry(Priority(strategy, h, nodes[n].pathCost, s), entry, c)]
      else
        frontier1 == frontier && entry1 == entry
    requires puts1 == if |frontier| < |frontier1| then puts + [frontier1[|frontier|]] else puts
    ensures frontier1 == frontier0 + puts1 && entry1 == entry0 + |puts1|
    ensures Puts(strategy, h, nodes, n, start, entry0, puts1) && forall j :: 0 <= j < |puts1| ==> puts1[j].node < c + 1
  {
    if |frontier| < |frontier1| {
      assert frontier1 == frontier0 + puts1;
    }
  }

  /** `Relaxing` carries over one visited child, put on the queue or not. */
  lemma RelaxingStep<S, A>(nodes: seq<Node<S, A>>, start: nat, c: nat, reached0: map<S, nat>,
                           reached: map<S, nat>, reached1: map<S, nat>, puts: seq<Entry>, puts1: seq<Entry>)
    requires start <= c < |nodes| && Relaxing(nodes, start, c, reached0, reached, puts)
    requires forall t :: t in reached ==> reached[t] < |nodes|
    requires var s := nodes[c].state;
      if s !in reached || nodes[c].pathCost < nodes[reached[s]].pathCost then
        reached1 == reached[s := c] && |puts1| == |puts| + 1 && puts1[..|puts|] == puts && puts1[|puts|].node == c
      else
        reached1 == reached && puts1 == puts
    ensures Relaxing(nodes, start, c + 1, reached0, reached1, puts1)
  {
    var s := nodes[c].state;
    if s !in reached || nodes[c].pathCost < nodes[reached[s]].pathCost {
      forall j | 0 <= j < |puts1|
        ensures puts1[j].node < |nodes|
                && var t := nodes[puts1[j].node].state;
                   t !in reached0 || (reached0[t] < |nodes| && nodes[puts1[j].node].pathCost < nodes[reached0[t]].pathCost)
      {
        if j < |puts| { assert puts1[j] == puts[..|puts|][j]; }
      }
      forall d | start <= d < c + 1 ensures NoDearer(nodes, reached1, d) {
        if d < c { assert NoDearer(nodes, reached, d); }
      }
    } else {
      assert NoDearer(nodes, reached1, c);
    }
  }

  /**
   * The entries a round puts on the queue for the children of node `n`, built
   * from `start` on: in the children's order, numbered on from `entry0`, each
   * with the strategy's priority computed from `n`'s path cost.
   */
  ghost predicate Puts<S, A>(strategy: Strategy, h: S -> nat, nodes: seq<Node<S, A>>, n: nat, start: nat,
                             entry0: nat, puts: seq<Entry>)
  {
    && n < |nodes|
    && forall j :: 0 <= j < |puts| ==>
         && start <= puts[j].node < |nodes| && puts[j].entry == entry0 + j
         && puts[j].priority == Priority(strategy, h, nodes[n].pathCost, nodes[puts[j].node].state)
         && (0 < j ==> puts[j - 1].node < puts[j].node)
  }

  // ---------------------------------------------------------------------------
  // The search loop

  /** The loop invariant of both searches while no goal has been found. */
  ghost predicate Searching<S(!new), A(!new)>(p: Problem<S, A>, universe: set<S>, c0: nat, nodes: seq<Node<S, A>>,
                                              reached: map<S, nat>, best: map<S, nat>, frontier: seq<Entry>,
                                              entry: nat)
  {
    && Tree(p, nodes) && IdsFrom(nodes, c0) && !p.isGoal(p.initial)
    && Bookkeeping(p, universe, nodes, reached, best, frontier, entry, None)
  }

  /** The measure of the search loop, in the order it is compared. */
  ghost predicate Decreased<S>(universe: set<S>, reached0: map<S, nat>, best0: map<S, nat>, frontier0: seq<Entry>,
                               reached: map<S, nat>, best: map<S, nat>, frontier: seq<Entry>)
  {
    || |universe - reached.Keys| < |universe - reached0.Keys|
    || (|universe - reached.Keys| == |universe - reached0.Keys| && Total(best) < Total(best0))
    || (|universe - reached.Keys| == |universe - reached0.Keys| && Total(best) == Total(best0)
        && |frontier| < |frontier0|)
  }

  /** A round's progress, seen from before the pop, decreases the measure. */
  lemma ProgressDecreases<S>(universe: set<S>, reached0: map<S, nat>, best0: map<S, nat>, frontier0: seq<Entry>,
                             rest: seq<Entry>, reached: map<S, nat>, best: map<S, nat>, frontier: seq<Entry>)
    requires reached.Keys <= universe && |rest| < |frontier0|
    requires Progress(reached0, best0, rest, reached, best, frontier)
    ensures Decreased(universe, reached0, best0, frontier0, reached, best, frontier)
  {
    if reached.Keys != reached0.Keys {
      assert reached.Keys == reached0.Keys + (reached.Keys - reached0.Keys);
      var x :| x in reached.Keys - reached0.Keys;
      UnreachedShrinks(universe, reached0.Keys, reached.Keys, x);
    } else {
      assert universe - reached.Keys == universe - reached0.Keys;
    }
  }

  /**
   * One round of the loop: take the least entry off the frontier, return its
   * node if it is a goal, and otherwise expand it and visit its children.
   * `rest` is the frontier without the entry taken, `puts` the entries put
   * for the children.
   */
  method Round<S(!new, ==), A(!new)>(p: Problem<S, A>, h: S -> nat, strategy: Strategy, ghost universe: set<S>,
                                     counter: NodeCounter, arena0: seq<Node<S, A>>, reached0: map<S, nat>,
                                     ghost best0: map<S, nat>, frontier0: seq<Entry>, entry0: nat, ghost c0: nat)
    returns (goal: Option<nat>, arena: seq<Node<S, A>>, reached: map<S, nat>, ghost best: map<S, nat>,
             frontier: seq<Entry>, entry: nat, ghost popped: Entry, ghost rest: seq<Entry>, ghost puts: seq<Entry>)
    requires Closed(p, universe) && frontier0 != []
    requires Searching(p, universe, c0, arena0, reached0, best0, frontier0, entry0)
    requires Priced(strategy, h, arena0, frontier0)
    requires counter.count == c0 + |arena0|
    modifies counter
    ensures counter.count == c0 + |arena|
    ensures Tree(p, arena) && IdsFrom(arena, c0)
    ensures popped in frontier0 && forall j :: 0 <= j < |frontier0| ==> !Before(frontier0[j], popped)
    ensures popped.node < |arena0| && (goal.Some? <==> p.isGoal(arena0[popped.node].state))
    ensures |arena0| <= |arena| && arena[..|arena0|] == arena0
    ensures |rest| == |frontier0| - 1 && multiset(rest) + multiset{popped} == multiset(frontier0)
    ensures frontier == rest + puts && Priced(strategy, h, arena, frontier) && Ordered(frontier)
    ensures goal.Some? ==> goal == Some(popped.node) && goal.value < |arena| && p.isGoal(arena[goal.value].state)
    ensures goal.Some? ==> arena == arena0 && reached == reached0 && entry == entry0 && puts == []
    ensures goal.None? ==> Generated(p, universe, arena, popped.node, |arena0|)
    ensures goal.None? ==> Puts(strategy, h, arena, popped.node, |arena0|, entry0, puts) && entry == entry0 + |puts|
    ensures goal.None? ==> Searching(p, universe, c0, arena, reached, best, frontier, entry)
    ensures goal.None? ==> Decreased(universe, reached0, best0, frontier0, reached, best, frontier)
  {
    var i := PopMin(frontier0);
    popped := frontier0[i];
    var n := frontier0[i].node;
    var left := frontier0[..i] + frontier0[i + 1..];
    rest := left;
    Removal(frontier0, i);
    PricedRest(strategy, h, arena0, frontier0, i);
    if p.isGoal(arena0[n].state) {
      OrderedRemove(frontier0, i);
      assert left + [] == left;
      return Some(n), arena0, reached0, best0, left, entry0, popped, left, [];
    }
    arena, reached, best, frontier, entry, puts := Grow(p, h, strategy, universe, counter, arena0, reached0, best0,
                                                        frontier0, entry0, c0, i);
    goal := None;
  }

  /** Taking entry `i` out of a frontier removes exactly that one entry. */
  lemma Removal(frontier: seq<Entry>, i: nat)
    requires i < |frontier|
    ensures multiset(frontier[..i] + frontier[i + 1..]) + multiset{frontier[i]} == multiset(frontier)
  {
    assert frontier == frontier[..i] + [frontier[i]] + frontier[i + 1..];
  }

  /** What is left of a priced frontier after taking entry `i` is priced. */
  lemma PricedRest<S, A>(strategy: Strategy, h: S -> nat, nodes: seq<Node<S, A>>, frontier: seq<Entry>, i: nat)
    requires Priced(strategy, h, nodes, frontier) && i < |frontier|
    ensures Priced(strategy, h, nodes, frontier[..i] + frontier[i + 1..])
  {
    var rest := frontier[..i] + frontier[i + 1..];
    forall j | 0 <= j < |rest|
      ensures rest[j].node < |nodes|
              && rest[j].priority == Priority(strategy, h, BaseCost(nodes, rest[j].node), nodes[rest[j].node].state)
    {
      assert rest[j] == frontier[if j < i then j else j + 1];
    }
  }

  /** Growing a tree arena keeps every node's parent cost, so a priced queue stays priced. */
  lemma PricedGrows<S, A>(strategy: Strategy, h: S -> nat, nodes0: seq<Node<S, A>>, nodes: seq<Node<S, A>>,
                          q: seq<Entry>)
    requires ParentsBefore(nodes0) && |nodes0| <= |nodes| && nodes[..|nodes0|] == nodes0
    requires Priced(strategy, h, nodes0, q)
    ensures Priced(strategy, h, nodes, q)
  {
    forall j | 0 <= j < |q|
      ensures q[j].node < |nodes|
              && q[j].priority == Priority(strategy, h, BaseCost(nodes, q[j].node), nodes[q[j].node].state)
    {
      var k := q[j].node;
      assert nodes[k] == nodes0[k];
      if nodes0[k].parent.Some? {
        assert nodes[nodes0[k].parent.value] == nodes0[nodes0[k].parent.value];
      }
    }
  }

  /** The entries put for the children of the expanded node carry the priority of those children. */
  lemma PutsPriced<S(!new), A(!new)>(p: Problem<S, A>, universe: set<S>, strategy: Strategy, h: S -> nat,
                                     nodes: seq<Node<S, A>>, n: nat, start: nat, entry0: nat, puts: seq<Entry>)
    requires Generated(p, universe, nodes, n, start) && Puts(strategy, h, nodes, n, start, entry0, puts)
    ensures Priced(strategy, h, nodes, puts)
  {
    forall j | 0 <= j < |puts|
      ensures puts[j].node < |nodes|
              && puts[j].priority == Priority(strategy, h, BaseCost(nodes, puts[j].node), nodes[puts[j].node].state)
    {
      assert nodes[puts[j].node].parent == Some(n);
    }
  }

  /** Two priced queues one after the other make a priced queue. */
  lemma PricedAppend<S, A>(strategy: Strategy, h: S -> nat, nodes: seq<Node<S, A>>, q: seq<Entry>, q1: seq<Entry>)
    requires Priced(strategy, h, nodes, q) && Priced(strategy, h, nodes, q1)
    ensures Priced(strategy, h, nodes, q + q1)
  {
    var all := q + q1;
    forall j | 0 <= j < |all|
      ensures all[j].node < |nodes|
              && all[j].priority == Priority(strategy, h, BaseCost(nodes, all[j].node), nodes[all[j].node].state)
    {
      if j < |q| { assert all[j] == q[j]; } else { assert all[j] == q1[j - |q|]; }
    }
  }

  /** The rest of a round once the node taken off the queue is not a goal: expand it and visit its children. */
  method Grow<S(!new, ==), A(!new)>(p: Problem<S, A>, h: S -> nat, strategy: Strategy, ghost universe: set<S>,
                                    counter: NodeCounter, arena0: seq<Node<S, A>>, reached0: map<S, nat>,
                                    ghost best0: map<S, nat>, frontier0: seq<Entry>, entry0: nat, ghost c0: nat,
                                    i: nat)
    returns (arena: seq<Node<S, A>>, reached: map<S, nat>, ghost best: map<S, nat>, frontier: seq<Entry>,
             entry: nat, ghost puts: seq<Entry>)
    requires Closed(p, universe) && i < |frontier0|
    requires Searching(p, universe, c0, arena0, reached0, best0, frontier0, entry0)
    requires forall j :: 0 <= j < |frontier0| ==> !Before(frontier0[j], frontier0[i])
    requires frontier0[i].node < |arena0| && !p.isGoal(arena0[frontier0[i].node].state)
    requires Priced(strategy, h, arena0, frontier0[..i] + frontier0[i + 1..])
    requires counter.count == c0 + |arena0|
    modifies counter
    ensures counter.count == c0 + |arena|
    ensures Tree(p, arena) && IdsFrom(arena, c0)
    ensures |arena0| <= |arena| && arena[..|arena0|] == arena0
    ensures Generated(p, universe, arena, frontier0[i].node, |arena0|)
    ensures frontier == frontier0[..i] + frontier0[i + 1..] + puts && entry == entry0 + |puts|
    ensures Puts(strategy, h, arena, frontier0[i].node, |arena0|, entry0, puts)
    ensures Priced(strategy, h, arena, frontier)
    ensures Searching(p, universe, c0, arena, reached, best, frontier, entry)
    ensures Decreased(universe, reached0, best0, frontier0, reached, best, frontier)
  {
    var n := frontier0[i].node;
    var rest := frontier0[..i] + frontier0[i + 1..];
    Pop(p, universe, arena0, reached0, best0, frontier0, entry0, i);
    var children := Expand(p, counter, arena0[n], n);
    arena := arena0 + children;
    Open(p, universe, arena0, children, arena, reached0, best0, frontier0, entry0, i, n, rest);
    IdsGrow(arena0, children, c0);
    reached, best, frontier, entry, puts :=
      VisitChildren(p, h, strategy, universe, arena, n, |arena0|, reached0, best0, rest, entry0);
    ProgressDecreases(universe, reached0, best0, frontier0, rest, reached, best, frontier);
    assert arena[..|arena0|] == arena0;
    PricedGrows(strategy, h, arena0, arena, rest);
    PutsPriced(p, universe, strategy, h, arena, n, |arena0|, entry0, puts);
    PricedAppend(strategy, h, arena, rest, puts);
  }

  // ---------------------------------------------------------------------------
  // The history of the queue

  /**
   * One turn of the search loop, seen on the queue: `popped` is an entry of `q`
   * that no other entry comes before, and `q1` is the rest of `q` followed by
   * entries for children of `popped`'s node only, numbered above every entry
   * of `q`.
   */
  ghost predicate Turn<S, A>(nodes: seq<Node<S, A>>, q: seq<Entry>, popped: Entry, q1: seq<Entry>) {
    && popped in q && (forall j :: 0 <= j < |q| ==> !Before(q[j], popped))
    && |q| - 1 <= |q1| && multiset(q1[..|q| - 1]) + multiset{popped} == multiset(q)
    && (forall j :: |q| - 1 <= j < |q1| ==> q1[j].node < |nodes| && nodes[q1[j].node].parent == Some(popped.node))
    && forall i, j :: 0 <= i < |q| && |q| - 1 <= j < |q1| ==> q[i].entry < q1[j].entry
  }

  /**
   * The queue over a search loop: `queues[k]` is the queue `pops[k]` is taken
   * from, the last one is the queue now, every one of them lists its entries
   * in the order they were put, and every entry of every one of them carries
   * the strategy's priority for its node.
   */
  ghost predicate History<S, A>(strategy: Strategy, h: S -> nat, nodes: seq<Node<S, A>>, queues: seq<seq<Entry>>,
                                pops: seq<Entry>)
  {
    && |queues| == |pops| + 1
    && (forall k :: 0 <= k < |pops| ==> Turn(nodes, queues[k], pops[k], queues[k + 1]))
    && (forall k :: 0 <= k < |queues| ==> Priced(strategy, h, nodes, queues[k]))
    && (forall k :: 0 <= k < |queues| ==> Ordered(queues[k]))
  }

  /**
   * Ties leave the queue in the order they were put: of two entries with the
   * same priority on a queue of the history, the one put later is not the one
   * taken off it.
   */
  lemma TiesInPutOrder<S, A>(strategy: Strategy, h: S -> nat, nodes: seq<Node<S, A>>, queues: seq<seq<Entry>>,
                             pops: seq<Entry>)
    requires History(strategy, h, nodes, queues, pops)
    ensures forall k, i, j ::
      0 <= k < |pops| && 0 <= i < j < |queues[k]| && queues[k][i].priority == queues[k][j].priority ==>
        pops[k] != queues[k][j]
  {
    forall k, i, j | 0 <= k < |pops| && 0 <= i < j < |queues[k]| && queues[k][i].priority == queues[k][j].priority
      ensures pops[k] != queues[k][j]
    {
      assert Turn(nodes, queues[k], pops[k], queues[k + 1]);
      OrderedLess(queues[k]);
      assert !Before(queues[k][i], pops[k]);
    }
  }

  /** Growing a tree arena keeps the history of the queue. */
  lemma HistoryGrows<S, A>(strategy: Strategy, h: S -> nat, nodes0: seq<Node<S, A>>, nodes: seq<Node<S, A>>,
                           queues: seq<seq<Entry>>, pops: seq<Entry>)
    requires ParentsBefore(nodes0) && |nodes0| <= |nodes| && nodes[..|nodes0|] == nodes0
    requires History(strategy, h, nodes0, queues, pops)
    ensures History(strategy, h, nodes, queues, pops)
  {
    forall k | 0 <= k < |queues| ensures Priced(strategy, h, nodes, queues[k]) {
      PricedGrows(strategy, h, nodes0, nodes, queues[k]);
    }
    forall k | 0 <= k < |pops| ensures Turn(nodes, queues[k], pops[k], queues[k + 1]) {
      var q, q1 := queues[k], queues[k + 1];
      forall j | |q| - 1 <= j < |q1| ensures q1[j].node < |nodes| && nodes[q1[j].node].parent == Some(pops[k].node) {
        assert nodes[q1[j].node] == nodes0[q1[j].node];
      }
    }
  }

  /** A round is a turn of the queue's history. */
  lemma RoundTurn<S(!new), A(!new)>(p: Problem<S, A>, universe: set<S>, strategy: Strategy, h: S -> nat,
                                    arena0: seq<Node<S, A>>, arena: seq<Node<S, A>>, frontier0: seq<Entry>,
                                    popped: Entry, rest: seq<Entry>, puts: seq<Entry>, found: bool, entry0: nat)
    requires popped in frontier0 && forall j :: 0 <= j < |frontier0| ==> !Before(frontier0[j], popped)
    requires forall j :: 0 <= j < |frontier0| ==> frontier0[j].entry < entry0
    requires |rest| == |frontier0| - 1 && multiset(rest) + multiset{popped} == multiset(frontier0)
    requires found ==> puts == []
    requires !found ==> Generated(p, universe, arena, popped.node, |arena0|)
                        && Puts(strategy, h, arena, popped.node, |arena0|, entry0, puts)
    ensures Turn(arena, frontier0, popped, rest + puts)
  {
    assert (rest + puts)[..|frontier0| - 1] == rest;
    forall j | |frontier0| - 1 <= j < |rest + puts|
      ensures (rest + puts)[j].node < |arena| && arena[(rest + puts)[j].node].parent == Some(popped.node)
      ensures entry0 <= (rest + puts)[j].entry
    {
      assert (rest + puts)[j] == puts[j - |rest|];
    }
  }

  /**
   * The `while not frontier.empty()` loop, from the queue holding only the root
   * until a goal is taken off it or it runs dry.
   */
  method Loop<S(!new, ==), A(!new)>(p: Problem<S, A>, h: S -> nat, strategy: Strategy, ghost universe: set<S>,
                                    counter: NodeCounter, ghost c0: nat, arena0: seq<Node<S, A>>)
    returns (goal: Option<nat>, arena: seq<Node<S, A>>, ghost reached: map<S, nat>, ghost best: map<S, nat>,
             ghost frontier: seq<Entry>, ghost entry: nat, ghost pops: seq<Entry>, ghost queues: seq<seq<Entry>>)
    requires Closed(p, universe) && |arena0| == 1
    requires Searching(p, universe, c0, arena0, map[p.initial := 0], map[p.initial := 0],
                       [Entry(Priority(strategy, h, 0, p.initial), 0, 0)], 1)
    requires counter.count == c0 + 1
    modifies counter
    ensures counter.count == c0 + |arena|
    ensures Tree(p, arena) && IdsFrom(arena, c0)
    ensures goal.None? ==> frontier == [] && Searching(p, universe, c0, arena, reached, best, frontier, entry)
    ensures goal.Some? ==> goal.value < |arena| && p.isGoal(arena[goal.value].state)
    ensures PopLog(p, arena, pops, goal.Some?)
    ensures goal.Some? ==> Found(pops, goal.value, frontier)
    ensures History(strategy, h, arena, queues, pops)
    ensures queues[0] == [Entry(Priority(strategy, h, 0, p.initial), 0, 0)] && queues[|queues| - 1] == frontier
  {
    arena := arena0;
    var r: map<S, nat> := map[p.initial := 0];
    var f := [Entry(Priority(strategy, h, 0, p.initial), 0, 0)];
    var e: nat := 1;
    reached, best, frontier, entry := r, map[p.initial := 0], f, e;
    pops, queues := [], [f];
    goal := None;
    assert Priced(strategy, h, arena, f) by {
      assert f[0].node == 0 && BaseCost(arena, 0) == 0;
    }
    while goal.None? && f != []
      invariant counter.count == c0 + |arena|
      invariant Tree(p, arena) && IdsFrom(arena, c0)
      invariant reached == r && frontier == f && entry == e
      invariant goal.None? ==> Searching(p, universe, c0, arena, reached, best, frontier, entry)
      invariant goal.Some? ==> goal.value < |arena| && p.isGoal(arena[goal.value].state)
      invariant PopLog(p, arena, pops, goal.Some?)
      invariant goal.Some? ==> Found(pops, goal.value, frontier)
      invariant History(strategy, h, arena, queues, pops)
      invariant queues[0] == [Entry(Priority(strategy, h, 0, p.initial), 0, 0)] && queues[|queues| - 1] == f
      decreases if goal.None? then 1 else 0, |universe - r.Keys|, Total(best), |f|
    {
      goal, arena, r, best, f, e, pops, queues :=
        Step(p, h, strategy, universe, counter, arena, r, best, f, e, c0, pops, queues);
      reached, frontier, entry := r, f, e;
    }
  }

  /** One turn of the search loop: a `Round`, logged in `pops` and in the history of the queue. */
  method Step<S(!new, ==), A(!new)>(p: Problem<S, A>, h: S -> nat, strategy: Strategy, ghost universe: set<S>,
                                    counter: NodeCounter, arena0: seq<Node<S, A>>, reached0: map<S, nat>,
                                    ghost best0: map<S, nat>, frontier0: seq<Entry>, entry0: nat, ghost c0: nat,
                                    ghost pops0: seq<Entry>, ghost queues0: seq<seq<Entry>>)
    returns (goal: Option<nat>, arena: seq<Node<S, A>>, reached: map<S, nat>, ghost best: map<S, nat>,
             frontier: seq<Entry>, entry: nat, ghost pops: seq<Entry>, ghost queues: seq<seq<Entry>>)
    requires Closed(p, universe) && frontier0 != []
    requires Searching(p, universe, c0, arena0, reached0, best0, frontier0, entry0)
    requires PopLog(p, arena0, pops0, false)
    requires History(strategy, h, arena0, queues0, pops0) && queues0[|queues0| - 1] == frontier0
    requires counter.count == c0 + |arena0|
    modifies counter
    ensures counter.count == c0 + |arena|
    ensures Tree(p, arena) && IdsFrom(arena, c0)
    ensures PopLog(p, arena, pops, goal.Some?)
    ensures goal.Some? ==> goal.value < |arena| && p.isGoal(arena[goal.value].state)
    ensures goal.Some? ==> Found(pops, goal.value, frontier)
    ensures goal.None? ==> Searching(p, universe, c0, arena, reached, best, frontier, entry)
    ensures goal.None? ==> Decreased(universe, reached0, best0, frontier0, reached, best, frontier)
    ensures History(strategy, h, arena, queues, pops)
    ensures queues == queues0 + [frontier]
  {
    ghost var popped, rest, puts;
    goal, arena, reached, best, frontier, entry, popped, rest, puts :=
      Round(p, h, strategy, universe, counter, arena0, reached0, best0, frontier0, entry0, c0);
    PopsGrow(p, arena0, arena, pops0, popped, goal.Some?);
    if goal.Some? {
      RestAfterMin(frontier0, frontier, popped);
    }
    pops := pops0 + [popped];
    queues := queues0 + [frontier];
    NumberedBelow(p, universe, c0, arena0, reached0, best0, frontier0, entry0);
    HistoryStep(p, universe, strategy, h, arena0, arena, queues0, pops0, frontier0, popped, rest, puts,
                goal.Some?, entry0);
  }

  /** While searching, every entry on the frontier is numbered below the next entry number. */
  lemma NumberedBelow<S(!new), A(!new)>(p: Problem<S, A>, universe: set<S>, c0: nat, nodes: seq<Node<S, A>>,
                                        reached: map<S, nat>, best: map<S, nat>, frontier: seq<Entry>, entry: nat)
    requires Searching(p, universe, c0, nodes, reached, best, frontier, entry)
    ensures forall j :: 0 <= j < |frontier| ==> frontier[j].entry < entry
  {
  }

  /** A round extends the history of the queue by one turn, in the arena it leaves. */
  lemma HistoryStep<S(!new), A(!new)>(p: Problem<S, A>, universe: set<S>, strategy: Strategy, h: S -> nat,
                                      arena0: seq<Node<S, A>>, arena: seq<Node<S, A>>, queues0: seq<seq<Entry>>,
                                      pops0: seq<Entry>, frontier0: seq<Entry>, popped: Entry, rest: seq<Entry>,
                                      puts: seq<Entry>, found: bool, entry0: nat)
    requires ParentsBefore(arena0) && |arena0| <= |arena| && arena[..|arena0|] == arena0
    requires History(strategy, h, arena0, queues0, pops0) && queues0[|queues0| - 1] == frontier0
    requires popped in frontier0 && forall j :: 0 <= j < |frontier0| ==> !Before(frontier0[j], popped)
    requires forall j :: 0 <= j < |frontier0| ==> frontier0[j].entry < entry0
    requires |rest| == |frontier0| - 1 && multiset(rest) + multiset{popped} == multiset(frontier0)
    requires Priced(strategy, h, arena, rest + puts) && Ordered(rest + puts)
    requires found ==> puts == []
    requires !found ==> Generated(p, universe, arena, popped.node, |arena0|)
                        && Puts(strategy, h, arena, popped.node, |arena0|, entry0, puts)
    ensures History(strategy, h, arena, queues0 + [rest + puts], pops0 + [popped])
  {
    HistoryGrows(strategy, h, arena0, arena, queues0, pops0);
    RoundTurn(p, universe, strategy, h, arena0, arena, frontier0, popped, rest, puts, found, entry0);
    var queues, pops := queues0 + [rest + puts], pops0 + [popped];
    forall k | 0 <= k < |pops| ensures Turn(arena, queues[k], pops[k], queues[k + 1]) {
      if k < |pops0| {
        assert queues[k] == queues0[k] && queues[k + 1] == queues0[k + 1] && pops[k] == pops0[k];
      }
    }
    forall k | 0 <= k < |queues| ensures Priced(strategy, h, arena, queues[k]) && Ordered(queues[k]) {
      if k < |queues0| { assert queues[k] == queues0[k]; }
    }
  }

  /**
   * The history of a search loop: `pops` lists the entries taken off the queue,
   * in turn; each names a node, and that node is a goal only for the last entry
   * of a search that `found` one.
   */
  ghost predicate PopLog<S, A>(p: Problem<S, A>, arena: seq<Node<S, A>>, pops: seq<Entry>, found: bool) {
    forall k :: 0 <= k < |pops| ==>
      pops[k].node < |arena| && (p.isGoal(arena[pops[k].node].state) <==> found && k == |pops| - 1)
  }

  /**
   * How a search loop that found a goal ends: node `g` is the one of the entry
   * taken off the queue last, and nothing left on the queue comes before it.
   */
  ghost predicate Found(pops: seq<Entry>, g: nat, frontier: seq<Entry>) {
    && |pops| > 0 && g == pops[|pops| - 1].node
    && forall j :: 0 <= j < |frontier| ==> !Before(frontier[j], pops[|pops| - 1])
  }

  /**
   * The queue pops so far stay on their nodes when the arena only grows, and
   * the new pop is a goal exactly when `found`.
   */
  lemma PopsGrow<S, A>(p: Problem<S, A>, arena0: seq<Node<S, A>>, arena: seq<Node<S, A>>, pops: seq<Entry>,
                       popped: Entry, found: bool)
    requires |arena0| <= |arena| && arena[..|arena0|] == arena0
    requires PopLog(p, arena0, pops, false)
    requires popped.node < |arena0| && (found <==> p.isGoal(arena0[popped.node].state))
    ensures PopLog(p, arena, pops + [popped], found)
  {
    forall k | 0 <= k < |pops| + 1
      ensures (pops + [popped])[k].node < |arena|
              && (p.isGoal(arena[(pops + [popped])[k].node].state) <==> found && k == |pops|)
    {
      var x := (pops + [popped])[k].node;
      assert arena[x] == arena[..|arena0|][x];
    }
  }

  /** What is left after taking a least entry holds nothing that comes before it. */
  lemma RestAfterMin(frontier0: seq<Entry>, rest: seq<Entry>, popped: Entry)
    requires forall j :: 0 <= j < |frontier0| ==> !Before(frontier0[j], popped)
    requires multiset(rest) + multiset{popped} == multiset(frontier0)
    ensures forall j :: 0 <= j < |rest| ==> !Before(rest[j], popped)
  {
    forall j | 0 <= j < |rest| ensures !Before(rest[j], popped) {
      assert rest[j] in multiset(rest);
      assert rest[j] in multiset(frontier0);
      var i :| 0 <= i < |frontier0| && frontier0[i] == rest[j];
    }
  }

  /** What a search returns: the root node itself on an initial goal, otherwise a list of actions. */
  datatype Outcome<S, A> = AtRoot(node: Node<S, A>) | Actions(path: seq<Option<A>>)

  /**
   * The end of either search: the path of the goal node taken off the frontier,
   * or `[]` once the frontier has run dry, which the bookkeeping turns into "no
   * goal is reachable".
   */
  method Finish<S(!new), A(!new)>(p: Problem<S, A>, ghost universe: set<S>, ghost c0: nat, nodes: seq<Node<S, A>>,
                                  ghost reached: map<S, nat>, ghost best: map<S, nat>, ghost frontier: seq<Entry>,
                                  ghost entry: nat, goal: Option<nat>)
    returns (path: seq<Option<A>>)
    requires Tree(p, nodes) && !p.isGoal(p.initial)
    requires goal.None? ==> frontier == [] && Searching(p, universe, c0, nodes, reached, best, frontier, entry)
    requires goal.Some? ==> goal.value < |nodes| && p.isGoal(nodes[goal.value].state)
    ensures path != [] <==> goal.Some?
    ensures goal.Some? ==> path == PathBelowRoot(nodes, goal.value)
    ensures path == [] <==> !GoalReachable(p)
    ensures path != [] ==> exists run :: IsRun(p, p.initial, run) && p.isGoal(EndOf(p.initial, run))
                                         && path == Somes(Labels(run))
  {
    if goal.Some? {
      path := GetPath(nodes, goal.value);
      assert goal.value != 0;
      RunToIsRun(p, nodes, goal.value);
      RunToLabels(p, nodes, goal.value);
      PathBelowRootShape(p, nodes, goal.value);
    } else {
      AllSettledNoGoal(p, reached.Keys);
      path := [];
    }
  }

  /** The search state right after the root is created and queued. */
  lemma Start<S(!new), A(!new)>(p: Problem<S, A>, universe: set<S>, c0: nat, root: Node<S, A>, priority: nat)
    requires root == Node(p.initial, None, None, 0, 0, c0)
    requires p.initial in universe && !p.isGoal(p.initial)
    ensures Searching(p, universe, c0, [root], map[p.initial := 0], map[p.initial := 0], [Entry(priority, 0, 0)], 1)
  {
    var reached := map[p.initial := 0];
    assert reached.Keys == {p.initial};
    var frontier := [Entry(priority, 0, 0)];
    assert frontier[0].node == 0;
    assert Waiting(frontier, 0);
  }

  /**
   * Every entry taken off the queue carries the strategy's priority for its
   * node: the estimate of its state, plus its parent's path cost under A*.
   */
  lemma PopsPriced<S, A>(strategy: Strategy, h: S -> nat, nodes: seq<Node<S, A>>, queues: seq<seq<Entry>>,
                         pops: seq<Entry>)
    requires History(strategy, h, nodes, queues, pops)
    ensures forall k :: 0 <= k < |pops| ==>
      pops[k].node < |nodes|
      && pops[k].priority == Priority(strategy, h, BaseCost(nodes, pops[k].node), nodes[pops[k].node].state)
  {
    forall k | 0 <= k < |pops|
      ensures pops[k].node < |nodes|
              && pops[k].priority == Priority(strategy, h, BaseCost(nodes, pops[k].node), nodes[pops[k].node].state)
    {
      assert Turn(nodes, queues[k], pops[k], queues[k + 1]);
      var j :| 0 <= j < |queues[k]| && queues[k][j] == pops[k];
      assert Priced(strategy, h, nodes, queues[k]);
    }
  }

  /**
   * `a_star` and `greedy`, by `strategy`.  On an initial goal the root node itself
   * is returned; otherwise the path of the first goal node taken off the queue,
   * without the root, or `[]` once the queue is empty, which happens exactly when
   * no goal is reachable.  `nodes` is every node the call constructs, numbered
   * by the node counter; `queues` is the queue before each pop, starting from
   * the root's entry, with every entry priced by the strategy.
   */
  method BestFirst<S(!new, ==), A(!new)>(p: Problem<S, A>, h: S -> nat, strategy: Strategy, ghost universe: set<S>,
                                         counter: NodeCounter)
    returns (outcome: Outcome<S, A>, ghost nodes: seq<Node<S, A>>, ghost pops: seq<Entry>,
             ghost queues: seq<seq<Entry>>)
    requires p.initial in universe && Closed(p, universe)
    modifies counter
    ensures Tree(p, nodes) && IdsFrom(nodes, old(counter.count))
    ensures counter.count == old(counter.count) + |nodes|
    ensures outcome.AtRoot? <==> p.isGoal(p.initial)
    ensures outcome.AtRoot? ==> outcome.node == nodes[0] && |nodes| == 1 && pops == []
    ensures outcome.Actions? ==> (outcome.path == [] <==> !GoalReachable(p))
    ensures outcome.Actions? && outcome.path != [] ==>
      exists run :: IsRun(p, p.initial, run) && p.isGoal(EndOf(p.initial, run)) && outcome.path == Somes(Labels(run))
    ensures PopLog(p, nodes, pops, outcome.Actions? && outcome.path != [])
    ensures outcome.Actions? && outcome.path != [] ==>
      |pops| > 0 && outcome.path == PathBelowRoot(nodes, pops[|pops| - 1].node)
    ensures History(strategy, h, nodes, queues, pops)
    ensures queues[0] == [Entry(Priority(strategy, h, 0, p.initial), 0, 0)]
  {
    ghost var c0 := counter.count;
    var root := counter.Make(p.initial, None, None, 0, 0);
    nodes := [root];
    queues := [[Entry(Priority(strategy, h, 0, p.initial), 0, 0)]];
    if p.isGoal(root.state) {
      assert Priced(strategy, h, nodes, queues[0]) by { assert BaseCost(nodes, 0) == 0; }
      return AtRoot(root), nodes, [], queues;
    }
    var path;
    path, nodes, pops, queues := BestRun(p, h, strategy, universe, counter, root);
    outcome := Actions(path);
  }

  /**
   * The best-first search proper, once the root is known not to be a goal:
   * the loop from the queue holding only the root, then the path of its result.
   */
  method BestRun<S(!new, ==), A(!new)>(p: Problem<S, A>, h: S -> nat, strategy: Strategy, ghost universe: set<S>,
                                       counter: NodeCounter, root: Node<S, A>)
    returns (path: seq<Option<A>>, ghost nodes: seq<Node<S, A>>, ghost pops: seq<Entry>,
             ghost queues: seq<seq<Entry>>)
    requires p.initial in universe && Closed(p, universe) && !p.isGoal(p.initial)
    requires counter.count > 0 && root == Node(p.initial, None, None, 0, 0, counter.count - 1)
    modifies counter
    ensures Tree(p, nodes) && IdsFrom(nodes, old(counter.count) - 1) && nodes[0] == root
    ensures counter.count == old(counter.count) - 1 + |nodes|
    ensures path == [] <==> !GoalReachable(p)
    ensures path != [] ==>
      exists run :: IsRun(p, p.initial, run) && p.isGoal(EndOf(p.initial, run)) && path == Somes(Labels(run))
    ensures PopLog(p, nodes, pops, path != [])
    ensures path != [] ==> |pops| > 0 && path == PathBelowRoot(nodes, pops[|pops| - 1].node)
    ensures History(strategy, h, nodes, queues, pops)
    ensures queues[0] == [Entry(Priority(strategy, h, 0, p.initial), 0, 0)]
  {
    ghost var c0 := counter.count - 1;
    Start(p, universe, c0, root, Priority(strategy, h, 0, p.initial));
    var goal, arena;
    ghost var reached, best, frontier, entry;
    goal, arena, reached, best, frontier, entry, pops, queues := Loop(p, h, strategy, universe, counter, c0, [root]);
    nodes := arena;
    path := Finish(p, universe, c0, arena, reached, best, frontier, entry, goal);
  }

  /**
   * `a_star`: best-first search on the path cost of the node being expanded
   * plus the estimate of the child's state.  The root is queued at its
   * estimate; every entry taken off the queue carries its parent's path cost
   * plus its own estimate, one step cost below the child's own cost plus
   * estimate.  Of two entries with the same priority, the one put first
   * leaves first.
   */
  method AStarSearch<S(!new, ==), A(!new)>(p: Problem<S, A>, h: S -> nat, ghost universe: set<S>, counter: NodeCounter)
    returns (outcome: Outcome<S, A>, ghost nodes: seq<Node<S, A>>, ghost pops: seq<Entry>,
             ghost queues: seq<seq<Entry>>)
    requires p.initial in universe && Closed(p, universe)
    modifies counter
    ensures Tree(p, nodes) && IdsFrom(nodes, old(counter.count))
    ensures counter.count == old(counter.count) + |nodes|
    ensures outcome.AtRoot? <==> p.isGoal(p.initial)
    ensures outcome.AtRoot? ==> outcome.node == nodes[0] && |nodes| == 1 && pops == []
    ensures outcome.Actions? ==> (outcome.path == [] <==> !GoalReachable(p))
    ensures outcome.Actions? && outcome.path != [] ==>
      exists run :: IsRun(p, p.initial, run) && p.isGoal(EndOf(p.initial, run)) && outcome.path == Somes(Labels(run))
    ensures PopLog(p, nodes, pops, outcome.Actions? && outcome.path != [])
    ensures outcome.Actions? && outcome.path != [] ==>
      |pops| > 0 && outcome.path == PathBelowRoot(nodes, pops[|pops| - 1].node)
    ensures History(AStar, h, nodes, queues, pops) && queues[0] == [Entry(h(p.initial), 0, 0)]
    ensures forall k :: 0 <= k < |pops| ==>
      pops[k].node < |nodes| && pops[k].priority == BaseCost(nodes, pops[k].node) + h(nodes[pops[k].node].state)
    ensures forall k, i, j ::
      0 <= k < |pops| && 0 <= i < j < |queues[k]| && queues[k][i].priority == queues[k][j].priority ==>
        pops[k] != queues[k][j]
  {
    outcome, nodes, pops, queues := BestFirst(p, h, AStar, universe, counter);
    PopsPriced(AStar, h, nodes, queues, pops);
    TiesInPutOrder(AStar, h, nodes, queues, pops);
  }

  /**
   * `greedy`: best-first search on the estimate of the child's state alone.
   * Of two entries with the same estimate, the one put first leaves first.
   */
  method GreedySearch<S(!new, ==), A(!new)>(p: Problem<S, A>, h: S -> nat, ghost universe: set<S>, counter: NodeCounter)
    returns (outcome: Outcome<S, A>, ghost nodes: seq<Node<S, A>>, ghost pops: seq<Entry>,
             ghost queues: seq<seq<Entry>>)
    requires p.initial in universe && Closed(p, universe)
    modifies counter
    ensures Tree(p, nodes) && IdsFrom(nodes, old(counter.count))
    ensures counter.count == old(counter.count) + |nodes|
    ensures outcome.AtRoot? <==> p.isGoal(p.initial)
    ensures outcome.AtRoot? ==> outcome.node == nodes[0] && |nodes| == 1 && pops == []
    ensures outcome.Actions? ==> (outcome.path == [] <==> !GoalReachable(p))
    ensures outcome.Actions? && outcome.path != [] ==>
      exists run :: IsRun(p, p.initial, run) && p.isGoal(EndOf(p.initial, run)) && outcome.path == Somes(Labels(run))
    ensures PopLog(p, nodes, pops, outcome.Actions? && outcome.path != [])
    ensures outcome.Actions? && outcome.path != [] ==>
      |pops| > 0 && outcome.path == PathBelowRoot(nodes, pops[|pops| - 1].node)
    ensures History(Greedy, h, nodes, queues, pops) && queues[0] == [Entry(h(p.initial), 0, 0)]
    ensures forall k :: 0 <= k < |pops| ==>
      pops[k].node < |nodes| && pops[k].priority == h(nodes[pops[k].node].state)
    ensures forall k, i, j ::
      0 <= k < |pops| && 0 <= i < j < |queues[k]| && queues[k][i].priority == queues[k][j].priority ==>
        pops[k] != queues[k][j]
  {
    outcome, nodes, pops, queues := BestFirst(p, h, Greedy, universe, counter);
    PopsPriced(Greedy, h, nodes, queues, pops);
    TiesInPutOrder(Greedy, h, nodes, queues, pops);
  }
}
