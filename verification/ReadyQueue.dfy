/**
 The main loop of module.Sort on linked nodes: the in-degree of a node counts its distinct unplaced prerequisites, the
 queue holds exactly the ready nodes in index order, and what comes out is a run of Kahn's algorithm to its end.
 */
module ReadyQueue {
  import opened DependencyGraph
  import opened Modules
  import opened NodeTable

  // ---- Sorting the queue ----

  function InsertByIndex<F>(ns: seq<Node<F>>, n: Node<F>): (r: seq<Node<F>>)
    ensures multiset(r) == multiset(ns) + multiset{n}
  {
    if ns == [] || n.index < ns[0].index then [n] + ns
    else
      assert ns == [ns[0]] + ns[1..];
      [ns[0]] + InsertByIndex(ns[1..], n)
  }

  /** slices.SortFunc by node index. */
  function SortByIndex<F>(ns: seq<Node<F>>): (r: seq<Node<F>>)
    ensures multiset(r) == multiset(ns)
  {
    if ns == [] then []
    else
      assert ns == [ns[0]] + ns[1..];
      InsertByIndex(SortByIndex(ns[1..]), ns[0])
  }

  ghost predicate DistinctIndices<F>(ns: seq<Node<F>>) {
    forall i, j :: 0 <= i < j < |ns| ==> ns[i].index != ns[j].index
  }

  lemma {:induction false} InsertByIndexOrders<F>(ns: seq<Node<F>>, n: Node<F>)
    requires IndexOrder(ns) && forall x :: x in ns ==> x.index != n.index
    ensures IndexOrder(InsertByIndex(ns, n))
  {
    if ns != [] && ns[0].index < n.index {
      InsertByIndexOrders(ns[1..], n);
      var tail := InsertByIndex(ns[1..], n);
      forall j | 0 <= j < |tail| ensures ns[0].index < tail[j].index {
        assert tail[j] in multiset(tail);
        assert tail[j] == n || tail[j] in ns[1..];
      }
    }
  }

  lemma {:induction false} SortByIndexOrders<F>(ns: seq<Node<F>>)
    requires DistinctIndices(ns)
    ensures IndexOrder(SortByIndex(ns))
  {
    if ns != [] {
      SortByIndexOrders(ns[1..]);
      var rest := SortByIndex(ns[1..]);
      forall x | x in rest ensures x.index != ns[0].index {
        assert x in multiset(ns[1..]);
        assert x in ns[1..];
      }
      InsertByIndexOrders(rest, ns[0]);
    }
  }

  lemma SortByIndexMembers<F>(ns: seq<Node<F>>)
    ensures forall n :: n in SortByIndex(ns) <==> n in ns
  {
    forall n ensures n in SortByIndex(ns) <==> n in ns {
      assert n in multiset(SortByIndex(ns)) <==> n in multiset(ns);
    }
  }

  // ---- Nodes as vertices ----

  /** The nodes are the vertices of g, and their declared dependencies its prerequisites. */
  ghost predicate Table<F>(g: Graph, nodes: seq<Node<F>>, byName: map<string, Node<F>>) {
    && IndexOrder(nodes)
    && NameTable(nodes, byName)
    && (forall n {:trigger Vertex(g, byName, n)} :: n in nodes ==> Vertex(g, byName, n))
    && (forall v {:trigger HasNode(nodes, v)} :: v in g ==> HasNode(nodes, v))
  }

  ghost predicate Vertex<F>(g: Graph, byName: map<string, Node<F>>, n: Node<F>) {
    && n.index in g
    && DistinctNames(n.dependsOn)
    && n.name !in n.dependsOn
    && (forall d :: d in n.dependsOn ==> d in byName && byName[d].index in g[n.index])
    && (forall v :: v in g[n.index] ==> exists d :: d in n.dependsOn && d in byName && byName[d].index == v)
  }

  ghost predicate HasNode<F>(nodes: seq<Node<F>>, v: nat) {
    exists n :: n in nodes && n.index == v
  }

  lemma SameIndexSameNode<F>(nodes: seq<Node<F>>, a: Node<F>, b: Node<F>)
    requires IndexOrder(nodes) && a in nodes && b in nodes && a.index == b.index
    ensures a == b
  {
    var i :| 0 <= i < |nodes| && nodes[i] == a;
    var j :| 0 <= j < |nodes| && nodes[j] == b;
  }

  // ---- Unplaced prerequisites ----

  /** The distinct prerequisites of n that are not yet in the order o. */
  ghost function Unplaced<F>(byName: map<string, Node<F>>, o: seq<nat>, n: Node<F>): set<string> {
    set d | d in n.dependsOn && !(d in byName && byName[d].index in o)
  }

  /** A node is ready exactly when it is unplaced and has no unplaced prerequisite left. */
  lemma ReadyIffNoneUnplaced<F>(g: Graph, byName: map<string, Node<F>>, o: seq<nat>, n: Node<F>)
    requires Vertex(g, byName, n)
    ensures Ready(g, o, n.index) <==> n.index !in o && Unplaced(byName, o, n) == {}
  {
    if Unplaced(byName, o, n) == {} {
      forall v | v in g[n.index] ensures v in o {
        var d :| d in n.dependsOn && d in byName && byName[d].index == v;
        assert d !in Unplaced(byName, o, n);
      }
    }
    if Ready(g, o, n.index) {
      forall d | d in n.dependsOn ensures d !in Unplaced(byName, o, n) {
        assert byName[d].index in g[n.index];
      }
    }
  }

  lemma PlacedHasNoneUnplaced<F>(g: Graph, byName: map<string, Node<F>>, o: seq<nat>, n: Node<F>)
    requires Vertex(g, byName, n) && KahnRun(g, o) && n.index in o
    ensures Unplaced(byName, o, n) == {}
  {
    KahnRunRespects(g, o);
    var k :| 0 <= k < |o| && o[k] == n.index;
    forall d | d in n.dependsOn ensures byName[d].index in o {
      assert byName[d].index in o[..k];
    }
  }

  lemma UnplacedStep<F>(
    g: Graph, nodes: seq<Node<F>>, byName: map<string, Node<F>>, o: seq<nat>, current: Node<F>, n: Node<F>)
    requires IndexOrder(nodes) && NameTable(nodes, byName) && Vertex(g, byName, n)
    requires current in nodes && current.index !in o
    ensures Unplaced(byName, o + [current.index], n) == Unplaced(byName, o, n) - {current.name}
    ensures current.name in Unplaced(byName, o, n) <==> current.name in n.dependsOn
  {
    assert byName[current.name] == current;
    forall d | d in n.dependsOn ensures byName[d].index == current.index <==> d == current.name {
      if byName[d].index == current.index { SameIndexSameNode(nodes, byName[d], current); }
    }
  }

  lemma RemoveOneSize(s: set<string>, x: string)
    requires x in s
    ensures |s - {x}| == |s| - 1 && (|s| == 1 <==> s - {x} == {})
  {
    assert s == (s - {x}) + {x};
  }

  /**
   A dependent of an unplaced node waits for it, and becomes ready with it exactly when that was the last unplaced
   prerequisite.
   */
  lemma DependentWaits<F>(
    g: Graph, nodes: seq<Node<F>>, byName: map<string, Node<F>>, o: seq<nat>, current: Node<F>, n: Node<F>)
    requires IndexOrder(nodes) && NameTable(nodes, byName) && Vertex(g, byName, n) && n in nodes
    requires KahnRun(g, o) && current in nodes && current.index !in o && current.name in n.dependsOn
    ensures n != current && !Ready(g, o, n.index) && |Unplaced(byName, o, n)| >= 1
    ensures |Unplaced(byName, o, n)| == 1 <==> Ready(g, o + [current.index], n.index)
  {
    UnplacedStep(g, nodes, byName, o, current, n);
    RemoveOneSize(Unplaced(byName, o, n), current.name);
    if n.index in o { PlacedHasNoneUnplaced(g, byName, o, n); }
    if n.index == current.index { SameIndexSameNode(nodes, n, current); }
    ReadyIffNoneUnplaced(g, byName, o, n);
    ReadyIffNoneUnplaced(g, byName, o + [current.index], n);
  }

  // ---- Counters and queue while dependents are released ----

  /** Between rounds: every in-degree is the number of distinct unplaced prerequisites. */
  ghost predicate Counting<F>(c: Counters<F>, nodes: seq<Node<F>>, byName: map<string, Node<F>>, o: seq<nat>) {
    Releasing(c, nodes, byName, o, [])
  }

  /** After the nodes named in released have been decremented for a prerequisite that is about to join o. */
  ghost predicate Releasing<F>(
    c: Counters<F>, nodes: seq<Node<F>>, byName: map<string, Node<F>>, o: seq<nat>, released: seq<string>)
  {
    && Dependents(c, nodes, byName)
    && (forall n {:trigger Counted(c, byName, o, released, n)} :: n in nodes ==> Counted(c, byName, o, released, n))
  }

  ghost predicate Counted<F>(
    c: Counters<F>, byName: map<string, Node<F>>, o: seq<nat>, released: seq<string>, n: Node<F>)
    requires n in c.inDegree
  {
    c.inDegree[n] == |Unplaced(byName, o, n)| - (if n.name in released then 1 else 0)
  }

  /** Between rounds: the queue holds exactly the ready nodes, least index first. */
  ghost predicate IsReadyQueue<F>(g: Graph, nodes: seq<Node<F>>, o: seq<nat>, ready: seq<Node<F>>) {
    && IndexOrder(ready)
    && (forall n :: n in ready ==> n in nodes)
    && (forall n {:trigger InQueue(g, o, ready, n)} :: n in nodes ==> InQueue(g, o, ready, n))
  }

  ghost predicate InQueue<F>(g: Graph, o: seq<nat>, ready: seq<Node<F>>, n: Node<F>) {
    n in ready <==> Ready(g, o, n.index)
  }

  ghost predicate ReleasingQueue<F>(
    g: Graph, nodes: seq<Node<F>>, o: seq<nat>, current: Node<F>, released: seq<string>, ready: seq<Node<F>>)
  {
    && IndexOrder(ready)
    && (forall n :: n in ready ==> n in nodes)
    && (forall n {:trigger InReleasingQueue(g, o, current, released, ready, n)} ::
          n in nodes ==> InReleasingQueue(g, o, current, released, ready, n))
  }

  ghost predicate InReleasingQueue<F>(
    g: Graph, o: seq<nat>, current: Node<F>, released: seq<string>, ready: seq<Node<F>>, n: Node<F>)
  {
    n in ready <==>
      n != current
      && (Ready(g, o, n.index) || (n.name in released && Ready(g, o + [current.index], n.index)))
  }

  /** The head of the queue is the least ready vertex. */
  lemma HeadIsLeastReady<F>(
    g: Graph, nodes: seq<Node<F>>, byName: map<string, Node<F>>, o: seq<nat>, ready: seq<Node<F>>)
    requires Table(g, nodes, byName) && IsReadyQueue(g, nodes, o, ready) && ready != []
    ensures ready[0] in nodes && LeastReady(g, o, ready[0].index)
  {
    var current := ready[0];
    assert current in ready;
    assert InQueue(g, o, ready, current);
    forall u: nat | Ready(g, o, u) ensures current.index <= u {
      assert HasNode(nodes, u);
      var n :| n in nodes && n.index == u;
      assert InQueue(g, o, ready, n);
      var i :| 0 <= i < |ready| && ready[i] == n;
    }
  }

  lemma QueueEmptyIsStuck<F>(g: Graph, nodes: seq<Node<F>>, byName: map<string, Node<F>>, o: seq<nat>)
    requires Table(g, nodes, byName) && IsReadyQueue(g, nodes, o, [])
    ensures Stuck(g, o)
  {
    forall v: nat ensures !Ready(g, o, v) {
      if v in g {
        assert HasNode(nodes, v);
        var n :| n in nodes && n.index == v;
        assert InQueue(g, o, [], n);
      }
    }
  }

  lemma StartReleasing<F>(g: Graph, nodes: seq<Node<F>>, o: seq<nat>, ready: seq<Node<F>>)
    requires IsReadyQueue(g, nodes, o, ready) && ready != []
    ensures ReleasingQueue(g, nodes, o, ready[0], [], ready[1..])
  {
    var current, rest := ready[0], ready[1..];
    assert ready == [current] + rest;
    forall n | n in nodes ensures InReleasingQueue(g, o, current, [], rest, n) {
      assert InQueue(g, o, ready, n);
      if current in rest {
        var i :| 0 <= i < |rest| && rest[i] == current;
        assert ready[i + 1] == current;
      }
    }
  }

  lemma ReleaseCounter<F>(
    c: Counters<F>, nodes: seq<Node<F>>, byName: map<string, Node<F>>, o: seq<nat>, released: seq<string>, n: Node<F>)
    requires NameTable(nodes, byName) && Releasing(c, nodes, byName, o, released)
    requires n in nodes && n.name !in released
    ensures Releasing(EdgeConsumed(c, n), nodes, byName, o, released + [n.name])
  {
    var c' := EdgeConsumed(c, n);
    forall m | m in nodes ensures Counted(c', byName, o, released + [n.name], m) {
      assert Counted(c, byName, o, released, m);
      assert byName[m.name] == m && byName[n.name] == n;
    }
    forall m, x | m in nodes ensures Listed(c', byName, m, x) {
      assert Listed(c, byName, m, x);
    }
  }

  /** queue is ready, or ready with n entered at its place. */
  ghost predicate QueueAfter<F>(ready: seq<Node<F>>, n: Node<F>, enqueued: bool, queue: seq<Node<F>>) {
    && IndexOrder(queue)
    && (forall m :: m in queue ==> m in ready || (enqueued && m == n))
    && (forall m :: m in ready ==> m in queue)
    && (enqueued ==> n in queue)
  }

  lemma Enqueue<F>(ready: seq<Node<F>>, nodes: seq<Node<F>>, n: Node<F>)
    requires IndexOrder(ready) && IndexOrder(nodes) && n in nodes && n !in ready
    requires forall m :: m in ready ==> m in nodes
    ensures QueueAfter(ready, n, true, SortByIndex(ready + [n]))
  {
    forall m | m in ready ensures m.index != n.index {
      if m.index == n.index { SameIndexSameNode(nodes, m, n); }
    }
    SortByIndexOrders(ready + [n]);
    SortByIndexMembers(ready + [n]);
    EnqueuedMembers(ready, n, SortByIndex(ready + [n]));
  }

  lemma EnqueuedMembers<F>(ready: seq<Node<F>>, n: Node<F>, queue: seq<Node<F>>)
    requires IndexOrder(queue) && forall m :: m in queue <==> m in ready + [n]
    ensures QueueAfter(ready, n, true, queue)
  {
    assert n in ready + [n];
    forall m | m in ready ensures m in ready + [n] {}
  }

  /** The queue after the next dependent has been decremented. */
  lemma ReleaseQueue<F>(
    g: Graph, nodes: seq<Node<F>>, byName: map<string, Node<F>>, o: seq<nat>,
    current: Node<F>, released: seq<string>, ready: seq<Node<F>>, n: Node<F>, becameReady: bool, queue: seq<Node<F>>)
    requires NameTable(nodes, byName)
    requires ReleasingQueue(g, nodes, o, current, released, ready)
    requires n in nodes && n != current && n !in ready && !Ready(g, o, n.index)
    requires becameReady <==> Ready(g, o + [current.index], n.index)
    requires QueueAfter(ready, n, becameReady, queue)
    ensures ReleasingQueue(g, nodes, o, current, released + [n.name], queue)
  {
    forall m | m in nodes ensures InReleasingQueue(g, o, current, released + [n.name], queue, m) {
      assert InReleasingQueue(g, o, current, released, ready, m);
      assert byName[m.name] == m && byName[n.name] == n;
    }
  }

  /** All dependents released: the books are balanced with the current node placed. */
  lemma FinishReleasing<F>(
    g: Graph, c: Counters<F>, nodes: seq<Node<F>>, byName: map<string, Node<F>>, o: seq<nat>,
    current: Node<F>, ready: seq<Node<F>>)
    requires Table(g, nodes, byName) && current in nodes && current.index !in o && current in c.dependents
    requires Releasing(c, nodes, byName, o, c.dependents[current])
    requires ReleasingQueue(g, nodes, o, current, c.dependents[current], ready)
    ensures Counting(c, nodes, byName, o + [current.index])
    ensures IsReadyQueue(g, nodes, o + [current.index], ready)
  {
    var list, o' := c.dependents[current], o + [current.index];
    forall n | n in nodes ensures Counted(c, byName, o', [], n) && InQueue(g, o', ready, n) {
      assert Counted(c, byName, o, list, n) && InReleasingQueue(g, o, current, list, ready, n);
      assert byName[n.name] == n && Listed(c, byName, current, n.name);
      FinishNode(g, c, nodes, byName, o, current, ready, n);
    }
  }

  lemma FinishNode<F>(
    g: Graph, c: Counters<F>, nodes: seq<Node<F>>, byName: map<string, Node<F>>, o: seq<nat>,
    current: Node<F>, ready: seq<Node<F>>, n: Node<F>)
    requires IndexOrder(nodes) && NameTable(nodes, byName) && n in nodes && Vertex(g, byName, n) && n in c.inDegree
    requires current in nodes && current.index !in o && current in c.dependents
    requires Counted(c, byName, o, c.dependents[current], n)
    requires InReleasingQueue(g, o, current, c.dependents[current], ready, n)
    requires n.name in c.dependents[current] <==> current.name in n.dependsOn
    ensures Counted(c, byName, o + [current.index], [], n)
    ensures InQueue(g, o + [current.index], ready, n)
  {
    UnplacedStep(g, nodes, byName, o, current, n);
    if current.name in n.dependsOn { RemoveOneSize(Unplaced(byName, o, n), current.name); }
    ReadyIffNoneUnplaced(g, byName, o, n);
    ReadyIffNoneUnplaced(g, byName, o + [current.index], n);
    if n.index == current.index { SameIndexSameNode(nodes, n, current); }
  }

  // ---- The loops ----

  method Decrement<F>(ghost nodes: seq<Node<F>>, n: Node<F>)
    requires n in nodes
    modifies n`inDegree
    ensures n.inDegree == old(n.inDegree) - 1
    ensures Snapshot(nodes) == EdgeConsumed(old(Snapshot(nodes)), n)
  {
    n.inDegree := n.inDegree - 1;
  }

  /** What decrementing the next dependent n does: one edge consumed, and n enqueued when its counter reaches zero. */
  ghost predicate Releasable<F>(
    g: Graph, c: Counters<F>, nodes: seq<Node<F>>, byName: map<string, Node<F>>, o: seq<nat>,
    current: Node<F>, released: seq<string>, ready: seq<Node<F>>, n: Node<F>)
  {
    && n in c.inDegree && c.inDegree[n] >= 1 && n !in ready
    && Releasing(EdgeConsumed(c, n), nodes, byName, o, released + [n.name])
    && ReleasingQueue(g, nodes, o, current, released + [n.name],
                      if c.inDegree[n] == 1 then SortByIndex(ready + [n]) else ready)
  }

  lemma ReleaseStep<F>(
    g: Graph, c: Counters<F>, nodes: seq<Node<F>>, byName: map<string, Node<F>>, o: seq<nat>,
    current: Node<F>, k: int, ready: seq<Node<F>>)
    requires Table(g, nodes, byName) && KahnRun(g, o) && current in nodes && current.index !in o
    requires current in c.dependents && 0 <= k < |c.dependents[current]|
    requires Releasing(c, nodes, byName, o, c.dependents[current][..k])
    requires ReleasingQueue(g, nodes, o, current, c.dependents[current][..k], ready)
    ensures c.dependents[current][k] in byName && byName[c.dependents[current][k]] in nodes
    ensures var n := byName[c.dependents[current][k]];
            Releasable(g, c, nodes, byName, o, current, c.dependents[current][..k], ready, n)
            && n.name == c.dependents[current][k]
  {
    var list := c.dependents[current];
    assert Listed(c, byName, current, list[k]);
    assert list[k] in list && list[k] !in list[..k];
    var n := byName[list[k]];
    assert Counted(c, byName, o, list[..k], n) && Vertex(g, byName, n);
    DependentWaits(g, nodes, byName, o, current, n);
    ReleaseCounter(c, nodes, byName, o, list[..k], n);
    assert InReleasingQueue(g, o, current, list[..k], ready, n);
    if c.inDegree[n] == 1 { Enqueue(ready, nodes, n); }
    ReleaseQueue(g, nodes, byName, o, current, list[..k], ready, n, c.inDegree[n] == 1,
                 if c.inDegree[n] == 1 then SortByIndex(ready + [n]) else ready);
  }

  method ReleaseNext<F>(
    ghost g: Graph, ghost nodes: seq<Node<F>>, ghost byName: map<string, Node<F>>, ghost o: seq<nat>,
    ghost current: Node<F>, ghost released: seq<string>, ready: seq<Node<F>>, dependent: Node<F>)
    returns (ready': seq<Node<F>>)
    requires dependent in nodes
    requires Releasable(g, Snapshot(nodes), nodes, byName, o, current, released, ready, dependent)
    modifies nodes
    ensures Snapshot(nodes).dependents == old(Snapshot(nodes)).dependents
    ensures Releasing(Snapshot(nodes), nodes, byName, o, released + [dependent.name])
    ensures ReleasingQueue(g, nodes, o, current, released + [dependent.name], ready')
  {
    Decrement(nodes, dependent);
    ready' := ready;
    if dependent.inDegree == 0 {
      ready' := SortByIndex(ready + [dependent]);
    }
  }

  /** The inner loop of Sort: release every dependent of the node just placed. */
  method ReleaseDependents<F>(
    ghost g: Graph, ghost nodes: seq<Node<F>>, byName: map<string, Node<F>>, ghost o: seq<nat>,
    current: Node<F>, ready: seq<Node<F>>)
    returns (ready': seq<Node<F>>)
    requires Table(g, nodes, byName) && KahnRun(g, o) && current in nodes && current.index !in o
    requires Counting(Snapshot(nodes), nodes, byName, o)
    requires ReleasingQueue(g, nodes, o, current, [], ready)
    modifies nodes
    ensures Counting(Snapshot(nodes), nodes, byName, o + [current.index])
    ensures IsReadyQueue(g, nodes, o + [current.index], ready')
  {
    ready' := ready;
    ghost var list := current.dependents;
    for k := 0 to |current.dependents|
      invariant Snapshot(nodes).dependents == old(Snapshot(nodes)).dependents && current.dependents == list
      invariant Releasing(Snapshot(nodes), nodes, byName, o, list[..k])
      invariant ReleasingQueue(g, nodes, o, current, list[..k], ready')
    {
      ReleaseStep(g, Snapshot(nodes), nodes, byName, o, current, k, ready');
      assert list[..k + 1] == list[..k] + [list[k]];
      ready' := ReleaseNext(g, nodes, byName, o, current, list[..k], ready', byName[current.dependents[k]]);
    }
    assert list[..|list|] == list;
    FinishReleasing(g, Snapshot(nodes), nodes, byName, o, current, ready');
  }

  /** ordered lists the modules of the nodes whose indices are in o. */
  ghost predicate ModulesOf<F>(nodes: seq<Node<F>>, o: seq<nat>, ordered: seq<Module<F>>) {
    |o| == |ordered| && forall k :: 0 <= k < |o| ==> NodeOf(nodes, o[k], ordered[k])
  }

  ghost predicate NodeOf<F>(nodes: seq<Node<F>>, v: nat, m: Module<F>) {
    exists n :: n in nodes && n.index == v && n.mod == m
  }

  lemma PlaceNext(g: Graph, o: seq<nat>, v: nat)
    requires KahnRun(g, o) && LeastReady(g, o, v)
    ensures v !in o && KahnRun(g, o + [v]) && |o| < |g.Keys|
  {
    KahnRunExtends(g, o, v);
    CompleteIffLength(g, o + [v]);
  }

  /** The main loop: place the head of the queue and release its dependents, until the queue is empty. */
  method Drain<F>(ghost g: Graph, nodes: seq<Node<F>>, byName: map<string, Node<F>>, queue: seq<Node<F>>)
    returns (ordered: seq<Module<F>>, ghost o: seq<nat>)
    requires Table(g, nodes, byName) && Counting(Snapshot(nodes), nodes, byName, [])
    requires IsReadyQueue(g, nodes, [], queue)
    modifies nodes
    ensures KahnRun(g, o) && Stuck(g, o) && ModulesOf(nodes, o, ordered)
    ensures Counting(Snapshot(nodes), nodes, byName, o)
  {
    ordered, o := [], [];
    var ready := queue;
    while |ready| > 0
      invariant KahnRun(g, o) && ModulesOf(nodes, o, ordered)
      invariant Counting(Snapshot(nodes), nodes, byName, o) && IsReadyQueue(g, nodes, o, ready)
      decreases |g.Keys| - |o|
    {
      HeadIsLeastReady(g, nodes, byName, o, ready);
      StartReleasing(g, nodes, o, ready);
      var current := ready[0];
      PlaceNext(g, o, current.index);
      ready := ready[1..];
      ordered := ordered + [current.mod];
      assert NodeOf(nodes, current.index, current.mod);
      ready := ReleaseDependents(g, nodes, byName, o, current, ready);
      o := o + [current.index];
    }
    QueueEmptyIsStuck(g, nodes, byName, o);
  }

  // ---- Before and after the loop ----

  lemma DistinctNamesSize(names: seq<string>)
    requires DistinctNames(names)
    ensures |(set d | d in names)| == |names|
  {
    if names != [] {
      var n := |names| - 1;
      DistinctNamesSize(names[..n]);
      assert (set d | d in names) == (set d | d in names[..n]) + {names[n]};
      assert names[n] !in names[..n];
    }
  }

  /** Before anything is placed, every dependency is an unplaced prerequisite. */
  lemma CountingStarts<F>(g: Graph, c: Counters<F>, nodes: seq<Node<F>>, byName: map<string, Node<F>>)
    requires Table(g, nodes, byName) && Edges(c, nodes, byName)
    ensures Counting(c, nodes, byName, [])
  {
    forall n | n in nodes ensures Counted(c, byName, [], [], n) {
      assert Vertex(g, byName, n);
      DistinctNamesSize(n.dependsOn);
      assert Unplaced(byName, [], n) == set d | d in n.dependsOn;
    }
  }

  lemma InitialQueueIsReady<F>(
    g: Graph, c: Counters<F>, nodes: seq<Node<F>>, byName: map<string, Node<F>>, queue: seq<Node<F>>)
    requires Table(g, nodes, byName) && Counting(c, nodes, byName, []) && IndexOrder(queue)
    requires forall n :: n in queue <==> n in nodes && c.inDegree[n] == 0
    ensures IsReadyQueue(g, nodes, [], queue)
  {
    forall n | n in nodes ensures InQueue(g, [], queue, n) {
      assert Counted(c, byName, [], [], n) && Vertex(g, byName, n);
      ReadyIffNoneUnplaced(g, byName, [], n);
    }
  }

  method InitialQueue<F>(ghost g: Graph, nodes: seq<Node<F>>, ghost byName: map<string, Node<F>>)
    returns (ready: seq<Node<F>>)
    requires Table(g, nodes, byName) && Counting(Snapshot(nodes), nodes, byName, [])
    ensures IsReadyQueue(g, nodes, [], ready)
  {
    ready := ZeroInDegree(nodes);
    SortByIndexOrders(ready);
    SortByIndexMembers(ready);
    ready := SortByIndex(ready);
    InitialQueueIsReady(g, Snapshot(nodes), nodes, byName, ready);
  }

  method ZeroInDegree<F>(nodes: seq<Node<F>>) returns (ready: seq<Node<F>>)
    requires IndexOrder(nodes)
    ensures DistinctIndices(ready)
    ensures forall n :: n in ready <==> n in nodes && n.inDegree == 0
  {
    ready := [];
    for i := 0 to |nodes|
      invariant DistinctIndices(ready)
      invariant forall n :: n in ready <==> n in nodes[..i] && n.inDegree == 0
    {
      var current := nodes[i];
      assert nodes[..i + 1] == nodes[..i] + [current];
      if current.inDegree == 0 {
        forall n | n in ready ensures n.index < current.index { assert n in nodes[..i]; }
        ready := ready + [current];
      }
    }
    assert nodes[..|nodes|] == nodes;
  }

  /** When the loop is over, a positive in-degree marks exactly the vertices from which a cycle can be reached. */
  lemma PositiveIffBlocked<F>(
    g: Graph, c: Counters<F>, nodes: seq<Node<F>>, byName: map<string, Node<F>>, o: seq<nat>, n: Node<F>)
    requires Closed(g) && Table(g, nodes, byName) && Counting(c, nodes, byName, o)
    requires KahnRun(g, o) && Stuck(g, o) && n in nodes && n in c.inDegree
    ensures c.inDegree[n] >= 0
    ensures c.inDegree[n] > 0 <==> ReachesCycle(g, n.index)
  {
    assert Counted(c, byName, o, [], n) && Vertex(g, byName, n);
    BlockedIffReachesCycle(g, o, n.index);
    if n.index in o { PlacedHasNoneUnplaced(g, byName, o, n); }
    ReadyIffNoneUnplaced(g, byName, o, n);
  }
}
