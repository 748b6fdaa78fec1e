/**
 module.Sort: registration, linking, draining and the cycle report, composed and proved to meet SortOutcome.
 */
module ModuleSort {
  import opened Wrappers
  import opened DependencyGraph
  import opened Modules
  import opened NodeTable
  import opened ReadyQueue
  import Text

  // ---- Registration ----

  ghost predicate NodeFor<F>(ms: Registration<F>, n: Node<F>) {
    && Live(ms, n.index)
    && n.mod == ModuleAt(ms, n.index)
    && n.name == NameAt(ms, n.index)
    && n.dependsOn == DependenciesAt(ms, n.index)
  }

  /** nodes holds one node for each enabled module among the first k, in registration order, and byName finds them. */
  ghost predicate NodesOf<F>(ms: Registration<F>, k: int, nodes: seq<Node<F>>, byName: map<string, Node<F>>) {
    && IndexOrder(nodes)
    && NameTable(nodes, byName)
    && (forall n {:trigger NodeFor(ms, n)} :: n in nodes ==> NodeFor(ms, n) && n.index < k)
    && AllFound(ms, k, byName)
  }

  ghost predicate AllFound<F>(ms: Registration<F>, k: int, byName: map<string, Node<F>>) {
    forall i :: i < k && Live(ms, i) ==> NameAt(ms, i) in byName && byName[NameAt(ms, i)].index == i
  }

  lemma SkipDisabled<F>(ms: Registration<F>, k: int, nodes: seq<Node<F>>, byName: map<string, Node<F>>)
    requires NamesValid(ms, k) && NodesOf(ms, k, nodes, byName) && !Live(ms, k)
    ensures NamesValid(ms, k + 1) && NodesOf(ms, k + 1, nodes, byName)
  {
    assert AllFound(ms, k + 1, byName) by {
      forall i | i < k + 1 && Live(ms, i) ensures NameAt(ms, i) in byName && byName[NameAt(ms, i)].index == i {
        assert i < k;
      }
    }
  }

  lemma AddName<F>(ms: Registration<F>, k: int, byName: map<string, Node<F>>)
    requires NamesValid(ms, k) && AllFound(ms, k, byName)
    requires Live(ms, k) ==> NameAt(ms, k) != "" && NameAt(ms, k) !in byName
    ensures NamesValid(ms, k + 1)
  {
    forall i | i < k && Live(ms, i) && Live(ms, k) ensures NameAt(ms, i) != NameAt(ms, k) {
      assert NameAt(ms, i) in byName;
    }
  }

  lemma AddToTable<F>(nodes: seq<Node<F>>, byName: map<string, Node<F>>, node: Node<F>)
    requires IndexOrder(nodes) && NameTable(nodes, byName) && node.name !in byName
    requires forall n :: n in nodes ==> n.index < node.index
    ensures IndexOrder(nodes + [node]) && NameTable(nodes + [node], byName[node.name := node])
  {
    var nodes', byName' := nodes + [node], byName[node.name := node];
    forall i, j | 0 <= i < j < |nodes'| ensures nodes'[i].index < nodes'[j].index {
      assert nodes[i] in nodes;
    }
    forall n | n in nodes' ensures n.name in byName' && byName'[n.name] == n {
      assert n == node || n in nodes;
    }
  }

  lemma AddNode<F>(ms: Registration<F>, k: int, nodes: seq<Node<F>>, byName: map<string, Node<F>>, node: Node<F>)
    requires NamesValid(ms, k) && NodesOf(ms, k, nodes, byName)
    requires NodeFor(ms, node) && node.index == k && node.name != "" && node.name !in byName
    ensures NamesValid(ms, k + 1) && NodesOf(ms, k + 1, nodes + [node], byName[node.name := node])
  {
    var byName' := byName[node.name := node];
    AddName(ms, k, byName);
    forall n | n in nodes ensures n.index < node.index { assert NodeFor(ms, n); }
    AddToTable(nodes, byName, node);
    forall n | n in nodes + [node] ensures NodeFor(ms, n) && n.index < k + 1 {
      assert n == node || n in nodes;
    }
    assert AllFound(ms, k + 1, byName') by {
      forall i | i < k + 1 && Live(ms, i) ensures NameAt(ms, i) in byName' && byName'[NameAt(ms, i)].index == i {
        assert i == k || NameAt(ms, i) in byName;
      }
    }
  }

  lemma DuplicateFound<F>(ms: Registration<F>, k: nat, nodes: seq<Node<F>>, byName: map<string, Node<F>>)
    requires NamesValid(ms, k) && NodesOf(ms, k, nodes, byName) && Live(ms, k) && NameAt(ms, k) in byName
    ensures SortOutcome<F>(ms, Failure(DuplicateName(NameAt(ms, k))))
  {
    var n := byName[NameAt(ms, k)];
    assert NodeFor(ms, n);
    assert HasName(ms, k, n.name) && HasName(ms, n.index, n.name);
  }

  /** The first pass of Sort: a node for every enabled module, unless a name is empty or taken. */
  method Register<F>(ms: Registration<F>)
    returns (failure: Option<SortError>, nodes: seq<Node<F>>, byName: map<string, Node<F>>)
    ensures failure.Some? ==> SortOutcome(ms, Failure(failure.value))
    ensures failure.None? ==> NamesValid(ms, |ms|) && NodesOf(ms, |ms|, nodes, byName)
    ensures fresh(nodes)
    ensures forall n :: n in nodes ==> n.dependents == [] && n.inDegree == 0
  {
    nodes, byName := [], map[];
    for index := 0 to |ms|
      invariant NamesValid(ms, index) && NodesOf(ms, index, nodes, byName)
      invariant fresh(nodes)
      invariant forall n :: n in nodes ==> n.dependents == [] && n.inDegree == 0
    {
      if ms[index] == None || !ms[index].value.enabled {
        SkipDisabled(ms, index, nodes, byName);
        continue;
      }
      var candidate := ms[index].value;
      var name := Text.Trim(candidate.name);
      assert Live(ms, index) && name == NameAt(ms, index);
      if name == "" {
        return Some(EmptyName(index)), nodes, byName;
      }
      if name in byName {
        DuplicateFound(ms, index, nodes, byName);
        return Some(DuplicateName(name)), nodes, byName;
      }
      var dependsOn := NormalizeDependencies(candidate.dependencies);
      var node := new Node(candidate, name, index, dependsOn);
      AddNode(ms, index, nodes, byName, node);
      nodes := nodes + [node];
      byName := byName[name := node];
    }
    failure := None;
  }

  // ---- From the registration list to the node table ----

  lemma NodeIsNormalized<F>(ms: Registration<F>, n: Node<F>)
    requires NodeFor(ms, n)
    ensures DistinctNames(n.dependsOn)
  {
    NormalizedIsTheSetOfNames(ModuleAt(ms, n.index).dependencies);
  }

  lemma KnownName<F>(ms: Registration<F>, nodes: seq<Node<F>>, byName: map<string, Node<F>>, d: string)
    requires NodesOf(ms, |ms|, nodes, byName)
    ensures d in byName <==> exists j :: HasName(ms, j, d)
  {
    if d in byName { assert NodeFor(ms, byName[d]); assert HasName(ms, byName[d].index, d); }
    if j :| HasName(ms, j, d) { assert NameAt(ms, j) in byName; }
  }

  lemma SoundIffValid<F>(
    ms: Registration<F>, nodes: seq<Node<F>>, byName: map<string, Node<F>>, n: Node<F>, d: string)
    requires NodesOf(ms, |ms|, nodes, byName) && n in nodes
    ensures Live(ms, n.index) && (Sound(byName, n, d) <==> DependencyValid(ms, n.index, d))
  {
    assert NodeFor(ms, n);
    KnownName(ms, nodes, byName, d);
  }

  lemma AllSoundIsValid<F>(ms: Registration<F>, nodes: seq<Node<F>>, byName: map<string, Node<F>>)
    requires NodesOf(ms, |ms|, nodes, byName) && AllSound(nodes, byName)
    ensures DependenciesValid(ms, |ms|)
  {
    forall i, d | i < |ms| && Live(ms, i) && d in DependenciesAt(ms, i) ensures DependencyValid(ms, i, d) {
      var n := byName[NameAt(ms, i)];
      assert NodeFor(ms, n);
      SoundIffValid(ms, nodes, byName, n, d);
    }
  }

  lemma NodeIsVertex<F>(ms: Registration<F>, nodes: seq<Node<F>>, byName: map<string, Node<F>>, n: Node<F>)
    requires NodesOf(ms, |ms|, nodes, byName) && AllSound(nodes, byName) && n in nodes
    ensures Vertex(GraphOf(ms), byName, n)
  {
    assert NodeFor(ms, n);
    NodeIsNormalized(ms, n);
    forall d | d in n.dependsOn ensures d in byName && byName[d].index in GraphOf(ms)[n.index] {
      assert Sound(byName, n, d);
      assert NodeFor(ms, byName[d]);
    }
    forall v | v in GraphOf(ms)[n.index]
      ensures exists d :: d in n.dependsOn && d in byName && byName[d].index == v
    {
      assert byName[NameAt(ms, v)].index == v;
    }
  }

  lemma NodesAreTable<F>(ms: Registration<F>, nodes: seq<Node<F>>, byName: map<string, Node<F>>)
    requires NodesOf(ms, |ms|, nodes, byName) && AllSound(nodes, byName)
    ensures Table(GraphOf(ms), nodes, byName)
  {
    forall n | n in nodes ensures Vertex(GraphOf(ms), byName, n) {
      NodeIsVertex(ms, nodes, byName, n);
    }
    forall v | v in GraphOf(ms) ensures HasNode(nodes, v) {
      assert byName[NameAt(ms, v)] in nodes;
    }
  }

  lemma FirstUnsoundIsFirstInvalid<F>(
    ms: Registration<F>, nodes: seq<Node<F>>, byName: map<string, Node<F>>, i: int, k: int)
    requires NodesOf(ms, |ms|, nodes, byName) && FirstUnsound(nodes, byName, i, k)
    ensures NodeFor(ms, nodes[i]) && FirstInvalidDependency(ms, nodes[i].index, k)
  {
    var n := nodes[i];
    assert NodeFor(ms, n);
    forall h, d | h < n.index && Live(ms, h) && d in DependenciesAt(ms, h) ensures DependencyValid(ms, h, d) {
      var m := byName[NameAt(ms, h)];
      assert NodeFor(ms, m);
      var j :| 0 <= j < |nodes| && nodes[j] == m;
      var q :| 0 <= q < |m.dependsOn| && m.dependsOn[q] == d;
      assert SoundAt(nodes, byName, j, q);
      SoundIffValid(ms, nodes, byName, m, d);
    }
    forall h | 0 <= h < k ensures DependencyValid(ms, n.index, DependenciesAt(ms, n.index)[h]) {
      assert SoundAt(nodes, byName, i, h);
      SoundIffValid(ms, nodes, byName, n, n.dependsOn[h]);
    }
    SoundIffValid(ms, nodes, byName, n, n.dependsOn[k]);
  }

  lemma LinkFailureIsOutcome<F>(ms: Registration<F>, nodes: seq<Node<F>>, byName: map<string, Node<F>>, e: SortError)
    requires NamesValid(ms, |ms|) && NodesOf(ms, |ms|, nodes, byName) && LinkFailure(nodes, byName, e)
    ensures SortOutcome<F>(ms, Failure(e))
  {
    var i, k :| FirstUnsound(nodes, byName, i, k) && e == DependencyError(nodes[i], nodes[i].dependsOn[k]);
    FirstUnsoundIsFirstInvalid(ms, nodes, byName, i, k);
  }

  // ---- The result ----

  lemma OrderIsOutcome<F>(
    ms: Registration<F>, nodes: seq<Node<F>>, byName: map<string, Node<F>>, o: seq<nat>, ordered: seq<Module<F>>)
    requires NodesOf(ms, |ms|, nodes, byName) && Valid(ms) && ModulesOf(nodes, o, ordered)
    requires KahnRun(GraphOf(ms), o) && Elements(o) == GraphOf(ms).Keys
    ensures SortOutcome(ms, Success(ordered))
  {
    CompleteRunIsLeast(GraphOf(ms), o);
    forall v | v in o ensures Live(ms, v) { assert v in Elements(o); }
    forall k | 0 <= k < |o| ensures ordered[k] == ModuleAt(ms, o[k]) {
      assert NodeOf(nodes, o[k], ordered[k]);
      var n :| n in nodes && n.index == o[k] && n.mod == ordered[k];
      assert NodeFor(ms, n);
    }
    assert ordered == ModulesAt(ms, o);
    assert OrderedBy(ms, o, ordered);
  }

  /** The nodes are as many as the vertices, so comparing lengths decides whether everything was placed. */
  lemma CountNodes<F>(g: Graph, nodes: seq<Node<F>>, byName: map<string, Node<F>>)
    requires Table(g, nodes, byName)
    ensures |nodes| == |g.Keys|
  {
    var indices := seq(|nodes|, k requires 0 <= k < |nodes| => nodes[k].index);
    DistinctSize(indices);
    forall v | v in g ensures v in Elements(indices) {
      assert HasNode(nodes, v);
      var n :| n in nodes && n.index == v;
      var k :| 0 <= k < |nodes| && nodes[k] == n;
      assert indices[k] == v;
    }
    forall v | v in Elements(indices) ensures v in g {
      var k :| 0 <= k < |indices| && indices[k] == v;
      assert Vertex(g, byName, nodes[k]);
    }
    assert Elements(indices) == g.Keys;
  }

  /** Names of the nodes with a positive in-degree, in registration order. */
  method PositiveInDegree<F>(nodes: seq<Node<F>>, ghost byName: map<string, Node<F>>) returns (blocked: seq<string>)
    requires IndexOrder(nodes) && NameTable(nodes, byName)
    ensures DistinctNames(blocked)
    ensures forall x :: x in blocked <==> x in byName && byName[x].inDegree > 0
  {
    blocked := [];
    for i := 0 to |nodes|
      invariant DistinctNames(blocked)
      invariant forall x :: x in blocked <==> x in byName && byName[x] in nodes[..i] && byName[x].inDegree > 0
    {
      var current := nodes[i];
      assert nodes[..i + 1] == nodes[..i] + [current];
      assert byName[current.name] == current && current !in nodes[..i];
      if current.inDegree > 0 {
        blocked := blocked + [current.name];
      }
    }
    assert nodes[..|nodes|] == nodes;
  }

  lemma PositiveNameIsBlocked<F>(
    ms: Registration<F>, nodes: seq<Node<F>>, byName: map<string, Node<F>>, o: seq<nat>, c: Counters<F>, x: string)
    requires NodesOf(ms, |ms|, nodes, byName) && Table(GraphOf(ms), nodes, byName) && Counting(c, nodes, byName, o)
    requires KahnRun(GraphOf(ms), o) && Stuck(GraphOf(ms), o)
    ensures x in byName && c.inDegree[byName[x]] > 0 <==>
            exists i: nat :: HasName(ms, i, x) && ReachesCycle(GraphOf(ms), i)
  {
    if x in byName {
      PositiveIffBlocked(GraphOf(ms), c, nodes, byName, o, byName[x]);
      assert NodeFor(ms, byName[x]);
      assert HasName(ms, byName[x].index, x);
    }
    forall i: nat | HasName(ms, i, x) ensures x in byName && byName[x].index == i {
      assert byName[NameAt(ms, i)].index == i;
    }
  }

  lemma SomethingIsBlocked<F>(ms: Registration<F>, o: seq<nat>) returns (x: string)
    requires KahnRun(GraphOf(ms), o) && Stuck(GraphOf(ms), o) && Elements(o) != GraphOf(ms).Keys
    ensures exists i: nat :: HasName(ms, i, x) && ReachesCycle(GraphOf(ms), i)
  {
    KahnRunRespects(GraphOf(ms), o);
    var v :| v in GraphOf(ms).Keys && v !in Elements(o);
    BlockedIffReachesCycle(GraphOf(ms), o, v);
    x := NameAt(ms, v);
    assert HasName(ms, v, x);
  }

  lemma BlockedIsOutcome<F>(
    ms: Registration<F>, nodes: seq<Node<F>>, byName: map<string, Node<F>>, o: seq<nat>, c: Counters<F>,
    positive: seq<string>)
    requires NodesOf(ms, |ms|, nodes, byName) && Valid(ms) && Table(GraphOf(ms), nodes, byName)
    requires Counting(c, nodes, byName, o)
    requires KahnRun(GraphOf(ms), o) && Stuck(GraphOf(ms), o) && Elements(o) != GraphOf(ms).Keys
    requires DistinctNames(positive)
    requires forall x :: x in positive <==> x in byName && c.inDegree[byName[x]] > 0
    ensures SortOutcome<F>(ms, Failure(DependencyCycle(Text.SortNames(positive))))
  {
    var blocked := Text.SortNames(positive);
    Text.SortNamesSorts(positive);
    forall x ensures x in blocked <==> exists i: nat :: HasName(ms, i, x) && ReachesCycle(GraphOf(ms), i) {
      Text.SortNamesElements(positive, x);
      PositiveNameIsBlocked(ms, nodes, byName, o, c, x);
    }
    var x := SomethingIsBlocked(ms, o);
    assert x in blocked;
  }

  method Sort<F>(ms: Registration<F>) returns (r: Result<seq<Module<F>>, SortError>)
    ensures SortOutcome(ms, r)
  {
    var failure, nodes, byName := Register(ms);
    if failure.Some? {
      return Failure(failure.value);
    }
    forall n | n in nodes ensures DistinctNames(n.dependsOn) {
      assert NodeFor(ms, n);
      NodeIsNormalized(ms, n);
    }
    failure := Link(nodes, byName);
    if failure.Some? {
      LinkFailureIsOutcome(ms, nodes, byName, failure.value);
      return Failure(failure.value);
    }
    AllSoundIsValid(ms, nodes, byName);
    NodesAreTable(ms, nodes, byName);
    r := SortLinked(ms, nodes, byName);
  }

  method SortLinked<F>(ghost ms: Registration<F>, nodes: seq<Node<F>>, byName: map<string, Node<F>>)
    returns (r: Result<seq<Module<F>>, SortError>)
    requires NodesOf(ms, |ms|, nodes, byName) && Valid(ms) && Table(GraphOf(ms), nodes, byName)
    requires Edges(Snapshot(nodes), nodes, byName)
    modifies nodes
    ensures SortOutcome(ms, r)
  {
    CountingStarts(GraphOf(ms), Snapshot(nodes), nodes, byName);
    var ready := InitialQueue(GraphOf(ms), nodes, byName);
    var ordered, o := Drain(GraphOf(ms), nodes, byName, ready);
    CountNodes(GraphOf(ms), nodes, byName);
    CompleteIffLength(GraphOf(ms), o);
    if |ordered| != |nodes| {
      var positive := PositiveInDegree(nodes, byName);
      BlockedIsOutcome(ms, nodes, byName, o, Snapshot(nodes), positive);
      return Failure(DependencyCycle(Text.SortNames(positive)));
    }
    OrderIsOutcome(ms, nodes, byName, o, ordered);
    r := Success(ordered);
  }
}
