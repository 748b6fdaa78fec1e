/**
 The mutable nodes of module.Sort and the loop that turns declared dependencies into edges. Everything here is about
 nodes and the name table only; ModuleSort relates them to the registration list.
 */
module NodeTable {
  import opened Wrappers
  import opened Modules

  class Node<F> {
    const mod: Module<F>
    const name: string
    const index: nat
    const dependsOn: seq<string>
    var dependents: seq<string>
    var inDegree: int

    constructor (mod: Module<F>, name: string, index: nat, dependsOn: seq<string>)
      ensures this.mod == mod && this.name == name && this.index == index && this.dependsOn == dependsOn
      ensures dependents == [] && inDegree == 0
    {
      this.mod, this.name, this.index, this.dependsOn := mod, name, index, dependsOn;
      dependents, inDegree := [], 0;
    }
  }

  // ---- The name table ----

  ghost predicate IndexOrder<F>(nodes: seq<Node<F>>) {
    forall i, j :: 0 <= i < j < |nodes| ==> nodes[i].index < nodes[j].index
  }

  ghost predicate NameTable<F>(nodes: seq<Node<F>>, byName: map<string, Node<F>>) {
    && (forall n :: n in nodes ==> n.name in byName && byName[n.name] == n)
    && (forall x :: x in byName ==> byName[x] in nodes && byName[x].name == x)
  }

  // ---- The mutable fields as a value ----

  /** The mutable fields of all nodes, as a value. */
  datatype Counters<!F> = Counters(inDegree: map<Node<F>, int>, dependents: map<Node<F>, seq<string>>)

  ghost function Snapshot<F>(nodes: seq<Node<F>>): Counters<F>
    reads nodes
  {
    Counters(map n | n in nodes :: n.inDegree, map n | n in nodes :: n.dependents)
  }

  /** An edge recorded: one more prerequisite for current, one more dependent for prerequisite. */
  ghost function EdgeAdded<F>(c: Counters<F>, current: Node<F>, prerequisite: Node<F>): Counters<F>
    requires current in c.inDegree && prerequisite in c.dependents
  {
    Counters(c.inDegree[current := c.inDegree[current] + 1],
             c.dependents[prerequisite := c.dependents[prerequisite] + [current.name]])
  }

  /** An edge consumed: one prerequisite fewer for n. */
  ghost function EdgeConsumed<F>(c: Counters<F>, n: Node<F>): Counters<F>
    requires n in c.inDegree
  {
    Counters(c.inDegree[n := c.inDegree[n] - 1], c.dependents)
  }

  ghost predicate Covers<F>(c: Counters<F>, nodes: seq<Node<F>>) {
    forall n :: n in nodes ==> n in c.inDegree && n in c.dependents
  }

  // ---- Edges ----

  /** For each node name, the dependencies already turned into edges. */
  type Linked = map<string, seq<string>>

  /** Each node counts its linked dependencies; the dependents of a node are listed once each. */
  ghost predicate Books<F>(c: Counters<F>, nodes: seq<Node<F>>, linked: Linked) {
    && Covers(c, nodes)
    && (forall n {:trigger NodeBooked(c, linked, n)} :: n in nodes ==> NodeBooked(c, linked, n))
    && (forall m, x {:trigger EntryBooked(c, linked, m, x)} :: m in nodes ==> EntryBooked(c, linked, m, x))
  }

  ghost predicate NodeBooked<F>(c: Counters<F>, linked: Linked, n: Node<F>)
    requires n in c.inDegree && n in c.dependents
  {
    n.name in linked && c.inDegree[n] == |linked[n.name]| && DistinctNames(c.dependents[n])
  }

  /** x is listed among the dependents of m exactly when its dependency on m has been linked. */
  ghost predicate EntryBooked<F>(c: Counters<F>, linked: Linked, m: Node<F>, x: string)
    requires m in c.dependents
  {
    x in c.dependents[m] <==> x in linked && m.name in linked[x]
  }

  ghost function LinkedWith<F>(linked: Linked, current: Node<F>, d: string): Linked
    requires current.name in linked
  {
    linked[current.name := linked[current.name] + [d]]
  }

  lemma BookNode<F>(c: Counters<F>, linked: Linked, current: Node<F>, prerequisite: Node<F>, n: Node<F>)
    requires current in c.inDegree && prerequisite in c.dependents && n in c.inDegree && n in c.dependents
    requires NodeBooked(c, linked, n) && current.name in linked
    requires current.name !in c.dependents[prerequisite]
    requires n.name == current.name ==> n == current
    ensures NodeBooked(EdgeAdded(c, current, prerequisite), LinkedWith(linked, current, prerequisite.name), n)
  {
  }

  lemma BookEntry<F>(c: Counters<F>, linked: Linked, current: Node<F>, prerequisite: Node<F>, m: Node<F>, x: string)
    requires current in c.inDegree && prerequisite in c.dependents && m in c.dependents
    requires EntryBooked(c, linked, m, x) && current.name in linked
    requires m.name == prerequisite.name ==> m == prerequisite
    ensures EntryBooked(EdgeAdded(c, current, prerequisite), LinkedWith(linked, current, prerequisite.name), m, x)
  {
  }

  /** One step of the edge loop: the current node counts a prerequisite and is entered among its dependents. */
  lemma BookEdge<F>(
    c: Counters<F>, nodes: seq<Node<F>>, byName: map<string, Node<F>>, linked: Linked,
    current: Node<F>, prerequisite: Node<F>)
    requires NameTable(nodes, byName) && Books(c, nodes, linked) && current in nodes && prerequisite in nodes
    requires current.name in linked && prerequisite.name !in linked[current.name]
    ensures Books(EdgeAdded(c, current, prerequisite), nodes, LinkedWith(linked, current, prerequisite.name))
  {
    var c', linked' := EdgeAdded(c, current, prerequisite), LinkedWith(linked, current, prerequisite.name);
    assert EntryBooked(c, linked, prerequisite, current.name);
    assert byName[current.name] == current && byName[prerequisite.name] == prerequisite;
    forall n | n in nodes ensures NodeBooked(c', linked', n) {
      assert NodeBooked(c, linked, n) && byName[n.name] == n;
      BookNode(c, linked, current, prerequisite, n);
    }
    forall m, x | m in nodes ensures EntryBooked(c', linked', m, x) {
      assert EntryBooked(c, linked, m, x) && byName[m.name] == m;
      BookEntry(c, linked, current, prerequisite, m, x);
    }
  }

  // ---- Progress of the edge loop ----

  /** Nodes before i are fully linked, node i up to dependency k, later ones not at all. */
  ghost predicate LinkedUpTo<F>(linked: Linked, nodes: seq<Node<F>>, i: int, k: int) {
    forall j {:trigger LinkedAt(linked, nodes, i, k, j)} :: 0 <= j < |nodes| ==> LinkedAt(linked, nodes, i, k, j)
  }

  ghost predicate LinkedAt<F>(linked: Linked, nodes: seq<Node<F>>, i: int, k: int, j: int)
    requires 0 <= j < |nodes|
  {
    var n := nodes[j];
    && n.name in linked
    && (j < i ==> linked[n.name] == n.dependsOn)
    && (j == i ==> 0 <= k <= |n.dependsOn| && linked[n.name] == n.dependsOn[..k])
    && (j > i ==> linked[n.name] == [])
  }

  lemma LinkNext<F>(
    linked: Linked, nodes: seq<Node<F>>, byName: map<string, Node<F>>, i: int, k: int)
    requires IndexOrder(nodes) && NameTable(nodes, byName)
    requires 0 <= i < |nodes| && 0 <= k < |nodes[i].dependsOn| && LinkedUpTo(linked, nodes, i, k)
    requires DistinctNames(nodes[i].dependsOn)
    ensures nodes[i].name in linked && nodes[i].dependsOn[k] !in linked[nodes[i].name]
    ensures LinkedUpTo(LinkedWith(linked, nodes[i], nodes[i].dependsOn[k]), nodes, i, k + 1)
  {
    var n := nodes[i];
    assert LinkedAt(linked, nodes, i, k, i);
    assert n.dependsOn[..k + 1] == n.dependsOn[..k] + [n.dependsOn[k]];
    var next := k + 1;
    forall j | 0 <= j < |nodes| ensures LinkedAt(LinkedWith(linked, n, n.dependsOn[k]), nodes, i, next, j) {
      assert LinkedAt(linked, nodes, i, k, j);
      assert byName[nodes[j].name] == nodes[j] && byName[n.name] == n;
    }
  }

  lemma LinkNextNode<F>(linked: Linked, nodes: seq<Node<F>>, i: int)
    requires 0 <= i < |nodes| && LinkedUpTo(linked, nodes, i, |nodes[i].dependsOn|)
    ensures LinkedUpTo(linked, nodes, i + 1, 0)
  {
    var next := i + 1;
    forall j | 0 <= j < |nodes| ensures LinkedAt(linked, nodes, next, 0, j) {
      assert LinkedAt(linked, nodes, i, |nodes[i].dependsOn|, j);
    }
  }

  /** After linking, the nodes that depend on a node are listed there once each. */
  ghost predicate Dependents<F>(c: Counters<F>, nodes: seq<Node<F>>, byName: map<string, Node<F>>) {
    && Covers(c, nodes)
    && (forall m :: m in nodes ==> DistinctNames(c.dependents[m]))
    && (forall m, x {:trigger Listed(c, byName, m, x)} :: m in nodes ==> Listed(c, byName, m, x))
  }

  ghost predicate Listed<F>(c: Counters<F>, byName: map<string, Node<F>>, m: Node<F>, x: string)
    requires m in c.dependents
  {
    x in c.dependents[m] <==> x in byName && m.name in byName[x].dependsOn
  }

  /** The state after linking: moreover each node counts all of its dependencies. */
  ghost predicate Edges<F>(c: Counters<F>, nodes: seq<Node<F>>, byName: map<string, Node<F>>) {
    Dependents(c, nodes, byName) && forall n :: n in nodes ==> c.inDegree[n] == |n.dependsOn|
  }

  lemma LinkedNode<F>(linked: Linked, nodes: seq<Node<F>>, n: Node<F>)
    requires LinkedUpTo(linked, nodes, |nodes|, 0) && n in nodes
    ensures n.name in linked && linked[n.name] == n.dependsOn
  {
    var j :| 0 <= j < |nodes| && nodes[j] == n;
    assert LinkedAt(linked, nodes, |nodes|, 0, j);
  }

  lemma BooksComplete<F>(c: Counters<F>, nodes: seq<Node<F>>, byName: map<string, Node<F>>, linked: Linked)
    requires NameTable(nodes, byName) && Books(c, nodes, linked) && LinkedUpTo(linked, nodes, |nodes|, 0)
    requires linked.Keys == byName.Keys
    ensures Edges(c, nodes, byName)
  {
    forall n | n in nodes ensures c.inDegree[n] == |n.dependsOn| && DistinctNames(c.dependents[n]) {
      assert NodeBooked(c, linked, n);
      LinkedNode(linked, nodes, n);
    }
    forall m, x | m in nodes ensures Listed(c, byName, m, x) {
      assert EntryBooked(c, linked, m, x);
      if x in byName { LinkedNode(linked, nodes, byName[x]); }
    }
  }

  // ---- The loop over nodes and dependencies ----

  method Count<F>(ghost nodes: seq<Node<F>>, current: Node<F>, prerequisite: Node<F>)
    requires current in nodes && prerequisite in nodes
    modifies current`inDegree, prerequisite`dependents
    ensures Snapshot(nodes) == EdgeAdded(old(Snapshot(nodes)), current, prerequisite)
  {
    current.inDegree := current.inDegree + 1;
    prerequisite.dependents := prerequisite.dependents + [current.name];
  }

  predicate Sound<F>(byName: map<string, Node<F>>, n: Node<F>, d: string) {
    d != n.name && d in byName
  }

  ghost predicate SoundAt<F>(nodes: seq<Node<F>>, byName: map<string, Node<F>>, j: int, h: int) {
    0 <= j < |nodes| && 0 <= h < |nodes[j].dependsOn| ==> Sound(byName, nodes[j], nodes[j].dependsOn[h])
  }

  /** Every dependency before position (i, k) of the loop is sound. */
  ghost predicate SoundUpTo<F>(nodes: seq<Node<F>>, byName: map<string, Node<F>>, i: int, k: int) {
    forall j, h {:trigger SoundAt(nodes, byName, j, h)} :: j < i || (j == i && h < k) ==> SoundAt(nodes, byName, j, h)
  }

  /** Dependency k of node i is the first one that names the node itself or nothing registered. */
  ghost predicate FirstUnsound<F>(nodes: seq<Node<F>>, byName: map<string, Node<F>>, i: int, k: int) {
    && 0 <= i < |nodes| && 0 <= k < |nodes[i].dependsOn|
    && SoundUpTo(nodes, byName, i, k)
    && !Sound(byName, nodes[i], nodes[i].dependsOn[k])
  }

  /** The error Sort reports for an unsound dependency. */
  function DependencyError<F>(n: Node<F>, d: string): SortError {
    if d == n.name then SelfDependency(n.name) else UnknownDependency(n.name, d)
  }

  ghost predicate AllSound<F>(nodes: seq<Node<F>>, byName: map<string, Node<F>>) {
    forall n, d :: n in nodes && d in n.dependsOn ==> Sound(byName, n, d)
  }

  ghost predicate LinkFailure<F>(nodes: seq<Node<F>>, byName: map<string, Node<F>>, e: SortError) {
    exists i, k :: FirstUnsound(nodes, byName, i, k) && e == DependencyError(nodes[i], nodes[i].dependsOn[k])
  }

  /** The loop position (i, k), with the state of the edges there. */
  ghost predicate LoopState<F>(
    c: Counters<F>, nodes: seq<Node<F>>, byName: map<string, Node<F>>, linked: Linked, i: int, k: int)
  {
    && linked.Keys == byName.Keys && Books(c, nodes, linked) && LinkedUpTo(linked, nodes, i, k)
  }

  method LinkDependency<F>(
    ghost nodes: seq<Node<F>>, byName: map<string, Node<F>>, ghost linked: Linked,
    ghost i: int, ghost k: int, current: Node<F>, prerequisite: Node<F>)
    returns (ghost linked': Linked)
    requires IndexOrder(nodes) && NameTable(nodes, byName) && DistinctNames(current.dependsOn)
    requires 0 <= i < |nodes| && current == nodes[i] && 0 <= k < |current.dependsOn|
    requires prerequisite in nodes && prerequisite.name == current.dependsOn[k]
    requires LoopState(Snapshot(nodes), nodes, byName, linked, i, k)
    modifies nodes
    ensures LoopState(Snapshot(nodes), nodes, byName, linked', i, k + 1)
  {
    LinkNext(linked, nodes, byName, i, k);
    BookEdge(Snapshot(nodes), nodes, byName, linked, current, prerequisite);
    linked' := LinkedWith(linked, current, prerequisite.name);
    Count(nodes, current, prerequisite);
  }

  lemma SoundNext<F>(nodes: seq<Node<F>>, byName: map<string, Node<F>>, i: int, k: int)
    requires 0 <= i < |nodes| && SoundUpTo(nodes, byName, i, k)
    ensures SoundAt(nodes, byName, i, k) ==> SoundUpTo(nodes, byName, i, k + 1)
    ensures k >= |nodes[i].dependsOn| ==> SoundUpTo(nodes, byName, i + 1, 0)
  {
  }

  method LinkNode<F>(nodes: seq<Node<F>>, byName: map<string, Node<F>>, ghost linked: Linked, i: nat)
    returns (failure: Option<SortError>, ghost linked': Linked)
    requires IndexOrder(nodes) && NameTable(nodes, byName) && i < |nodes| && DistinctNames(nodes[i].dependsOn)
    requires LoopState(Snapshot(nodes), nodes, byName, linked, i, 0) && SoundUpTo(nodes, byName, i, 0)
    modifies nodes
    ensures failure.Some? ==> LinkFailure(nodes, byName, failure.value)
    ensures failure.None? ==> LoopState(Snapshot(nodes), nodes, byName, linked', i + 1, 0)
    ensures failure.None? ==> SoundUpTo(nodes, byName, i + 1, 0)
  {
    var current := nodes[i];
    linked' := linked;
    for k := 0 to |current.dependsOn|
      invariant LoopState(Snapshot(nodes), nodes, byName, linked', i, k)
      invariant SoundUpTo(nodes, byName, i, k)
    {
      var dependency := current.dependsOn[k];
      SoundNext(nodes, byName, i, k);
      if dependency == current.name {
        assert FirstUnsound(nodes, byName, i, k);
        return Some(SelfDependency(current.name)), linked';
      }
      if dependency !in byName {
        assert FirstUnsound(nodes, byName, i, k);
        return Some(UnknownDependency(current.name, dependency)), linked';
      }
      linked' := LinkDependency(nodes, byName, linked', i, k, current, byName[dependency]);
    }
    LinkNextNode(linked', nodes, i);
    SoundNext(nodes, byName, i, |current.dependsOn|);
    failure := None;
  }

  lemma LinkStart<F>(c: Counters<F>, nodes: seq<Node<F>>, byName: map<string, Node<F>>) returns (linked: Linked)
    requires NameTable(nodes, byName) && Covers(c, nodes)
    requires forall n :: n in nodes ==> c.inDegree[n] == 0 && c.dependents[n] == []
    ensures LoopState(c, nodes, byName, linked, 0, 0)
  {
    linked := map x | x in byName :: [];
    forall j | 0 <= j < |nodes| ensures LinkedAt(linked, nodes, 0, 0, j) {
      assert nodes[j] in nodes;
    }
    assert forall n :: n in nodes ==> NodeBooked(c, linked, n);
    forall m, x | m in nodes ensures EntryBooked(c, linked, m, x) {}
  }

  lemma SoundToTheEnd<F>(nodes: seq<Node<F>>, byName: map<string, Node<F>>)
    requires SoundUpTo(nodes, byName, |nodes|, 0)
    ensures AllSound(nodes, byName)
  {
    forall n, d | n in nodes && d in n.dependsOn ensures Sound(byName, n, d) {
      var j :| 0 <= j < |nodes| && nodes[j] == n;
      var h :| 0 <= h < |n.dependsOn| && n.dependsOn[h] == d;
      assert SoundAt(nodes, byName, j, h);
    }
  }

  /** The second pass of Sort: check every dependency and record its edge. */
  method Link<F>(nodes: seq<Node<F>>, byName: map<string, Node<F>>)
    returns (failure: Option<SortError>)
    requires IndexOrder(nodes) && NameTable(nodes, byName)
    requires forall n :: n in nodes ==> n.dependents == [] && n.inDegree == 0 && DistinctNames(n.dependsOn)
    modifies nodes
    ensures failure.Some? ==> LinkFailure(nodes, byName, failure.value)
    ensures failure.None? ==> AllSound(nodes, byName) && Edges(Snapshot(nodes), nodes, byName)
  {
    ghost var linked := LinkStart(Snapshot(nodes), nodes, byName);
    for i := 0 to |nodes|
      invariant LoopState(Snapshot(nodes), nodes, byName, linked, i, 0)
      invariant SoundUpTo(nodes, byName, i, 0)
    {
      failure, linked := LinkNode(nodes, byName, linked, i);
      if failure.Some? {
        return;
      }
    }
    SoundToTheEnd(nodes, byName);
    BooksComplete(Snapshot(nodes), nodes, byName, linked);
    failure := None;
  }
}
