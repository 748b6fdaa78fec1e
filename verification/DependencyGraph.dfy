/**
 Dependency graphs over registration indices, and what Kahn's algorithm with an index-ordered ready queue computes on
 them. A run of the algorithm is described by KahnRun: every position holds the least vertex that was ready there.
 Its meaning is stated without the algorithm: topological orders compared lexicographically, and cycles.
 */
module DependencyGraph {

  /** The prerequisites of every vertex. */
  type Graph = map<nat, set<nat>>

  /** Every prerequisite is itself a vertex. */
  ghost predicate Closed(g: Graph) {
    forall v :: v in g ==> g[v] <= g.Keys
  }

  ghost function Elements(o: seq<nat>): (r: set<nat>)
  {
    set v | v in o
  }

  ghost predicate Distinct(o: seq<nat>) {
    forall i, j :: 0 <= i < j < |o| ==> o[i] != o[j]
  }

  // ---- What the caller wants ----

  /** Every vertex once, after all of its prerequisites. */
  ghost predicate TopologicalOrder(g: Graph, o: seq<nat>) {
    && Distinct(o)
    && Elements(o) == g.Keys
    && RespectsDependencies(g, o)
  }

  ghost predicate RespectsDependencies(g: Graph, o: seq<nat>) {
    forall k :: 0 <= k < |o| ==> o[k] in g && forall d :: d in g[o[k]] ==> d in o[..k]
  }

  ghost predicate LexLeq(a: seq<nat>, b: seq<nat>) {
    exists k: nat :: LexLeqAt(a, b, k)
  }

  ghost predicate LexLeqAt(a: seq<nat>, b: seq<nat>, k: nat) {
    && k <= |a| && k <= |b| && a[..k] == b[..k]
    && (k == |a| || (k < |b| && a[k] < b[k]))
  }

  /** The topological order that comes first when orders are compared position by position. */
  ghost predicate LeastTopologicalOrder(g: Graph, o: seq<nat>) {
    TopologicalOrder(g, o) && forall p :: TopologicalOrder(g, p) ==> LexLeq(o, p)
  }

  /** A walk from a vertex to a prerequisite, to a prerequisite of that, and so on. */
  ghost predicate Walk(g: Graph, w: seq<nat>) {
    && w != []
    && (forall i :: 0 <= i < |w| ==> w[i] in g)
    && (forall i, j :: 0 <= i && j == i + 1 && j < |w| ==> w[j] in g[w[i]])
  }

  ghost predicate WalkFromTo(g: Graph, w: seq<nat>, a: nat, b: nat) {
    Walk(g, w) && w[0] == a && w[|w| - 1] == b
  }

  ghost predicate CycleThrough(g: Graph, v: nat, c: seq<nat>) {
    |c| > 1 && WalkFromTo(g, c, v, v)
  }

  ghost predicate OnCycle(g: Graph, v: nat) {
    exists c :: CycleThrough(g, v, c)
  }

  ghost predicate Acyclic(g: Graph) {
    forall v :: !OnCycle(g, v)
  }

  /** Some vertex on a cycle can be reached from v along prerequisites. */
  ghost predicate ReachesCycle(g: Graph, v: nat) {
    exists w: seq<nat> :: Walk(g, w) && w[0] == v && OnCycle(g, w[|w| - 1])
  }

  // ---- What the algorithm does ----

  ghost predicate Ready(g: Graph, o: seq<nat>, v: nat) {
    v in g && v !in o && forall d :: d in g[v] ==> d in o
  }

  ghost predicate LeastReady(g: Graph, o: seq<nat>, v: nat) {
    Ready(g, o, v) && forall u :: Ready(g, o, u) ==> v <= u
  }

  ghost predicate KahnRun(g: Graph, o: seq<nat>) {
    forall k :: 0 <= k < |o| ==> LeastReady(g, o[..k], o[k])
  }

  ghost predicate Stuck(g: Graph, o: seq<nat>) {
    forall v :: !Ready(g, o, v)
  }

  lemma KahnRunExtends(g: Graph, o: seq<nat>, v: nat)
    requires KahnRun(g, o) && LeastReady(g, o, v)
    ensures KahnRun(g, o + [v])
  {
    var p := o + [v];
    forall k | 0 <= k < |p| ensures LeastReady(g, p[..k], p[k]) {
      assert p[..k] == o[..k];
      assert o[..|o|] == o;
    }
  }

  lemma KahnRunRespects(g: Graph, o: seq<nat>)
    requires KahnRun(g, o)
    ensures Distinct(o) && Elements(o) <= g.Keys && RespectsDependencies(g, o)
  {
    forall k | 0 <= k < |o| ensures o[k] in g && o[k] !in o[..k] && forall d :: d in g[o[k]] ==> d in o[..k] {
      assert LeastReady(g, o[..k], o[k]);
    }
    forall i, j | 0 <= i < j < |o| ensures o[i] != o[j] {
      assert o[i] in o[..j];
    }
  }

  lemma {:induction false} DistinctSize(o: seq<nat>)
    requires Distinct(o)
    ensures |Elements(o)| == |o|
  {
    if o == [] {
      assert Elements(o) == {};
    } else {
      var n := |o| - 1;
      DistinctSize(o[..n]);
      assert Elements(o) == Elements(o[..n]) + {o[n]};
      assert o[n] !in Elements(o[..n]);
    }
  }

  lemma SubsetSize(a: set<nat>, b: set<nat>)
    requires a <= b
    ensures |a| <= |b|
    ensures |a| == |b| ==> a == b
  {
    assert b == a + (b - a);
    assert |b| == |a| + |b - a|;
  }

  /** A run ends with every vertex placed exactly when it has as many entries as the graph has vertices. */
  lemma CompleteIffLength(g: Graph, o: seq<nat>)
    requires KahnRun(g, o)
    ensures |o| <= |g.Keys|
    ensures |o| == |g.Keys| <==> Elements(o) == g.Keys
  {
    KahnRunRespects(g, o);
    DistinctSize(o);
    SubsetSize(Elements(o), g.Keys);
  }

  // ---- Lexicographic minimality ----

  lemma TopologicalPrefixReady(g: Graph, p: seq<nat>, k: nat)
    requires TopologicalOrder(g, p) && k < |p|
    ensures Ready(g, p[..k], p[k])
  {
    assert forall i :: 0 <= i < k ==> p[i] != p[k];
    assert p[k] !in p[..k];
  }

  lemma {:induction false} KahnRunLeastFrom(g: Graph, o: seq<nat>, p: seq<nat>, k: nat)
    requires KahnRun(g, o) && TopologicalOrder(g, p)
    requires k <= |o| && k <= |p| && o[..k] == p[..k]
    ensures LexLeq(o, p)
    decreases |o| - k
  {
    if k == |o| {
      assert LexLeqAt(o, p, k);
    } else {
      assert LeastReady(g, o[..k], o[k]);
      assert o[k] in Elements(p);
      assert p[..|p|] == p;
      TopologicalPrefixReady(g, p, k);
      if o[k] < p[k] {
        assert LexLeqAt(o, p, k);
      } else {
        assert o[..k + 1] == o[..k] + [o[k]] == p[..k] + [p[k]] == p[..k + 1];
        KahnRunLeastFrom(g, o, p, k + 1);
      }
    }
  }

  /** A run that places every vertex is the least topological order. */
  lemma CompleteRunIsLeast(g: Graph, o: seq<nat>)
    requires KahnRun(g, o) && Elements(o) == g.Keys
    ensures LeastTopologicalOrder(g, o)
  {
    KahnRunRespects(g, o);
    forall p | TopologicalOrder(g, p) ensures LexLeq(o, p) {
      KahnRunLeastFrom(g, o, p, 0);
    }
  }

  lemma LexAntisymmetric(a: seq<nat>, b: seq<nat>)
    requires |a| == |b| && LexLeq(a, b) && LexLeq(b, a)
    ensures a == b
  {
    var i: nat :| LexLeqAt(a, b, i);
    var j: nat :| LexLeqAt(b, a, j);
    forall t | 0 <= t < i ensures a[t] == b[t] { assert a[..i][t] == b[..i][t]; }
    forall t | 0 <= t < j ensures a[t] == b[t] { assert a[..j][t] == b[..j][t]; }
  }

  lemma TopologicalOrdersHaveOneLength(g: Graph, o: seq<nat>, p: seq<nat>)
    requires TopologicalOrder(g, o) && TopologicalOrder(g, p)
    ensures |o| == |p|
  {
    DistinctSize(o);
    DistinctSize(p);
  }

  lemma LeastTopologicalOrderUnique(g: Graph, o: seq<nat>, p: seq<nat>)
    requires LeastTopologicalOrder(g, o) && LeastTopologicalOrder(g, p)
    ensures o == p
  {
    TopologicalOrdersHaveOneLength(g, o, p);
    LexAntisymmetric(o, p);
  }

  // ---- Cycles: the blocked vertices ----

  lemma {:induction false} MinimumExists(s: set<nat>) returns (m: nat)
    requires s != {}
    ensures m in s && forall x :: x in s ==> m <= x
  {
    var first :| first in s;
    var rest := s - {first};
    m := first;
    if rest != {} {
      var r := MinimumExists(rest);
      if r < first { m := r; }
    }
    forall x | x in s ensures m <= x { assert x == first || x in rest; }
  }

  /** Every run can be continued until nothing is ready. */
  lemma {:induction false} RunToTheEnd(g: Graph, o: seq<nat>) returns (e: seq<nat>)
    requires KahnRun(g, o)
    ensures KahnRun(g, e) && Stuck(g, e) && o <= e
    decreases |g.Keys| - |o|
  {
    CompleteIffLength(g, o);
    var ready := set v | v in g && Ready(g, o, v);
    if ready == {} {
      forall v ensures !Ready(g, o, v) { assert v !in ready; }
      e := o;
    } else {
      var v := MinimumExists(ready);
      assert LeastReady(g, o, v) by {
        forall u | Ready(g, o, u) ensures v <= u { assert u in ready; }
      }
      KahnRunExtends(g, o, v);
      CompleteIffLength(g, o + [v]);
      e := RunToTheEnd(g, o + [v]);
    }
  }

  lemma BlockedHasBlockedPrerequisite(g: Graph, o: seq<nat>, v: nat) returns (d: nat)
    requires Closed(g) && KahnRun(g, o) && Stuck(g, o)
    requires v in g && v !in o
    ensures d in g[v] && d in g && d !in o
  {
    assert !Ready(g, o, v);
    d :| d in g[v] && d !in o;
  }

  /** From a blocked vertex one can walk for ever among blocked vertices. */
  lemma {:induction false} BlockedWalk(g: Graph, o: seq<nat>, v: nat, n: nat) returns (w: seq<nat>)
    requires Closed(g) && KahnRun(g, o) && Stuck(g, o)
    requires v in g && v !in o
    ensures Walk(g, w) && w[0] == v && |w| == n + 1
    decreases n
  {
    if n == 0 {
      w := [v];
    } else {
      var d := BlockedHasBlockedPrerequisite(g, o, v);
      var rest := BlockedWalk(g, o, d, n - 1);
      w := [v] + rest;
      forall i, j | 0 <= i && j == i + 1 && j < |w| ensures w[j] in g[w[i]] {
        if i > 0 { assert rest[j - 1] in g[rest[i - 1]]; }
      }
    }
  }

  /** Pigeonhole: a walk longer than the number of vertices visits some vertex twice. */
  lemma LongWalkRepeats(g: Graph, w: seq<nat>) returns (i: nat, j: nat)
    requires Walk(g, w) && |w| > |g.Keys|
    ensures i < j < |w| && w[i] == w[j]
  {
    if Distinct(w) {
      DistinctSize(w);
      SubsetSize(Elements(w), g.Keys);
      assert false;
    }
    i, j :| 0 <= i < j < |w| && w[i] == w[j];
  }

  lemma SubWalk(g: Graph, w: seq<nat>, i: nat, j: nat)
    requires Walk(g, w) && i <= j < |w|
    ensures WalkFromTo(g, w[i..j + 1], w[i], w[j])
  {
    var s := w[i..j + 1];
    forall a, b | 0 <= a && b == a + 1 && b < |s| ensures s[b] in g[s[a]] {
      assert w[i + b] in g[w[i + a]];
    }
  }

  lemma BlockedReachesCycle(g: Graph, o: seq<nat>, v: nat)
    requires Closed(g) && KahnRun(g, o) && Stuck(g, o)
    requires v in g && v !in o
    ensures ReachesCycle(g, v)
  {
    var w := BlockedWalk(g, o, v, |g.Keys|);
    var i, j := LongWalkRepeats(g, w);
    SubWalk(g, w, i, j);
    assert CycleThrough(g, w[i], w[i..j + 1]);
    SubWalk(g, w, 0, i);
    var p := w[0..i + 1];
    assert Walk(g, p) && p[0] == v && OnCycle(g, p[|p| - 1]);
  }

  lemma PlacedPrerequisite(g: Graph, o: seq<nat>, v: nat, d: nat) returns (i: nat, j: nat)
    requires KahnRun(g, o) && v in o && v in g && d in g[v]
    ensures i < j < |o| && o[i] == d && o[j] == v
  {
    KahnRunRespects(g, o);
    j :| 0 <= j < |o| && o[j] == v;
    assert d in o[..j];
    i :| 0 <= i < j && o[i] == d;
  }

  /** Along a walk from a placed vertex, positions strictly decrease. */
  lemma {:induction false} WalkFromPlaced(g: Graph, o: seq<nat>, w: seq<nat>, k: nat) returns (i: nat)
    requires KahnRun(g, o) && Walk(g, w) && k < |o| && w[0] == o[k]
    ensures i < |o| && o[i] == w[|w| - 1] && (if |w| > 1 then i < k else i == k)
    decreases |w|
  {
    if |w| == 1 {
      i := k;
    } else {
      assert w[1] in g[w[0]];
      var a, b := PlacedPrerequisite(g, o, w[0], w[1]);
      KahnRunRespects(g, o);
      assert b == k;
      SubWalk(g, w, 1, |w| - 1);
      assert w[1..|w| - 1 + 1] == w[1..];
      i := WalkFromPlaced(g, o, w[1..], a);
    }
  }

  lemma PlacedReachesNoCycle(g: Graph, o: seq<nat>, v: nat)
    requires KahnRun(g, o) && v in o
    ensures !ReachesCycle(g, v)
  {
    if ReachesCycle(g, v) {
      KahnRunRespects(g, o);
      var w: seq<nat> :| Walk(g, w) && w[0] == v && OnCycle(g, w[|w| - 1]);
      var c :| CycleThrough(g, w[|w| - 1], c);
      var k :| 0 <= k < |o| && o[k] == v;
      var i := WalkFromPlaced(g, o, w, k);
      var j := WalkFromPlaced(g, o, c, i);
      assert false;
    }
  }

  /** At the end of a run the unplaced vertices are exactly those from which a cycle can be reached. */
  lemma BlockedIffReachesCycle(g: Graph, o: seq<nat>, v: nat)
    requires Closed(g) && KahnRun(g, o) && Stuck(g, o)
    ensures v in g && v !in o <==> ReachesCycle(g, v)
  {
    if v in o {
      PlacedReachesNoCycle(g, o, v);
    } else if v in g {
      BlockedReachesCycle(g, o, v);
    }
  }

  /** A run places every vertex exactly when the graph has no cycle. */
  lemma CompleteIffAcyclic(g: Graph, o: seq<nat>)
    requires Closed(g) && KahnRun(g, o) && Stuck(g, o)
    ensures Elements(o) == g.Keys <==> Acyclic(g)
  {
    KahnRunRespects(g, o);
    if Elements(o) == g.Keys {
      forall v ensures !OnCycle(g, v) {
        if OnCycle(g, v) {
          var c :| CycleThrough(g, v, c);
          assert Walk(g, [v]);
          assert ReachesCycle(g, v);
          BlockedIffReachesCycle(g, o, v);
          assert false;
        }
      }
    } else {
      var v :| v in g.Keys && v !in Elements(o);
      BlockedIffReachesCycle(g, o, v);
      var w: seq<nat> :| Walk(g, w) && w[0] == v && OnCycle(g, w[|w| - 1]);
    }
  }

  /** The dependency graph has a topological order exactly when it has no cycle. */
  lemma AcyclicIffOrderExists(g: Graph) returns (o: seq<nat>)
    requires Closed(g)
    ensures Acyclic(g) <==> exists p :: TopologicalOrder(g, p)
    ensures Acyclic(g) ==> KahnRun(g, o) && LeastTopologicalOrder(g, o)
  {
    o := RunToTheEnd(g, []);
    CompleteIffAcyclic(g, o);
    if Acyclic(g) {
      CompleteRunIsLeast(g, o);
    } else if p :| TopologicalOrder(g, p) {
      KahnRunRespects(g, o);
      FirstUnplacedIsReady(g, o, p, 0);
      assert false;
    }
  }

  /** Following a topological order, the first vertex a run has not placed would have been ready. */
  lemma {:induction false} FirstUnplacedIsReady(g: Graph, o: seq<nat>, p: seq<nat>, k: nat)
    requires TopologicalOrder(g, p) && KahnRun(g, o) && Stuck(g, o)
    requires k <= |p| && Elements(p[..k]) <= Elements(o)
    ensures g.Keys <= Elements(o)
    decreases |p| - k
  {
    if k == |p| {
      assert p[..k] == p;
    } else {
      if p[k] !in o {
        forall d | d in g[p[k]] ensures d in o { assert d in Elements(p[..k]); }
        assert Ready(g, o, p[k]);
        assert false;
      }
      assert p[..k + 1] == p[..k] + [p[k]];
      FirstUnplacedIsReady(g, o, p, k + 1);
    }
  }

  // ---- An ordered prefix stays where it is ----

  /** Vertices 0..k depend only on smaller ones, and are all present. */
  ghost predicate OrderedPrefix(g: Graph, k: nat) {
    forall v :: 0 <= v < k ==> v in g && forall d :: d in g[v] ==> d < v
  }

  lemma {:induction false} OrderedPrefixComesFirst(g: Graph, o: seq<nat>, k: nat)
    requires KahnRun(g, o) && Stuck(g, o) && OrderedPrefix(g, k)
    ensures k <= |o| && forall v :: 0 <= v < k ==> o[v] == v
    decreases k
  {
    if k > 0 {
      var n := k - 1;
      OrderedPrefixComesFirst(g, o, n);
      forall d | 0 <= d < n ensures d in o[..n] { assert o[..n][d] == d; }
      assert forall i :: 0 <= i < n ==> o[..n][i] != n;
      assert Ready(g, o[..n], n);
      assert o[..|o|] == o;
      assert LeastReady(g, o[..n], o[n]);
    }
  }
}
