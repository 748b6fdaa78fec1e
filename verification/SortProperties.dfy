/** What callers of Sort can rely on, derived from SortOutcome alone. */
module SortProperties {
  import opened Wrappers
  import opened DependencyGraph
  import opened Modules
  import Text

  // ---- One answer per registration list ----

  ghost predicate NamesFail<F>(r: Result<seq<Module<F>>, SortError>) {
    r.Failure? && (r.error.EmptyName? || r.error.DuplicateName?)
  }

  ghost predicate DependenciesFail<F>(r: Result<seq<Module<F>>, SortError>) {
    r.Failure? && (r.error.SelfDependency? || r.error.UnknownDependency?)
  }

  /** Which kind of result is promised depends on the validity of names and dependencies only. */
  lemma OutcomeKind<F>(ms: Registration<F>, r: Result<seq<Module<F>>, SortError>)
    requires SortOutcome(ms, r)
    ensures NamesFail(r) <==> !NamesValid(ms, |ms|)
    ensures DependenciesFail(r) <==> NamesValid(ms, |ms|) && !DependenciesValid(ms, |ms|)
  {
  }

  lemma FirstInvalidUnique<F>(ms: Registration<F>, i: int, k: int, j: int, h: int)
    requires FirstInvalidDependency(ms, i, k) && FirstInvalidDependency(ms, j, h)
    ensures i == j && k == h
  {
    assert DependenciesAt(ms, i)[k] in DependenciesAt(ms, i);
    assert DependenciesAt(ms, j)[h] in DependenciesAt(ms, j);
  }

  lemma NamesFailUnique<F>(
    ms: Registration<F>, r: Result<seq<Module<F>>, SortError>, q: Result<seq<Module<F>>, SortError>)
    requires SortOutcome(ms, r) && SortOutcome(ms, q) && NamesFail(r) && NamesFail(q)
    ensures r == q
  {
    var i := NamesFailAt(ms, r);
    var j := NamesFailAt(ms, q);
    FirstBadNameUnique(ms, i, j);
  }

  ghost predicate FirstBadName<F>(ms: Registration<F>, i: int) {
    NamesValid(ms, i) && !NamesValid(ms, i + 1)
  }

  lemma FirstBadNameUnique<F>(ms: Registration<F>, i: int, j: int)
    requires FirstBadName(ms, i) && FirstBadName(ms, j)
    ensures i == j
  {
    if i < j { NamesValidBelow(ms, i + 1, j); }
    if j < i { NamesValidBelow(ms, j + 1, i); }
  }

  lemma NamesValidBelow<F>(ms: Registration<F>, m: int, n: int)
    requires m <= n && NamesValid(ms, n)
    ensures NamesValid(ms, m)
  {
  }

  lemma NamesFailAt<F>(ms: Registration<F>, r: Result<seq<Module<F>>, SortError>) returns (i: nat)
    requires SortOutcome(ms, r) && NamesFail(r)
    ensures Live(ms, i) && FirstBadName(ms, i)
    ensures r == Failure(if NameAt(ms, i) == "" then EmptyName(i) else DuplicateName(NameAt(ms, i)))
  {
    match r.error {
      case EmptyName(k) => i := k;
      case DuplicateName(name) =>
        var a, b :| b < a && HasName(ms, a, name) && HasName(ms, b, name) && NamesValid(ms, a);
        i := a;
    }
  }

  lemma BlockedUnique<F>(ms: Registration<F>, a: seq<string>, b: seq<string>)
    requires BlockedNames(ms, a) && BlockedNames(ms, b)
    ensures a == b
  {
    Text.SortedUnique(a, b);
  }

  /** Names and dependencies being valid, Sort succeeds exactly when no module depends on itself through others. */
  lemma SucceedsIffAcyclic<F>(ms: Registration<F>, r: Result<seq<Module<F>>, SortError>)
    requires SortOutcome(ms, r) && Valid(ms)
    ensures r.Success? <==> Acyclic(GraphOf(ms))
    ensures r.Failure? ==> r.error.DependencyCycle?
  {
    OutcomeKind(ms, r);
    var g := GraphOf(ms);
    var witness' := AcyclicIffOrderExists(g);
    match r {
      case Success(ordered) =>
        var o :| OrderedBy(ms, o, ordered);
      case Failure(e) =>
        var x := e.blocked[0];
        assert x in e.blocked;
        var i: nat :| HasName(ms, i, x) && ReachesCycle(g, i);
        var w: seq<nat> :| Walk(g, w) && w[0] == i && OnCycle(g, w[|w| - 1]);
    }
  }

  /** SortOutcome leaves no freedom: any two results it admits are equal. */
  lemma OutcomeUnique<F>(
    ms: Registration<F>, r: Result<seq<Module<F>>, SortError>, q: Result<seq<Module<F>>, SortError>)
    requires SortOutcome(ms, r) && SortOutcome(ms, q)
    ensures r == q
  {
    OutcomeKind(ms, r);
    OutcomeKind(ms, q);
    if NamesFail(r) {
      NamesFailUnique(ms, r, q);
    } else if DependenciesFail(r) {
      var i, k :| FirstInvalidDependency(ms, i, k);
      forall j, h | FirstInvalidDependency(ms, j, h) ensures i == j && k == h {
        FirstInvalidUnique(ms, i, k, j, h);
      }
    } else {
      SucceedsIffAcyclic(ms, r);
      SucceedsIffAcyclic(ms, q);
      if r.Success? {
        var o :| OrderedBy(ms, o, r.value);
        var p :| OrderedBy(ms, p, q.value);
        LeastTopologicalOrderUnique(GraphOf(ms), o, p);
      } else {
        BlockedUnique(ms, r.error.blocked, q.error.blocked);
      }
    }
  }

  // ---- Dependency order of the result ----

  /** Every dependency of a sorted module is the name of a module sorted before it. */
  lemma DependenciesComeFirst<F>(ms: Registration<F>, ordered: seq<Module<F>>, k: int, d: string)
    requires SortOutcome(ms, Success(ordered)) && 0 <= k < |ordered|
    requires d in Normalized(ordered[k].dependencies)
    ensures exists j :: 0 <= j < k && Text.Trim(ordered[j].name) == d
  {
    var o :| OrderedBy(ms, o, ordered);
    var j := PrerequisitePosition(ms, o, k, d);
    assert ordered[k] == ModuleAt(ms, o[k]) && ordered[j] == ModuleAt(ms, o[j]);
  }

  lemma PrerequisitePosition<F>(ms: Registration<F>, o: seq<nat>, k: int, d: string) returns (j: int)
    requires DependenciesValid(ms, |ms|) && RespectsDependencies(GraphOf(ms), o) && 0 <= k < |o|
    requires Live(ms, o[k]) && d in DependenciesAt(ms, o[k])
    ensures 0 <= j < k && HasName(ms, o[j], d)
  {
    assert DependencyValid(ms, o[k], d);
    var i: nat :| HasName(ms, i, d);
    assert i in GraphOf(ms)[o[k]];
    assert i in o[..k];
    j :| 0 <= j < k && o[j] == i;
  }

  /** Some chain of declared dependencies leads from module a to module b. */
  ghost predicate DependsTransitively<F>(ms: Registration<F>, a: nat, b: nat) {
    exists w :: |w| > 1 && WalkFromTo(GraphOf(ms), w, a, b)
  }

  lemma SameNameSameIndex<F>(ms: Registration<F>, a: int, b: int)
    requires NamesValid(ms, |ms|) && Live(ms, a) && Live(ms, b) && NameAt(ms, a) == NameAt(ms, b)
    ensures a == b
  {
  }

  lemma LeastOrderIsRun(g: Graph, o: seq<nat>)
    requires Closed(g) && LeastTopologicalOrder(g, o)
    ensures KahnRun(g, o)
  {
    var run := AcyclicIffOrderExists(g);
    LeastTopologicalOrderUnique(g, o, run);
  }

  /** A module is sorted after everything it depends on, directly or through others. */
  lemma TransitiveDependencyComesFirst<F>(ms: Registration<F>, ordered: seq<Module<F>>, k: int, a: nat, b: nat)
    returns (j: int)
    requires SortOutcome(ms, Success(ordered)) && 0 <= k < |ordered|
    requires HasName(ms, a, Text.Trim(ordered[k].name)) && DependsTransitively(ms, a, b)
    ensures Live(ms, b) && 0 <= j < k && ordered[j] == ModuleAt(ms, b)
  {
    var o :| OrderedBy(ms, o, ordered);
    assert Live(ms, o[k]) && ordered[k] == ModuleAt(ms, o[k]);
    SameNameSameIndex(ms, a, o[k]);
    j := WalkEndsEarlier(GraphOf(ms), o, k, b);
    assert Live(ms, o[j]) && ordered[j] == ModuleAt(ms, o[j]);
  }

  lemma WalkEndsEarlier(g: Graph, o: seq<nat>, k: int, b: nat) returns (j: int)
    requires Closed(g) && LeastTopologicalOrder(g, o) && 0 <= k < |o|
    requires exists w :: |w| > 1 && WalkFromTo(g, w, o[k], b)
    ensures 0 <= j < k && o[j] == b
  {
    LeastOrderIsRun(g, o);
    var w :| |w| > 1 && WalkFromTo(g, w, o[k], b);
    j := WalkFromPlaced(g, o, w, k);
  }

  /** The sorted modules are the enabled ones, each once. */
  lemma SortedOnceEach<F>(ms: Registration<F>, ordered: seq<Module<F>>)
    requires SortOutcome(ms, Success(ordered))
    ensures forall i :: 0 <= i < |ms| && ms[i].Some? && ms[i].value.enabled ==>
              exists k :: 0 <= k < |ordered| && ordered[k] == ms[i].value
    ensures forall m :: m in ordered ==> Some(m) in ms && m.enabled && Text.Trim(m.name) != ""
    ensures forall j, k :: 0 <= j < k < |ordered| ==> Text.Trim(ordered[j].name) != Text.Trim(ordered[k].name)
  {
    var o :| OrderedBy(ms, o, ordered);
    forall i | 0 <= i < |ms| && ms[i].Some? && ms[i].value.enabled
      ensures exists k :: 0 <= k < |ordered| && ordered[k] == ms[i].value
    {
      assert Live(ms, i) && i in Elements(o);
      var k :| 0 <= k < |o| && o[k] == i;
      assert ordered[k] == ModuleAt(ms, i);
    }
    forall k | 0 <= k < |ordered|
      ensures Live(ms, o[k]) && ordered[k] == ModuleAt(ms, o[k]) && Text.Trim(ordered[k].name) == NameAt(ms, o[k])
    {
      assert o[k] in o;
    }
    forall j, k | 0 <= j < k < |ordered| ensures Text.Trim(ordered[j].name) != Text.Trim(ordered[k].name) {
      assert o[j] != o[k];
      assert Live(ms, o[j]) && Live(ms, o[k]);
      assert NameAt(ms, o[j]) != NameAt(ms, o[k]);
    }
  }

  // ---- An ordered prefix stays in place ----

  /** The first k entries are enabled modules, each depending only on earlier ones. */
  ghost predicate InDependencyOrder<F>(ms: Registration<F>, k: int) {
    && k <= |ms|
    && (forall i :: 0 <= i < k ==> Live(ms, i))
    && (forall i, d :: 0 <= i < k && d in DependenciesAt(ms, i) ==> exists j :: j < i && HasName(ms, j, d))
  }

  lemma OrderedPrefixOfGraph<F>(ms: Registration<F>, k: int)
    requires InDependencyOrder(ms, k) && NamesValid(ms, |ms|) && k >= 0
    ensures OrderedPrefix(GraphOf(ms), k)
  {
    forall v: nat, d: nat | v < k && d in GraphOf(ms)[v] ensures d < v {
      var j :| j < v && HasName(ms, j, NameAt(ms, d));
      assert j == d;
    }
  }

  /** Whatever follows it, a prefix in dependency order is sorted first and unchanged. */
  lemma OrderedPrefixStays<F>(ms: Registration<F>, k: int, ordered: seq<Module<F>>)
    requires SortOutcome(ms, Success(ordered)) && InDependencyOrder(ms, k) && k >= 0
    ensures k <= |ordered| && forall i :: 0 <= i < k ==> Some(ordered[i]) == ms[i]
  {
    var g := GraphOf(ms);
    var o :| OrderedBy(ms, o, ordered);
    OrderedPrefixOfGraph(ms, k);
    LeastOrderIsRun(g, o);
    CompleteRunIsStuck(g, o);
    OrderedPrefixComesFirst(g, o, k);
    forall i | 0 <= i < k ensures Some(ordered[i]) == ms[i] {
      assert Live(ms, o[i]) && ordered[i] == ModuleAt(ms, o[i]);
    }
  }

  lemma CompleteRunIsStuck(g: Graph, o: seq<nat>)
    requires Elements(o) == g.Keys
    ensures Stuck(g, o)
  {
    forall v: nat ensures !Ready(g, o, v) {
      assert v in g ==> v in Elements(o);
    }
  }

  lemma OrderedListIsValid<F>(ms: Registration<F>)
    requires InDependencyOrder(ms, |ms|) && NamesValid(ms, |ms|)
    ensures Valid(ms) && Acyclic(GraphOf(ms))
  {
    forall i, d | i < |ms| && Live(ms, i) && d in DependenciesAt(ms, i) ensures DependencyValid(ms, i, d) {
      var j :| j < i && HasName(ms, j, d);
      assert NameAt(ms, j) != NameAt(ms, i);
    }
    var g := GraphOf(ms);
    OrderedPrefixOfGraph(ms, |ms|);
    var o := RunToTheEnd(g, []);
    OrderedPrefixComesFirst(g, o, |ms|);
    KahnRunRespects(g, o);
    forall v | v in g ensures v in Elements(o) { assert o[v] == v; }
    CompleteIffAcyclic(g, o);
  }

  /** On a list already in dependency order Sort is the identity. */
  lemma SortOfOrderedList<F>(ms: Registration<F>, r: Result<seq<Module<F>>, SortError>)
    requires SortOutcome(ms, r) && InDependencyOrder(ms, |ms|) && NamesValid(ms, |ms|)
    ensures r.Success? && |r.value| == |ms| && forall i :: 0 <= i < |ms| ==> Some(r.value[i]) == ms[i]
  {
    OrderedListIsValid(ms);
    SucceedsIffAcyclic(ms, r);
    OrderedPrefixStays(ms, |ms|, r.value);
    var o :| OrderedBy(ms, o, r.value);
    DistinctSize(o);
    IndicesBelow(|ms|, Elements(o));
  }

  lemma {:induction false} IndicesBelow(n: nat, s: set<nat>)
    requires forall v :: v in s ==> v < n
    ensures |s| <= n
  {
    if n > 0 {
      IndicesBelow(n - 1, s - {n - 1});
      assert s <= (s - {n - 1}) + {n - 1};
      SubsetSize(s, (s - {n - 1}) + {n - 1});
    } else {
      assert s == {};
    }
  }

  function AsRegistration<F>(mods: seq<Module<F>>): (r: Registration<F>)
    ensures |r| == |mods| && forall i :: 0 <= i < |mods| ==> r[i] == Some(mods[i])
  {
    seq(|mods|, i requires 0 <= i < |mods| => Some(mods[i]))
  }

  /** What the sorted list, registered again, says of each of its modules. */
  lemma SortedAgain<F>(ms: Registration<F>, ordered: seq<Module<F>>, i: nat)
    requires SortOutcome(ms, Success(ordered)) && i < |ordered|
    ensures var again := AsRegistration(ordered);
            && Live(again, i) && NameAt(again, i) == Text.Trim(ordered[i].name) && NameAt(again, i) != ""
            && DependenciesAt(again, i) == Normalized(ordered[i].dependencies)
  {
    SortedOnceEach(ms, ordered);
    assert ordered[i] in ordered;
  }

  lemma EarlierName<F>(ms: Registration<F>, ordered: seq<Module<F>>, i: nat, d: string)
    requires SortOutcome(ms, Success(ordered)) && i < |ordered| && d in Normalized(ordered[i].dependencies)
    ensures exists j :: j < i && HasName(AsRegistration(ordered), j, d)
  {
    DependenciesComeFirst(ms, ordered, i, d);
    var j :| 0 <= j < i && Text.Trim(ordered[j].name) == d;
    SortedAgain(ms, ordered, j);
    assert HasName(AsRegistration(ordered), j, d);
  }

  lemma SortedIsInOrder<F>(ms: Registration<F>, ordered: seq<Module<F>>)
    requires SortOutcome(ms, Success(ordered))
    ensures InDependencyOrder(AsRegistration(ordered), |ordered|)
  {
    var again := AsRegistration(ordered);
    forall i: nat | i < |again|
      ensures Live(again, i) && DependenciesAt(again, i) == Normalized(ordered[i].dependencies)
    {
      SortedAgain(ms, ordered, i);
    }
    forall i: nat, d | i < |again| && d in DependenciesAt(again, i) ensures exists j :: j < i && HasName(again, j, d) {
      EarlierName(ms, ordered, i, d);
    }
  }

  lemma SortedNamesValid<F>(ms: Registration<F>, ordered: seq<Module<F>>)
    requires SortOutcome(ms, Success(ordered))
    ensures NamesValid(AsRegistration(ordered), |ordered|)
  {
    var again := AsRegistration(ordered);
    SortedOnceEach(ms, ordered);
    forall i: nat | i < |again|
      ensures Live(again, i) && NameAt(again, i) == Text.Trim(ordered[i].name) && NameAt(again, i) != ""
    {
      SortedAgain(ms, ordered, i);
    }
  }

  /** Sorting a sorted list again returns it unchanged. */
  lemma SortIdempotent<F>(
    ms: Registration<F>, ordered: seq<Module<F>>, r: Result<seq<Module<F>>, SortError>)
    requires SortOutcome(ms, Success(ordered)) && SortOutcome(AsRegistration(ordered), r)
    ensures r == Success(ordered)
  {
    SortedIsInOrder(ms, ordered);
    SortedNamesValid(ms, ordered);
    SortOfOrderedList(AsRegistration(ordered), r);
    assert r.value == ordered;
  }
}
