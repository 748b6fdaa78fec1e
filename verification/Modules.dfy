/**
 Modules, their registration list and what Sort promises about it. The promise (SortOutcome) is stated on the
 registration list alone: validity of names and dependencies, topological orders and cycles of the dependency graph.
 */
module Modules {
  import opened Wrappers
  import opened DependencyGraph
  import Text

  /** A module as Sort and Execute see it: stable answers, and the identity of its Init closure. */
  datatype Module<F> = Module(enabled: bool, name: string, dependencies: seq<string>, initFn: F)

  /** The variadic argument of Sort and Execute; None is a nil interface value. */
  type Registration<F> = seq<Option<Module<F>>>

  // ---- normalizeDependencies ----

  /** Trimmed, blanks dropped, only the first of equal names kept. */
  function Normalized(dependencies: seq<string>): seq<string> {
    if dependencies == [] then []
    else
      var front := Normalized(dependencies[..|dependencies| - 1]);
      var d := Text.Trim(dependencies[|dependencies| - 1]);
      if d == "" || d in front then front else front + [d]
  }

  ghost predicate DistinctNames(names: seq<string>) {
    forall i, j :: 0 <= i < j < |names| ==> names[i] != names[j]
  }

  ghost predicate Mentions(dependencies: seq<string>, d: string) {
    exists i :: 0 <= i < |dependencies| && Text.Trim(dependencies[i]) == d
  }

  method NormalizeDependencies(dependencies: seq<string>) returns (ordered: seq<string>)
    ensures ordered == Normalized(dependencies)
  {
    ordered := [];
    if |dependencies| == 0 {
      return;
    }
    var seen: set<string> := {};
    for i := 0 to |dependencies|
      invariant ordered == Normalized(dependencies[..i])
      invariant forall d :: d in seen <==> d in ordered
    {
      assert dependencies[..i + 1][..i] == dependencies[..i];
      var dependency := Text.Trim(dependencies[i]);
      if dependency == "" {
        continue;
      }
      if dependency in seen {
        continue;
      }
      seen := seen + {dependency};
      ordered := ordered + [dependency];
    }
    assert dependencies[..|dependencies|] == dependencies;
  }

  lemma MentionsSplit(dependencies: seq<string>, d: string)
    requires dependencies != []
    ensures var n := |dependencies| - 1;
            Mentions(dependencies, d) <==> Mentions(dependencies[..n], d) || Text.Trim(dependencies[n]) == d
  {
    var n := |dependencies| - 1;
    var front := dependencies[..n];
    if Mentions(front, d) {
      var i :| 0 <= i < |front| && Text.Trim(front[i]) == d;
      assert Text.Trim(dependencies[i]) == d;
    }
    if Mentions(dependencies, d) {
      var i :| 0 <= i < |dependencies| && Text.Trim(dependencies[i]) == d;
      assert i < n ==> Text.Trim(front[i]) == d;
    }
  }

  /** Exactly the non-blank trimmed names, each once. */
  lemma {:induction false} NormalizedIsTheSetOfNames(dependencies: seq<string>)
    ensures DistinctNames(Normalized(dependencies))
    ensures forall d :: d in Normalized(dependencies) <==> d != "" && Mentions(dependencies, d)
  {
    if dependencies != [] {
      var n := |dependencies| - 1;
      var front := dependencies[..n];
      NormalizedIsTheSetOfNames(front);
      var last := Text.Trim(dependencies[n]);
      forall d ensures d in Normalized(dependencies) <==> d != "" && Mentions(dependencies, d) {
        MentionsSplit(dependencies, d);
        assert d in Normalized(dependencies) <==> d in Normalized(front) || (d == last && d != "");
      }
    }
  }

  /** What the first names give stays first, so a name keeps the place of its first mention. */
  lemma {:induction false} NormalizedPrefix(dependencies: seq<string>, n: nat)
    requires n <= |dependencies|
    ensures Normalized(dependencies[..n]) <= Normalized(dependencies)
    decreases |dependencies|
  {
    if n == |dependencies| {
      assert dependencies[..n] == dependencies;
    } else {
      var front := dependencies[..|dependencies| - 1];
      assert front[..n] == dependencies[..n];
      NormalizedPrefix(front, n);
    }
  }

  lemma NormalizedSnoc(names: seq<string>, d: string)
    requires d != "" && Text.Trim(d) == d && d !in Normalized(names)
    ensures Normalized(names + [d]) == Normalized(names) + [d]
  {
    assert (names + [d])[..|names|] == names;
  }

  lemma {:induction false} NormalizedUpTo(names: seq<string>, n: nat)
    requires n <= |names| && DistinctNames(names)
    requires forall i :: 0 <= i < |names| ==> names[i] != "" && Text.IsTrimmed(names[i])
    ensures Normalized(names[..n]) == names[..n]
  {
    if n > 0 {
      NormalizedUpTo(names, n - 1);
      var left, right := Text.TrimSplits(names[n - 1]);
      assert names[n - 1] !in names[..n - 1];
      NormalizedSnoc(names[..n - 1], names[n - 1]);
      assert names[..n] == names[..n - 1] + [names[n - 1]];
    }
  }

  /** Names that are already trimmed, non-blank and distinct are left alone. */
  lemma NormalizedOfNormal(names: seq<string>)
    requires DistinctNames(names)
    requires forall i :: 0 <= i < |names| ==> names[i] != "" && Text.IsTrimmed(names[i])
    ensures Normalized(names) == names
  {
    NormalizedUpTo(names, |names|);
    assert names[..|names|] == names;
  }

  /** The wrapper normalises its dependencies and Sort normalises them again: the second pass changes nothing. */
  lemma NormalizedIdempotent(dependencies: seq<string>)
    ensures Normalized(Normalized(dependencies)) == Normalized(dependencies)
  {
    NormalizedIsTheSetOfNames(dependencies);
    var names := Normalized(dependencies);
    forall k | 0 <= k < |names| ensures names[k] != "" && Text.IsTrimmed(names[k]) {
      assert names[k] in names;
      var i :| 0 <= i < |dependencies| && Text.Trim(dependencies[i]) == names[k];
      Text.TrimIdempotent(dependencies[i]);
    }
    NormalizedOfNormal(names);
  }

  /** NewModuleWrapper; a wrapped module is always enabled. */
  function NewModuleWrapper<F>(name: string, initFn: F, dependencies: seq<string>): Module<F> {
    Module(true, Text.Trim(name), Normalized(dependencies), initFn)
  }

  // ---- The registration list as a graph ----

  predicate Live<F>(ms: Registration<F>, i: int) {
    0 <= i < |ms| && ms[i].Some? && ms[i].value.enabled
  }

  function NameAt<F>(ms: Registration<F>, i: int): string
    requires Live(ms, i)
  {
    Text.Trim(ms[i].value.name)
  }

  function DependenciesAt<F>(ms: Registration<F>, i: int): seq<string>
    requires Live(ms, i)
  {
    Normalized(ms[i].value.dependencies)
  }

  ghost predicate HasName<F>(ms: Registration<F>, i: int, name: string) {
    Live(ms, i) && NameAt(ms, i) == name
  }

  /** The enabled modules among the first n have non-empty, pairwise different names. */
  ghost predicate NamesValid<F>(ms: Registration<F>, n: int) {
    && (forall i :: i < n && Live(ms, i) ==> NameAt(ms, i) != "")
    && (forall i, j :: i < j < n && Live(ms, i) && Live(ms, j) ==> NameAt(ms, i) != NameAt(ms, j))
  }

  ghost predicate DependencyValid<F>(ms: Registration<F>, i: int, d: string)
    requires Live(ms, i)
  {
    d != NameAt(ms, i) && exists j :: HasName(ms, j, d)
  }

  ghost predicate DependenciesValid<F>(ms: Registration<F>, n: int) {
    forall i, d :: i < n && Live(ms, i) && d in DependenciesAt(ms, i) ==> DependencyValid(ms, i, d)
  }

  /** Dependency k of module i is the first invalid one in registration order. */
  ghost predicate FirstInvalidDependency<F>(ms: Registration<F>, i: int, k: int) {
    && Live(ms, i) && 0 <= k < |DependenciesAt(ms, i)|
    && DependenciesValid(ms, i)
    && (forall h :: 0 <= h < k ==> DependencyValid(ms, i, DependenciesAt(ms, i)[h]))
    && !DependencyValid(ms, i, DependenciesAt(ms, i)[k])
  }

  ghost predicate Valid<F>(ms: Registration<F>) {
    NamesValid(ms, |ms|) && DependenciesValid(ms, |ms|)
  }

  /** Vertices are the registration indices of the enabled modules. */
  ghost function GraphOf<F>(ms: Registration<F>): (g: Graph)
    ensures Closed(g)
    ensures forall i: nat :: i in g <==> Live(ms, i)
  {
    map i: nat | i < |ms| && Live(ms, i) ::
      set j: nat | j < |ms| && Live(ms, j) && NameAt(ms, j) in DependenciesAt(ms, i)
  }

  function ModuleAt<F>(ms: Registration<F>, i: int): Module<F>
    requires Live(ms, i)
  {
    ms[i].value
  }

  function ModulesAt<F>(ms: Registration<F>, o: seq<nat>): (r: seq<Module<F>>)
    requires forall v :: v in o ==> Live(ms, v)
    ensures |r| == |o| && forall k :: 0 <= k < |o| ==> r[k] == ModuleAt(ms, o[k])
  {
    seq(|o|, k requires 0 <= k < |o| => ModuleAt(ms, o[k]))
  }

  // ---- What Sort promises ----

  datatype SortError =
    | EmptyName(index: nat)
    | DuplicateName(name: string)
    | SelfDependency(name: string)
    | UnknownDependency(name: string, dependency: string)
    | DependencyCycle(blocked: seq<string>)

  ghost predicate OrderedBy<F>(ms: Registration<F>, o: seq<nat>, ordered: seq<Module<F>>) {
    && LeastTopologicalOrder(GraphOf(ms), o)
    && (forall v :: v in o ==> Live(ms, v))
    && ordered == ModulesAt(ms, o)
  }

  ghost predicate BlockedNames<F>(ms: Registration<F>, blocked: seq<string>) {
    && blocked != []
    && Text.StrictlySorted(blocked)
    && forall x :: x in blocked <==> exists i: nat :: HasName(ms, i, x) && ReachesCycle(GraphOf(ms), i)
  }

  ghost predicate SortOutcome<F>(ms: Registration<F>, r: Result<seq<Module<F>>, SortError>) {
    match r
    case Success(ordered) =>
      Valid(ms) && exists o :: OrderedBy(ms, o, ordered)
    case Failure(EmptyName(i)) =>
      Live(ms, i) && NamesValid(ms, i) && NameAt(ms, i) == ""
    case Failure(DuplicateName(name)) =>
      exists i, j :: j < i && HasName(ms, i, name) && HasName(ms, j, name) && NamesValid(ms, i)
    case Failure(SelfDependency(name)) =>
      NamesValid(ms, |ms|)
      && exists i, k :: FirstInvalidDependency(ms, i, k) && NameAt(ms, i) == DependenciesAt(ms, i)[k] == name
    case Failure(UnknownDependency(name, dependency)) =>
      NamesValid(ms, |ms|) && name != dependency
      && exists i, k :: FirstInvalidDependency(ms, i, k) && NameAt(ms, i) == name
                        && DependenciesAt(ms, i)[k] == dependency
    case Failure(DependencyCycle(blocked)) =>
      Valid(ms) && BlockedNames(ms, blocked)
  }
}
