/**
 module.Execute: sort, then run each Init in order until one does not return normally. Init is any function on some
 state S, so what a closure does to shared variables is part of the model; it may also panic, which ends Execute.
 */
module ModuleExec {
  import opened Wrappers
  import opened Modules
  import opened SortProperties
  import ModuleSort
  import Text

  datatype InitOutcome = Ok | Err(message: string) | Panic

  type InitFunction<!S, !F> = (S, F) -> (S, InitOutcome)

  datatype ExecResult =
    | Completed
    | SortFailed(error: SortError)
    | InitFailed(name: string, message: string)
    | Panicked

  /** The state after the first k modules of an order have run. */
  function StateAfter<S, F>(init: InitFunction<S, F>, s0: S, ordered: seq<Module<F>>, k: int): S
    requires 0 <= k <= |ordered|
    decreases k
  {
    if k == 0 then s0 else init(StateAfter(init, s0, ordered, k - 1), ordered[k - 1].initFn).0
  }

  function OutcomeOf<S, F>(init: InitFunction<S, F>, s0: S, ordered: seq<Module<F>>, k: int): InitOutcome
    requires 0 <= k < |ordered|
  {
    init(StateAfter(init, s0, ordered, k), ordered[k].initFn).1
  }

  /** The modules before position k have all returned without error. */
  ghost predicate AllOkBefore<S, F>(init: InitFunction<S, F>, s0: S, ordered: seq<Module<F>>, k: int)
    requires 0 <= k <= |ordered|
  {
    forall j :: 0 <= j < k ==> OutcomeOf(init, s0, ordered, j) == Ok
  }

  /** Exactly the first `started` modules ran, each after the ones before it succeeded, with final state s. */
  ghost predicate Ran<S, F>(
    init: InitFunction<S, F>, s0: S, ordered: seq<Module<F>>, started: int, r: ExecResult, s: S)
  {
    && 0 <= started <= |ordered|
    && s == StateAfter(init, s0, ordered, started)
    && match r
       case Completed => started == |ordered| && AllOkBefore(init, s0, ordered, started)
       case SortFailed(_) => false
       case InitFailed(name, message) =>
         && 0 < started && AllOkBefore(init, s0, ordered, started - 1)
         && OutcomeOf(init, s0, ordered, started - 1) == Err(message)
         && name == Text.Trim(ordered[started - 1].name)
       case Panicked =>
         && 0 < started && AllOkBefore(init, s0, ordered, started - 1)
         && OutcomeOf(init, s0, ordered, started - 1) == Panic
  }

  ghost predicate ExecuteOutcome<S, F(!new)>(
    ms: Registration<F>, init: InitFunction<S, F>, s0: S, r: ExecResult, s: S)
  {
    if r.SortFailed? then SortOutcome<F>(ms, Failure(r.error)) && s == s0
    else exists ordered, started :: SortOutcome(ms, Success(ordered)) && Ran(init, s0, ordered, started, r, s)
  }

  method Execute<S, F(!new)>(ms: Registration<F>, init: InitFunction<S, F>, s0: S) returns (r: ExecResult, s: S)
    ensures ExecuteOutcome(ms, init, s0, r, s)
  {
    s := s0;
    var sorted := ModuleSort.Sort(ms);
    if sorted.Failure? {
      return SortFailed(sorted.error), s;
    }
    var ordered := sorted.value;
    for k := 0 to |ordered|
      invariant s == StateAfter(init, s0, ordered, k) && AllOkBefore(init, s0, ordered, k)
    {
      var current := ordered[k];
      ghost var before := s;
      var (next, outcome) := init(s, current.initFn);
      s := next;
      InitAt(init, s0, ordered, k, before);
      match outcome {
        case Ok =>
          OneMoreOk(init, s0, ordered, k);
        case Err(message) =>
          r := InitFailed(Text.Trim(current.name), message);
          StoppedIsOutcome(ms, init, s0, ordered, k, r);
          return;
        case Panic =>
          r := Panicked;
          StoppedIsOutcome(ms, init, s0, ordered, k, r);
          return;
      }
    }
    r := Completed;
    CompletedIsOutcome(ms, init, s0, ordered);
  }

  /** Module k runs on the state the ones before it have left. */
  lemma InitAt<S, F>(init: InitFunction<S, F>, s0: S, ordered: seq<Module<F>>, k: nat, before: S)
    requires k < |ordered| && before == StateAfter(init, s0, ordered, k)
    ensures init(before, ordered[k].initFn) ==
            (StateAfter(init, s0, ordered, k + 1), OutcomeOf(init, s0, ordered, k))
  {
  }

  lemma OneMoreOk<S, F>(init: InitFunction<S, F>, s0: S, ordered: seq<Module<F>>, k: nat)
    requires k < |ordered| && AllOkBefore(init, s0, ordered, k) && OutcomeOf(init, s0, ordered, k) == Ok
    ensures AllOkBefore(init, s0, ordered, k + 1)
  {
  }

  /** How Execute ends when the Init of m has returned anything but nil. */
  function EndOf<F>(m: Module<F>, outcome: InitOutcome): ExecResult
    requires !outcome.Ok?
  {
    if outcome.Panic? then Panicked else InitFailed(Text.Trim(m.name), outcome.message)
  }

  lemma StoppedIsOutcome<S, F(!new)>(
    ms: Registration<F>, init: InitFunction<S, F>, s0: S, ordered: seq<Module<F>>, k: nat, r: ExecResult)
    requires SortOutcome(ms, Success(ordered)) && k < |ordered| && AllOkBefore(init, s0, ordered, k)
    requires var outcome := OutcomeOf(init, s0, ordered, k); !outcome.Ok? && r == EndOf(ordered[k], outcome)
    ensures ExecuteOutcome(ms, init, s0, r, StateAfter(init, s0, ordered, k + 1))
  {
    assert Ran(init, s0, ordered, k + 1, r, StateAfter(init, s0, ordered, k + 1));
  }

  lemma CompletedIsOutcome<S, F(!new)>(
    ms: Registration<F>, init: InitFunction<S, F>, s0: S, ordered: seq<Module<F>>)
    requires SortOutcome(ms, Success(ordered)) && AllOkBefore(init, s0, ordered, |ordered|)
    ensures ExecuteOutcome(ms, init, s0, Completed, StateAfter(init, s0, ordered, |ordered|))
  {
    assert Ran(init, s0, ordered, |ordered|, Completed, StateAfter(init, s0, ordered, |ordered|));
  }

  // ---- Consequences ----

  lemma StartedUnique<S, F>(
    init: InitFunction<S, F>, s0: S, ordered: seq<Module<F>>,
    a: int, r: ExecResult, s: S, b: int, q: ExecResult, t: S)
    requires Ran(init, s0, ordered, a, r, s) && Ran(init, s0, ordered, b, q, t)
    ensures a == b && r == q && s == t
  {
  }

  /** The registration list, the Init functions and the initial state determine result and final state. */
  lemma ExecuteDeterministic<S, F(!new)>(
    ms: Registration<F>, init: InitFunction<S, F>, s0: S, r: ExecResult, s: S, q: ExecResult, t: S)
    requires ExecuteOutcome(ms, init, s0, r, s) && ExecuteOutcome(ms, init, s0, q, t)
    ensures r == q && s == t
  {
    if r.SortFailed? && q.SortFailed? {
      OutcomeUnique(ms, Failure(r.error), Failure(q.error));
    } else if r.SortFailed? {
      var ordered, started :| SortOutcome(ms, Success(ordered)) && Ran(init, s0, ordered, started, q, t);
      OutcomeUnique(ms, Failure(r.error), Success(ordered));
    } else if q.SortFailed? {
      var ordered, started :| SortOutcome(ms, Success(ordered)) && Ran(init, s0, ordered, started, r, s);
      OutcomeUnique(ms, Failure(q.error), Success(ordered));
    } else {
      var o, a :| SortOutcome(ms, Success(o)) && Ran(init, s0, o, a, r, s);
      var p, b :| SortOutcome(ms, Success(p)) && Ran(init, s0, p, b, q, t);
      OutcomeUnique(ms, Success(o), Success(p));
      StartedUnique(init, s0, o, a, r, s, b, q, t);
    }
  }

  /**
   When a module's Init starts, every module it depends on, directly or through others, has already run and succeeded.
   */
  lemma DependenciesSucceededFirst<S, F>(
    ms: Registration<F>, init: InitFunction<S, F>, s0: S, ordered: seq<Module<F>>, started: int, r: ExecResult, s: S,
    k: int, a: nat, b: nat)
    requires SortOutcome(ms, Success(ordered)) && Ran(init, s0, ordered, started, r, s)
    requires 0 <= k < started && HasName(ms, a, Text.Trim(ordered[k].name)) && DependsTransitively(ms, a, b)
    ensures Live(ms, b)
    ensures exists j :: 0 <= j < k && ordered[j] == ModuleAt(ms, b) && OutcomeOf(init, s0, ordered, j) == Ok
  {
    var j := TransitiveDependencyComesFirst(ms, ordered, k, a, b);
  }

  /** On success every enabled module has run; on failure the reported one is the first that did not succeed. */
  lemma CompletedIffNoneFails<S, F(!new)>(
    ms: Registration<F>, init: InitFunction<S, F>, s0: S, r: ExecResult, s: S, ordered: seq<Module<F>>)
    requires ExecuteOutcome(ms, init, s0, r, s) && SortOutcome(ms, Success(ordered))
    ensures r == Completed <==> AllOkBefore(init, s0, ordered, |ordered|)
    ensures r.InitFailed? ==>
      exists k :: 0 <= k < |ordered| && AllOkBefore(init, s0, ordered, k)
                  && OutcomeOf(init, s0, ordered, k) == Err(r.message)
                  && Text.Trim(ordered[k].name) == r.name && s == StateAfter(init, s0, ordered, k + 1)
  {
    if r.SortFailed? {
      OutcomeUnique(ms, Failure(r.error), Success(ordered));
    } else {
      var o, started :| SortOutcome(ms, Success(o)) && Ran(init, s0, o, started, r, s);
      OutcomeUnique(ms, Success(o), Success(ordered));
      if r != Completed {
        assert OutcomeOf(init, s0, ordered, started - 1) != Ok;
      }
    }
  }
}
