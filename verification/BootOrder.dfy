/**
 What the declared dependencies of the default modules are worth by themselves: if the defaults were registered in any
 other order, and with other modules between them, Sort would still run each closure after what it needs.
 */
module BootOrder {
  import opened Wrappers
  import opened Modules
  import opened SortProperties
  import opened ModuleExec
  import opened Bootstrap
  import Text

  /** Default modules in any order, with any added modules among them; config, runtime-metadata and log are there. */
  ghost predicate AnyOrder(ms: Registration<Closure>) {
    && (forall i :: 0 <= i < |ms| && ms[i].Some? ==>
          ms[i].value.initFn.Extra? || ms[i].value == DefaultModule(ms[i].value.initFn))
    && Registered(ms, Config) && Registered(ms, RuntimeMetadata) && Registered(ms, Log)
  }

  ghost predicate Registered(ms: Registration<Closure>, c: Closure)
    requires !c.Extra?
  {
    exists i :: 0 <= i < |ms| && ms[i] == Some(DefaultModule(c))
  }

  lemma NameIsPlain(c: Closure)
    requires !c.Extra?
    ensures Text.Trim(DefaultModule(c).name) == NameOf(c)
  {
    PlainNameStays(NameOf(c));
  }

  /** A sorted module under the name of a registered default is that default. */
  lemma ByName(ms: Registration<Closure>, ordered: seq<Module<Closure>>, c: Closure, j: nat)
    requires SortOutcome(ms, Success(ordered)) && !c.Extra? && Registered(ms, c)
    requires j < |ordered| && Text.Trim(ordered[j].name) == NameOf(c)
    ensures ordered[j] == DefaultModule(c)
  {
    SortedOnceEach(ms, ordered);
    NameIsPlain(c);
    var i :| 0 <= i < |ms| && ms[i] == Some(DefaultModule(c));
    assert Live(ms, i);
    var k :| 0 <= k < |ordered| && ordered[k] == ModuleAt(ms, i);
  }

  /** What a default declares to depend on has been sorted before it. */
  lemma SortedBefore(ms: Registration<Closure>, ordered: seq<Module<Closure>>, k: nat, c: Closure) returns (j: nat)
    requires SortOutcome(ms, Success(ordered)) && !c.Extra? && Registered(ms, c) && k < |ordered|
    requires !ordered[k].initFn.Extra? && ordered[k] == DefaultModule(ordered[k].initFn)
    requires NameOf(c) in DependenciesOf(ordered[k].initFn)
    ensures j < k && ordered[j] == DefaultModule(c)
  {
    DependenciesArePlain(ordered[k].initFn);
    DependenciesComeFirst(ms, ordered, k, NameOf(c));
    var i: int :| 0 <= i < k && Text.Trim(ordered[i].name) == NameOf(c);
    ByName(ms, ordered, c, i);
    j := i;
  }

  /** What a closure that succeeds leaves behind stays. */
  ghost predicate Left<W>(c: Closure, w: World<W>) {
    && (c.Config? ==> w.cfg.Some?)
    && (c.Log? ==> w.logReady && w.globalLogger)
  }

  lemma LeftAndKept<W>(env: Environment<W>, w: World<W>, c: Closure, d: Closure)
    requires RunClosure(env, w, d).1 == Ok && (c == d || Left(c, w))
    ensures Left(c, RunClosure(env, w, d).0)
  {
  }

  lemma {:induction false} LeftBehind<W>(
    env: Environment<W>, outside: W, logger: bool, ordered: seq<Module<Closure>>, j: nat, k: nat)
    requires j < k <= |ordered| && AllOkBefore(Init(env), Start(outside, logger), ordered, k)
    ensures Left(ordered[j].initFn, StateAfter(Init(env), Start(outside, logger), ordered, k))
    decreases k
  {
    var init, w0 := Init(env), Start(outside, logger);
    if j < k - 1 { LeftBehind(env, outside, logger, ordered, j, k - 1); }
    InitAt(init, w0, ordered, k - 1, StateAfter(init, w0, ordered, k - 1));
    LeftAndKept(env, StateAfter(init, w0, ordered, k - 1), ordered[j].initFn, ordered[k - 1].initFn);
  }

  /** What each default needs: the configuration, the metadata before the logger, the logger. */
  predicate NeedsConfig(c: Closure) { !c.Config? && !c.Extra? && !c.Metrics? }

  predicate NeedsLogger(c: Closure) { NeedsConfig(c) && !c.RuntimeMetadata? && !c.Log? }

  lemma NeedsAreDeclared(c: Closure)
    requires !c.Extra?
    ensures NeedsConfig(c) ==> NameOf(Config) in DependenciesOf(c)
    ensures c.Log? ==> NameOf(RuntimeMetadata) in DependenciesOf(c)
    ensures NeedsLogger(c) || c.Metrics? ==> NameOf(Log) in DependenciesOf(c)
  {
  }

  lemma ProvidedNothingPanics<W>(env: Environment<W>, w: World<W>, c: Closure)
    requires !c.Extra? && !c.Pprof? && (NeedsConfig(c) ==> w.cfg.Some?) && (NeedsLogger(c) ==> w.globalLogger)
    ensures RunClosure(env, w, c).1 != Panic
  {
  }

  /**
   In whatever order the defaults are registered: when one of them starts, the configuration is there unless it is
   config or metrics; logging is there for every one after log; log runs after runtime-metadata; and none but pprof
   panics.
   */
  lemma DependenciesSuffice<W>(
    env: Environment<W>, ms: Registration<Closure>, outside: W, logger: bool, ordered: seq<Module<Closure>>,
    started: int, r: ExecResult, s: World<W>, k: nat)
    requires AnyOrder(ms) && SortOutcome(ms, Success(ordered))
    requires Ran(Init(env), Start(outside, logger), ordered, started, r, s) && k < started
    requires !ordered[k].initFn.Extra?
    ensures var w, c := StateAfter(Init(env), Start(outside, logger), ordered, k), ordered[k].initFn;
            && (!c.Config? && !c.Metrics? ==> w.cfg.Some?)
            && (!c.Config? && !c.RuntimeMetadata? && !c.Log? ==> w.logReady && w.globalLogger)
            && (c.Log? ==> exists j: nat :: j < k && ordered[j] == DefaultModule(RuntimeMetadata))
            && (!c.Pprof? ==> OutcomeOf(Init(env), Start(outside, logger), ordered, k) != Panic)
  {
    var c := ordered[k].initFn;
    IsDefault(ms, ordered, k);
    NeedsAreDeclared(c);
    if NeedsConfig(c) {
      var j := SortedBefore(ms, ordered, k, Config);
      LeftBehind(env, outside, logger, ordered, j, k);
    }
    if c.Log? {
      var j := SortedBefore(ms, ordered, k, RuntimeMetadata);
    }
    if NeedsLogger(c) || c.Metrics? {
      var j := SortedBefore(ms, ordered, k, Log);
      LeftBehind(env, outside, logger, ordered, j, k);
    }
    var w := StateAfter(Init(env), Start(outside, logger), ordered, k);
    InitAt(Init(env), Start(outside, logger), ordered, k, w);
    if !c.Pprof? { ProvidedNothingPanics(env, w, c); }
  }

  lemma IsDefault(ms: Registration<Closure>, ordered: seq<Module<Closure>>, k: nat)
    requires AnyOrder(ms) && SortOutcome(ms, Success(ordered)) && k < |ordered| && !ordered[k].initFn.Extra?
    ensures ordered[k] == DefaultModule(ordered[k].initFn)
  {
    SortedOnceEach(ms, ordered);
    assert ordered[k] in ordered && Some(ordered[k]) in ms;
  }
}
