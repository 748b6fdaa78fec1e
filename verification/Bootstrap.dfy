/**
 The bootstrap of service.Run: nine built-in modules whose Init closures share one state, followed by whatever modules
 the caller adds. Everything outside that state (environment, servers, the caller's closures) is an arbitrary world W
 with arbitrary reactions.
 */
module Bootstrap {
  import opened Wrappers
  import opened Modules
  import opened SortProperties
  import opened ModuleExec
  import Text

  /** The Init closures: the nine of buildDefaultInitModules, or one of the caller's. */
  datatype Closure =
    | Config | RuntimeMetadata | Log | Tracing | Redis | MySQL | Kafka | Metrics | Pprof
    | Extra(id: nat)

  /** What selectBootstrapInstance answers for a component's configured instances; see Instances. */
  datatype Selection = NotConfigured | Selected | Ambiguous(error: string)

  datatype AppConfig = AppConfig(
    appName: string, redis: Selection, mysql: Selection, kafkaConfigured: bool, pprofEnabled: bool, pprofMode: string)

  /**
   bootstrapState, the global logger (nil until log.InitLog has run) with the value it injects as _app, and the world
   outside.
   */
  datatype World<W> = World(
    cfg: Option<AppConfig>, globalLogger: bool, appField: string, logReady: bool, tracingReady: bool,
    registerRoutes: bool, stopPprof: bool, outside: W)

  /**
   How the outside reacts; None as an error means success. collectorRejected: registering the counter of dump failures
   fails otherwise than by its being there already, as when another metric has taken its name.
   */
  datatype Environment<!W> = Environment(
    load: W -> Option<AppConfig>,
    loadError: W -> string,
    getenv: (W, string) -> string,
    setenv: (W, string, string) -> W,
    tracingError: (W, Option<AppConfig>) -> Option<string>,
    redisError: (W, AppConfig) -> Option<string>,
    mysqlError: (W, AppConfig) -> Option<string>,
    collectorRejected: W -> bool,
    extra: (W, nat) -> (W, InitOutcome))

  function FromError(e: Option<string>): InitOutcome {
    match e
    case None => Ok
    case Some(message) => Err(message)
  }

  /** Redis and MySQL: nothing configured, an ambiguous choice, or a log line (on a nil logger a panic) and a dial. */
  function InitInstance(selection: Selection, logger: bool, dialError: Option<string>): InitOutcome {
    match selection
    case NotConfigured => Ok
    case Ambiguous(error) => Err(error)
    case Selected => if logger then FromError(dialError) else Panic
  }

  /** The value unless what is there is not blank. */
  function SetIfBlank<W>(env: Environment<W>, w: W, key: string, value: string): W {
    if Text.Trim(env.getenv(w, key)) == "" then env.setenv(w, key, value) else w
  }

  const APP_NAME := "APP_NAME"
  const SERVICE_ID := "SERVICE_ID"
  const OTEL_SERVICE_NAME := "OTEL_SERVICE_NAME"

  /** applyRuntimeMetadata for a configured application name. */
  function ApplyMetadata<W>(env: Environment<W>, w: W, name: string): W {
    SetIfBlank(env, SetIfBlank(env, env.setenv(w, APP_NAME, name), SERVICE_ID, name), OTEL_SERVICE_NAME, name)
  }

  function FirstNonEmpty(values: seq<string>): string {
    if values == [] then "" else if values[0] != "" then values[0] else FirstNonEmpty(values[1..])
  }

  /** The application name log.InitLog finds in the environment. */
  function AppName<W>(env: Environment<W>, w: W): string {
    FirstNonEmpty([Text.Trim(env.getenv(w, APP_NAME)), Text.Trim(env.getenv(w, SERVICE_ID)),
                   Text.Trim(env.getenv(w, OTEL_SERVICE_NAME))])
  }

  /** Any mode but "server", in whatever case and with whatever white space around it. */
  predicate Dynamic(cfg: AppConfig) { Text.ToLower(Text.Trim(cfg.pprofMode)) != "server" }

  // ---- The mode of pprof ----

  ghost predicate SpellsServer(word: string) {
    && |word| == 6 && word[0] in "sS" && word[1] in "eE" && word[2] in "rR" && word[3] in "vV" && word[4] in "eE"
    && word[5] in "rR"
  }

  ghost predicate SpeltAs(mode: string, left: string, word: string, right: string) {
    mode == left + word + right && Text.AllSpace(left) && Text.AllSpace(right) && SpellsServer(word)
  }

  /** The static mode is the word server in any mix of cases, with any white space around it; all others are dynamic. */
  lemma DynamicIff(cfg: AppConfig)
    ensures Dynamic(cfg) <==> !exists left, word, right :: SpeltAs(cfg.pprofMode, left, word, right)
  {
    if left, word, right :| SpeltAs(cfg.pprofMode, left, word, right) {
      Text.TrimAround(left, word, right);
      PlainNameStays(word);
      assert Text.ToLower(word) == "server";
    }
    if !Dynamic(cfg) {
      var left, right := Text.TrimSplits(cfg.pprofMode);
      var word := Text.Trim(cfg.pprofMode);
      LowerIsServer(word);
      assert SpeltAs(cfg.pprofMode, left, word, right);
    }
  }

  lemma LowerIsServer(word: string)
    requires Text.ToLower(word) == "server"
    ensures SpellsServer(word)
  {
    var low := Text.ToLower(word);
    assert low[0] == 's' && low[1] == 'e' && low[2] == 'r' && low[3] == 'v' && low[4] == 'e' && low[5] == 'r';
  }

  // ---- The closures ----

  function RunClosure<W>(env: Environment<W>, w: World<W>, c: Closure): (World<W>, InitOutcome) {
    match c
    case Config =>
      (match env.load(w.outside)
       case None =>
         (w.(globalLogger := true, appField := AppName(env, w.outside)), Err(env.loadError(w.outside)))
       case Some(cfg) => (w.(cfg := Some(cfg)), Ok))
    case RuntimeMetadata =>
      (if w.cfg.None? then w else w.(outside := ApplyMetadata(env, w.outside, w.cfg.value.appName)), Ok)
    case Log =>
      if w.cfg.None? then (w, Panic)
      else (w.(globalLogger := true, appField := AppName(env, w.outside), logReady := true), Ok)
    case Tracing =>
      if env.tracingError(w.outside, w.cfg).None? then (w.(tracingReady := true), Ok)
      else (w, if w.globalLogger then Ok else Panic)
    case Redis =>
      if w.cfg.None? then (w, Ok)
      else (w, InitInstance(w.cfg.value.redis, w.globalLogger, env.redisError(w.outside, w.cfg.value)))
    case MySQL =>
      if w.cfg.None? then (w, Ok)
      else (w, InitInstance(w.cfg.value.mysql, w.globalLogger, env.mysqlError(w.outside, w.cfg.value)))
    case Kafka =>
      (w, if w.cfg.Some? && w.cfg.value.kafkaConfigured && !w.globalLogger then Panic else Ok)
    case Metrics =>
      (w, Ok)
    case Pprof =>
      if w.cfg.None? || !w.cfg.value.pprofEnabled then (w, Ok)
      else
        var dynamic := Dynamic(w.cfg.value);
        if dynamic && env.collectorRejected(w.outside) then (w, Panic)
        else (w.(registerRoutes := dynamic, stopPprof := dynamic), Ok)
    case Extra(id) =>
      var (outside, outcome) := env.extra(w.outside, id);
      (w.(outside := outside), outcome)
  }

  function Init<W>(env: Environment<W>): InitFunction<World<W>, Closure> {
    (w: World<W>, c: Closure) => RunClosure(env, w, c)
  }

  function Start<W>(outside: W, globalLogger: bool): World<W> {
    World(None, globalLogger, "", false, false, false, false, outside)
  }

  const CONFIG := "config"
  const RUNTIME_METADATA := "runtime-metadata"
  const LOG := "log"
  const TRACING := "tracing"
  const REDIS := "redis"
  const MYSQL := "mysql"
  const KAFKA := "kafka"
  const METRICS := "metrics"
  const PPROF := "pprof"

  function NameOf(c: Closure): string
    requires !c.Extra?
  {
    match c
    case Config => CONFIG
    case RuntimeMetadata => RUNTIME_METADATA
    case Log => LOG
    case Tracing => TRACING
    case Redis => REDIS
    case MySQL => MYSQL
    case Kafka => KAFKA
    case Metrics => METRICS
    case Pprof => PPROF
  }

  function DependenciesOf(c: Closure): seq<string>
    requires !c.Extra?
  {
    match c
    case Config => []
    case RuntimeMetadata => [CONFIG]
    case Log => [CONFIG, RUNTIME_METADATA]
    case Metrics => [LOG]
    case _ => [CONFIG, LOG]
  }

  function DefaultModule(c: Closure): Module<Closure>
    requires !c.Extra?
  {
    NewModuleWrapper(NameOf(c), c, DependenciesOf(c))
  }

  const DEFAULT_CLOSURES := [Config, RuntimeMetadata, Log, Tracing, Redis, MySQL, Kafka, Metrics, Pprof]

  /** buildDefaultInitModules */
  function DefaultModules(): (r: seq<Module<Closure>>)
    ensures |r| == 9 && forall i :: 0 <= i < 9 ==> r[i] == DefaultModule(DEFAULT_CLOSURES[i])
  {
    seq(9, i requires 0 <= i < 9 => DefaultModule(DEFAULT_CLOSURES[i]))
  }

  /** The caller's modules carry the caller's closures; nil entries are allowed. */
  predicate CallerModules(extras: Registration<Closure>) {
    forall i :: 0 <= i < |extras| ==> extras[i].None? || extras[i].value.initFn.Extra?
  }

  /** The argument of module.Execute in Run. */
  function RunModules(extras: Registration<Closure>): Registration<Closure> {
    AsRegistration(DefaultModules()) + extras
  }

  /** service.Run up to the point where it serves: Execute on the composed list, from a fresh bootstrapState. */
  method Run<W>(env: Environment<W>, extras: Registration<Closure>, outside: W, globalLogger: bool)
    returns (r: ExecResult, s: World<W>)
    ensures ExecuteOutcome(RunModules(extras), Init(env), Start(outside, globalLogger), r, s)
  {
    r, s := Execute(RunModules(extras), Init(env), Start(outside, globalLogger));
  }

  // ---- The default modules come first, in declaration order ----

  ghost predicate Plain(name: string) {
    name != "" && Text.IsTrimmed(name)
  }

  lemma NamesArePlain()
    ensures Plain(CONFIG) && Plain(RUNTIME_METADATA) && Plain(LOG)
    ensures CONFIG != RUNTIME_METADATA && CONFIG != LOG
  {
    assert |CONFIG| != |RUNTIME_METADATA| && |CONFIG| != |LOG|;
  }

  lemma PlainNameStays(name: string)
    requires Plain(name)
    ensures Text.Trim(name) == name
  {
    var left, right := Text.TrimSplits(name);
  }

  lemma DependenciesArePlain(c: Closure)
    requires !c.Extra?
    ensures Normalized(DependenciesOf(c)) == DependenciesOf(c)
  {
    NamesArePlain();
    NormalizedOfNormal(DependenciesOf(c));
  }

  /** A default module as Sort reads it. */
  lemma DefaultInList(extras: Registration<Closure>, i: nat)
    requires i < 9
    ensures Live(RunModules(extras), i)
    ensures DependenciesAt(RunModules(extras), i) == DependenciesOf(DEFAULT_CLOSURES[i])
    ensures Plain(NameOf(DEFAULT_CLOSURES[i])) ==> NameAt(RunModules(extras), i) == NameOf(DEFAULT_CLOSURES[i])
  {
    var c := DEFAULT_CLOSURES[i];
    assert RunModules(extras)[i] == Some(DefaultModules()[i]);
    DependenciesArePlain(c);
    if Plain(NameOf(c)) { PlainNameStays(NameOf(c)); }
  }

  lemma DependsOnEarlierDefaults(i: nat, d: string)
    requires i < 9 && d in DependenciesOf(DEFAULT_CLOSURES[i])
    ensures (d == CONFIG && i > 0) || (d == RUNTIME_METADATA && i > 1) || (d == LOG && i > 2)
  {
  }

  lemma DefaultNamesDiffer()
    ensures forall i, j :: 0 <= i < j < 9 ==> NameOf(DEFAULT_CLOSURES[i]) != NameOf(DEFAULT_CLOSURES[j])
    ensures forall i :: 0 <= i < 9 ==> Plain(NameOf(DEFAULT_CLOSURES[i]))
  {
    assert TRACING[0] != METRICS[0];
    assert REDIS[0] == 'r' && MYSQL[0] == 'm' && KAFKA[0] == 'k' && PPROF[0] == 'p';
  }

  lemma DefaultsNamed(extras: Registration<Closure>, i: nat)
    requires i < 9
    ensures Live(RunModules(extras), i) && NameAt(RunModules(extras), i) == NameOf(DEFAULT_CLOSURES[i])
  {
    DefaultNamesDiffer();
    DefaultInList(extras, i);
  }

  lemma FirstThreeNamed(extras: Registration<Closure>)
    ensures var ms := RunModules(extras);
            HasName(ms, 0, CONFIG) && HasName(ms, 1, RUNTIME_METADATA) && HasName(ms, 2, LOG)
  {
    DefaultsNamed(extras, 0);
    DefaultsNamed(extras, 1);
    DefaultsNamed(extras, 2);
  }

  lemma DefaultsInOrder(extras: Registration<Closure>)
    ensures InDependencyOrder(RunModules(extras), 9)
  {
    var ms := RunModules(extras);
    FirstThreeNamed(extras);
    forall i: nat | i < 9 ensures Live(ms, i) {
      DefaultInList(extras, i);
    }
    forall i: nat, d | i < 9 && d in DependenciesAt(ms, i) ensures exists j :: j < i && HasName(ms, j, d) {
      DefaultInList(extras, i);
      DependsOnEarlierDefaults(i, d);
    }
  }

  /** For every list of added modules that sorts, the nine defaults run first, in declaration order. */
  lemma DefaultsComeFirst(extras: Registration<Closure>, ordered: seq<Module<Closure>>)
    requires SortOutcome(RunModules(extras), Success(ordered))
    ensures |ordered| >= 9 && ordered[..9] == DefaultModules()
    ensures CallerModules(extras) ==> forall k :: 9 <= k < |ordered| ==> ordered[k].initFn.Extra?
  {
    var ms := RunModules(extras);
    DefaultsInOrder(extras);
    OrderedPrefixStays(ms, 9, ordered);
    forall k | 0 <= k < 9 ensures ordered[k] == DefaultModules()[k] {
      assert ms[k] == Some(DefaultModules()[k]);
    }
    if CallerModules(extras) {
      forall k | 9 <= k < |ordered| ensures ordered[k].initFn.Extra? {
        NotADefault(extras, ordered, k);
      }
    }
  }

  lemma NotADefault(extras: Registration<Closure>, ordered: seq<Module<Closure>>, k: int)
    requires SortOutcome(RunModules(extras), Success(ordered)) && CallerModules(extras)
    requires 9 <= k < |ordered| && ordered[..9] == DefaultModules()
    ensures ordered[k].initFn.Extra?
  {
    var ms := RunModules(extras);
    var i := RegisteredAt(ms, ordered, k);
    if i < 9 {
      assert ordered[i] == ordered[..9][i] == ordered[k];
      NamesDiffer(ms, ordered, i, k);
    }
    assert i >= 9 ==> extras[i - 9] == ms[i];
  }

  lemma RegisteredAt(ms: Registration<Closure>, ordered: seq<Module<Closure>>, k: int) returns (i: nat)
    requires SortOutcome(ms, Success(ordered)) && 0 <= k < |ordered|
    ensures i < |ms| && ms[i] == Some(ordered[k])
  {
    SortedOnceEach(ms, ordered);
    assert ordered[k] in ordered;
    i :| 0 <= i < |ms| && ms[i] == Some(ordered[k]);
  }

  lemma NamesDiffer(ms: Registration<Closure>, ordered: seq<Module<Closure>>, j: int, k: int)
    requires SortOutcome(ms, Success(ordered)) && 0 <= j < k < |ordered|
    ensures ordered[j] != ordered[k]
  {
    SortedOnceEach(ms, ordered);
  }

  // ---- What the closures find when they run ----

  /** Of the defaults only runtime-metadata changes the outside. */
  function OutsideAfter<W>(env: Environment<W>, outside: W, n: nat): W {
    if n < 2 || env.load(outside).None? then outside else ApplyMetadata(env, outside, env.load(outside).value.appName)
  }

  /** The bootstrap state once the first n modules of a sorted list have succeeded. */
  ghost predicate BootedTo<W>(env: Environment<W>, outside: W, n: nat, w: World<W>) {
    && (w.cfg == if n >= 1 then env.load(outside) else None)
    && (n >= 1 ==> w.cfg.Some?)
    && (w.logReady <==> n >= 3)
    && (n >= 3 ==> w.globalLogger && w.appField == AppName(env, OutsideAfter(env, outside, 9)))
    && (w.tracingReady <==> n >= 4 && env.tracingError(OutsideAfter(env, outside, 9), w.cfg).None?)
    && (w.registerRoutes <==> n >= 9 && w.cfg.value.pprofEnabled && Dynamic(w.cfg.value))
    && (n <= 9 ==> w.outside == OutsideAfter(env, outside, n))
    && (w.stopPprof <==> w.registerRoutes)
  }

  /** The closures of a list of the shape that DefaultsComeFirst gives it. */
  ghost predicate DefaultsThenExtras(ordered: seq<Module<Closure>>) {
    && |ordered| >= 9
    && (forall i :: 0 <= i < 9 ==> ordered[i].initFn == DEFAULT_CLOSURES[i])
    && (forall i :: 9 <= i < |ordered| ==> ordered[i].initFn.Extra?)
  }

  lemma SortedShape(extras: Registration<Closure>, ordered: seq<Module<Closure>>)
    requires SortOutcome(RunModules(extras), Success(ordered)) && CallerModules(extras)
    ensures DefaultsThenExtras(ordered) && ordered[..9] == DefaultModules()
  {
    DefaultsComeFirst(extras, ordered);
    PrefixEntries(ordered);
  }

  lemma PrefixEntries(ordered: seq<Module<Closure>>)
    requires |ordered| >= 9 && ordered[..9] == DefaultModules()
    ensures forall i :: 0 <= i < 9 ==> ordered[i] == DefaultModule(DEFAULT_CLOSURES[i])
  {
    forall i | 0 <= i < 9 ensures ordered[i] == DefaultModule(DEFAULT_CLOSURES[i]) {
      assert ordered[i] == ordered[..9][i];
    }
  }

  lemma PrefixEntry(ordered: seq<Module<Closure>>, i: nat, c: Closure)
    requires |ordered| >= 9 && ordered[..9] == DefaultModules() && i < 9 && c == DEFAULT_CLOSURES[i]
    ensures ordered[i] == DefaultModule(c)
  {
    assert ordered[i] == ordered[..9][i];
  }

  const DEFAULT_NAMES := [
    "config", "runtime-metadata", "log", "tracing", "redis", "mysql", "kafka", "metrics", "pprof"]

  /** The names under which added modules can depend on the defaults. */
  lemma DefaultsUnderTheirNames(ordered: seq<Module<Closure>>, i: nat)
    requires |ordered| >= 9 && ordered[..9] == DefaultModules() && i < 9
    ensures ordered[i].name == DEFAULT_NAMES[i]
  {
    PrefixEntry(ordered, i, DEFAULT_CLOSURES[i]);
    DefaultNamesDiffer();
    PlainNameStays(NameOf(DEFAULT_CLOSURES[i]));
    LiteralName(i);
  }

  lemma LiteralName(i: nat)
    requires i < 9
    ensures NameOf(DEFAULT_CLOSURES[i]) == DEFAULT_NAMES[i]
  {
  }

  ghost predicate ExtraPanics<W>(env: Environment<W>, outside: W, id: nat) {
    env.extra(outside, id).1 == Panic
  }

  /** Dynamic pprof is enabled and the registry will not take its counter when its module runs. */
  ghost predicate PprofRejected<W>(env: Environment<W>, outside: W) {
    var cfg := env.load(outside);
    cfg.Some? && cfg.value.pprofEnabled && Dynamic(cfg.value) && env.collectorRejected(OutsideAfter(env, outside, 9))
  }

  /** One closure, at its place in the order. */
  lemma BootStep<W>(env: Environment<W>, outside: W, n: nat, w: World<W>, c: Closure)
    requires BootedTo(env, outside, n, w)
    requires if n < 9 then c == DEFAULT_CLOSURES[n] else c.Extra?
    ensures RunClosure(env, w, c).1 == Ok ==> BootedTo(env, outside, n + 1, RunClosure(env, w, c).0)
    ensures RunClosure(env, w, c).1 == Panic <==>
              if n < 9 then c.Pprof? && PprofRejected(env, outside) else ExtraPanics(env, w.outside, c.id)
  {
  }

  lemma {:induction false} BootedAfter<W>(
    env: Environment<W>, outside: W, logger: bool, ordered: seq<Module<Closure>>, n: nat)
    requires DefaultsThenExtras(ordered) && n <= |ordered|
    requires AllOkBefore(Init(env), Start(outside, logger), ordered, n)
    ensures BootedTo(env, outside, n, StateAfter(Init(env), Start(outside, logger), ordered, n))
    decreases n
  {
    if n > 0 {
      BootedAfter(env, outside, logger, ordered, n - 1);
      var w := StateAfter(Init(env), Start(outside, logger), ordered, n - 1);
      assert OutcomeOf(Init(env), Start(outside, logger), ordered, n - 1) == Ok;
      BootStep(env, outside, n - 1, w, ordered[n - 1].initFn);
    }
  }

  /**
   For every list of added modules and every reaction of the outside: whenever a module other than config starts, the
   configuration has been loaded; whenever one after log starts, logging is ready; and a default closure panics
   exactly when it is pprof and the registry rejects its counter.
   */
  lemma DefaultsAreSafe<W>(
    env: Environment<W>, extras: Registration<Closure>, outside: W, logger: bool,
    ordered: seq<Module<Closure>>, started: int, r: ExecResult, s: World<W>, k: nat)
    requires CallerModules(extras) && SortOutcome(RunModules(extras), Success(ordered))
    requires Ran(Init(env), Start(outside, logger), ordered, started, r, s) && k < started
    ensures var w := StateAfter(Init(env), Start(outside, logger), ordered, k);
            && (k >= 1 ==> w.cfg.Some? && w.cfg == env.load(outside))
            && (k >= 3 ==> w.logReady && w.globalLogger)
    ensures !ordered[k].initFn.Extra? ==>
              (OutcomeOf(Init(env), Start(outside, logger), ordered, k) == Panic <==>
               ordered[k].initFn.Pprof? && PprofRejected(env, outside))
  {
    SortedShape(extras, ordered);
    var init, w0 := Init(env), Start(outside, logger);
    assert AllOkBefore(init, w0, ordered, k);
    BootedAfter(env, outside, logger, ordered, k);
    BootStep(env, outside, k, StateAfter(init, w0, ordered, k), ordered[k].initFn);
  }

  /** Everything before module k of the sorted list succeeded and k panicked: pprof, rejected, or an added module. */
  ghost predicate PanickedAt<W>(
    env: Environment<W>, extras: Registration<Closure>, outside: W, logger: bool, ordered: seq<Module<Closure>>, k: int)
  {
    && SortOutcome(RunModules(extras), Success(ordered)) && 0 <= k < |ordered|
    && AllOkBefore(Init(env), Start(outside, logger), ordered, k)
    && OutcomeOf(Init(env), Start(outside, logger), ordered, k) == Panic
    && (if k < 9 then ordered[k].initFn.Pprof? && PprofRejected(env, outside) else ordered[k].initFn.Extra?)
  }

  lemma PanicOrigin<W>(
    env: Environment<W>, extras: Registration<Closure>, outside: W, logger: bool, s: World<W>)
    requires CallerModules(extras)
    requires ExecuteOutcome(RunModules(extras), Init(env), Start(outside, logger), Panicked, s)
    ensures exists ordered, k :: PanickedAt(env, extras, outside, logger, ordered, k)
  {
    var ordered: seq<Module<Closure>>, started :| SortOutcome(RunModules(extras), Success(ordered))
                            && Ran(Init(env), Start(outside, logger), ordered, started, Panicked, s);
    SortedShape(extras, ordered);
    PanicAt(env, outside, logger, ordered, started, s);
    assert PanickedAt(env, extras, outside, logger, ordered, started - 1);
  }

  lemma PanicAt<W>(
    env: Environment<W>, outside: W, logger: bool, ordered: seq<Module<Closure>>, started: int, s: World<W>)
    requires DefaultsThenExtras(ordered)
    requires Ran(Init(env), Start(outside, logger), ordered, started, Panicked, s)
    ensures if started <= 9 then ordered[started - 1].initFn.Pprof? && PprofRejected(env, outside)
            else ordered[started - 1].initFn.Extra?
  {
    var k := started - 1;
    BootedAfter(env, outside, logger, ordered, k);
    var w, c := StateAfter(Init(env), Start(outside, logger), ordered, k), ordered[k].initFn;
    assert RunClosure(env, w, c).1 == OutcomeOf(Init(env), Start(outside, logger), ordered, k);
    BootStep(env, outside, k, w, c);
  }

  // ---- How a bootstrap ends ----

  /** A component that is configured ambiguously, or chosen and cannot be reached, does not come up. */
  ghost predicate InstanceFails(selection: Selection, dialError: Option<string>) {
    selection.Ambiguous? || (selection.Selected? && dialError.Some?)
  }

  ghost predicate RedisFails<W>(env: Environment<W>, outside: W, cfg: AppConfig) {
    InstanceFails(cfg.redis, env.redisError(OutsideAfter(env, outside, 9), cfg))
  }

  ghost predicate MySQLFails<W>(env: Environment<W>, outside: W, cfg: AppConfig) {
    InstanceFails(cfg.mysql, env.mysqlError(OutsideAfter(env, outside, 9), cfg))
  }

  /** The configuration loads and no default before pprof fails. */
  ghost predicate ReachesPprof<W>(env: Environment<W>, outside: W) {
    var cfg := env.load(outside);
    cfg.Some? && !RedisFails(env, outside, cfg.value) && !MySQLFails(env, outside, cfg.value)
  }

  /** What default n returns when its turn comes. */
  ghost function DefaultOutcome<W>(env: Environment<W>, outside: W, cfg: AppConfig, n: nat): InitOutcome {
    var after := OutsideAfter(env, outside, 9);
    if n == 4 then InitInstance(cfg.redis, true, env.redisError(after, cfg))
    else if n == 5 then InitInstance(cfg.mysql, true, env.mysqlError(after, cfg))
    else if n == 8 && PprofRejected(env, outside) then Panic
    else Ok
  }

  ghost predicate DefaultsOk<W>(env: Environment<W>, outside: W, cfg: AppConfig, n: nat) {
    forall j: nat :: j < n ==> DefaultOutcome(env, outside, cfg, j) == Ok
  }

  lemma DefaultReturns<W>(env: Environment<W>, outside: W, cfg: AppConfig, n: nat, w: World<W>)
    requires BootedTo(env, outside, n, w) && n < 9 && env.load(outside) == Some(cfg)
    ensures RunClosure(env, w, DEFAULT_CLOSURES[n]).1 == DefaultOutcome(env, outside, cfg, n)
    ensures n >= 2 ==> RunClosure(env, w, DEFAULT_CLOSURES[n]).0.outside == OutsideAfter(env, outside, 9)
  {
  }

  lemma DefaultReturnsAt<W>(
    env: Environment<W>, outside: W, logger: bool, cfg: AppConfig, ordered: seq<Module<Closure>>, n: nat)
    requires DefaultsThenExtras(ordered) && n < 9 && env.load(outside) == Some(cfg)
    requires AllOkBefore(Init(env), Start(outside, logger), ordered, n)
    ensures OutcomeOf(Init(env), Start(outside, logger), ordered, n) == DefaultOutcome(env, outside, cfg, n)
    ensures n >= 2 ==>
              StateAfter(Init(env), Start(outside, logger), ordered, n + 1).outside == OutsideAfter(env, outside, 9)
  {
    var w := StateAfter(Init(env), Start(outside, logger), ordered, n);
    BootedAfter(env, outside, logger, ordered, n);
    DefaultReturns(env, outside, cfg, n, w);
    InitAt(Init(env), Start(outside, logger), ordered, n, w);
  }

  lemma {:induction false} DefaultsPass<W>(
    env: Environment<W>, outside: W, logger: bool, cfg: AppConfig, ordered: seq<Module<Closure>>, n: nat)
    requires DefaultsThenExtras(ordered) && n <= 9 && env.load(outside) == Some(cfg)
    requires DefaultsOk(env, outside, cfg, n)
    ensures AllOkBefore(Init(env), Start(outside, logger), ordered, n)
  {
    if n > 0 {
      DefaultsPass(env, outside, logger, cfg, ordered, n - 1);
      DefaultReturnsAt(env, outside, logger, cfg, ordered, n - 1);
      OneMoreOk(Init(env), Start(outside, logger), ordered, n - 1);
    }
  }

  /** The first default that fails ends Execute, and nothing after it runs. */
  lemma StopsAt<W>(
    env: Environment<W>, outside: W, logger: bool, cfg: AppConfig, ordered: seq<Module<Closure>>, n: nat,
    started: int, r: ExecResult, s: World<W>)
    requires DefaultsThenExtras(ordered) && 2 <= n < 9 && env.load(outside) == Some(cfg)
    requires DefaultsOk(env, outside, cfg, n) && !DefaultOutcome(env, outside, cfg, n).Ok?
    requires Ran(Init(env), Start(outside, logger), ordered, started, r, s)
    ensures r == EndOf(ordered[n], DefaultOutcome(env, outside, cfg, n))
    ensures started == n + 1 && s.outside == OutsideAfter(env, outside, 9)
  {
    var init, w0 := Init(env), Start(outside, logger);
    DefaultsPass(env, outside, logger, cfg, ordered, n);
    DefaultReturnsAt(env, outside, logger, cfg, ordered, n);
    var end := EndOf(ordered[n], DefaultOutcome(env, outside, cfg, n));
    StartedUnique(init, w0, ordered, started, r, s, n + 1, end, StateAfter(init, w0, ordered, n + 1));
  }

  /** All defaults have succeeded, and everything has, or the first added module that did not is what is reported. */
  ghost predicate EndsInExtras<W>(
    env: Environment<W>, outside: W, logger: bool, ordered: seq<Module<Closure>>, started: int, r: ExecResult)
  {
    && 9 <= started <= |ordered|
    && (r == Completed ||
        (9 < started && AllOkBefore(Init(env), Start(outside, logger), ordered, started - 1) &&
         var outcome := OutcomeOf(Init(env), Start(outside, logger), ordered, started - 1);
         !outcome.Ok? && r == EndOf(ordered[started - 1], outcome)))
  }

  /** What is reported of a component that does not come up: the ambiguity, or the error of the dial. */
  ghost predicate Reports(name: string, selection: Selection, dialError: Option<string>, r: ExecResult) {
    match selection
    case NotConfigured => false
    case Ambiguous(error) => r == InitFailed(name, error)
    case Selected => dialError.Some? && r == InitFailed(name, dialError.value)
  }

  /** How a run ends that sorts and whose configuration loads, by the selections and the answers of the outside. */
  ghost predicate EndsAs<W>(
    env: Environment<W>, outside: W, logger: bool, cfg: AppConfig, ordered: seq<Module<Closure>>, started: int,
    r: ExecResult, s: World<W>)
  {
    var after := OutsideAfter(env, outside, 9);
    var noneAdded := started <= 9 && s.outside == after;
    if RedisFails(env, outside, cfg) then Reports("redis", cfg.redis, env.redisError(after, cfg), r) && noneAdded
    else if MySQLFails(env, outside, cfg) then Reports("mysql", cfg.mysql, env.mysqlError(after, cfg), r) && noneAdded
    else if PprofRejected(env, outside) then r == Panicked && noneAdded
    else EndsInExtras(env, outside, logger, ordered, started, r)
  }

  lemma FailureReported(
    name: string, selection: Selection, dialError: Option<string>, r: ExecResult, m: Module<Closure>)
    requires Text.Trim(m.name) == name && InstanceFails(selection, dialError)
    requires var outcome := InitInstance(selection, true, dialError); !outcome.Ok? && r == EndOf(m, outcome)
    ensures Reports(name, selection, dialError, r)
  {
  }

  lemma RedisStops<W>(
    env: Environment<W>, outside: W, logger: bool, cfg: AppConfig, ordered: seq<Module<Closure>>, started: int,
    r: ExecResult, s: World<W>)
    requires DefaultsThenExtras(ordered) && env.load(outside) == Some(cfg) && RedisFails(env, outside, cfg)
    requires ordered[4] == DefaultModule(Redis) && Ran(Init(env), Start(outside, logger), ordered, started, r, s)
    ensures EndsAs(env, outside, logger, cfg, ordered, started, r, s)
  {
    ReportedNames();
    StopsAt(env, outside, logger, cfg, ordered, 4, started, r, s);
    FailureReported("redis", cfg.redis, env.redisError(OutsideAfter(env, outside, 9), cfg), r, ordered[4]);
  }

  lemma MySQLStops<W>(
    env: Environment<W>, outside: W, logger: bool, cfg: AppConfig, ordered: seq<Module<Closure>>, started: int,
    r: ExecResult, s: World<W>)
    requires DefaultsThenExtras(ordered) && env.load(outside) == Some(cfg)
    requires !RedisFails(env, outside, cfg) && MySQLFails(env, outside, cfg)
    requires ordered[5] == DefaultModule(MySQL) && Ran(Init(env), Start(outside, logger), ordered, started, r, s)
    ensures EndsAs(env, outside, logger, cfg, ordered, started, r, s)
  {
    ReportedNames();
    StopsAt(env, outside, logger, cfg, ordered, 5, started, r, s);
    FailureReported("mysql", cfg.mysql, env.mysqlError(OutsideAfter(env, outside, 9), cfg), r, ordered[5]);
  }

  lemma PprofStops<W>(
    env: Environment<W>, outside: W, logger: bool, cfg: AppConfig, ordered: seq<Module<Closure>>, started: int,
    r: ExecResult, s: World<W>)
    requires DefaultsThenExtras(ordered) && env.load(outside) == Some(cfg)
    requires ReachesPprof(env, outside) && PprofRejected(env, outside)
    requires Ran(Init(env), Start(outside, logger), ordered, started, r, s)
    ensures EndsAs(env, outside, logger, cfg, ordered, started, r, s)
  {
    StopsAt(env, outside, logger, cfg, ordered, 8, started, r, s);
  }

  lemma PastDefaults<W>(
    env: Environment<W>, outside: W, logger: bool, cfg: AppConfig, ordered: seq<Module<Closure>>,
    started: int, r: ExecResult, s: World<W>)
    requires DefaultsThenExtras(ordered) && env.load(outside) == Some(cfg)
    requires Ran(Init(env), Start(outside, logger), ordered, started, r, s)
    requires !RedisFails(env, outside, cfg) && !MySQLFails(env, outside, cfg) && !PprofRejected(env, outside)
    ensures EndsAs(env, outside, logger, cfg, ordered, started, r, s)
  {
    DefaultsPass(env, outside, logger, cfg, ordered, 9);
  }

  /** An added module runs on the outside as it finds it, and changes nothing else; what it returns is its outcome. */
  lemma AddedModuleRuns<W>(
    env: Environment<W>, outside: W, logger: bool, ordered: seq<Module<Closure>>, k: nat)
    requires k < |ordered| && ordered[k].initFn.Extra?
    ensures var before, after := StateAfter(Init(env), Start(outside, logger), ordered, k),
                                 StateAfter(Init(env), Start(outside, logger), ordered, k + 1);
            && env.extra(before.outside, ordered[k].initFn.id) ==
               (after.outside, OutcomeOf(Init(env), Start(outside, logger), ordered, k))
            && after == before.(outside := after.outside)
  {
  }

  /**
   The outcome of Run, for every list of added modules that sorts and every configuration that loads: an ambiguous
   choice or a failed dial of Redis is what is reported; of MySQL, once Redis has passed; a rejected counter panics
   once both have; in each case no added module runs. Otherwise nothing but an added module keeps it from completing.
   */
  lemma RunResult<W>(
    env: Environment<W>, extras: Registration<Closure>, outside: W, logger: bool, cfg: AppConfig,
    ordered: seq<Module<Closure>>, started: int, r: ExecResult, s: World<W>)
    requires CallerModules(extras) && env.load(outside) == Some(cfg)
    requires SortOutcome(RunModules(extras), Success(ordered))
    requires Ran(Init(env), Start(outside, logger), ordered, started, r, s)
    ensures EndsAs(env, outside, logger, cfg, ordered, started, r, s)
  {
    SortedShape(extras, ordered);
    RedisPlaced(ordered);
    MySQLPlaced(ordered);
    RanEndsAs(env, outside, logger, cfg, ordered, started, r, s);
  }

  lemma RedisPlaced(ordered: seq<Module<Closure>>)
    requires |ordered| >= 9 && ordered[..9] == DefaultModules()
    ensures ordered[4] == DefaultModule(Redis)
  {
    PrefixEntry(ordered, 4, Redis);
  }

  lemma MySQLPlaced(ordered: seq<Module<Closure>>)
    requires |ordered| >= 9 && ordered[..9] == DefaultModules()
    ensures ordered[5] == DefaultModule(MySQL)
  {
    PrefixEntry(ordered, 5, MySQL);
  }

  lemma RanEndsAs<W>(
    env: Environment<W>, outside: W, logger: bool, cfg: AppConfig, ordered: seq<Module<Closure>>, started: int,
    r: ExecResult, s: World<W>)
    requires DefaultsThenExtras(ordered) && env.load(outside) == Some(cfg)
    requires ordered[4] == DefaultModule(Redis) && ordered[5] == DefaultModule(MySQL)
    requires Ran(Init(env), Start(outside, logger), ordered, started, r, s)
    ensures EndsAs(env, outside, logger, cfg, ordered, started, r, s)
  {
    if RedisFails(env, outside, cfg) {
      RedisStops(env, outside, logger, cfg, ordered, started, r, s);
    } else if MySQLFails(env, outside, cfg) {
      MySQLStops(env, outside, logger, cfg, ordered, started, r, s);
    } else if PprofRejected(env, outside) {
      PprofStops(env, outside, logger, cfg, ordered, started, r, s);
    } else {
      PastDefaults(env, outside, logger, cfg, ordered, started, r, s);
    }
  }

  lemma ReportedNames()
    ensures Text.Trim(DefaultModule(Redis).name) == "redis" && Text.Trim(DefaultModule(MySQL).name) == "mysql"
  {
    PlainNameStays("redis");
    PlainNameStays("mysql");
  }

  /**
   A rejected counter stops the bootstrap: whatever modules are added, if they sort and nothing before pprof fails,
   Execute panics there, and no added module runs.
   */
  lemma RejectedCollectorPanics<W>(
    env: Environment<W>, extras: Registration<Closure>, outside: W, logger: bool, r: ExecResult, s: World<W>)
    requires CallerModules(extras) && ReachesPprof(env, outside) && PprofRejected(env, outside)
    requires ExecuteOutcome(RunModules(extras), Init(env), Start(outside, logger), r, s) && !r.SortFailed?
    ensures r == Panicked && s.outside == OutsideAfter(env, outside, 9)
  {
    var ordered: seq<Module<Closure>>, started :| SortOutcome(RunModules(extras), Success(ordered))
                            && Ran(Init(env), Start(outside, logger), ordered, started, r, s);
    RunResult(env, extras, outside, logger, env.load(outside).value, ordered, started, r, s);
  }

  lemma NamesValidByNames(ms: Registration<Closure>)
    requires |ms| == 9 && forall i :: 0 <= i < 9 ==> Live(ms, i) && NameAt(ms, i) == NameOf(DEFAULT_CLOSURES[i])
    ensures NamesValid(ms, |ms|)
  {
    DefaultNamesDiffer();
  }

  lemma DefaultNamesValid(extras: Registration<Closure>)
    requires extras == []
    ensures |RunModules(extras)| == 9 && NamesValid(RunModules(extras), |RunModules(extras)|)
  {
    forall i: nat | i < 9
      ensures Live(RunModules(extras), i) && NameAt(RunModules(extras), i) == NameOf(DEFAULT_CLOSURES[i])
    {
      DefaultsNamed(extras, i);
    }
    NamesValidByNames(RunModules(extras));
  }

  /** The defaults on their own always sort. */
  lemma DefaultsSort(extras: Registration<Closure>, r: Result<seq<Module<Closure>>, SortError>)
    requires SortOutcome(RunModules(extras), r) && extras == []
    ensures r.Success?
  {
    DefaultNamesValid(extras);
    DefaultsInOrder(extras);
    SortOfOrderedList(RunModules(extras), r);
  }

  /** An outside in which everything works, dynamic pprof is enabled, and the counter's name is taken. */
  function NameTaken(): Environment<()> {
    Environment(_ => Some(AppConfig("svc", NotConfigured, NotConfigured, false, true, "dynamic")), _ => "",
                (_, _) => "", (w, _, _) => w, (_, _) => None, (_, _) => None, (_, _) => None,
                _ => true, (w, _) => (w, Ok))
  }

  lemma NameTakenIsRejected()
    ensures ReachesPprof(NameTaken(), ()) && PprofRejected(NameTaken(), ())
  {
    PlainNameStays("dynamic");
    assert |Text.ToLower("dynamic")| == |"dynamic"| && |"dynamic"| != |"server"|;
  }

  /** There a service without modules of its own does not come up. */
  lemma NameTakenPanics(extras: Registration<Closure>, r: ExecResult, s: World<()>)
    requires ExecuteOutcome(RunModules(extras), Init(NameTaken()), Start((), false), r, s) && extras == []
    ensures r == Panicked
  {
    if r.SortFailed? {
      DefaultsSort(extras, Failure(r.error));
    } else {
      NameTakenIsRejected();
      RejectedCollectorPanics(NameTaken(), extras, (), false, r, s);
    }
  }

  /** A service without modules of its own comes up exactly when nothing of that happens. */
  lemma BareServiceComesUpIff<W>(
    env: Environment<W>, extras: Registration<Closure>, outside: W, logger: bool, r: ExecResult, s: World<W>)
    requires ExecuteOutcome(RunModules(extras), Init(env), Start(outside, logger), r, s) && extras == []
    ensures r == Completed <==> ReachesPprof(env, outside) && !PprofRejected(env, outside)
  {
    if r.SortFailed? {
      DefaultsSort(extras, Failure(r.error));
    } else if env.load(outside).None? {
      LoadFailureStopsRun(env, extras, outside, logger, r, s);
    } else {
      var ordered: seq<Module<Closure>>, started :| SortOutcome(RunModules(extras), Success(ordered))
                              && Ran(Init(env), Start(outside, logger), ordered, started, r, s);
      NineSorted(extras, ordered);
      RunResult(env, extras, outside, logger, env.load(outside).value, ordered, started, r, s);
      NothingElseFails(env, outside, logger, env.load(outside).value, ordered, started, r, s);
    }
  }

  lemma NothingElseFails<W>(
    env: Environment<W>, outside: W, logger: bool, cfg: AppConfig, ordered: seq<Module<Closure>>, started: int,
    r: ExecResult, s: World<W>)
    requires EndsAs(env, outside, logger, cfg, ordered, started, r, s) && |ordered| == 9
    requires env.load(outside) == Some(cfg)
    ensures r == Completed <==> ReachesPprof(env, outside) && !PprofRejected(env, outside)
  {
  }

  lemma NineSorted(extras: Registration<Closure>, ordered: seq<Module<Closure>>)
    requires SortOutcome(RunModules(extras), Success(ordered)) && extras == []
    ensures |ordered| == 9
  {
    DefaultNamesValid(extras);
    DefaultsInOrder(extras);
    SortOfOrderedList(RunModules(extras), Success(ordered));
  }

  /** What a completed bootstrap leaves behind for serve. */
  lemma CompletedBootstrap<W>(
    env: Environment<W>, extras: Registration<Closure>, outside: W, logger: bool, s: World<W>)
    requires CallerModules(extras)
    requires ExecuteOutcome(RunModules(extras), Init(env), Start(outside, logger), Completed, s)
    ensures s.cfg.Some? && s.cfg == env.load(outside) && s.logReady && s.globalLogger
    ensures s.appField == AppName(env, OutsideAfter(env, outside, 9))
    ensures s.registerRoutes <==> s.cfg.value.pprofEnabled && Dynamic(s.cfg.value)
    ensures s.stopPprof <==> s.registerRoutes
    ensures s.tracingReady <==> env.tracingError(OutsideAfter(env, outside, 9), s.cfg).None?
  {
    var ordered: seq<Module<Closure>>, started :| SortOutcome(RunModules(extras), Success(ordered))
                            && Ran(Init(env), Start(outside, logger), ordered, started, Completed, s);
    SortedShape(extras, ordered);
    BootedAfter(env, outside, logger, ordered, |ordered|);
  }

  /** Environment variables are what was last written, except that a value with a NUL in it is refused. */
  ghost predicate KeepsVariables<W(!new)>(env: Environment<W>) {
    forall w, k, v, l {:trigger env.getenv(env.setenv(w, k, v), l)} ::
      env.getenv(env.setenv(w, k, v), l) == if k == l && '\0' !in v then v else env.getenv(w, l)
  }

  lemma SetIfBlankReads<W(!new)>(env: Environment<W>, w: W, key: string, value: string, other: string)
    requires KeepsVariables(env) && '\0' !in value
    ensures env.getenv(SetIfBlank(env, w, key, value), other) ==
            if other == key && Text.Trim(env.getenv(w, key)) == "" then value else env.getenv(w, other)
  {
  }

  lemma VariablesDiffer()
    ensures APP_NAME != SERVICE_ID && APP_NAME != OTEL_SERVICE_NAME && SERVICE_ID != OTEL_SERVICE_NAME
  {
    assert |APP_NAME| != |SERVICE_ID| && |APP_NAME| != |OTEL_SERVICE_NAME|;
  }

  /** The configured name reaches the three variables, the second and third only where they were blank. */
  lemma MetadataReads<W(!new)>(env: Environment<W>, w: W, name: string)
    requires KeepsVariables(env) && '\0' !in name
    ensures var after := ApplyMetadata(env, w, name);
            && env.getenv(after, APP_NAME) == name
            && env.getenv(after, SERVICE_ID) ==
               (if Text.Trim(env.getenv(w, SERVICE_ID)) == "" then name else env.getenv(w, SERVICE_ID))
            && env.getenv(after, OTEL_SERVICE_NAME) ==
               (if Text.Trim(env.getenv(w, OTEL_SERVICE_NAME)) == "" then name else env.getenv(w, OTEL_SERVICE_NAME))
  {
    VariablesDiffer();
    var first := env.setenv(w, APP_NAME, name);
    var second := SetIfBlank(env, first, SERVICE_ID, name);
    SetIfBlankReads(env, first, SERVICE_ID, name, APP_NAME);
    SetIfBlankReads(env, first, SERVICE_ID, name, SERVICE_ID);
    SetIfBlankReads(env, first, SERVICE_ID, name, OTEL_SERVICE_NAME);
    SetIfBlankReads(env, second, OTEL_SERVICE_NAME, name, APP_NAME);
    SetIfBlankReads(env, second, OTEL_SERVICE_NAME, name, SERVICE_ID);
    SetIfBlankReads(env, second, OTEL_SERVICE_NAME, name, OTEL_SERVICE_NAME);
  }

  /**
   Why log depends on runtime-metadata: after a completed bootstrap the logger injects as _app the configured name,
   trimmed, and where that is blank the service identity that was there before.
   */
  lemma AppFieldIsConfigured<W(!new)>(
    env: Environment<W>, extras: Registration<Closure>, outside: W, logger: bool, s: World<W>)
    requires CallerModules(extras) && KeepsVariables(env)
    requires ExecuteOutcome(RunModules(extras), Init(env), Start(outside, logger), Completed, s)
    requires env.load(outside).Some? && '\0' !in env.load(outside).value.appName
    ensures s.appField ==
            FirstNonEmpty([Text.Trim(env.load(outside).value.appName), Text.Trim(env.getenv(outside, SERVICE_ID)),
                           Text.Trim(env.getenv(outside, OTEL_SERVICE_NAME))])
  {
    CompletedBootstrap(env, extras, outside, logger, s);
    MetadataReads(env, outside, env.load(outside).value.appName);
    FirstOfThree(Text.Trim(env.load(outside).value.appName), Text.Trim(env.getenv(outside, SERVICE_ID)),
                 Text.Trim(env.getenv(outside, OTEL_SERVICE_NAME)));
  }

  /** Filling blanks with the first value does not change which is found first. */
  lemma FirstOfThree(a: string, b: string, c: string)
    ensures FirstNonEmpty([a, if b == "" then a else b, if c == "" then a else c]) == FirstNonEmpty([a, b, c])
    ensures a != "" ==> FirstNonEmpty([a, b, c]) == a
  {
    assert FirstNonEmpty([a, b, c]) == if a != "" then a else if b != "" then b else c by { OneByOne(a, b, c); }
    OneByOne(a, if b == "" then a else b, if c == "" then a else c);
  }

  lemma OneByOne(a: string, b: string, c: string)
    ensures FirstNonEmpty([a, b, c]) == if a != "" then a else if b != "" then b else c
  {
    assert [a, b, c][1..] == [b, c] && [b, c][1..] == [c] && [c][1..] == [];
    assert FirstNonEmpty([c]) == c;
    assert FirstNonEmpty([b, c]) == if b != "" then b else c;
  }

  /** When the configuration cannot be loaded, config is reported and nothing else has run. */
  lemma LoadFailureStopsRun<W>(
    env: Environment<W>, extras: Registration<Closure>, outside: W, logger: bool, r: ExecResult, s: World<W>)
    requires CallerModules(extras) && env.load(outside).None?
    requires ExecuteOutcome(RunModules(extras), Init(env), Start(outside, logger), r, s)
    ensures r.SortFailed? || r == InitFailed("config", env.loadError(outside))
    ensures s == if r.SortFailed? then Start(outside, logger)
                 else Start(outside, true).(appField := AppName(env, outside))
  {
    if !r.SortFailed? {
      var ordered: seq<Module<Closure>>, started :| SortOutcome(RunModules(extras), Success(ordered))
                              && Ran(Init(env), Start(outside, logger), ordered, started, r, s);
      SortedShape(extras, ordered);
      PrefixEntry(ordered, 0, Config);
      LoadFailureAt(env, outside, logger, ordered, started, r, s);
    }
  }

  lemma LoadFailureAt<W>(
    env: Environment<W>, outside: W, logger: bool, ordered: seq<Module<Closure>>, started: int, r: ExecResult,
    s: World<W>)
    requires DefaultsThenExtras(ordered) && ordered[0] == DefaultModule(Config) && env.load(outside).None?
    requires Ran(Init(env), Start(outside, logger), ordered, started, r, s)
    ensures r == InitFailed(CONFIG, env.loadError(outside))
            && s == Start(outside, true).(appField := AppName(env, outside))
  {
    var init, w0 := Init(env), Start(outside, logger);
    assert StateAfter(init, w0, ordered, 0) == w0;
    assert OutcomeOf(init, w0, ordered, 0) == Err(env.loadError(outside));
    assert started == 1;
    NamesArePlain();
    PlainNameStays(CONFIG);
  }
}
