/**
 Start and Stop of infra/pprof.go as a step system: any number of calls interleave on the atomic state word, the mutex,
 the four session fields and the process-wide CPU profiler, which this manager is taken to be the only user of.

 One step is one compare-and-swap or store of the word, one lock operation, one field write, or one profiler call.
 Every operation of the outside that can fail takes its outcome from the step.
 */
module PprofProtocol {
  import opened Wrappers

  datatype Word = Stopped | Running | Dumping

  /**
   What mu guards, with the profiler. A session is named by the Start call that opened it; None is a nil or zero field.
   sessions and torn are history: how many sessions were opened, and which ones a Stop has taken over.
   */
  datatype Guarded = Guarded(
    server: Option<nat>, startedAt: Option<nat>, cpuFile: Option<nat>, cpuTmp: Option<nat>,
    profiler: bool, sessions: nat, torn: set<nat>)

  /** Positions inside the critical section, in program order; got is what Stop read on entry. */
  datatype Phase =
    | MakeDir | CreateFile | StartProfile | Listen
    | StopProfileAgain   // the listener failed: stop the profiler just started
    | StoreStopped       // failure: write the word back
    | SetServer | SetStartedAt | SetCpuFile | SetCpuTmp
    | StartUnlock(changed: bool)
    | ReadFields
    | ClearServer(got: Option<nat>) | ClearCpuFile(got: Option<nat>)
    | ClearCpuTmp(got: Option<nat>) | ClearStartedAt(got: Option<nat>)
    | StopProfile(got: Option<nat>)
    | DumpAndStore(got: Option<nat>)
    | StopUnlock(got: Option<nat>)

  datatype Pc =
    | StartCas | StartLock | StartDone(changed: bool)
    | StopCas | StopLock | StopDone(changed: bool, got: Option<nat>)
    | Inside(phase: Phase)

  datatype State = State(word: Word, mutex: Option<nat>, g: Guarded, calls: seq<Pc>)

  datatype Step = BeginStart | BeginStop | Act(call: nat, ok: bool)

  // ---- Steps ----

  predicate Unlocks(p: Phase) { p.StartUnlock? || p.StopUnlock? }

  /** The step of call c at phase p that does not release the mutex. */
  function PhaseNext(c: nat, p: Phase, g: Guarded, ok: bool): (Phase, Guarded)
    requires !Unlocks(p)
  {
    match p
    case MakeDir => (if ok then CreateFile else StoreStopped, g)
    case CreateFile => (if ok then StartProfile else StoreStopped, g)
    case StartProfile => if ok && !g.profiler then (Listen, g.(profiler := true)) else (StoreStopped, g)
    case Listen => (if ok then SetServer else StopProfileAgain, g)
    case StopProfileAgain => (StoreStopped, g.(profiler := false))
    case StoreStopped => (StartUnlock(false), g)
    case SetServer => (SetStartedAt, g.(server := Some(c)))
    case SetStartedAt => (SetCpuFile, g.(startedAt := Some(c)))
    case SetCpuFile => (SetCpuTmp, g.(cpuFile := Some(c)))
    case SetCpuTmp => (StartUnlock(true), g.(cpuTmp := Some(c), sessions := g.sessions + 1))
    case ReadFields =>
      (ClearServer(g.server), if g.server.Some? then g.(torn := g.torn + {g.server.value}) else g)
    case ClearServer(got) => (ClearCpuFile(got), g.(server := None))
    case ClearCpuFile(got) => (ClearCpuTmp(got), g.(cpuFile := None))
    case ClearCpuTmp(got) => (ClearStartedAt(got), g.(cpuTmp := None))
    case ClearStartedAt(got) => (StopProfile(got), g.(startedAt := None))
    case StopProfile(got) => (DumpAndStore(got), if got.Some? then g.(profiler := false) else g)
    case DumpAndStore(got) => (StopUnlock(got), g)
  }

  /** The phases whose step stores Stopped into the word. */
  predicate StoresStopped(p: Phase) { p.StoreStopped? || p.DumpAndStore? }

  predicate Enabled(s: State, step: Step) {
    match step
    case BeginStart => true
    case BeginStop => true
    case Act(c, _) =>
      && c < |s.calls| && !s.calls[c].StartDone? && !s.calls[c].StopDone?
      && (s.calls[c].StartLock? || s.calls[c].StopLock? ==> s.mutex.None?)
  }

  function Goto(s: State, c: nat, pc: Pc): State
    requires c < |s.calls|
  {
    s.(calls := s.calls[c := pc])
  }

  function ActOf(s: State, c: nat, ok: bool): State
    requires Enabled(s, Act(c, ok))
  {
    match s.calls[c]
    case StartCas =>
      if s.word.Stopped? then Goto(s.(word := Running), c, StartLock) else Goto(s, c, StartDone(false))
    case StopCas =>
      if s.word.Running? then Goto(s.(word := Dumping), c, StopLock) else Goto(s, c, StopDone(false, None))
    case StartLock => Goto(s.(mutex := Some(c)), c, Inside(MakeDir))
    case StopLock => Goto(s.(mutex := Some(c)), c, Inside(ReadFields))
    case Inside(p) =>
      (match p
       case StartUnlock(changed) => Goto(s.(mutex := None), c, StartDone(changed))
       case StopUnlock(got) => Goto(s.(mutex := None), c, StopDone(true, got))
       case _ =>
         var (p', g') := PhaseNext(c, p, s.g, ok);
         Goto(s.(g := g', word := if StoresStopped(p) then Stopped else s.word), c, Inside(p')))
  }

  function Next(s: State, step: Step): State
    requires Enabled(s, step)
  {
    match step
    case BeginStart => s.(calls := s.calls + [StartCas])
    case BeginStop => s.(calls := s.calls + [StopCas])
    case Act(c, ok) => ActOf(s, c, ok)
  }

  const INITIAL := State(Stopped, None, Guarded(None, None, None, None, false, 0, {}), [])

  ghost function Final(steps: seq<Step>): State
    requires IsRun(steps)
    decreases |steps|, 2
  {
    if steps == [] then INITIAL else Next(Final(steps[..|steps| - 1]), steps[|steps| - 1])
  }

  ghost predicate IsRun(steps: seq<Step>)
    decreases |steps|, 1
  {
    steps == [] ||
    (IsRun(steps[..|steps| - 1]) && Enabled(Final(steps[..|steps| - 1]), steps[|steps| - 1]))
  }

  lemma ExtendRun(steps: seq<Step>, step: Step)
    requires IsRun(steps) && Enabled(Final(steps), step)
    ensures IsRun(steps + [step]) && Final(steps + [step]) == Next(Final(steps), step)
  {
    assert (steps + [step])[..|steps|] == steps;
  }

  // ---- The guarded data ----

  ghost predicate NoSession(g: Guarded) {
    g.server.None? && g.startedAt.None? && g.cpuFile.None? && g.cpuTmp.None?
  }

  /**
   At rest: the four fields name one session or are all clear, a session is there exactly when the profiler runs, it has
   not been taken over, and it is the only one that has not.
   */
  ghost predicate Settled(g: Guarded) {
    && g.server == g.startedAt == g.cpuFile == g.cpuTmp
    && (g.server.Some? <==> g.profiler)
    && (g.server.Some? ==> g.server.value !in g.torn)
    && g.sessions == |g.torn| + (if g.server.Some? then 1 else 0)
  }

  /** The shape of the guarded data at each point of the critical section of call c. */
  ghost predicate Shape(c: nat, p: Phase, g: Guarded) {
    match p
    case MakeDir | CreateFile | StartProfile | StoreStopped | ReadFields => Settled(g)
    case Listen | StopProfileAgain | SetServer => NoSession(g) && g.profiler && g.sessions == |g.torn|
    case SetStartedAt =>
      g.server == Some(c) && g.startedAt == g.cpuFile == g.cpuTmp == None
      && g.profiler && g.sessions == |g.torn|
    case SetCpuFile =>
      g.server == g.startedAt == Some(c) && g.cpuFile == g.cpuTmp == None && g.profiler && g.sessions == |g.torn|
    case SetCpuTmp =>
      g.server == g.startedAt == g.cpuFile == Some(c) && g.cpuTmp == None && g.profiler && g.sessions == |g.torn|
    case StartUnlock(changed) => Settled(g) && (changed ==> g.server == Some(c))
    case ClearServer(got) =>
      g.server == g.cpuFile == g.cpuTmp == g.startedAt == got && (g.profiler <==> got.Some?) && g.sessions == |g.torn|
    case ClearCpuFile(got) =>
      g.server.None? && g.cpuFile == g.cpuTmp == g.startedAt == got && (g.profiler <==> got.Some?)
      && g.sessions == |g.torn|
    case ClearCpuTmp(got) =>
      g.server.None? && g.cpuFile.None? && g.cpuTmp == g.startedAt == got && (g.profiler <==> got.Some?)
      && g.sessions == |g.torn|
    case ClearStartedAt(got) =>
      g.server.None? && g.cpuFile.None? && g.cpuTmp.None? && g.startedAt == got && (g.profiler <==> got.Some?)
      && g.sessions == |g.torn|
    case StopProfile(got) => NoSession(g) && (g.profiler <==> got.Some?) && g.sessions == |g.torn|
    case DumpAndStore(_) | StopUnlock(_) => NoSession(g) && !g.profiler && g.sessions == |g.torn|
  }

  /** Phases of a Start call that has not written its session completely. */
  predicate PendingPhase(p: Phase) {
    || p.MakeDir? || p.CreateFile? || p.StartProfile? || p.Listen? || p.StopProfileAgain? || p.StoreStopped?
    || p.SetServer? || p.SetStartedAt? || p.SetCpuFile? || p.SetCpuTmp?
  }

  predicate StartPending(pc: Pc) {
    pc.StartCas? || pc.StartLock? || (pc.Inside? && PendingPhase(pc.phase))
  }

  /** The session a Stop call has taken over, if any. */
  function GotInside(p: Phase): Option<nat> {
    match p
    case ClearServer(got) => got
    case ClearCpuFile(got) => got
    case ClearCpuTmp(got) => got
    case ClearStartedAt(got) => got
    case StopProfile(got) => got
    case DumpAndStore(got) => got
    case StopUnlock(got) => got
    case _ => None
  }

  function Got(pc: Pc): Option<nat> {
    match pc
    case Inside(p) => GotInside(p)
    case StopDone(_, got) => got
    case _ => None
  }

  lemma PhaseKeepsShape(c: nat, p: Phase, g: Guarded, ok: bool)
    requires !Unlocks(p) && Shape(c, p, g) && (PendingPhase(p) ==> c !in g.torn)
    ensures var (p', g') := PhaseNext(c, p, g, ok); Shape(c, p', g')
  {
  }

  /** The sessions a step takes over: at most the one in the fields, and only when entering Stop's section. */
  lemma PhaseTakesOver(c: nat, p: Phase, g: Guarded, ok: bool)
    requires !Unlocks(p) && Shape(c, p, g)
    ensures var (p', g') := PhaseNext(c, p, g, ok);
            && (if p.ReadFields? && g.server.Some?
                then g'.torn == g.torn + {g.server.value} && GotInside(p') == g.server
                else g'.torn == g.torn && GotInside(p') == GotInside(p))
            && (g'.server.Some? ==> g'.server == g.server || (p.SetServer? && g'.server == Some(c)))
            && (PendingPhase(p') ==> PendingPhase(p))
  {
  }

  // ---- The invariant ----

  ghost predicate CallOk(s: State, c: nat)
    requires c < |s.calls|
  {
    var pc := s.calls[c];
    && (pc.Inside? <==> s.mutex == Some(c))
    && (Got(pc).Some? ==> Got(pc).value in s.g.torn)
    && (StartPending(pc) ==> c !in s.g.torn && (s.g.server == Some(c) ==> pc.Inside?))
  }

  /** No two calls have taken over the same session. */
  ghost predicate TornOnce(s: State) {
    forall c, d :: 0 <= c < d < |s.calls| && Got(s.calls[c]).Some? ==> Got(s.calls[c]) != Got(s.calls[d])
  }

  /** Sessions are named by existing calls. */
  ghost predicate NamesOk(s: State) {
    && (s.g.server.Some? ==> s.g.server.value < |s.calls|)
    && (forall id :: id in s.g.torn ==> id < |s.calls|)
  }

  /** The guarded data is settled when the mutex is free, and has the holder's shape otherwise. */
  ghost predicate DataOk(s: State) {
    match s.mutex
    case None => Settled(s.g)
    case Some(c) => c < |s.calls| && s.calls[c].Inside? && Shape(c, s.calls[c].phase, s.g)
  }

  ghost predicate Inv(s: State) {
    && DataOk(s) && NamesOk(s) && TornOnce(s)
    && (forall c: nat {:trigger CallOk(s, c)} :: c < |s.calls| ==> CallOk(s, c))
  }

  /** What a step of call c does to what the invariant speaks of. */
  ghost predicate Moves(s: State, t: State, c: nat)
    requires c < |s.calls|
  {
    && |t.calls| == |s.calls|
    && (forall d: nat :: d < |s.calls| && d != c ==> t.calls[d] == s.calls[d])
    && MovesSelf(s, t, c, s.calls[c], t.calls[c])
  }

  /** A Stop entering its section takes over the session in the fields; nothing else changes what is taken over. */
  ghost predicate MovesSelf(s: State, t: State, c: nat, p: Pc, q: Pc) {
    && (if t.g.torn == s.g.torn then Got(q) == Got(p)
        else s.g.server.Some? && t.g.torn == s.g.torn + {s.g.server.value} && Got(q) == s.g.server
             && s.g.server.value !in s.g.torn && p == Inside(ReadFields))
    && (t.g.server.Some? && t.g.server != s.g.server ==> t.g.server == Some(c) && p == Inside(SetServer))
    && (t.mutex == s.mutex || (s.mutex.None? && t.mutex == Some(c)) || (s.mutex == Some(c) && t.mutex.None?))
    && (q.Inside? <==> t.mutex == Some(c))
    && (StartPending(q) ==> StartPending(p) && (p.Inside? ==> q.Inside?))
  }

  /** A step inside the critical section, from phase p to phase p' and data g'. */
  ghost predicate InsideStep(s: State, t: State, c: nat, p: Phase, p': Phase, g': Guarded) {
    && c < |s.calls| && s.calls[c] == Inside(p) && s.mutex == Some(c) && !Unlocks(p)
    && t == State(if StoresStopped(p) then Stopped else s.word, s.mutex, g', s.calls[c := Inside(p')])
  }

  lemma ActInside(s: State, c: nat, ok: bool)
    requires Enabled(s, Act(c, ok)) && CallOk(s, c) && s.calls[c].Inside? && !Unlocks(s.calls[c].phase)
    ensures var (p', g') := PhaseNext(c, s.calls[c].phase, s.g, ok);
            InsideStep(s, ActOf(s, c, ok), c, s.calls[c].phase, p', g')
  {
  }

  lemma InsideMoves(s: State, t: State, c: nat, p: Phase, p': Phase, g': Guarded, ok: bool)
    requires InsideStep(s, t, c, p, p', g') && PhaseNext(c, p, s.g, ok) == (p', g') && Shape(c, p, s.g)
    ensures Moves(s, t, c)
  {
    PhaseTakesOver(c, p, s.g, ok);
    InsideMovesSelf(s, t, c, p, p', g');
  }

  lemma InsideMovesSelf(s: State, t: State, c: nat, p: Phase, p': Phase, g': Guarded)
    requires InsideStep(s, t, c, p, p', g')
    requires if p.ReadFields? && s.g.server.Some?
             then g'.torn == s.g.torn + {s.g.server.value} && GotInside(p') == s.g.server
             else g'.torn == s.g.torn && GotInside(p') == GotInside(p)
    requires p.ReadFields? && s.g.server.Some? ==> s.g.server.value !in s.g.torn
    requires g'.server.Some? ==> g'.server == s.g.server || (p.SetServer? && g'.server == Some(c))
    requires PendingPhase(p') ==> PendingPhase(p)
    ensures Moves(s, t, c)
  {
    if p.ReadFields? && s.g.server.Some? { assert s.g.server.value in g'.torn; }
  }

  /** A step that takes or releases the mutex, or only touches the word. */
  lemma OutsideMoves(s: State, c: nat, ok: bool)
    requires Enabled(s, Act(c, ok)) && CallOk(s, c) && DataOk(s)
    requires s.calls[c].Inside? ==> Unlocks(s.calls[c].phase)
    ensures Moves(s, ActOf(s, c, ok), c)
  {
  }

  lemma OutsideShape(s: State, c: nat, ok: bool)
    requires Enabled(s, Act(c, ok)) && CallOk(s, c) && DataOk(s)
    requires s.calls[c].Inside? ==> Unlocks(s.calls[c].phase)
    ensures DataOk(ActOf(s, c, ok))
  {
  }

  lemma InsideShape(s: State, t: State, c: nat, p: Phase, p': Phase, g': Guarded)
    requires InsideStep(s, t, c, p, p', g') && Shape(c, p', g')
    ensures DataOk(t)
  {
  }

  /** The step as the invariant sees it. */
  lemma ActMoves(s: State, c: nat, ok: bool)
    requires Enabled(s, Act(c, ok)) && DataOk(s) && CallOk(s, c)
    ensures Moves(s, ActOf(s, c, ok), c) && DataOk(ActOf(s, c, ok))
  {
    if s.calls[c].Inside? && !Unlocks(s.calls[c].phase) {
      var p := s.calls[c].phase;
      var (p', g') := PhaseNext(c, p, s.g, ok);
      ActInside(s, c, ok);
      PhaseKeepsShape(c, p, s.g, ok);
      InsideShape(s, ActOf(s, c, ok), c, p, p', g');
      InsideMoves(s, ActOf(s, c, ok), c, p, p', g', ok);
    } else {
      OutsideMoves(s, c, ok);
      OutsideShape(s, c, ok);
    }
  }

  lemma MovesKeepsCalls(s: State, t: State, c: nat, d: nat)
    requires c < |s.calls| && d < |s.calls| && Moves(s, t, c) && CallOk(s, c) && CallOk(s, d)
    ensures CallOk(t, d)
  {
  }

  lemma MovesKeepsTornOnce(s: State, t: State, c: nat)
    requires c < |s.calls| && Moves(s, t, c) && Inv(s)
    ensures TornOnce(t)
  {
    forall d: nat | d < |s.calls| && d != c && Got(t.calls[c]).Some? ensures Got(t.calls[d]) != Got(t.calls[c]) {
      assert CallOk(s, d);
    }
    forall a, b | 0 <= a < b < |t.calls| && Got(t.calls[a]).Some? ensures Got(t.calls[a]) != Got(t.calls[b]) {
      if a != c && b != c { assert t.calls[a] == s.calls[a] && t.calls[b] == s.calls[b]; }
    }
  }

  lemma BeginKeepsInv(s: State, pc: Pc)
    requires Inv(s) && (pc.StartCas? || pc.StopCas?)
    ensures Inv(s.(calls := s.calls + [pc]))
  {
    var t := s.(calls := s.calls + [pc]);
    forall d: nat | d < |t.calls| ensures CallOk(t, d) {
      if d < |s.calls| { assert CallOk(s, d); }
    }
  }

  lemma StepKeepsInv(s: State, step: Step)
    requires Inv(s) && Enabled(s, step)
    ensures Inv(Next(s, step))
  {
    match step {
      case BeginStart => BeginKeepsInv(s, StartCas);
      case BeginStop => BeginKeepsInv(s, StopCas);
      case Act(c, ok) => ActKeepsInv(s, c, ok);
    }
  }

  lemma ActKeepsInv(s: State, c: nat, ok: bool)
    requires Inv(s) && Enabled(s, Act(c, ok))
    ensures Inv(ActOf(s, c, ok))
  {
    assert CallOk(s, c);
    ActMoves(s, c, ok);
    var t := ActOf(s, c, ok);
    MovesKeepsTornOnce(s, t, c);
    forall d: nat | d < |t.calls| ensures CallOk(t, d) {
      assert CallOk(s, d);
      MovesKeepsCalls(s, t, c, d);
    }
  }

  /** The invariant holds after every interleaving of any number of Start and Stop calls, whatever fails. */
  lemma {:induction false} RunKeepsInv(steps: seq<Step>)
    requires IsRun(steps)
    ensures Inv(Final(steps))
    decreases |steps|
  {
    if steps != [] {
      RunKeepsInv(steps[..|steps| - 1]);
      StepKeepsInv(Final(steps[..|steps| - 1]), steps[|steps| - 1]);
    }
  }
}
