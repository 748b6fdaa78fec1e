/** A Start or Stop of PprofProtocol that nothing interrupts, in its critical section or from its first step on. */
module PprofSolo {
  import opened Wrappers
  import opened PprofProtocol

  /** Steps left inside the critical section. */
  function Rank(p: Phase): nat {
    match p
    case MakeDir => 12
    case CreateFile => 11
    case StartProfile => 10
    case Listen => 9
    case StopProfileAgain => 2
    case StoreStopped => 1
    case SetServer => 4
    case SetStartedAt => 3
    case SetCpuFile => 2
    case SetCpuTmp => 1
    case StartUnlock(_) => 0
    case ReadFields => 7
    case ClearServer(_) => 6
    case ClearCpuFile(_) => 5
    case ClearCpuTmp(_) => 4
    case ClearStartedAt(_) => 3
    case StopProfile(_) => 2
    case DumpAndStore(_) => 1
    case StopUnlock(_) => 0
  }

  lemma RankDrops(c: nat, p: Phase, g: Guarded, ok: bool)
    requires !Unlocks(p)
    ensures Rank(PhaseNext(c, p, g, ok).0) < Rank(p)
  {
  }

  /** Where the critical section leads when only its own call steps; ok tells which operations succeed. */
  function RunPhases(c: nat, p: Phase, g: Guarded, word: Word, ok: Phase -> bool): (r: (Phase, Guarded, Word))
    ensures Unlocks(r.0)
    decreases Rank(p)
  {
    if Unlocks(p) then (p, g, word)
    else
      RankDrops(c, p, g, ok(p));
      var (p', g') := PhaseNext(c, p, g, ok(p));
      RunPhases(c, p', g', if StoresStopped(p) then Stopped else word, ok)
  }

  /** Call c is inside its critical section. */
  function At(calls: seq<Pc>, c: nat, p: Phase, g: Guarded, word: Word): State
    requires c < |calls|
  {
    State(word, Some(c), g, calls[c := Inside(p)])
  }

  lemma StepInside(calls: seq<Pc>, c: nat, p: Phase, g: Guarded, word: Word, ok: bool)
    requires c < |calls| && !Unlocks(p)
    ensures Enabled(At(calls, c, p, g, word), Act(c, ok))
    ensures var (p', g') := PhaseNext(c, p, g, ok);
            Next(At(calls, c, p, g, word), Act(c, ok)) ==
            At(calls, c, p', g', if StoresStopped(p) then Stopped else word)
  {
    var (p', g') := PhaseNext(c, p, g, ok);
    assert calls[c := Inside(p)][c := Inside(p')] == calls[c := Inside(p')];
  }

  lemma {:induction false} SoloInside(
    steps: seq<Step>, calls: seq<Pc>, c: nat, p: Phase, g: Guarded, word: Word, ok: Phase -> bool)
    returns (longer: seq<Step>)
    requires c < |calls| && IsRun(steps) && Final(steps) == At(calls, c, p, g, word)
    ensures IsRun(longer) && steps <= longer
    ensures var (q, h, w) := RunPhases(c, p, g, word, ok); Final(longer) == At(calls, c, q, h, w)
    decreases Rank(p)
  {
    longer := steps;
    if !Unlocks(p) {
      StepInside(calls, c, p, g, word, ok(p));
      ExtendRun(steps, Act(c, ok(p)));
      RankDrops(c, p, g, ok(p));
      var (p', g') := PhaseNext(c, p, g, ok(p));
      longer := SoloInside(steps + [Act(c, ok(p))], calls, c, p', g', if StoresStopped(p) then Stopped else word, ok);
    }
  }

  // ---- What the two sections do ----

  predicate StartOk(g: Guarded, ok: Phase -> bool) {
    ok(MakeDir) && ok(CreateFile) && ok(StartProfile) && !g.profiler && ok(Listen)
  }

  function SessionOf(c: nat, g: Guarded): Guarded {
    Guarded(Some(c), Some(c), Some(c), Some(c), true, g.sessions + 1, g.torn)
  }

  lemma WriteSession(c: nat, g: Guarded, word: Word, ok: Phase -> bool)
    requires g.profiler
    ensures RunPhases(c, SetServer, g, word, ok) == (StartUnlock(true), SessionOf(c, g), word)
  {
    var a := g.(server := Some(c));
    var b := a.(startedAt := Some(c));
    var d := b.(cpuFile := Some(c));
    var e := SessionOf(c, g);
    assert RunPhases(c, SetServer, g, word, ok) == RunPhases(c, SetStartedAt, a, word, ok);
    assert RunPhases(c, SetStartedAt, a, word, ok) == RunPhases(c, SetCpuFile, b, word, ok);
    assert RunPhases(c, SetCpuFile, b, word, ok) == RunPhases(c, SetCpuTmp, d, word, ok);
    assert RunPhases(c, SetCpuTmp, d, word, ok) == RunPhases(c, StartUnlock(true), e, word, ok);
  }

  lemma GiveUp(c: nat, g: Guarded, word: Word, ok: Phase -> bool)
    ensures RunPhases(c, StoreStopped, g, word, ok) == (StartUnlock(false), g, Stopped)
    ensures RunPhases(c, StopProfileAgain, g, word, ok) == (StartUnlock(false), g.(profiler := false), Stopped)
  {
    var h := g.(profiler := false);
    assert RunPhases(c, StoreStopped, g, word, ok) == RunPhases(c, StartUnlock(false), g, Stopped, ok);
    assert RunPhases(c, StopProfileAgain, g, word, ok) == RunPhases(c, StoreStopped, h, word, ok);
    assert RunPhases(c, StoreStopped, h, word, ok) == RunPhases(c, StartUnlock(false), h, Stopped, ok);
  }

  lemma AfterProfile(c: nat, g: Guarded, word: Word, ok: Phase -> bool)
    requires g.profiler
    ensures RunPhases(c, Listen, g, word, ok) ==
            if ok(Listen) then (StartUnlock(true), SessionOf(c, g), word)
            else (StartUnlock(false), g.(profiler := false), Stopped)
  {
    GiveUp(c, g, word, ok);
    WriteSession(c, g, word, ok);
  }

  lemma StartWithProfile(c: nat, g: Guarded, word: Word, ok: Phase -> bool)
    ensures RunPhases(c, StartProfile, g, word, ok) ==
            if ok(StartProfile) && !g.profiler && ok(Listen) then (StartUnlock(true), SessionOf(c, g), word)
            else (StartUnlock(false), g, Stopped)
  {
    GiveUp(c, g, word, ok);
    if ok(StartProfile) && !g.profiler {
      AfterProfile(c, g.(profiler := true), word, ok);
      assert g.(profiler := true).(profiler := false) == g;
    }
  }

  /**
   A Start either opens its session and leaves the word alone, or leaves what the mutex guards alone and writes
   Stopped.
   */
  lemma StartSection(c: nat, g: Guarded, word: Word, ok: Phase -> bool)
    ensures RunPhases(c, MakeDir, g, word, ok) ==
            if StartOk(g, ok) then (StartUnlock(true), SessionOf(c, g), word) else (StartUnlock(false), g, Stopped)
  {
    GiveUp(c, g, word, ok);
    StartWithProfile(c, g, word, ok);
    if ok(MakeDir) {
      assert RunPhases(c, MakeDir, g, word, ok) == RunPhases(c, CreateFile, g, word, ok);
    }
  }

  function TornDown(g: Guarded): Guarded {
    Guarded(None, None, None, None, g.profiler && g.server.None?, g.sessions,
            if g.server.Some? then g.torn + {g.server.value} else g.torn)
  }

  lemma ClearFields(c: nat, g: Guarded, word: Word, got: Option<nat>, ok: Phase -> bool)
    ensures RunPhases(c, ClearServer(got), g, word, ok) ==
            RunPhases(c, StopProfile(got), g.(server := None, cpuFile := None, cpuTmp := None, startedAt := None),
                      word, ok)
  {
    var b := g.(server := None);
    var d := b.(cpuFile := None);
    var e := d.(cpuTmp := None);
    var f := e.(startedAt := None);
    assert RunPhases(c, ClearServer(got), g, word, ok) == RunPhases(c, ClearCpuFile(got), b, word, ok);
    assert RunPhases(c, ClearCpuFile(got), b, word, ok) == RunPhases(c, ClearCpuTmp(got), d, word, ok);
    assert RunPhases(c, ClearCpuTmp(got), d, word, ok) == RunPhases(c, ClearStartedAt(got), e, word, ok);
    assert RunPhases(c, ClearStartedAt(got), e, word, ok) == RunPhases(c, StopProfile(got), f, word, ok);
  }

  lemma Dump(c: nat, g: Guarded, word: Word, got: Option<nat>, ok: Phase -> bool)
    ensures RunPhases(c, StopProfile(got), g, word, ok) ==
            (StopUnlock(got), g.(profiler := g.profiler && got.None?), Stopped)
  {
    var h := g.(profiler := g.profiler && got.None?);
    assert RunPhases(c, StopProfile(got), g, word, ok) == RunPhases(c, DumpAndStore(got), h, word, ok);
    assert RunPhases(c, DumpAndStore(got), h, word, ok) == RunPhases(c, StopUnlock(got), h, Stopped, ok);
  }

  /** A Stop takes over the session it finds, if any, and leaves nothing behind. */
  lemma StopSection(c: nat, g: Guarded, word: Word, ok: Phase -> bool)
    ensures RunPhases(c, ReadFields, g, word, ok) == (StopUnlock(g.server), TornDown(g), Stopped)
  {
    var a := if g.server.Some? then g.(torn := g.torn + {g.server.value}) else g;
    assert RunPhases(c, ReadFields, g, word, ok) == RunPhases(c, ClearServer(g.server), a, word, ok);
    ClearFields(c, a, word, g.server, ok);
    Dump(c, a.(server := None, cpuFile := None, cpuTmp := None, startedAt := None), word, g.server, ok);
  }

  // ---- Whole calls ----

  lemma Extend(steps: seq<Step>, step: Step, t: State) returns (longer: seq<Step>)
    requires IsRun(steps) && Enabled(Final(steps), step) && Next(Final(steps), step) == t
    ensures IsRun(longer) && Final(longer) == t && longer == steps + [step]
  {
    ExtendRun(steps, step);
    longer := steps + [step];
  }

  /** Call c at the end of its section releases the mutex and returns. */
  lemma Leave(steps: seq<Step>, calls: seq<Pc>, c: nat, p: Phase, g: Guarded, word: Word) returns (longer: seq<Step>)
    requires c < |calls| && IsRun(steps) && Final(steps) == At(calls, c, p, g, word) && Unlocks(p)
    ensures IsRun(longer) && steps <= longer
    ensures Final(longer) ==
            State(word, None, g, calls[c := if p.StartUnlock? then StartDone(p.changed) else StopDone(true, p.got)])
  {
    var done := if p.StartUnlock? then StartDone(p.changed) else StopDone(true, p.got);
    assert calls[c := Inside(p)][c := done] == calls[c := done];
    longer := Extend(steps, Act(c, true), State(word, None, g, calls[c := done]));
  }

  /** A Start inside its section, from there to its return. */
  lemma FinishStart(steps: seq<Step>, calls: seq<Pc>, c: nat, g: Guarded, word: Word, ok: Phase -> bool)
    returns (longer: seq<Step>)
    requires c < |calls| && IsRun(steps) && Final(steps) == At(calls, c, MakeDir, g, word)
    ensures IsRun(longer) && steps <= longer
    ensures Final(longer) ==
            if StartOk(g, ok) then State(word, None, SessionOf(c, g), calls[c := StartDone(true)])
            else State(Stopped, None, g, calls[c := StartDone(false)])
  {
    StartSection(c, g, word, ok);
    var (q, h, w) := RunPhases(c, MakeDir, g, word, ok);
    longer := SoloInside(steps, calls, c, MakeDir, g, word, ok);
    longer := Leave(longer, calls, c, q, h, w);
  }

  /** A Stop inside its section, from there to its return. */
  lemma FinishStop(steps: seq<Step>, calls: seq<Pc>, c: nat, g: Guarded, word: Word) returns (longer: seq<Step>)
    requires c < |calls| && IsRun(steps) && Final(steps) == At(calls, c, ReadFields, g, word)
    ensures IsRun(longer) && steps <= longer
    ensures Final(longer) == State(Stopped, None, TornDown(g), calls[c := StopDone(true, g.server)])
  {
    var ok := (p: Phase) => true;
    StopSection(c, g, word, ok);
    longer := SoloInside(steps, calls, c, ReadFields, g, word, ok);
    longer := Leave(longer, calls, c, StopUnlock(g.server), TornDown(g), Stopped);
  }

  /** A Start up to its won swap. */
  lemma SwapStart(steps: seq<Step>) returns (longer: seq<Step>)
    requires IsRun(steps) && Final(steps).word.Stopped?
    ensures IsRun(longer) && steps <= longer
    ensures Final(longer) == Final(steps).(word := Running, calls := Final(steps).calls + [StartLock])
  {
    var s := Final(steps);
    longer := Extend(steps, BeginStart, s.(calls := s.calls + [StartCas]));
    ReplaceLast(s.calls, StartCas, StartLock);
    longer := Extend(longer, Act(|s.calls|, true), s.(word := Running, calls := s.calls + [StartLock]));
  }

  /** A Stop up to its won swap. */
  lemma SwapStop(steps: seq<Step>) returns (longer: seq<Step>)
    requires IsRun(steps) && Final(steps).word.Running?
    ensures IsRun(longer) && longer == steps + [BeginStop, Act(|Final(steps).calls|, true)]
    ensures Final(longer) == Final(steps).(word := Dumping, calls := Final(steps).calls + [StopLock])
  {
    var s := Final(steps);
    longer := Extend(steps, BeginStop, s.(calls := s.calls + [StopCas]));
    ReplaceLast(s.calls, StopCas, StopLock);
    longer := Extend(longer, Act(|s.calls|, true), s.(word := Dumping, calls := s.calls + [StopLock]));
  }

  lemma ReplaceLast(calls: seq<Pc>, pc: Pc, next: Pc)
    ensures (calls + [pc])[|calls| := next] == calls + [next]
  {
  }

  /** Call c takes the free mutex. */
  lemma Lock(steps: seq<Step>, c: nat) returns (longer: seq<Step>)
    requires IsRun(steps) && Final(steps).mutex.None? && c < |Final(steps).calls|
    requires Final(steps).calls[c].StartLock? || Final(steps).calls[c].StopLock?
    ensures IsRun(longer) && steps <= longer
    ensures var s := Final(steps);
            Final(longer) == At(s.calls, c, if s.calls[c].StartLock? then MakeDir else ReadFields, s.g, s.word)
  {
    var s := Final(steps);
    longer := Extend(steps, Act(c, true),
                     At(s.calls, c, if s.calls[c].StartLock? then MakeDir else ReadFields, s.g, s.word));
  }

  /** Start, called when the mutex is free and not interrupted. */
  lemma SoloStart(steps: seq<Step>, ok: Phase -> bool) returns (longer: seq<Step>)
    requires IsRun(steps) && Final(steps).mutex.None?
    ensures IsRun(longer)
    ensures var s := Final(steps);
            Final(longer) ==
            if s.word.Stopped? && StartOk(s.g, ok) then
              State(Running, None, SessionOf(|s.calls|, s.g), s.calls + [StartDone(true)])
            else s.(calls := s.calls + [StartDone(false)])
  {
    var s := Final(steps);
    var c, calls := |s.calls|, s.calls + [StartLock];
    if s.word.Stopped? {
      longer := SwapStart(steps);
      longer := Lock(longer, c);
      longer := FinishStart(longer, calls, c, s.g, Running, ok);
      ReplaceLast(s.calls, StartLock, StartDone(StartOk(s.g, ok)));
    } else {
      longer := Extend(steps, BeginStart, s.(calls := s.calls + [StartCas]));
      ReplaceLast(s.calls, StartCas, StartDone(false));
      longer := Extend(longer, Act(c, true), s.(calls := s.calls + [StartDone(false)]));
    }
  }

  /** Stop, called when the mutex is free and not interrupted. */
  lemma SoloStop(steps: seq<Step>) returns (longer: seq<Step>)
    requires IsRun(steps) && Final(steps).mutex.None?
    ensures IsRun(longer)
    ensures var s := Final(steps);
            Final(longer) ==
            if s.word.Running? then State(Stopped, None, TornDown(s.g), s.calls + [StopDone(true, s.g.server)])
            else s.(calls := s.calls + [StopDone(false, None)])
  {
    var s := Final(steps);
    var c, calls := |s.calls|, s.calls + [StopLock];
    if s.word.Running? {
      longer := SwapStop(steps);
      longer := Lock(longer, c);
      longer := FinishStop(longer, calls, c, s.g, Dumping);
      ReplaceLast(s.calls, StopLock, StopDone(true, s.g.server));
    } else {
      longer := Extend(steps, BeginStop, s.(calls := s.calls + [StopCas]));
      ReplaceLast(s.calls, StopCas, StopDone(false, None));
      longer := Extend(longer, Act(c, true), s.(calls := s.calls + [StopDone(false, None)]));
    }
  }
}
