/** What holds in every interleaving of Start and Stop, and when the state word agrees with the session. */
module PprofProperties {
  import opened Wrappers
  import opened PprofProtocol

  // ---- The guarded data ----

  /**
   Whenever the mutex is free, the four fields are all set, for one session, or all cleared, in agreement with whether
   the CPU profiler runs.
   */
  lemma FieldsAgreeWhenUnlocked(steps: seq<Step>)
    requires IsRun(steps) && Final(steps).mutex.None?
    ensures var g := Final(steps).g;
            && g.server == g.startedAt == g.cpuFile == g.cpuTmp
            && (g.profiler <==> g.server.Some?)
            && g.sessions == |g.torn| + (if g.server.Some? then 1 else 0)
  {
    RunKeepsInv(steps);
  }

  /** At every moment the sessions opened exceed those taken over by a Stop by at most one. */
  lemma AtMostOneLiveSession(steps: seq<Step>)
    requires IsRun(steps)
    ensures var g := Final(steps).g; |g.torn| <= g.sessions <= |g.torn| + 1
  {
    RunKeepsInv(steps);
    var s := Final(steps);
    if s.mutex.Some? { ShapeBoundsSessions(s.mutex.value, s.calls[s.mutex.value].phase, s.g); }
  }

  lemma ShapeBoundsSessions(c: nat, p: Phase, g: Guarded)
    requires Shape(c, p, g)
    ensures |g.torn| <= g.sessions <= |g.torn| + 1
  {
  }

  /** A Start call about to write its session finds all four fields cleared: no live session is overwritten. */
  lemma NeverOverwrites(steps: seq<Step>, c: nat)
    requires IsRun(steps) && c < |Final(steps).calls| && Final(steps).calls[c] == Inside(SetServer)
    ensures NoSession(Final(steps).g)
  {
    RunKeepsInv(steps);
    assert CallOk(Final(steps), c);
  }

  /** Each session is torn down by at most one Stop, and only after it was opened by a Start that returned true. */
  lemma TornDownOnce(steps: seq<Step>, c: nat, d: nat)
    requires IsRun(steps) && c < |Final(steps).calls| && d < |Final(steps).calls| && c != d
    requires Got(Final(steps).calls[c]).Some?
    ensures Got(Final(steps).calls[c]) != Got(Final(steps).calls[d])
    ensures var id := Got(Final(steps).calls[c]).value;
            id < |Final(steps).calls| && !StartPending(Final(steps).calls[id])
  {
    RunKeepsInv(steps);
    var s := Final(steps);
    assert CallOk(s, c);
    assert CallOk(s, Got(s.calls[c]).value);
    if d < c { assert Got(s.calls[d]).Some? ==> Got(s.calls[d]) != Got(s.calls[c]); }
  }

  // ---- The state word ----

  /** A Start between its winning swap and the point where it has opened its session or written the word back. */
  predicate StartBusy(pc: Pc) { pc.StartLock? || (pc.Inside? && PendingPhase(pc.phase)) }

  predicate StopPhase(p: Phase) { !PendingPhase(p) && !Unlocks(p) }

  /** A Stop between its winning swap and its final store. */
  predicate StopBusy(pc: Pc) { pc.StopLock? || (pc.Inside? && StopPhase(pc.phase)) }

  ghost predicate SomeStart(s: State) { exists c: nat :: c < |s.calls| && StartBusy(s.calls[c]) }

  ghost predicate SomeStop(s: State) { exists c: nat :: c < |s.calls| && StopBusy(s.calls[c]) }

  ghost predicate SomeStopInside(s: State) {
    exists c: nat :: c < |s.calls| && s.calls[c].Inside? && StopPhase(s.calls[c].phase)
  }

  ghost predicate Explained(s: State) {
    && (s.word.Dumping? ==> SomeStop(s))
    && (s.word.Running? ==> SomeStart(s) || SomeStopInside(s) || s.g.server.Some?)
  }

  /** What a call changes the word to, by what the call was and is. */
  ghost predicate WordStep(s: State, t: State, p: Pc, q: Pc) {
    && (StartBusy(p) && !StartBusy(q) ==> t.word.Stopped? || t.g.server.Some?)
    && (StopBusy(p) && !StopBusy(q) ==> t.word.Stopped?)
    && (t.g.server != s.g.server ==> StartBusy(p) || (p.Inside? && StopPhase(p.phase)))
    && (p.Inside? && StopPhase(p.phase) ==> t.word.Stopped? || (q.Inside? && StopPhase(q.phase)))
    && (t.word != s.word ==>
          t.word.Stopped? || (t.word.Running? && StartBusy(q)) || (t.word.Dumping? && StopBusy(q)))
  }

  /** Inside the critical section a call stays on its side until it stores Stopped or has opened its session. */
  lemma PhaseWord(c: nat, p: Phase, g: Guarded, ok: bool)
    requires !Unlocks(p) && Shape(c, p, g)
    ensures var (p', g') := PhaseNext(c, p, g, ok);
            && (PendingPhase(p) ==>
                  PendingPhase(p') || (StoresStopped(p) && p' == StartUnlock(false)) || g'.server.Some?)
            && (StopPhase(p) ==> StopPhase(p') || StoresStopped(p))
  {
  }

  lemma OutsideWord(s: State, c: nat, ok: bool)
    requires Enabled(s, Act(c, ok)) && (s.calls[c].Inside? ==> Unlocks(s.calls[c].phase))
    ensures WordStep(s, ActOf(s, c, ok), s.calls[c], ActOf(s, c, ok).calls[c])
  {
  }

  lemma ActWord(s: State, c: nat, ok: bool)
    requires Inv(s) && Enabled(s, Act(c, ok))
    ensures var t, p := ActOf(s, c, ok), s.calls[c];
            t.calls == s.calls[c := t.calls[c]] && WordStep(s, t, p, t.calls[c])
  {
    assert CallOk(s, c);
    var t := ActOf(s, c, ok);
    assert t.calls == s.calls[c := t.calls[c]];
    if s.calls[c].Inside? && !Unlocks(s.calls[c].phase) {
      PhaseWord(c, s.calls[c].phase, s.g, ok);
    } else {
      OutsideWord(s, c, ok);
    }
  }

  lemma ActKeepsExplained(s: State, c: nat, ok: bool)
    requires Inv(s) && Enabled(s, Act(c, ok)) && Explained(s)
    ensures Explained(ActOf(s, c, ok))
  {
    ActWord(s, c, ok);
    var t := ActOf(s, c, ok);
    forall d: nat | d < |s.calls| && d != c ensures t.calls[d] == s.calls[d] {}
    if t.word == s.word && s.word.Dumping? {
      var d: nat :| d < |s.calls| && StopBusy(s.calls[d]);
      assert StopBusy(t.calls[d]);
    } else if t.word == s.word && s.word.Running? {
      if d: nat :| d < |s.calls| && StartBusy(s.calls[d]) {
        assert d != c ==> StartBusy(t.calls[d]);
        assert d == c ==> StartBusy(t.calls[c]) || t.g.server.Some?;
      } else if d: nat :| d < |s.calls| && s.calls[d].Inside? && StopPhase(s.calls[d].phase) {
        assert t.calls[d].Inside? && StopPhase(t.calls[d].phase);
      } else {
        assert t.g.server == s.g.server;
      }
    } else if !t.word.Stopped? {
      assert StartBusy(t.calls[c]) || StopBusy(t.calls[c]);
    }
  }

  lemma BeginKeepsExplained(s: State, pc: Pc)
    requires Explained(s)
    ensures Explained(s.(calls := s.calls + [pc]))
  {
    var t := s.(calls := s.calls + [pc]);
    forall d: nat | d < |s.calls| ensures t.calls[d] == s.calls[d] {}
    if SomeStop(s) { var d: nat :| d < |s.calls| && StopBusy(s.calls[d]); assert StopBusy(t.calls[d]); }
    if SomeStart(s) { var d: nat :| d < |s.calls| && StartBusy(s.calls[d]); assert StartBusy(t.calls[d]); }
    if SomeStopInside(s) {
      var d: nat :| d < |s.calls| && s.calls[d].Inside? && StopPhase(s.calls[d].phase);
      assert t.calls[d].Inside? && StopPhase(t.calls[d].phase);
    }
  }

  lemma {:induction false} RunKeepsExplained(steps: seq<Step>)
    requires IsRun(steps)
    ensures Explained(Final(steps))
    decreases |steps|
  {
    if steps != [] {
      var front, last := steps[..|steps| - 1], steps[|steps| - 1];
      RunKeepsExplained(front);
      RunKeepsInv(front);
      match last {
        case BeginStart => BeginKeepsExplained(Final(front), StartCas);
        case BeginStop => BeginKeepsExplained(Final(front), StopCas);
        case Act(c, ok) => ActKeepsExplained(Final(front), c, ok);
      }
    }
  }

  ghost predicate Quiescent(s: State) {
    forall c :: 0 <= c < |s.calls| ==> s.calls[c].StartDone? || s.calls[c].StopDone?
  }

  lemma QuiescentIsUnlocked(s: State)
    requires Inv(s) && Quiescent(s)
    ensures s.mutex.None? && !SomeStart(s) && !SomeStop(s) && !SomeStopInside(s)
  {
  }

  /** Once all calls have returned, the word is not dumping, and it says running only if a session is live. */
  lemma RunningMeansLive(steps: seq<Step>)
    requires IsRun(steps) && Quiescent(Final(steps))
    ensures !Final(steps).word.Dumping?
    ensures Final(steps).word.Running? ==> Final(steps).g.server.Some? && Final(steps).g.profiler
  {
    RunKeepsInv(steps);
    RunKeepsExplained(steps);
    QuiescentIsUnlocked(Final(steps));
  }

  // ---- The converse needs Stops that do not overtake Starts ----

  /** The step is a Stop that wins its swap while a Start has won its own but not finished. */
  ghost predicate Overtakes(s: State, step: Step) {
    step.Act? && step.call < |s.calls| && s.calls[step.call].StopCas? && s.word.Running? && SomeStart(s)
  }

  ghost predicate NoOvertaking(steps: seq<Step>)
    requires IsRun(steps)
    decreases |steps|
  {
    steps == [] ||
    (NoOvertaking(steps[..|steps| - 1]) && !Overtakes(Final(steps[..|steps| - 1]), steps[|steps| - 1]))
  }

  /** The calls that have changed the word and will change it again, or open the session it announces. */
  predicate Owner(pc: Pc) { StartBusy(pc) || StopBusy(pc) }

  ghost predicate OneOwner(s: State) {
    forall c, d :: 0 <= c < d < |s.calls| ==> !(Owner(s.calls[c]) && Owner(s.calls[d]))
  }

  /** A Start that has not yet started the profiler. */
  predicate BeforeProfile(pc: Pc) {
    pc.StartLock?
    || (pc.Inside? && (pc.phase.MakeDir? || pc.phase.CreateFile? || pc.phase.StartProfile? || pc.phase.StoreStopped?))
  }

  ghost predicate WordAgrees(s: State) {
    && OneOwner(s)
    && (forall c: nat :: c < |s.calls| ==>
          && (StartBusy(s.calls[c]) ==> s.word.Running?)
          && (StopBusy(s.calls[c]) ==> s.word.Dumping?)
          && (BeforeProfile(s.calls[c]) ==> s.g.server.None?))
    && (s.word.Stopped? ==> s.g.server.None?)
  }

  /** What a step does to ownership of the word. */
  ghost predicate OwnerStep(s: State, t: State, p: Pc, q: Pc) {
    && (Owner(q) && !Owner(p) ==>
          || (p.StartCas? && q.StartLock? && s.word.Stopped? && t.word.Running?)
          || (p.StopCas? && q.StopLock? && s.word.Running? && t.word.Dumping?))
    && (Owner(q) && Owner(p) ==> t.word == s.word && (StartBusy(q) <==> StartBusy(p)))
    && (BeforeProfile(q) && !p.StartCas? ==> BeforeProfile(p) || t.g.server.None?)
    && (Owner(p) && !Owner(q) && t.word.Stopped? && !s.word.Stopped? ==>
          (StopBusy(p) && t.g.server.None?) || (BeforeProfile(p) && t.g.server == s.g.server))
    && (t.word.Stopped? && !s.word.Stopped? ==> Owner(p) && !Owner(q))
    && (t.g.server.Some? && s.g.server.None? ==> StartBusy(p) && !BeforeProfile(p) && !BeforeProfile(q))
    && (!Owner(p) && !Owner(q) ==> t.word == s.word)
  }

  lemma PhaseOwner(s: State, t: State, c: nat, p: Phase, p': Phase, g': Guarded, ok: bool)
    requires InsideStep(s, t, c, p, p', g') && PhaseNext(c, p, s.g, ok) == (p', g') && Shape(c, p, s.g)
    ensures OwnerStep(s, t, Inside(p), Inside(p'))
  {
  }

  lemma OutsideOwner(s: State, c: nat, ok: bool)
    requires Enabled(s, Act(c, ok)) && (s.calls[c].Inside? ==> Unlocks(s.calls[c].phase))
    ensures OwnerStep(s, ActOf(s, c, ok), s.calls[c], ActOf(s, c, ok).calls[c])
  {
  }

  lemma ActOwner(s: State, c: nat, ok: bool)
    requires Inv(s) && Enabled(s, Act(c, ok))
    ensures OwnerStep(s, ActOf(s, c, ok), s.calls[c], ActOf(s, c, ok).calls[c])
  {
    assert CallOk(s, c);
    if s.calls[c].Inside? && !Unlocks(s.calls[c].phase) {
      var (p', g') := PhaseNext(c, s.calls[c].phase, s.g, ok);
      ActInside(s, c, ok);
      PhaseOwner(s, ActOf(s, c, ok), c, s.calls[c].phase, p', g', ok);
    } else {
      OutsideOwner(s, c, ok);
    }
  }

  lemma ActKeepsAgreement(s: State, c: nat, ok: bool)
    requires Inv(s) && Enabled(s, Act(c, ok)) && WordAgrees(s) && !Overtakes(s, Act(c, ok))
    ensures WordAgrees(ActOf(s, c, ok))
  {
    var t := ActOf(s, c, ok);
    ActWord(s, c, ok);
    ActOwner(s, c, ok);
    assert CallOk(s, c);
    forall d: nat | d < |s.calls| && d != c ensures t.calls[d] == s.calls[d] {}
    forall d: nat | d < |s.calls| && d != c && Owner(t.calls[c]) ensures !Owner(t.calls[d]) {
      if StartBusy(s.calls[d]) && s.calls[c].StopCas? { assert SomeStart(s); }
    }
  }

  lemma BeginKeepsAgreement(s: State, pc: Pc)
    requires WordAgrees(s) && (pc.StartCas? || pc.StopCas?)
    ensures WordAgrees(s.(calls := s.calls + [pc]))
  {
    var t := s.(calls := s.calls + [pc]);
    forall d: nat | d < |s.calls| ensures t.calls[d] == s.calls[d] {}
  }

  lemma {:induction false} RunKeepsAgreement(steps: seq<Step>)
    requires IsRun(steps) && NoOvertaking(steps)
    ensures WordAgrees(Final(steps))
    decreases |steps|
  {
    if steps != [] {
      var front, last := steps[..|steps| - 1], steps[|steps| - 1];
      RunKeepsAgreement(front);
      RunKeepsInv(front);
      match last {
        case BeginStart => BeginKeepsAgreement(Final(front), StartCas);
        case BeginStop => BeginKeepsAgreement(Final(front), StopCas);
        case Act(c, ok) => ActKeepsAgreement(Final(front), c, ok);
      }
    }
  }

  /**
   As long as no Stop overtakes a Start, calls may overlap in any way: once all have returned, the word is running
   exactly when a session is live, and stopped otherwise.
   */
  lemma WordTellsTheTruth(steps: seq<Step>)
    requires IsRun(steps) && NoOvertaking(steps) && Quiescent(Final(steps))
    ensures var s := Final(steps); s.word == if s.g.server.Some? then Running else Stopped
  {
    RunKeepsAgreement(steps);
    RunningMeansLive(steps);
  }
}
