/** When a run of LuaProtocol comes to rest, and when a panic of respFn keeps it from doing so. */
module LuaSettling {
  import opened LuaProtocol
  import opened LuaProperties

  /** A respFn has panicked on the fast path. */
  ghost predicate SomeStranded(s: State) {
    exists c: nat :: c < |s.calls| && s.calls[c].pc.Stranded?
  }

  /** The call has been told NOSCRIPT and must get the write lock before it can go on. */
  predicate Doomed(pc: CallPc) {
    pc == Unlocking(NoScript) || pc.WantClear? || pc.WaitClear?
  }

  ghost predicate SomeDoomed(s: State) {
    exists c: nat :: c < |s.calls| && Doomed(s.calls[c].pc)
  }

  /** Either nobody holds the lock for good, or nobody needs it and the server can run the script by its SHA. */
  ghost predicate Free(x: Setup, s: State) {
    !SomeStranded(s) || (!SomeDoomed(s) && x.scriptSha in s.scripts)
  }

  // ---- While the lock is not in the way ----

  /** A step of a call in which nothing fails and respFn accepts. */
  function GoodAction(pc: CallPc): CallAction
    requires !Ended(pc)
  {
    match pc
    case Start => AcquireRead
    case Checking => CheckSha
    case Checked => ReadSha
    case Sending(_) => EvalSha
    case Ran => Respond(Accept)
    case Unlocking(_) => ReleaseRead
    case WantClear => AnnounceWrite
    case WaitClear => AcquireWrite
    case Clearing => Clear
    case Slow => Eval
    case SlowRan => Answer(Accept)
  }

  function GoodRepair(pc: RepairPc): RepairAction
    requires !pc.Finished?
  {
    match pc
    case Waiting => RepairAnnounce
    case WaitLock => RepairLock
    case Holding => RepairCheck
    case Loading => RepairLoad
    case Loaded => RepairStore
  }

  predicate GoodStep(s: State, step: Step) {
    match step
    case CallStep(c, a) => c < |s.calls| && !Ended(s.calls[c].pc) && a == GoodAction(s.calls[c].pc)
    case RepairStep(r, a) => r < |s.repairs| && !s.repairs[r].Finished? && a == GoodRepair(s.repairs[r])
    case _ => false
  }

  /** No deadlock: unless a stranded reader meets a call that needs the write lock, something can step. */
  lemma NeverStuck(x: Setup, s0: State, s: State) returns (step: Step)
    requires Inv(x, s0, s) && !Quiescent(s) && (!SomeStranded(s) || !SomeDoomed(s))
    ensures Enabled(s, step) && GoodStep(s, step)
  {
    match s.writer {
      case Held(CallHolder(c)) =>
        assert CallOk(x, s, c);
        step := CallStep(c, Clear);
      case Held(RepairHolder(r)) =>
        assert RepairOk(s, r);
        step := RepairStep(r, GoodRepair(s.repairs[r]));
      case Pending(holder) =>
        step := PendingSteps(x, s0, s);
      case NoHolder =>
        step := OpenSteps(x, s0, s);
    }
  }

  lemma StrandedHasRespFn(x: Setup, s0: State, s: State)
    requires Inv(x, s0, s) && SomeStranded(s)
    ensures x.hasRespFn && s.repairs == [] && s.readers != {}
  {
    var c: nat :| c < |s.calls| && s.calls[c].pc.Stranded?;
    assert CallOk(x, s, c);
  }

  /** A writer waits: a reader can leave, or else the writer can go in. */
  lemma PendingSteps(x: Setup, s0: State, s: State) returns (step: Step)
    requires Inv(x, s0, s) && s.writer.Pending? && (!SomeStranded(s) || !SomeDoomed(s))
    ensures Enabled(s, step) && GoodStep(s, step)
  {
    if SomeStranded(s) { StrandedHasRespFn(x, s0, s); }
    match s.writer.holder {
      case CallHolder(c) =>
        assert CallOk(x, s, c) && Doomed(s.calls[c].pc);
        step := CallStep(c, AcquireWrite);
      case RepairHolder(r) =>
        assert RepairOk(s, r);
        step := RepairStep(r, RepairLock);
    }
    if s.readers != {} {
      var d :| d in s.readers;
      assert CallOk(x, s, d);
      step := CallStep(d, GoodAction(s.calls[d].pc));
    }
  }

  /** Nobody has or awaits the write lock: whoever has not ended can step. */
  lemma OpenSteps(x: Setup, s0: State, s: State) returns (step: Step)
    requires Inv(x, s0, s) && s.writer.NoHolder? && !Quiescent(s)
    ensures Enabled(s, step) && GoodStep(s, step)
  {
    if c: nat :| c < |s.calls| && !Ended(s.calls[c].pc) {
      assert CallOk(x, s, c);
      step := CallStep(c, GoodAction(s.calls[c].pc));
    } else {
      var r: nat :| r < |s.repairs| && !s.repairs[r].Finished?;
      assert RepairOk(s, r);
      step := RepairStep(r, GoodRepair(s.repairs[r]));
    }
  }

  /** Good steps bring neither a failure nor a panic, and beside a stranded reader they doom nobody. */
  lemma GoodStepKeepsFree(x: Setup, s0: State, s: State, step: Step)
    requires Inv(x, s0, s) && Enabled(s, step) && GoodStep(s, step) && Free(x, s)
    ensures var t := Next(x, s, step); Free(x, t) && t.faults == s.faults && |t.calls| == |s.calls|
  {
    var t := Next(x, s, step);
    if step.CallStep? {
      assert CallOk(x, s, step.call);
      forall d: nat | d < |s.calls| && d != step.call ensures t.calls[d] == s.calls[d] {}
      assert !t.calls[step.call].pc.Stranded?;
      if SomeStranded(s) { assert !Doomed(t.calls[step.call].pc); }
    }
  }

  /** t is at rest, with no more failures and no more calls than s. */
  ghost predicate SettledLike(s: State, t: State) {
    Quiescent(t) && t.faults == s.faults && |t.calls| == |s.calls|
  }

  lemma {:induction false} FreeRunsSettle(x: Setup, s0: State, steps: seq<Step>) returns (longer: seq<Step>)
    requires Initial(x, s0) && IsRun(x, s0, steps) && Free(x, Final(x, s0, steps))
    ensures IsRun(x, s0, longer) && steps <= longer && SettledLike(Final(x, s0, steps), Final(x, s0, longer))
    decreases Remaining(Final(x, s0, steps))
  {
    if Quiescent(Final(x, s0, steps)) {
      longer := steps;
    } else {
      var step := FreeStep(x, s0, steps);
      RemainingIsNatural(Final(x, s0, steps + [step]));
      longer := FreeRunsSettle(x, s0, steps + [step]);
    }
  }

  lemma FreeStep(x: Setup, s0: State, steps: seq<Step>) returns (step: Step)
    requires Initial(x, s0) && IsRun(x, s0, steps) && Free(x, Final(x, s0, steps)) && !Quiescent(Final(x, s0, steps))
    ensures IsRun(x, s0, steps + [step]) && Free(x, Final(x, s0, steps + [step]))
    ensures var s, t := Final(x, s0, steps), Final(x, s0, steps + [step]);
            Remaining(t) < Remaining(s) && t.faults == s.faults && |t.calls| == |s.calls|
  {
    var s := Final(x, s0, steps);
    RunKeepsInv(x, s0, steps);
    step := NeverStuck(x, s0, s);
    GoodStepKeepsFree(x, s0, s, step);
    ExtendRun(x, s0, steps, step);
    ProgressDecreases(x, s, step);
  }

  // ---- When the lock is in the way ----

  lemma OthersStay(x: Setup, s: State, step: Step, e: nat)
    requires Enabled(s, step) && e < |s.calls| && !(step.CallStep? && step.call == e)
    ensures e < |Next(x, s, step).calls| && Next(x, s, step).calls[e] == s.calls[e]
  {
  }

  lemma DoomedStays(x: Setup, s: State, d: nat, a: CallAction)
    requires CallEnabled(s, d, a) && Doomed(s.calls[d].pc) && s.readers != {}
    ensures Doomed(CallNext(x, s, d, a).calls[d].pc)
  {
  }

  /** A stranded reader stays where it is, and a call that needs the write lock stays without it. */
  lemma StaysStuck(x: Setup, s0: State, s: State, step: Step, c: nat, d: nat)
    requires Inv(x, s0, s) && Enabled(s, step)
    requires c < |s.calls| && s.calls[c].pc.Stranded? && d < |s.calls| && Doomed(s.calls[d].pc)
    ensures var t := Next(x, s, step);
            c < |t.calls| && t.calls[c].pc.Stranded? && d < |t.calls| && Doomed(t.calls[d].pc)
  {
    assert CallOk(x, s, c) && c in s.readers;
    OthersStay(x, s, step, c);
    if step.CallStep? && step.call == d {
      DoomedStays(x, s, d, step.action);
    } else {
      OthersStay(x, s, step, d);
    }
  }

  lemma {:induction false} StuckForGood(x: Setup, s0: State, steps: seq<Step>, longer: seq<Step>, c: nat, d: nat)
    requires Initial(x, s0) && IsRun(x, s0, steps) && IsRun(x, s0, longer) && steps <= longer
    requires var s := Final(x, s0, steps);
             c < |s.calls| && s.calls[c].pc.Stranded? && d < |s.calls| && Doomed(s.calls[d].pc)
    ensures var t := Final(x, s0, longer);
            c < |t.calls| && t.calls[c].pc.Stranded? && d < |t.calls| && Doomed(t.calls[d].pc)
    decreases |longer|
  {
    if steps != longer {
      var front := longer[..|longer| - 1];
      StuckForGood(x, s0, steps, front, c, d);
      RunKeepsInv(x, s0, front);
      StaysStuck(x, s0, Final(x, s0, front), longer[|longer| - 1], c, d);
    }
  }

  ghost predicate CanSettle(x: Setup, s0: State, steps: seq<Step>)
    requires IsRun(x, s0, steps)
  {
    exists longer :: SettlesIn(x, s0, steps, longer)
  }

  ghost predicate SettlesIn(x: Setup, s0: State, steps: seq<Step>, longer: seq<Step>)
    requires IsRun(x, s0, steps)
  {
    steps <= longer && IsRun(x, s0, longer) && SettledLike(Final(x, s0, steps), Final(x, s0, longer))
  }

  /**
   Exactly when a run can still come to rest, with no more failures and calls: no respFn has panicked on the fast
   path, or no call has been told NOSCRIPT and waits for the write lock. Otherwise no continuation at all comes to
   rest.
   */
  lemma SettlesIff(x: Setup, s0: State, steps: seq<Step>)
    requires Initial(x, s0) && IsRun(x, s0, steps)
    ensures CanSettle(x, s0, steps) <==> !SomeStranded(Final(x, s0, steps)) || !SomeDoomed(Final(x, s0, steps))
    ensures !CanSettle(x, s0, steps) ==>
              forall longer {:trigger IsRun(x, s0, longer)} ::
                steps <= longer && IsRun(x, s0, longer) ==> !Quiescent(Final(x, s0, longer))
  {
    var s := Final(x, s0, steps);
    if SomeStranded(s) && SomeDoomed(s) {
      var c: nat :| c < |s.calls| && s.calls[c].pc.Stranded?;
      var d: nat :| d < |s.calls| && Doomed(s.calls[d].pc);
      forall longer | steps <= longer && IsRun(x, s0, longer) ensures !Quiescent(Final(x, s0, longer)) {
        StuckForGood(x, s0, steps, longer, c, d);
      }
    } else {
      var loaded := CacheChange(s.scripts + {x.scriptSha});
      ExtendRun(x, s0, steps, loaded);
      LoadingFrees(x, s);
      var longer := FreeRunsSettle(x, s0, steps + [loaded]);
      assert SettlesIn(x, s0, steps, longer);
    }
  }

  lemma LoadingFrees(x: Setup, s: State)
    requires !SomeStranded(s) || !SomeDoomed(s)
    ensures Free(x, s.(scripts := s.scripts + {x.scriptSha}))
  {
  }

  // ---- Runs that cannot go on ----

  /** No call and no repair can take a step. */
  ghost predicate Halted(s: State) {
    forall step {:trigger Enabled(s, step)} :: IsProgress(step) ==> !Enabled(s, step)
  }

  predicate WantsWrite(pc: CallPc) { pc.WantClear? || pc.WaitClear? }

  /**
   A run in which no call or repair can step any more has come to rest exactly if no respFn has panicked on the fast
   path, or no call is left wanting the write lock.
   */
  lemma HaltedAtRestIff(x: Setup, s0: State, steps: seq<Step>)
    requires Initial(x, s0) && IsRun(x, s0, steps) && Halted(Final(x, s0, steps))
    ensures var s := Final(x, s0, steps);
            Quiescent(s) <==> !SomeStranded(s) || forall c :: 0 <= c < |s.calls| ==> !WantsWrite(s.calls[c].pc)
  {
    var s := Final(x, s0, steps);
    RunKeepsInv(x, s0, steps);
    if SomeDoomed(s) {
      var c: nat :| c < |s.calls| && Doomed(s.calls[c].pc);
      assert !Enabled(s, CallStep(c, ReleaseRead));
      assert WantsWrite(s.calls[c].pc);
    }
    if !Quiescent(s) && (!SomeStranded(s) || !SomeDoomed(s)) {
      var step := NeverStuck(x, s0, s);
    }
  }

  /** Until then some call or repair can step, and only so often: every run that keeps stepping halts. */
  lemma {:induction false} RunsHalt(x: Setup, s0: State, steps: seq<Step>) returns (longer: seq<Step>)
    requires Initial(x, s0) && IsRun(x, s0, steps)
    ensures IsRun(x, s0, longer) && steps <= longer && Halted(Final(x, s0, longer))
    decreases Remaining(Final(x, s0, steps))
  {
    var s := Final(x, s0, steps);
    if step :| IsProgress(step) && Enabled(s, step) {
      ExtendRun(x, s0, steps, step);
      ProgressDecreases(x, s, step);
      RemainingIsNatural(Next(x, s, step));
      longer := RunsHalt(x, s0, steps + [step]);
    } else {
      longer := steps;
    }
  }

  // ---- Nobody gets in any more ----

  /**
   Beside a stranded reader call d waits for the write lock for good, and keeps out every call that has not started.
   */
  ghost predicate LockedOut(s: State, c: nat, d: nat) {
    && c < |s.calls| && s.calls[c].pc.Stranded?
    && d < |s.calls| && s.calls[d].pc.WaitClear? && s.writer == Pending(CallHolder(d))
  }

  /** While a writer waits and a reader is in, no step of another call, or of a repair, changes who is next. */
  lemma PendingStays(x: Setup, s: State, step: Step, d: nat)
    requires Enabled(s, step) && s.writer == Pending(CallHolder(d)) && s.readers != {}
    requires step.CallStep? ==> CallOk(x, s, step.call)
    requires step.RepairStep? ==> RepairOk(s, step.repair)
    ensures Next(x, s, step).writer == s.writer
  {
  }

  lemma NewcomerStays(x: Setup, s: State, step: Step, e: nat)
    requires Enabled(s, step) && s.writer.Pending? && (e >= |s.calls| || s.calls[e].pc.Start?)
    ensures e >= |Next(x, s, step).calls| || Next(x, s, step).calls[e].pc.Start?
  {
    if e < |s.calls| { OthersStay(x, s, step, e); }
  }

  lemma StaysLockedOut(x: Setup, s0: State, s: State, step: Step, c: nat, d: nat)
    requires Inv(x, s0, s) && Enabled(s, step) && LockedOut(s, c, d)
    ensures LockedOut(Next(x, s, step), c, d)
  {
    assert CallOk(x, s, c) && CallOk(x, s, d) && c in s.readers;
    if step.CallStep? { assert CallOk(x, s, step.call); }
    if step.RepairStep? { assert RepairOk(s, step.repair); }
    PendingStays(x, s, step, d);
    OthersStay(x, s, step, c);
    OthersStay(x, s, step, d);
  }

  /** A call that has not taken the read lock by then, or begins later, never does. */
  lemma {:induction false} NobodyGetsIn(
    x: Setup, s0: State, steps: seq<Step>, longer: seq<Step>, c: nat, d: nat, e: nat)
    requires Initial(x, s0) && IsRun(x, s0, steps) && IsRun(x, s0, longer) && steps <= longer
    requires var s := Final(x, s0, steps); LockedOut(s, c, d) && (e >= |s.calls| || s.calls[e].pc.Start?)
    ensures var t := Final(x, s0, longer); LockedOut(t, c, d) && (e >= |t.calls| || t.calls[e].pc.Start?)
    decreases |longer|
  {
    if steps != longer {
      var front := longer[..|longer| - 1];
      NobodyGetsIn(x, s0, steps, front, c, d, e);
      RunKeepsInv(x, s0, front);
      StaysLockedOut(x, s0, Final(x, s0, front), longer[|longer| - 1], c, d);
      NewcomerStays(x, Final(x, s0, front), longer[|longer| - 1], e);
    }
  }

  // ---- Such a run ----

  lemma Extend(x: Setup, s0: State, steps: seq<Step>, step: Step, t: State) returns (longer: seq<Step>)
    requires IsRun(x, s0, steps) && Enabled(Final(x, s0, steps), step) && Next(x, Final(x, s0, steps), step) == t
    ensures IsRun(x, s0, longer) && Final(x, s0, longer) == t
  {
    ExtendRun(x, s0, steps, step);
    longer := steps + [step];
  }

  const PANICKY := Setup("sha", true)

  function At(readers: set<nat>, writer: WriteLock, scripts: set<string>, effects: nat, calls: seq<Call>): State {
    State("sha", readers, writer, scripts, effects, calls, [], 0, 0, 0, 0)
  }

  const LOADED := At({}, NoHolder, {"sha"}, 0, [])

  const LEFT := Call(Stranded, 1, false, false)

  /** The SHA is cached, the server has the script, and respFn panics on its reply. */
  lemma FastPathPanics() returns (steps: seq<Step>)
    ensures IsRun(PANICKY, LOADED, steps)
    ensures Final(PANICKY, LOADED, steps) == At({0}, NoHolder, {"sha"}, 1, [LEFT])
  {
    steps := [];
    for i := 0 to 5
      invariant IsRun(PANICKY, LOADED, steps)
      invariant Final(PANICKY, LOADED, steps) == PanicState(i)
    {
      PanicStep(i);
      steps := Extend(PANICKY, LOADED, steps, PanicScript(i), PanicState(i + 1));
    }
    steps := Extend(PANICKY, LOADED, steps, CallStep(0, Respond(Panic)), At({0}, NoHolder, {"sha"}, 1, [LEFT]));
  }

  function PanicScript(i: nat): Step {
    match i
    case 0 => Begin
    case 1 => CallStep(0, AcquireRead)
    case 2 => CallStep(0, CheckSha)
    case 3 => CallStep(0, ReadSha)
    case _ => CallStep(0, EvalSha)
  }

  function PanicState(i: nat): State {
    match i
    case 0 => LOADED
    case 1 => At({}, NoHolder, {"sha"}, 0, [Call(Start, 0, false, false)])
    case 2 => At({0}, NoHolder, {"sha"}, 0, [Call(Checking, 0, false, false)])
    case 3 => At({0}, NoHolder, {"sha"}, 0, [Call(Checked, 0, false, false)])
    case 4 => At({0}, NoHolder, {"sha"}, 0, [Call(Sending("sha"), 0, false, false)])
    case _ => At({0}, NoHolder, {"sha"}, 1, [Call(Ran, 1, false, false)])
  }

  lemma PanicStep(i: nat)
    requires i < 5
    ensures Enabled(PanicState(i), PanicScript(i))
    ensures Next(PANICKY, PanicState(i), PanicScript(i)) == PanicState(i + 1)
  {
    assert {} + {0} == {0};
  }

  function FlushedState(i: nat): State {
    match i
    case 0 => At({0}, NoHolder, {}, 1, [LEFT])
    case 1 => At({0}, NoHolder, {}, 1, [LEFT, Call(Start, 0, false, false)])
    case 2 => At({0, 1}, NoHolder, {}, 1, [LEFT, Call(Checking, 0, false, false)])
    case 3 => At({0, 1}, NoHolder, {}, 1, [LEFT, Call(Checked, 0, false, false)])
    case 4 => At({0, 1}, NoHolder, {}, 1, [LEFT, Call(Sending("sha"), 0, false, false)])
    case 5 => At({0, 1}, NoHolder, {}, 1, [LEFT, Call(Unlocking(NoScript), 0, false, false)])
    case 6 => At({0}, NoHolder, {}, 1, [LEFT, Call(WantClear, 0, false, false)])
    case _ => At({0}, Pending(CallHolder(1)), {}, 1, [LEFT, Call(WaitClear, 0, false, false)])
  }

  function FlushedScript(i: nat): Step {
    match i
    case 0 => Begin
    case 1 => CallStep(1, AcquireRead)
    case 2 => CallStep(1, CheckSha)
    case 3 => CallStep(1, ReadSha)
    case 4 => CallStep(1, EvalSha)
    case 5 => CallStep(1, ReleaseRead)
    case _ => CallStep(1, AnnounceWrite)
  }

  lemma FlushedStep(i: nat)
    requires i < 7
    ensures Enabled(FlushedState(i), FlushedScript(i))
    ensures Next(PANICKY, FlushedState(i), FlushedScript(i)) == FlushedState(i + 1)
  {
    assert {0} + {1} == {0, 1} && {0, 1} - {1} == {0};
  }

  /** One panic, a flush of the server's scripts, and one more call: nothing ever comes to rest, and nobody gets in. */
  lemma PanicDeadlocks() returns (steps: seq<Step>)
    ensures Initial(PANICKY, LOADED) && IsRun(PANICKY, LOADED, steps) && !CanSettle(PANICKY, LOADED, steps)
    ensures LockedOut(Final(PANICKY, LOADED, steps), 0, 1) && Final(PANICKY, LOADED, steps).faults == 0
  {
    steps := FastPathPanics();
    steps := Extend(PANICKY, LOADED, steps, CacheChange({}), FlushedState(0));
    for i := 0 to 7
      invariant IsRun(PANICKY, LOADED, steps) && Final(PANICKY, LOADED, steps) == FlushedState(i)
    {
      FlushedStep(i);
      steps := Extend(PANICKY, LOADED, steps, FlushedScript(i), FlushedState(i + 1));
    }
    var s := Final(PANICKY, LOADED, steps);
    assert s.calls[0].pc.Stranded? && Doomed(s.calls[1].pc);
    SettlesIff(PANICKY, LOADED, steps);
  }
}
