/**
 Why the cached SHA is cleared, and why a call returns what it does, in every run of LuaProtocol: told from the requests
 and answers among the steps of the run alone.
 */
module LuaCauses {
  import opened LuaProtocol
  import opened LuaProperties

  // ---- What the steps of a run say ----

  /** The step tells its call NOSCRIPT: the server lacks the script, a failure has such a text, or respFn answers so. */
  ghost predicate TellsNoScript(x: Setup, s: State, step: Step) {
    step.CallStep? &&
    match step.action
    case EvalSha => x.scriptSha !in s.scripts
    case EvalShaFault(_, noScript) => noScript
    case Respond(v) => x.hasRespFn && v == Reject(true)
    case _ => false
  }

  /** The step answers its call to respFn's satisfaction, if there is a respFn. */
  ghost predicate Satisfies(x: Setup, step: Step) {
    step.CallStep? &&
    match step.action
    case Respond(v) => x.hasRespFn ==> v == Accept
    case Answer(v) => x.hasRespFn ==> v == Accept
    case _ => false
  }

  /** The step runs the script on the server. */
  ghost predicate RunsScript(x: Setup, s: State, step: Step) {
    step.CallStep? &&
    match step.action
    case EvalSha => x.scriptSha in s.scripts
    case EvalShaFault(executed, _) => executed
    case Eval => true
    case EvalFault(executed) => executed
    case _ => false
  }

  /** The calls that were told NOSCRIPT, that have cleared the SHA, that were satisfied; and the script runs. */
  datatype History = History(told: set<nat>, cleared: set<nat>, satisfied: set<nat>, runs: nat)

  ghost function With(calls: set<nat>, added: bool, step: Step): set<nat>
    requires added ==> step.CallStep?
  {
    if added then calls + {step.call} else calls
  }

  ghost function HistoryAfter(x: Setup, s: State, step: Step, h: History): History {
    History(With(h.told, TellsNoScript(x, s, step), step),
            With(h.cleared, step.CallStep? && step.action.Clear?, step),
            With(h.satisfied, Satisfies(x, step), step),
            if RunsScript(x, s, step) then h.runs + 1 else h.runs)
  }

  ghost function HistoryOf(x: Setup, s0: State, steps: seq<Step>): History
    requires IsRun(x, s0, steps)
    decreases |steps|
  {
    if steps == [] then History({}, {}, {}, 0)
    else
      var front, last := steps[..|steps| - 1], steps[|steps| - 1];
      HistoryAfter(x, Final(x, s0, front), last, HistoryOf(x, s0, front))
  }

  // ---- How far a call has got ----

  /** Told NOSCRIPT, and on the way to clearing the SHA. */
  predicate WillClear(pc: CallPc) {
    pc == Unlocking(NoScript) || pc.WantClear? || pc.WaitClear? || pc.Clearing?
  }

  predicate PastFastPath(pc: CallPc) { pc.Slow? || pc.SlowRan? || pc.Done? }

  predicate Content(pc: CallPc) { pc == Unlocking(NoError) || pc == Done(true) }

  ghost predicate Explained(calls: seq<Call>, h: History, c: nat) {
    if c < |calls| then
      var pc := calls[c].pc;
      && (c in h.told <==> WillClear(pc) || c in h.cleared)
      && (c in h.cleared ==> PastFastPath(pc))
      && (c in h.satisfied <==> Content(pc))
    else
      c !in h.told && c !in h.cleared && c !in h.satisfied
  }

  ghost predicate HistoryOk(s: State, h: History) {
    && (forall c: nat {:trigger Explained(s.calls, h, c)} :: Explained(s.calls, h, c))
    && s.effects == h.runs && s.clears <= |h.cleared|
  }

  lemma CallStepExplained(x: Setup, s: State, c: nat, a: CallAction, h: History)
    requires CallEnabled(s, c, a) && ShaKnown(x, s, c) && Explained(s.calls, h, c)
    ensures Explained(CallNext(x, s, c, a).calls, HistoryAfter(x, s, CallStep(c, a), h), c)
  {
  }

  /** A step leaves the history of every call but its own as it is. */
  lemma OthersExplained(x: Setup, s: State, step: Step, h: History, d: nat)
    requires Enabled(s, step) && Explained(s.calls, h, d) && !(step.CallStep? && step.call == d)
    ensures Explained(Next(x, s, step).calls, HistoryAfter(x, s, step, h), d)
  {
    if step.CallStep? && d < |s.calls| {
      assert Next(x, s, step).calls[d] == s.calls[d];
    }
  }

  /** Script runs and clears are counted as they happen; a call clears once. */
  lemma CallStepCounts(x: Setup, s: State, c: nat, a: CallAction, h: History)
    requires CallEnabled(s, c, a) && ShaKnown(x, s, c) && s.effects == h.runs && s.clears <= |h.cleared|
    requires s.calls[c].pc.Clearing? ==> c !in h.cleared
    ensures var t, g := CallNext(x, s, c, a), HistoryAfter(x, s, CallStep(c, a), h);
            t.effects == g.runs && t.clears <= |g.cleared|
  {
  }

  lemma StepCounts(x: Setup, s: State, step: Step, h: History)
    requires Enabled(s, step) && s.effects == h.runs && s.clears <= |h.cleared|
    requires step.CallStep? ==> ShaKnown(x, s, step.call) && Explained(s.calls, h, step.call)
    ensures var t, g := Next(x, s, step), HistoryAfter(x, s, step, h); t.effects == g.runs && t.clears <= |g.cleared|
  {
    if step.CallStep? { CallStepCounts(x, s, step.call, step.action, h); }
  }

  lemma {:induction false} RunKeepsHistory(x: Setup, s0: State, steps: seq<Step>)
    requires Initial(x, s0) && IsRun(x, s0, steps)
    ensures HistoryOk(Final(x, s0, steps), HistoryOf(x, s0, steps))
    decreases |steps|
  {
    if steps != [] {
      var front, last := steps[..|steps| - 1], steps[|steps| - 1];
      var s, h := Final(x, s0, front), HistoryOf(x, s0, front);
      RunKeepsHistory(x, s0, front);
      RunKeepsInv(x, s0, front);
      if last.CallStep? { assert CallOk(x, s, last.call) && Explained(s.calls, h, last.call); }
      StepCounts(x, s, last, h);
      forall d: nat ensures Explained(Next(x, s, last).calls, HistoryAfter(x, s, last, h), d) {
        assert Explained(s.calls, h, d);
        if last.CallStep? && last.call == d {
          CallStepExplained(x, s, d, last.action, h);
        } else {
          OthersExplained(x, s, last, h, d);
        }
      }
    }
  }

  // ---- What follows ----

  /**
   The SHA is cleared on behalf of calls told NOSCRIPT and of no others, and at most once for each; and each of them
   has cleared it before it goes on to the slow path.
   */
  lemma ClearedIffTold(x: Setup, s0: State, steps: seq<Step>, c: nat)
    requires Initial(x, s0) && IsRun(x, s0, steps)
    ensures var s, h := Final(x, s0, steps), HistoryOf(x, s0, steps);
            && h.cleared <= h.told && s.clears <= |h.cleared|
            && (c < |s.calls| && PastFastPath(s.calls[c].pc) ==> (c in h.told <==> c in h.cleared))
            && (c < |s.calls| && s.calls[c].pc.Clearing? ==> c in h.told)
  {
    var s, h := Final(x, s0, steps), HistoryOf(x, s0, steps);
    RunKeepsHistory(x, s0, steps);
    assert Explained(s.calls, h, c);
    forall d | d in h.cleared ensures d in h.told {
      assert Explained(s.calls, h, d);
    }
  }

  lemma OnlyClearClears(x: Setup, s: State, step: Step)
    requires Enabled(s, step) && s.sha == x.scriptSha && !(step.CallStep? && step.action.Clear?)
    ensures Next(x, s, step).sha == s.sha
  {
  }

  /** A step that takes a cached SHA away is the Clear of a call that was told NOSCRIPT. */
  lemma OnlyToldCallsClear(x: Setup, s0: State, steps: seq<Step>, step: Step)
    requires Initial(x, s0) && IsRun(x, s0, steps) && Enabled(Final(x, s0, steps), step)
    requires Final(x, s0, steps).sha != "" && Next(x, Final(x, s0, steps), step).sha != Final(x, s0, steps).sha
    ensures step.CallStep? && step.action.Clear? && step.call in HistoryOf(x, s0, steps).told
  {
    RunKeepsInv(x, s0, steps);
    if step.CallStep? && step.action.Clear? {
      ClearedIffTold(x, s0, steps, step.call);
    } else {
      OnlyClearClears(x, Final(x, s0, steps), step);
    }
  }

  /** As long as no call is told NOSCRIPT, whatever else is rejected or fails, a cached SHA stays cached. */
  lemma KeptWhileNobodyIsTold(x: Setup, s0: State, steps: seq<Step>)
    requires Initial(x, s0) && IsRun(x, s0, steps) && HistoryOf(x, s0, steps).told == {} && s0.sha != ""
    ensures Final(x, s0, steps).sha == s0.sha && Final(x, s0, steps).clears == 0
  {
    ClearedIffTold(x, s0, steps, 0);
    RunKeepsInv(x, s0, steps);
  }

  /** A call returns nil exactly if an answer has satisfied it. */
  lemma NilIffSatisfied(x: Setup, s0: State, steps: seq<Step>, c: nat)
    requires Initial(x, s0) && IsRun(x, s0, steps) && c < |Final(x, s0, steps).calls|
    requires Final(x, s0, steps).calls[c].pc.Done?
    ensures Final(x, s0, steps).calls[c].pc.ok <==> c in HistoryOf(x, s0, steps).satisfied
  {
    RunKeepsHistory(x, s0, steps);
    assert Explained(Final(x, s0, steps).calls, HistoryOf(x, s0, steps), c);
  }

  /** The effects on the server are the requests that ran the script there. */
  lemma EffectsAreRuns(x: Setup, s0: State, steps: seq<Step>)
    requires Initial(x, s0) && IsRun(x, s0, steps)
    ensures Final(x, s0, steps).effects == HistoryOf(x, s0, steps).runs
  {
    RunKeepsHistory(x, s0, steps);
  }
}
