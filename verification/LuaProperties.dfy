/** What the Lua executor guarantees in every run of LuaProtocol. */
module LuaProperties {
  import opened LuaProtocol
  import opened Sums

  // ---- How often the script runs ----

  /**
   No call runs the script more than twice; one that returns nil has run it once, plus once more exactly when the fast
   run was wasted because its reply was lost or respFn rejected it.
   */
  lemma ExecutionsPerCall(x: Setup, s0: State, steps: seq<Step>, c: nat)
    requires Initial(x, s0) && IsRun(x, s0, steps) && c < |Final(x, s0, steps).calls|
    ensures var s, call := Final(x, s0, steps), Final(x, s0, steps).calls[c];
            && call.executions <= 2
            && (call.executions == 2 ==> call.lost || call.rejected)
            && (call.pc == Done(true) ==> call.executions == 1 + Wasted(call))
            && (call.lost ==> s.faults > 0) && (call.rejected ==> x.hasRespFn)
  {
    RunKeepsInv(x, s0, steps);
    assert CallOk(x, Final(x, s0, steps), c);
  }

  /** The call is past the point where the server has run the script for it. */
  predicate PastEffect(call: Call) {
    call.pc.Ran? || call.pc == Unlocking(NoError) || call.pc.SlowRan? || call.pc.Done?
  }

  function Effect(call: Call): int { if PastEffect(call) then 1 else 0 }

  /**
   Without respFn, and with NOSCRIPT the only failure, the server has run the script exactly once for every call past
   its effect point and for no other: no update is lost or doubled.
   */
  lemma CounterEqualsEffects(x: Setup, s0: State, steps: seq<Step>)
    requires Initial(x, s0) && IsRun(x, s0, steps)
    requires !x.hasRespFn && Final(x, s0, steps).faults == 0
    ensures var s := Final(x, s0, steps);
            && s.effects == Sum(s.calls, Effect)
            && (forall c :: 0 <= c < |s.calls| ==> s.calls[c].executions == Effect(s.calls[c]))
            && (forall c :: 0 <= c < |s.calls| && s.calls[c].pc.Done? ==> s.calls[c].pc.ok)
  {
    RunKeepsInv(x, s0, steps);
    var s := Final(x, s0, steps);
    forall c: nat | c < |s.calls|
      ensures s.calls[c].executions == Effect(s.calls[c]) && (s.calls[c].pc.Done? ==> s.calls[c].pc.ok)
    {
      assert CallOk(x, s, c);
    }
    SumPointwise(s.calls, Executions, Effect);
  }

  // ---- Repairs ----

  /**
   Only the script's own SHA is ever cached, and repairs store it at most once more often than it was cleared; without
   stores by the application their number is exact.
   */
  lemma LoadsBounded(x: Setup, s0: State, steps: seq<Step>)
    requires Initial(x, s0) && IsRun(x, s0, steps)
    ensures var s := Final(x, s0, steps);
            && (s.sha == "" || s.sha == x.scriptSha)
            && s.loads + IsSet(s0.sha) <= s.clears + IsSet(s.sha)
            && (s.prepares == 0 ==> s.loads + IsSet(s0.sha) == s.clears + IsSet(s.sha))
            && s.loads <= 1 + s.clears
  {
    RunKeepsInv(x, s0, steps);
  }

  /**
   With a respFn no repair is ever started, so only the application can cache the SHA again: it has been cleared, or
   is set now, at most once for the start and once for each store of the application. Without such stores it is cached
   exactly when it was at the start and has never been cleared.
   */
  lemma RespFnNeverRepairs(x: Setup, s0: State, steps: seq<Step>)
    requires Initial(x, s0) && IsRun(x, s0, steps) && x.hasRespFn
    ensures var s := Final(x, s0, steps);
            && s.repairs == [] && s.loads == 0 && s.clears + IsSet(s.sha) <= IsSet(s0.sha) + s.prepares
            && (s.prepares == 0 ==> (s.sha != "" <==> s0.sha != "" && s.clears == 0))
  {
    RunKeepsInv(x, s0, steps);
  }

  /** The call has failed on the fast path and will reach the point where a repair is started. */
  predicate WillRepair(pc: CallPc) {
    (pc.Unlocking? && pc.error != NoError) || pc.WantClear? || pc.WaitClear? || pc.Clearing? || pc.Slow? || pc.SlowRan?
  }

  ghost predicate Restorer(s: State) {
    || (exists c: nat :: c < |s.calls| && WillRepair(s.calls[c].pc))
    || (exists r: nat :: r < |s.repairs| && !s.repairs[r].Finished?)
  }

  ghost predicate AnyPastCheck(s: State) {
    exists c: nat :: c < |s.calls| && !s.calls[c].pc.Start? && !s.calls[c].pc.Checking?
  }

  /** An empty SHA is somebody's to restore, once any call has got past its first look at it, unless excused. */
  ghost predicate Pledged(s: State, excused: bool) {
    s.sha == "" && AnyPastCheck(s) && !excused ==> Restorer(s)
  }

  /** The EVAL of a call, or the SCRIPT LOAD of a repair, failed. */
  predicate BreaksRepair(step: Step) {
    (step.CallStep? && step.action.EvalFault?) || (step.RepairStep? && step.repairAction.RepairLoadFault?)
  }

  predicate StoresSha(step: Step) { step.Prepare? || (step.RepairStep? && step.repairAction.RepairStore?) }

  /** Such a failure has happened, and neither a repair nor the application has stored the SHA since. */
  ghost predicate Excused(steps: seq<Step>) {
    steps != [] && ExcusedAfter(Excused(steps[..|steps| - 1]), steps[|steps| - 1])
  }

  predicate ExcusedAfter(before: bool, step: Step) { BreaksRepair(step) || (before && !StoresSha(step)) }

  lemma CallStepKeepsPledge(x: Setup, s0: State, s: State, c: nat, a: CallAction)
    requires Inv(x, s0, s) && CallEnabled(s, c, a) && !x.hasRespFn && Pledged(s, false) && !a.EvalFault?
    ensures Pledged(CallNext(x, s, c, a), false)
  {
    assert CallOk(x, s, c);
    var t := CallNext(x, s, c, a);
    if a.Answer? {
      assert t.repairs[|s.repairs|].Waiting?;
    } else if WillRepair(t.calls[c].pc) {
      assert Restorer(t);
    } else {
      assert !WillRepair(s.calls[c].pc);
      assert t.sha == s.sha && t.repairs == s.repairs;
      if t.sha == "" && AnyPastCheck(t) {
        var d: nat :| d < |t.calls| && !t.calls[d].pc.Start? && !t.calls[d].pc.Checking?;
        assert d != c;
        assert s.calls[d] == t.calls[d];
        RestorerUnmoved(s, t, c);
      }
    }
  }

  lemma RestorerUnmoved(s: State, t: State, c: nat)
    requires Restorer(s) && |t.calls| == |s.calls| && t.repairs == s.repairs
    requires c < |s.calls| && !WillRepair(s.calls[c].pc)
    requires forall d: nat :: d < |s.calls| && d != c ==> t.calls[d] == s.calls[d]
    ensures Restorer(t)
  {
    if d: nat :| d < |s.calls| && WillRepair(s.calls[d].pc) {
      assert WillRepair(t.calls[d].pc);
    }
  }

  lemma RepairStepKeepsPledge(x: Setup, s0: State, s: State, r: nat, a: RepairAction)
    requires Inv(x, s0, s) && RepairEnabled(s, r, a) && Pledged(s, false) && !a.RepairLoadFault?
    ensures Pledged(RepairNext(x, s, r, a), false)
  {
    var t := RepairNext(x, s, r, a);
    assert t.calls == s.calls;
    if t.sha == "" {
      assert !t.repairs[r].Finished?;
    }
  }

  lemma BeginKeepsPledge(x: Setup, s: State)
    requires Pledged(s, false)
    ensures Pledged(Next(x, s, Begin), false)
  {
    var t := Next(x, s, Begin);
    if t.sha == "" && AnyPastCheck(t) {
      var d: nat :| d < |t.calls| && !t.calls[d].pc.Start? && !t.calls[d].pc.Checking?;
      assert t.calls[d] == s.calls[d];
      if c: nat :| c < |s.calls| && WillRepair(s.calls[c].pc) {
        assert t.calls[c] == s.calls[c];
      }
    }
  }

  lemma FaultsGrow(x: Setup, s: State, step: Step)
    requires Enabled(s, step)
    ensures s.faults + (if BreaksRepair(step) then 1 else 0) <= Next(x, s, step).faults
  {
  }

  /**
   Without respFn, whatever fails: whenever the SHA is empty and some call has got past its check, a call or a repair
   still under way will restore it, unless an EVAL or a SCRIPT LOAD has failed since it was last stored.
   */
  lemma {:induction false} EmptyShaWillBeRestored(x: Setup, s0: State, steps: seq<Step>)
    requires Initial(x, s0) && IsRun(x, s0, steps) && !x.hasRespFn
    ensures Pledged(Final(x, s0, steps), Excused(steps))
    decreases |steps|
  {
    if steps != [] {
      var front, last := steps[..|steps| - 1], steps[|steps| - 1];
      RunKeepsInv(x, s0, front);
      EmptyShaWillBeRestored(x, s0, front);
      StepKeepsPledge(x, s0, Final(x, s0, front), last, Excused(front));
    }
  }

  lemma StepKeepsPledge(x: Setup, s0: State, s: State, step: Step, excused: bool)
    requires Inv(x, s0, s) && Enabled(s, step) && !x.hasRespFn && Pledged(s, excused)
    ensures Pledged(Next(x, s, step), ExcusedAfter(excused, step))
  {
    if StoresSha(step) {
      assert Next(x, s, step).sha != "";
    } else if !excused && !BreaksRepair(step) {
      match step
      case Begin => BeginKeepsPledge(x, s);
      case CallStep(c, a) => CallStepKeepsPledge(x, s0, s, c, a);
      case RepairStep(r, a) => RepairStepKeepsPledge(x, s0, s, r, a);
      case CacheChange(_) =>
      case Prepare =>
    }
  }

  /** With a missing script the only failure nothing is excused. */
  lemma {:induction false} NoFaultNoExcuse(x: Setup, s0: State, steps: seq<Step>)
    requires Initial(x, s0) && IsRun(x, s0, steps) && Final(x, s0, steps).faults == 0
    ensures !Excused(steps)
    decreases |steps|
  {
    if steps != [] {
      var front, last := steps[..|steps| - 1], steps[|steps| - 1];
      FaultsGrow(x, Final(x, s0, front), last);
      NoFaultNoExcuse(x, s0, front);
    }
  }

  predicate Ended(pc: CallPc) { pc.Done? || pc.Stranded? }

  /** Nothing under way: every call has returned or panicked, and every repair has ended. */
  ghost predicate Quiescent(s: State) {
    && (forall c :: 0 <= c < |s.calls| ==> Ended(s.calls[c].pc))
    && (forall r :: 0 <= r < |s.repairs| ==> s.repairs[r].Finished?)
  }

  /**
   Without respFn, whatever fails: once everything has settled after at least one call, either the SHA is cached
   again, or an EVAL or a SCRIPT LOAD has failed since it was last stored.
   */
  lemma RestoredUnlessExcused(x: Setup, s0: State, steps: seq<Step>)
    requires Initial(x, s0) && IsRun(x, s0, steps) && !x.hasRespFn
    requires Quiescent(Final(x, s0, steps)) && Final(x, s0, steps).calls != []
    ensures Final(x, s0, steps).sha == x.scriptSha || Excused(steps)
  {
    var s := Final(x, s0, steps);
    RunKeepsInv(x, s0, steps);
    EmptyShaWillBeRestored(x, s0, steps);
    assert Ended(s.calls[0].pc);
  }

  /**
   With a missing script the only failure, the SHA is then cached again, and the script has run once for each call.
   */
  lemma QuiescentIsRestored(x: Setup, s0: State, steps: seq<Step>)
    requires Initial(x, s0) && IsRun(x, s0, steps)
    requires !x.hasRespFn && Final(x, s0, steps).faults == 0
    requires Quiescent(Final(x, s0, steps)) && Final(x, s0, steps).calls != []
    ensures Final(x, s0, steps).sha == x.scriptSha
    ensures Final(x, s0, steps).effects == |Final(x, s0, steps).calls|
  {
    RestoredUnlessExcused(x, s0, steps);
    NoFaultNoExcuse(x, s0, steps);
    CounterEqualsEffects(x, s0, steps);
    RunKeepsInv(x, s0, steps);
    forall c: nat | c < |Final(x, s0, steps).calls| ensures Final(x, s0, steps).calls[c].pc.Done? {
      assert CallOk(x, Final(x, s0, steps), c);
    }
    AllDone(Final(x, s0, steps).calls);
  }

  lemma {:induction false} AllDone(calls: seq<Call>)
    requires forall c :: 0 <= c < |calls| ==> calls[c].pc.Done?
    ensures Sum(calls, Effect) == |calls|
  {
    if calls != [] {
      AllDone(calls[..|calls| - 1]);
    }
  }

  // ---- Progress ----

  /** Steps a call or a repair may still take, counting the repair that a call may start. */
  function CallRank(call: Call): int {
    match call.pc
    case Start => 16
    case Checking => 15
    case Checked => 14
    case Sending(_) => 13
    case Ran => 12
    case Unlocking(_) => 11
    case WantClear => 10
    case WaitClear => 9
    case Clearing => 8
    case Slow => 7
    case SlowRan => 6
    case Stranded => 0
    case Done(_) => 0
  }

  function RepairRank(pc: RepairPc): int {
    match pc
    case Waiting => 5
    case WaitLock => 4
    case Holding => 3
    case Loading => 2
    case Loaded => 1
    case Finished => 0
  }

  function Remaining(s: State): int {
    Sum(s.calls, CallRank) + Sum(s.repairs, RepairRank)
  }

  /** A step of a call or a repair, as opposed to a new call or a change on the server. */
  predicate IsProgress(step: Step) { step.CallStep? || step.RepairStep? }

  lemma CallRankDrops(x: Setup, s: State, c: nat, a: CallAction)
    requires CallEnabled(s, c, a)
    ensures var t := CallNext(x, s, c, a);
            && |t.calls| == |s.calls| && t.calls == s.calls[c := t.calls[c]]
            && (if t.repairs == s.repairs then CallRank(t.calls[c]) < CallRank(s.calls[c])
                else t.repairs == s.repairs + [Waiting] && CallRank(t.calls[c]) + 5 < CallRank(s.calls[c]))
  {
    var t := CallNext(x, s, c, a);
    assert t.calls == s.calls[c := t.calls[c]];
  }

  lemma CallProgress(x: Setup, s: State, c: nat, a: CallAction)
    requires CallEnabled(s, c, a)
    ensures Remaining(CallNext(x, s, c, a)) < Remaining(s)
  {
    CallRankDrops(x, s, c, a);
    var t := CallNext(x, s, c, a);
    SumUpdate(s.calls, c, t.calls[c], CallRank);
    SumAppend(s.repairs, Waiting, RepairRank);
  }

  lemma RepairProgress(x: Setup, s: State, r: nat, a: RepairAction)
    requires RepairEnabled(s, r, a)
    ensures Remaining(RepairNext(x, s, r, a)) < Remaining(s)
  {
    var t := RepairNext(x, s, r, a);
    assert t.repairs == s.repairs[r := t.repairs[r]];
    SumUpdate(s.repairs, r, t.repairs[r], RepairRank);
  }

  lemma ProgressDecreases(x: Setup, s: State, step: Step)
    requires Enabled(s, step) && IsProgress(step)
    ensures Remaining(Next(x, s, step)) < Remaining(s)
  {
    match step {
      case CallStep(c, a) => CallProgress(x, s, c, a);
      case RepairStep(r, a) => RepairProgress(x, s, r, a);
    }
  }

  ghost function ProgressSteps(steps: seq<Step>): nat {
    if steps == [] then 0
    else ProgressSteps(steps[..|steps| - 1]) + (if IsProgress(steps[|steps| - 1]) then 1 else 0)
  }

  /** A new call brings sixteen steps of work; a step of a call or repair takes at least one off. */
  lemma StepSpends(x: Setup, s: State, step: Step)
    requires Enabled(s, step)
    ensures Remaining(Next(x, s, step)) + (if IsProgress(step) then 1 else 0) <=
            Remaining(s) + 16 * (|Next(x, s, step).calls| - |s.calls|)
  {
    match step {
      case Begin => SumAppend(s.calls, Call(Start, 0, false, false), CallRank);
      case CallStep(c, a) => CallProgress(x, s, c, a);
      case RepairStep(r, a) => RepairProgress(x, s, r, a);
      case CacheChange(_) =>
      case Prepare =>
    }
  }

  lemma RemainingIsNatural(s: State)
    ensures 0 <= Remaining(s)
  {
    SumNonNegative(s.calls, CallRank);
    SumNonNegative(s.repairs, RepairRank);
  }

  /** No run takes more than sixteen steps per call: nobody spins. */
  lemma {:induction false} StepsBounded(x: Setup, s0: State, steps: seq<Step>)
    requires Initial(x, s0) && IsRun(x, s0, steps)
    ensures 0 <= Remaining(Final(x, s0, steps))
    ensures ProgressSteps(steps) + Remaining(Final(x, s0, steps)) <= 16 * |Final(x, s0, steps).calls|
    decreases |steps|
  {
    RemainingIsNatural(Final(x, s0, steps));
    if steps != [] {
      var front := steps[..|steps| - 1];
      StepsBounded(x, s0, front);
      StepSpends(x, Final(x, s0, front), steps[|steps| - 1]);
    }
  }
}
