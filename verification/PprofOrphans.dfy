/** Runs of PprofProtocol in which a Stop and a Start overlap, with and without harm. */
module PprofOrphans {
  import opened Wrappers
  import opened PprofProtocol
  import opened PprofProperties
  import opened PprofSolo
  import opened PprofTruth

  function AllOk(): Phase -> bool { (p: Phase) => true }

  function AllFail(): Phase -> bool { (p: Phase) => false }

  /** A session is live although the word says stopped. */
  ghost predicate Orphaned(s: State) {
    Quiescent(s) && s.word.Stopped? && s.g.server.Some? && s.g.profiler
  }

  /** The Stop wins the mutex between the Start's swap and its lock. */
  lemma OvertakingLeavesOrphan() returns (steps: seq<Step>)
    ensures IsRun(steps) && Orphaned(Final(steps)) && !NoOvertaking(steps)
    ensures |Final(steps).calls| == 2
  {
    steps := SwapStart([]);
    steps := SwapStop(steps);
    steps := Lock(steps, 1);
    steps := FinishStop(steps, [StartLock, StopLock], 1, INITIAL.g, Dumping);
    steps := Lock(steps, 0);
    steps := FinishStart(steps, [StartLock, StopDone(true, None)], 0, INITIAL.g, Stopped, AllOk());
    if NoOvertaking(steps) { WordTellsTheTruth(steps); }
  }

  /** A Start holding the mutex fails while a Stop that has won its swap waits. */
  lemma WaitOutFailedStart() returns (steps: seq<Step>)
    ensures IsRun(steps)
    ensures Final(steps) == State(Stopped, None, INITIAL.g, [StartDone(false), StopLock])
  {
    steps := SwapStart([]);
    steps := Lock(steps, 0);
    steps := SwapStop(steps);
    steps := FinishStart(steps, [StartLock, StopLock], 0, INITIAL.g, Dumping, AllFail());
  }

  /**
   Here no Stop takes the mutex between a Start's swap and its lock: a Stop that waited out a failing Start writes
   Stopped after the next Start has won its swap.
   */
  lemma FailedStartLeavesOrphan() returns (steps: seq<Step>)
    ensures IsRun(steps) && Orphaned(Final(steps)) && |Final(steps).calls| == 3
    ensures Final(steps).calls[0] == StartDone(false)
  {
    steps := WaitOutFailedStart();
    steps := Lock(steps, 1);
    steps := SwapStart(steps);
    steps := FinishStop(steps, [StartDone(false), StopLock, StartLock], 1, INITIAL.g, Running);
    steps := Lock(steps, 2);
    steps := FinishStart(steps, [StartDone(false), StopDone(true, None), StartLock], 2, INITIAL.g, Stopped, AllOk());
  }

  lemma {:induction false} OvertakingStays(steps: seq<Step>, longer: seq<Step>)
    requires IsRun(steps) && IsRun(longer) && steps <= longer && NoOvertaking(longer)
    ensures NoOvertaking(steps)
    decreases |longer|
  {
    if steps != longer {
      OvertakingStays(steps, longer[..|longer| - 1]);
    }
  }

  /** A Stop that wins its swap beside an unfinished Start overtakes it. */
  lemma SwapOvertakes(steps: seq<Step>, longer: seq<Step>)
    requires IsRun(steps) && Final(steps).word.Running? && SomeStart(Final(steps))
    requires IsRun(longer) && longer == steps + [BeginStop, Act(|Final(steps).calls|, true)]
    ensures !NoOvertaking(longer)
  {
    var s, front := Final(steps), steps + [BeginStop];
    ExtendRun(steps, BeginStop);
    assert longer[..|longer| - 1] == front;
    var c: nat :| c < |s.calls| && StartBusy(s.calls[c]);
    assert Final(front).calls[c] == s.calls[c];
  }

  /** A Stop that wins its swap while the Start holds the mutex does no harm: it waits and tears the session down. */
  lemma WaitingStopIsHarmless() returns (steps: seq<Step>)
    ensures IsRun(steps) && Quiescent(Final(steps)) && Truthful(Final(steps)) && !NoOvertaking(steps)
    ensures Final(steps).calls == [StartDone(true), StopDone(true, Some(0))]
  {
    steps := SwapStart([]);
    steps := Lock(steps, 0);
    var overtaken := SwapStop(steps);
    assert StartBusy(Final(steps).calls[0]);
    SwapOvertakes(steps, overtaken);
    steps := FinishStart(overtaken, [StartLock, StopLock], 0, INITIAL.g, Dumping, AllOk());
    steps := Lock(steps, 1);
    steps := FinishStop(steps, [StartDone(true), StopLock], 1, SessionOf(0, INITIAL.g), Dumping);
    if NoOvertaking(steps) { OvertakingStays(overtaken, steps); }
  }
}
