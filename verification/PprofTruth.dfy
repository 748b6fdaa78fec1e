/** Exactly when the state word of the pprof manager agrees with the session once all calls have returned. */
module PprofTruth {
  import opened Wrappers
  import opened PprofProtocol
  import opened PprofProperties

  /** The step writes Stopped into the word. */
  ghost predicate Stores(s: State, step: Step) {
    && step.Act? && step.call < |s.calls|
    && s.calls[step.call].Inside? && StoresStopped(s.calls[step.call].phase)
  }

  ghost function PastSwap(s: State): set<nat> {
    set c: nat | c < |s.calls| && !s.calls[c].StartCas?
  }

  ghost function OverruledAfter(s: State, step: Step, overruled: set<nat>): set<nat> {
    if Stores(s, step) then overruled + PastSwap(s) else overruled
  }

  /** The calls after whose swap some call, possibly the call itself, has written Stopped. */
  ghost function Overruled(steps: seq<Step>): set<nat>
    requires IsRun(steps)
    decreases |steps|
  {
    if steps == [] then {}
    else
      var front, last := steps[..|steps| - 1], steps[|steps| - 1];
      OverruledAfter(Final(front), last, Overruled(front))
  }

  /** The word should say running on behalf of call c: its Start is under way, or its session is live. */
  ghost predicate Claims(s: State, c: nat) {
    c < |s.calls| && (StartBusy(s.calls[c]) || s.g.server == Some(c))
  }

  predicate StopInside(pc: Pc) { pc.Inside? && StopPhase(pc.phase) }

  ghost predicate Active(s: State, e: nat) {
    e < |s.calls| && (Claims(s, e) || StopInside(s.calls[e]))
  }

  ghost predicate AnotherActive(s: State, c: nat) {
    exists e: nat :: e != c && Active(s, e)
  }

  /** A claim not overruled keeps the word from Stopped; beside an overruled one, Running is somebody else's. */
  ghost predicate ClaimOk(s: State, overruled: set<nat>, c: nat) {
    && (Claims(s, c) && c !in overruled ==> !s.word.Stopped?)
    && (Claims(s, c) && c in overruled && s.word.Running? ==> AnotherActive(s, c))
    && (c >= |s.calls| || s.calls[c].StartCas? ==> c !in overruled)
  }

  ghost predicate ClaimsOk(s: State, overruled: set<nat>) {
    forall c: nat {:trigger ClaimOk(s, overruled, c)} :: ClaimOk(s, overruled, c)
  }

  // ---- One step ----

  /** What a step of call c does to the word, the session and c's own part, unless it writes Stopped. */
  ghost predicate ClaimStep(s: State, t: State, c: nat, p: Pc, q: Pc) {
    && (t.word == s.word || (p.StartCas? && t.word.Running? && StartBusy(q)) || (p.StopCas? && t.word.Dumping?))
    && (StartBusy(p) ==> StartBusy(q) || t.g.server == Some(c))
    && (StartBusy(q) ==> StartBusy(p) || (p.StartCas? && t.word.Running?))
    && (StopInside(p) ==> StopInside(q))
    && (t.g.server == s.g.server || (StartBusy(p) && s.g.server.None? && t.g.server == Some(c))
        || (StopInside(p) && t.g.server.None?))
    && (q.StartCas? ==> p.StartCas?)
  }

  lemma PhaseClaim(c: nat, p: Phase, g: Guarded, ok: bool)
    requires !Unlocks(p) && !StoresStopped(p) && Shape(c, p, g)
    ensures var (p', g') := PhaseNext(c, p, g, ok);
            && (PendingPhase(p) ==> PendingPhase(p') || g'.server == Some(c))
            && (PendingPhase(p') ==> PendingPhase(p))
            && (StopPhase(p) ==> StopPhase(p'))
            && (g'.server == g.server || (PendingPhase(p) && g.server.None? && g'.server == Some(c))
                || (StopPhase(p) && g'.server.None?))
  {
  }

  lemma OutsideClaim(s: State, c: nat, ok: bool)
    requires Enabled(s, Act(c, ok)) && (s.calls[c].Inside? ==> Unlocks(s.calls[c].phase))
    ensures ClaimStep(s, ActOf(s, c, ok), c, s.calls[c], ActOf(s, c, ok).calls[c])
  {
  }

  lemma ActClaim(s: State, c: nat, ok: bool)
    requires Inv(s) && Enabled(s, Act(c, ok))
    ensures var t := ActOf(s, c, ok);
            && t.calls == s.calls[c := t.calls[c]]
            && (if Stores(s, Act(c, ok)) then t.word.Stopped? && t.g.server == s.g.server && !t.calls[c].StartCas?
                else ClaimStep(s, t, c, s.calls[c], t.calls[c]))
  {
    assert CallOk(s, c);
    var t := ActOf(s, c, ok);
    assert t.calls == s.calls[c := t.calls[c]];
    if s.calls[c].Inside? && !Unlocks(s.calls[c].phase) {
      if !StoresStopped(s.calls[c].phase) { PhaseClaim(c, s.calls[c].phase, s.g, ok); }
    } else {
      OutsideClaim(s, c, ok);
    }
  }

  /** Writing Stopped overrules every claim there is. */
  lemma StoreKeepsClaim(s: State, overruled: set<nat>, c: nat, ok: bool, d: nat)
    requires Inv(s) && Enabled(s, Act(c, ok)) && Stores(s, Act(c, ok)) && ClaimOk(s, overruled, d)
    ensures ClaimOk(ActOf(s, c, ok), overruled + PastSwap(s), d)
  {
    ActClaim(s, c, ok);
    var t := ActOf(s, c, ok);
    if d < |s.calls| {
      assert CallOk(s, d);
      assert d != c ==> t.calls[d] == s.calls[d];
    }
  }

  /** Whoever is active stays active, or hands over to a Stop. */
  lemma ActiveMoves(s: State, t: State, c: nat, e: nat) returns (f: nat)
    requires c < |s.calls| && |t.calls| == |s.calls| && t.calls == s.calls[c := t.calls[c]]
    requires ClaimStep(s, t, c, s.calls[c], t.calls[c]) && Active(s, e)
    ensures Active(t, f) && (f == e || (f == c && StopInside(t.calls[c]) && t.g.server.None?))
  {
    f := if Active(t, e) then e else c;
  }

  lemma StepKeepsClaim(s: State, overruled: set<nat>, c: nat, ok: bool, d: nat)
    requires Inv(s) && Enabled(s, Act(c, ok)) && !Stores(s, Act(c, ok)) && ClaimOk(s, overruled, d)
    ensures ClaimOk(ActOf(s, c, ok), overruled, d)
  {
    ActClaim(s, c, ok);
    var t := ActOf(s, c, ok);
    if Claims(t, d) && d in overruled && t.word.Running? {
      assert Claims(s, d);
      if s.word.Running? {
        var e: nat :| e != d && Active(s, e);
        var f := ActiveMoves(s, t, c, e);
        assert f != d;
      } else {
        assert c != d && Active(t, c);
      }
    }
  }

  lemma BeginKeepsClaims(s: State, overruled: set<nat>, pc: Pc)
    requires Inv(s) && ClaimsOk(s, overruled) && (pc.StartCas? || pc.StopCas?)
    ensures ClaimsOk(s.(calls := s.calls + [pc]), overruled)
  {
    var t := s.(calls := s.calls + [pc]);
    forall d: nat | d < |s.calls| ensures t.calls[d] == s.calls[d] {}
    forall d: nat ensures ClaimOk(t, overruled, d) {
      assert ClaimOk(s, overruled, d);
      if Claims(t, d) && d in overruled && t.word.Running? {
        var e: nat :| e != d && Active(s, e);
        assert Active(t, e);
      }
    }
  }

  lemma {:induction false} RunKeepsClaims(steps: seq<Step>)
    requires IsRun(steps)
    ensures ClaimsOk(Final(steps), Overruled(steps))
    decreases |steps|
  {
    if steps != [] {
      var front, last := steps[..|steps| - 1], steps[|steps| - 1];
      var s, overruled := Final(front), Overruled(front);
      RunKeepsClaims(front);
      RunKeepsInv(front);
      match last {
        case BeginStart => BeginKeepsClaims(s, overruled, StartCas);
        case BeginStop => BeginKeepsClaims(s, overruled, StopCas);
        case Act(c, ok) => ActKeepsClaims(s, overruled, c, ok);
      }
    }
  }

  lemma ActKeepsClaims(s: State, overruled: set<nat>, c: nat, ok: bool)
    requires Inv(s) && Enabled(s, Act(c, ok)) && ClaimsOk(s, overruled)
    ensures ClaimsOk(ActOf(s, c, ok), OverruledAfter(s, Act(c, ok), overruled))
  {
    forall d: nat ensures ClaimOk(ActOf(s, c, ok), OverruledAfter(s, Act(c, ok), overruled), d) {
      assert ClaimOk(s, overruled, d);
      if Stores(s, Act(c, ok)) {
        StoreKeepsClaim(s, overruled, c, ok, d);
      } else {
        StepKeepsClaim(s, overruled, c, ok, d);
      }
    }
  }

  // ---- The exact condition ----

  predicate Truthful(s: State) { s.word == if s.g.server.Some? then Running else Stopped }

  /**
   Once all calls have returned, the word tells the truth exactly when no session is live, or no call has written
   Stopped since the Start of the live session won its swap.
   */
  lemma TruthfulIffNotOverruled(steps: seq<Step>)
    requires IsRun(steps) && Quiescent(Final(steps))
    ensures var s := Final(steps); Truthful(s) <==> (s.g.server.Some? ==> s.g.server.value !in Overruled(steps))
  {
    var s := Final(steps);
    RunKeepsInv(steps);
    RunKeepsClaims(steps);
    RunningMeansLive(steps);
    if s.g.server.Some? {
      var c := s.g.server.value;
      assert ClaimOk(s, Overruled(steps), c) && Claims(s, c);
      forall e: nat | e != c ensures !Active(s, e) {}
    }
  }
}
