/**
 The Lua executor of redis/lua.go as the object it is, for calls and repairs that do not overlap. Each method takes,
 beside its own work, the steps of LuaProtocol it stands for, so every history of the object is a run of the protocol
 and everything proved for all interleavings holds of it.
 */
module LuaExecutor {
  import opened LuaProtocol
  import opened LuaProperties

  /**
   How a request ends: answered, with what respFn would do with the answer, or failed, after running or not, with a text
   that may start with NOSCRIPT.
   */
  datatype Reply = Answered(verdict: Verdict) | Failed(executed: bool, noScript: bool)

  /** How the fast path ends. */
  datatype FastEnd = Returns(error: FastError) | Panics

  /** How a call ends, if it does; true is a nil error. */
  datatype Outcome = Returned(ok: bool) | Panicked | Blocked

  /** The end of the fast path, and whether it ran the script. */
  function FastResult(x: Setup, sha: string, scripts: set<string>, r: Reply): (FastEnd, bool) {
    if sha == "" then (Returns(OtherError), false)
    else
      match r
      case Failed(executed, noScript) => (Returns(if noScript then NoScript else OtherError), executed)
      case Answered(v) =>
        if sha !in scripts then (Returns(NoScript), false)
        else if !x.hasRespFn then (Returns(NoError), true)
        else if v.Panic? then (Panics, true)
        else (Returns(ErrorOf(v)), true)
  }

  /** The outcome of the slow path, whether it ran the script, and whether it leaves a repair behind. */
  function SlowResult(x: Setup, r: Reply): (Outcome, bool, bool) {
    match r
    case Failed(executed, _) => (Returned(false), executed, false)
    case Answered(v) =>
      if !x.hasRespFn then (Returned(true), true, true)
      else if v.Panic? then (Panicked, true, false)
      else (Returned(v.Accept?), true, false)
  }

  function Times(b: bool): nat { if b then 1 else 0 }

  /** NOSCRIPT while a read lock has leaked: the write lock never comes. */
  predicate Blocks(f: FastEnd, leaked: bool) { f == Returns(NoScript) && leaked }

  function OutcomeOf(x: Setup, f: FastEnd, leaked: bool, slow: Reply): Outcome {
    if f.Panics? then Panicked
    else if f.error.NoError? then Returned(true)
    else if Blocks(f, leaked) then Blocked
    else SlowResult(x, slow).0
  }

  predicate GoesSlow(f: FastEnd) { f.Returns? && !f.error.NoError? }

  // ---- The same in terms of requests and answers ----

  /** The fast path ends in NOSCRIPT: a failure with such a text, a script the server lacks, or respFn saying so. */
  ghost predicate ToldNoScript(x: Setup, sha: string, scripts: set<string>, r: Reply) {
    sha != "" &&
    match r
    case Failed(_, noScript) => noScript
    case Answered(v) => sha !in scripts || (x.hasRespFn && v == Reject(true))
  }

  /** EVALSHA runs the script. */
  ghost predicate RunsFast(sha: string, scripts: set<string>, r: Reply) {
    sha != "" &&
    match r
    case Failed(executed, _) => executed
    case Answered(_) => sha in scripts
  }

  ghost predicate FastEndsAs(x: Setup, sha: string, scripts: set<string>, r: Reply, end: FastEnd) {
    && (end == Returns(NoScript) <==> ToldNoScript(x, sha, scripts, r))
    && (end.Panics? <==> r == Answered(Panic) && RunsFast(sha, scripts, r) && x.hasRespFn)
    && (end == Returns(NoError) <==>
          r.Answered? && RunsFast(sha, scripts, r) && (x.hasRespFn ==> r.verdict == Accept))
  }

  lemma FastResultIs(x: Setup, sha: string, scripts: set<string>, r: Reply)
    ensures FastEndsAs(x, sha, scripts, r, FastResult(x, sha, scripts, r).0)
    ensures FastResult(x, sha, scripts, r).1 <==> RunsFast(sha, scripts, r)
  {
  }

  lemma SlowResultIs(x: Setup, r: Reply)
    ensures var (outcome, ran, repair) := SlowResult(x, r);
            && (outcome == Returned(true) <==> r.Answered? && (x.hasRespFn ==> r.verdict == Accept))
            && (outcome == Panicked <==> r == Answered(Panic) && x.hasRespFn) && outcome != Blocked
            && (ran <==> r.Answered? || r.executed)
            && (repair <==> r.Answered? && !x.hasRespFn)
  {
  }

  /** How a call that gets the read lock ends, by what its two requests bring. */
  ghost predicate EndsAs(
    x: Setup, sha: string, scripts: set<string>, leaked: bool, fast: Reply, slow: Reply, outcome: Outcome)
  {
    var ran, blocked := RunsFast(sha, scripts, fast), leaked && ToldNoScript(x, sha, scripts, fast);
    var fastOk := ran && fast.Answered? && (x.hasRespFn ==> fast.verdict == Accept);
    var fastPanic := ran && fast == Answered(Panic) && x.hasRespFn;
    var goesOn := !fastOk && !fastPanic && !blocked;
    && (outcome == Blocked <==> blocked)
    && (outcome == Returned(true) <==>
          fastOk || (goesOn && slow.Answered? && (x.hasRespFn ==> slow.verdict == Accept)))
    && (outcome == Panicked <==> fastPanic || (goesOn && slow == Answered(Panic) && x.hasRespFn))
  }

  lemma OutcomeEndsAs(x: Setup, sha: string, scripts: set<string>, leaked: bool, fast: Reply, slow: Reply)
    ensures EndsAs(x, sha, scripts, leaked, fast, slow,
                   OutcomeOf(x, FastResult(x, sha, scripts, fast).0, leaked, slow))
  {
    FastResultIs(x, sha, scripts, fast);
    SlowResultIs(x, slow);
  }

  /** The server: its script cache, and how often LuaScript has run. */
  class Redis {
    var scripts: set<string>
    var effects: nat

    constructor (scripts: set<string>)
      ensures this.scripts == scripts && effects == 0
    {
      this.scripts, effects := scripts, 0;
    }
  }

  class Executor {
    const x: Setup
    const redis: Redis
    var sha: string            // LuaScriptSha
    var repairs: seq<RepairPc> // goroutines started, waiting or finished
    var leaked: bool           // mx: a panic of respFn has left a read lock held
    var jammed: bool           // mx: a writer waits for that lock, and keeps everybody else out

    ghost var start: State
    ghost var steps: seq<Step>
    ghost var now: State

    /** The object is where a run of the protocol has led. */
    ghost predicate Traced()
      reads this
    {
      Initial(x, start) && IsRun(x, start, steps) && Final(x, start, steps) == now
    }

    ghost predicate Mirrors()
      reads this, redis
    {
      now.sha == sha && now.scripts == redis.scripts && now.effects == redis.effects && now.repairs == repairs
    }

    /** Between calls the lock is free but for what panics have left, and every call has ended that is not blocked. */
    ghost predicate Valid()
      reads this, redis
    {
      && Traced() && Mirrors() && (sha == "" || sha == x.scriptSha)
      && Resting(now, leaked, jammed) && (jammed ==> leaked) && (leaked ==> x.hasRespFn)
      && (x.hasRespFn ==> repairs == [])
      && (forall p :: p in repairs ==> p.Waiting? || p.Finished?)
    }

    constructor (x: Setup, redis: Redis)
      requires x.Valid() && redis.effects == 0
      ensures Valid() && this.x == x && this.redis == redis && sha == "" && repairs == [] && !leaked && !jammed
    {
      this.x, this.redis, sha, repairs, leaked, jammed := x, redis, "", [], false, false;
      start := State("", {}, NoHolder, redis.scripts, 0, [], [], 0, 0, 0, 0);
      now := State("", {}, NoHolder, redis.scripts, 0, [], [], 0, 0, 0, 0);
      steps := [];
    }

    ghost method Take(step: Step)
      requires Traced() && Enabled(now, step)
      modifies this`steps, this`now
      ensures Traced() && steps == old(steps) + [step] && now == Next(x, old(now), step)
    {
      ExtendRun(x, start, steps, step);
      steps := steps + [step];
      now := Next(x, now, step);
    }

    /** Between calls the server may drop or learn scripts. */
    method CacheChanges(scripts: set<string>)
      requires Valid()
      modifies this`steps, this`now, redis`scripts
      ensures Valid() && redis.scripts == scripts
    {
      redis.scripts := scripts;
      Take(CacheChange(scripts));
    }

    /** The application loads the script, at any time; a failed request stores nothing. */
    method PrepareLuaScript(fails: bool) returns (ok: bool)
      requires Valid()
      modifies this`sha, this`steps, this`now, redis`scripts
      ensures Valid() && ok == !fails
      ensures sha == if fails then old(sha) else x.scriptSha
      ensures redis.scripts == if fails then old(redis.scripts) else old(redis.scripts) + {x.scriptSha}
    {
      if fails {
        return false;
      }
      CacheChanges(redis.scripts + {x.scriptSha});
      sha := x.scriptSha;
      Take(Prepare);
      return true;
    }

    // ---- One call ----

    /** A new call takes the read lock. */
    ghost method Enter()
      requires Valid() && !jammed
      modifies this`steps, this`now
      ensures Traced() && Mirrors() && |now.calls| == |old(now).calls| + 1
      ensures now.readers == old(now).readers + {|old(now).calls|} && now.writer == old(now).writer
      ensures Before(old(now), now) && now.calls[|old(now).calls|].pc == Checking
    {
      Take(Begin);
      Take(CallStep(|now.calls| - 1, AcquireRead));
    }

    ghost method Leave(c: nat, error: FastError)
      requires Traced() && Mirrors() && c < |now.calls| && now.calls[c].pc == Unlocking(error)
      modifies this`steps, this`now
      ensures Traced() && Mirrors() && now.readers == old(now).readers - {c} && now.writer == old(now).writer
      ensures OthersUnmoved(old(now), now, c) && now.calls[c].pc == AfterUnlock(error)
    {
      Take(CallStep(c, ReleaseRead));
    }

    /** Under the read lock of call c. */
    method FastPath(ghost c: nat, r: Reply) returns (end: FastEnd)
      requires Traced() && Mirrors() && (sha == "" || sha == x.scriptSha)
      requires c < |now.calls| && now.calls[c].pc == Checking
      modifies this`steps, this`now, redis`effects
      ensures Traced() && Mirrors()
      ensures end == FastResult(x, sha, redis.scripts, r).0 && FastEndsAs(x, sha, redis.scripts, r, end)
      ensures redis.effects == old(redis.effects) + Times(FastResult(x, sha, redis.scripts, r).1)
      ensures SameButCall(old(now), now, c) && now.calls[c].pc == InLock(end)
    {
      FastResultIs(x, sha, redis.scripts, r);
      Take(CallStep(c, CheckSha));
      if sha == "" {
        return Returns(OtherError);
      }
      Take(CallStep(c, ReadSha));
      end := SendEvalSha(c, r);
    }

    method SendEvalSha(ghost c: nat, r: Reply) returns (end: FastEnd)
      requires Traced() && Mirrors() && sha == x.scriptSha && sha != ""
      requires c < |now.calls| && now.calls[c].pc == Sending(sha)
      modifies this`steps, this`now, redis`effects
      ensures Traced() && Mirrors()
      ensures end == FastResult(x, sha, redis.scripts, r).0
      ensures redis.effects == old(redis.effects) + Times(FastResult(x, sha, redis.scripts, r).1)
      ensures SameButCall(old(now), now, c) && now.calls[c].pc == InLock(end)
    {
      match r {
        case Failed(executed, noScript) =>
          if executed { redis.effects := redis.effects + 1; }
          Take(CallStep(c, EvalShaFault(executed, noScript)));
          return Returns(if noScript then NoScript else OtherError);
        case Answered(v) =>
          if sha !in redis.scripts {
            Take(CallStep(c, EvalSha));
            return Returns(NoScript);
          }
          RunScript(c);
          end := HandReply(c, v);
      }
    }

    /** EVALSHA of a script the server has. */
    method RunScript(ghost c: nat)
      requires Traced() && Mirrors() && sha == x.scriptSha && sha in redis.scripts
      requires c < |now.calls| && now.calls[c].pc == Sending(sha)
      modifies this`steps, this`now, redis`effects
      ensures Traced() && Mirrors() && redis.effects == old(redis.effects) + 1
      ensures SameButCall(old(now), now, c) && now.calls[c].pc == Ran
    {
      redis.effects := redis.effects + 1;
      Take(CallStep(c, EvalSha));
    }

    /** respFn, if there is one, gets the reply, still under the read lock. */
    method HandReply(ghost c: nat, v: Verdict) returns (end: FastEnd)
      requires Traced() && Mirrors() && c < |now.calls| && now.calls[c].pc == Ran
      modifies this`steps, this`now
      ensures Traced() && Mirrors() && SameButCall(old(now), now, c) && now.calls[c].pc == InLock(end)
      ensures end == if !x.hasRespFn then Returns(NoError) else if v.Panic? then Panics else Returns(ErrorOf(v))
    {
      Take(CallStep(c, Respond(v)));
      if !x.hasRespFn {
        return Returns(NoError);
      }
      if v.Panic? {
        return Panics;
      }
      return Returns(ErrorOf(v));
    }

    method SlowPath(ghost c: nat, r: Reply) returns (outcome: Outcome)
      requires Traced() && Mirrors()
      requires c < |now.calls| && now.calls[c].pc == Slow
      modifies this`steps, this`now, this`repairs, redis`effects
      ensures Traced() && Mirrors()
      ensures outcome == SlowResult(x, r).0
      ensures redis.effects == old(redis.effects) + Times(SlowResult(x, r).1)
      ensures repairs == old(repairs) + if SlowResult(x, r).2 then [Waiting] else []
      ensures SameLocks(old(now), now) && OthersUnmoved(old(now), now, c) && now.calls[c].pc.Done?
    {
      match r {
        case Failed(executed, _) =>
          if executed { redis.effects := redis.effects + 1; }
          Take(CallStep(c, EvalFault(executed)));
          return Returned(false);
        case Answered(v) =>
          redis.effects := redis.effects + 1;
          Take(CallStep(c, Eval));
          outcome := AnswerSlowly(c, v);
      }
    }

    /** The reply to EVAL goes to respFn, or else a repair is started. */
    method AnswerSlowly(ghost c: nat, v: Verdict) returns (outcome: Outcome)
      requires Traced() && Mirrors() && c < |now.calls| && now.calls[c].pc == SlowRan
      modifies this`steps, this`now, this`repairs
      ensures Traced() && Mirrors()
      ensures outcome == if !x.hasRespFn then Returned(true) else if v.Panic? then Panicked else Returned(v.Accept?)
      ensures repairs == old(repairs) + if x.hasRespFn then [] else [Waiting]
      ensures SameLocks(old(now), now) && OthersUnmoved(old(now), now, c) && now.calls[c].pc.Done?
    {
      Take(CallStep(c, Answer(v)));
      if x.hasRespFn {
        return if v.Panic? then Panicked else Returned(v.Accept?);
      }
      repairs := repairs + [Waiting];
      return Returned(true);
    }

    method ClearSha(ghost c: nat)
      requires Traced() && Mirrors() && now.readers == {} && now.writer.NoHolder?
      requires c < |now.calls| && now.calls[c].pc == WantClear
      modifies this`steps, this`now, this`sha
      ensures Traced() && Mirrors() && sha == ""
      ensures SameLocks(old(now), now) && OthersUnmoved(old(now), now, c) && now.calls[c].pc == Slow
    {
      Take(CallStep(c, AnnounceWrite));
      Take(CallStep(c, AcquireWrite));
      sha := "";
      Take(CallStep(c, Clear));
    }

    /** A new call takes the read lock and tries the fast path; it releases the lock unless respFn panics. */
    method TryFastPath(fast: Reply) returns (end: FastEnd)
      requires Valid() && !jammed
      modifies this`steps, this`now, redis`effects
      ensures Traced() && Mirrors() && now.writer.NoHolder? && |now.calls| == |old(now).calls| + 1
      ensures now.readers == old(now).readers + if end.Panics? then {|old(now).calls|} else {}
      ensures end == FastResult(x, sha, redis.scripts, fast).0
      ensures redis.effects == old(redis.effects) + Times(FastResult(x, sha, redis.scripts, fast).1)
      ensures Before(old(now), now)
      ensures now.calls[|old(now).calls|].pc == if end.Panics? then Stranded else AfterUnlock(end.error)
    {
      ghost var c := |now.calls|;
      Enter();
      end := FastPath(c, fast);
      if end.Returns? {
        Leave(c, end.error);
      }
    }

    /** What follows a failed fast path, when the lock can be had or is not needed. */
    method AfterFailure(ghost c: nat, error: FastError, slow: Reply) returns (outcome: Outcome)
      requires Traced() && Mirrors() && now.writer.NoHolder? && !error.NoError?
      requires c < |now.calls| && now.calls[c].pc == AfterUnlock(error) && (error.NoScript? ==> now.readers == {})
      modifies this`steps, this`now, this`sha, this`repairs, redis`effects
      ensures Traced() && Mirrors() && SameLocks(old(now), now) && OthersUnmoved(old(now), now, c)
      ensures now.calls[c].pc.Done? && outcome == SlowResult(x, slow).0
      ensures redis.effects == old(redis.effects) + Times(SlowResult(x, slow).1)
      ensures sha == if error.NoScript? then "" else old(sha)
      ensures repairs == old(repairs) + if SlowResult(x, slow).2 then [Waiting] else []
    {
      if error.NoScript? {
        ClearSha(c);
      }
      outcome := SlowPath(c, slow);
    }

    /** Call c has tried the fast path, and everything else is as between calls. */
    ghost predicate Tried(c: nat, end: FastEnd)
      reads this, redis
    {
      && Traced() && Mirrors() && (sha == "" || sha == x.scriptSha) && !jammed
      && now.writer.NoHolder? && (now.readers != {} <==> leaked || end.Panics?)
      && (forall d :: d in now.readers ==> d < |now.calls|)
      && c < |now.calls| && now.calls[c].pc == (if end.Panics? then Stranded else AfterUnlock(end.error))
      && (forall d :: 0 <= d < |now.calls| && d != c ==> Ended(now.calls[d].pc))
      && (leaked || end.Panics? ==> x.hasRespFn) && (x.hasRespFn ==> repairs == [])
      && (forall p :: p in repairs ==> p.Waiting? || p.Finished?)
    }

    /** A call after its fast path: done, panicked, blocked for good, or off to the slow path. */
    method FinishCall(ghost c: nat, end: FastEnd, slow: Reply) returns (outcome: Outcome)
      requires Tried(c, end)
      modifies this, redis`effects
      ensures Valid() && start == old(start) && outcome == OutcomeOf(x, end, old(leaked), slow)
      ensures var s := SlowResult(x, slow);
              var slowly := GoesSlow(end) && !Blocks(end, old(leaked));
              && redis.effects == old(redis.effects) + Times(slowly && s.1)
              && sha == (if end == Returns(NoScript) && !Blocks(end, old(leaked)) then "" else old(sha))
              && repairs == old(repairs) + (if slowly && s.2 then [Waiting] else [])
      ensures leaked == (old(leaked) || end.Panics?) && jammed == Blocks(end, old(leaked))
    {
      if end.Panics? {
        leaked := true;
        return Panicked;
      }
      if end.error.NoError? {
        return Returned(true);
      }
      if end.error.NoScript? && leaked {
        Take(CallStep(c, AnnounceWrite));
        jammed := true;
        return Blocked;
      }
      outcome := AfterFailure(c, end.error, slow);
    }

    /**
     One call, not overlapped. On a jammed lock it blocks. Otherwise it ends as the fast path does, or else as the
     slow one; the script has run once for each of the two that ran it; the SHA is cleared exactly on NOSCRIPT, and a
     repair is left behind exactly when the slow path succeeds without a respFn. A panic on the fast path leaves the
     read lock held, and the next NOSCRIPT after that blocks and jams the lock.
     */
    method UpdateOneEvent(fast: Reply, slow: Reply) returns (outcome: Outcome)
      requires Valid()
      modifies this, redis`effects
      ensures Valid() && start == old(start)
      ensures old(jammed) ==>
                outcome == Blocked && unchanged(this`sha, this`repairs, this`leaked, this`jammed, redis`effects)
      ensures !old(jammed) ==>
                var f, s := FastResult(x, old(sha), redis.scripts, fast), SlowResult(x, slow);
                var slowly := GoesSlow(f.0) && !Blocks(f.0, old(leaked));
                && outcome == OutcomeOf(x, f.0, old(leaked), slow)
                && redis.effects == old(redis.effects) + Times(f.1) + Times(slowly && s.1)
                && sha == (if f.0 == Returns(NoScript) && !Blocks(f.0, old(leaked)) then "" else old(sha))
                && repairs == old(repairs) + (if slowly && s.2 then [Waiting] else [])
                && leaked == (old(leaked) || f.0.Panics?) && jammed == Blocks(f.0, old(leaked))
      ensures !old(jammed) ==> EndsAs(x, old(sha), redis.scripts, old(leaked), fast, slow, outcome)
      ensures !old(jammed) && !outcome.Blocked? && old(sha) != "" ==>
                sha == if ToldNoScript(x, old(sha), redis.scripts, fast) then "" else old(sha)
      ensures outcome.Blocked? ==> sha == old(sha)
    {
      OutcomeEndsAs(x, sha, redis.scripts, leaked, fast, slow);
      FastResultIs(x, sha, redis.scripts, fast);
      if jammed {
        Take(Begin);
        return Blocked;
      }
      ghost var c := |now.calls|;
      var end := TryFastPath(fast);
      outcome := FinishCall(c, end, slow);
    }

    /** One repair goroutine: it reloads the script only if the SHA is still empty. */
    method Repair(r: nat, fails: bool)
      requires Valid() && r < |repairs| && repairs[r].Waiting?
      modifies this, redis`scripts
      ensures Valid() && start == old(start) && repairs == old(repairs)[r := Finished]
      ensures sha == if old(sha) == "" && !fails then x.scriptSha else old(sha)
      ensures redis.scripts ==
              if old(sha) == "" && !fails then old(redis.scripts) + {x.scriptSha} else old(redis.scripts)
    {
      LockForRepair(r);
      Take(RepairStep(r, RepairCheck));
      if sha == "" {
        Reload(r, fails);
      }
      repairs := repairs[r := Finished];
    }

    ghost method LockForRepair(r: nat)
      requires Traced() && r < |now.repairs| && now.repairs[r].Waiting? && now.readers == {} && now.writer.NoHolder?
      modifies this`steps, this`now
      ensures Traced() && now == old(now).(writer := Held(RepairHolder(r)), repairs := old(now).repairs[r := Holding])
    {
      Take(RepairStep(r, RepairAnnounce));
      Take(RepairStep(r, RepairLock));
    }

    /** Under the write lock of repair r: load the script and store its SHA, then release the lock. */
    method Reload(ghost r: nat, fails: bool)
      requires Traced() && sha == "" && now.sha == sha && now.scripts == redis.scripts
      requires r < |now.repairs| && now.repairs[r] == Loading
      modifies this`steps, this`now, this`sha, redis`scripts
      ensures Traced() && now.sha == sha && now.scripts == redis.scripts
      ensures sha == if fails then "" else x.scriptSha
      ensures redis.scripts == if fails then old(redis.scripts) else old(redis.scripts) + {x.scriptSha}
      ensures now.repairs == old(now).repairs[r := Finished] && now.writer.NoHolder?
      ensures now.calls == old(now).calls && now.readers == old(now).readers && now.effects == old(now).effects
    {
      if fails {
        Take(RepairStep(r, RepairLoadFault));
      } else {
        redis.scripts := redis.scripts + {x.scriptSha};
        Take(RepairStep(r, RepairLoad));
        sha := x.scriptSha;
        Take(RepairStep(r, RepairStore));
      }
    }
  }

  /** Where a call is when its fast path is over but the lock not yet released, if it ever is. */
  function InLock(end: FastEnd): CallPc {
    match end
    case Returns(error) => Unlocking(error)
    case Panics => Stranded
  }

  function AfterUnlock(error: FastError): CallPc {
    match error
    case NoError => Done(true)
    case NoScript => WantClear
    case OtherError => Slow
  }

  ghost predicate Resting(s: State, leaked: bool, jammed: bool) {
    && (s.readers != {} <==> leaked) && (forall c :: c in s.readers ==> c < |s.calls|)
    && (if jammed then s.writer.Pending? else s.writer.NoHolder?)
    && (forall c :: c in s.calls ==> AtRest(c.pc, jammed))
  }

  predicate AtRest(pc: CallPc, jammed: bool) {
    Ended(pc) || (jammed && (pc.WaitClear? || pc.Start?))
  }

  /** The calls of s are the first ones of t, where they were. */
  ghost predicate Before(s: State, t: State) {
    |s.calls| <= |t.calls| && forall d :: 0 <= d < |s.calls| ==> t.calls[d] == s.calls[d]
  }

  ghost predicate SameLocks(s: State, t: State) { t.readers == s.readers && t.writer == s.writer }

  ghost predicate OthersUnmoved(s: State, t: State, c: nat) {
    |t.calls| == |s.calls| && c < |s.calls| && forall d :: 0 <= d < |s.calls| && d != c ==> t.calls[d] == s.calls[d]
  }

  ghost predicate SameButCall(s: State, t: State, c: nat) {
    SameLocks(s, t) && OthersUnmoved(s, t, c) && t.sha == s.sha && t.scripts == s.scripts && t.repairs == s.repairs
  }
}
