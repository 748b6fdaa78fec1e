/**
 The Lua executor of redis/lua.go as a step system: any number of UpdateOneEvent calls and asynchronous repairs
 interleave on one cached SHA under one RWMutex, while the server may drop or learn scripts at any moment and any
 Redis request may fail, with or without having taken effect.

 One step is one access to shared state: a lock operation, a read or write of LuaScriptSha, or the moment a request
 takes effect on the server.
 */
module LuaProtocol {
  import opened Sums

  /** SHA is what SCRIPT LOAD answers for LuaScript; hasRespFn tells whether respFn is non-nil. */
  datatype Setup = Setup(scriptSha: string, hasRespFn: bool) {
    predicate Valid() { scriptSha != "" }
  }

  /** The error fastPath returns. NoScript stands for any error whose text starts with NOSCRIPT. */
  datatype FastError = NoError | NoScript | OtherError

  /** What respFn does with an answer. */
  datatype Verdict = Accept | Reject(startsWithNoScript: bool) | Panic

  datatype CallPc =
    | Start               // before mx.RLock
    | Checking            // read lock held, about to compare LuaScriptSha with ""
    | Checked             // it was not empty; about to read it as an argument
    | Sending(sha: string)
    | Ran                 // EVALSHA answered without error
    | Unlocking(error: FastError)
    | Stranded            // ended by a panic of respFn, which has left the read lock held
    | WantClear           // NOSCRIPT; before mx.Lock
    | WaitClear           // in mx.Lock: no new reader gets in, the present ones must leave
    | Clearing            // write lock held
    | Slow                // before EVAL
    | SlowRan             // EVAL answered without error
    | Done(ok: bool)      // returned nil, or an error; or ended by a panic of respFn outside the lock

  /** executions, lost and rejected are history: script runs on behalf of the call, and why the fast run was wasted. */
  datatype Call = Call(pc: CallPc, executions: nat, lost: bool, rejected: bool)

  datatype RepairPc = Waiting | WaitLock | Holding | Loading | Loaded | Finished

  datatype Holder = CallHolder(call: nat) | RepairHolder(repair: nat)

  datatype State = State(
    sha: string,                 // LuaScriptSha
    readers: set<nat>,           // mx: calls holding the read lock
    writer: WriteLock,           // mx: who holds the write lock, or is next to
    scripts: set<string>,        // the server's script cache
    effects: nat,                // runs of LuaScript on the server
    calls: seq<Call>,
    repairs: seq<RepairPc>,
    prepares: nat,               // times the application stored the SHA
    clears: nat,                 // times LuaScriptSha went from non-empty to empty
    loads: nat,                  // times a repair stored a SHA
    faults: nat)                 // requests that failed other than by a missing script

  /** A writer first announces itself, which keeps new readers out, and then waits for the present ones to leave. */
  datatype WriteLock = NoHolder | Pending(holder: Holder) | Held(holder: Holder)

  /**
   EvalSha is answered by the server's script cache. EvalShaFault is any other failure, after the script has run or not;
   its text may start with NOSCRIPT too, as when the script itself returns such an error.
   */
  datatype CallAction =
    | AcquireRead | CheckSha | ReadSha
    | EvalSha | EvalShaFault(executed: bool, noScript: bool)
    | Respond(verdict: Verdict) | ReleaseRead
    | AnnounceWrite | AcquireWrite | Clear
    | Eval | EvalFault(executed: bool)
    | Answer(verdict: Verdict)

  datatype RepairAction = RepairAnnounce | RepairLock | RepairCheck | RepairLoad | RepairLoadFault | RepairStore

  datatype Step =
    | Begin
    | CallStep(call: nat, action: CallAction)
    | RepairStep(repair: nat, repairAction: RepairAction)
    | CacheChange(scripts: set<string>)
    | Prepare   // the application's own PrepareLuaScript stores the SHA, at any time and without the lock

  // ---- Steps ----

  predicate HoldsRead(pc: CallPc) {
    pc.Checking? || pc.Checked? || pc.Sending? || pc.Ran? || pc.Unlocking? || pc.Stranded?
  }

  predicate HoldsWrite(pc: RepairPc) {
    pc.Holding? || pc.Loading? || pc.Loaded?
  }

  predicate CallEnabled(s: State, c: nat, a: CallAction)
  {
    c < |s.calls| &&
    var pc := s.calls[c].pc;
    match a
    case AcquireRead => pc.Start? && s.writer.NoHolder?
    case CheckSha => pc.Checking?
    case ReadSha => pc.Checked?
    case EvalSha => pc.Sending?
    case EvalShaFault(_, _) => pc.Sending?
    case Respond(_) => pc.Ran?
    case ReleaseRead => pc.Unlocking?
    case AnnounceWrite => pc.WantClear? && s.writer.NoHolder?
    case AcquireWrite => pc.WaitClear? && s.readers == {}
    case Clear => pc.Clearing?
    case Eval => pc.Slow?
    case EvalFault(_) => pc.Slow?
    case Answer(_) => pc.SlowRan?
  }

  function Move(s: State, c: nat, pc: CallPc): State
    requires c < |s.calls|
  {
    s.(calls := s.calls[c := s.calls[c].(pc := pc)])
  }

  /** The script runs on the server for call c. */
  function Execute(s: State, c: nat): State
    requires c < |s.calls|
  {
    s.(calls := s.calls[c := s.calls[c].(executions := s.calls[c].executions + 1)], effects := s.effects + 1)
  }

  function ErrorOf(v: Verdict): FastError
    requires !v.Panic?
  {
    match v
    case Accept => NoError
    case Reject(prefix) => if prefix then NoScript else OtherError
  }

  function CallNext(x: Setup, s: State, c: nat, a: CallAction): State
    requires CallEnabled(s, c, a)
  {
    var call := s.calls[c];
    match a
    case AcquireRead => Move(s.(readers := s.readers + {c}), c, Checking)
    case CheckSha => Move(s, c, if s.sha == "" then Unlocking(OtherError) else Checked)
    case ReadSha => Move(s, c, Sending(s.sha))
    case EvalSha =>
      if call.pc.sha !in s.scripts then Move(s, c, Unlocking(NoScript))
      else if call.pc.sha == x.scriptSha then Move(Execute(s, c), c, Ran)
      else Move(s, c, Ran)
    case EvalShaFault(executed, noScript) =>
      var t := s.(faults := s.faults + 1);
      var next := Unlocking(if noScript then NoScript else OtherError);
      if executed && call.pc.sha == x.scriptSha then
        var u := Execute(t, c);
        Move(u.(calls := u.calls[c := u.calls[c].(lost := true)]), c, next)
      else Move(t, c, next)
    case Respond(v) =>
      if !x.hasRespFn || v.Accept? then Move(s, c, Unlocking(NoError))
      else if v.Panic? then Move(s, c, Stranded)
      else Move(s.(calls := s.calls[c := call.(rejected := true)]), c, Unlocking(ErrorOf(v)))
    case ReleaseRead =>
      Move(s.(readers := s.readers - {c}), c,
           match call.pc.error
           case NoError => Done(true)
           case NoScript => WantClear
           case OtherError => Slow)
    case AnnounceWrite => Move(s.(writer := Pending(CallHolder(c))), c, WaitClear)
    case AcquireWrite => Move(s.(writer := Held(CallHolder(c))), c, Clearing)
    case Clear =>
      Move(s.(sha := "", clears := if s.sha != "" then s.clears + 1 else s.clears, writer := NoHolder), c, Slow)
    case Eval => Move(Execute(s, c), c, SlowRan)
    case EvalFault(executed) =>
      Move(if executed then Execute(s.(faults := s.faults + 1), c) else s.(faults := s.faults + 1), c, Done(false))
    case Answer(v) =>
      if x.hasRespFn then Move(s, c, Done(v.Accept?))
      else Move(s.(repairs := s.repairs + [Waiting]), c, Done(true))
  }

  predicate RepairEnabled(s: State, r: nat, a: RepairAction) {
    r < |s.repairs| &&
    match a
    case RepairAnnounce => s.repairs[r].Waiting? && s.writer.NoHolder?
    case RepairLock => s.repairs[r].WaitLock? && s.readers == {}
    case RepairCheck => s.repairs[r].Holding?
    case RepairLoad => s.repairs[r].Loading?
    case RepairLoadFault => s.repairs[r].Loading?
    case RepairStore => s.repairs[r].Loaded?
  }

  function MoveRepair(s: State, r: nat, pc: RepairPc): State
    requires r < |s.repairs|
  {
    s.(repairs := s.repairs[r := pc])
  }

  function RepairNext(x: Setup, s: State, r: nat, a: RepairAction): State
    requires RepairEnabled(s, r, a)
  {
    match a
    case RepairAnnounce => MoveRepair(s.(writer := Pending(RepairHolder(r))), r, WaitLock)
    case RepairLock => MoveRepair(s.(writer := Held(RepairHolder(r))), r, Holding)
    case RepairCheck =>
      if s.sha != "" then MoveRepair(s.(writer := NoHolder), r, Finished) else MoveRepair(s, r, Loading)
    case RepairLoad => MoveRepair(s.(scripts := s.scripts + {x.scriptSha}), r, Loaded)
    case RepairLoadFault => MoveRepair(s.(faults := s.faults + 1, writer := NoHolder), r, Finished)
    case RepairStore =>
      MoveRepair(s.(sha := x.scriptSha, loads := s.loads + 1, writer := NoHolder), r, Finished)
  }

  predicate Enabled(s: State, step: Step) {
    match step
    case Begin => true
    case CallStep(c, a) => CallEnabled(s, c, a)
    case RepairStep(r, a) => RepairEnabled(s, r, a)
    case CacheChange(_) => true
    case Prepare => true
  }

  function Next(x: Setup, s: State, step: Step): State
    requires Enabled(s, step)
  {
    match step
    case Begin => s.(calls := s.calls + [Call(Start, 0, false, false)])
    case CallStep(c, a) => CallNext(x, s, c, a)
    case RepairStep(r, a) => RepairNext(x, s, r, a)
    case CacheChange(scripts) => s.(scripts := scripts)
    case Prepare => s.(sha := x.scriptSha, prepares := s.prepares + 1)
  }

  // ---- Runs ----

  /** Before the first call PrepareLuaScript may or may not have stored the SHA. */
  ghost predicate Initial(x: Setup, s: State) {
    && x.Valid() && (s.sha == "" || s.sha == x.scriptSha)
    && s.readers == {} && s.writer.NoHolder? && s.calls == [] && s.repairs == []
    && s.effects == 0 && s.prepares == 0 && s.clears == 0 && s.loads == 0 && s.faults == 0
  }

  ghost function Final(x: Setup, s0: State, steps: seq<Step>): State
    requires IsRun(x, s0, steps)
    decreases |steps|, 2
  {
    if steps == [] then s0 else Next(x, Final(x, s0, steps[..|steps| - 1]), steps[|steps| - 1])
  }

  ghost predicate IsRun(x: Setup, s0: State, steps: seq<Step>)
    decreases |steps|, 1
  {
    steps == [] ||
    (IsRun(x, s0, steps[..|steps| - 1]) && Enabled(Final(x, s0, steps[..|steps| - 1]), steps[|steps| - 1]))
  }

  lemma ExtendRun(x: Setup, s0: State, steps: seq<Step>, step: Step)
    requires IsRun(x, s0, steps) && Enabled(Final(x, s0, steps), step)
    ensures IsRun(x, s0, steps + [step])
    ensures Final(x, s0, steps + [step]) == Next(x, Final(x, s0, steps), step)
  {
    assert (steps + [step])[..|steps|] == steps;
  }

  // ---- The invariant ----

  function Executions(call: Call): int { call.executions }

  /** Runs of the script that the call could not use: the reply was lost, or respFn rejected it. */
  function Wasted(call: Call): nat {
    if call.lost || call.rejected then 1 else 0
  }

  /** How often the script has run for a call, by position and by what went wrong. */
  ghost predicate Accounted(x: Setup, faults: nat, call: Call) {
    && !(call.lost && call.rejected)
    && (call.lost ==> faults > 0) && (call.rejected ==> x.hasRespFn)
    && match call.pc
       case Start | Checking | Checked | Sending(_) => call.executions == 0 && Wasted(call) == 0
       case Ran => call.executions == 1 && Wasted(call) == 0
       case Unlocking(e) =>
         if e == NoError then call.executions == 1 && Wasted(call) == 0 else call.executions == Wasted(call)
       case Stranded => call.executions == 1 && Wasted(call) == 0 && x.hasRespFn
       case WantClear | WaitClear | Clearing | Slow => call.executions == Wasted(call)
       case SlowRan => call.executions == Wasted(call) + 1
       case Done(ok) =>
         if ok || faults == 0 then call.executions == Wasted(call) + 1 && (ok || x.hasRespFn)
         else Wasted(call) <= call.executions <= Wasted(call) + 1
  }

  /** While a call holds the read lock and has seen a SHA, that SHA stays. */
  predicate ReliesOnSha(pc: CallPc) {
    pc.Checked? || pc.Sending? || pc.Ran? || pc == Unlocking(NoError)
  }

  /** The lock knows call c as what it is. */
  ghost predicate InLockOrder(s: State, c: nat)
    requires c < |s.calls|
  {
    var pc := s.calls[c].pc;
    && (c in s.readers <==> HoldsRead(pc))
    && (s.writer == Pending(CallHolder(c)) <==> pc.WaitClear?)
    && (s.writer == Held(CallHolder(c)) <==> pc.Clearing?)
  }

  ghost predicate ShaKnown(x: Setup, s: State, c: nat)
    requires c < |s.calls|
  {
    var pc := s.calls[c].pc;
    (ReliesOnSha(pc) ==> s.sha == x.scriptSha) && (pc.Sending? ==> pc.sha == x.scriptSha)
  }

  ghost predicate CallOk(x: Setup, s: State, c: nat)
    requires c < |s.calls|
  {
    InLockOrder(s, c) && ShaKnown(x, s, c) && Accounted(x, s.faults, s.calls[c])
  }

  ghost predicate RepairOk(s: State, r: nat)
    requires r < |s.repairs|
  {
    && (s.writer == Pending(RepairHolder(r)) <==> s.repairs[r].WaitLock?)
    && (s.writer == Held(RepairHolder(r)) <==> HoldsWrite(s.repairs[r]))
  }

  /** Read-write lock discipline: a writer excludes readers, and holders are real. */
  ghost predicate LockOk(s: State) {
    && (s.readers != {} ==> !s.writer.Held?)
    && (forall c :: c in s.readers ==> c < |s.calls|)
    && (!s.writer.NoHolder? ==>
          match s.writer.holder
          case CallHolder(c) => c < |s.calls|
          case RepairHolder(r) => r < |s.repairs|)
  }

  function IsSet(sha: string): nat { if sha != "" then 1 else 0 }

  /** The repair holding the write lock is about to store the SHA although the application has stored it meanwhile. */
  predicate Overwriting(s: State) {
    && s.sha != "" && s.writer.Held? && s.writer.holder.RepairHolder? && s.writer.holder.repair < |s.repairs|
    && (s.repairs[s.writer.holder.repair].Loading? || s.repairs[s.writer.holder.repair].Loaded?)
  }

  function Count(b: bool): nat { if b then 1 else 0 }

  /**
   Every store by a repair pairs with a clear, up to what is cached now and what was cached at the start; the
   application's own stores can only make repairs fewer, and without them the account is exact.
   */
  ghost predicate Balanced(s0: State, s: State) {
    && s.loads + IsSet(s0.sha) + Count(Overwriting(s)) <= s.clears + IsSet(s.sha)
    && s.clears + IsSet(s.sha) <= s.loads + IsSet(s0.sha) + s.prepares
    && (s.prepares == 0 ==> !Overwriting(s))
  }

  ghost predicate Inv(x: Setup, s0: State, s: State) {
    && x.Valid() && (s.sha == "" || s.sha == x.scriptSha)
    && LockOk(s) && Balanced(s0, s)
    && (x.hasRespFn ==> s.repairs == [] && s.loads == 0)
    && s.effects == Sum(s.calls, Executions)
    && (forall c: nat {:trigger CallOk(x, s, c)} :: c < |s.calls| ==> CallOk(x, s, c))
    && (forall r: nat {:trigger RepairOk(s, r)} :: r < |s.repairs| ==> RepairOk(s, r))
  }

  lemma InitialInv(x: Setup, s0: State)
    requires Initial(x, s0)
    ensures Inv(x, s0, s0)
  {
  }

  // ---- A call step keeps the invariant ----

  lemma CallStepLock(x: Setup, s: State, c: nat, a: CallAction)
    requires CallEnabled(s, c, a) && LockOk(s) && InLockOrder(s, c)
    ensures InLockOrder(CallNext(x, s, c, a), c)
  {
  }

  lemma CallStepSha(x: Setup, s: State, c: nat, a: CallAction)
    requires CallEnabled(s, c, a) && ShaKnown(x, s, c) && (s.sha == "" || s.sha == x.scriptSha)
    ensures ShaKnown(x, CallNext(x, s, c, a), c)
  {
  }

  lemma CallStepAccount(x: Setup, s: State, c: nat, a: CallAction)
    requires CallEnabled(s, c, a) && ShaKnown(x, s, c) && Accounted(x, s.faults, s.calls[c])
    ensures Accounted(x, CallNext(x, s, c, a).faults, CallNext(x, s, c, a).calls[c])
  {
  }

  lemma CallStepSelf(x: Setup, s: State, c: nat, a: CallAction)
    requires CallEnabled(s, c, a) && LockOk(s) && CallOk(x, s, c) && (s.sha == "" || s.sha == x.scriptSha)
    ensures CallOk(x, CallNext(x, s, c, a), c)
  {
    CallStepLock(x, s, c, a);
    CallStepSha(x, s, c, a);
    CallStepAccount(x, s, c, a);
  }

  /** What a step of call c leaves of the lock, the SHA and the failures to another call d. */
  lemma CallStepLeaves(x: Setup, s: State, c: nat, a: CallAction, d: nat)
    requires CallEnabled(s, c, a) && LockOk(s) && InLockOrder(s, c)
    requires d < |s.calls| && d != c
    ensures var t := CallNext(x, s, c, a);
            && |t.calls| == |s.calls| && t.calls[d] == s.calls[d]
            && (d in t.readers <==> d in s.readers)
            && (t.writer == Pending(CallHolder(d)) <==> s.writer == Pending(CallHolder(d)))
            && (t.writer == Held(CallHolder(d)) <==> s.writer == Held(CallHolder(d)))
            && (t.sha == s.sha || s.readers == {}) && s.faults <= t.faults
  {
  }

  lemma AccountedLater(x: Setup, faults: nat, more: nat, call: Call)
    requires Accounted(x, faults, call) && faults <= more
    ensures Accounted(x, more, call)
  {
  }

  lemma CallStepOther(x: Setup, s: State, c: nat, a: CallAction, d: nat)
    requires CallEnabled(s, c, a) && LockOk(s) && CallOk(x, s, c)
    requires d < |s.calls| && d != c && CallOk(x, s, d)
    ensures CallOk(x, CallNext(x, s, c, a), d)
  {
    CallStepLeaves(x, s, c, a, d);
    AccountedLater(x, s.faults, CallNext(x, s, c, a).faults, s.calls[d]);
  }

  lemma CallStepRepair(x: Setup, s: State, c: nat, a: CallAction, r: nat)
    requires CallEnabled(s, c, a) && LockOk(s) && CallOk(x, s, c)
    requires r < |CallNext(x, s, c, a).repairs| && (r < |s.repairs| ==> RepairOk(s, r))
    ensures RepairOk(CallNext(x, s, c, a), r)
  {
  }

  lemma CallStepLocks(x: Setup, s: State, c: nat, a: CallAction)
    requires CallEnabled(s, c, a) && LockOk(s) && InLockOrder(s, c)
    ensures LockOk(CallNext(x, s, c, a))
  {
  }

  lemma CallStepBalance(x: Setup, s0: State, s: State, c: nat, a: CallAction)
    requires CallEnabled(s, c, a) && InLockOrder(s, c) && Balanced(s0, s)
    requires s.sha == "" || s.sha == x.scriptSha
    ensures var t := CallNext(x, s, c, a); Balanced(s0, t) && (t.sha == "" || t.sha == x.scriptSha)
  {
  }

  lemma CallStepGlobal(x: Setup, s0: State, s: State, c: nat, a: CallAction)
    requires CallEnabled(s, c, a) && LockOk(s) && CallOk(x, s, c) && Balanced(s0, s)
    requires x.hasRespFn ==> s.repairs == [] && s.loads == 0
    requires s.sha == "" || s.sha == x.scriptSha
    ensures var t := CallNext(x, s, c, a);
            && LockOk(t) && Balanced(s0, t) && (t.sha == "" || t.sha == x.scriptSha)
            && (x.hasRespFn ==> t.repairs == [] && t.loads == 0)
  {
    CallStepLocks(x, s, c, a);
    CallStepBalance(x, s0, s, c, a);
  }

  lemma CallStepEffects(x: Setup, s: State, c: nat, a: CallAction)
    requires CallEnabled(s, c, a) && s.effects == Sum(s.calls, Executions)
    ensures var t := CallNext(x, s, c, a);
            t.effects == Sum(t.calls, Executions)
  {
    var t := CallNext(x, s, c, a);
    assert t.calls == s.calls[c := t.calls[c]];
    SumUpdate(s.calls, c, t.calls[c], Executions);
  }

  // ---- So do the other steps ----

  lemma RepairStepSelf(x: Setup, s: State, r: nat, a: RepairAction)
    requires RepairEnabled(s, r, a) && LockOk(s) && RepairOk(s, r)
    ensures RepairOk(RepairNext(x, s, r, a), r)
  {
  }

  lemma RepairStepOther(x: Setup, s: State, r: nat, a: RepairAction, q: nat)
    requires RepairEnabled(s, r, a) && LockOk(s) && RepairOk(s, r)
    requires q < |s.repairs| && q != r && RepairOk(s, q)
    ensures RepairOk(RepairNext(x, s, r, a), q)
  {
  }

  lemma RepairStepCall(x: Setup, s: State, r: nat, a: RepairAction, c: nat)
    requires RepairEnabled(s, r, a) && LockOk(s) && RepairOk(s, r)
    requires c < |s.calls| && CallOk(x, s, c)
    ensures CallOk(x, RepairNext(x, s, r, a), c)
  {
  }

  lemma RepairStepGlobal(x: Setup, s0: State, s: State, r: nat, a: RepairAction)
    requires RepairEnabled(s, r, a) && LockOk(s) && RepairOk(s, r) && Balanced(s0, s)
    requires x.Valid() && (s.sha == "" || s.sha == x.scriptSha)
    ensures var t := RepairNext(x, s, r, a);
            LockOk(t) && Balanced(s0, t) && (t.sha == "" || t.sha == x.scriptSha)
  {
  }

  /** A call that does not move is unaffected by steps that leave the lock, the SHA and the faults alone. */
  lemma CallUnmoved(x: Setup, s: State, t: State, c: nat)
    requires c < |s.calls| && c < |t.calls| && CallOk(x, s, c)
    requires t.calls[c] == s.calls[c]
    requires t.readers == s.readers && t.writer == s.writer && t.sha == s.sha && t.faults == s.faults
    ensures CallOk(x, t, c)
  {
  }

  lemma RepairUnmoved(s: State, t: State, r: nat)
    requires r < |s.repairs| && r < |t.repairs| && RepairOk(s, r)
    requires t.repairs[r] == s.repairs[r] && t.writer == s.writer
    ensures RepairOk(t, r)
  {
  }

  lemma NewCallOk(x: Setup, s: State)
    requires LockOk(s)
    ensures CallOk(x, Next(x, s, Begin), |s.calls|)
  {
  }

  lemma BeginGlobal(x: Setup, s0: State, s: State)
    requires LockOk(s) && Balanced(s0, s) && s.effects == Sum(s.calls, Executions)
    ensures var t := Next(x, s, Begin); LockOk(t) && Balanced(s0, t) && t.effects == Sum(t.calls, Executions)
  {
    SumAppend(s.calls, Call(Start, 0, false, false), Executions);
  }

  lemma BeginKeepsInv(x: Setup, s0: State, s: State)
    requires Inv(x, s0, s)
    ensures Inv(x, s0, Next(x, s, Begin))
  {
    var t := Next(x, s, Begin);
    BeginGlobal(x, s0, s);
    forall c: nat | c < |t.calls| ensures CallOk(x, t, c) {
      if c < |s.calls| {
        assert CallOk(x, s, c);
        CallUnmoved(x, s, t, c);
      } else {
        NewCallOk(x, s);
      }
    }
    forall r: nat | r < |t.repairs| ensures RepairOk(t, r) {
      assert RepairOk(s, r);
      RepairUnmoved(s, t, r);
    }
  }

  lemma CallStepKeepsInv(x: Setup, s0: State, s: State, c: nat, a: CallAction)
    requires Inv(x, s0, s) && CallEnabled(s, c, a)
    ensures Inv(x, s0, CallNext(x, s, c, a))
  {
    assert CallOk(x, s, c);
    CallStepGlobal(x, s0, s, c, a);
    CallStepEffects(x, s, c, a);
    CallStepSelf(x, s, c, a);
    var t := CallNext(x, s, c, a);
    forall d: nat | d < |t.calls| ensures CallOk(x, t, d) {
      if d != c {
        assert CallOk(x, s, d);
        CallStepOther(x, s, c, a, d);
      }
    }
    forall r: nat | r < |t.repairs| ensures RepairOk(t, r) {
      if r < |s.repairs| { assert RepairOk(s, r); }
      CallStepRepair(x, s, c, a, r);
    }
  }

  lemma RepairStepKeepsInv(x: Setup, s0: State, s: State, r: nat, a: RepairAction)
    requires Inv(x, s0, s) && RepairEnabled(s, r, a)
    ensures Inv(x, s0, RepairNext(x, s, r, a))
  {
    assert RepairOk(s, r);
    RepairStepGlobal(x, s0, s, r, a);
    RepairStepSelf(x, s, r, a);
    var t := RepairNext(x, s, r, a);
    forall c: nat | c < |t.calls| ensures CallOk(x, t, c) {
      assert CallOk(x, s, c);
      RepairStepCall(x, s, r, a, c);
    }
    forall q: nat | q < |t.repairs| ensures RepairOk(t, q) {
      if q != r {
        assert RepairOk(s, q);
        RepairStepOther(x, s, r, a, q);
      }
    }
  }

  lemma CacheChangeKeepsInv(x: Setup, s0: State, s: State, scripts: set<string>)
    requires Inv(x, s0, s)
    ensures Inv(x, s0, s.(scripts := scripts))
  {
    var t := s.(scripts := scripts);
    forall c: nat | c < |t.calls| ensures CallOk(x, t, c) {
      assert CallOk(x, s, c);
      CallUnmoved(x, s, t, c);
    }
    forall r: nat | r < |t.repairs| ensures RepairOk(t, r) {
      assert RepairOk(s, r);
      RepairUnmoved(s, t, r);
    }
  }

  lemma PrepareKeepsInv(x: Setup, s0: State, s: State)
    requires Inv(x, s0, s)
    ensures Inv(x, s0, Next(x, s, Prepare))
  {
    var t := Next(x, s, Prepare);
    forall c: nat | c < |t.calls| ensures CallOk(x, t, c) { assert CallOk(x, s, c); }
    forall r: nat | r < |t.repairs| ensures RepairOk(t, r) {
      assert RepairOk(s, r);
    }
  }

  lemma StepKeepsInv(x: Setup, s0: State, s: State, step: Step)
    requires Inv(x, s0, s) && Enabled(s, step)
    ensures Inv(x, s0, Next(x, s, step))
  {
    match step
    case Begin => BeginKeepsInv(x, s0, s);
    case CallStep(c, a) => CallStepKeepsInv(x, s0, s, c, a);
    case RepairStep(r, a) => RepairStepKeepsInv(x, s0, s, r, a);
    case CacheChange(scripts) => CacheChangeKeepsInv(x, s0, s, scripts);
    case Prepare => PrepareKeepsInv(x, s0, s);
  }

  /** The invariant holds after every run: any interleaving, any cache changes, any failures. */
  lemma {:induction false} RunKeepsInv(x: Setup, s0: State, steps: seq<Step>)
    requires Initial(x, s0) && IsRun(x, s0, steps)
    ensures Inv(x, s0, Final(x, s0, steps))
    decreases |steps|
  {
    if steps == [] {
      InitialInv(x, s0);
    } else {
      var front := steps[..|steps| - 1];
      RunKeepsInv(x, s0, front);
      StepKeepsInv(x, s0, Final(x, s0, front), steps[|steps| - 1]);
    }
  }
}
