/**
 The profiling manager of infra/pprof.go when its calls are serialised: Start, Stop and the dump of one profile, with
 every operation of the outside free to fail. Each call is also a run of PprofProtocol, which has the same manager under
 interleaving.
 */
module PprofManager {
  import opened Wrappers
  import opened PprofProtocol
  import PprofSolo

  datatype Kind = Cpu | Heap | Goroutine

  /** Files are named by the start time of the session, in whole seconds; None is the zero time. */
  datatype File = Tmp(at: Option<nat>) | Profile(at: Option<nat>, kind: Kind)

  datatype StartError = MkdirError | CreateError | ProfileError | ListenError

  datatype StopError = ShutdownError | CloseError | RenameError | DumpError(kind: Kind)

  /** Which operations fail, had they been reached. */
  datatype StartFaults = StartFaults(mkdir: bool, create: bool, profile: bool, listen: bool, remove: bool)

  datatype DumpFaults = DumpFaults(lookup: bool, create: bool, write: bool, remove: bool)

  datatype StopFaults =
    StopFaults(shutdown: bool, close: bool, rename: bool, heap: DumpFaults, goroutine: DumpFaults)

  /** The error of a Start that fails: that of the first operation to do so; a running profiler cannot be started. */
  function StartFailure(f: StartFaults, profiling: bool): StartError {
    if f.mkdir then MkdirError
    else if f.create then CreateError
    else if f.profile || profiling then ProfileError
    else ListenError
  }

  /** The same faults, by position in the protocol. */
  function StartOutcomes(f: StartFaults): Phase -> bool {
    (p: Phase) =>
      match p
      case MakeDir => !f.mkdir
      case CreateFile => !f.create
      case StartProfile => !f.profile
      case Listen => !f.listen
      case _ => true
  }

  datatype StopResult = StopResult(changed: bool, state: string, dumped: seq<File>)

  function Name(w: Word): string {
    match w
    case Running => "running"
    case Dumping => "dumping"
    case Stopped => "stopped"
  }

  function Written(r: Result<File, StopError>): seq<File> {
    match r
    case Success(file) => [file]
    case Failure(_) => []
  }

  function Raised(r: Result<File, StopError>): seq<StopError> {
    match r
    case Success(_) => []
    case Failure(e) => [e]
  }

  predicate DumpFails(f: DumpFaults) { f.lookup || f.create || f.write }

  function If<T>(c: bool, x: T): seq<T> { if c then [x] else [] }

  /** The files a Stop moves or writes into place, in order; the CPU profile belongs to the session, if there is one. */
  function Dumped(live: bool, at: Option<nat>, f: StopFaults): seq<File> {
    If(live && !f.close && !f.rename, Profile(at, Cpu))
    + (If(!DumpFails(f.heap), Profile(at, Heap)) + If(!DumpFails(f.goroutine), Profile(at, Goroutine)))
  }

  /** The failures a Stop counts, in order. */
  function Failed(live: bool, f: StopFaults): seq<Kind> {
    If(live && (f.close || f.rename), Cpu) + (If(DumpFails(f.heap), Heap) + If(DumpFails(f.goroutine), Goroutine))
  }

  /** The errors of the dumps, in order. */
  function DumpErrors(live: bool, f: StopFaults): seq<StopError> {
    If(live && (f.close || f.rename), if f.close then CloseError else RenameError)
    + (If(DumpFails(f.heap), DumpError(Heap)) + If(DumpFails(f.goroutine), DumpError(Goroutine)))
  }

  /** Whether the file of a named profile is there afterwards. */
  predicate ThereAfter(f: DumpFaults, before: bool) {
    if f.lookup || f.create then before else !(f.write && !f.remove)
  }

  /** The files after a Stop: the CPU profile moved into place, the named ones written, and no other file touched. */
  ghost predicate FilesAfter(before: set<File>, after: set<File>, live: bool, at: Option<nat>, f: StopFaults) {
    var moved := live && !f.close && !f.rename;
    && (Profile(at, Cpu) in after <==> moved || Profile(at, Cpu) in before)
    && (Tmp(at) in after <==> Tmp(at) in before && !moved)
    && (Profile(at, Heap) in after <==> ThereAfter(f.heap, Profile(at, Heap) in before))
    && (Profile(at, Goroutine) in after <==> ThereAfter(f.goroutine, Profile(at, Goroutine) in before))
    && forall x: File :: x.at != at ==> (x in after <==> x in before)
  }

  lemma DumpedAreThere(before: set<File>, after: set<File>, live: bool, at: Option<nat>, f: StopFaults)
    requires FilesAfter(before, after, live, at, f)
    ensures forall d :: d in Dumped(live, at, f) ==> d in after
  {
    forall d | d in Dumped(live, at, f) ensures d in after {
      UpToThree(live && !f.close && !f.rename, Profile(at, Cpu), !DumpFails(f.heap), Profile(at, Heap),
                !DumpFails(f.goroutine), Profile(at, Goroutine), d);
    }
  }

  lemma FilesStepByStep(
    before: set<File>, moved: set<File>, after: set<File>, live: bool, at: Option<nat>, f: StopFaults)
    requires moved == if live && !f.close && !f.rename then before - {Tmp(at)} + {Profile(at, Cpu)} else before
    requires Profile(at, Heap) in after <==> ThereAfter(f.heap, Profile(at, Heap) in moved)
    requires Profile(at, Goroutine) in after <==> ThereAfter(f.goroutine, Profile(at, Goroutine) in moved)
    requires forall x :: x != Profile(at, Heap) && x != Profile(at, Goroutine) ==> (x in after <==> x in moved)
    ensures FilesAfter(before, after, live, at, f)
  {
  }

  lemma Associative<T>(a: seq<T>, b: seq<T>, c: seq<T>)
    ensures a + b + c == a + (b + c)
  {
  }

  lemma UpToThree<T>(c: bool, x: T, h: bool, y: T, g: bool, z: T, v: T)
    ensures var s := If(c, x) + (If(h, y) + If(g, z));
            && |s| == (if c then 1 else 0) + (if h then 1 else 0) + (if g then 1 else 0)
            && (v in s <==> (c && v == x) || (h && v == y) || (g && v == z))
  {
  }

  /** A Stop returns no error exactly when everything was dumped and the server, if there was one, shut down. */
  lemma NoErrorIffAllDumped(live: bool, at: Option<nat>, f: StopFaults)
    ensures If(live && f.shutdown, ShutdownError) + DumpErrors(live, f) == [] <==>
              |Dumped(live, at, f)| == (if live then 3 else 2) && !(live && f.shutdown)
  {
    EachProfileAccountedOnce(live, at, f, Cpu);
    assert |DumpErrors(live, f)| == |Failed(live, f)|;
  }

  /**
   Every profile of a stopped session is either dumped or counted as failed, and the two numbers add up to three;
   without a session only the two named profiles are.
   */
  lemma EachProfileAccountedOnce(live: bool, at: Option<nat>, f: StopFaults, k: Kind)
    ensures |Dumped(live, at, f)| + |Failed(live, f)| == if live then 3 else 2
    ensures Profile(at, k) in Dumped(live, at, f) <==> (live || !k.Cpu?) && k !in Failed(live, f)
  {
    UpToThree(live && !f.close && !f.rename, Profile(at, Cpu), !DumpFails(f.heap), Profile(at, Heap),
              !DumpFails(f.goroutine), Profile(at, Goroutine), Profile(at, k));
    UpToThree(live && (f.close || f.rename), Cpu, DumpFails(f.heap), Heap, DumpFails(f.goroutine), Goroutine, k);
  }

  /** Which profiles are counted as failed, and which errors a Stop returns, by what went wrong. */
  lemma FailuresNamed(live: bool, f: StopFaults, k: Kind)
    ensures k in Failed(live, f) <==>
              match k
              case Cpu => live && (f.close || f.rename)
              case Heap => f.heap.lookup || f.heap.create || f.heap.write
              case Goroutine => f.goroutine.lookup || f.goroutine.create || f.goroutine.write
    ensures DumpError(k) in DumpErrors(live, f) <==> k in Failed(live, f) && !k.Cpu?
    ensures CloseError in DumpErrors(live, f) <==> live && f.close
    ensures RenameError in DumpErrors(live, f) <==> live && !f.close && f.rename
    ensures ShutdownError !in DumpErrors(live, f)
  {
    UpToThree(live && (f.close || f.rename), Cpu, DumpFails(f.heap), Heap, DumpFails(f.goroutine), Goroutine, k);
    ErrorNamed(live, f, DumpError(k));
    ErrorNamed(live, f, CloseError);
    ErrorNamed(live, f, RenameError);
    ErrorNamed(live, f, ShutdownError);
  }

  lemma ErrorNamed(live: bool, f: StopFaults, e: StopError)
    ensures e in DumpErrors(live, f) <==>
              || (live && (f.close || f.rename) && e == if f.close then CloseError else RenameError)
              || (DumpFails(f.heap) && e == DumpError(Heap)) || (DumpFails(f.goroutine) && e == DumpError(Goroutine))
  {
    UpToThree(live && (f.close || f.rename), if f.close then CloseError else RenameError,
              DumpFails(f.heap), DumpError(Heap), DumpFails(f.goroutine), DumpError(Goroutine), e);
  }

  /** Files and errors come in the order CPU, heap, goroutine. */
  lemma InOrder(live: bool, at: Option<nat>, f: StopFaults)
    ensures |Dumped(live, at, f)| == 3 ==>
              Dumped(live, at, f) == [Profile(at, Cpu), Profile(at, Heap), Profile(at, Goroutine)]
    ensures |DumpErrors(live, f)| == 3 ==>
              DumpErrors(live, f) ==
              [if f.close then CloseError else RenameError, DumpError(Heap), DumpError(Goroutine)]
    ensures |DumpErrors(live, f)| == |Failed(live, f)|
  {
  }

  /** What the process shares: the CPU profiler, the dump directory, and the counter of failures by profile. */
  class Machine {
    var profiler: bool
    var files: set<File>
    var failures: seq<Kind>

    constructor ()
      ensures !profiler && files == {} && failures == []
    {
      profiler, files, failures := false, {}, [];
    }
  }

  class DynamicPprof {
    const machine: Machine
    var state: Word
    var server: bool
    var startedAt: Option<nat>
    var cpuFile: Option<File>
    var cpuTmp: Option<File>

    ghost var steps: seq<Step>

    /** The manager is where a run of the protocol has led, with no call inside its critical section. */
    ghost predicate Traced()
      reads this, machine
    {
      IsRun(steps) && Mirrors(Final(steps))
    }

    ghost predicate Mirrors(s: State)
      reads this, machine
    {
      s.mutex.None? && s.word == state && s.g.profiler == machine.profiler && (s.g.server.Some? <==> server)
    }

    /** A session is open: all four fields are set, together. */
    ghost predicate Live()
      reads this
    {
      server && startedAt.Some? && cpuFile == cpuTmp == Some(Tmp(startedAt))
    }

    ghost predicate Clear()
      reads this
    {
      !server && startedAt.None? && cpuFile.None? && cpuTmp.None?
    }

    /** What the mutex protects between critical sections, whatever the state word says. */
    ghost predicate Consistent()
      reads this, machine
    {
      (Live() && machine.profiler) || (Clear() && !machine.profiler)
    }

    /** Between serialised calls the word tells the truth as well. */
    ghost predicate Valid()
      reads this, machine
    {
      Consistent() && state == if server then Running else Stopped
    }

    constructor (m: Machine)
      requires !m.profiler
      ensures Valid() && Traced() && machine == m && state.Stopped?
    {
      machine, state := m, Stopped;
      server, startedAt, cpuFile, cpuTmp := false, None, None, None;
      steps := [];
    }

    predicate Starts(f: StartFaults)
      reads this, machine
    {
      state.Stopped? && !f.mkdir && !f.create && !f.profile && !machine.profiler && !f.listen
    }

    /** The run of a Start that is about to be made. */
    ghost method RecordStart(f: StartFaults)
      requires Traced()
      modifies this`steps
      ensures IsRun(steps) && Final(steps).mutex.None?
      ensures !Starts(f) ==> Mirrors(Final(steps))
      ensures Starts(f) ==> Final(steps).word.Running? && Final(steps).g.profiler && Final(steps).g.server.Some?
    {
      steps := PprofSolo.SoloStart(steps, StartOutcomes(f));
    }

    /** The run of a Stop that is about to be made. */
    ghost method RecordStop()
      requires Traced()
      modifies this`steps
      ensures IsRun(steps) && Final(steps).mutex.None?
      ensures !state.Running? ==> Mirrors(Final(steps))
      ensures state.Running? ==>
                Final(steps).word.Stopped? && Final(steps).g.server.None?
                && Final(steps).g.profiler == (machine.profiler && !server)
    {
      steps := PprofSolo.SoloStop(steps);
    }

    /**
     A Start that fails leaves the word stopped, the session and the profiler as they were, and no temporary file of its
     own unless removing it failed too. With a session open while the word is stopped it can only fail.
     */
    method Start(now: nat, f: StartFaults) returns (changed: bool, err: Option<StartError>)
      requires Consistent() && Traced()
      modifies this, machine
      ensures Consistent() && Traced() && (old(Valid()) ==> Valid())
      ensures !old(state).Stopped? ==>
                !changed && err.None? && unchanged(machine)
                && unchanged(this`state, this`server, this`startedAt, this`cpuFile, this`cpuTmp)
      ensures changed <==> old(Starts(f))
      ensures changed ==> err.None? && state.Running? && Live() && startedAt == Some(now)
      ensures changed ==> machine.files == old(machine.files) + {Tmp(Some(now))}
      ensures old(state).Stopped? && !changed ==>
                && err == Some(StartFailure(f, old(machine.profiler))) && state.Stopped?
                && unchanged(this`server, this`startedAt, this`cpuFile, this`cpuTmp) && unchanged(machine`profiler)
      ensures old(state).Stopped? && !changed ==>
                && (err == Some(MkdirError) <==> f.mkdir)
                && (err == Some(CreateError) <==> !f.mkdir && f.create)
                && (err == Some(ProfileError) <==> !f.mkdir && !f.create && (f.profile || old(machine.profiler)))
                && (err == Some(ListenError) <==> !f.mkdir && !f.create && !f.profile && !old(machine.profiler))
      ensures old(state).Stopped? && !changed ==>
                machine.files ==
                if f.mkdir || f.create then old(machine.files)
                else if f.remove then old(machine.files) + {Tmp(Some(now))}
                else old(machine.files) - {Tmp(Some(now))}
      ensures machine.failures == old(machine.failures)
    {
      RecordStart(f);
      if state != Stopped {
        return false, None;
      }
      state := Running;
      if f.mkdir {
        state := Stopped;
        return false, Some(MkdirError);
      }
      var tmp := Tmp(Some(now));
      if f.create {
        state := Stopped;
        return false, Some(CreateError);
      }
      machine.files := machine.files + {tmp};
      if f.profile || machine.profiler {
        Remove(tmp, f.remove);
        state := Stopped;
        return false, Some(ProfileError);
      }
      machine.profiler := true;
      if f.listen {
        machine.profiler := false;
        Remove(tmp, f.remove);
        state := Stopped;
        return false, Some(ListenError);
      }
      server, startedAt, cpuFile, cpuTmp := true, Some(now), Some(tmp), Some(tmp);
      return true, None;
    }

    /** Removing a file; the error is ignored. */
    method Remove(file: File, fails: bool)
      modifies machine`files
      ensures machine.files == if fails then old(machine.files) else old(machine.files) - {file}
    {
      if !fails {
        machine.files := machine.files - {file};
      }
    }

    /** Writing one named profile: either its file is there, or its failure is counted once. */
    method DumpNamedProfile(kind: Kind, at: Option<nat>, f: DumpFaults) returns (r: Result<File, StopError>)
      modifies machine`files, machine`failures
      ensures Written(r) == If(!DumpFails(f), Profile(at, kind)) && Raised(r) == If(DumpFails(f), DumpError(kind))
      ensures machine.failures == old(machine.failures) + If(DumpFails(f), kind)
      ensures machine.files ==
              if f.lookup || f.create then old(machine.files)
              else if f.write && !f.remove then old(machine.files) - {Profile(at, kind)}
              else old(machine.files) + {Profile(at, kind)}
    {
      if f.lookup {
        machine.failures := machine.failures + [kind];
        return Failure(DumpError(kind));
      }
      var path := Profile(at, kind);
      if f.create {
        machine.failures := machine.failures + [kind];
        return Failure(DumpError(kind));
      }
      machine.files := machine.files + {path};
      if f.write {
        machine.failures := machine.failures + [kind];
        Remove(path, f.remove);
        return Failure(DumpError(kind));
      }
      return Success(path);
    }

    /** Stopping the profiler and moving its file into place; a file that cannot be closed or moved stays behind. */
    method FinishCpuProfile(tmp: File, at: Option<nat>, close: bool, rename: bool) returns (r: Result<File, StopError>)
      requires tmp == Tmp(at)
      modifies machine
      ensures !machine.profiler
      ensures Written(r) == If(!close && !rename, Profile(at, Cpu))
      ensures Raised(r) == If(close || rename, if close then CloseError else RenameError)
      ensures machine.failures == old(machine.failures) + If(close || rename, Cpu)
      ensures machine.files ==
              if r.Success? then old(machine.files) - {tmp} + {Profile(at, Cpu)} else old(machine.files)
    {
      machine.profiler := false;
      if close {
        machine.failures := machine.failures + [Cpu];
        return Failure(CloseError);
      }
      if rename {
        machine.failures := machine.failures + [Cpu];
        return Failure(RenameError);
      }
      machine.files := machine.files - {tmp} + {Profile(at, Cpu)};
      return Success(Profile(at, Cpu));
    }

    /** The three dumps of a Stop: the CPU profile only when there is a file for it. */
    method WriteProfiles(file: Option<File>, tmp: Option<File>, at: Option<nat>, f: StopFaults)
      returns (dumped: seq<File>, errs: seq<StopError>)
      requires file.Some? ==> tmp == Some(Tmp(at))
      modifies machine
      ensures machine.profiler == (old(machine.profiler) && file.None?)
      ensures dumped == Dumped(file.Some?, at, f)
      ensures machine.failures == old(machine.failures) + Failed(file.Some?, f)
      ensures errs == DumpErrors(file.Some?, f)
      ensures FilesAfter(old(machine.files), machine.files, file.Some?, at, f)
    {
      ghost var start, cpuFailed := machine.failures, If(file.Some? && (f.close || f.rename), Cpu);
      ghost var before := machine.files;
      dumped, errs := WriteCpuProfile(file, tmp, at, f);
      ghost var moved := machine.files;
      var others, otherErrs := WriteNamedProfiles(at, f.heap, f.goroutine);
      FilesStepByStep(before, moved, machine.files, file.Some?, at, f);
      Associative(start, cpuFailed, If(DumpFails(f.heap), Heap) + If(DumpFails(f.goroutine), Goroutine));
      dumped, errs := dumped + others, errs + otherErrs;
    }

    method WriteCpuProfile(file: Option<File>, tmp: Option<File>, at: Option<nat>, f: StopFaults)
      returns (dumped: seq<File>, errs: seq<StopError>)
      requires file.Some? ==> tmp == Some(Tmp(at))
      modifies machine
      ensures machine.profiler == (old(machine.profiler) && file.None?)
      ensures dumped == If(file.Some? && !f.close && !f.rename, Profile(at, Cpu))
      ensures machine.failures == old(machine.failures) + If(file.Some? && (f.close || f.rename), Cpu)
      ensures errs == If(file.Some? && (f.close || f.rename), if f.close then CloseError else RenameError)
      ensures machine.files ==
              if file.Some? && !f.close && !f.rename then old(machine.files) - {tmp.value} + {Profile(at, Cpu)}
              else old(machine.files)
    {
      dumped, errs := [], [];
      if file.Some? {
        var cpu := FinishCpuProfile(tmp.value, at, f.close, f.rename);
        dumped, errs := Record(cpu, dumped, errs);
      }
    }

    method WriteNamedProfiles(at: Option<nat>, heap: DumpFaults, goroutine: DumpFaults)
      returns (dumped: seq<File>, errs: seq<StopError>)
      modifies machine`files, machine`failures
      ensures dumped == If(!DumpFails(heap), Profile(at, Heap)) + If(!DumpFails(goroutine), Profile(at, Goroutine))
      ensures machine.failures ==
              old(machine.failures) + (If(DumpFails(heap), Heap) + If(DumpFails(goroutine), Goroutine))
      ensures errs == If(DumpFails(heap), DumpError(Heap)) + If(DumpFails(goroutine), DumpError(Goroutine))
      ensures Profile(at, Heap) in machine.files <==> ThereAfter(heap, Profile(at, Heap) in old(machine.files))
      ensures Profile(at, Goroutine) in machine.files <==>
                ThereAfter(goroutine, Profile(at, Goroutine) in old(machine.files))
      ensures forall x :: x != Profile(at, Heap) && x != Profile(at, Goroutine) ==>
                (x in machine.files <==> x in old(machine.files))
    {
      dumped, errs := [], [];
      var r := DumpNamedProfile(Heap, at, heap);
      dumped, errs := Record(r, dumped, errs);
      r := DumpNamedProfile(Goroutine, at, goroutine);
      dumped, errs := Record(r, dumped, errs);
      Associative(old(machine.failures), If(DumpFails(heap), Heap), If(DumpFails(goroutine), Goroutine));
    }

    /**
     A Stop that wins ends stopped with every field cleared, whatever failed. The dumped files are there; each profile
     not dumped is counted as a failure, so that with a session the two numbers add up to three; and there is no error
     exactly when all three were dumped and the server shut down.
     */
    method Stop(f: StopFaults) returns (result: StopResult, errs: seq<StopError>)
      requires Consistent() && Traced()
      modifies this, machine
      ensures Consistent() && Traced() && (old(Valid()) ==> Valid())
      ensures result.changed <==> old(state).Running?
      ensures !result.changed ==>
                result == StopResult(false, Name(old(state)), []) && errs == [] && unchanged(machine)
                && unchanged(this`state, this`server, this`startedAt, this`cpuFile, this`cpuTmp)
      ensures !result.changed ==> result.state == if old(state).Dumping? then "dumping" else "stopped"
      ensures result.changed ==> state.Stopped? && Clear() && !machine.profiler && result.state == "stopped"
      ensures result.changed ==> result.dumped == Dumped(old(server), old(startedAt), f)
      ensures result.changed ==> machine.failures == old(machine.failures) + Failed(old(server), f)
      ensures result.changed ==> errs == If(old(server) && f.shutdown, ShutdownError) + DumpErrors(old(server), f)
      ensures result.changed && old(server) ==>
                |result.dumped| + (|machine.failures| - |old(machine.failures)|) == 3
                && (errs == [] <==> |result.dumped| == 3 && !f.shutdown)
      ensures forall d :: d in result.dumped ==> d in machine.files
      ensures result.changed && old(server) && old(cpuTmp).value in old(machine.files) ==>
                (old(cpuTmp).value in machine.files <==> f.close || f.rename)
      ensures result.changed ==> FilesAfter(old(machine.files), machine.files, old(server), old(startedAt), f)
    {
      RecordStop();
      if state != Running {
        return StopResult(false, Name(state), []), [];
      }
      state := Dumping;
      var at, hadServer, file, tmp := startedAt, server, cpuFile, cpuTmp;
      ghost var files := machine.files;
      server, cpuFile, cpuTmp, startedAt := false, None, None, None;
      var dumped, dumpErrs := WriteProfiles(file, tmp, at, f);
      errs := If(hadServer && f.shutdown, ShutdownError) + dumpErrs;
      EachProfileAccountedOnce(hadServer, at, f, Cpu);
      NoErrorIffAllDumped(hadServer, at, f);
      DumpedAreThere(files, machine.files, hadServer, at, f);
      state := Stopped;
      result := StopResult(true, Name(Stopped), dumped);
    }

    static method Record(r: Result<File, StopError>, dumped: seq<File>, errs: seq<StopError>)
      returns (dumped': seq<File>, errs': seq<StopError>)
      ensures dumped' == dumped + Written(r)
      ensures errs' == errs + Raised(r)
    {
      match r {
        case Success(file) => return dumped + [file], errs;
        case Failure(e) => return dumped, errs + [e];
      }
    }
  }
}
