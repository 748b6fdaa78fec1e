/**
 The local RPC counter of interceptor/counter.go as a step system: any number of increments, over any keys, interleave
 on a shared map from keys to counter cells without a lock, while any number of reporting passes walk over the map.

 One step is one Load, Add or LoadOrStore. Allocating a cell and setting it to one happen before the cell is shared,
 so they belong to the Load that misses.
 */
module RpcCounter {
  import opened Sums
  import opened Wrappers

  /** Counters are 64 bits wide and wrap. */
  const MODULUS := 0x1_0000_0000_0000_0000

  /**
   Where an increment is: not started, holding the cell it found, holding the fresh cell it made, holding the cell
   LoadOrStore found, or past the point where it counts.
   */
  datatype Pc = Begin | Hit(cell: nat) | Made(cell: nat) | Late(cell: nat) | Done

  datatype Call = Call(key: string, pc: Pc)

  /** A walk over the map: seen is what it reports; start and finish are history: the counts when it began and ended. */
  datatype Pass = Pass(start: map<string, nat>, seen: map<string, nat>, finish: Option<map<string, nat>>)

  datatype State = State(table: map<string, nat>, cells: seq<nat>, calls: seq<Call>, passes: seq<Pass>)

  datatype Step =
    | Increment(key: string) | Act(call: nat)
    | BeginPass | Visit(pass: nat, key: string) | EndPass(pass: nat)

  // ---- What counts ----

  function PastCommit(k: string): Call -> int {
    (c: Call) => if c.key == k && c.pc.Done? then 1 else 0
  }

  /** The increments of key k that have passed their commit point: the Add, or the LoadOrStore that stored. */
  function Committed(calls: seq<Call>, k: string): (n: nat)
  {
    SumBound(calls, PastCommit(k), 1);
    Sum(calls, PastCommit(k))
  }

  /** The counts of the published keys. */
  function Counts(s: State): map<string, nat> { map k | k in s.table :: Committed(s.calls, k) }

  function StartCount(p: Pass, k: string): nat { if k in p.start then p.start[k] else 0 }

  /** The count when the pass ended, or now if it has not. */
  function EndCount(p: Pass, calls: seq<Call>, k: string): nat {
    if p.finish.Some? && k in p.finish.value then p.finish.value[k] else Committed(calls, k)
  }

  // ---- Steps ----

  /** A walk visits each key at most once, and does not end before it has visited every key present when it began. */
  predicate Enabled(s: State, step: Step) {
    match step
    case Increment(_) => true
    case Act(c) =>
      c < |s.calls| &&
      (match s.calls[c].pc
       case Done => false
       case Hit(r) => r < |s.cells|
       case Late(r) => r < |s.cells|
       case _ => true)
    case BeginPass => true
    case Visit(p, k) =>
      && p < |s.passes| && s.passes[p].finish.None? && k in s.table && k !in s.passes[p].seen && s.table[k] < |s.cells|
    case EndPass(p) => p < |s.passes| && s.passes[p].finish.None? && s.passes[p].start.Keys <= s.passes[p].seen.Keys
  }

  function Goto(s: State, c: nat, pc: Pc): State
    requires c < |s.calls|
  {
    s.(calls := s.calls[c := s.calls[c].(pc := pc)])
  }

  function Bump(cells: seq<nat>, r: nat): seq<nat>
    requires r < |cells|
  {
    cells[r := (cells[r] + 1) % MODULUS]
  }

  function ActOf(s: State, c: nat): State
    requires Enabled(s, Act(c))
  {
    var k := s.calls[c].key;
    match s.calls[c].pc
    case Begin =>
      if k in s.table then Goto(s, c, Hit(s.table[k])) else Goto(s.(cells := s.cells + [1]), c, Made(|s.cells|))
    case Made(r) => if k in s.table then Goto(s, c, Late(s.table[k])) else Goto(s.(table := s.table[k := r]), c, Done)
    case Hit(r) => Goto(s.(cells := Bump(s.cells, r)), c, Done)
    case Late(r) => Goto(s.(cells := Bump(s.cells, r)), c, Done)
  }

  function Next(s: State, step: Step): State
    requires Enabled(s, step)
  {
    match step
    case Increment(k) => s.(calls := s.calls + [Call(k, Begin)])
    case Act(c) => ActOf(s, c)
    case BeginPass => s.(passes := s.passes + [Pass(Counts(s), map[], None)])
    case Visit(p, k) =>
      s.(passes := s.passes[p := s.passes[p].(seen := s.passes[p].seen[k := s.cells[s.table[k]]])])
    case EndPass(p) => s.(passes := s.passes[p := s.passes[p].(finish := Some(Counts(s)))])
  }

  const INITIAL := State(map[], [], [], [])

  ghost function Final(steps: seq<Step>): State
    requires IsRun(steps)
    decreases |steps|, 2
  {
    if steps == [] then INITIAL else Next(Final(steps[..|steps| - 1]), steps[|steps| - 1])
  }

  ghost predicate IsRun(steps: seq<Step>)
    decreases |steps|, 1
  {
    steps == [] ||
    (IsRun(steps[..|steps| - 1]) && Enabled(Final(steps[..|steps| - 1]), steps[|steps| - 1]))
  }

  // ---- The invariant ----

  /** Published cells are distinct and hold the committed count; an unpublished key has none. */
  ghost predicate KeyOk(s: State, k: string) {
    if k in s.table then
      s.table[k] < |s.cells| && s.cells[s.table[k]] == Committed(s.calls, k) % MODULUS && Committed(s.calls, k) > 0
    else
      Committed(s.calls, k) == 0
  }

  predicate Unpublished(table: map<string, nat>, r: nat) { forall k :: k in table ==> table[k] != r }

  ghost predicate CallOk(s: State, c: nat)
    requires c < |s.calls|
  {
    match s.calls[c].pc
    case Hit(r) => s.calls[c].key in s.table && s.table[s.calls[c].key] == r
    case Late(r) => s.calls[c].key in s.table && s.table[s.calls[c].key] == r
    case Made(r) => r < |s.cells| && s.cells[r] == 1 && Unpublished(s.table, r)
    case _ => true
  }

  ghost predicate CellsApart(s: State) {
    && (forall k, l :: k in s.table && l in s.table && k != l ==> s.table[k] != s.table[l])
    && (forall c, d :: 0 <= c < d < |s.calls| && s.calls[c].pc.Made? && s.calls[d].pc.Made? ==>
          s.calls[c].pc.cell != s.calls[d].pc.cell)
  }

  /** A reported value is a count the key had at some moment since the pass began. */
  ghost predicate Between(value: nat, low: nat, high: nat) {
    exists n: nat :: low <= n <= high && value == n % MODULUS
  }

  predicate InOrder(p: Pass, calls: seq<Call>, k: string) {
    StartCount(p, k) <= EndCount(p, calls, k) <= Committed(calls, k)
  }

  ghost predicate PassOk(s: State, p: Pass) {
    && p.seen.Keys <= s.table.Keys
    && (forall k {:trigger InOrder(p, s.calls, k)} :: InOrder(p, s.calls, k))
    && (forall k :: k in p.seen ==> Between(p.seen[k], StartCount(p, k), EndCount(p, s.calls, k)))
    && (p.finish.Some? ==> p.start.Keys <= p.seen.Keys <= p.finish.value.Keys)
  }

  ghost predicate Inv(s: State) {
    && CellsApart(s)
    && (forall k {:trigger KeyOk(s, k)} :: KeyOk(s, k))
    && (forall c: nat {:trigger CallOk(s, c)} :: c < |s.calls| ==> CallOk(s, c))
    && (forall p {:trigger PassOk(s, p)} :: p in s.passes ==> PassOk(s, p))
  }

  // ---- Every step keeps it ----

  /** Only a committing step changes a count: by one, for its own key. */
  lemma GotoCommitted(calls: seq<Call>, c: nat, pc: Pc, k: string)
    requires c < |calls| && !calls[c].pc.Done?
    ensures Committed(calls[c := calls[c].(pc := pc)], k) ==
            Committed(calls, k) + if pc.Done? && calls[c].key == k then 1 else 0
  {
    SumUpdate(calls, c, calls[c].(pc := pc), PastCommit(k));
  }

  lemma CommittedAppend(calls: seq<Call>, call: Call, k: string)
    ensures Committed(calls + [call], k) == Committed(calls, k) + if call.pc.Done? && call.key == k then 1 else 0
  {
    SumAppend(calls, call, PastCommit(k));
  }

  lemma ActCounts(s: State, c: nat, k: string)
    requires Enabled(s, Act(c))
    ensures var t := ActOf(s, c);
            Committed(t.calls, k) == Committed(s.calls, k) + if t.calls[c].pc.Done? && s.calls[c].key == k then 1 else 0
  {
    GotoCommitted(s.calls, c, ActOf(s, c).calls[c].pc, k);
  }

  lemma AddWraps(n: nat)
    ensures (n % MODULUS + 1) % MODULUS == (n + 1) % MODULUS
  {
  }

  lemma ActKey(s: State, c: nat, k: string)
    requires Inv(s) && Enabled(s, Act(c))
    ensures KeyOk(ActOf(s, c), k)
  {
    ActCounts(s, c, k);
    AddWraps(Committed(s.calls, k));
    assert KeyOk(s, k) && KeyOk(s, s.calls[c].key) && CallOk(s, c);
  }

  lemma ActCall(s: State, c: nat, d: nat)
    requires Inv(s) && Enabled(s, Act(c)) && d < |s.calls|
    ensures CallOk(ActOf(s, c), d)
  {
    assert KeyOk(s, s.calls[c].key) && CallOk(s, c) && CallOk(s, d);
    var t := ActOf(s, c);
    forall k | k in s.table ensures s.table[k] < |s.cells| { assert KeyOk(s, k); }
  }

  lemma ActApart(s: State, c: nat)
    requires Inv(s) && Enabled(s, Act(c))
    ensures CellsApart(ActOf(s, c))
  {
    assert CallOk(s, c);
    forall d: nat | d < |s.calls| ensures s.calls[d].pc.Made? ==> s.calls[d].pc.cell < |s.cells| {
      assert CallOk(s, d);
    }
  }

  lemma BetweenWidens(value: nat, low: nat, high: nat, higher: nat)
    requires Between(value, low, high) && high <= higher
    ensures Between(value, low, higher)
  {
  }

  lemma PassKept(s: State, t: State, p: Pass)
    requires PassOk(s, p) && s.table.Keys <= t.table.Keys
    requires forall k :: Committed(s.calls, k) <= Committed(t.calls, k)
    ensures PassOk(t, p)
  {
    forall k ensures InOrder(p, t.calls, k) && EndCount(p, s.calls, k) <= EndCount(p, t.calls, k) {
      assert InOrder(p, s.calls, k);
    }
    forall k | k in p.seen ensures Between(p.seen[k], StartCount(p, k), EndCount(p, t.calls, k)) {
      BetweenWidens(p.seen[k], StartCount(p, k), EndCount(p, s.calls, k), EndCount(p, t.calls, k));
    }
  }

  lemma ActKeepsInv(s: State, c: nat)
    requires Inv(s) && Enabled(s, Act(c))
    ensures Inv(ActOf(s, c))
  {
    var t := ActOf(s, c);
    ActApart(s, c);
    forall k ensures KeyOk(t, k) { ActKey(s, c, k); }
    forall d: nat | d < |t.calls| ensures CallOk(t, d) { ActCall(s, c, d); }
    forall k ensures Committed(s.calls, k) <= Committed(t.calls, k) { ActCounts(s, c, k); }
    forall p | p in t.passes ensures PassOk(t, p) { PassKept(s, t, p); }
  }

  lemma IncrementKeepsInv(s: State, k: string)
    requires Inv(s)
    ensures Inv(Next(s, Increment(k)))
  {
    var t := Next(s, Increment(k));
    forall l ensures Committed(t.calls, l) == Committed(s.calls, l) {
      CommittedAppend(s.calls, Call(k, Begin), l);
    }
    forall l ensures KeyOk(t, l) { assert KeyOk(s, l); }
    forall d: nat | d < |t.calls| ensures CallOk(t, d) { assert d < |s.calls| ==> CallOk(s, d); }
    forall p | p in t.passes ensures PassOk(t, p) { PassKept(s, t, p); }
  }

  lemma WalkKeepsInv(s: State, step: Step)
    requires Inv(s) && Enabled(s, step) && !step.Increment? && !step.Act?
    ensures Inv(Next(s, step))
  {
    var t := Next(s, step);
    forall k ensures KeyOk(t, k) { assert KeyOk(s, k); }
    forall d: nat | d < |t.calls| ensures CallOk(t, d) { assert CallOk(s, d); }
    forall p | p in t.passes ensures PassOk(t, p) {
      if p in s.passes {
        PassKept(s, t, p);
      } else {
        NewPassOk(s, step, p);
      }
    }
  }

  lemma NewPassOk(s: State, step: Step, p: Pass)
    requires Inv(s) && Enabled(s, step) && !step.Increment? && !step.Act?
    requires p in Next(s, step).passes && p !in s.passes
    ensures PassOk(Next(s, step), p)
  {
    match step {
      case BeginPass =>
        NewPassInOrder(s);
        PassOkSame(s, Next(s, step), p);
      case Visit(i, k) =>
        VisitedPassOk(s, s.passes[i], k);
        PassOkSame(s, Next(s, step), p);
      case EndPass(i) =>
        EndedPassOk(s, s.passes[i]);
        PassOkSame(s, Next(s, step), p);
    }
  }

  /** What a pass says depends on the keys and the counts only. */
  lemma PassOkSame(s: State, t: State, p: Pass)
    requires PassOk(s, p) && t.table == s.table && t.calls == s.calls
    ensures PassOk(t, p)
  {
    forall k ensures InOrder(p, t.calls, k) { assert InOrder(p, s.calls, k); }
  }

  lemma NewPassInOrder(s: State)
    ensures PassOk(s, Pass(Counts(s), map[], None))
  {
  }

  lemma BetweenNow(value: nat, low: nat, n: nat)
    requires low <= n && value == n % MODULUS
    ensures Between(value, low, n)
  {
  }

  lemma VisitedPassOk(s: State, before: Pass, k: string)
    requires Inv(s) && PassOk(s, before) && before.finish.None? && k in s.table && s.table[k] < |s.cells|
    ensures PassOk(s, before.(seen := before.seen[k := s.cells[s.table[k]]]))
  {
    var p := before.(seen := before.seen[k := s.cells[s.table[k]]]);
    assert KeyOk(s, k);
    assert p.seen.Keys == before.seen.Keys + {k};
    assert InOrder(before, s.calls, k);
    forall l ensures InOrder(p, s.calls, l) {
      assert InOrder(before, s.calls, l);
    }
    forall l | l in p.seen ensures Between(p.seen[l], StartCount(p, l), EndCount(p, s.calls, l)) {
      if l == k {
        BetweenNow(p.seen[k], StartCount(p, k), Committed(s.calls, k));
      } else {
        assert Between(before.seen[l], StartCount(before, l), EndCount(before, s.calls, l));
      }
    }
  }

  lemma EndedPassOk(s: State, before: Pass)
    requires Inv(s) && PassOk(s, before) && before.finish.None? && before.start.Keys <= before.seen.Keys
    ensures PassOk(s, before.(finish := Some(Counts(s))))
  {
    var p := before.(finish := Some(Counts(s)));
    forall l ensures InOrder(p, s.calls, l) && EndCount(p, s.calls, l) == Committed(s.calls, l) {
      assert InOrder(before, s.calls, l);
    }
    forall l | l in p.seen ensures Between(p.seen[l], StartCount(p, l), EndCount(p, s.calls, l)) {
      assert Between(before.seen[l], StartCount(before, l), EndCount(before, s.calls, l));
    }
  }

  lemma {:induction false} RunKeepsInv(steps: seq<Step>)
    requires IsRun(steps)
    ensures Inv(Final(steps))
    decreases |steps|
  {
    if steps != [] {
      var front, last := steps[..|steps| - 1], steps[|steps| - 1];
      RunKeepsInv(front);
      match last {
        case Increment(k) => IncrementKeepsInv(Final(front), k);
        case Act(c) => ActKeepsInv(Final(front), c);
        case _ => WalkKeepsInv(Final(front), last);
      }
    }
  }

  // ---- What follows for whole runs ----

  /**
   No increment is lost: in every interleaving a published counter equals, modulo 2^64, the number of increments of
   its key past their commit point, and a key is published exactly when there is one.
   */
  lemma CounterIsCommittedCount(steps: seq<Step>, k: string)
    requires IsRun(steps)
    ensures var s := Final(steps);
            && (k in s.table <==> Committed(s.calls, k) > 0)
            && (k in s.table ==>
                  s.table[k] < |s.cells| && s.cells[s.table[k]] == Committed(s.calls, k) % 18446744073709551616)
  {
    RunKeepsInv(steps);
    assert KeyOk(Final(steps), k);
  }

  function CallsOf(k: string): Call -> int {
    (c: Call) => if c.key == k then 1 else 0
  }

  /** Once every increment has returned, the counter is the number of calls made for the key. */
  lemma QuiescentCountsAll(steps: seq<Step>, k: string)
    requires IsRun(steps) && forall c :: c in Final(steps).calls ==> c.pc.Done?
    ensures var s := Final(steps);
            k in s.table ==> s.table[k] < |s.cells| && s.cells[s.table[k]] == Sum(s.calls, CallsOf(k)) % MODULUS
  {
    CounterIsCommittedCount(steps, k);
    SumPointwise(Final(steps).calls, PastCommit(k), CallsOf(k));
  }

  lemma StepKeepsTable(s: State, step: Step, k: string)
    requires Enabled(s, step) && k in s.table
    ensures k in Next(s, step).table && Next(s, step).table[k] == s.table[k]
  {
  }

  /** A counter once published is never replaced, whatever happens afterwards. */
  lemma {:induction false} PublishedForGood(steps: seq<Step>, i: nat, k: string)
    requires IsRun(steps) && i <= |steps| && IsRun(steps[..i]) && k in Final(steps[..i]).table
    ensures k in Final(steps).table && Final(steps).table[k] == Final(steps[..i]).table[k]
    decreases |steps|
  {
    if i == |steps| {
      assert steps[..i] == steps;
    } else {
      var front := steps[..|steps| - 1];
      assert front[..i] == steps[..i];
      PublishedForGood(front, i, k);
      StepKeepsTable(Final(front), steps[|steps| - 1], k);
    }
  }

  /**
   Each value a pass reports is, modulo 2^64, a count its key had between the start and the end of the pass, or now if
   it has not ended; and a pass that has ended reports every key that was there when it began.
   */
  lemma SnapshotLiesBetween(steps: seq<Step>, p: nat, k: string)
    requires IsRun(steps) && p < |Final(steps).passes|
    ensures var s, pass := Final(steps), Final(steps).passes[p];
            && (k in pass.seen ==> Between(pass.seen[k], StartCount(pass, k), EndCount(pass, s.calls, k)))
            && (pass.finish.Some? && k in pass.start ==> k in pass.seen)
            && (pass.finish.Some? && k in pass.seen ==> k in pass.finish.value)
  {
    RunKeepsInv(steps);
    assert PassOk(Final(steps), Final(steps).passes[p]);
  }

  /** The map has the number of committed increments of every published key. */
  ghost predicate CountsAre(s: State, counts: map<string, nat>) {
    counts.Keys == s.table.Keys && forall k :: k in counts ==> counts[k] == Sum(s.calls, PastCommit(k))
  }

  /** What a pass keeps as the counts at its start and end is what they were then, and an ended pass stays as it is. */
  lemma PassRemembers(s: State, step: Step, p: nat)
    requires Enabled(s, step) && p < |Next(s, step).passes|
    ensures var t := Next(s, step);
            && (p >= |s.passes| ==>
                  CountsAre(s, t.passes[p].start) && t.passes[p].seen == map[] && t.passes[p].finish.None?)
            && (p < |s.passes| ==> t.passes[p].start == s.passes[p].start)
            && (p < |s.passes| && s.passes[p].finish.Some? ==> t.passes[p] == s.passes[p])
            && (p < |s.passes| && s.passes[p].finish.None? && t.passes[p].finish.Some? ==>
                  CountsAre(s, t.passes[p].finish.value) && t.passes[p].seen == s.passes[p].seen)
  {
  }

  /** How many of its own steps an increment can still take. */
  function StepsLeft(pc: Pc): nat {
    match pc
    case Begin => 3
    case Made(_) => 2
    case Hit(_) => 1
    case Late(_) => 1
    case Done => 0
  }

  /** An increment never waits for another: it can always step, and is done after at most three steps of its own. */
  lemma WaitFree(steps: seq<Step>, c: nat)
    requires IsRun(steps) && c < |Final(steps).calls| && !Final(steps).calls[c].pc.Done?
    ensures Enabled(Final(steps), Act(c))
    ensures StepsLeft(Next(Final(steps), Act(c)).calls[c].pc) < StepsLeft(Final(steps).calls[c].pc) <= 3
  {
    RunKeepsInv(steps);
    CanStep(Final(steps), c);
  }

  lemma CanStep(s: State, c: nat)
    requires Inv(s) && c < |s.calls| && !s.calls[c].pc.Done?
    ensures Enabled(s, Act(c)) && StepsLeft(Next(s, Act(c)).calls[c].pc) < StepsLeft(s.calls[c].pc)
  {
    assert CallOk(s, c) && KeyOk(s, s.calls[c].key);
  }
}
