/**
 The local RPC counter of interceptor/counter.go as an object, for increments and passes that do not overlap. Counters
 are named by their position among those allocated. The ghost steps make every history of increments a run of
 RpcCounter, so what is proved there for all interleavings holds of it.
 */
module LocalCounter {
  import opened RpcCounter

  class Counter {
    var table: map<string, nat>  // RPC_COUNTER: from keys to counters
    var cells: seq<nat>          // the counters' values

    ghost var steps: seq<Step>
    ghost var now: State

    ghost predicate Traced()
      reads this`steps, this`now
    {
      IsRun(steps) && Final(steps) == now
    }

    ghost predicate Valid()
      reads this
    {
      Traced() && now.table == table && now.cells == cells
    }

    constructor ()
      ensures Valid() && table == map[]
    {
      table, cells, steps, now := map[], [], [], INITIAL;
    }

    ghost method Take(step: Step)
      requires Traced() && Enabled(now, step)
      modifies this`steps, this`now
      ensures Traced() && steps == old(steps) + [step] && now == Next(old(now), step)
    {
      assert (steps + [step])[..|steps|] == steps;
      steps := steps + [step];
      now := Next(now, step);
    }

    /**
     One increment, not overlapped: its key is published afterwards with one more increment counted, no other key's
     count or counter changes, and a counter once published stays the one for its key.
     */
    method Increment(key: string)
      requires Valid()
      modifies this
      ensures Valid() && table.Keys == old(table).Keys + {key}
      ensures forall k :: k in old(table) ==> table[k] == old(table)[k]
      ensures CountsOneMore(old(now).calls, now.calls, key)
    {
      CounterIsCommittedCount(steps, key);
      OneMore(now.calls, key);
      TakeIncrement(key);
      if key in table {
        cells := Bump(cells, table[key]);
      } else {
        cells := cells + [1];
        // LoadOrStore: no other call has stored in between.
        table := table[key := |cells| - 1];
      }
    }

    /** The three steps of a call that no other interrupts. */
    ghost method TakeIncrement(key: string)
      requires Traced() && (key in now.table ==> now.table[key] < |now.cells|)
      modifies this`steps, this`now
      ensures Traced() && now == AfterIncrement(old(now), key)
    {
      ghost var c := |now.calls|;
      Take(Step.Increment(key));
      Take(Act(c));
      Take(Act(c));
      assert now.calls == old(now).calls + [Call(key, Done)];
    }

    /** One pass, not overlapped: it reports, for each key, the number of increments made, modulo 2^64. */
    method Snapshot() returns (mapper: map<string, nat>)
      requires Valid()
      ensures mapper.Keys == table.Keys
      ensures forall k :: k in mapper ==> mapper[k] == Committed(now.calls, k) % MODULUS
    {
      mapper := map[];
      var left := table.Keys;
      while left != {}
        invariant left <= table.Keys && mapper.Keys == table.Keys - left
        invariant forall k :: k in mapper ==> mapper[k] == Committed(now.calls, k) % MODULUS
        decreases |left|
      {
        var key :| key in left;
        CounterIsCommittedCount(steps, key);
        mapper, left := mapper[key := cells[table[key]]], left - {key};
      }
    }
  }

  ghost function AfterIncrement(s: State, key: string): State
    requires key in s.table ==> s.table[key] < |s.cells|
  {
    var t := s.(calls := s.calls + [Call(key, Done)]);
    if key in s.table then t.(cells := Bump(s.cells, s.table[key]))
    else t.(cells := s.cells + [1], table := s.table[key := |s.cells|])
  }

  ghost predicate CountsOneMore(before: seq<Call>, after: seq<Call>, key: string) {
    forall k {:trigger Committed(after, k)} :: Committed(after, k) == Committed(before, k) + if k == key then 1 else 0
  }

  lemma OneMore(calls: seq<Call>, key: string)
    ensures CountsOneMore(calls, calls + [Call(key, Done)], key)
  {
    forall k ensures Committed(calls + [Call(key, Done)], k) == Committed(calls, k) + if k == key then 1 else 0 {
      CommittedAppend(calls, Call(key, Done), k);
    }
  }
}
