/** The worker loops of the concurrency harness as imperative code on the shared `Store`:
    each loop run by one process alone, and an executor that plays an interleaving of many
    processes, one scheduler choice at a time, against the same row. */
module Workers {
  import opened Wrappers
  import opened CounterStore
  import opened Strategies

  /** `lost_update(process_id)` alone on the row: read, add one, write back, `n` times; a
      missing row ends the loop at once. The result is the logged counters. */
  method LostUpdateWorker(store: Store, id: WorkerId, n: nat) returns (log: seq<int>)
    requires store.lockHolder.None?
    modifies store
    ensures old(store.present) ==> store.State() == old(store.State()).(counter := old(store.counter) + n)
    ensures old(store.present) ==> |log| == n && forall k | 0 <= k < n :: log[k] == old(store.counter) + k + 1
    ensures !old(store.present) ==> store.State() == old(store.State()) && log == []
  {
    ghost var c0 := store.counter;
    log := [];
    for i := 0 to n
      invariant store.lockHolder.None? && store.present == old(store.present) && store.version == old(store.version)
      invariant store.present ==> store.counter == c0 + i && |log| == i && forall k | 0 <= k < i :: log[k] == c0 + k + 1
      invariant !store.present ==> store.counter == c0 && log == []
    {
      var row := store.ReadCounter();
      if row.None? {
        break;
      }
      var counter := row.value.0 + 1;
      store.Write(id, counter);
      log := log + [counter];
    }
  }

  /** `in_place_update(process_id)` alone on the row: `n` atomic increments, each returning
      the new value; a missing row makes the first `fetchone()[0]` raise, which ends the loop. */
  method InPlaceWorker(store: Store, id: WorkerId, n: nat) returns (log: seq<int>)
    requires store.lockHolder.None?
    modifies store
    ensures old(store.present) ==> store.State() == old(store.State()).(counter := old(store.counter) + n)
    ensures old(store.present) ==> |log| == n && forall k | 0 <= k < n :: log[k] == old(store.counter) + k + 1
    ensures !old(store.present) ==> store.State() == old(store.State()) && log == []
  {
    ghost var c0 := store.counter;
    log := [];
    for i := 0 to n
      invariant store.lockHolder.None? && store.present == old(store.present) && store.version == old(store.version)
      invariant store.present ==> store.counter == c0 + i && |log| == i && forall k | 0 <= k < i :: log[k] == c0 + k + 1
      invariant !store.present ==> store.counter == c0 && log == []
    {
      var counter := store.IncrementReturning(id);
      if counter.None? {
        return;
      }
      log := log + [counter.value];
    }
  }

  /** `row_level_locking(process_id)` alone on the row: lock the row, write the value read
      plus one, commit (which frees the lock); a missing row skips each iteration. */
  method RowLockWorker(store: Store, id: WorkerId, n: nat) returns (log: seq<int>)
    requires store.lockHolder.None?
    modifies store
    ensures old(store.present) ==> store.State() == old(store.State()).(counter := old(store.counter) + n)
    ensures old(store.present) ==> |log| == n && forall k | 0 <= k < n :: log[k] == old(store.counter) + k + 1
    ensures !old(store.present) ==> store.State() == old(store.State()) && log == []
  {
    ghost var c0 := store.counter;
    log := [];
    for i := 0 to n
      invariant store.lockHolder.None? && store.present == old(store.present) && store.version == old(store.version)
      invariant store.present ==> store.counter == c0 + i && |log| == i && forall k | 0 <= k < i :: log[k] == c0 + k + 1
      invariant !store.present ==> store.counter == c0 && log == []
    {
      var row := store.ReadForUpdate(id);
      if row.Locked? {
        var counter := row.counter + 1;
        store.Write(id, counter);
        store.EndTransaction(id);
        log := log + [counter];
      }
    }
  }

  /** `optimistic_concurrency_control(process_id)` alone on the row. Attempt number `k` of the
      retry loop fails as `raises[k]` says (attempts past the end do not). After a `Recovered`
      fault the handler rolls back and the same iteration is tried again; after `RollbackFails`
      the rollback raises too, the outer `except` catches it and the worker ends. A missing row
      skips each iteration. The result is the logged (counter, version) pairs: one per committed
      update, all `n` of them unless a rollback raised. */
  method OptimisticWorker(store: Store, id: WorkerId, n: nat, raises: seq<Fault>) returns (log: seq<(int, int)>)
    requires store.lockHolder.None?
    modifies store
    ensures old(store.present) ==>
      store.State() == old(store.State()).(counter := old(store.counter) + |log|, version := old(store.version) + |log|)
    ensures old(store.present) ==> |log| <= n && forall k | 0 <= k < |log| ::
      log[k] == (old(store.counter) + k + 1, old(store.version) + k + 1)
    ensures old(store.present) && (forall k | 0 <= k < |raises| :: raises[k] != RollbackFails) ==> |log| == n
    ensures !old(store.present) ==> store.State() == old(store.State()) && log == []
  {
    ghost var c0, v0 := store.counter, store.version;
    log := [];
    var attempt := 0;
    for i := 0 to n
      invariant store.lockHolder.None? && store.present == old(store.present)
      invariant store.present ==> store.counter == c0 + i && store.version == v0 + i
      invariant store.present ==> |log| == i && forall k | 0 <= k < i :: log[k] == (c0 + k + 1, v0 + k + 1)
      invariant !store.present ==> store.counter == c0 && store.version == v0 && log == []
    {
      var finished := false;
      while !finished
        invariant store.lockHolder.None? && store.present == old(store.present)
        invariant store.present ==> store.counter == c0 + i + (if finished then 1 else 0)
        invariant store.present ==> store.version == v0 + i + (if finished then 1 else 0)
        invariant store.present ==> |log| == i + (if finished then 1 else 0)
        invariant store.present ==> forall k | 0 <= k < |log| :: log[k] == (c0 + k + 1, v0 + k + 1)
        invariant !store.present ==> store.counter == c0 && store.version == v0 && log == []
        decreases |raises| - attempt, !finished
      {
        var fault := if attempt < |raises| then raises[attempt] else NoFault;
        if attempt < |raises| {
          attempt := attempt + 1;
        }
        if fault == RollbackFails {
          store.EndTransaction(id);
          return;
        } else if fault == Recovered {
          store.EndTransaction(id);
        } else {
          var row := store.ReadCounter();
          if row.None? {
            finished := true;
          } else {
            var (counter, version) := row.value;
            var applied := store.Swap(id, version, counter + 1, version + 1);
            if applied {
              log := log + [(counter + 1, version + 1)];
              finished := true;
            }
          }
        }
      }
    }
  }

  /** One atomic step of worker `id` against the store: the statement its place in the loop
      calls for, and the commit after it. */
  method TakeStep(store: Store, strategy: Strategy, n: nat, id: WorkerId, w: Worker, fault: Fault)
    returns (next: Worker, logged: seq<Commit>)
    modifies store
    ensures var o := WorkerStep(strategy, n, old(store.State()), id, w, fault);
      store.State() == o.row && next == o.worker && logged == o.log
  {
    next, logged := w, [];
    if w.pc.Done? {
      return;
    }
    if fault != NoFault {
      store.EndTransaction(id);
      next := if strategy == Optimistic && fault == Recovered then w.(pc := Fetch) else w.(pc := Done);
      return;
    }
    if w.pc.Fetch? {
      match strategy
      case LostUpdate =>
        var row := store.ReadCounter();
        next := if row.None? then w.(pc := Done) else w.(pc := Write(row.value.0 + 1, row.value.1));
      case InPlaceUpdate =>
        if !LockedByOther(store.State(), id) {
          var counter := store.IncrementReturning(id);
          if counter.None? {
            next := w.(pc := Done);
          } else {
            next := NextIteration(w, n, true);
            logged := [Commit(id, w.iter + 1, counter.value, store.version)];
          }
        }
      case RowLevelLocking =>
        var row := store.ReadForUpdate(id);
        if row.NoRow? {
          next := NextIteration(w, n, false);
        } else if row.Locked? {
          next := w.(pc := Write(row.counter + 1, store.version));
        }
      case Optimistic =>
        var row := store.ReadCounter();
        next := if row.None? then NextIteration(w, n, false) else w.(pc := Write(row.value.0 + 1, row.value.1));
    } else if !LockedByOther(store.State(), id) {
      var counter, expected := w.pc.next, w.pc.expected;
      match strategy
      case LostUpdate =>
        store.Write(id, counter);
        next := NextIteration(w, n, true);
        logged := [Commit(id, w.iter + 1, counter, store.version)];
      case InPlaceUpdate =>
      case RowLevelLocking =>
        store.Write(id, counter);
        store.EndTransaction(id);
        next := NextIteration(w, n, true);
        logged := [Commit(id, w.iter + 1, counter, store.version)];
      case Optimistic =>
        var applied := store.Swap(id, expected, counter, expected + 1);
        if applied {
          next := NextIteration(w, n, true);
          logged := [Commit(id, w.iter + 1, counter, expected + 1)];
        } else {
          next := w.(pc := Fetch);
        }
    }
  }

  /** Plays the scheduler's choices in order against the store. */
  method RunSchedule(store: Store, strategy: Strategy, n: nat, start: seq<Worker>, schedule: seq<Choice>)
    returns (workers: seq<Worker>, log: seq<Commit>)
    modifies store
    ensures System(store.State(), workers, log) == Run(strategy, n, System(old(store.State()), start, []), schedule)
  {
    ghost var s0 := System(store.State(), start, []);
    workers, log := start, [];
    for k := 0 to |schedule|
      invariant System(store.State(), workers, log) == Run(strategy, n, s0, schedule[..k])
    {
      var ch := schedule[k];
      assert schedule[..k + 1][..k] == schedule[..k];
      if ch.worker < |workers| {
        var w, logged := TakeStep(store, strategy, n, ch.worker, workers[ch.worker], ch.fault);
        workers, log := workers[ch.worker := w], log + logged;
      }
    }
    assert schedule[..|schedule|] == schedule;
  }

  /** The `__main__` block: the bootstrap upsert, then `p` processes of `n` iterations each,
      interleaved as the schedule says. From a row nobody has locked, what the strategies
      promise follows: the atomic and the locked increments and the version check finish at
      `p * n` (the version check even when statements raise, as long as no rollback raises),
      the version check keeps `version == counter + 1`, and neither lost updates nor the
      version check ever exceed `p * n`. */
  method Harness(store: Store, strategy: Strategy, p: nat, n: nat, bootRaises: bool, schedule: seq<Choice>)
    returns (workers: seq<Worker>, log: seq<Commit>)
    requires store.lockHolder.None?
    modifies store
    ensures var boot := if bootRaises then old(store.State()) else Upsert(old(store.State()));
      System(store.State(), workers, log) == Run(strategy, n, Init(p, n, boot), schedule)
    ensures |workers| == p
    ensures !bootRaises && strategy == LostUpdate ==> store.counter <= p * n && store.version == 1
    ensures !bootRaises && strategy == InPlaceUpdate && FaultFree(schedule) && AllDone(workers) ==> store.counter == p * n
    ensures !bootRaises && strategy == RowLevelLocking && FaultFree(schedule) && AllDone(workers) ==> store.counter == p * n
    ensures !bootRaises && strategy == Optimistic ==> store.version == store.counter + 1 && store.counter <= p * n
    ensures !bootRaises && strategy == Optimistic && RollbacksSucceed(schedule) && AllDone(workers) ==> store.counter == p * n
  {
    var ok := store.EnsureRowExists(bootRaises);
    workers, log := RunSchedule(store, strategy, n, seq(p, i => Start(n)), schedule);
    if ok {
      match strategy
      case LostUpdate => LostUpdateBound(p, n, schedule);
      case InPlaceUpdate => InPlaceTotal(p, n, schedule);
      case RowLevelLocking => RowLockTotal(p, n, schedule);
      case Optimistic => OptimisticTotal(p, n, schedule);
    }
  }
}
