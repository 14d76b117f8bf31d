/** The four worker loops of the concurrency harness as state machines over the shared row,
    and their interleavings. Nothing here runs concurrently: an interleaving is a sequence of
    scheduler choices, each letting one worker take one atomic step (one statement and the
    commit that follows it), and the statements raising is a flag on the choice. */
module Strategies {
  import opened Wrappers
  import opened CounterStore

  /** Which worker function every process runs: 1_lost_update.py, 2_in_place_update.py,
      3_row_level_locking.py or 4_optimistic_concurrency_control.py. */
  datatype Strategy = LostUpdate | InPlaceUpdate | RowLevelLocking | Optimistic

  /** Where a worker is inside its loop body. */
  datatype Pc =
    | Fetch                            // about to issue the iteration's first statement
    | Write(next: int, expected: int)  // has read the row: will write counter `next`; OCC expects version `expected`
    | Done                             // has left its for loop

  /** One worker process: its place, the for loop's index `i`, and how many writes it committed. */
  datatype Worker = Worker(pc: Pc, iter: nat, commits: nat)

  /** The log line of a committed write: process, update number `i + 1`, counter and version. */
  datatype Commit = Commit(worker: WorkerId, update: nat, counter: int, version: int)

  /** Whether the statement a worker issues raises and, if so, whether the `conn.rollback()` in
      OCC's handler raises as well (a lost connection makes both fail). */
  datatype Fault = NoFault | Recovered | RollbackFails

  /** One scheduler choice: which worker moves, and how the statement it issues fails, if at all. */
  datatype Choice = Choice(worker: WorkerId, fault: Fault)

  /** The shared row, every worker (indexed by process id) and the log of committed writes. */
  datatype System = System(row: RowState, workers: seq<Worker>, log: seq<Commit>)

  /** What one step of one worker leaves: the row, the worker, and the commits it logged. */
  datatype Outcome = Outcome(row: RowState, worker: Worker, log: seq<Commit>)

  /** A worker before its for loop over `range(NUM_UPDATES)`. */
  function Start(n: nat): Worker {
    Worker(if n > 0 then Fetch else Done, 0, 0)
  }

  /** The end of loop iteration `i`: the next one, or out of the loop after `n` iterations. */
  function NextIteration(w: Worker, n: nat, committed: bool): Worker {
    Worker(if w.iter + 1 < n then Fetch else Done, w.iter + 1, if committed then w.commits + 1 else w.commits)
  }

  /** The worker's statement raised. In OCC the inner `try` catches it, rolls back and runs the
      same iteration again, unless the rollback raises too, which the outer `except` catches.
      The other three catch every exception outside their for loop. A worker whose exception
      reached that outer `except` ends, and closing its connection ends its transaction. */
  function Raised(strategy: Strategy, row: RowState, id: WorkerId, w: Worker, rollbackFails: bool): (r: Outcome)
    ensures r.log == [] && r.row == Release(row, id)
    ensures r.worker.iter == w.iter && r.worker.commits == w.commits
    ensures r.worker.pc.Fetch? <==> strategy == Optimistic && !rollbackFails
    ensures r.worker.pc.Fetch? || r.worker.pc.Done?
  {
    if strategy == Optimistic && !rollbackFails then Outcome(Release(row, id), w.(pc := Fetch), [])
    else Outcome(Release(row, id), w.(pc := Done), [])
  }

  /** The first statement of an iteration. */
  function FetchStep(strategy: Strategy, n: nat, row: RowState, id: WorkerId, w: Worker): (r: Outcome)
    ensures r.row.version == row.version
    ensures |r.log| <= 1 && r.worker.commits == w.commits + |r.log|
    ensures strategy != InPlaceUpdate ==> r.log == [] && r.row.counter == row.counter
    ensures r.log != [] ==> r.log[0].counter == r.row.counter == row.counter + 1
  {
    match strategy
    case LostUpdate =>
      // SELECT counter; a missing row logs an error and breaks out of the for loop
      var read := Select(row);
      if read.None? then Outcome(row, w.(pc := Done), [])
      else Outcome(row, w.(pc := Write(read.value.0 + 1, read.value.1)), [])
    case InPlaceUpdate =>
      // UPDATE ... counter = counter + 1 RETURNING counter, then commit; a missing row makes
      // fetchone() None, the subscript raises and the except outside the loop ends the worker
      if LockedByOther(row, id) then Outcome(row, w, [])
      else if !row.present then Outcome(row, w.(pc := Done), [])
      else
        var r := Increment(row);
        Outcome(r, NextIteration(w, n, true), [Commit(id, w.iter + 1, r.counter, r.version)])
    case RowLevelLocking =>
      // SELECT counter ... FOR UPDATE; a missing row logs a warning and skips the iteration
      var read := SelectForUpdate(row, id);
      if read.Waits? then Outcome(row, w, [])
      else if read.NoRow? then Outcome(row, NextIteration(w, n, false), [])
      else Outcome(AfterSelectForUpdate(row, id), w.(pc := Write(read.counter + 1, row.version)), [])
    case Optimistic =>
      // SELECT counter, version; a missing row leaves the retry loop for the next iteration
      var read := Select(row);
      if read.None? then Outcome(row, NextIteration(w, n, false), [])
      else Outcome(row, w.(pc := Write(read.value.0 + 1, read.value.1)), [])
  }

  /** The write that completes an iteration, for a worker in `Write(next, expected)`. */
  function WriteStep(strategy: Strategy, n: nat, row: RowState, id: WorkerId, w: Worker, next: int, expected: int): (r: Outcome)
    ensures |r.log| <= 1 && r.worker.commits == w.commits + |r.log|
    ensures r.log == [] ==> r.row == row
    ensures r.log != [] ==> r.worker.iter == w.iter + 1 && r.log[0].update == w.iter + 1 && r.log[0].counter == next
    ensures strategy == Optimistic && r.log != [] ==> row.version == expected && r.row.version == expected + 1
  {
    if LockedByOther(row, id) then Outcome(row, w, [])
    else
      match strategy
      case LostUpdate =>
        // UPDATE ... SET counter = <the value read + 1>, commit
        var r := WriteCounter(row, next);
        Outcome(r, NextIteration(w, n, true), [Commit(id, w.iter + 1, next, r.version)])
      case InPlaceUpdate =>
        Outcome(row, w, [])
      case RowLevelLocking =>
        // UPDATE ... SET counter = <the value read under the lock + 1>, commit releases the lock
        var r := Release(WriteCounter(row, next), id);
        Outcome(r, NextIteration(w, n, true), [Commit(id, w.iter + 1, next, r.version)])
      case Optimistic =>
        // UPDATE ... SET counter, version = version + 1 WHERE version = <the version read>
        if SwapApplies(row, expected) then
          var r := CompareAndSwap(row, expected, next, expected + 1);
          Outcome(r, NextIteration(w, n, true), [Commit(id, w.iter + 1, next, expected + 1)])
        else
          // rowcount 0: version conflict, the same iteration again
          Outcome(row, w.(pc := Fetch), [])
  }

  /** One atomic step of worker `id`. */
  function WorkerStep(strategy: Strategy, n: nat, row: RowState, id: WorkerId, w: Worker, fault: Fault): (r: Outcome)
    ensures w.pc.Done? ==> r == Outcome(row, w, [])
    ensures |r.log| <= 1 && r.worker.commits == w.commits + |r.log|
    ensures r.worker.iter == w.iter || r.worker.iter == w.iter + 1
    ensures fault != NoFault ==> r.log == []
  {
    match w.pc
    case Done => Outcome(row, w, [])
    case Fetch =>
      if fault != NoFault then Raised(strategy, row, id, w, fault == RollbackFails)
      else FetchStep(strategy, n, row, id, w)
    case Write(next, expected) =>
      if fault != NoFault then Raised(strategy, row, id, w, fault == RollbackFails)
      else WriteStep(strategy, n, row, id, w, next, expected)
  }

  /** The scheduler lets the chosen worker move; a choice naming no worker changes nothing. */
  function Step(strategy: Strategy, n: nat, s: System, ch: Choice): (r: System)
    ensures |r.workers| == |s.workers|
    ensures forall j | 0 <= j < |s.workers| && j != ch.worker :: r.workers[j] == s.workers[j]
    ensures s.log <= r.log
  {
    if ch.worker < |s.workers| then
      var o := WorkerStep(strategy, n, s.row, ch.worker, s.workers[ch.worker], ch.fault);
      System(o.row, s.workers[ch.worker := o.worker], s.log + o.log)
    else s
  }

  /** The system after the scheduler's choices, taken in order. */
  function Run(strategy: Strategy, n: nat, s: System, schedule: seq<Choice>): (r: System)
    ensures |r.workers| == |s.workers|
    ensures s.log <= r.log
    decreases |schedule|
  {
    if schedule == [] then s
    else Step(strategy, n, Run(strategy, n, s, schedule[..|schedule| - 1]), schedule[|schedule| - 1])
  }

  /** `p` processes, each about to run `n` iterations, against the given row. */
  function Init(p: nat, n: nat, row: RowState): System {
    System(row, seq(p, i => Start(n)), [])
  }

  predicate FaultFree(schedule: seq<Choice>) {
    forall k | 0 <= k < |schedule| :: schedule[k].fault == NoFault
  }

  /** No rollback raised: every fault, if any, was one OCC's handler recovers from. */
  predicate RollbacksSucceed(schedule: seq<Choice>) {
    forall k | 0 <= k < |schedule| :: schedule[k].fault != RollbackFails
  }

  predicate AllDone(ws: seq<Worker>) {
    forall i | 0 <= i < |ws| :: ws[i].pc.Done?
  }

  function TotalCommits(ws: seq<Worker>): nat {
    if ws == [] then 0 else ws[0].commits + TotalCommits(ws[1..])
  }

  /** Bounds every worker keeps: it commits at most once per iteration and at most `n` times. */
  predicate WorkerOk(w: Worker, n: nat) {
    w.commits <= w.iter <= n && (!w.pc.Done? ==> w.iter < n)
  }

  /** A worker none of whose iterations was skipped, and that leaves only after all `n`. */
  predicate Clean(w: Worker, n: nat) {
    w.commits == w.iter && (w.pc.Done? ==> w.iter == n)
  }

  // ---------------------------------------------------------------------------------------
  // Facts about the sum of commits

  lemma {:induction false} TotalCommitsUpdate(ws: seq<Worker>, i: nat, w: Worker)
    requires i < |ws|
    ensures TotalCommits(ws[i := w]) == TotalCommits(ws) - ws[i].commits + w.commits
  {
    if i > 0 {
      TotalCommitsUpdate(ws[1..], i - 1, w);
      assert ws[i := w][1..] == ws[1..][i - 1 := w];
    }
  }

  lemma {:induction false} TotalCommitsBound(ws: seq<Worker>, n: nat)
    requires forall i | 0 <= i < |ws| :: ws[i].commits <= n
    ensures TotalCommits(ws) <= |ws| * n
  {
    if ws != [] {
      TotalCommitsBound(ws[1..], n);
    }
  }

  lemma {:induction false} TotalCommitsAll(ws: seq<Worker>, n: nat)
    requires forall i | 0 <= i < |ws| :: ws[i].commits == n
    ensures TotalCommits(ws) == |ws| * n
  {
    if ws != [] {
      TotalCommitsAll(ws[1..], n);
    }
  }

  lemma {:induction false} TotalCommitsStart(p: nat, n: nat)
    ensures TotalCommits(seq(p, i => Start(n))) == 0
  {
    if p > 0 {
      TotalCommitsStart(p - 1, n);
      assert seq(p, i => Start(n))[1..] == seq(p - 1, i => Start(n));
    }
  }

  /** Workers that all ran to the end without a skipped iteration committed `p * n` writes. */
  lemma CleanDoneTotal(ws: seq<Worker>, n: nat)
    requires AllDone(ws) && forall i | 0 <= i < |ws| :: Clean(ws[i], n)
    ensures TotalCommits(ws) == |ws| * n
  {
    TotalCommitsAll(ws, n);
  }

  // ---------------------------------------------------------------------------------------
  // Lost update (1_lost_update.py)

  /** The counter never exceeds its start plus the writes performed, and a pending write is
      at most one above that: every write stores a value read earlier plus one. */
  ghost predicate LostUpdateInv(n: nat, s: System, c0: int, v0: int) {
    && s.row.present && s.row.version == v0 && s.row.lockHolder.None?
    && s.row.counter <= c0 + TotalCommits(s.workers)
    && (forall i | 0 <= i < |s.workers| :: WorkerOk(s.workers[i], n))
    && (forall i | 0 <= i < |s.workers| :: s.workers[i].pc.Write? ==>
          s.workers[i].pc.next <= c0 + TotalCommits(s.workers) + 1)
  }

  lemma LostUpdateStep(n: nat, s: System, ch: Choice, c0: int, v0: int)
    requires LostUpdateInv(n, s, c0, v0)
    ensures LostUpdateInv(n, Step(LostUpdate, n, s, ch), c0, v0)
  {
    if ch.worker < |s.workers| {
      var i := ch.worker;
      var w := s.workers[i];
      var o := WorkerStep(LostUpdate, n, s.row, i, w, ch.fault);
      TotalCommitsUpdate(s.workers, i, o.worker);
      var t := Step(LostUpdate, n, s, ch);
      assert TotalCommits(t.workers) >= TotalCommits(s.workers);
      forall j | 0 <= j < |t.workers| && t.workers[j].pc.Write?
        ensures t.workers[j].pc.next <= c0 + TotalCommits(t.workers) + 1
      {
        if j != i {
          assert t.workers[j] == s.workers[j];
        }
      }
    }
  }

  lemma {:induction false} LostUpdateRunInv(n: nat, s: System, schedule: seq<Choice>, c0: int, v0: int)
    requires LostUpdateInv(n, s, c0, v0)
    ensures LostUpdateInv(n, Run(LostUpdate, n, s, schedule), c0, v0)
    decreases |schedule|
  {
    if schedule != [] {
      LostUpdateRunInv(n, s, schedule[..|schedule| - 1], c0, v0);
      LostUpdateStep(n, Run(LostUpdate, n, s, schedule[..|schedule| - 1]), schedule[|schedule| - 1], c0, v0);
    }
  }

  /** Whatever the interleaving, lost-update workers started on the bootstrapped row (0, 1)
      never push the counter past the number of writes performed, hence never past `p * n`,
      and never touch the version. */
  lemma LostUpdateBound(p: nat, n: nat, schedule: seq<Choice>)
    ensures var s := Run(LostUpdate, n, Init(p, n, RowState(true, 0, 1, None)), schedule);
      && s.row.version == 1
      && s.row.counter <= TotalCommits(s.workers) <= p * n
      && forall i | 0 <= i < p :: s.workers[i].commits <= n
  {
    var s0 := Init(p, n, RowState(true, 0, 1, None));
    TotalCommitsStart(p, n);
    LostUpdateRunInv(n, s0, schedule, 0, 1);
    var s := Run(LostUpdate, n, s0, schedule);
    TotalCommitsBound(s.workers, n);
  }

  /** Two workers that both read the counter before either writes it: the second write
      overwrites the first, and the counter rises by one for two committed writes. */
  lemma LostUpdateRace(v: int, version: int)
    ensures var s := Run(LostUpdate, 1, Init(2, 1, RowState(true, v, version, None)),
                         [Choice(0, NoFault), Choice(1, NoFault), Choice(0, NoFault), Choice(1, NoFault)]);
      && s.row.counter == v + 1
      && s.workers[0].commits == 1 && s.workers[1].commits == 1
      && AllDone(s.workers)
  {
    var sched := [Choice(0, NoFault), Choice(1, NoFault), Choice(0, NoFault), Choice(1, NoFault)];
    var s0 := Init(2, 1, RowState(true, v, version, None));
    assert s0.workers == [Worker(Fetch, 0, 0), Worker(Fetch, 0, 0)];
    var s1 := Step(LostUpdate, 1, s0, sched[0]);
    assert s1.workers == [Worker(Write(v + 1, version), 0, 0), Worker(Fetch, 0, 0)];
    var s2 := Step(LostUpdate, 1, s1, sched[1]);
    assert s2.workers == [Worker(Write(v + 1, version), 0, 0), Worker(Write(v + 1, version), 0, 0)];
    var s3 := Step(LostUpdate, 1, s2, sched[2]);
    assert s3.row.counter == v + 1;
    var s4 := Step(LostUpdate, 1, s3, sched[3]);
    assert s4.row.counter == v + 1;
    assert sched[..1] == [sched[0]] && sched[..2] == sched[..1] + [sched[1]];
    assert sched[..3] == sched[..2] + [sched[2]];
    assert Run(LostUpdate, 1, s0, sched[..1]) == s1;
    assert Run(LostUpdate, 1, s0, sched[..2]) == s2;
    assert Run(LostUpdate, 1, s0, sched[..3]) == s3;
  }

  /** The `p = 2, n = 1` scenario from the bootstrapped row: both workers finish, two writes
      commit, and the counter ends at 1, not 2. */
  lemma LostUpdateLosesOne()
    ensures var s := Run(LostUpdate, 1, Init(2, 1, RowState(true, 0, 1, None)),
                         [Choice(0, NoFault), Choice(1, NoFault), Choice(0, NoFault), Choice(1, NoFault)]);
      s.row.counter == 1 && TotalCommits(s.workers) == 2 && AllDone(s.workers)
  {
    LostUpdateRace(0, 1);
    var s := Run(LostUpdate, 1, Init(2, 1, RowState(true, 0, 1, None)),
                 [Choice(0, NoFault), Choice(1, NoFault), Choice(0, NoFault), Choice(1, NoFault)]);
    assert s.workers[1..][1..] == [];
    assert TotalCommits(s.workers[1..]) == s.workers[1].commits + TotalCommits(s.workers[1..][1..]);
    assert TotalCommits(s.workers) == s.workers[0].commits + s.workers[1].commits;
  }

  // ---------------------------------------------------------------------------------------
  // In-place update (2_in_place_update.py)

  /** The counter is its start plus the commits; the k-th commit observed exactly start + k;
      the version is never written and no lock is ever taken. */
  ghost predicate InPlaceInv(n: nat, s: System, c0: int, v0: int, clean: bool) {
    && s.row.present && s.row.version == v0 && s.row.lockHolder.None?
    && s.row.counter == c0 + TotalCommits(s.workers)
    && |s.log| == TotalCommits(s.workers)
    && (forall k | 0 <= k < |s.log| :: s.log[k].counter == c0 + k + 1)
    && (forall i | 0 <= i < |s.workers| :: WorkerOk(s.workers[i], n) && !s.workers[i].pc.Write?)
    && (clean ==> forall i | 0 <= i < |s.workers| :: Clean(s.workers[i], n))
  }

  lemma InPlaceStep(n: nat, s: System, ch: Choice, c0: int, v0: int, clean: bool)
    requires InPlaceInv(n, s, c0, v0, clean)
    requires clean ==> ch.fault == NoFault
    ensures InPlaceInv(n, Step(InPlaceUpdate, n, s, ch), c0, v0, clean)
  {
    if ch.worker < |s.workers| {
      var i := ch.worker;
      var o := WorkerStep(InPlaceUpdate, n, s.row, i, s.workers[i], ch.fault);
      TotalCommitsUpdate(s.workers, i, o.worker);
      var t := Step(InPlaceUpdate, n, s, ch);
      forall k | 0 <= k < |t.log| ensures t.log[k].counter == c0 + k + 1 {
        if k < |s.log| {
          assert t.log[k] == s.log[k];
        }
      }
    }
  }

  lemma {:induction false} InPlaceRunInv(n: nat, s: System, schedule: seq<Choice>, c0: int, v0: int, clean: bool)
    requires InPlaceInv(n, s, c0, v0, clean)
    requires clean ==> FaultFree(schedule)
    ensures InPlaceInv(n, Run(InPlaceUpdate, n, s, schedule), c0, v0, clean)
    decreases |schedule|
  {
    if schedule != [] {
      var pre := schedule[..|schedule| - 1];
      InPlaceRunInv(n, s, pre, c0, v0, clean);
      InPlaceStep(n, Run(InPlaceUpdate, n, s, pre), schedule[|schedule| - 1], c0, v0, clean);
    }
  }

  /** Any interleaving of in-place workers started on the bootstrapped row: the counter equals
      the number of committed increments, the values the workers observe are 1, 2, 3, ... in
      commit order (so strictly increasing), the version stays 1; and when no statement raised
      and every worker has left its loop, the counter is exactly `p * n`. */
  lemma InPlaceTotal(p: nat, n: nat, schedule: seq<Choice>)
    ensures var s := Run(InPlaceUpdate, n, Init(p, n, RowState(true, 0, 1, None)), schedule);
      && s.row.counter == TotalCommits(s.workers) && s.row.version == 1
      && (forall k | 0 <= k < |s.log| :: s.log[k].counter == k + 1)
      && (FaultFree(schedule) && AllDone(s.workers) ==> s.row.counter == p * n)
  {
    var s0 := Init(p, n, RowState(true, 0, 1, None));
    TotalCommitsStart(p, n);
    var clean := FaultFree(schedule);
    InPlaceRunInv(n, s0, schedule, 0, 1, clean);
    var s := Run(InPlaceUpdate, n, s0, schedule);
    if clean && AllDone(s.workers) {
      CleanDoneTotal(s.workers, n);
    }
  }

  // ---------------------------------------------------------------------------------------
  // Row-level locking (3_row_level_locking.py)

  /** A worker is between its locking read and its commit exactly when it holds the row lock;
      what it will write is the counter plus one; the counter is its start plus the commits. */
  ghost predicate RowLockInv(n: nat, s: System, c0: int, v0: int, clean: bool) {
    && s.row.present && s.row.version == v0
    && s.row.counter == c0 + TotalCommits(s.workers)
    && |s.log| == TotalCommits(s.workers)
    && (forall k | 0 <= k < |s.log| :: s.log[k].counter == c0 + k + 1)
    && (s.row.lockHolder.Some? ==> s.row.lockHolder.value < |s.workers|)
    && (forall i | 0 <= i < |s.workers| :: WorkerOk(s.workers[i], n))
    && (forall i | 0 <= i < |s.workers| :: s.workers[i].pc.Write? <==> s.row.lockHolder == Some(i))
    && (forall i | 0 <= i < |s.workers| :: s.workers[i].pc.Write? ==> s.workers[i].pc.next == s.row.counter + 1)
    && (clean ==> forall i | 0 <= i < |s.workers| :: Clean(s.workers[i], n))
  }

  lemma RowLockStep(n: nat, s: System, ch: Choice, c0: int, v0: int, clean: bool)
    requires RowLockInv(n, s, c0, v0, clean)
    requires clean ==> ch.fault == NoFault
    ensures RowLockInv(n, Step(RowLevelLocking, n, s, ch), c0, v0, clean)
  {
    if ch.worker < |s.workers| {
      var i := ch.worker;
      var o := WorkerStep(RowLevelLocking, n, s.row, i, s.workers[i], ch.fault);
      TotalCommitsUpdate(s.workers, i, o.worker);
      var t := Step(RowLevelLocking, n, s, ch);
      forall k | 0 <= k < |t.log| ensures t.log[k].counter == c0 + k + 1 {
        if k < |s.log| {
          assert t.log[k] == s.log[k];
        }
      }
      forall j | 0 <= j < |t.workers|
        ensures t.workers[j].pc.Write? <==> t.row.lockHolder == Some(j)
        ensures t.workers[j].pc.Write? ==> t.workers[j].pc.next == t.row.counter + 1
      {
        if j != i {
          assert t.workers[j] == s.workers[j];
        }
      }
    }
  }

  lemma {:induction false} RowLockRunInv(n: nat, s: System, schedule: seq<Choice>, c0: int, v0: int, clean: bool)
    requires RowLockInv(n, s, c0, v0, clean)
    requires clean ==> FaultFree(schedule)
    ensures RowLockInv(n, Run(RowLevelLocking, n, s, schedule), c0, v0, clean)
    decreases |schedule|
  {
    if schedule != [] {
      var pre := schedule[..|schedule| - 1];
      RowLockRunInv(n, s, pre, c0, v0, clean);
      RowLockStep(n, Run(RowLevelLocking, n, s, pre), schedule[|schedule| - 1], c0, v0, clean);
    }
  }

  /** Any interleaving of row-locking workers started on the bootstrapped row: at most one
      worker is ever between its `SELECT ... FOR UPDATE` and its commit, and that worker holds
      the lock; the counter equals the committed writes; the version stays 1; and when no
      statement raised and every worker has left its loop, the counter is exactly `p * n`. */
  lemma RowLockTotal(p: nat, n: nat, schedule: seq<Choice>)
    ensures var s := Run(RowLevelLocking, n, Init(p, n, RowState(true, 0, 1, None)), schedule);
      && (forall i, j | 0 <= i < j < |s.workers| :: !(s.workers[i].pc.Write? && s.workers[j].pc.Write?))
      && (forall i | 0 <= i < |s.workers| :: s.workers[i].pc.Write? ==> s.row.lockHolder == Some(i))
      && s.row.counter == TotalCommits(s.workers) && s.row.version == 1
      && (FaultFree(schedule) && AllDone(s.workers) ==> s.row.counter == p * n)
  {
    var s0 := Init(p, n, RowState(true, 0, 1, None));
    TotalCommitsStart(p, n);
    var clean := FaultFree(schedule);
    RowLockRunInv(n, s0, schedule, 0, 1, clean);
    var s := Run(RowLevelLocking, n, s0, schedule);
    if clean && AllDone(s.workers) {
      CleanDoneTotal(s.workers, n);
    }
  }

  // ---------------------------------------------------------------------------------------
  // Optimistic concurrency control (4_optimistic_concurrency_control.py)

  /** Counter and version both rise by one per successful swap, the k-th swap expected
      version v0 + k, and a pending swap's new counter and expected version differ as the
      row's do, plus one. Every iteration a worker completed committed; while no rollback has
      raised, no worker left early either: conflicts and recovered errors retry the iteration. */
  ghost predicate OptimisticInv(n: nat, s: System, c0: int, v0: int, clean: bool) {
    && s.row.present && s.row.lockHolder.None?
    && s.row.counter == c0 + TotalCommits(s.workers)
    && s.row.version == v0 + TotalCommits(s.workers)
    && |s.log| == TotalCommits(s.workers)
    && (forall k | 0 <= k < |s.log| :: s.log[k].counter == c0 + k + 1 && s.log[k].version == v0 + k + 1)
    && (forall i | 0 <= i < |s.workers| :: WorkerOk(s.workers[i], n) && s.workers[i].commits == s.workers[i].iter)
    && (forall i | 0 <= i < |s.workers| :: s.workers[i].pc.Write? ==>
          s.workers[i].pc.next - s.workers[i].pc.expected == c0 - v0 + 1)
    && (clean ==> forall i | 0 <= i < |s.workers| :: Clean(s.workers[i], n))
  }

  lemma OptimisticStep(n: nat, s: System, ch: Choice, c0: int, v0: int, clean: bool)
    requires OptimisticInv(n, s, c0, v0, clean)
    requires clean ==> ch.fault != RollbackFails
    ensures OptimisticInv(n, Step(Optimistic, n, s, ch), c0, v0, clean)
  {
    if ch.worker < |s.workers| {
      var i := ch.worker;
      var o := WorkerStep(Optimistic, n, s.row, i, s.workers[i], ch.fault);
      TotalCommitsUpdate(s.workers, i, o.worker);
      var t := Step(Optimistic, n, s, ch);
      forall k | 0 <= k < |t.log| ensures t.log[k].counter == c0 + k + 1 && t.log[k].version == v0 + k + 1 {
        if k < |s.log| {
          assert t.log[k] == s.log[k];
        }
      }
      forall j | 0 <= j < |t.workers| && t.workers[j].pc.Write?
        ensures t.workers[j].pc.next - t.workers[j].pc.expected == c0 - v0 + 1
      {
        if j != i {
          assert t.workers[j] == s.workers[j];
        }
      }
    }
  }

  lemma {:induction false} OptimisticRunInv(n: nat, s: System, schedule: seq<Choice>, c0: int, v0: int, clean: bool)
    requires OptimisticInv(n, s, c0, v0, clean)
    requires clean ==> RollbacksSucceed(schedule)
    ensures OptimisticInv(n, Run(Optimistic, n, s, schedule), c0, v0, clean)
    decreases |schedule|
  {
    if schedule != [] {
      var pre := schedule[..|schedule| - 1];
      OptimisticRunInv(n, s, pre, c0, v0, clean);
      OptimisticStep(n, Run(Optimistic, n, s, pre), schedule[|schedule| - 1], c0, v0, clean);
    }
  }

  /** Any interleaving of OCC workers started on the bootstrapped row (0, 1), raising
      statements included: version == counter + 1 after every step, the k-th successful swap
      left counter k + 1 and version k + 2 (so no two swaps expected the same version), and the
      counter never exceeds `p * n`. Once every worker has left its loop, and no rollback raised,
      the row holds `p * n` and `p * n + 1`. A worker whose rollback raised left early, so then
      the counter may stay below `p * n`. */
  lemma OptimisticTotal(p: nat, n: nat, schedule: seq<Choice>)
    ensures var s := Run(Optimistic, n, Init(p, n, RowState(true, 0, 1, None)), schedule);
      && s.row.version == s.row.counter + 1
      && s.row.counter == TotalCommits(s.workers) <= p * n
      && (forall k | 0 <= k < |s.log| :: s.log[k].counter == k + 1 && s.log[k].version == k + 2)
      && (forall j, k | 0 <= j < k < |s.log| :: s.log[j].version - 1 != s.log[k].version - 1)
      && (RollbacksSucceed(schedule) && AllDone(s.workers) ==> s.row.counter == p * n && s.row.version == p * n + 1)
  {
    var s0 := Init(p, n, RowState(true, 0, 1, None));
    TotalCommitsStart(p, n);
    var clean := RollbacksSucceed(schedule);
    OptimisticRunInv(n, s0, schedule, 0, 1, clean);
    var s := Run(Optimistic, n, s0, schedule);
    TotalCommitsBound(s.workers, n);
    if clean && AllDone(s.workers) {
      CleanDoneTotal(s.workers, n);
    }
  }

  /** One worker, one iteration: its first statement raises and so does the rollback. The
      worker leaves its loop without committing, and the counter stays at 0, below `p * n = 1`. */
  lemma OptimisticRollbackFails()
    ensures var s := Run(Optimistic, 1, Init(1, 1, RowState(true, 0, 1, None)), [Choice(0, RollbackFails)]);
      AllDone(s.workers) && s.row.counter == 0 && s.log == []
  {
    var sched := [Choice(0, RollbackFails)];
    assert sched[..0] == [];
    var s0 := Init(1, 1, RowState(true, 0, 1, None));
    assert s0.workers == [Worker(Fetch, 0, 0)];
  }
}
