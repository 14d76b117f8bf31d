/** The shared row `user_counter(user_id = 1, counter, version)` of the concurrency harness and
    the SQL statements the workers and the bootstrap issue against it. Each statement, together
    with the commit that follows it in the source, is one atomic step: the database holds the
    row lock an UPDATE takes until that commit, so no other statement can observe a state in
    between. The semantics of every statement is first given as a function on a row value; the
    `Store` class applies it in place. */
module CounterStore {
  import opened Wrappers

  /** The `process_id` of a worker process. */
  type WorkerId = nat

  /** The row keyed by user_id 1: whether it exists, its two columns, and which worker's open
      transaction holds its row lock (taken by `SELECT ... FOR UPDATE`). */
  datatype RowState = RowState(present: bool, counter: int, version: int, lockHolder: Option<WorkerId>)

  /** Another worker's transaction holds the row lock, so a locking read or an update by `w`
      has to wait. */
  predicate LockedByOther(s: RowState, w: WorkerId) {
    s.lockHolder.Some? && s.lockHolder.value != w
  }

  /** `INSERT INTO user_counter (user_id, counter, version) VALUES (1, 0, 1)
      ON CONFLICT (user_id) DO UPDATE SET counter = EXCLUDED.counter, version = EXCLUDED.version`. */
  function Upsert(s: RowState): (r: RowState)
    ensures r.present && r.counter == 0 && r.version == 1 && r.lockHolder == s.lockHolder
  {
    RowState(true, 0, 1, s.lockHolder)
  }

  /** `SELECT counter, version FROM user_counter WHERE user_id = 1` and `fetchone()`:
      `None` when the row is missing. */
  function Select(s: RowState): (r: Option<(int, int)>)
    ensures r.Some? <==> s.present
    ensures r.Some? ==> r.value == (s.counter, s.version)
  {
    if s.present then Some((s.counter, s.version)) else None
  }

  /** What `SELECT counter ... FOR UPDATE` gives worker `w`. */
  datatype LockedRead = Waits | NoRow | Locked(counter: int)

  function SelectForUpdate(s: RowState, w: WorkerId): (r: LockedRead)
    ensures r.Waits? <==> LockedByOther(s, w)
    ensures r.NoRow? <==> !LockedByOther(s, w) && !s.present
    ensures r.Locked? ==> r.counter == s.counter
  {
    if LockedByOther(s, w) then Waits else if !s.present then NoRow else Locked(s.counter)
  }

  /** The row after `SELECT ... FOR UPDATE` by `w`: the lock is taken when a row was read. */
  function AfterSelectForUpdate(s: RowState, w: WorkerId): (r: RowState)
    ensures r.present == s.present && r.counter == s.counter && r.version == s.version
    ensures r.lockHolder == if SelectForUpdate(s, w).Locked? then Some(w) else s.lockHolder
  {
    if SelectForUpdate(s, w).Locked? then s.(lockHolder := Some(w)) else s
  }

  /** `UPDATE user_counter SET counter = c WHERE user_id = 1`: no row, no change. */
  function WriteCounter(s: RowState, c: int): (r: RowState)
    ensures r.present == s.present && r.version == s.version && r.lockHolder == s.lockHolder
    ensures r.counter == if s.present then c else s.counter
  {
    if s.present then s.(counter := c) else s
  }

  /** `UPDATE user_counter SET counter = counter + 1 WHERE user_id = 1 RETURNING counter`. */
  function Increment(s: RowState): (r: RowState)
    ensures r.present == s.present && r.version == s.version && r.lockHolder == s.lockHolder
    ensures r.counter == if s.present then s.counter + 1 else s.counter
  {
    if s.present then s.(counter := s.counter + 1) else s
  }

  /** Whether `UPDATE ... SET counter = c, version = v WHERE user_id = 1 AND version = expected`
      matches the row (`cursor.rowcount > 0`). */
  predicate SwapApplies(s: RowState, expected: int) {
    s.present && s.version == expected
  }

  function CompareAndSwap(s: RowState, expected: int, c: int, v: int): (r: RowState)
    ensures SwapApplies(s, expected) ==> r == s.(counter := c, version := v)
    ensures !SwapApplies(s, expected) ==> r == s
  {
    if SwapApplies(s, expected) then s.(counter := c, version := v) else s
  }

  /** `conn.commit()`, `conn.rollback()` or closing the connection: `w`'s transaction ends and
      the row lock is free if `w` held it. */
  function Release(s: RowState, w: WorkerId): (r: RowState)
    ensures r.present == s.present && r.counter == s.counter && r.version == s.version
    ensures r.lockHolder == if s.lockHolder == Some(w) then None else s.lockHolder
  {
    if s.lockHolder == Some(w) then s.(lockHolder := None) else s
  }

  /** The upsert's result does not depend on whether the row existed or what it held. */
  lemma UpsertResets(s: RowState, t: RowState)
    requires s.lockHolder == t.lockHolder
    ensures Upsert(s) == Upsert(t)
  {
  }

  /** The row as a mutable object; each method is one statement of the source. */
  class Store {
    var present: bool
    var counter: int
    var version: int
    var lockHolder: Option<WorkerId>

    function State(): RowState
      reads this
    {
      RowState(present, counter, version, lockHolder)
    }

    constructor (initial: RowState)
      ensures State() == initial
    {
      present, counter, version, lockHolder := initial.present, initial.counter, initial.version, initial.lockHolder;
    }

    /** `ensure_row_exists()`: the upsert and its commit. `raised` says the database rejected the
        statement; the source logs that and returns normally, leaving the row as it was. */
    method EnsureRowExists(raised: bool) returns (ok: bool)
      modifies this
      ensures ok == !raised
      ensures State() == if raised then old(State()) else Upsert(old(State()))
    {
      if raised {
        return false;
      }
      present, counter, version := true, 0, 1;
      return true;
    }

    /** The plain read: never waits. */
    method ReadCounter() returns (r: Option<(int, int)>)
      ensures r == Select(State())
    {
      if present {
        r := Some((counter, version));
      } else {
        r := None;
      }
    }

    /** `SELECT counter ... FOR UPDATE` in `w`'s transaction. */
    method ReadForUpdate(w: WorkerId) returns (r: LockedRead)
      modifies this
      ensures r == SelectForUpdate(old(State()), w)
      ensures State() == AfterSelectForUpdate(old(State()), w)
    {
      if lockHolder.Some? && lockHolder.value != w {
        r := Waits;
      } else if !present {
        r := NoRow;
      } else {
        r := Locked(counter);
        lockHolder := Some(w);
      }
    }

    /** `UPDATE ... SET counter = c WHERE user_id = 1`, issued by `w` when it does not wait. */
    method Write(w: WorkerId, c: int)
      requires !LockedByOther(State(), w)
      modifies this
      ensures State() == WriteCounter(old(State()), c)
    {
      if present {
        counter := c;
      }
    }

    /** `UPDATE ... SET counter = counter + 1 ... RETURNING counter` and `fetchone()`:
        the post-increment value, or `None` when the row is missing. */
    method IncrementReturning(w: WorkerId) returns (r: Option<int>)
      requires !LockedByOther(State(), w)
      modifies this
      ensures State() == Increment(old(State()))
      ensures r == if old(present) then Some(old(counter) + 1) else None
    {
      if present {
        counter := counter + 1;
        r := Some(counter);
      } else {
        r := None;
      }
    }

    /** The version-checked UPDATE; `applied` is `cursor.rowcount > 0`. */
    method Swap(w: WorkerId, expected: int, c: int, v: int) returns (applied: bool)
      requires !LockedByOther(State(), w)
      modifies this
      ensures applied == SwapApplies(old(State()), expected)
      ensures State() == CompareAndSwap(old(State()), expected, c, v)
    {
      applied := present && version == expected;
      if applied {
        counter, version := c, v;
      }
    }

    /** The end of `w`'s transaction (commit, rollback or close). */
    method EndTransaction(w: WorkerId)
      modifies this
      ensures State() == Release(old(State()), w)
    {
      if lockHolder == Some(w) {
        lockHolder := None;
      }
    }
  }
}
