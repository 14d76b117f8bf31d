/** The two ways the data-access code walks a query result held in memory: an early-return
    scan for the first matching row, and a list comprehension that keeps matching rows. */
module Rows {
  import opened Wrappers

  /** `for row in rows: if matches(row): return row` followed by `return None`. */
  method FindFirst<T>(rows: seq<T>, matches: T -> bool) returns (r: Option<T>)
    ensures r.None? <==> forall i | 0 <= i < |rows| :: !matches(rows[i])
    ensures r.Some? ==> exists k | 0 <= k < |rows| ::
      rows[k] == r.value && matches(rows[k]) && forall j | 0 <= j < k :: !matches(rows[j])
  {
    for i := 0 to |rows|
      invariant forall j | 0 <= j < i :: !matches(rows[j])
    {
      if matches(rows[i]) {
        return Some(rows[i]);
      }
    }
    return None;
  }

  /** `[row for row in rows if keep(row)]`. */
  function Filter<T>(rows: seq<T>, keep: T -> bool): (r: seq<T>)
    ensures |r| <= |rows|
    ensures forall i | 0 <= i < |r| :: keep(r[i])
  {
    if rows == [] then []
    else (if keep(rows[0]) then [rows[0]] else []) + Filter(rows[1..], keep)
  }

  /** A value is in the result exactly when it is a row that passes the condition. */
  lemma {:induction false} FilterMembers<T>(rows: seq<T>, keep: T -> bool, x: T)
    ensures x in Filter(rows, keep) <==> x in rows && keep(x)
  {
    if rows != [] {
      FilterMembers(rows[1..], keep, x);
      assert rows == [rows[0]] + rows[1..];
    }
  }

  /** Filtering keeps the order of the rows: it distributes over concatenation. */
  lemma {:induction false} FilterAppend<T>(a: seq<T>, b: seq<T>, keep: T -> bool)
    ensures Filter(a + b, keep) == Filter(a, keep) + Filter(b, keep)
  {
    if a == [] {
      assert a + b == b;
    } else {
      var ab := a + b;
      assert ab[0] == a[0] && ab[1..] == a[1..] + b;
      FilterAppend(a[1..], b, keep);
      var head := if keep(a[0]) then [a[0]] else [];
      assert Filter(ab, keep) == head + Filter(a[1..] + b, keep);
      assert Filter(a, keep) == head + Filter(a[1..], keep);
    }
  }

  /** A row is kept exactly when the condition holds of it. */
  lemma FilterSingle<T>(x: T, keep: T -> bool)
    ensures Filter([x], keep) == if keep(x) then [x] else []
  {
    assert [x][1..] == [];
  }

  /** Filtering twice is filtering once by both conditions. */
  lemma {:induction false} FilterFilter<T>(rows: seq<T>, first: T -> bool, second: T -> bool, both: T -> bool)
    requires forall x :: both(x) == (first(x) && second(x))
    ensures Filter(Filter(rows, first), second) == Filter(rows, both)
  {
    if rows != [] {
      FilterFilter(rows[1..], first, second, both);
      var head := if first(rows[0]) then [rows[0]] else [];
      FilterAppend(head, Filter(rows[1..], first), second);
      if first(rows[0]) {
        FilterSingle(rows[0], second);
      }
    }
  }

  /** No value occurs twice. */
  predicate NoDup<T(==)>(s: seq<T>) {
    forall i, j | 0 <= i < j < |s| :: s[i] != s[j]
  }

  /** Filtering a duplicate-free sequence leaves it duplicate-free. */
  lemma {:induction false} FilterNoDup<T>(rows: seq<T>, keep: T -> bool)
    requires NoDup(rows)
    ensures NoDup(Filter(rows, keep))
  {
    if rows != [] {
      assert NoDup(rows[1..]) by {
        forall i, j | 0 <= i < j < |rows[1..]| ensures rows[1..][i] != rows[1..][j] {
          assert rows[1..][i] == rows[i + 1] && rows[1..][j] == rows[j + 1];
        }
      }
      FilterNoDup(rows[1..], keep);
      FilterMembers(rows[1..], keep, rows[0]);
      var rest := Filter(rows[1..], keep);
      assert rows[0] !in rows[1..] by {
        forall k | 0 <= k < |rows[1..]| ensures rows[1..][k] != rows[0] {
          assert rows[1..][k] == rows[k + 1];
        }
      }
      if keep(rows[0]) {
        assert Filter(rows, keep) == [rows[0]] + rest;
        forall i, j | 0 <= i < j < |[rows[0]] + rest| ensures ([rows[0]] + rest)[i] != ([rows[0]] + rest)[j] {
          if i == 0 {
            assert ([rows[0]] + rest)[j] == rest[j - 1];
          } else {
            assert ([rows[0]] + rest)[i] == rest[i - 1] && ([rows[0]] + rest)[j] == rest[j - 1];
          }
        }
      } else {
        assert Filter(rows, keep) == rest;
      }
    }
  }
}
