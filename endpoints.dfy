/** `getendpoints(keyspace, table, key_column, key_value, session)` once a session exists: the
    replicas it reports are the first `rf` entries of the sorted set of known node names. The
    keyspace rows, the local address column (broadcast or listen, already combined) and the
    peers' `rpc_address` column are inputs. */
module Endpoints {
  import opened Wrappers
  import opened Text
  import opened Rows
  import opened NodeLists

  /** Python's `a < b` on strings: lexicographic by code point, a proper prefix first. */
  predicate StrLt(a: string, b: string)
    decreases |a|
  {
    if a == [] then b != []
    else if b == [] then false
    else if a[0] != b[0] then a[0] < b[0]
    else StrLt(a[1..], b[1..])
  }

  lemma {:induction false} StrLtIrreflexive(a: string)
    ensures !StrLt(a, a)
    decreases |a|
  {
    if a != [] {
      StrLtIrreflexive(a[1..]);
    }
  }

  lemma {:induction false} StrLtAsymmetric(a: string, b: string)
    requires StrLt(a, b)
    ensures !StrLt(b, a)
    decreases |a|
  {
    if a != [] && a[0] == b[0] {
      StrLtAsymmetric(a[1..], b[1..]);
    }
  }

  lemma {:induction false} StrLtTransitive(a: string, b: string, c: string)
    requires StrLt(a, b) && StrLt(b, c)
    ensures StrLt(a, c)
    decreases |a|
  {
    if a != [] && a[0] == b[0] && b[0] == c[0] {
      StrLtTransitive(a[1..], b[1..], c[1..]);
    }
  }

  lemma {:induction false} StrLtTotal(a: string, b: string)
    requires a != b
    ensures StrLt(a, b) || StrLt(b, a)
    decreases |a|
  {
    if a != [] && b != [] && a[0] == b[0] {
      assert a == [a[0]] + a[1..] && b == [b[0]] + b[1..];
      StrLtTotal(a[1..], b[1..]);
    }
  }

  /** Strictly increasing, hence also free of repeats. */
  predicate Sorted(s: seq<string>) {
    forall i, j | 0 <= i < j < |s| :: StrLt(s[i], s[j])
  }

  lemma SortedNoDup(s: seq<string>)
    requires Sorted(s)
    ensures NoDup(s)
  {
    forall i, j | 0 <= i < j < |s| ensures s[i] != s[j] {
      StrLtIrreflexive(s[i]);
    }
  }

  lemma SortedCons(x: string, s: seq<string>)
    requires Sorted(s) && s != [] && StrLt(x, s[0])
    ensures Sorted([x] + s)
  {
    forall j | 0 <= j < |s| ensures StrLt(x, s[j]) {
      if j > 0 {
        StrLtTransitive(x, s[0], s[j]);
      }
    }
  }

  /** `x` placed into a sorted list, unless it is already there. */
  function Insert(s: seq<string>, x: string): (r: seq<string>)
    requires Sorted(s)
    ensures Sorted(r)
    ensures x in r
    ensures forall i | 0 <= i < |r| :: r[i] == x || r[i] in s
    ensures forall i | 0 <= i < |s| :: s[i] in r
  {
    if s == [] then [x]
    else if x == s[0] then s
    else if StrLt(x, s[0]) then SortedCons(x, s); [x] + s
    else
      var rest := Insert(s[1..], x);
      StrLtTotal(x, s[0]);
      assert forall i | 0 <= i < |rest| :: StrLt(s[0], rest[i]) by {
        forall i | 0 <= i < |rest| ensures StrLt(s[0], rest[i]) {
          if rest[i] != x {
            var k :| 0 <= k < |s[1..]| && s[1..][k] == rest[i];
            assert s[k + 1] == rest[i];
          }
        }
      }
      assert forall i | 1 <= i < |s| :: s[i] in rest by {
        forall i | 1 <= i < |s| ensures s[i] in rest {
          assert s[1..][i - 1] == s[i];
        }
      }
      [s[0]] + rest
  }

  /** `sorted(set(xs))`: the distinct values in increasing order. */
  function SortUnique(xs: seq<string>): (r: seq<string>)
    ensures Sorted(r)
  {
    if xs == [] then [] else Insert(SortUnique(xs[..|xs| - 1]), xs[|xs| - 1])
  }

  lemma {:induction false} SortUniqueMembers(xs: seq<string>, x: string)
    ensures x in SortUnique(xs) <==> x in xs
  {
    if xs != [] {
      var front := xs[..|xs| - 1];
      SortUniqueMembers(front, x);
      assert xs == front + [xs[|xs| - 1]];
      var r := SortUnique(xs);
      if x in r {
        var k :| 0 <= k < |r| && r[k] == x;
      }
      if x in SortUnique(front) {
        var k :| 0 <= k < |SortUnique(front)| && SortUnique(front)[k] == x;
      }
    }
  }

  lemma SortedFirst(s: seq<string>, x: string)
    requires Sorted(s) && x in s
    ensures x == s[0] || StrLt(s[0], x)
  {
  }

  /** A sorted list is determined by its values: `SortUnique` is the only possible
      `sorted(list(set))` order. */
  lemma {:induction false} SortedUnique(a: seq<string>, b: seq<string>)
    requires Sorted(a) && Sorted(b)
    requires forall x :: x in a <==> x in b
    ensures a == b
    decreases |a|
  {
    if a != [] {
      assert a[0] in a;
    }
    if b != [] {
      assert b[0] in b;
    }
    if a != [] && b != [] {
      SortedFirst(b, a[0]);
      SortedFirst(a, b[0]);
      if StrLt(a[0], b[0]) {
        StrLtAsymmetric(a[0], b[0]);
      }
      assert a[0] == b[0];
      SortedNoDup(a);
      SortedNoDup(b);
      forall x ensures x in a[1..] <==> x in b[1..] {
        TailMembers(a, x);
        TailMembers(b, x);
      }
      SortedUnique(a[1..], b[1..]);
      assert a == [a[0]] + a[1..] && b == [b[0]] + b[1..];
    }
  }

  lemma TailMembers(s: seq<string>, x: string)
    requires s != [] && NoDup(s)
    ensures x in s[1..] <==> x in s && x != s[0]
  {
    if x in s[1..] {
      var k :| 0 <= k < |s[1..]| && s[1..][k] == x;
      assert s[k + 1] == x;
    }
    if x in s && x != s[0] {
      var k :| 0 <= k < |s| && s[k] == x;
      assert s[1..][k - 1] == x;
    }
  }

  /** The default container names of the three nodes (`CASSANDRA_SEED_NAME`, ...). */
  const Containers: seq<string> := ["cassandra", "cassandra-node1", "cassandra-node2"]

  /** `nodes_list`: the sorted set of reported addresses, with the container names added when
      fewer than three distinct addresses were reported. */
  function NodesList(collected: seq<string>): seq<string> {
    var found := SortUnique(Present(collected));
    if |found| < 3 then SortUnique(Present(collected) + Containers) else found
  }

  /** The node list is sorted, holds every reported address, holds the container names when
      fewer than three addresses were reported, and never has fewer than three entries. */
  lemma NodesListFacts(collected: seq<string>)
    ensures var nodes := NodesList(collected);
      && Sorted(nodes)
      && (forall x :: x in Present(collected) ==> x in nodes)
      && (|SortUnique(Present(collected))| < 3 ==> forall i | 0 <= i < 3 :: Containers[i] in nodes)
      && |nodes| >= 3
  {
    var p := Present(collected);
    var nodes := NodesList(collected);
    forall x | x in p ensures x in nodes {
      SortUniqueMembers(p, x);
      SortUniqueMembers(p + Containers, x);
    }
    if |SortUnique(p)| < 3 {
      forall i | 0 <= i < 3 ensures Containers[i] in nodes {
        assert Containers[i] in p + Containers;
        SortUniqueMembers(p + Containers, Containers[i]);
      }
      SortedNoDup(nodes);
      var a :| 0 <= a < |nodes| && nodes[a] == Containers[0];
      var b :| 0 <= b < |nodes| && nodes[b] == Containers[1];
      var c :| 0 <= c < |nodes| && nodes[c] == Containers[2];
      assert Containers[0] != Containers[1] && Containers[1] != Containers[2] && Containers[0] != Containers[2];
      assert a != b && b != c && a != c;
    }
  }

  /** Python's `s[:k]`: a negative `k` counts from the end. */
  function PyPrefix(s: seq<string>, k: int): (r: seq<string>)
    ensures r <= s
    ensures 0 <= k ==> |r| == if k < |s| then k else |s|
    ensures k < 0 ==> |r| == if |s| + k > 0 then |s| + k else 0
  {
    if k >= 0 then (if k < |s| then s[..k] else s)
    else if |s| + k > 0 then s[..|s| + k] else []
  }

  /** `nodes_list[:min(rf_int, total_nodes)]`. */
  function EndpointsOf(nodes: seq<string>, rf: int): (e: seq<string>)
    ensures e <= nodes
    ensures rf >= |nodes| ==> e == nodes
  {
    PyPrefix(nodes, if rf < |nodes| then rf else |nodes|)
  }

  /** With a non-negative replication factor the endpoints are the `min(rf, n)` smallest node
      names, in increasing order: each is below every node left out. */
  lemma EndpointsSmallest(nodes: seq<string>, rf: int)
    requires Sorted(nodes) && rf >= 0
    ensures var e := EndpointsOf(nodes, rf);
      && |e| == (if rf < |nodes| then rf else |nodes|)
      && Sorted(e)
      && forall i, j | 0 <= i < |e| && |e| <= j < |nodes| :: StrLt(e[i], nodes[j])
  {
  }

  /** A negative replication factor slices from the end: all but the last `-rf` names. */
  lemma EndpointsNegative(nodes: seq<string>, rf: int)
    requires rf < 0
    ensures EndpointsOf(nodes, rf) == nodes[..if |nodes| + rf > 0 then |nodes| + rf else 0]
  {
  }

  /** `replication_info.get('replication_factor', '1')`. */
  function RfText(replication: map<string, string>): string {
    if "replication_factor" in replication then replication["replication_factor"] else "1"
  }

  function ParseError(rf: string): string {
    "Error getting endpoints: invalid literal for int() with base 10: '" + rf + "'"
  }

  function Header(rf: string): string {
    "Replication Factor: " + rf + "\n"
  }

  /** The warning, present exactly when the factor exceeds the node count. */
  function RfWarning(rf: string, k: int, total: nat): (r: string)
    ensures r != [] <==> k > total
  {
    if k > total then "\nWARNING: Replication factor " + rf + " exceeds available nodes (" + IntToString(total) + ")\n" else []
  }

  function TotalLine(total: nat): string {
    "\nTotal nodes in cluster: " + IntToString(total)
  }

  /** The report, or the text of whatever the function returns early. */
  function EndpointsReport(keyspace: string, keyspaceRows: seq<map<string, string>>, collected: seq<string>): (report: string)
    ensures keyspaceRows == [] ==> report == NotFound(keyspace)
    ensures keyspaceRows != [] && ParseInt(RfText(keyspaceRows[0])).None? ==> report == ParseError(RfText(keyspaceRows[0]))
    ensures keyspaceRows != [] && ParseInt(RfText(keyspaceRows[0])).Some? ==>
      Header(RfText(keyspaceRows[0])) <= report
  {
    if keyspaceRows == [] then NotFound(keyspace)
    else
      var rf := RfText(keyspaceRows[0]);
      var nodes := NodesList(collected);
      match ParseInt(rf)
      case None => ParseError(rf)
      case Some(k) => Header(rf) + NodeLines(EndpointsOf(nodes, k)) + RfWarning(rf, k, |nodes|) + TotalLine(|nodes|)
  }

  function NotFound(keyspace: string): string {
    "Keyspace " + keyspace + " not found"
  }

  function NodeLines(nodes: seq<string>): string {
    if nodes == [] then [] else NodeLines(nodes[..|nodes| - 1]) + nodes[|nodes| - 1] + "\n"
  }

  /** Lines 559-615 of `getendpoints`, given the session's rows. `localAddresses` holds
      `broadcast_address or listen_address` of each `system.local` row. */
  method GetEndpoints(keyspace: string, keyspaceRows: seq<map<string, string>>,
                      localAddresses: seq<string>, peerAddresses: seq<string>) returns (result: string)
    ensures result == EndpointsReport(keyspace, keyspaceRows, localAddresses + peerAddresses)
  {
    if keyspaceRows == [] {
      return NotFound(keyspace);
    }
    var rf := RfText(keyspaceRows[0]);
    var nodesList := NodesList(localAddresses + peerAddresses);
    var total := |nodesList|;
    var rfInt := ParseInt(rf);
    if rfInt.None? {
      return ParseError(rf);
    }
    var endpoints := EndpointsOf(nodesList, rfInt.value);
    result := AppendLines(Header(rf), endpoints);
    if rfInt.value > total {
      result := result + RfWarning(rf, rfInt.value, total);
    }
    result := result + TotalLine(total);
  }

  /** `for node in endpoints: result += f"{node}\n"`. */
  method AppendLines(header: string, endpoints: seq<string>) returns (result: string)
    ensures result == header + NodeLines(endpoints)
  {
    result := header;
    for i := 0 to |endpoints|
      invariant result == header + NodeLines(endpoints[..i])
    {
      assert endpoints[..i + 1][..i] == endpoints[..i];
      result := result + endpoints[i] + "\n";
    }
    assert endpoints[..|endpoints|] == endpoints;
  }

  /** What the source promises of a found keyspace with an integer replication factor
      `k >= 0`: the report lists the `min(k, n)` smallest node names in increasing order, and
      `n` is at least three. */
  lemma GetEndpointsReplicas(keyspace: string, replication: map<string, string>,
                             collected: seq<string>, k: int)
    requires k >= 0 && RfText(replication) == IntToString(k)
    ensures var nodes := NodesList(collected);
      var e := EndpointsOf(nodes, k);
      && EndpointsReport(keyspace, [replication], collected) ==
         Header(IntToString(k)) + NodeLines(e) + RfWarning(IntToString(k), k, |nodes|) + TotalLine(|nodes|)
      && |e| == (if k < |nodes| then k else |nodes|)
      && |nodes| >= 3
      && forall i, j | 0 <= i < |e| && |e| <= j < |nodes| :: StrLt(e[i], nodes[j])
  {
    ParseIntToString(k);
    NodesListFacts(collected);
    EndpointsSmallest(NodesList(collected), k);
  }
}
