/** The ordered, duplicate-free host and node lists the Cassandra helpers build before they
    connect or place replicas. An address the driver reports as `None` is the empty string
    here: both are falsy in Python and both are skipped. */
module NodeLists {
  import opened Rows

  /** `[x for x in items if x]`: the addresses that are set. */
  function Present(items: seq<string>): (r: seq<string>)
    ensures forall i | 0 <= i < |r| :: r[i] != []
  {
    Filter(items, (x: string) => x != [])
  }

  /** `acc` extended, in order, by each item not already in it: first-seen order, no repeats. */
  function AppendNew<T(==)>(acc: seq<T>, items: seq<T>): (r: seq<T>)
    ensures acc <= r
    ensures |r| <= |acc| + |items|
    decreases |items|
  {
    if items == [] then acc
    else
      var r := AppendNew(acc, items[..|items| - 1]);
      if items[|items| - 1] in r then r else r + [items[|items| - 1]]
  }

  lemma {:induction false} AppendNewMembers<T>(acc: seq<T>, items: seq<T>, x: T)
    ensures x in AppendNew(acc, items) <==> x in acc || x in items
    decreases |items|
  {
    if items != [] {
      var front := items[..|items| - 1];
      AppendNewMembers(acc, front, x);
      assert items == front + [items[|items| - 1]];
    }
  }

  lemma {:induction false} AppendNewNoDup<T>(acc: seq<T>, items: seq<T>)
    requires NoDup(acc)
    ensures NoDup(AppendNew(acc, items))
    decreases |items|
  {
    if items != [] {
      AppendNewNoDup(acc, items[..|items| - 1]);
    }
  }

  /** When nothing repeats, nothing is dropped. */
  lemma {:induction false} AppendNewOfNoDup<T>(acc: seq<T>, items: seq<T>)
    requires NoDup(acc + items)
    ensures AppendNew(acc, items) == acc + items
    decreases |items|
  {
    if items != [] {
      var front := items[..|items| - 1];
      var x := items[|items| - 1];
      assert acc + items == (acc + front) + [x];
      assert NoDup(acc + front) by {
        forall i, j | 0 <= i < j < |acc + front| ensures (acc + front)[i] != (acc + front)[j] {
          assert (acc + front)[i] == (acc + items)[i] && (acc + front)[j] == (acc + items)[j];
        }
      }
      AppendNewOfNoDup(acc, front);
      assert x !in acc + front by {
        forall k | 0 <= k < |acc + front| ensures (acc + front)[k] != x {
          assert (acc + front)[k] == (acc + items)[k] && x == (acc + items)[|acc + items| - 1];
        }
      }
    }
  }

  /** Deduplicating in two passes is deduplicating the concatenation. */
  lemma {:induction false} AppendNewAppend<T>(acc: seq<T>, a: seq<T>, b: seq<T>)
    ensures AppendNew(AppendNew(acc, a), b) == AppendNew(acc, a + b)
    decreases |b|
  {
    if b == [] {
      assert a + b == a;
    } else {
      var front := b[..|b| - 1];
      AppendNewAppend(acc, a, front);
      assert (a + b)[..|a + b| - 1] == a + front;
    }
  }

  /** Deduplicating an already deduplicated list again changes nothing. */
  lemma {:induction false} AppendNewNested<T>(acc: seq<T>, items: seq<T>)
    ensures AppendNew(acc, AppendNew([], items)) == AppendNew(acc, items)
    decreases |items|
  {
    if items != [] {
      var front := items[..|items| - 1];
      var x := items[|items| - 1];
      AppendNewNested(acc, front);
      var inner := AppendNew([], front);
      if x in inner {
        AppendNewMembers([], front, x);
        AppendNewMembers(acc, front, x);
      } else {
        assert (inner + [x])[..|inner + [x]| - 1] == inner;
      }
    }
  }

  lemma PresentAppend(a: seq<string>, b: seq<string>)
    ensures Present(a + b) == Present(a) + Present(b)
  {
    FilterAppend(a, b, (x: string) => x != []);
  }

  lemma PresentMembers(items: seq<string>, x: string)
    ensures x in Present(items) <==> x in items && x != []
  {
    FilterMembers(items, (x: string) => x != [], x);
  }

  /** A list without unset entries is its own `Present`. */
  lemma {:induction false} PresentAll(items: seq<string>)
    requires forall i | 0 <= i < |items| :: items[i] != []
    ensures Present(items) == items
  {
    if items != [] {
      PresentAll(items[1..]);
      assert items == [items[0]] + items[1..];
    }
  }

  lemma PresentSnoc(items: seq<string>, x: string)
    ensures Present(items + [x]) == Present(items) + (if x != [] then [x] else [])
  {
    PresentAppend(items, [x]);
    FilterSingle(x, (x: string) => x != []);
  }

  lemma AppendNewSnoc<T>(acc: seq<T>, items: seq<T>, x: T)
    ensures AppendNew(acc, items + [x]) ==
      var r := AppendNew(acc, items); if x in r then r else r + [x]
  {
    assert (items + [x])[..|items|] == items;
  }

  /** `for node in items: if node and node not in acc: acc.append(node)`. */
  method AppendUnique(acc: seq<string>, items: seq<string>) returns (r: seq<string>)
    ensures r == AppendNew(acc, Present(items))
  {
    r := acc;
    for i := 0 to |items|
      invariant r == AppendNew(acc, Present(items[..i]))
    {
      var node := items[i];
      assert items[..i + 1] == items[..i] + [node];
      PresentSnoc(items[..i], node);
      if node != [] {
        AppendNewSnoc(acc, Present(items[..i]), node);
      } else {
        assert Present(items[..i + 1]) == Present(items[..i]) + [];
        assert Present(items[..i]) + [] == Present(items[..i]);
      }
      if node != [] && node !in r {
        r := r + [node];
      }
    }
    assert items[..|items|] == items;
  }

  /** `all_hosts` in `run_nodetool` and `getendpoints`: the configured nodes, then the
      discovered ones, each set address once, in first-seen order. */
  method AllHosts(configured: seq<string>, discovered: seq<string>) returns (hosts: seq<string>)
    ensures hosts == AppendNew([], Present(configured + discovered))
    ensures NoDup(hosts)
    ensures forall x :: x in hosts <==> x != [] && (x in configured || x in discovered)
  {
    var first := AppendUnique([], configured);
    hosts := AppendUnique(first, discovered);
    AppendNewAppend([], Present(configured), Present(discovered));
    PresentAppend(configured, discovered);
    AppendNewNoDup([], Present(configured + discovered));
    forall x ensures x in hosts <==> x != [] && (x in configured || x in discovered) {
      AppendNewMembers([], Present(configured + discovered), x);
      PresentMembers(configured + discovered, x);
    }
  }

  /** `hosts_to_try`: the preferred host first, then every other host in order. */
  function HostsToTry(nodeHost: string, allHosts: seq<string>): (r: seq<string>)
    ensures |r| >= 1 && r[0] == nodeHost
    ensures forall i | 1 <= i < |r| :: r[i] != nodeHost
  {
    [nodeHost] + Filter(allHosts, (h: string) => h != nodeHost)
  }

  /** Every host is tried, and nothing else is. */
  lemma HostsToTryMembers(nodeHost: string, allHosts: seq<string>, x: string)
    ensures x in HostsToTry(nodeHost, allHosts) <==> x == nodeHost || x in allHosts
  {
    FilterMembers(allHosts, (h: string) => h != nodeHost, x);
  }

  /** From a duplicate-free host list, no host is tried twice. */
  lemma HostsToTryNoDup(nodeHost: string, allHosts: seq<string>)
    requires NoDup(allHosts)
    ensures NoDup(HostsToTry(nodeHost, allHosts))
  {
    FilterNoDup(allHosts, (h: string) => h != nodeHost);
  }

  /** `peer_addresses` and then `all_nodes` in the getendpoints emulation: the local address,
      then each peer address, set ones only, each once, in first-seen order. */
  method AllNodes(localAddress: string, peerRows: seq<string>) returns (nodes: seq<string>)
    ensures nodes == AppendNew([], Present([localAddress] + peerRows))
    ensures NoDup(nodes)
    ensures forall i | 0 <= i < |nodes| :: nodes[i] != []
  {
    var peers := AppendUnique([], peerRows);
    nodes := [];
    if localAddress != [] && localAddress !in nodes {
      nodes := nodes + [localAddress];
    }
    assert nodes == AppendNew([], Present([localAddress])) by {
      FilterSingle(localAddress, (x: string) => x != []);
      assert [localAddress][..0] == [];
    }
    ghost var local := nodes;
    nodes := AppendUnique(nodes, peers);
    assert forall i | 0 <= i < |peers| :: peers[i] != [] by {
      forall i | 0 <= i < |peers| ensures peers[i] != [] {
        AppendNewMembers([], Present(peerRows), peers[i]);
      }
    }
    PresentAll(peers);
    AppendNewNested(local, Present(peerRows));
    AppendNewAppend([], Present([localAddress]), Present(peerRows));
    PresentAppend([localAddress], peerRows);
    AppendNewNoDup([], Present([localAddress] + peerRows));
    forall i | 0 <= i < |nodes| ensures nodes[i] != [] {
      AppendNewMembers([], Present([localAddress] + peerRows), nodes[i]);
    }
  }
}
