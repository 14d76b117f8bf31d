/** The nodetool emulation's replica placement (`run_nodetool("getendpoints ...")`) and the
    node-index check of `connect_to_specific_node`. The driver's query results are inputs:
    the local node's two address columns, the peers' `rpc_address` column, and the keyspace's
    replication map (`None` when the keyspace row is missing). */
module Replicas {
  import opened Wrappers
  import opened Text
  import opened Rows
  import opened NodeLists

  /** `connect_to_specific_node(node_index)`: the node the index names, or the `ValueError`
      message for an index outside `0 .. len(nodes) - 1`. */
  function SpecificNode(nodes: seq<string>, index: int): (r: Result<string, string>)
    ensures r.Success? <==> 0 <= index < |nodes|
    ensures r.Success? ==> r.value == nodes[index]
    ensures r.Failure? ==> r.error == "Node index " + IntToString(index) + " out of range (0-" + IntToString(|nodes| - 1) + ")"
  {
    if index < 0 || index >= |nodes| then
      Failure("Node index " + IntToString(index) + " out of range (0-" + IntToString(|nodes| - 1) + ")")
    else Success(nodes[index])
  }

  function Abs(x: int): nat {
    if x < 0 then -x else x
  }

  /** The first replica: `abs(int(token)) % total_nodes`, or 0 when the token is not an
      integer literal. */
  function StartIndex(token: string, total: nat): (r: nat)
    requires total > 0
    ensures r < total
    ensures ParseInt(token).None? ==> r == 0
  {
    match ParseInt(token)
    case None => 0
    case Some(t) => Abs(t) % total
  }

  /** A token written as an integer starts the walk at its absolute value modulo the ring. */
  lemma StartIndexOfInt(t: int, total: nat)
    requires total > 0
    ensures StartIndex(IntToString(t), total) == Abs(t) % total
  {
    ParseIntToString(t);
  }

  /** `int(replication.get('replication_factor', '1'))`, and 1 when the keyspace row is
      missing or the value is not an integer literal. */
  function ReplicationFactor(replication: Option<map<string, string>>): (rf: int)
    ensures replication.None? ==> rf == 1
    ensures replication.Some? && "replication_factor" in replication.value ==>
      rf == (if ParseInt(replication.value["replication_factor"]).Some? then ParseInt(replication.value["replication_factor"]).value else 1)
  {
    match replication
    case None => 1
    case Some(m) =>
      var text := if "replication_factor" in m then m["replication_factor"] else "1";
      match ParseInt(text)
      case None => 1
      case Some(k) => k
  }

  /** A replication factor stored as `str(k)` is read back as `k`; without the key it is 1. */
  lemma ReplicationFactorRoundTrip(k: int, m: map<string, string>)
    ensures ReplicationFactor(Some(m["replication_factor" := IntToString(k)])) == k
    ensures "replication_factor" !in m ==> ReplicationFactor(Some(m)) == 1
  {
    ParseIntToString(k);
    assert ParseInt("1") == Some(1) by {
      assert "1"[..0] == [];
    }
  }

  /** `len(range(min(rf, total_nodes)))`. */
  function ReplicaCount(rf: int, total: nat): (r: nat)
    ensures r <= total
    ensures rf >= 0 ==> r == if rf < total then rf else total
  {
    if rf <= 0 then 0 else if rf < total then rf else total
  }

  /** The ring walk: the nodes at `(start + i) % total` for `i` in `0 .. k - 1`. */
  function RingWalk(all: seq<string>, start: nat, k: nat): (r: seq<string>)
    requires |all| > 0
    ensures |r| == k
    ensures forall i | 0 <= i < k :: r[i] == all[(start + i) % |all|]
  {
    seq(k, i requires 0 <= i < k => all[(start + i) % |all|])
  }

  /** The replicas reported: the ring walk without repeats (the `unique_nodes` set). */
  function Chosen(all: seq<string>, rf: int, start: nat): seq<string>
    requires |all| > 0
  {
    AppendNew([], RingWalk(all, start, ReplicaCount(rf, |all|)))
  }

  /** One line per reported node. */
  function Lines(nodes: seq<string>): string {
    if nodes == [] then [] else Lines(nodes[..|nodes| - 1]) + nodes[|nodes| - 1] + "\n"
  }

  /** The warning line, present exactly when rf exceeds the node count. */
  function Warning(rf: int, total: nat): (r: string)
    ensures r != [] <==> rf > total
  {
    if rf > total then
      "\nWARNING: Replication factor " + IntToString(rf) + " exceeds available nodes (" + IntToString(total) + ")\n"
    else []
  }

  /** The whole report of the getendpoints branch. */
  function ReplicaText(all: seq<string>, rf: int, token: string): (text: string)
    ensures all == [] ==> text == "No nodes found in the cluster" + Footer(0)
    ensures |text| >= |Footer(|all|)| && text[|text| - |Footer(|all|)|..] == Footer(|all|)
  {
    (if |all| > 0 then Lines(Chosen(all, rf, StartIndex(token, |all|))) + Warning(rf, |all|)
     else "No nodes found in the cluster")
    + Footer(|all|)
  }

  function Footer(total: nat): string {
    "\nTotal nodes in cluster: " + IntToString(total) + "\n"
  }

  lemma RingStep(all: seq<string>, start: nat, i: nat)
    requires |all| > 0
    ensures RingWalk(all, start, i + 1) == RingWalk(all, start, i) + [all[(start + i) % |all|]]
  {
  }

  /** Within one lap, the ring index either has not wrapped yet or has wrapped exactly once. */
  lemma RingIndex(start: nat, i: nat, n: nat)
    requires start < n && i < n
    ensures (start + i) % n == if start + i < n then start + i else start + i - n
  {
  }

  /** Walking at most once around a ring of distinct nodes meets no node twice. */
  lemma RingWalkNoDup(all: seq<string>, start: nat, k: nat)
    requires |all| > 0 && NoDup(all) && start < |all| && k <= |all|
    ensures NoDup(RingWalk(all, start, k))
  {
    var r := RingWalk(all, start, k);
    forall i, j | 0 <= i < j < k ensures r[i] != r[j] {
      RingIndex(start, i, |all|);
      RingIndex(start, j, |all|);
    }
  }

  /** From distinct nodes: exactly `min(rf, total)` replicas (none for rf <= 0), pairwise
      distinct, the i-th being the node `i` steps round the ring from the start. */
  lemma ReplicaPlacement(all: seq<string>, rf: int, start: nat)
    requires |all| > 0 && NoDup(all) && start < |all|
    ensures var c := Chosen(all, rf, start);
      && |c| == ReplicaCount(rf, |all|)
      && NoDup(c)
      && forall i | 0 <= i < |c| :: c[i] == all[(start + i) % |all|]
  {
    var walk := RingWalk(all, start, ReplicaCount(rf, |all|));
    RingWalkNoDup(all, start, ReplicaCount(rf, |all|));
    assert [] + walk == walk;
    AppendNewOfNoDup([], walk);
  }

  /** From any node list: the replicas are distinct nodes of the list, at most `min(rf, total)`. */
  lemma ReplicasAreNodes(all: seq<string>, rf: int, start: nat)
    requires |all| > 0
    ensures var c := Chosen(all, rf, start);
      && |c| <= ReplicaCount(rf, |all|)
      && NoDup(c)
      && forall i | 0 <= i < |c| :: c[i] in all
  {
    var walk := RingWalk(all, start, ReplicaCount(rf, |all|));
    var c := Chosen(all, rf, start);
    AppendNewNoDup([], walk);
    forall i | 0 <= i < |c| ensures c[i] in all {
      AppendNewMembers([], walk, c[i]);
    }
  }

  /** Lines 419-445 of the getendpoints branch: the ring walk collecting `unique_nodes` and
      the `result` text. */
  method ChooseReplicas(all: seq<string>, rf: int, token: string) returns (chosen: seq<string>, result: string)
    ensures |all| > 0 ==> chosen == Chosen(all, rf, StartIndex(token, |all|))
    ensures |all| == 0 ==> chosen == []
    ensures result == ReplicaText(all, rf, token)
  {
    chosen, result := [], "";
    var total := |all|;
    if total > 0 {
      var start := StartIndex(token, total);
      chosen, result := WalkRing(all, rf, start);
      if rf > total {
        result := result + Warning(rf, total);
      }
    } else {
      result := "No nodes found in the cluster";
    }
    result := result + Footer(total);
  }

  /** Lines 432-438: `for i in range(min(rf, total_nodes))`, adding each node not yet in
      `unique_nodes` to the set and to the text. */
  method WalkRing(all: seq<string>, rf: int, start: nat) returns (chosen: seq<string>, result: string)
    requires |all| > 0
    ensures chosen == Chosen(all, rf, start)
    ensures result == Lines(chosen)
  {
    chosen, result := [], "";
    var total := |all|;
    var unique: set<string> := {};
    var count := if rf < total then rf else total;
    for i := 0 to (if count < 0 then 0 else count)
      invariant chosen == AppendNew([], RingWalk(all, start, i))
      invariant unique == Elements(chosen)
      invariant result == Lines(chosen)
    {
      var node := all[(start + i) % total];
      RingStep(all, start, i);
      AppendNewSnoc([], RingWalk(all, start, i), node);
      ElementsMembers(chosen, node);
      ElementsSnoc(chosen, node);
      if node !in unique {
        unique := unique + {node};
        assert (chosen + [node])[..|chosen|] == chosen;
        result := result + node + "\n";
        chosen := chosen + [node];
      }
    }
  }

  function Elements(s: seq<string>): set<string> {
    set i | 0 <= i < |s| :: s[i]
  }

  lemma ElementsMembers(s: seq<string>, x: string)
    ensures x in Elements(s) <==> x in s
  {
    if x in s {
      var k :| 0 <= k < |s| && s[k] == x;
    }
  }

  lemma ElementsSnoc(s: seq<string>, x: string)
    ensures Elements(s + [x]) == Elements(s) + {x}
  {
    var t := s + [x];
    forall y ensures y in Elements(t) <==> y in Elements(s) + {x} {
      ElementsMembers(t, y);
      ElementsMembers(s, y);
    }
  }

  /** `local_info.broadcast_address or local_info.listen_address`. */
  function LocalAddress(broadcast: string, listen: string): string {
    if broadcast != [] then broadcast else listen
  }

  /** `all_nodes`: the local address, then the peers, each once. */
  function NodeList(local: string, peers: seq<string>): seq<string> {
    AppendNew([], Present([local] + peers))
  }

  predicate IsStatusCommand(command: string) {
    command == "status" || "status " <= command
  }

  const Usage := "Usage: getendpoints <keyspace> <table> <token>"

  /** The text of the getendpoints branch for a command of at least four words, else the usage. */
  function GetendpointsText(command: string, broadcast: string, listen: string, peers: seq<string>,
                            replication: Option<map<string, string>>): string {
    var parts := Words(command);
    if |parts| >= 4 then
      ReplicaText(NodeList(LocalAddress(broadcast, listen), peers), ReplicationFactor(replication), parts[3])
    else Usage
  }

  /** What `run_nodetool` returns once connected: the status report (whose layout is not part
      of this model) or a text. */
  datatype NodetoolOutput = StatusReport | Report(text: string)

  /** The command dispatch of `run_nodetool` after it has connected. */
  method Nodetool(command: string, broadcast: string, listen: string, peers: seq<string>,
                  replication: Option<map<string, string>>) returns (out: NodetoolOutput)
    ensures IsStatusCommand(command) ==> out == StatusReport
    ensures !IsStatusCommand(command) && "getendpoints " <= command ==>
      out == Report(GetendpointsText(command, broadcast, listen, peers, replication))
    ensures !IsStatusCommand(command) && !("getendpoints " <= command) ==>
      out == Report("Command '" + command + "' is not implemented in this nodetool emulation.")
  {
    if IsStatusCommand(command) {
      return StatusReport;
    }
    if "getendpoints " <= command {
      var parts := Words(command);
      if |parts| >= 4 {
        var token := parts[3];
        var local := LocalAddress(broadcast, listen);
        var all := AllNodes(local, peers);
        var rf := ReplicationFactor(replication);
        var chosen, result := ChooseReplicas(all, rf, token);
        return Report(result);
      }
      return Report(Usage);
    }
    return Report("Command '" + command + "' is not implemented in this nodetool emulation.");
  }

  /** The getendpoints branch reports distinct nodes, `min(rf, n)` of them when `rf >= 0`,
      starting at the node the token names; the warning appears exactly when rf exceeds n. */
  lemma GetendpointsPlacement(local: string, peers: seq<string>, rf: int, token: string)
    requires |NodeList(local, peers)| > 0
    ensures var all := NodeList(local, peers);
      var c := Chosen(all, rf, StartIndex(token, |all|));
      && |c| == ReplicaCount(rf, |all|)
      && (forall i | 0 <= i < |c| :: c[i] == all[(StartIndex(token, |all|) + i) % |all|] && c[i] != [])
      && ReplicaText(all, rf, token) == Lines(c) + Warning(rf, |all|) + Footer(|all|)
  {
    var all := NodeList(local, peers);
    AppendNewNoDup([], Present([local] + peers));
    ReplicaPlacement(all, rf, StartIndex(token, |all|));
    var c := Chosen(all, rf, StartIndex(token, |all|));
    forall i | 0 <= i < |c| ensures c[i] != [] {
      AppendNewMembers([], Present([local] + peers), c[i]);
      PresentMembers([local] + peers, c[i]);
    }
  }
}
