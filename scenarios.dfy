/**
 * Concrete clusters: a three-replica partition 10 on hosts h1, h2, h3, queried
 * at "<host>:17210", and the verdicts, reports and listings they produce.
 */
module Scenarios {
  import opened Wrappers
  import opened Proto
  import opened Sorting
  import opened Report
  import opened Diagnosis
  import opened Sweep
  import opened Listing

  function Hosts(): seq<string> { ["h1", "h2", "h3"] }

  function Partition10(): PartitionRecord
  {
    PartitionRecord(10, 3, 0, Hosts(), map[],
      [Replica("h1:17210"), Replica("h2:17210"), Replica("h3:17210")])
  }

  function AllPeers(): seq<Peer> { [Peer(1, "h1"), Peer(2, "h2"), Peer(3, "h3")] }

  /** A cluster that knows only partition 10 and whose nodes answer with `nodes`. */
  function ClusterWith(nodes: (string, uint64) -> Result<seq<Peer>>): Client
  {
    Client(pid => if pid == 10 then Ok(Partition10()) else Err("not found"),
           nodes, Ok([]), (name, owner) => Err("no such volume"))
  }

  lemma HostsSorted()
    ensures SortStrings(Hosts()) == Hosts()
  {
    SortStringsSpec(Hosts());
    assert StringsSorted(Hosts()) by {
      assert LexLe("h1", "h2") && LexLe("h2", "h3") && LexLe("h1", "h3");
    }
    SortedUnique(SortStrings(Hosts()), Hosts());
  }

  lemma StripPortOfReplicas()
    ensures StripPort("h1:17210") == "h1"
    ensures StripPort("h2:17210") == "h2"
    ensures StripPort("h3:17210") == "h3"
  {
  }

  /** Peer lists compare equal whatever order they come in. */
  lemma PeerOrderIsIrrelevant()
    ensures SortStrings(["b", "a", "c"]) == SortStrings(["c", "b", "a"])
  {
    SortedEqualIffSameMultiset(["b", "a", "c"], ["c", "b", "a"]);
    assert multiset(["b", "a", "c"]) == multiset(["c", "b", "a"]);
  }

  /** Every replica agrees with the master: healthy, and the sweep writes nothing for it. */
  lemma AllReplicasAgree()
    ensures Diagnose(ClusterWith((addr, id) => Ok(AllPeers())), 10).healthy
    ensures PartitionLines(ClusterWith((addr, id) => Ok(AllPeers())), [10]) == []
  {
    var client := ClusterWith((addr, id) => Ok(AllPeers()));
    assert PeerAddrs(AllPeers()) == Hosts();
    HostsSorted();
    var rec := Partition10();
    assert MasterHealthy(rec);
    forall i | 0 <= i < |rec.replicas|
      ensures ReplicaHealthy(rec, ReplicaReply(client, rec, rec.replicas[i]))
    {
    }
  }

  /** Replica h3 cannot be reached: unhealthy, with a "nil/3" row for h3 and real counts for h1, h2. */
  lemma OneReplicaUnreachable()
    ensures var client := ClusterWith((addr, id) => if addr == "h3" then Err("connection refused") else Ok(AllPeers()));
            var d := Diagnose(client, 10);
            && !d.healthy
            && |d.report| == 4
            && d.report[0] == Summary(Partition10())
            && d.report[1] == PeerList("h1:17210", 3, 3, Hosts())
            && d.report[2] == PeerList("h2:17210", 3, 3, Hosts())
            && d.report[3] == QueryFailed("h3:17210", 3, "connection refused")
  {
    var client := ClusterWith((addr, id) => if addr == "h3" then Err("connection refused") else Ok(AllPeers()));
    var rec := Partition10();
    assert PeerAddrs(AllPeers()) == Hosts();
    HostsSorted();
    StripPortOfReplicas();
    assert MasterHealthy(rec);
    ReportLayout(client, 10);
    FailedQueryIsReported(client, 10, 2);
  }

  /**
   * Replica h2 sees only h1 and h2: unhealthy, because its sorted peers differ
   * from the hosts and because it has two peers rather than three.
   */
  lemma OneReplicaMissesAPeer()
    ensures var client := ClusterWith((addr, id) => if addr == "h2" then Ok([Peer(1, "h1"), Peer(2, "h2")]) else Ok(AllPeers()));
            var reply := ReplicaReply(client, Partition10(), Partition10().replicas[1]);
            && reply.Ok?
            && SortStrings(PeerAddrs(reply.value)) != SortStrings(Hosts())
            && |reply.value| != 3
            && !Diagnose(client, 10).healthy
  {
    var client := ClusterWith((addr, id) => if addr == "h2" then Ok([Peer(1, "h1"), Peer(2, "h2")]) else Ok(AllPeers()));
    StripPortOfReplicas();
    var rec := Partition10();
    assert !ReplicaHealthy(rec, ReplicaReply(client, rec, rec.replicas[1]));
  }

  function RecordOf(pid: uint64): PartitionRecord
  {
    PartitionRecord(pid, 3, -1, Hosts(), map[], [])
  }

  /** Corrupt IDs [30, 10, 20] are listed as 10, 20, 30. */
  lemma CorruptIdsListedAscending()
    ensures var client := Client((pid: uint64) => Ok(RecordOf(pid)), (addr, id) => Err("unreachable"), Ok([]),
                                 (name, owner) => Err("no such volume"));
            var lines := DefaultListing(client, PartitionDiagnosis([30, 10, 20], []));
            lines == [SectionHeader(CorruptPartitions),
                      RowLine(Summary(RecordOf(10))), RowLine(Summary(RecordOf(20))), RowLine(Summary(RecordOf(30))),
                      SectionHeader(LackReplicas)]
  {
    assert SortIds([30, 10, 20]) == [10, 20, 30];
  }
}
