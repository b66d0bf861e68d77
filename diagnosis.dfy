/**
 * The verdict of `checkMetaPartition`: one meta partition is healthy when the
 * master's record of it is consistent and every replica's own view of the
 * partition's members agrees with the master's host list.
 */
module Diagnosis {
  import opened Wrappers
  import opened Proto
  import opened Sorting
  import opened Report
  import opened Seqs

  /** The address a replica is queried at: `strings.Split(addr, ":")[0]`. */
  function StripPort(addr: string): (host: string)
    ensures host <= addr
    ensures ':' !in host
    ensures |host| < |addr| ==> addr[|host|] == ':'
  {
    if addr == [] || addr[0] == ':' then []
    else [addr[0]] + StripPort(addr[1..])
  }

  /** An address without a colon is queried as it stands. */
  lemma StripPortNoColon(addr: string)
    requires ':' !in addr
    ensures StripPort(addr) == addr
  {
  }

  /** The master-side conditions: no missing node, a leader, and as many hosts as replicas. */
  predicate MasterHealthy(rec: PartitionRecord)
  {
    |rec.missNodes| == 0 && rec.status != -1 && |rec.hosts| == rec.replicaNum
  }

  /** What the meta node of replica `r` answers about the partition. */
  function ReplicaReply(client: Client, rec: PartitionRecord, r: Replica): Result<seq<Peer>>
  {
    client.metaNodeGetPartition(StripPort(r.addr), rec.partitionId)
  }

  /** One replica's condition: it answered, its sorted peers are the sorted hosts, and it has `replicaNum` peers. */
  predicate ReplicaHealthy(rec: PartitionRecord, reply: Result<seq<Peer>>)
  {
    && reply.Ok?
    && SortStrings(PeerAddrs(reply.value)) == SortStrings(rec.hosts)
    && |reply.value| == rec.replicaNum
  }

  /** The flag after the master-side check and the first `k` replicas. */
  predicate HealthyUpTo(client: Client, rec: PartitionRecord, k: nat)
    requires k <= |rec.replicas|
  {
    && MasterHealthy(rec)
    && forall j :: 0 <= j < k ==> ReplicaHealthy(rec, ReplicaReply(client, rec, rec.replicas[j]))
  }

  /** Once the flag has been cleared, looking at more replicas does not set it again. */
  lemma HealthyStaysCleared(client: Client, rec: PartitionRecord, j: nat, k: nat)
    requires j <= k <= |rec.replicas|
    requires !HealthyUpTo(client, rec, j)
    ensures !HealthyUpTo(client, rec, k)
  {
  }

  predicate PartitionHealthy(client: Client, rec: PartitionRecord)
  {
    HealthyUpTo(client, rec, |rec.replicas|)
  }

  /** The row written for replica `r`. */
  function ReplicaRow(rec: PartitionRecord, r: Replica, reply: Result<seq<Peer>>): Row
  {
    match reply
    case Err(e) => QueryFailed(r.addr, rec.replicaNum, e)
    case Ok(peers) =>
      var sorted := SortStrings(PeerAddrs(peers));
      PeerList(r.addr, |sorted|, rec.replicaNum, sorted)
  }

  /** The rows of the first `k` replicas, in the record's order. */
  function ReplicaRows(client: Client, rec: PartitionRecord, k: nat): seq<Row>
    requires k <= |rec.replicas|
  {
    if k == 0 then []
    else ReplicaRows(client, rec, k - 1) + [ReplicaRow(rec, rec.replicas[k - 1], ReplicaReply(client, rec, rec.replicas[k - 1]))]
  }

  lemma HealthyUpToStep(client: Client, rec: PartitionRecord, k: nat)
    requires k < |rec.replicas|
    ensures HealthyUpTo(client, rec, k + 1)
        == (HealthyUpTo(client, rec, k) && ReplicaHealthy(rec, ReplicaReply(client, rec, rec.replicas[k])))
  {
  }

  /** The summary row and, when a master-side condition fails, the banner. */
  function ReportHead(rec: PartitionRecord): seq<Row>
  {
    [Summary(rec)] + (if MasterHealthy(rec) then [] else [MasterUnhealthy])
  }

  function PartitionRows(client: Client, rec: PartitionRecord): seq<Row>
  {
    ReportHead(rec) + ReplicaRows(client, rec, |rec.replicas|)
  }

  /** The three results of `checkMetaPartition`. */
  datatype Verdict = Verdict(report: seq<Row>, healthy: bool, err: Option<string>)

  /**
   * The reference verdict. When the master lookup fails the report stays empty
   * (the "not found" text goes to a builder that is never copied out) and the
   * flag keeps its initial value.
   */
  function Diagnose(client: Client, pid: uint64): Verdict
  {
    match client.getMetaPartition(pid)
    case Err(e) => Verdict([], true, Some(e))
    case Ok(rec) => Verdict(PartitionRows(client, rec), PartitionHealthy(client, rec), None)
  }

  /** `checkMetaPartition`: builds the report row by row and clears the flag on every violated condition. */
  method CheckMetaPartition(pid: uint64, client: Client) returns (outPut: seq<Row>, isHealthy: bool, err: Option<string>)
    ensures outPut == Diagnose(client, pid).report
    ensures isHealthy == Diagnose(client, pid).healthy
    ensures err == Diagnose(client, pid).err
  {
    isHealthy := true;
    var lookup := client.getMetaPartition(pid);
    if lookup.Err? {
      outPut, err := [], Some(lookup.msg);
      return;
    }
    err := None;
    var partition := lookup.value;
    var sb := [Summary(partition)];
    var hosts := SortStrings(partition.hosts);
    if |partition.missNodes| > 0 || partition.status == -1 || |hosts| != partition.replicaNum {
      sb := sb + [MasterUnhealthy];
      isHealthy := false;
    }
    ghost var head := sb;
    assert head == ReportHead(partition);
    var i := 0;
    while i < |partition.replicas|
      invariant 0 <= i <= |partition.replicas|
      invariant sb == head + ReplicaRows(client, partition, i)
      invariant isHealthy == HealthyUpTo(client, partition, i)
    {
      var r := partition.replicas[i];
      var addr := StripPort(r.addr);
      var mnPartition := client.metaNodeGetPartition(addr, partition.partitionId);
      HealthyUpToStep(client, partition, i);
      ghost var row := ReplicaRow(partition, r, ReplicaReply(client, partition, r));
      AppendAssoc(head, ReplicaRows(client, partition, i), [row]);
      if mnPartition.Err? {
        assert row == QueryFailed(r.addr, partition.replicaNum, mnPartition.msg);
        sb := sb + [QueryFailed(r.addr, partition.replicaNum, mnPartition.msg)];
        isHealthy := false;
      } else {
        var peerStrings := SortStrings(PeerAddrs(mnPartition.value));
        assert row == PeerList(r.addr, |peerStrings|, partition.replicaNum, peerStrings);
        sb := sb + [PeerList(r.addr, |peerStrings|, partition.replicaNum, peerStrings)];
        if peerStrings != hosts {
          isHealthy := false;
        }
        if |peerStrings| != partition.replicaNum {
          isHealthy := false;
        }
      }
      i := i + 1;
    }
    outPut := sb;
  }

  lemma {:induction false} ReplicaRowsAt(client: Client, rec: PartitionRecord, k: nat)
    requires k <= |rec.replicas|
    ensures |ReplicaRows(client, rec, k)| == k
    ensures forall j :: 0 <= j < k ==>
      ReplicaRows(client, rec, k)[j] == ReplicaRow(rec, rec.replicas[j], ReplicaReply(client, rec, rec.replicas[j]))
  {
    if k > 0 {
      ReplicaRowsAt(client, rec, k - 1);
    }
  }

  /**
   * The report's layout: the summary row, then the banner when a master-side
   * condition fails, then one row per replica in the record's order, each
   * built from that replica's own reply.
   */
  lemma ReportLayout(client: Client, pid: uint64)
    requires client.getMetaPartition(pid).Ok?
    ensures var rec := client.getMetaPartition(pid).value;
            var rows := Diagnose(client, pid).report;
            var head := if MasterHealthy(rec) then 1 else 2;
            && |rows| == head + |rec.replicas|
            && rows[0] == Summary(rec)
            && (!MasterHealthy(rec) ==> rows[1] == MasterUnhealthy)
            && forall k :: 0 <= k < |rec.replicas| ==>
                 rows[head + k] == ReplicaRow(rec, rec.replicas[k], ReplicaReply(client, rec, rec.replicas[k]))
  {
    var rec := client.getMetaPartition(pid).value;
    var tail := ReplicaRows(client, rec, |rec.replicas|);
    ReplicaRowsAt(client, rec, |rec.replicas|);
    var rows := Diagnose(client, pid).report;
    var head := ReportHead(rec);
    assert rows == head + tail;
    forall k | 0 <= k < |rec.replicas|
      ensures rows[|head| + k] == ReplicaRow(rec, rec.replicas[k], ReplicaReply(client, rec, rec.replicas[k]))
    {
      assert rows[|head| + k] == tail[k];
    }
  }

  /** The banner appears in the report exactly when a master-side condition fails. */
  lemma BannerIffMasterUnhealthy(client: Client, pid: uint64)
    requires client.getMetaPartition(pid).Ok?
    ensures var rec := client.getMetaPartition(pid).value;
            MasterUnhealthy in Diagnose(client, pid).report <==> !MasterHealthy(rec)
  {
    var rec := client.getMetaPartition(pid).value;
    ReplicaRowsAt(client, rec, |rec.replicas|);
    var tail := ReplicaRows(client, rec, |rec.replicas|);
    assert MasterUnhealthy !in tail;
  }

  /**
   * A replica row that shows why the partition is unhealthy: the query failed,
   * or the peers shown differ from the sorted hosts, or their count from the
   * replica number.
   */
  predicate ShowsFault(rec: PartitionRecord, row: Row)
  {
    || row.QueryFailed?
    || (row.PeerList? && (row.peers != SortStrings(rec.hosts) || row.peerCount != rec.replicaNum))
  }

  lemma ReplicaRowShowsFault(rec: PartitionRecord, r: Replica, reply: Result<seq<Peer>>)
    ensures ShowsFault(rec, ReplicaRow(rec, r, reply)) <==> !ReplicaHealthy(rec, reply)
  {
  }

  /** A fault on the master side or in one replica's reply shows in the report. */
  lemma FaultShowsInReport(client: Client, pid: uint64)
    requires client.getMetaPartition(pid).Ok?
    requires !Diagnose(client, pid).healthy
    ensures var rec := client.getMetaPartition(pid).value;
            var rows := Diagnose(client, pid).report;
            MasterUnhealthy in rows || exists k :: 0 <= k < |rows| && ShowsFault(rec, rows[k])
  {
    var rec := client.getMetaPartition(pid).value;
    BannerIffMasterUnhealthy(client, pid);
    if MasterHealthy(rec) {
      var j :| 0 <= j < |rec.replicas| && !ReplicaHealthy(rec, ReplicaReply(client, rec, rec.replicas[j]));
      ReportLayout(client, pid);
      ReplicaRowShowsFault(rec, rec.replicas[j], ReplicaReply(client, rec, rec.replicas[j]));
      assert ShowsFault(rec, Diagnose(client, pid).report[1 + j]);
    }
  }

  /** A faulty row of the report comes from a replica whose check fails. */
  lemma ReportedFaultIsReal(client: Client, pid: uint64, k: nat)
    requires client.getMetaPartition(pid).Ok?
    requires var rec := client.getMetaPartition(pid).value;
             k < |Diagnose(client, pid).report| && ShowsFault(rec, Diagnose(client, pid).report[k])
    ensures !Diagnose(client, pid).healthy
  {
    var rec := client.getMetaPartition(pid).value;
    var head := if MasterHealthy(rec) then 1 else 2;
    ReportLayout(client, pid);
    if MasterHealthy(rec) {
      var j := k - head;
      ReplicaRowShowsFault(rec, rec.replicas[j], ReplicaReply(client, rec, rec.replicas[j]));
    }
  }

  /**
   * The violated condition can be read off the report: a partition whose
   * record was found is unhealthy exactly when its report carries the banner
   * or a replica row that shows a fault.
   */
  lemma ReportExplainsVerdict(client: Client, pid: uint64)
    requires client.getMetaPartition(pid).Ok?
    ensures var rec := client.getMetaPartition(pid).value;
            var rows := Diagnose(client, pid).report;
            (!Diagnose(client, pid).healthy)
              <==> (MasterUnhealthy in rows || exists k :: 0 <= k < |rows| && ShowsFault(rec, rows[k]))
  {
    var rec := client.getMetaPartition(pid).value;
    var rows := Diagnose(client, pid).report;
    BannerIffMasterUnhealthy(client, pid);
    if !Diagnose(client, pid).healthy {
      FaultShowsInReport(client, pid);
    }
    if k :| 0 <= k < |rows| && ShowsFault(rec, rows[k]) {
      ReportedFaultIsReal(client, pid, k);
    }
  }

  /**
   * The verdict is healthy exactly when the lookup failed (the flag keeps its
   * initial value) or every master-side condition holds and every replica
   * answered with as many peers as replicas and with the same addresses as the
   * master's hosts, in any order.
   */
  lemma HealthyIffViewsAgree(client: Client, pid: uint64)
    ensures Diagnose(client, pid).healthy <==>
      (client.getMetaPartition(pid).Ok? ==>
        var rec := client.getMetaPartition(pid).value;
        && |rec.missNodes| == 0
        && rec.status != -1
        && |rec.hosts| == rec.replicaNum
        && forall i :: 0 <= i < |rec.replicas| ==>
             var reply := client.metaNodeGetPartition(StripPort(rec.replicas[i].addr), rec.partitionId);
             && reply.Ok?
             && multiset(PeerAddrs(reply.value)) == multiset(rec.hosts)
             && |reply.value| == rec.replicaNum)
  {
    if client.getMetaPartition(pid).Ok? {
      var rec := client.getMetaPartition(pid).value;
      forall i | 0 <= i < |rec.replicas|
        ensures ReplicaHealthy(rec, ReplicaReply(client, rec, rec.replicas[i])) <==>
          var reply := client.metaNodeGetPartition(StripPort(rec.replicas[i].addr), rec.partitionId);
          && reply.Ok?
          && multiset(PeerAddrs(reply.value)) == multiset(rec.hosts)
          && |reply.value| == rec.replicaNum
      {
        var reply := ReplicaReply(client, rec, rec.replicas[i]);
        if reply.Ok? {
          SortedEqualIffSameMultiset(PeerAddrs(reply.value), rec.hosts);
        }
      }
    }
  }

  /**
   * A replica that cannot be queried marks the partition unhealthy and gets a
   * "nil/<replicaNum>" row with the error, and the replicas after it still get
   * their rows.
   */
  lemma FailedQueryIsReported(client: Client, pid: uint64, i: nat)
    requires client.getMetaPartition(pid).Ok?
    requires var rec := client.getMetaPartition(pid).value;
             i < |rec.replicas| && ReplicaReply(client, rec, rec.replicas[i]).Err?
    ensures var rec := client.getMetaPartition(pid).value;
            var d := Diagnose(client, pid);
            var head := if MasterHealthy(rec) then 1 else 2;
            && !d.healthy
            && |d.report| == head + |rec.replicas|
            && d.report[head + i] == QueryFailed(rec.replicas[i].addr, rec.replicaNum,
                                                 ReplicaReply(client, rec, rec.replicas[i]).msg)
  {
    ReportLayout(client, pid);
  }

  /** A failed master lookup leaves the report empty and the flag at its initial `true`. */
  lemma LookupFailureKeepsDefaults(client: Client, pid: uint64)
    requires client.getMetaPartition(pid).Err?
    ensures Diagnose(client, pid) == Verdict([], true, Some(client.getMetaPartition(pid).msg))
  {
  }
}
