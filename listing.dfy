/**
 * The default `check` listing: the partitions the master classifies as
 * corrupt and as lacking replicas, each list sorted by ID, fetched one by one.
 * The first fetch that fails ends the whole command.
 */
module Listing {
  import opened Wrappers
  import opened Proto
  import opened Sorting
  import opened Report
  import opened Diagnosis
  import opened Seqs

  /** The corrupt section's rows for `pids`: one per partition, up to and including the first failed fetch. */
  function CorruptLines(client: Client, pids: seq<uint64>): seq<Line>
  {
    if pids == [] then []
    else
      match client.getMetaPartition(pids[0])
      case Err(e) => [PartitionNotFound(e)]
      case Ok(rec) => [RowLine(Summary(rec))] + CorruptLines(client, pids[1..])
  }

  /** The listing row of replica `r`: its peer count and sorted peers, or "no data". */
  function ListingRow(rec: PartitionRecord, r: Replica, reply: Result<seq<Peer>>): Line
  {
    match reply
    case Err(_) => RowLine(NoData(r.addr, rec.replicaNum))
    case Ok(peers) => RowLine(PeerList(r.addr, |peers|, rec.replicaNum, SortStrings(PeerAddrs(peers))))
  }

  /** The listing rows of the first `k` replicas. */
  function ListingRows(client: Client, rec: PartitionRecord, k: nat): seq<Line>
    requires k <= |rec.replicas|
  {
    if k == 0 then []
    else ListingRows(client, rec, k - 1) + [ListingRow(rec, rec.replicas[k - 1], ReplicaReply(client, rec, rec.replicas[k - 1]))]
  }

  /** The lines for one fetched lack-replica partition. */
  function LackBlock(client: Client, rec: PartitionRecord): seq<Line>
  {
    [RowLine(Summary(rec))] + ListingRows(client, rec, |rec.replicas|) + [Separator]
  }

  /** The lack-replica section for `pids`, up to and including the first failed fetch. */
  function LackLines(client: Client, pids: seq<uint64>): seq<Line>
  {
    if pids == [] then []
    else
      match client.getMetaPartition(pids[0])
      case Err(e) => [PartitionNotFound(e)]
      case Ok(rec) => LackBlock(client, rec) + LackLines(client, pids[1..])
  }

  predicate AllFound(client: Client, pids: seq<uint64>)
  {
    forall k :: 0 <= k < |pids| ==> client.getMetaPartition(pids[k]).Ok?
  }

  /** The reference listing: the lack-replica section appears only when every corrupt partition was fetched. */
  function DefaultListing(client: Client, diagnosis: PartitionDiagnosis): seq<Line>
  {
    var corrupt := SortIds(diagnosis.corruptIds);
    [SectionHeader(CorruptPartitions)] + CorruptLines(client, corrupt)
    + if AllFound(client, corrupt)
      then [SectionHeader(LackReplicas)] + LackLines(client, SortIds(diagnosis.lackReplicaIds))
      else []
  }

  /** The replica rows of one lack-replica partition. */
  method ListReplicas(client: Client, partition: PartitionRecord) returns (lines: seq<Line>)
    ensures lines == ListingRows(client, partition, |partition.replicas|)
  {
    lines := [];
    var j := 0;
    while j < |partition.replicas|
      invariant 0 <= j <= |partition.replicas|
      invariant lines == ListingRows(client, partition, j)
    {
      var r := partition.replicas[j];
      var addr := StripPort(r.addr);
      var mnPartition := client.metaNodeGetPartition(addr, partition.partitionId);
      if mnPartition.Err? {
        lines := lines + [RowLine(NoData(r.addr, partition.replicaNum))];
      } else {
        var mnHosts := SortStrings(PeerAddrs(mnPartition.value));
        lines := lines + [RowLine(PeerList(r.addr, |mnPartition.value|, partition.replicaNum, mnHosts))];
      }
      j := j + 1;
    }
  }

  /** The corrupt and lack-replica listings of the `check` command without `--all`. */
  method ListDiagnosedPartitions(client: Client, diagnosis: PartitionDiagnosis) returns (out: seq<Line>)
    ensures out == DefaultListing(client, diagnosis)
  {
    var corrupt := SortIds(diagnosis.corruptIds);
    out := [SectionHeader(CorruptPartitions)];
    var i := 0;
    while i < |corrupt|
      invariant 0 <= i <= |corrupt|
      invariant out + CorruptLines(client, corrupt[i..]) == [SectionHeader(CorruptPartitions)] + CorruptLines(client, corrupt)
      invariant AllFound(client, corrupt[..i])
    {
      assert corrupt[i..][1..] == corrupt[i + 1..];
      var partition := client.getMetaPartition(corrupt[i]);
      if partition.Err? {
        out := out + [PartitionNotFound(partition.msg)];
        assert !AllFound(client, corrupt);
        assert DefaultListing(client, diagnosis) == [SectionHeader(CorruptPartitions)] + CorruptLines(client, corrupt) + [];
        return;
      }
      AppendAssoc(out, [RowLine(Summary(partition.value))], CorruptLines(client, corrupt[i + 1..]));
      out := out + [RowLine(Summary(partition.value))];
      assert corrupt[..i + 1] == corrupt[..i] + [corrupt[i]];
      i := i + 1;
    }
    assert corrupt[i..] == [] && corrupt[..i] == corrupt;
    assert out == [SectionHeader(CorruptPartitions)] + CorruptLines(client, corrupt);
    out := out + [SectionHeader(LackReplicas)];
    ghost var prefix := out;
    var lack := SortIds(diagnosis.lackReplicaIds);
    i := 0;
    while i < |lack|
      invariant 0 <= i <= |lack|
      invariant out + LackLines(client, lack[i..]) == prefix + LackLines(client, lack)
    {
      assert lack[i..][1..] == lack[i + 1..];
      var partition := client.getMetaPartition(lack[i]);
      if partition.Err? {
        out := out + [PartitionNotFound(partition.msg)];
        AppendAssoc([SectionHeader(CorruptPartitions)] + CorruptLines(client, corrupt), [SectionHeader(LackReplicas)], LackLines(client, lack));
        return;
      }
      var rows := ListReplicas(client, partition.value);
      AppendAssoc(out, LackBlock(client, partition.value), LackLines(client, lack[i + 1..]));
      out := out + [RowLine(Summary(partition.value))] + rows + [Separator];
      i := i + 1;
    }
    assert lack[i..] == [];
    assert out == prefix + LackLines(client, lack);
    AppendAssoc([SectionHeader(CorruptPartitions)] + CorruptLines(client, corrupt), [SectionHeader(LackReplicas)], LackLines(client, lack));
  }

  /** The number of leading IDs of `pids` whose fetch succeeds. */
  function LeadingFound(client: Client, pids: seq<uint64>): (n: nat)
    ensures n <= |pids|
    ensures forall k :: 0 <= k < n ==> client.getMetaPartition(pids[k]).Ok?
    ensures n < |pids| ==> client.getMetaPartition(pids[n]).Err?
  {
    if pids == [] || client.getMetaPartition(pids[0]).Err? then 0
    else 1 + LeadingFound(client, pids[1..])
  }

  /**
   * The corrupt section visits `pids` in order: a row for each partition
   * before the first failed fetch, then that failure's notice, then nothing.
   */
  lemma {:induction false} CorruptLinesShape(client: Client, pids: seq<uint64>)
    ensures var n := LeadingFound(client, pids);
            var lines := CorruptLines(client, pids);
            && |lines| == (if n < |pids| then n + 1 else n)
            && (forall k :: 0 <= k < n ==> lines[k] == RowLine(Summary(client.getMetaPartition(pids[k]).value)))
            && (n < |pids| ==> lines[n] == PartitionNotFound(client.getMetaPartition(pids[n]).msg))
  {
    if pids != [] && client.getMetaPartition(pids[0]).Ok? {
      CorruptLinesShape(client, pids[1..]);
    }
  }

  /** A failed fetch ends the default listing with its notice, before the lack-replica section. */
  lemma FailedCorruptFetchEndsListing(client: Client, diagnosis: PartitionDiagnosis)
    requires !AllFound(client, SortIds(diagnosis.corruptIds))
    ensures var lines := DefaultListing(client, diagnosis);
            && lines[|lines| - 1].PartitionNotFound?
            && SectionHeader(LackReplicas) !in lines
  {
    var corrupt := SortIds(diagnosis.corruptIds);
    CorruptLinesShape(client, corrupt);
    var lines := DefaultListing(client, diagnosis);
    var n := LeadingFound(client, corrupt);
    assert lines == [SectionHeader(CorruptPartitions)] + CorruptLines(client, corrupt);
    assert n < |corrupt|;
    forall k | 0 <= k < |lines| ensures lines[k] != SectionHeader(LackReplicas) {
      if k > 0 {
        assert lines[k] == CorruptLines(client, corrupt)[k - 1];
      }
    }
  }

  /**
   * The corrupt section lists the corrupt IDs in ascending order, whatever
   * order the master gave them in: its k-th row is the record of the k-th
   * smallest ID.
   */
  lemma CorruptListingAscending(client: Client, diagnosis: PartitionDiagnosis)
    requires AllFound(client, SortIds(diagnosis.corruptIds))
    ensures var ids := SortIds(diagnosis.corruptIds);
            var lines := DefaultListing(client, diagnosis);
            && IdsSorted(ids)
            && multiset(ids) == multiset(diagnosis.corruptIds)
            && |lines| > |ids| + 1
            && lines[0] == SectionHeader(CorruptPartitions)
            && (forall k :: 0 <= k < |ids| ==> lines[k + 1] == RowLine(Summary(client.getMetaPartition(ids[k]).value)))
            && lines[|ids| + 1] == SectionHeader(LackReplicas)
  {
    var ids := SortIds(diagnosis.corruptIds);
    SortIdsSpec(diagnosis.corruptIds);
    CorruptLinesShape(client, ids);
    assert LeadingFound(client, ids) == |ids|;
  }

  /** After the first failed fetch in the lack-replica list nothing more is fetched or written. */
  lemma {:induction false} LackLinesStopAtFailure(client: Client, pids: seq<uint64>)
    requires LeadingFound(client, pids) < |pids|
    ensures var n := LeadingFound(client, pids);
            LackLines(client, pids)
              == LackLines(client, pids[..n]) + [PartitionNotFound(client.getMetaPartition(pids[n]).msg)]
  {
    var n := LeadingFound(client, pids);
    if n > 0 {
      LackLinesStopAtFailure(client, pids[1..]);
      assert pids[1..][..n - 1] == pids[..n][1..];
      assert pids[1..][n - 1] == pids[n];
      var rec := client.getMetaPartition(pids[0]).value;
      AppendAssoc(LackBlock(client, rec), LackLines(client, pids[..n][1..]),
                  [PartitionNotFound(client.getMetaPartition(pids[n]).msg)]);
    } else {
      assert pids[..0] == [];
    }
  }

  lemma {:induction false} ListingRowsAt(client: Client, rec: PartitionRecord, k: nat)
    requires k <= |rec.replicas|
    ensures |ListingRows(client, rec, k)| == k
    ensures forall j :: 0 <= j < k ==>
      ListingRows(client, rec, k)[j] == ListingRow(rec, rec.replicas[j], ReplicaReply(client, rec, rec.replicas[j]))
  {
    if k > 0 {
      ListingRowsAt(client, rec, k - 1);
    }
  }

  /**
   * A fetched lack-replica partition gets its row, one row per replica in the
   * record's order ("0/<replicaNum>, no data" for a replica that cannot be
   * queried, its peer count and sorted peers otherwise), then a separator.
   */
  lemma LackBlockLayout(client: Client, rec: PartitionRecord)
    ensures var block := LackBlock(client, rec);
            && |block| == |rec.replicas| + 2
            && block[0] == RowLine(Summary(rec))
            && block[|block| - 1] == Separator
            && forall j :: 0 <= j < |rec.replicas| ==>
                 var reply := ReplicaReply(client, rec, rec.replicas[j]);
                 block[j + 1] == if reply.Err?
                   then RowLine(NoData(rec.replicas[j].addr, rec.replicaNum))
                   else RowLine(PeerList(rec.replicas[j].addr, |reply.value|, rec.replicaNum,
                                         SortStrings(PeerAddrs(reply.value))))
  {
    var rows := ListingRows(client, rec, |rec.replicas|);
    ListingRowsAt(client, rec, |rec.replicas|);
    var block := LackBlock(client, rec);
    forall j | 0 <= j < |rec.replicas|
      ensures block[j + 1] == ListingRow(rec, rec.replicas[j], ReplicaReply(client, rec, rec.replicas[j]))
    {
      assert block[j + 1] == rows[j];
    }
  }

  /** The partition records of the summary rows among `lines`, in output order. */
  function SummaryRecords(lines: seq<Line>): seq<PartitionRecord>
  {
    if lines == [] then []
    else (if lines[0].RowLine? && lines[0].row.Summary? then [lines[0].row.info] else [])
         + SummaryRecords(lines[1..])
  }

  lemma {:induction false} SummaryRecordsAppend(a: seq<Line>, b: seq<Line>)
    ensures SummaryRecords(a + b) == SummaryRecords(a) + SummaryRecords(b)
  {
    if a != [] {
      assert (a + b)[1..] == a[1..] + b;
      SummaryRecordsAppend(a[1..], b);
      AppendAssoc(if a[0].RowLine? && a[0].row.Summary? then [a[0].row.info] else [],
                  SummaryRecords(a[1..]), SummaryRecords(b));
    } else {
      assert a + b == b;
    }
  }

  lemma {:induction false} ListingRowsHaveNoSummary(client: Client, rec: PartitionRecord, k: nat)
    requires k <= |rec.replicas|
    ensures SummaryRecords(ListingRows(client, rec, k)) == []
  {
    if k > 0 {
      ListingRowsHaveNoSummary(client, rec, k - 1);
      var last := ListingRow(rec, rec.replicas[k - 1], ReplicaReply(client, rec, rec.replicas[k - 1]));
      SummaryRecordsAppend(ListingRows(client, rec, k - 1), [last]);
      assert SummaryRecords([last]) == [];
    }
  }

  /** A lack-replica block holds exactly one summary row: its own partition's. */
  lemma LackBlockSummary(client: Client, rec: PartitionRecord)
    ensures SummaryRecords(LackBlock(client, rec)) == [rec]
  {
    var rows := ListingRows(client, rec, |rec.replicas|);
    ListingRowsHaveNoSummary(client, rec, |rec.replicas|);
    SummaryRecordsAppend([RowLine(Summary(rec))], rows);
    SummaryRecordsAppend([RowLine(Summary(rec))] + rows, [Separator]);
    assert SummaryRecords([RowLine(Summary(rec))]) == [rec];
    assert SummaryRecords([Separator]) == [];
  }

  /**
   * The lack-replica section shows the records of the leading IDs whose fetch
   * succeeds, one summary row each and in the order of `pids`.
   */
  lemma {:induction false} LackSummaries(client: Client, pids: seq<uint64>)
    ensures var n := LeadingFound(client, pids);
            var recs := SummaryRecords(LackLines(client, pids));
            && |recs| == n
            && forall k :: 0 <= k < n ==> recs[k] == client.getMetaPartition(pids[k]).value
  {
    if pids != [] {
      match client.getMetaPartition(pids[0])
      case Err(e) =>
        assert SummaryRecords([PartitionNotFound(e)]) == [];
      case Ok(rec) =>
        LackSummaries(client, pids[1..]);
        LackBlockSummary(client, rec);
        SummaryRecordsAppend(LackBlock(client, rec), LackLines(client, pids[1..]));
        var recs := SummaryRecords(LackLines(client, pids));
        var rest := SummaryRecords(LackLines(client, pids[1..]));
        assert recs == [rec] + rest;
        forall k | 0 < k < LeadingFound(client, pids)
          ensures recs[k] == client.getMetaPartition(pids[k]).value
        {
          assert recs[k] == rest[k - 1];
          assert pids[1..][k - 1] == pids[k];
        }
    }
  }

  /**
   * When every corrupt partition was fetched, the lack-replica header follows
   * the corrupt section and the lack-replica IDs are visited in ascending
   * order, whatever order the master gave them in: the section's summary rows
   * are the records of the leading fetched IDs of the sorted list.
   */
  lemma LackListingAscending(client: Client, diagnosis: PartitionDiagnosis)
    requires AllFound(client, SortIds(diagnosis.corruptIds))
    ensures var ids := SortIds(diagnosis.lackReplicaIds);
            var n := LeadingFound(client, ids);
            var recs := SummaryRecords(LackLines(client, ids));
            && IdsSorted(ids)
            && multiset(ids) == multiset(diagnosis.lackReplicaIds)
            && DefaultListing(client, diagnosis)
               == [SectionHeader(CorruptPartitions)] + CorruptLines(client, SortIds(diagnosis.corruptIds))
                  + [SectionHeader(LackReplicas)] + LackLines(client, ids)
            && |recs| == n
            && forall k :: 0 <= k < n ==> recs[k] == client.getMetaPartition(ids[k]).value
  {
    var ids := SortIds(diagnosis.lackReplicaIds);
    SortIdsSpec(diagnosis.lackReplicaIds);
    LackSummaries(client, ids);
    AppendAssoc([SectionHeader(CorruptPartitions)] + CorruptLines(client, SortIds(diagnosis.corruptIds)),
                [SectionHeader(LackReplicas)], LackLines(client, ids));
  }
}
