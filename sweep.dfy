/**
 * `checkAllMetaPartitions`: every volume in turn, every meta partition of a
 * volume in ascending ID order, and a report only for the unhealthy ones.
 * The source diagnoses the partitions of one volume concurrently and joins
 * them before the next volume; the model runs them one after another.
 */
module Sweep {
  import opened Wrappers
  import opened Proto
  import opened Sorting
  import opened Report
  import opened Diagnosis
  import opened Seqs

  /** The lines for the partitions `pids`, in that order: a report for each unhealthy one. */
  function PartitionLines(client: Client, pids: seq<uint64>): seq<Line>
  {
    if pids == [] then []
    else
      var d := Diagnose(client, pids[0]);
      (if d.healthy then [] else [PartitionReport(pids[0], d.report)]) + PartitionLines(client, pids[1..])
  }

  /** The lines for one volume: a notice if its view cannot be fetched, else its partitions sorted by ID. */
  function VolumeLines(client: Client, vol: VolInfo): seq<Line>
  {
    match client.getVolume(vol.name, vol.owner)
    case Err(_) => [InvalidVol(vol.name)]
    case Ok(view) => PartitionLines(client, SortIds(view.metaPartitionIds))
  }

  function VolumesLines(client: Client, vols: seq<VolInfo>): seq<Line>
  {
    if vols == [] then [] else VolumeLines(client, vols[0]) + VolumesLines(client, vols[1..])
  }

  /**
   * Each volume's `GetVolume` assigns the function's named `err` result, so
   * what is returned is the error of the last volume's fetch, or nothing.
   */
  function LastVolumeError(client: Client, vols: seq<VolInfo>): Option<string>
  {
    if vols == [] then None
    else
      var last := vols[|vols| - 1];
      match client.getVolume(last.name, last.owner)
      case Err(e) => Some(e)
      case Ok(_) => None
  }

  function SweepLines(client: Client): seq<Line>
  {
    match client.listVols
    case Err(e) => [ErrorText(e)]
    case Ok(vols) => [SectionHeader(PeerInfoNotValid)] + VolumesLines(client, vols)
  }

  function SweepError(client: Client): Option<string>
  {
    match client.listVols
    case Err(e) => Some(e)
    case Ok(vols) => LastVolumeError(client, vols)
  }

  /** The pass from position `j` on: the line for `pids[j]`, then the pass from `j + 1`. */
  lemma PartitionLinesStep(client: Client, pids: seq<uint64>, j: nat)
    requires j < |pids|
    ensures var d := Diagnose(client, pids[j]);
            PartitionLines(client, pids[j..])
              == (if d.healthy then [] else [PartitionReport(pids[j], d.report)]) + PartitionLines(client, pids[j + 1..])
  {
    assert pids[j..][1..] == pids[j + 1..];
  }

  /**
   * One volume's batch: sort its partitions by ID and diagnose each, keeping
   * the report of every unhealthy one.
   */
  method CheckVolumePartitions(client: Client, view: VolView) returns (lines: seq<Line>)
    ensures lines == PartitionLines(client, SortIds(view.metaPartitionIds))
  {
    var pids := SortIds(view.metaPartitionIds);
    lines := [];
    var j := 0;
    while j < |pids|
      invariant 0 <= j <= |pids|
      invariant lines + PartitionLines(client, pids[j..]) == PartitionLines(client, pids)
    {
      var outPut, isHealthy, _ := CheckMetaPartition(pids[j], client);
      ghost var prev, later := lines, PartitionLines(client, pids[j + 1..]);
      ghost var step: seq<Line> := if isHealthy then [] else [PartitionReport(pids[j], outPut)];
      PartitionLinesStep(client, pids, j);
      assert PartitionLines(client, pids[j..]) == step + later;
      AppendAssoc(prev, step, later);
      if !isHealthy {
        lines := lines + [PartitionReport(pids[j], outPut)];
      }
      assert lines == prev + step;
      assert lines + later == PartitionLines(client, pids);
      j := j + 1;
    }
    assert pids[j..] == [];
  }

  /** `checkAllMetaPartitions`, run sequentially. */
  method CheckAllMetaPartitions(client: Client) returns (out: seq<Line>, err: Option<string>)
    ensures out == SweepLines(client)
    ensures err == SweepError(client)
  {
    var listed := client.listVols;
    if listed.Err? {
      out, err := [ErrorText(listed.msg)], Some(listed.msg);
      return;
    }
    err := None;
    var volInfo := listed.value;
    out := [SectionHeader(PeerInfoNotValid)];
    var i := 0;
    while i < |volInfo|
      invariant 0 <= i <= |volInfo|
      invariant out + VolumesLines(client, volInfo[i..]) == SweepLines(client)
      invariant err == LastVolumeError(client, volInfo[..i])
    {
      var vol := volInfo[i];
      assert volInfo[i..][1..] == volInfo[i + 1..];
      assert volInfo[..i + 1][i] == vol;
      AppendAssoc(out, VolumeLines(client, vol), VolumesLines(client, volInfo[i + 1..]));
      var volView := client.getVolume(vol.name, vol.owner);
      if volView.Err? {
        err := Some(volView.msg);
        out := out + [InvalidVol(vol.name)];
      } else {
        err := None;
        var lines := CheckVolumePartitions(client, volView.value);
        out := out + lines;
      }
      i := i + 1;
    }
    assert volInfo[i..] == [];
    assert volInfo[..i] == volInfo;
  }

  /** The pids of the partition reports among `lines`, in output order. */
  function ReportedIds(lines: seq<Line>): seq<uint64>
  {
    if lines == [] then []
    else (if lines[0].PartitionReport? then [lines[0].pid] else []) + ReportedIds(lines[1..])
  }

  /** How many reports for partition `p` the lines hold. */
  function ReportsFor(lines: seq<Line>, p: uint64): nat
  {
    multiset(ReportedIds(lines))[p]
  }

  lemma {:induction false} ReportedIdsAppend(a: seq<Line>, b: seq<Line>)
    ensures ReportedIds(a + b) == ReportedIds(a) + ReportedIds(b)
  {
    if a != [] {
      assert (a + b)[1..] == a[1..] + b;
      ReportedIdsAppend(a[1..], b);
      AppendAssoc(if a[0].PartitionReport? then [a[0].pid] else [], ReportedIds(a[1..]), ReportedIds(b));
    } else {
      assert a + b == b;
    }
  }

  /**
   * Every line of a volume's partition pass is a report, for a partition of
   * the volume whose verdict is unhealthy, carrying that partition's report.
   */
  lemma {:induction false} PartitionLinesOnlyUnhealthy(client: Client, pids: seq<uint64>)
    ensures forall k :: 0 <= k < |PartitionLines(client, pids)| ==>
      var line := PartitionLines(client, pids)[k];
      && line.PartitionReport?
      && line.pid in pids
      && !Diagnose(client, line.pid).healthy
      && line.rows == Diagnose(client, line.pid).report
  {
    if pids != [] {
      PartitionLinesOnlyUnhealthy(client, pids[1..]);
      var d := Diagnose(client, pids[0]);
      var lines := PartitionLines(client, pids);
      var rest := PartitionLines(client, pids[1..]);
      forall k | 0 <= k < |lines|
        ensures lines[k].PartitionReport? && lines[k].pid in pids
          && !Diagnose(client, lines[k].pid).healthy
          && lines[k].rows == Diagnose(client, lines[k].pid).report
      {
        if !d.healthy && k == 0 {
        } else {
          var off := if d.healthy then 0 else 1;
          assert lines[k] == rest[k - off];
          assert rest[k - off].pid in pids[1..];
        }
      }
    }
  }

  /**
   * A pass over the partitions `pids` reports partition `p` once for each
   * time it occurs in `pids` when its verdict is unhealthy, and never when it
   * is healthy.
   */
  lemma {:induction false} PartitionLinesCount(client: Client, pids: seq<uint64>, p: uint64)
    ensures ReportsFor(PartitionLines(client, pids), p)
         == if Diagnose(client, p).healthy then 0 else multiset(pids)[p]
  {
    if pids != [] {
      PartitionLinesCount(client, pids[1..], p);
      var d := Diagnose(client, pids[0]);
      var head: seq<Line> := if d.healthy then [] else [PartitionReport(pids[0], d.report)];
      var rest := PartitionLines(client, pids[1..]);
      assert PartitionLines(client, pids) == head + rest;
      ReportedIdsAppend(head, rest);
      assert ReportedIds(head) == if d.healthy then [] else [pids[0]];
      CountCons(pids[0], d.healthy, p, Diagnose(client, p).healthy, pids[1..], ReportedIds(rest));
      HeadTail(pids);
    }
  }

  /** The counting step of `PartitionLinesCount`, on the reported IDs alone. */
  lemma CountCons(x: uint64, healthyX: bool, p: uint64, healthyP: bool, tail: seq<uint64>, restIds: seq<uint64>)
    requires x == p ==> healthyX == healthyP
    requires multiset(restIds)[p] == if healthyP then 0 else multiset(tail)[p]
    ensures multiset((if healthyX then [] else [x]) + restIds)[p]
         == if healthyP then 0 else multiset([x] + tail)[p]
  {
  }

  lemma {:induction false} ReportedIdsFromPids(client: Client, pids: seq<uint64>)
    ensures multiset(ReportedIds(PartitionLines(client, pids))) <= multiset(pids)
  {
    if pids != [] {
      ReportedIdsFromPids(client, pids[1..]);
      var d := Diagnose(client, pids[0]);
      var head: seq<Line> := if d.healthy then [] else [PartitionReport(pids[0], d.report)];
      var rest := PartitionLines(client, pids[1..]);
      assert PartitionLines(client, pids) == head + rest;
      ReportedIdsAppend(head, rest);
      assert ReportedIds(head) == if d.healthy then [] else [pids[0]];
      SubMultisetCons(pids[0], d.healthy, pids[1..], ReportedIds(rest));
      HeadTail(pids);
    }
  }

  /** The step of `ReportedIdsFromPids`, on the reported IDs alone. */
  lemma SubMultisetCons(x: uint64, healthyX: bool, tail: seq<uint64>, restIds: seq<uint64>)
    requires multiset(restIds) <= multiset(tail)
    ensures multiset((if healthyX then [] else [x]) + restIds) <= multiset([x] + tail)
  {
  }

  /** Reports come out in the order of `pids`, so ascending when `pids` is. */
  lemma {:induction false} PartitionLinesInOrder(client: Client, pids: seq<uint64>)
    requires IdsSorted(pids)
    ensures IdsSorted(ReportedIds(PartitionLines(client, pids)))
  {
    if pids != [] {
      PartitionLinesInOrder(client, pids[1..]);
      ReportedIdsFromPids(client, pids[1..]);
      var d := Diagnose(client, pids[0]);
      var head: seq<Line> := if d.healthy then [] else [PartitionReport(pids[0], d.report)];
      var rest := ReportedIds(PartitionLines(client, pids[1..]));
      ReportedIdsAppend(head, PartitionLines(client, pids[1..]));
      if !d.healthy {
        assert ReportedIds(head) == [pids[0]];
        IdsBound(pids[0], pids[1..], rest);
        IdsSortedCons(pids[0], rest);
      } else {
        assert ReportedIds(head) == [];
      }
    }
  }

  /**
   * Within a volume whose view is fetched, partitions are reported in
   * ascending ID order and each unhealthy partition of the view once per
   * occurrence in the view.
   */
  lemma VolumeReportsSortedAndComplete(client: Client, vol: VolInfo, p: uint64)
    requires client.getVolume(vol.name, vol.owner).Ok?
    ensures var ids := client.getVolume(vol.name, vol.owner).value.metaPartitionIds;
            && IdsSorted(ReportedIds(VolumeLines(client, vol)))
            && ReportsFor(VolumeLines(client, vol), p)
               == if Diagnose(client, p).healthy then 0 else multiset(ids)[p]
  {
    var ids := client.getVolume(vol.name, vol.owner).value.metaPartitionIds;
    SortIdsSpec(ids);
    PartitionLinesInOrder(client, SortIds(ids));
    PartitionLinesCount(client, SortIds(ids), p);
  }

  /** How many times `p` occurs in the views of the volumes that can be fetched. */
  function Occurrences(client: Client, vols: seq<VolInfo>, p: uint64): nat
  {
    if vols == [] then 0
    else
      (match client.getVolume(vols[0].name, vols[0].owner)
       case Err(_) => 0
       case Ok(view) => multiset(view.metaPartitionIds)[p])
      + Occurrences(client, vols[1..], p)
  }

  lemma {:induction false} VolumesLinesCount(client: Client, vols: seq<VolInfo>, p: uint64)
    ensures ReportsFor(VolumesLines(client, vols), p)
         == if Diagnose(client, p).healthy then 0 else Occurrences(client, vols, p)
  {
    if vols != [] {
      VolumesLinesCount(client, vols[1..], p);
      var first, rest := VolumeLines(client, vols[0]), VolumesLines(client, vols[1..]);
      assert VolumesLines(client, vols) == first + rest;
      ReportedIdsAppend(first, rest);
      assert multiset(ReportedIds(first + rest)) == multiset(ReportedIds(first)) + multiset(ReportedIds(rest));
      var view := client.getVolume(vols[0].name, vols[0].owner);
      if view.Ok? {
        VolumeReportsSortedAndComplete(client, vols[0], p);
      }
    }
  }

  /**
   * Over the whole sweep, a partition is reported exactly as often as it
   * occurs in the fetched volume views when its verdict is unhealthy, and
   * never when it is healthy; a failed `ListVols` reports nothing and returns
   * its error.
   */
  lemma SweepReportsEachUnhealthyPartition(client: Client, p: uint64)
    ensures client.listVols.Err? ==>
      SweepLines(client) == [ErrorText(client.listVols.msg)] && SweepError(client) == Some(client.listVols.msg)
    ensures client.listVols.Ok? ==>
      ReportsFor(SweepLines(client), p)
        == if Diagnose(client, p).healthy then 0 else Occurrences(client, client.listVols.value, p)
  {
    if client.listVols.Ok? {
      var vols := client.listVols.value;
      VolumesLinesCount(client, vols, p);
      ReportedIdsAppend([SectionHeader(PeerInfoNotValid)], VolumesLines(client, vols));
    }
  }

  lemma {:induction false} VolumesLinesSplit(client: Client, vols: seq<VolInfo>, i: nat)
    requires i <= |vols|
    ensures VolumesLines(client, vols) == VolumesLines(client, vols[..i]) + VolumesLines(client, vols[i..])
  {
    if i > 0 {
      VolumesLinesSplit(client, vols[1..], i - 1);
      assert vols[..i][1..] == vols[1..][..i - 1];
      assert vols[1..][i - 1..] == vols[i..];
      AppendAssoc(VolumeLines(client, vols[0]), VolumesLines(client, vols[1..][..i - 1]), VolumesLines(client, vols[i..]));
    }
  }

  /**
   * A volume whose view cannot be fetched yields only its notice, and the
   * sweep goes on with the volumes after it.
   */
  lemma InvalidVolumeIsSkipped(client: Client, vols: seq<VolInfo>, i: nat)
    requires i < |vols| && client.getVolume(vols[i].name, vols[i].owner).Err?
    ensures VolumesLines(client, vols)
         == VolumesLines(client, vols[..i]) + [InvalidVol(vols[i].name)] + VolumesLines(client, vols[i + 1..])
  {
    VolumesLinesSplit(client, vols, i);
    assert vols[i..][1..] == vols[i + 1..];
    AppendAssoc(VolumesLines(client, vols[..i]), [InvalidVol(vols[i].name)], VolumesLines(client, vols[i + 1..]));
  }

  /** Every report among `lines` is for an unhealthy partition and carries its report. */
  predicate ReportsAreUnhealthy(client: Client, lines: seq<Line>)
  {
    forall k :: 0 <= k < |lines| && lines[k].PartitionReport? ==>
      !Diagnose(client, lines[k].pid).healthy && lines[k].rows == Diagnose(client, lines[k].pid).report
  }

  lemma ReportsAreUnhealthyAppend(client: Client, a: seq<Line>, b: seq<Line>)
    requires ReportsAreUnhealthy(client, a) && ReportsAreUnhealthy(client, b)
    ensures ReportsAreUnhealthy(client, a + b)
  {
    forall k | 0 <= k < |a + b| && (a + b)[k].PartitionReport?
      ensures !Diagnose(client, (a + b)[k].pid).healthy
           && (a + b)[k].rows == Diagnose(client, (a + b)[k].pid).report
    {
      if k >= |a| {
        assert (a + b)[k] == b[k - |a|];
      }
    }
  }

  lemma {:induction false} VolumesLinesOnlyUnhealthy(client: Client, vols: seq<VolInfo>)
    ensures ReportsAreUnhealthy(client, VolumesLines(client, vols))
  {
    if vols != [] {
      VolumesLinesOnlyUnhealthy(client, vols[1..]);
      var view := client.getVolume(vols[0].name, vols[0].owner);
      if view.Ok? {
        PartitionLinesOnlyUnhealthy(client, SortIds(view.value.metaPartitionIds));
      }
      ReportsAreUnhealthyAppend(client, VolumeLines(client, vols[0]), VolumesLines(client, vols[1..]));
    }
  }

  /** The sweep prints a partition's report only when its verdict is unhealthy. */
  lemma SweepReportsOnlyUnhealthy(client: Client)
    ensures forall k :: 0 <= k < |SweepLines(client)| && SweepLines(client)[k].PartitionReport? ==>
      var pid := SweepLines(client)[k].pid;
      !Diagnose(client, pid).healthy && SweepLines(client)[k].rows == Diagnose(client, pid).report
  {
    if client.listVols.Ok? {
      VolumesLinesOnlyUnhealthy(client, client.listVols.value);
      ReportsAreUnhealthyAppend(client, [SectionHeader(PeerInfoNotValid)], VolumesLines(client, client.listVols.value));
    }
  }

  /**
   * A partition whose record the master cannot find keeps the flag at `true`,
   * so the sweep never reports it, however often its volumes list it.
   */
  lemma MissingPartitionNeverReported(client: Client, p: uint64)
    requires client.getMetaPartition(p).Err?
    ensures ReportsFor(SweepLines(client), p) == 0
  {
    SweepReportsEachUnhealthyPartition(client, p);
    if client.listVols.Err? {
      assert ReportedIds([ErrorText(client.listVols.msg)]) == [];
    }
  }
}
