/**
 * What the health check writes, as structured values. Row and line formats
 * and terminal colours belong to a formatting layer that is not modelled.
 */
module Report {
  import opened Proto

  /** One row of a partition's report. */
  datatype Row =
    | Summary(info: PartitionRecord)
      // the partition's info row, written before its hosts are sorted
    | MasterUnhealthy
      // "unhealthy according to the report message from master"
    | QueryFailed(addr: string, replicaNum: nat, error: string)
      // a replica that could not be queried: "nil/<replicaNum>" and the error
    | NoData(addr: string, replicaNum: nat)
      // the same case in the lack-replica listing: "0/<replicaNum>", "no data"
    | PeerList(addr: string, peerCount: nat, replicaNum: nat, peers: seq<string>)
      // a replica's "<peerCount>/<replicaNum>" and its sorted peer addresses

  datatype Section = PeerInfoNotValid | CorruptPartitions | LackReplicas

  /** One write to standard output. */
  datatype Line =
    | ErrorText(error: string)
      // an error printed with "%v"
    | SectionHeader(section: Section)
      // a blank line, the section's title and the table header
    | InvalidVol(name: string)
      // "Found an invalid vol: <name>"
    | PartitionReport(pid: uint64, rows: seq<Row>)
      // the report of an unhealthy partition, followed by a separator line
    | PartitionNotFound(error: string)
      // "Partition not found, err:[...]"
    | RowLine(row: Row)
    | Separator
}
