/**
 * The records the tool reads from the control plane (the master) and from the
 * meta nodes, reduced to the fields the health check reads, and the client
 * through which it reads them.
 */
module Proto {
  import opened Wrappers

  /** Partition IDs are Go `uint64`. */
  type uint64 = x: int | 0 <= x < 0x1_0000_0000_0000_0000

  /** One replica of a meta partition as the master records it; only its address is read. */
  datatype Replica = Replica(addr: string)

  /** The master's record of a meta partition (`proto.MetaPartitionInfo`). */
  datatype PartitionRecord = PartitionRecord(
    partitionId: uint64,
    replicaNum: nat,
    status: int,               // -1 means "no leader"
    hosts: seq<string>,
    missNodes: map<string, int>,
    replicas: seq<Replica>)

  /** One member of a meta node's local view of a partition. */
  datatype Peer = Peer(id: uint64, addr: string)

  /** A volume as `ListVols` returns it. */
  datatype VolInfo = VolInfo(name: string, owner: string)

  /** A volume's view; only the IDs of its meta partitions are read. */
  datatype VolView = VolView(metaPartitionIds: seq<uint64>)

  /** The master's classification of meta partitions (`proto.MetaPartitionDiagnosis`). */
  datatype PartitionDiagnosis = PartitionDiagnosis(
    corruptIds: seq<uint64>,
    lackReplicaIds: seq<uint64>)

  /**
   * The master client, passed explicitly to every operation. Each remote call
   * is a function of its arguments: what the cluster answers is an input of
   * the model, not something it computes.
   */
  datatype Client = Client(
    getMetaPartition: uint64 -> Result<PartitionRecord>,
    metaNodeGetPartition: (string, uint64) -> Result<seq<Peer>>,
    listVols: Result<seq<VolInfo>>,
    getVolume: (string, string) -> Result<VolView>)

  /** The peer addresses of a node's reply, in the node's order. */
  function PeerAddrs(peers: seq<Peer>): seq<string>
  {
    seq(|peers|, i requires 0 <= i < |peers| => peers[i].addr)
  }
}
