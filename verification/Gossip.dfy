/**
  The gossip bus of one node (crates/catalyrst-archipelago/src/gossip.rs): a push counter and the last
  batch number accepted from each peer node, both changed in place. Signing and transport are left out.
 */
module Gossip {
  import opened Wrappers
  import opened ClusterModel
  import opened Clusters
  import opened GossipModel

  class GossipBus {
    const nodeId: NodeId
    var seqNo: nat
    var lastSeen: map<NodeId, nat>

    constructor (nodeId: NodeId)
      ensures this.nodeId == nodeId && seqNo == 0 && lastSeen == map[]
    {
      this.nodeId := nodeId;
      seqNo, lastSeen := 0, map[];
    }

    ghost function NodeWith(cluster: Cluster): Node
      reads this, cluster
    {
      Node(cluster.Model(), seqNo, lastSeen)
    }

    method ApplyBatch(cluster: Cluster, batch: Batch) returns (applied: nat)
      requires cluster.Valid()
      modifies this`lastSeen, cluster`peers
      ensures cluster.Valid()
      ensures NodeWith(cluster) == Apply(old(NodeWith(cluster)), batch)
      ensures applied == if batch.seqNo <= SeenFrom(old(lastSeen), batch.from) then 0 else |batch.peers|
    {
      var prev := if batch.from in lastSeen then lastSeen[batch.from] else 0;
      if batch.seqNo <= prev {
        return 0;
      }
      lastSeen := lastSeen[batch.from := batch.seqNo];
      applied := 0;
      for i := 0 to |batch.peers|
        invariant applied == i && lastSeen == old(lastSeen)[batch.from := batch.seqNo]
        invariant cluster.Valid() && cluster.Model() == ApplyPeers(old(cluster.Model()), batch.peers[..i])
      {
        var p := batch.peers[i];
        assert batch.peers[..i + 1][..i] == batch.peers[..i] && batch.peers[..i + 1][i] == p;
        cluster.UpsertAt(p.address, p.parcel, p.realm, p.heartbeat);
        applied := applied + 1;
      }
      assert batch.peers[..|batch.peers|] == batch.peers;
    }

    /** The batch one push sends out, if there is anything to send. */
    method NextBatch(cluster: Cluster) returns (r: Option<Batch>)
      modifies this`seqNo
      ensures if cluster.peers == map[] then r == None && seqNo == old(seqNo)
              else r.Some? && seqNo == old(seqNo) + 1 && r.value.from == nodeId && r.value.seqNo == seqNo
                   && r.value.peers != [] && IsSnapshot(r.value.peers, cluster.Model())
    {
      var snapshot: seq<GossipPeer> := [];
      var todo := cluster.peers.Keys;
      while todo != {}
        invariant todo <= cluster.peers.Keys
        invariant forall i, j | 0 <= i < j < |snapshot| :: snapshot[i].address != snapshot[j].address
        invariant forall g | g in snapshot ::
          g.address in cluster.peers && g.address !in todo && g == Exported(g.address, cluster.peers[g.address])
        invariant forall a | a in cluster.peers && a !in todo :: Exported(a, cluster.peers[a]) in snapshot
      {
        var a :| a in todo;
        snapshot := snapshot + [Exported(a, cluster.peers[a])];
        todo := todo - {a};
      }
      assert cluster.peers.Keys == set g | g in snapshot :: g.address by {
        assert forall a | a in cluster.peers :: Exported(a, cluster.peers[a]).address == a;
      }
      if snapshot == [] {
        return None;
      }
      assert snapshot[0] in snapshot;
      seqNo := seqNo + 1;
      r := Some(Batch(nodeId, seqNo, snapshot));
    }
  }
}
