/**
  Gossip between archipelago nodes (crates/catalyrst-archipelago/src/gossip.rs) as a network of nodes
  whose batches may be delivered in any order, any number of times or never.
  Times are milliseconds; heartbeats travel as whole seconds.
 */
module GossipModel {
  import opened Wrappers
  import opened IslandSearch
  import opened ClusterModel
  import opened Reclustering

  type NodeId = string

  datatype GossipPeer = GossipPeer(address: Address, parcel: Parcel, realm: string, heartbeat: int)

  datatype Batch = Batch(from: NodeId, seqNo: nat, peers: seq<GossipPeer>)

  /** Serialising a timestamp as seconds drops the fraction. */
  function Truncate(t: int): (r: int)
    ensures r <= t < r + 1000 && r % 1000 == 0
  {
    t - t % 1000
  }

  function Exported(a: Address, p: Peer): GossipPeer {
    GossipPeer(a, p.parcel, p.realm, Truncate(p.heartbeat))
  }

  /** `q` lists every peer of `s` once, in any order. */
  ghost predicate IsSnapshot(q: seq<GossipPeer>, s: State) {
    && (forall i, j | 0 <= i < j < |q| :: q[i].address != q[j].address)
    && (forall g | g in q :: g.address in s.peers && g == Exported(g.address, s.peers[g.address]))
    && forall a | a in s.peers :: Exported(a, s.peers[a]) in q
  }

  function ApplyPeers(s: State, q: seq<GossipPeer>): State {
    if q == [] then s else
      var last := q[|q| - 1];
      UpsertPeerAt(ApplyPeers(s, q[..|q| - 1]), last.address, last.parcel, last.realm, last.heartbeat)
  }

  function SeenFrom(lastSeen: map<NodeId, nat>, from: NodeId): nat {
    if from in lastSeen then lastSeen[from] else 0
  }

  datatype Node = Node(cluster: State, seqNo: nat, lastSeen: map<NodeId, nat>)

  /** A batch is applied only if its number is newer than the last one accepted from that node. */
  function Apply(n: Node, b: Batch): Node {
    if b.seqNo <= SeenFrom(n.lastSeen, b.from) then n else
      n.(cluster := ApplyPeers(n.cluster, b.peers), lastSeen := n.lastSeen[b.from := b.seqNo])
  }

  // ----- merging -----

  /** The newest heartbeat `q` carries for `a`, if any. */
  function NewestIn(q: seq<GossipPeer>, a: Address): Option<int> {
    if q == [] then None else
      var before := NewestIn(q[..|q| - 1], a);
      var last := q[|q| - 1];
      if last.address != a then before
      else if before.Some? && before.value > last.heartbeat then before else Some(last.heartbeat)
  }

  function Newer(x: Option<int>, y: Option<int>): Option<int> {
    if x.None? then y else if y.None? then x else if x.value > y.value then x else y
  }

  function HeartbeatOf(s: State, a: Address): Option<int> {
    if a in s.peers then Some(s.peers[a].heartbeat) else None
  }

  /** Applying peers merges heartbeats by maximum, loses nobody and touches no island. */
  lemma {:induction false} ApplyMergesByMaximum(s: State, q: seq<GossipPeer>, a: Address)
    ensures var r := ApplyPeers(s, q);
            && HeartbeatOf(r, a) == Newer(HeartbeatOf(s, a), NewestIn(q, a))
            && (a in s.peers ==> r.peers[a].island == s.peers[a].island)
            && (a in r.peers && a !in s.peers ==> r.peers[a].island == None)
            && r.islands == s.islands && r.minted == s.minted
  {
    if q != [] {
      ApplyMergesByMaximum(s, q[..|q| - 1], a);
    }
  }

  lemma {:induction false} NewestIsCarried(q: seq<GossipPeer>, a: Address)
    ensures NewestIn(q, a).Some? ==> exists g :: g in q && g.address == a && g.heartbeat == NewestIn(q, a).value
    ensures forall g | g in q && g.address == a :: NewestIn(q, a).Some? && g.heartbeat <= NewestIn(q, a).value
  {
    if q != [] {
      NewestIsCarried(q[..|q| - 1], a);
      assert q == q[..|q| - 1] + [q[|q| - 1]];
    }
  }

  lemma {:induction false} ApplyKeeps(s: State, q: seq<GossipPeer>)
    requires Consistent(s)
    ensures Consistent(ApplyPeers(s, q))
    ensures AllListed(s) ==> AllListed(ApplyPeers(s, q))
  {
    if q != [] {
      var init, last := q[..|q| - 1], q[|q| - 1];
      ApplyKeeps(s, init);
      UpsertKeeps(ApplyPeers(s, init), last.address, last.parcel, last.realm, last.heartbeat);
    }
  }

  // ----- what a batch does -----

  /** `r` is `s` with the reports of `q` merged in: nobody is lost, the newest time counts, the last place holds. */
  ghost predicate Merged(s: State, r: State, q: seq<GossipPeer>) {
    && Grown(s, r, q)
    && (forall i | 0 <= i < |q| :: ReportMerged(r, q, i))
    && (forall a | a in r.peers :: HeldOrCarried(s, q, a, r.peers[a].heartbeat))
  }

  predicate Lists(q: seq<GossipPeer>, a: Address) {
    exists i | 0 <= i < |q| :: q[i].address == a
  }

  /** The peers afterwards are those before and those listed; an unlisted one is as it was. */
  ghost predicate Grown(s: State, r: State, q: seq<GossipPeer>) {
    && (forall a :: a in r.peers <==> a in s.peers || Lists(q, a))
    && (forall a | a in s.peers :: NewerPeer(s.peers[a], r.peers[a]) && (!Lists(q, a) ==> r.peers[a] == s.peers[a]))
    && r.islands == s.islands && r.minted == s.minted
  }

  predicate NewerPeer(p: Peer, r: Peer) {
    r.heartbeat >= p.heartbeat && r.island == p.island
  }

  ghost predicate ReportMerged(r: State, q: seq<GossipPeer>, i: nat)
    requires i < |q|
  {
    && q[i].address in r.peers && r.peers[q[i].address].heartbeat >= q[i].heartbeat
    && ((forall j | i < j < |q| :: q[j].address != q[i].address) ==>
          r.peers[q[i].address].parcel == q[i].parcel && r.peers[q[i].address].realm == q[i].realm)
  }

  ghost predicate HeldOrCarried(s: State, q: seq<GossipPeer>, a: Address, t: int) {
    || (a in s.peers && t == s.peers[a].heartbeat)
    || exists g :: g in q && g.address == a && g.heartbeat == t
  }

  lemma {:induction false} ApplyPeersMerges(s: State, q: seq<GossipPeer>)
    ensures Merged(s, ApplyPeers(s, q), q)
  {
    if q != [] {
      ApplyPeersMerges(s, q[..|q| - 1]);
      OneMoreMerged(s, ApplyPeers(s, q[..|q| - 1]), q);
    }
  }

  lemma OneMoreMerged(s: State, m: State, q: seq<GossipPeer>)
    requires q != [] && Merged(s, m, q[..|q| - 1])
    ensures var last := q[|q| - 1];
      Merged(s, UpsertPeerAt(m, last.address, last.parcel, last.realm, last.heartbeat), q)
  {
    var last := q[|q| - 1];
    var r := UpsertPeerAt(m, last.address, last.parcel, last.realm, last.heartbeat);
    UpsertReports(m, last.address, last.parcel, last.realm, last.heartbeat);
    OneMoreGrown(s, m, r, q);
    forall i | 0 <= i < |q| ensures ReportMerged(r, q, i) {
      OneMoreReport(m, r, q, i);
    }
    forall a | a in r.peers ensures HeldOrCarried(s, q, a, r.peers[a].heartbeat) {
      OneMoreTime(s, m, r, q, a);
    }
  }

  lemma OneMoreGrown(s: State, m: State, r: State, q: seq<GossipPeer>)
    requires q != [] && Grown(s, m, q[..|q| - 1]) && Upserted(m, r, q[|q| - 1])
    ensures Grown(s, r, q)
  {
    forall a ensures Lists(q, a) <==> Lists(q[..|q| - 1], a) || q[|q| - 1].address == a {
      ListsOneMore(q, a);
    }
  }

  lemma ListsOneMore(q: seq<GossipPeer>, a: Address)
    requires q != []
    ensures Lists(q, a) <==> Lists(q[..|q| - 1], a) || q[|q| - 1].address == a
  {
    var init := q[..|q| - 1];
    if i :| 0 <= i < |init| && init[i].address == a {
      assert q[i].address == a;
    }
    if i :| 0 <= i < |q| && q[i].address == a && i < |init| {
      assert init[i].address == a;
    }
  }

  ghost predicate Upserted(m: State, r: State, g: GossipPeer) {
    Reports(m, r, g.address, g.parcel, g.realm, g.heartbeat)
  }

  lemma OneMoreReport(m: State, r: State, q: seq<GossipPeer>, i: nat)
    requires i < |q| && Upserted(m, r, q[|q| - 1]) && (i < |q| - 1 ==> ReportMerged(m, q[..|q| - 1], i))
    ensures ReportMerged(r, q, i)
  {
  }

  lemma OneMoreTime(s: State, m: State, r: State, q: seq<GossipPeer>, a: Address)
    requires q != [] && Upserted(m, r, q[|q| - 1]) && a in r.peers
    requires a in m.peers ==> HeldOrCarried(s, q[..|q| - 1], a, m.peers[a].heartbeat)
    ensures HeldOrCarried(s, q, a, r.peers[a].heartbeat)
  {
    var init, last := q[..|q| - 1], q[|q| - 1];
    assert q == init + [last] && last in q;
  }

  // ----- the network -----

  /** `sent` holds every batch ever posted; `recorded` the latest local heartbeat of each address anywhere. */
  datatype Net = Net(nodes: map<NodeId, Node>, sent: set<Batch>, recorded: map<Address, int>)

  datatype NetAction =
    | Heartbeat(node: NodeId, address: Address, parcel: Parcel, realm: string, now: int)
    | Leave(node: NodeId, address: Address)
    | Pass(node: NodeId, cfg: Config, now: int, banned: set<Address>)
    | Push(node: NodeId, snapshot: seq<GossipPeer>)
    | Deliver(node: NodeId, batch: Batch)

  function Start(ids: set<NodeId>): Net {
    Net(map id | id in ids :: Node(EMPTY, 0, map[]), {}, map[])
  }

  /** What each step needs: a snapshot to push is one of the node's peers; nodes reject their own batches. */
  ghost predicate Enabled(n: Net, act: NetAction) {
    && act.node in n.nodes
    && (act.Push? ==> act.snapshot != [] && IsSnapshot(act.snapshot, n.nodes[act.node].cluster))
    && (act.Deliver? ==> act.batch in n.sent && act.batch.from != act.node)
  }

  function Latest(recorded: map<Address, int>, a: Address, now: int): map<Address, int> {
    if a in recorded && recorded[a] > now then recorded else recorded[a := now]
  }

  function Perform(n: Net, act: NetAction): Net
    requires act.node in n.nodes
  {
    var node := n.nodes[act.node];
    match act
    case Heartbeat(id, a, parcel, realm, now) =>
      n.(nodes := n.nodes[id := node.(cluster := UpsertPeerAt(node.cluster, a, parcel, realm, now))],
         recorded := Latest(n.recorded, a, now))
    case Leave(id, a) =>
      n.(nodes := n.nodes[id := node.(cluster := RemovePeer(node.cluster, a))])
    case Pass(id, cfg, now, banned) =>
      n.(nodes := n.nodes[id := node.(cluster := Recluster(node.cluster, now, cfg, banned).state)])
    case Push(id, snapshot) =>
      n.(nodes := n.nodes[id := node.(seqNo := node.seqNo + 1)],
         sent := n.sent + {Batch(id, node.seqNo + 1, snapshot)})
    case Deliver(id, batch) =>
      n.(nodes := n.nodes[id := Apply(node, batch)])
  }

  /** A batch newer than the last one accepted from its sender is merged into the cluster, in every network. */
  lemma DeliverMerges(n: Net, id: NodeId, batch: Batch)
    requires Enabled(n, Deliver(id, batch)) && batch.seqNo > SeenFrom(n.nodes[id].lastSeen, batch.from)
    ensures var r := Perform(n, Deliver(id, batch));
      && r.nodes.Keys == n.nodes.Keys && r.sent == n.sent && r.recorded == n.recorded
      && (forall other | other in n.nodes && other != id :: r.nodes[other] == n.nodes[other])
      && Merged(n.nodes[id].cluster, r.nodes[id].cluster, batch.peers)
      && r.nodes[id].lastSeen == n.nodes[id].lastSeen[batch.from := batch.seqNo]
      && r.nodes[id].seqNo == n.nodes[id].seqNo
  {
    ApplyPeersMerges(n.nodes[id].cluster, batch.peers);
  }

  /** So it brings every peer of the sender's snapshot to the receiver where the sender had it, less than a second
      behind. */
  lemma SnapshotCatchesUp(n: Net, id: NodeId, batch: Batch, sender: State, a: Address)
    requires Enabled(n, Deliver(id, batch)) && batch.seqNo > SeenFrom(n.nodes[id].lastSeen, batch.from)
    requires IsSnapshot(batch.peers, sender) && a in sender.peers
    ensures var r := Perform(n, Deliver(id, batch)).nodes[id].cluster;
      && a in r.peers && r.peers[a].heartbeat > sender.peers[a].heartbeat - 1000
      && r.peers[a].parcel == sender.peers[a].parcel && r.peers[a].realm == sender.peers[a].realm
  {
    DeliverMerges(n, id, batch);
    var r := Perform(n, Deliver(id, batch)).nodes[id].cluster;
    assert Exported(a, sender.peers[a]) in batch.peers;
    var i :| 0 <= i < |batch.peers| && batch.peers[i] == Exported(a, sender.peers[a]);
    assert ReportMerged(r, batch.peers, i);
  }

  /** A local heartbeat reports the peer at its node, a departure removes it there, and neither posts anything. */
  lemma LocalStepsDo(n: Net, act: NetAction)
    requires act.node in n.nodes && (act.Heartbeat? || act.Leave?)
    ensures var r := Perform(n, act);
      var s, t := n.nodes[act.node], r.nodes[act.node];
      && (if act.Heartbeat? then Reports(s.cluster, t.cluster, act.address, act.parcel, act.realm, act.now)
          else t.cluster.peers == s.cluster.peers - {act.address})
      && t.seqNo == s.seqNo && t.lastSeen == s.lastSeen && r.sent == n.sent
  {
    if act.Heartbeat? {
      UpsertReports(n.nodes[act.node].cluster, act.address, act.parcel, act.realm, act.now);
    }
  }

  /** Steps that are not enabled do not happen. */
  ghost function Step(n: Net, act: NetAction): Net {
    if Enabled(n, act) then Perform(n, act) else n
  }

  ghost function Run(n: Net, acts: seq<NetAction>): Net {
    if acts == [] then n else Step(Run(n, acts[..|acts| - 1]), acts[|acts| - 1])
  }

  // ----- no heartbeat from the future -----

  ghost predicate Within(a: Address, t: int, recorded: map<Address, int>) {
    a in recorded && t <= recorded[a]
  }

  ghost predicate NodeBounded(s: State, recorded: map<Address, int>) {
    Consistent(s) && forall a | a in s.peers :: Within(a, s.peers[a].heartbeat, recorded)
  }

  ghost predicate BatchBounded(b: Batch, recorded: map<Address, int>) {
    forall g | g in b.peers :: Within(g.address, g.heartbeat, recorded)
  }

  /** No heartbeat held by a node or in flight is later than the latest one some node recorded itself. */
  ghost predicate Bounded(n: Net) {
    && (forall id | id in n.nodes :: NodeBounded(n.nodes[id].cluster, n.recorded))
    && (forall b | b in n.sent :: BatchBounded(b, n.recorded))
  }

  lemma RecordKeepsBounds(n: Net, a: Address, now: int)
    requires Bounded(n)
    ensures Bounded(n.(recorded := Latest(n.recorded, a, now)))
  {
    var recorded := Latest(n.recorded, a, now);
    forall id | id in n.nodes ensures NodeBounded(n.nodes[id].cluster, recorded) {
      assert NodeBounded(n.nodes[id].cluster, n.recorded);
    }
    forall b | b in n.sent ensures BatchBounded(b, recorded) {
      assert BatchBounded(b, n.recorded);
    }
  }

  lemma ApplyBounded(s: State, b: Batch, recorded: map<Address, int>)
    requires NodeBounded(s, recorded) && BatchBounded(b, recorded)
    ensures NodeBounded(ApplyPeers(s, b.peers), recorded)
  {
    ApplyKeeps(s, b.peers);
    var r := ApplyPeers(s, b.peers);
    forall a | a in r.peers ensures Within(a, r.peers[a].heartbeat, recorded) {
      ApplyMergesByMaximum(s, b.peers, a);
      NewestIsCarried(b.peers, a);
    }
  }

  lemma ReclusterHeartbeats(s: State, now: int, cfg: Config, banned: set<Address>)
    ensures var r := Recluster(s, now, cfg, banned).state;
            forall a | a in r.peers :: a in s.peers && r.peers[a].heartbeat == s.peers[a].heartbeat
                                       && now - r.peers[a].heartbeat <= cfg.timeout
  {
  }

  /** The cluster of the acting node stays bounded by the heartbeats recorded after the step. */
  lemma ActingNodeBounded(n: Net, act: NetAction)
    requires Bounded(n) && Enabled(n, act)
    ensures var r := Perform(n, act); NodeBounded(r.nodes[act.node].cluster, r.recorded)
  {
    var s := n.nodes[act.node].cluster;
    assert NodeBounded(s, n.recorded);
    match act
    case Heartbeat(id, a, parcel, realm, now) =>
      RecordKeepsBounds(n, a, now);
      assert NodeBounded(s, Latest(n.recorded, a, now));
      UpsertKeeps(s, a, parcel, realm, now);
    case Leave(id, a) =>
      RemovePeerIsRemoveSet(s, a);
      RemoveSetKeeps(s, {a});
    case Pass(id, cfg, now, banned) =>
      ReclusterKeeps(s, now, cfg, banned);
      ReclusterHeartbeats(s, now, cfg, banned);
    case Push(id, snapshot) =>
    case Deliver(id, batch) =>
      ApplyBounded(s, batch, n.recorded);
  }

  lemma StepBounded(n: Net, act: NetAction)
    requires Bounded(n) && Enabled(n, act)
    ensures Bounded(Perform(n, act))
  {
    var r := Perform(n, act);
    ActingNodeBounded(n, act);
    RecordedGrows(n, act);
    OthersUntouched(n, act);
    forall id | id in r.nodes ensures NodeBounded(r.nodes[id].cluster, r.recorded) {
      if id != act.node {
        assert NodeBounded(n.(recorded := r.recorded).nodes[id].cluster, r.recorded);
      }
    }
    StepBatchesBounded(n, act);
  }

  /** What was bounded before is bounded by what is recorded after the step. */
  lemma RecordedGrows(n: Net, act: NetAction)
    requires Bounded(n) && Enabled(n, act)
    ensures Bounded(n.(recorded := Perform(n, act).recorded))
  {
    if act.Heartbeat? {
      RecordKeepsBounds(n, act.address, act.now);
    } else {
      RecordedStays(n, act);
    }
  }

  lemma RecordedStays(n: Net, act: NetAction)
    requires act.node in n.nodes && !act.Heartbeat?
    ensures n.(recorded := Perform(n, act).recorded) == n
  {
  }

  lemma OthersUntouched(n: Net, act: NetAction)
    requires act.node in n.nodes
    ensures Perform(n, act).nodes.Keys == n.nodes.Keys
    ensures forall id | id in n.nodes && id != act.node :: Perform(n, act).nodes[id] == n.nodes[id]
  {
  }

  lemma StepBatchesBounded(n: Net, act: NetAction)
    requires Bounded(n) && Enabled(n, act)
    ensures var r := Perform(n, act); forall b | b in r.sent :: BatchBounded(b, r.recorded)
  {
    var r := Perform(n, act);
    RecordedGrows(n, act);
    if act.Push? {
      SnapshotBounded(n.nodes[act.node].cluster, act.snapshot, n.recorded);
    }
    forall b | b in r.sent ensures BatchBounded(b, r.recorded) {
      if b in n.sent {
        assert b in n.(recorded := r.recorded).sent;
      }
    }
  }

  lemma SnapshotBounded(s: State, q: seq<GossipPeer>, recorded: map<Address, int>)
    requires NodeBounded(s, recorded) && IsSnapshot(q, s)
    ensures forall g | g in q :: Within(g.address, g.heartbeat, recorded)
  {
    forall g | g in q ensures Within(g.address, g.heartbeat, recorded) {
      assert g == Exported(g.address, s.peers[g.address]);
    }
  }

  lemma {:induction false} EveryRunBounded(ids: set<NodeId>, acts: seq<NetAction>)
    ensures Bounded(Run(Start(ids), acts))
  {
    if acts != [] {
      var before := Run(Start(ids), acts[..|acts| - 1]);
      EveryRunBounded(ids, acts[..|acts| - 1]);
      if Enabled(before, acts[|acts| - 1]) {
        StepBounded(before, acts[|acts| - 1]);
      }
    }
  }

  /**
    However batches were delayed, repeated or lost: a pass later than the last heartbeat any node recorded
    for an address, plus the timeout, leaves no such peer at that node.
   */
  lemma SilentPeerIsEvicted(ids: set<NodeId>, acts: seq<NetAction>, pass: NetAction, a: Address)
    requires pass.Pass? && pass.node in ids
    requires var n := Run(Start(ids), acts);
             a in n.recorded ==> pass.now - n.recorded[a] > pass.cfg.timeout
    ensures var r := Run(Start(ids), acts + [pass]);
            pass.node in r.nodes && a !in r.nodes[pass.node].cluster.peers
  {
    NodesStay(ids, acts);
    EveryRunBounded(ids, acts);
    PassEvicts(Run(Start(ids), acts), pass, a);
    RunOneMore(Start(ids), acts, pass);
  }

  lemma RunOneMore(n: Net, acts: seq<NetAction>, act: NetAction)
    ensures Run(n, acts + [act]) == Step(Run(n, acts), act)
  {
    assert (acts + [act])[..|acts|] == acts;
  }

  lemma PassEvicts(n: Net, pass: NetAction, a: Address)
    requires Bounded(n) && pass.Pass? && pass.node in n.nodes
    requires a in n.recorded ==> pass.now - n.recorded[a] > pass.cfg.timeout
    ensures var r := Step(n, pass);
            pass.node in r.nodes && a !in r.nodes[pass.node].cluster.peers
  {
    var s := n.nodes[pass.node].cluster;
    assert NodeBounded(s, n.recorded);
    ReclusterHeartbeats(s, pass.now, pass.cfg, pass.banned);
  }

  lemma {:induction false} NodesStay(ids: set<NodeId>, acts: seq<NetAction>)
    ensures Run(Start(ids), acts).nodes.Keys == ids
  {
    if acts != [] {
      NodesStay(ids, acts[..|acts| - 1]);
    }
  }

  // ----- each batch is applied at most once per node -----

  lemma {:induction false} SeenOnlyGrows(n: Net, acts: seq<NetAction>, id: NodeId, from: NodeId)
    requires id in n.nodes
    ensures id in Run(n, acts).nodes
    ensures SeenFrom(n.nodes[id].lastSeen, from) <= SeenFrom(Run(n, acts).nodes[id].lastSeen, from)
  {
    if acts != [] {
      SeenOnlyGrows(n, acts[..|acts| - 1], id, from);
    }
  }

  /** After a batch reached a node, that batch and every older one from its sender are ignored for good. */
  lemma DeliveredOnce(n: Net, batch: Batch, id: NodeId, later: seq<NetAction>, again: Batch)
    requires Enabled(n, Deliver(id, batch))
    requires again.from == batch.from && again.seqNo <= batch.seqNo
    ensures var r := Run(Perform(n, Deliver(id, batch)), later);
            id in r.nodes && Step(r, Deliver(id, again)) == r
  {
    var m := Perform(n, Deliver(id, batch));
    SeenOnlyGrows(m, later, id, batch.from);
    var r := Run(m, later);
    assert r.nodes[id := r.nodes[id]] == r.nodes;
  }

  /** Batches of one sender are numbered apart, so a number identifies a batch. */
  ghost predicate NumberedApart(n: Net) {
    && (forall b | b in n.sent :: b.from in n.nodes && b.seqNo <= n.nodes[b.from].seqNo)
    && (forall b, c | b in n.sent && c in n.sent && b.from == c.from && b.seqNo == c.seqNo :: b == c)
  }

  lemma {:induction false} EveryRunNumbersApart(ids: set<NodeId>, acts: seq<NetAction>)
    ensures NumberedApart(Run(Start(ids), acts))
  {
    if acts != [] {
      var n := Run(Start(ids), acts[..|acts| - 1]);
      EveryRunNumbersApart(ids, acts[..|acts| - 1]);
      if Enabled(n, acts[|acts| - 1]) {
        StepNumbersApart(n, acts[|acts| - 1]);
      }
    }
  }

  lemma StepNumbersApart(n: Net, act: NetAction)
    requires NumberedApart(n) && Enabled(n, act)
    ensures NumberedApart(Perform(n, act))
  {
    var r := Perform(n, act);
    SeqNoGrows(n, act);
    forall b | b in r.sent ensures b.from in r.nodes && b.seqNo <= r.nodes[b.from].seqNo {
      assert b in n.sent || (b.from == act.node && b.seqNo == n.nodes[act.node].seqNo + 1);
    }
  }

  /** Only a push takes a number, the next one, and posts one batch under it. */
  lemma SeqNoGrows(n: Net, act: NetAction)
    requires Enabled(n, act)
    ensures var r := Perform(n, act);
      && r.nodes.Keys == n.nodes.Keys
      && (forall id | id in n.nodes :: n.nodes[id].seqNo <= r.nodes[id].seqNo)
      && (if act.Push? then
            r.sent == n.sent + {Batch(act.node, n.nodes[act.node].seqNo + 1, act.snapshot)}
            && r.nodes[act.node].seqNo == n.nodes[act.node].seqNo + 1
          else r.sent == n.sent)
  {
    OthersUntouched(n, act);
    ActingNumber(n, act);
    PostedByPush(n, act);
  }

  lemma ActingNumber(n: Net, act: NetAction)
    requires act.node in n.nodes
    ensures act.node in Perform(n, act).nodes
    ensures Perform(n, act).nodes[act.node].seqNo == n.nodes[act.node].seqNo + if act.Push? then 1 else 0
  {
  }

  lemma PostedByPush(n: Net, act: NetAction)
    requires act.node in n.nodes
    ensures Perform(n, act).sent
         == n.sent + if act.Push? then {Batch(act.node, n.nodes[act.node].seqNo + 1, act.snapshot)} else {}
  {
  }
}
