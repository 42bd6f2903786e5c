/**
  The state of the archipelago cluster and what each public call does to it
  (crates/catalyrst-archipelago/src/cluster.rs), as functions on values.
  `Clusters.Cluster` is the object whose methods compute these functions.
  Island ids are the counter values behind the "I<n>" strings; times are in milliseconds.
 */
module ClusterModel {
  import opened Wrappers
  import opened Ordering
  import opened Sequences
  import opened IslandSearch

  type IslandId = nat

  datatype Parcel = Parcel(x: int, z: int)

  datatype Peer = Peer(parcel: Parcel, realm: string, heartbeat: int, island: Option<IslandId>)

  datatype Island = Island(id: IslandId, peersCount: nat, peers: seq<Address>)

  datatype Event =
    | IslandChanged(address: Address, island: IslandId, from: Option<IslandId>, peers: seq<Address>)
    | PeerLeft(address: Address)

  datatype Config = Config(timeout: nat, radius: real, maxPeers: nat)

  /** `minted` is the last island id handed out. */
  datatype State = State(peers: map<Address, Peer>, islands: map<IslandId, Island>, minted: nat)

  const EMPTY := State(map[], map[], 0)

  // ----- single-peer operations -----

  function UpsertPeerAt(s: State, a: Address, parcel: Parcel, realm: string, heartbeat: int): State {
    var island := if a in s.peers then s.peers[a].island else None;
    var newest := if a in s.peers && s.peers[a].heartbeat > heartbeat then s.peers[a].heartbeat else heartbeat;
    s.(peers := s.peers[a := Peer(parcel, realm, newest, island)])
  }

  /** `r` is `c` with `a` reported at `parcel`: the newest time counts, and its island is kept. */
  predicate Reports(c: State, r: State, a: Address, parcel: Parcel, realm: string, now: int) {
    && r.peers.Keys == c.peers.Keys + {a}
    && (forall x | x in c.peers && x != a :: r.peers[x] == c.peers[x])
    && r.peers[a].parcel == parcel && r.peers[a].realm == realm
    && r.peers[a].heartbeat == (if a in c.peers && now < c.peers[a].heartbeat then c.peers[a].heartbeat else now)
    && r.peers[a].island == (if a in c.peers then c.peers[a].island else None)
    && r.islands == c.islands && r.minted == c.minted
  }

  lemma UpsertReports(c: State, a: Address, parcel: Parcel, realm: string, now: int)
    ensures Reports(c, UpsertPeerAt(c, a, parcel, realm, now), a, parcel, realm, now)
  {
  }

  /** `q` without the addresses of `gone`, order kept. */
  function Without(q: seq<Address>, gone: set<Address>): (r: seq<Address>)
    ensures forall x :: x in r <==> x in q && x !in gone
  {
    if q == [] then [] else
      assert q == [q[0]] + q[1..];
      if q[0] in gone then Without(q[1..], gone) else [q[0]] + Without(q[1..], gone)
  }

  /** The island index once `a` is off the list of its island, and an island without peers is gone. */
  function Unlist(islands: map<IslandId, Island>, island: Option<IslandId>, a: Address): map<IslandId, Island> {
    if island.None? || island.value !in islands then islands else
      var id := island.value;
      var rest := Without(islands[id].peers, {a});
      if rest == [] then islands - {id} else islands[id := islands[id].(peers := rest, peersCount := |rest|)]
  }

  function RemovePeer(s: State, a: Address): State {
    if a !in s.peers then s
    else s.(peers := s.peers - {a}, islands := Unlist(s.islands, s.peers[a].island, a))
  }

  function IslandOf(s: State, a: Address): Option<(IslandId, seq<Address>)> {
    if a !in s.peers || s.peers[a].island.None? then None else
      var id := s.peers[a].island.value;
      if id !in s.islands then None else Some((id, s.islands[id].peers))
  }

  // ----- connections -----

  /** The current connection generation of each address, and the last one handed out. */
  datatype Conns = Conns(gens: map<Address, nat>, counter: nat)

  function NextConn(c: Conns, a: Address): Conns {
    Conns(c.gens[a := c.counter + 1], c.counter + 1)
  }

  /** Gives up a generation: the address and its peer go only if it is the current one. */
  function DropConn(gens: map<Address, nat>, s: State, a: Address, gen: nat): (map<Address, nat>, State) {
    if a in gens && gens[a] == gen then (gens - {a}, RemovePeer(s, a)) else (gens, s)
  }

  // ----- reclustering -----

  predicate Near(a: Parcel, b: Parcel, radius: real) {
    var dx := b.x - a.x;
    var dz := b.z - a.z;
    (dx * dx + dz * dz) as real <= radius * radius
  }

  function NearLinks(peers: map<Address, Peer>, radius: real): Links {
    set a, b | a in peers && b in peers && Near(peers[a].parcel, peers[b].parcel, radius) :: (a, b)
  }

  /** Removing all of `gone` at once: the net effect of one `RemovePeer` each, in any order. */
  function RemoveSet(s: State, gone: set<Address>): State {
    State(s.peers - gone,
          map id | id in s.islands && Without(s.islands[id].peers, gone) != [] ::
            var rest := Without(s.islands[id].peers, gone); Island(s.islands[id].id, |rest|, rest),
          s.minted)
  }

  function Stale(s: State, now: int, timeout: nat): set<Address> {
    set a | a in s.peers && now - s.peers[a].heartbeat > timeout
  }

  /** The islands the members of `group` come from, in group order. */
  function PreviousIds(group: seq<Address>, peers: map<Address, Peer>): seq<IslandId> {
    if group == [] then [] else
      var before := PreviousIds(group[..|group| - 1], peers);
      var last := group[|group| - 1];
      if last in peers && peers[last].island.Some? then before + [peers[last].island.value] else before
  }

  function SizeOf(id: IslandId, islands: map<IslandId, Island>): nat {
    if id in islands then islands[id].peersCount else 0
  }

  /** The id of the largest previous island; among equals the last one offered. */
  function LastLargest(ids: seq<IslandId>, islands: map<IslandId, Island>): IslandId
    requires ids != []
  {
    var last := ids[|ids| - 1];
    if |ids| == 1 then last else
      var best := LastLargest(ids[..|ids| - 1], islands);
      if SizeOf(best, islands) > SizeOf(last, islands) then best else last
  }

  datatype Assigned = Assigned(islands: map<IslandId, Island>, of: map<Address, IslandId>, minted: nat)

  function ChosenId(
    group: seq<Address>, peers: map<Address, Peer>, islands: map<IslandId, Island>, minted: nat): IslandId {
    var ids := PreviousIds(group, peers);
    if ids == [] then minted + 1 else LastLargest(ids, islands)
  }

  function AssignGroup(before: Assigned, group: seq<Address>, s: State): Assigned {
    if group == [] then before else
      var id := ChosenId(group, s.peers, s.islands, before.minted);
      Assigned(before.islands[id := Island(id, |group|, group)],
               before.of + map a | a in group :: id,
               if PreviousIds(group, s.peers) == [] then before.minted + 1 else before.minted)
  }

  /** Groups take an id in turn; a later group that chose the same id overwrites the earlier island. */
  function AssignGroups(groups: seq<seq<Address>>, s: State): Assigned {
    if groups == [] then Assigned(map[], map[], s.minted) else
      AssignGroup(AssignGroups(groups[..|groups| - 1], s), groups[|groups| - 1], s)
  }

  function Place(s: State, a: Assigned): State {
    State(map p | p in s.peers :: s.peers[p].(island := if p in a.of then Some(a.of[p]) else None), a.islands, a.minted)
  }

  function ChangedBy(s: State, a: Assigned): set<Address> {
    set p | p in a.of && p in s.peers && s.peers[p].island != Some(a.of[p])
  }

  function GroupsOf(s: State, cfg: Config): seq<seq<Address>> {
    Groups(Ordered(s.peers.Keys), NearLinks(s.peers, cfg.radius), cfg.maxPeers)
  }

  function Departures(gone: set<Address>): set<Event> {
    set p | p in gone :: PeerLeft(p)
  }

  /** What subscribers are told about a changed peer: that it left if it is banned, else its new island. */
  function EventFor(p: Address, a: Assigned, s: State, banned: set<Address>): Event
    requires p in a.of && a.of[p] in a.islands && p in s.peers
  {
    if p in banned then PeerLeft(p) else IslandChanged(p, a.of[p], s.peers[p].island, a.islands[a.of[p]].peers)
  }

  function Told(changed: set<Address>, a: Assigned, s: State, banned: set<Address>): set<Event> {
    set p | p in changed && p in a.of && a.of[p] in a.islands && p in s.peers :: EventFor(p, a, s, banned)
  }

  datatype Reclustered = Reclustered(state: State, events: set<Event>)

  /** One pass at instant `now`; `banned` are the addresses the ban service reports. */
  function Recluster(s: State, now: int, cfg: Config, banned: set<Address>): Reclustered {
    var stale := Stale(s, now, cfg.timeout);
    var live := RemoveSet(s, stale);
    var a := AssignGroups(GroupsOf(live, cfg), live);
    var changed := ChangedBy(live, a);
    Reclustered(RemoveSet(Place(live, a), changed * banned), Departures(stale) + Told(changed, a, live, banned))
  }

  // ----- consistency of the island index with the peer table -----

  ghost predicate ConsistentIsland(s: State, id: IslandId)
    requires id in s.islands
  {
    var i := s.islands[id];
    && i.id == id && 0 < id <= s.minted
    && i.peers != [] && i.peersCount == |i.peers| && NoDuplicates(i.peers)
    && forall a | a in i.peers :: a in s.peers && s.peers[a].island == Some(id)
  }

  /** Every address an island lists is a live peer assigned to it; every assigned id has been minted. */
  ghost predicate Consistent(s: State) {
    && (forall id | id in s.islands :: ConsistentIsland(s, id))
    && forall a | a in s.peers && s.peers[a].island.Some? :: 0 < s.peers[a].island.value <= s.minted
  }

  /** Every assigned peer is also listed by its island. */
  ghost predicate AllListed(s: State) {
    forall a | a in s.peers && s.peers[a].island.Some? ::
      s.peers[a].island.value in s.islands && a in s.islands[s.peers[a].island.value].peers
  }

  lemma NoAddressOnTwoIslands(s: State, a: Address, i: IslandId, j: IslandId)
    requires Consistent(s) && i in s.islands && j in s.islands
    requires a in s.islands[i].peers && a in s.islands[j].peers
    ensures i == j
  {
    assert ConsistentIsland(s, i) && ConsistentIsland(s, j);
  }

  // ----- removals -----

  lemma {:induction false} WithoutTwice(q: seq<Address>, a: set<Address>, b: set<Address>)
    ensures Without(Without(q, a), b) == Without(q, a + b)
  {
    if q != [] {
      WithoutTwice(q[1..], a, b);
      if q[0] !in a {
        assert Without(q, a) == [q[0]] + Without(q[1..], a);
        assert Without(q, a)[1..] == Without(q[1..], a);
      }
    }
  }

  lemma {:induction false} WithoutNoDuplicates(q: seq<Address>, gone: set<Address>)
    requires NoDuplicates(q)
    ensures NoDuplicates(Without(q, gone))
  {
    if q != [] {
      WithoutNoDuplicates(q[1..], gone);
      assert q[0] !in q[1..];
    }
  }

  lemma {:induction false} WithoutNone(q: seq<Address>, gone: set<Address>)
    requires forall x | x in q :: x !in gone
    ensures Without(q, gone) == q
  {
    if q != [] {
      WithoutNone(q[1..], gone);
    }
  }

  lemma RemoveSetNothing(s: State)
    requires Consistent(s)
    ensures RemoveSet(s, {}) == s
  {
    forall id | id in s.islands
      ensures Without(s.islands[id].peers, {}) == s.islands[id].peers && s.islands[id].peers != []
    {
      assert ConsistentIsland(s, id);
      WithoutNone(s.islands[id].peers, {});
    }
    assert RemoveSet(s, {}).islands == s.islands;
  }

  lemma RemoveSetTwice(s: State, a: set<Address>, b: set<Address>)
    ensures RemoveSet(RemoveSet(s, a), b) == RemoveSet(s, a + b)
  {
    var l, r := RemoveSet(RemoveSet(s, a), b), RemoveSet(s, a + b);
    assert l.peers == r.peers;
    forall id | id in s.islands ensures id in l.islands <==> id in r.islands {
      WithoutTwice(s.islands[id].peers, a, b);
    }
    forall id | id in l.islands ensures l.islands[id] == r.islands[id] {
      WithoutTwice(s.islands[id].peers, a, b);
    }
    assert l.islands == r.islands;
  }

  lemma UntouchedIsland(s: State, a: Address, id: IslandId)
    requires Consistent(s) && id in s.islands && (a !in s.peers || s.peers[a].island != Some(id))
    ensures id in RemoveSet(s, {a}).islands && RemoveSet(s, {a}).islands[id] == s.islands[id]
  {
    assert ConsistentIsland(s, id);
    WithoutNone(s.islands[id].peers, {a});
  }

  lemma SameIslandEntry(s: State, a: Address, id: IslandId)
    requires Consistent(s) && id in s.islands
    ensures id in RemovePeer(s, a).islands <==> id in RemoveSet(s, {a}).islands
    ensures id in RemovePeer(s, a).islands ==> RemovePeer(s, a).islands[id] == RemoveSet(s, {a}).islands[id]
  {
    assert ConsistentIsland(s, id);
    if a !in s.peers || s.peers[a].island != Some(id) {
      UntouchedIsland(s, a, id);
    }
  }

  lemma EqualMaps<K, V>(l: map<K, V>, r: map<K, V>)
    requires forall k | k in l || k in r :: k in l && k in r && l[k] == r[k]
    ensures l == r
  {
  }

  lemma SameIslands(s: State, a: Address)
    requires Consistent(s)
    ensures RemovePeer(s, a).islands == RemoveSet(s, {a}).islands
  {
    var l, r := RemovePeer(s, a).islands, RemoveSet(s, {a}).islands;
    forall id | id in l || id in r ensures id in l && id in r && l[id] == r[id] {
      assert id in s.islands;
      SameIslandEntry(s, a, id);
    }
    EqualMaps(l, r);
  }

  /** In a consistent state `RemovePeer` is the one-element `RemoveSet`, so removals commute. */
  lemma RemovePeerIsRemoveSet(s: State, a: Address)
    requires Consistent(s)
    ensures RemovePeer(s, a) == RemoveSet(s, {a})
  {
    SameIslands(s, a);
    assert s.peers - {a} == if a in s.peers then s.peers - {a} else s.peers;
  }

  lemma RemoveSetKeeps(s: State, gone: set<Address>)
    requires Consistent(s)
    ensures Consistent(RemoveSet(s, gone))
    ensures AllListed(s) ==> AllListed(RemoveSet(s, gone))
  {
    var r := RemoveSet(s, gone);
    forall id | id in r.islands ensures ConsistentIsland(r, id) {
      assert ConsistentIsland(s, id);
      WithoutNoDuplicates(s.islands[id].peers, gone);
    }
    if AllListed(s) {
      forall a | a in r.peers && r.peers[a].island.Some?
        ensures r.peers[a].island.value in r.islands && a in r.islands[r.peers[a].island.value].peers
      {
        var id := s.peers[a].island.value;
        assert a in Without(s.islands[id].peers, gone);
      }
    }
  }

  lemma UpsertKeeps(s: State, a: Address, parcel: Parcel, realm: string, heartbeat: int)
    requires Consistent(s)
    ensures Consistent(UpsertPeerAt(s, a, parcel, realm, heartbeat))
    ensures AllListed(s) ==> AllListed(UpsertPeerAt(s, a, parcel, realm, heartbeat))
  {
    var r := UpsertPeerAt(s, a, parcel, realm, heartbeat);
    forall id | id in r.islands ensures ConsistentIsland(r, id) {
      assert ConsistentIsland(s, id);
    }
  }

  // ----- choosing island ids -----

  lemma {:induction false} PreviousIdsAreMembers(group: seq<Address>, peers: map<Address, Peer>)
    ensures forall id :: id in PreviousIds(group, peers) <==>
              exists a :: a in group && a in peers && peers[a].island == Some(id)
  {
    if group != [] {
      var init := group[..|group| - 1];
      PreviousIdsAreMembers(init, peers);
      assert group == init + [group[|group| - 1]];
      forall id ensures id in PreviousIds(group, peers) <==>
              exists a :: a in group && a in peers && peers[a].island == Some(id)
      {
        if id in PreviousIds(init, peers) {
          var a :| a in init && a in peers && peers[a].island == Some(id);
          assert a in group;
        }
      }
    }
  }

  /** An island that is gone counts as empty, another by its number of peers. */
  lemma SizeIsPeers(s: State, id: IslandId)
    requires Consistent(s)
    ensures id in s.islands ==> SizeOf(id, s.islands) == |s.islands[id].peers| > 0
    ensures id !in s.islands ==> SizeOf(id, s.islands) == 0
  {
    assert id in s.islands ==> ConsistentIsland(s, id);
  }

  /** Island `i` has at most as many peers as island `j`, an absent one counting as empty. */
  predicate NoLarger(i: IslandId, j: IslandId, islands: map<IslandId, Island>) {
    i !in islands || islands[i].peersCount == 0 || (j in islands && islands[i].peersCount <= islands[j].peersCount)
  }

  /** The chosen id is offered, none offered is larger, and any offered after it is smaller. */
  lemma {:induction false} LastLargestIsLastMaximum(ids: seq<IslandId>, islands: map<IslandId, Island>) returns (k: nat)
    requires ids != []
    ensures k < |ids| && ids[k] == LastLargest(ids, islands)
    ensures forall i | 0 <= i < |ids| :: NoLarger(ids[i], ids[k], islands)
    ensures forall i | k < i < |ids| :: !NoLarger(ids[k], ids[i], islands)
  {
    if |ids| == 1 {
      k := 0;
    } else {
      var init := ids[..|ids| - 1];
      k := LastLargestIsLastMaximum(init, islands);
      if SizeOf(init[k], islands) <= SizeOf(ids[|ids| - 1], islands) {
        k := |ids| - 1;
      }
    }
  }

  /** A group with a member that had an island keeps one of its members' islands; otherwise it mints. */
  lemma ChosenIdComesFromMember(group: seq<Address>, s: State, minted: nat)
    requires Consistent(s) && s.minted <= minted
    ensures var id := ChosenId(group, s.peers, s.islands, minted);
            if PreviousIds(group, s.peers) == [] then id == minted + 1
            else 0 < id <= s.minted && exists a :: a in group && a in s.peers && s.peers[a].island == Some(id)
  {
    var ids := PreviousIds(group, s.peers);
    PreviousIdsAreMembers(group, s.peers);
    if ids != [] {
      var k := LastLargestIsLastMaximum(ids, s.islands);
      assert ids[k] in ids;
    }
  }

  ghost predicate GoodGroups(groups: seq<seq<Address>>, s: State) {
    && PairwiseDisjoint(groups)
    && forall g | g in groups :: g != [] && NoDuplicates(g) && forall a | a in g :: a in s.peers
  }

  ghost predicate KeptId(g: seq<Address>, id: IslandId, s: State) {
    exists a :: a in g && a in s.peers && s.peers[a].island == Some(id)
  }

  /** The id the members of `g` were given. */
  function IdOf(a: Assigned, g: seq<Address>): IslandId {
    if g != [] && g[0] in a.of then a.of[g[0]] else 0
  }

  ghost predicate MembersShareId(a: Assigned, groups: seq<seq<Address>>, s: State) {
    && s.minted <= a.minted
    && a.of.Keys == Members(groups)
    && (forall g | g in groups :: g != [] && 0 < IdOf(a, g) <= a.minted && IdOf(a, g) in a.islands)
    && (forall g, p | g in groups && p in g :: p in a.of && a.of[p] == IdOf(a, g))
  }

  ghost predicate IslandsAreGroups(a: Assigned, groups: seq<seq<Address>>) {
    forall id | id in a.islands :: exists g :: g in groups && IdOf(a, g) == id && a.islands[id] == Island(id, |g|, g)
  }

  /** An id up to `s.minted` was kept from a member; a newer one belongs to one group only. */
  ghost predicate KeptOrFresh(a: Assigned, groups: seq<seq<Address>>, s: State) {
    && (forall g | g in groups && IdOf(a, g) <= s.minted :: KeptId(g, IdOf(a, g), s))
    && (forall i, j | 0 <= i < j < |groups| && IdOf(a, groups[i]) == IdOf(a, groups[j]) ::
         IdOf(a, groups[i]) <= s.minted)
  }

  ghost predicate AssignedTo(a: Assigned, groups: seq<seq<Address>>, s: State) {
    MembersShareId(a, groups, s) && IslandsAreGroups(a, groups) && KeptOrFresh(a, groups, s)
  }

  lemma PrefixGood(groups: seq<seq<Address>>, s: State, n: nat)
    requires GoodGroups(groups, s) && n <= |groups|
    ensures GoodGroups(groups[..n], s)
  {
    var init := groups[..n];
    forall i, j | 0 <= i < j < |init| ensures Elements(init[i]) !! Elements(init[j]) {
      assert init[i] == groups[i] && init[j] == groups[j];
    }
    assert forall g | g in init :: g in groups;
  }

  lemma GroupsPrefix(groups: seq<seq<Address>>, s: State)
    requires GoodGroups(groups, s) && groups != []
    ensures GoodGroups(groups[..|groups| - 1], s)
    ensures Members(groups) == Members(groups[..|groups| - 1]) + Elements(groups[|groups| - 1])
    ensures Members(groups[..|groups| - 1]) !! Elements(groups[|groups| - 1])
  {
    var n := |groups| - 1;
    PrefixGood(groups, s, n);
    assert groups == groups[..n] + [groups[n]];
    forall x | x in Members(groups[..n]) ensures x !in Elements(groups[n]) {
      var h :| h in groups[..n] && x in h;
      var i :| 0 <= i < n && groups[i] == h;
      assert Elements(groups[i]) !! Elements(groups[n]) && x in Elements(groups[i]);
    }
  }

  lemma EarlierIdsStay(before: Assigned, init: seq<seq<Address>>, g: seq<Address>, s: State)
    requires MembersShareId(before, init, s)
    requires g != [] && Members(init) !! Elements(g)
    ensures var after := AssignGroup(before, g, s);
            && (forall h | h in init :: IdOf(after, h) == IdOf(before, h))
            && (forall h, p | h in init && p in h :: p in after.of && after.of[p] == before.of[p])
            && IdOf(after, g) == ChosenId(g, s.peers, s.islands, before.minted)
  {
    var after := AssignGroup(before, g, s);
    forall h, p | h in init && p in h ensures p in after.of && after.of[p] == before.of[p] {
      assert p in Members(init);
      assert p !in Elements(g);
    }
    forall h | h in init ensures IdOf(after, h) == IdOf(before, h) {
      assert h[0] in h;
    }
    assert g[0] in g;
  }

  lemma AssignGroupShares(before: Assigned, init: seq<seq<Address>>, g: seq<Address>, s: State)
    requires Consistent(s) && MembersShareId(before, init, s)
    requires g != [] && Members(init) !! Elements(g)
    ensures MembersShareId(AssignGroup(before, g, s), init + [g], s)
  {
    EarlierIdsStay(before, init, g, s);
    ChosenIdComesFromMember(g, s, before.minted);
    assert Members(init + [g]) == Members(init) + Elements(g);
    var after := AssignGroup(before, g, s);
    assert after.of.Keys == before.of.Keys + Elements(g);
  }

  lemma AssignGroupIslands(before: Assigned, init: seq<seq<Address>>, g: seq<Address>, s: State)
    requires MembersShareId(before, init, s) && IslandsAreGroups(before, init)
    requires g != [] && Members(init) !! Elements(g)
    ensures IslandsAreGroups(AssignGroup(before, g, s), init + [g])
  {
    EarlierIdsStay(before, init, g, s);
    var after := AssignGroup(before, g, s);
    forall k | k in after.islands
      ensures exists h :: h in init + [g] && IdOf(after, h) == k && after.islands[k] == Island(k, |h|, h)
    {
      if k == IdOf(after, g) {
        assert g in init + [g];
      } else {
        var h :| h in init && IdOf(before, h) == k && before.islands[k] == Island(k, |h|, h);
        assert h in init + [g];
      }
    }
  }

  lemma KeptOrFreshExtends(before: Assigned, after: Assigned, init: seq<seq<Address>>, g: seq<Address>, s: State)
    requires KeptOrFresh(before, init, s)
    requires forall h | h in init :: IdOf(after, h) == IdOf(before, h) <= before.minted
    requires if IdOf(after, g) <= s.minted then KeptId(g, IdOf(after, g), s) else before.minted < IdOf(after, g)
    ensures KeptOrFresh(after, init + [g], s)
  {
    var groups := init + [g];
    forall i, j | 0 <= i < j < |groups| && IdOf(after, groups[i]) == IdOf(after, groups[j])
      ensures IdOf(after, groups[i]) <= s.minted
    {
      assert groups[i] == init[i] && init[i] in init;
      if j < |init| {
        assert groups[j] == init[j] && init[j] in init;
      }
    }
  }

  lemma AssignGroupKeptOrFresh(before: Assigned, init: seq<seq<Address>>, g: seq<Address>, s: State)
    requires Consistent(s) && MembersShareId(before, init, s) && KeptOrFresh(before, init, s)
    requires g != [] && Members(init) !! Elements(g)
    ensures KeptOrFresh(AssignGroup(before, g, s), init + [g], s)
  {
    EarlierIdsStay(before, init, g, s);
    ChosenIdComesFromMember(g, s, before.minted);
    KeptOrFreshExtends(before, AssignGroup(before, g, s), init, g, s);
  }

  lemma {:induction false} AssignGroupsKeeps(groups: seq<seq<Address>>, s: State)
    requires Consistent(s) && GoodGroups(groups, s)
    ensures AssignedTo(AssignGroups(groups, s), groups, s)
  {
    if groups != [] {
      var init, g := groups[..|groups| - 1], groups[|groups| - 1];
      GroupsPrefix(groups, s);
      AssignGroupsKeeps(init, s);
      assert g in groups;
      assert groups == init + [g];
      AssignGroupKeeps(AssignGroups(init, s), init, g, s);
    }
  }

  function NewGroups(groups: seq<seq<Address>>, peers: map<Address, Peer>): nat {
    if groups == [] then 0 else
      var last := groups[|groups| - 1];
      NewGroups(groups[..|groups| - 1], peers)
      + if exists p :: p in last && p in peers && peers[p].island.Some? then 0 else 1
  }

  lemma {:induction false} PreviousIffHeld(group: seq<Address>, peers: map<Address, Peer>)
    ensures PreviousIds(group, peers) == [] <==> !exists p :: p in group && p in peers && peers[p].island.Some?
  {
    if group != [] {
      PreviousIffHeld(group[..|group| - 1], peers);
      assert group == group[..|group| - 1] + [group[|group| - 1]];
    }
  }

  /** The counter moves by one for each group none of whose members had an island, and for nothing else. */
  lemma {:induction false} MintsOnePerNewGroup(groups: seq<seq<Address>>, s: State)
    requires forall i | 0 <= i < |groups| :: groups[i] != []
    ensures AssignGroups(groups, s).minted == s.minted + NewGroups(groups, s.peers)
  {
    if groups != [] {
      var last := groups[|groups| - 1];
      MintsOnePerNewGroup(groups[..|groups| - 1], s);
      PreviousIffHeld(last, s.peers);
    }
  }

  lemma AssignGroupKeeps(before: Assigned, init: seq<seq<Address>>, g: seq<Address>, s: State)
    requires Consistent(s) && AssignedTo(before, init, s) && g != [] && Members(init) !! Elements(g)
    ensures AssignedTo(AssignGroup(before, g, s), init + [g], s)
  {
    AssignGroupShares(before, init, g, s);
    AssignGroupIslands(before, init, g, s);
    AssignGroupKeptOrFresh(before, init, g, s);
  }
}
