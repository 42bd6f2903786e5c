/**
  What one reclustering pass guarantees: it keeps the island index consistent, keeps or freshly mints
  ids, lists every assigned peer exactly when the groups chose distinct ids, and changes nothing when
  repeated at once (crates/catalyrst-archipelago/src/cluster.rs, `recluster_once`).
 */
module Reclustering {
  import opened Wrappers
  import opened Ordering
  import opened Sequences
  import opened IslandSearch
  import opened ClusterModel

  lemma NearSymmetric(a: Parcel, b: Parcel, radius: real)
    ensures Near(a, b, radius) == Near(b, a, radius)
  {
    var dx, dz := b.x - a.x, b.z - a.z;
    assert (-dx) * (-dx) == dx * dx && (-dz) * (-dz) == dz * dz;
    assert a.x - b.x == -dx && a.z - b.z == -dz;
  }

  /** Along a row or a column parcels are near up to the radius, and at a 3:4:5 diagonal up to five per step. */
  lemma NearByDistance(a: Parcel, b: Parcel, radius: real, k: nat)
    requires radius >= 0.0
    requires b == Parcel(a.x + k, a.z) || b == Parcel(a.x, a.z + k)
    ensures Near(a, b, radius) <==> k as real <= radius
  {
    SquaresOrdered(k as real, radius);
    assert (k * k) as real == k as real * k as real;
  }

  lemma NearByDiagonal(a: Parcel, b: Parcel, radius: real, k: nat)
    requires radius >= 0.0 && (b == Parcel(a.x + 3 * k, a.z + 4 * k) || b == Parcel(a.x + 4 * k, a.z - 3 * k))
    ensures Near(a, b, radius) <==> (5 * k) as real <= radius
  {
    var n := 5 * k;
    SquaresOrdered(n as real, radius);
    assert (n * n) as real == n as real * n as real;
    assert (3 * k) * (3 * k) + (4 * k) * (4 * k) == n * n && (-3 * k) * (-3 * k) == (3 * k) * (3 * k);
  }

  lemma SquaresOrdered(x: real, y: real)
    requires x >= 0.0 && y >= 0.0
    ensures x * x <= y * y <==> x <= y
  {
    assert x * x - y * y == (x - y) * (x + y);
    if x + y > 0.0 {
      SignOfProduct(x - y, x + y);
    }
  }

  lemma SignOfProduct(u: real, v: real)
    requires v > 0.0
    ensures u * v > 0.0 <==> u > 0.0
  {
    if u <= 0.0 {
      assert (-u) * v >= 0.0;
    }
  }

  lemma NearLinksSymmetric(peers: map<Address, Peer>, radius: real)
    ensures Symmetric(NearLinks(peers, radius))
  {
    forall a, b | (a, b) in NearLinks(peers, radius) ensures (b, a) in NearLinks(peers, radius) {
      NearSymmetric(peers[a].parcel, peers[b].parcel, radius);
    }
  }

  lemma OrderedPeers(s: State)
    ensures NoDuplicates(Ordered(s.peers.Keys)) && Elements(Ordered(s.peers.Keys)) == s.peers.Keys
  {
    OrderedIncreases(s.peers.Keys);
  }

  lemma GroupsOfAreGood(s: State, cfg: Config)
    ensures GoodGroups(GroupsOf(s, cfg), s)
  {
    var order := Ordered(s.peers.Keys);
    OrderedPeers(s);
    PassKeeps(order, NearLinks(s.peers, cfg.radius), cfg.maxPeers, |order|);
    forall g, a | g in GroupsOf(s, cfg) && a in g ensures a in s.peers {
      assert a in Elements(g);
    }
  }

  /** The live peers at the start of a pass, their groups and the ids those groups take. */
  function Survivors(s: State, now: int, cfg: Config): State {
    RemoveSet(s, Stale(s, now, cfg.timeout))
  }

  function Assignment(s: State, cfg: Config): Assigned {
    AssignGroups(GroupsOf(s, cfg), s)
  }

  /** The ids of `s` that some island or peer carries. */
  ghost function Held(s: State): set<IslandId> {
    s.islands.Keys + set a | a in s.peers && s.peers[a].island.Some? :: s.peers[a].island.value
  }

  lemma PlaceIsConsistent(s: State, groups: seq<seq<Address>>)
    requires Consistent(s) && GoodGroups(groups, s)
    ensures Consistent(Place(s, AssignGroups(groups, s)))
  {
    AssignGroupsKeeps(groups, s);
    var a := AssignGroups(groups, s);
    var p := Place(s, a);
    forall id | id in p.islands ensures ConsistentIsland(p, id) {
      var g :| g in groups && IdOf(a, g) == id && a.islands[id] == Island(id, |g|, g);
      forall x | x in g ensures x in p.peers && p.peers[x].island == Some(id) {
        assert x in a.of && a.of[x] == IdOf(a, g);
      }
    }
    forall x | x in p.peers && p.peers[x].island.Some? ensures 0 < p.peers[x].island.value <= p.minted {
      var g :| g in groups && x in g;
      assert a.of[x] == IdOf(a, g);
    }
  }

  /**
    A pass keeps the index consistent; the counter never goes back; every id carried afterwards was
    carried by a peer before or is newer than every id minted before.
   */
  lemma ReclusterKeeps(s: State, now: int, cfg: Config, banned: set<Address>)
    requires Consistent(s)
    ensures var r := Recluster(s, now, cfg, banned).state;
            && Consistent(r)
            && s.minted <= r.minted
            && (forall id | id in Held(r) :: id in Held(s) || s.minted < id <= r.minted)
  {
    var live := Survivors(s, now, cfg);
    RemoveSetKeeps(s, Stale(s, now, cfg.timeout));
    GroupsOfAreGood(live, cfg);
    var gone := ChangedBy(live, Assignment(live, cfg)) * banned;
    PlacedKeeps(live, GroupsOf(live, cfg), gone);
    forall id | id in Held(live) ensures id in Held(s) {
      if id in live.islands { assert id in s.islands; }
    }
  }

  lemma PlacedKeeps(s: State, groups: seq<seq<Address>>, gone: set<Address>)
    requires Consistent(s) && GoodGroups(groups, s)
    ensures var r := RemoveSet(Place(s, AssignGroups(groups, s)), gone);
            && Consistent(r) && s.minted <= r.minted
            && (forall id | id in Held(r) :: id in Held(s) || s.minted < id <= r.minted)
  {
    var a := AssignGroups(groups, s);
    PlaceIsConsistent(s, groups);
    AssignGroupsKeeps(groups, s);
    RemoveSetKeeps(Place(s, a), gone);
    forall id | id in Held(RemoveSet(Place(s, a), gone)) ensures id in Held(s) || s.minted < id <= a.minted {
      IdComesFromGroup(s, groups, gone, id);
      var g :| g in groups && IdOf(a, g) == id;
      if id <= s.minted {
        assert KeptId(g, id, s);
      }
    }
  }

  lemma IdComesFromGroup(s: State, groups: seq<seq<Address>>, gone: set<Address>, id: IslandId)
    requires Consistent(s) && GoodGroups(groups, s)
    requires id in Held(RemoveSet(Place(s, AssignGroups(groups, s)), gone))
    ensures exists g :: g in groups && IdOf(AssignGroups(groups, s), g) == id
  {
    var a := AssignGroups(groups, s);
    AssignGroupsKeeps(groups, s);
    var r := RemoveSet(Place(s, a), gone);
    if id in r.islands {
      assert id in a.islands;
    } else {
      var x :| x in r.peers && r.peers[x].island == Some(id);
      assert x in Members(groups);
      var g :| g in groups && x in g;
      assert a.of[x] == IdOf(a, g);
    }
  }

  // ----- who is assigned -----

  /** Who stays and what island each carries after a pass. */
  lemma ReclusterAssignment(s: State, now: int, cfg: Config, banned: set<Address>, x: Address)
    requires Consistent(s)
    ensures var live := Survivors(s, now, cfg);
            var r := Recluster(s, now, cfg, banned).state;
            var left := LeftBehind(Ordered(live.peers.Keys), NearLinks(live.peers, cfg.radius), cfg.maxPeers);
            && (x in live.peers <==> x in s.peers && now - s.peers[x].heartbeat <= cfg.timeout)
            && (x in live.peers && x !in banned ==> x in r.peers)
            && (x in r.peers ==> x in live.peers && (r.peers[x].island.None? <==> x in left))
  {
    var live := Survivors(s, now, cfg);
    var groups := GroupsOf(live, cfg);
    RemoveSetKeeps(s, Stale(s, now, cfg.timeout));
    GroupsOfAreGood(live, cfg);
    AssignGroupsKeeps(groups, live);
    OrderedPeers(live);
    NearLinksSymmetric(live.peers, cfg.radius);
    GroupsArePartition(Ordered(live.peers.Keys), NearLinks(live.peers, cfg.radius), cfg.maxPeers);
  }

  /** With a cap of at most one, or when no cluster of near peers exceeds it, every peer gets an island. */
  lemma EveryoneAssigned(s: State, now: int, cfg: Config, banned: set<Address>)
    requires Consistent(s)
    requires var live := Survivors(s, now, cfg);
             cfg.maxPeers <= 1 || NoComponentExceeds(live.peers.Keys, NearLinks(live.peers, cfg.radius), cfg.maxPeers)
    ensures var r := Recluster(s, now, cfg, banned).state;
            forall x | x in r.peers :: r.peers[x].island.Some?
  {
    var live := Survivors(s, now, cfg);
    var order, links := Ordered(live.peers.Keys), NearLinks(live.peers, cfg.radius);
    OrderedPeers(live);
    NearLinksSymmetric(live.peers, cfg.radius);
    if cfg.maxPeers <= 1 {
      SmallCapLeavesNobody(order, links, cfg.maxPeers, |order|);
    } else {
      GroupsAreComponents(order, links, cfg.maxPeers);
    }
    var r := Recluster(s, now, cfg, banned).state;
    forall x | x in r.peers ensures r.peers[x].island.Some? {
      ReclusterAssignment(s, now, cfg, banned, x);
    }
  }

  function Unassigned(s: State): set<Address> {
    set x | x in s.peers && s.peers[x].island.None?
  }

  /** Without bans among the survivors, those without an island are the ones the search left behind. */
  lemma UnassignedAreLeft(s: State, now: int, cfg: Config, banned: set<Address>)
    requires Consistent(s) && Survivors(s, now, cfg).peers.Keys !! banned
    ensures var live := Survivors(s, now, cfg);
      Unassigned(Recluster(s, now, cfg, banned).state)
        == LeftBehind(Ordered(live.peers.Keys), NearLinks(live.peers, cfg.radius), cfg.maxPeers)
  {
    var live := Survivors(s, now, cfg);
    var left := LeftBehind(Ordered(live.peers.Keys), NearLinks(live.peers, cfg.radius), cfg.maxPeers);
    LeftAreLive(live, cfg);
    forall x ensures x in Unassigned(Recluster(s, now, cfg, banned).state) <==> x in left {
      ReclusterAssignment(s, now, cfg, banned, x);
    }
  }

  lemma LeftAreLive(s: State, cfg: Config)
    ensures LeftBehind(Ordered(s.peers.Keys), NearLinks(s.peers, cfg.radius), cfg.maxPeers) <= s.peers.Keys
  {
    OrderedPeers(s);
    NearLinksSymmetric(s.peers, cfg.radius);
    GroupsArePartition(Ordered(s.peers.Keys), NearLinks(s.peers, cfg.radius), cfg.maxPeers);
  }

  /** That condition is tight: of more peers than a cap of at least two, all near one another, exactly as many as
      exceed the cap end without an island. */
  lemma CrowdLeavesUnassigned(s: State, now: int, cfg: Config, banned: set<Address>)
    requires Consistent(s)
    requires var live := Survivors(s, now, cfg);
      && 2 <= cfg.maxPeers < |live.peers| && live.peers.Keys !! banned
      && AllNear(live.peers, cfg.radius)
    ensures |Unassigned(Recluster(s, now, cfg, banned).state)| == |Survivors(s, now, cfg).peers| - cfg.maxPeers
  {
    UnassignedAreLeft(s, now, cfg, banned);
    CrowdOfPeers(Survivors(s, now, cfg), cfg);
  }

  ghost predicate AllNear(peers: map<Address, Peer>, radius: real) {
    forall a, b | a in peers && b in peers :: Near(peers[a].parcel, peers[b].parcel, radius)
  }

  lemma CrowdOfPeers(s: State, cfg: Config)
    requires 2 <= cfg.maxPeers < |s.peers| && AllNear(s.peers, cfg.radius)
    ensures |LeftBehind(Ordered(s.peers.Keys), NearLinks(s.peers, cfg.radius), cfg.maxPeers)|
         == |s.peers| - cfg.maxPeers
  {
    var order, links := Ordered(s.peers.Keys), NearLinks(s.peers, cfg.radius);
    OrderedPeers(s);
    assert |order| == |s.peers.Keys| == |s.peers|;
    assert AllLinked(s.peers.Keys, links);
    CrowdLeavesRest(order, links, cfg.maxPeers);
  }

  // ----- when the index lists every assigned peer -----

  ghost predicate DistinctIds(groups: seq<seq<Address>>, a: Assigned) {
    forall i, j | 0 <= i < j < |groups| :: IdOf(a, groups[i]) != IdOf(a, groups[j])
  }

  lemma DistinctIdsListEveryone(s: State, groups: seq<seq<Address>>)
    requires Consistent(s) && GoodGroups(groups, s) && DistinctIds(groups, AssignGroups(groups, s))
    ensures AllListed(Place(s, AssignGroups(groups, s)))
  {
    var a := AssignGroups(groups, s);
    AssignGroupsKeeps(groups, s);
    var p := Place(s, a);
    forall x | x in p.peers && p.peers[x].island.Some?
      ensures p.peers[x].island.value in p.islands && x in p.islands[p.peers[x].island.value].peers
    {
      assert x in Members(groups);
      var g :| g in groups && x in g;
      var id := IdOf(a, g);
      assert a.of[x] == id;
      var h :| h in groups && IdOf(a, h) == id && a.islands[id] == Island(id, |h|, h);
      var i :| 0 <= i < |groups| && groups[i] == g;
      var j :| 0 <= j < |groups| && groups[j] == h;
      assert i == j;
    }
  }

  lemma OtherGroupDisjoint(groups: seq<seq<Address>>, i: nat, h: seq<Address>)
    requires PairwiseDisjoint(groups) && i < |groups| && h in groups && groups[i] != h
    ensures Elements(groups[i]) !! Elements(h)
  {
    var k :| 0 <= k < |groups| && groups[k] == h;
    if i < k {
      assert Elements(groups[i]) !! Elements(groups[k]);
    } else {
      assert Elements(groups[k]) !! Elements(groups[i]);
    }
  }

  lemma UnlistedMember(s: State, a: Assigned, x: Address, id: IslandId, h: seq<Address>, gone: set<Address>)
    requires x in s.peers && x in a.of && a.of[x] == id && s.peers[x].island == Some(id)
    requires gone <= ChangedBy(s, a)
    requires id in a.islands && a.islands[id].peers == h && x !in h
    ensures !AllListed(RemoveSet(Place(s, a), gone))
  {
    var r := RemoveSet(Place(s, a), gone);
    assert x in r.peers && r.peers[x].island == Some(id);
    assert id in r.islands ==> x !in r.islands[id].peers;
  }

  /** Two groups with one id leave a peer of the overwritten group assigned but unlisted. */
  lemma SharedIdHidesPeer(s: State, groups: seq<seq<Address>>, i: nat, j: nat, gone: set<Address>)
    requires Consistent(s) && GoodGroups(groups, s) && i < j < |groups|
    requires var a := AssignGroups(groups, s);
             IdOf(a, groups[i]) == IdOf(a, groups[j]) && gone <= ChangedBy(s, a)
    ensures !AllListed(RemoveSet(Place(s, AssignGroups(groups, s)), gone))
  {
    var a := AssignGroups(groups, s);
    AssignGroupsKeeps(groups, s);
    var id := IdOf(a, groups[i]);
    assert groups[i] in groups && groups[j] in groups;
    assert groups[i] != groups[j] by {
      assert Elements(groups[i]) !! Elements(groups[j]) && groups[i][0] in Elements(groups[i]);
    }
    var h :| h in groups && IdOf(a, h) == id && a.islands[id] == Island(id, |h|, h);
    var m := if groups[i] == h then j else i;
    OtherGroupDisjoint(groups, m, h);
    assert KeptId(groups[m], id, s);
    var x :| x in groups[m] && x in s.peers && s.peers[x].island == Some(id);
    assert x in Elements(groups[m]);
    UnlistedMember(s, a, x, id, h, gone);
  }

  /** After a pass every assigned peer is listed by its island if and only if the groups chose distinct ids. */
  lemma AllListedIffDistinct(s: State, now: int, cfg: Config, banned: set<Address>)
    requires Consistent(s)
    ensures var live := Survivors(s, now, cfg);
            AllListed(Recluster(s, now, cfg, banned).state) <==> DistinctIds(GroupsOf(live, cfg), Assignment(live, cfg))
  {
    var live := Survivors(s, now, cfg);
    RemoveSetKeeps(s, Stale(s, now, cfg.timeout));
    var groups, a := GroupsOf(live, cfg), Assignment(live, cfg);
    GroupsOfAreGood(live, cfg);
    PlaceIsConsistent(live, groups);
    var gone := ChangedBy(live, a) * banned;
    if DistinctIds(groups, a) {
      DistinctIdsListEveryone(live, groups);
      RemoveSetKeeps(Place(live, a), gone);
    } else {
      var i, j :| 0 <= i < j < |groups| && IdOf(a, groups[i]) == IdOf(a, groups[j]);
      SharedIdHidesPeer(live, groups, i, j, gone);
    }
  }

  // ----- a second pass at once changes nothing -----

  lemma {:induction false} LastLargestOfEqual(ids: seq<IslandId>, id: IslandId, islands: map<IslandId, Island>)
    requires ids != [] && forall i | 0 <= i < |ids| :: ids[i] == id
    ensures LastLargest(ids, islands) == id
  {
    if |ids| > 1 {
      LastLargestOfEqual(ids[..|ids| - 1], id, islands);
    }
  }

  lemma {:induction false} PreviousIdsOfEqual(group: seq<Address>, id: IslandId, peers: map<Address, Peer>)
    requires forall x | x in group :: x in peers && peers[x].island == Some(id)
    ensures PreviousIds(group, peers) == seq(|group|, i => id)
  {
    if group != [] {
      assert group[|group| - 1] in group;
      PreviousIdsOfEqual(group[..|group| - 1], id, peers);
    }
  }

  /** The `n`-th group takes its id after the groups before it. */
  lemma AssignTurn(s: State, groups: seq<seq<Address>>, n: nat)
    requires n < |groups|
    ensures AssignGroups(groups[..n + 1], s) == AssignGroup(AssignGroups(groups[..n], s), groups[n], s)
  {
    assert groups[..n + 1][..n] == groups[..n] && groups[..n + 1][n] == groups[n];
  }

  lemma LaterGroupDisjoint(s: State, groups: seq<seq<Address>>, n: nat)
    requires GoodGroups(groups, s) && n < |groups|
    ensures groups[n] in groups && groups[n] != [] && Members(groups[..n]) !! Elements(groups[n])
  {
    PrefixGood(groups, s, n + 1);
    GroupsPrefix(groups[..n + 1], s);
    assert groups[..n + 1][..n] == groups[..n] && groups[..n + 1][n] == groups[n];
  }

  lemma IdStaysOnce(s: State, groups: seq<seq<Address>>, n: nat, i: nat)
    requires Consistent(s) && GoodGroups(groups, s) && i < n < |groups|
    ensures IdOf(AssignGroups(groups[..n + 1], s), groups[i]) == IdOf(AssignGroups(groups[..n], s), groups[i])
  {
    PrefixGood(groups, s, n);
    AssignGroupsKeeps(groups[..n], s);
    AssignTurn(s, groups, n);
    LaterGroupDisjoint(s, groups, n);
    EarlierIdsStay(AssignGroups(groups[..n], s), groups[..n], groups[n], s);
    assert groups[..n][i] in groups[..n];
  }

  lemma {:induction false} IdStays(s: State, groups: seq<seq<Address>>, n: nat, i: nat)
    requires Consistent(s) && GoodGroups(groups, s) && i < n <= |groups|
    ensures IdOf(AssignGroups(groups[..n], s), groups[i]) == IdOf(AssignGroups(groups, s), groups[i])
    decreases |groups| - n
  {
    if n == |groups| {
      assert groups[..n] == groups;
    } else {
      IdStays(s, groups, n + 1, i);
      IdStaysOnce(s, groups, n, i);
    }
  }

  /** The id a group takes at its turn is the one it still has at the end. */
  lemma IdFixedAtTurn(s: State, groups: seq<seq<Address>>, n: nat)
    requires Consistent(s) && GoodGroups(groups, s) && n < |groups|
    ensures ChosenId(groups[n], s.peers, s.islands, AssignGroups(groups[..n], s).minted)
            == IdOf(AssignGroups(groups, s), groups[n])
  {
    PrefixGood(groups, s, n);
    AssignGroupsKeeps(groups[..n], s);
    AssignTurn(s, groups, n);
    LaterGroupDisjoint(s, groups, n);
    EarlierIdsStay(AssignGroups(groups[..n], s), groups[..n], groups[n], s);
    IdStays(s, groups, n + 1, n);
  }

  lemma PlacedMembers(s: State, a: Assigned, groups: seq<seq<Address>>, g: seq<Address>)
    requires MembersShareId(a, groups, s) && g in groups && (forall x | x in g :: x in s.peers)
    ensures forall x | x in g :: x in Place(s, a).peers && Place(s, a).peers[x].island == Some(IdOf(a, g))
  {
  }

  /** A group all of whose members carry one id keeps it. */
  lemma EqualGroupKeepsId(g: seq<Address>, id: IslandId, p: State, minted: nat)
    requires g != [] && forall x | x in g :: x in p.peers && p.peers[x].island == Some(id)
    ensures PreviousIds(g, p.peers) != [] && ChosenId(g, p.peers, p.islands, minted) == id
  {
    PreviousIdsOfEqual(g, id, p.peers);
    LastLargestOfEqual(PreviousIds(g, p.peers), id, p.islands);
  }

  /** Once placed, a group offers only its own id. */
  lemma PlacedGroupKeepsId(s: State, groups: seq<seq<Address>>, g: seq<Address>, minted: nat)
    requires Consistent(s) && GoodGroups(groups, s) && g in groups
    ensures var a := AssignGroups(groups, s);
            var p := Place(s, a);
            PreviousIds(g, p.peers) != [] && ChosenId(g, p.peers, p.islands, minted) == IdOf(a, g)
  {
    var a := AssignGroups(groups, s);
    AssignGroupsKeeps(groups, s);
    PlacedMembers(s, a, groups, g);
    EqualGroupKeepsId(g, IdOf(a, g), Place(s, a), minted);
  }

  /** Giving ids again to the first `n` groups, from the state the first round left, repeats the first round. */
  lemma {:induction false} AssignAgain(s: State, groups: seq<seq<Address>>, n: nat)
    requires Consistent(s) && GoodGroups(groups, s) && n <= |groups|
    ensures var a := AssignGroups(groups, s);
            var again := AssignGroups(groups[..n], Place(s, a));
            var first := AssignGroups(groups[..n], s);
            again.islands == first.islands && again.of == first.of && again.minted == a.minted
  {
    if n > 0 {
      var p := Place(s, AssignGroups(groups, s));
      AssignAgain(s, groups, n - 1);
      AssignTurn(s, groups, n - 1);
      AssignTurn(p, groups, n - 1);
      IdFixedAtTurn(s, groups, n - 1);
      PlacedGroupKeepsId(s, groups, groups[n - 1], AssignGroups(groups[..n - 1], p).minted);
    }
  }

  lemma SameGroupsAfterPlace(s: State, a: Assigned, cfg: Config)
    ensures GroupsOf(Place(s, a), cfg) == GroupsOf(s, cfg)
  {
    var p := Place(s, a);
    assert p.peers.Keys == s.peers.Keys;
    assert NearLinks(p.peers, cfg.radius) == NearLinks(s.peers, cfg.radius);
  }

  /**
    Reclustering again at the same instant, after a pass in which no changed peer was banned, yields the
    same state and emits no event, even when groups shared an id or peers were left behind.
   */
  lemma ReclusterIdempotent(s: State, now: int, cfg: Config, banned: set<Address>, bannedNow: set<Address>)
    requires Consistent(s)
    requires var live := Survivors(s, now, cfg); ChangedBy(live, Assignment(live, cfg)) !! banned
    ensures var once := Recluster(s, now, cfg, banned).state;
            Recluster(once, now, cfg, bannedNow) == Reclustered(once, {})
  {
    var live := Survivors(s, now, cfg);
    RemoveSetKeeps(s, Stale(s, now, cfg.timeout));
    var groups, a := GroupsOf(live, cfg), Assignment(live, cfg);
    GroupsOfAreGood(live, cfg);
    PlaceIsConsistent(live, groups);
    AssignGroupsKeeps(groups, live);
    var placed := Place(live, a);
    assert ChangedBy(live, a) * banned == {};
    RemoveSetNothing(placed);
    var once := Recluster(s, now, cfg, banned).state;
    assert once == placed;
    PassAgain(live, now, cfg, bannedNow);
  }

  lemma QuietPass(s: State, now: int, cfg: Config, banned: set<Address>)
    requires Consistent(s) && Stale(s, now, cfg.timeout) == {}
    requires ChangedBy(s, Assignment(s, cfg)) == {} && Place(s, Assignment(s, cfg)) == s
    ensures Recluster(s, now, cfg, banned) == Reclustered(s, {})
  {
    RemoveSetNothing(s);
    var a := Assignment(s, cfg);
    assert ChangedBy(s, a) * banned == {};
    NothingTold(a, s, banned);
  }

  lemma NothingTold(a: Assigned, s: State, banned: set<Address>)
    ensures Departures({}) == {} && Told({}, a, s, banned) == {}
  {
  }

  lemma PlaceTwice(s: State, a: Assigned)
    ensures Place(Place(s, a), a) == Place(s, a)
    ensures a.of.Keys <= s.peers.Keys ==> ChangedBy(Place(s, a), a) == {}
  {
  }

  /** The second pass, from the state where everyone was just placed. */
  lemma PassAgain(live: State, now: int, cfg: Config, bannedNow: set<Address>)
    requires Consistent(live) && Stale(live, now, cfg.timeout) == {}
    ensures var once := Place(live, Assignment(live, cfg));
            Recluster(once, now, cfg, bannedNow) == Reclustered(once, {})
  {
    var groups, a := GroupsOf(live, cfg), Assignment(live, cfg);
    var once := Place(live, a);
    GroupsOfAreGood(live, cfg);
    PlaceIsConsistent(live, groups);
    SameGroupsAfterPlace(live, a, cfg);
    AssignAgain(live, groups, |groups|);
    assert groups[..|groups|] == groups;
    assert Assignment(once, cfg) == a;
    AssignGroupsKeeps(groups, live);
    PlaceTwice(live, a);
    QuietPass(once, now, cfg, bannedNow);
  }

  // ----- distinct ids, read off the state before the pass -----

  /** No two groups with members from earlier islands come, for the most part, from the same one. */
  ghost predicate DistinctOrigins(groups: seq<seq<Address>>, s: State) {
    forall i, j | 0 <= i < j < |groups| :: !SameOrigin(groups[i], groups[j], s)
  }

  /** Both groups would keep the same id. */
  ghost predicate SameOrigin(g: seq<Address>, h: seq<Address>, s: State) {
    && PreviousIds(g, s.peers) != [] && PreviousIds(h, s.peers) != []
    && LastLargest(PreviousIds(g, s.peers), s.islands) == LastLargest(PreviousIds(h, s.peers), s.islands)
  }

  lemma IdOfTurn(s: State, groups: seq<seq<Address>>, n: nat)
    requires Consistent(s) && GoodGroups(groups, s) && n < |groups|
    ensures var id, ids := IdOf(AssignGroups(groups, s), groups[n]), PreviousIds(groups[n], s.peers);
      if ids == [] then id > s.minted else id == LastLargest(ids, s.islands)
  {
    IdFixedAtTurn(s, groups, n);
    PrefixGood(groups, s, n);
    AssignGroupsKeeps(groups[..n], s);
  }

  /** Groups take distinct ids if and only if no two of them have the same origin. */
  lemma DistinctIdsIffOrigins(s: State, groups: seq<seq<Address>>)
    requires Consistent(s) && GoodGroups(groups, s)
    ensures DistinctIds(groups, AssignGroups(groups, s)) <==> DistinctOrigins(groups, s)
  {
    var a := AssignGroups(groups, s);
    AssignGroupsKeeps(groups, s);
    forall i, j | 0 <= i < j < |groups|
      ensures IdOf(a, groups[i]) == IdOf(a, groups[j]) <==> SameOrigin(groups[i], groups[j], s) {
      IdOfTurn(s, groups, i);
      IdOfTurn(s, groups, j);
    }
  }

  /** After a pass every assigned peer is listed by its island if and only if no two groups had the same origin. */
  lemma AllListedIffDistinctOrigins(s: State, now: int, cfg: Config, banned: set<Address>)
    requires Consistent(s)
    ensures var live := Survivors(s, now, cfg);
            AllListed(Recluster(s, now, cfg, banned).state) <==> DistinctOrigins(GroupsOf(live, cfg), live)
  {
    var live := Survivors(s, now, cfg);
    RemoveSetKeeps(s, Stale(s, now, cfg.timeout));
    GroupsOfAreGood(live, cfg);
    AllListedIffDistinct(s, now, cfg, banned);
    DistinctIdsIffOrigins(live, GroupsOf(live, cfg));
  }

  // ----- two peers -----

  lemma PairComponents(a: Address, b: Address, links: Links, cap: nat)
    requires cap >= 2
    ensures NoComponentExceeds({a, b}, links, cap)
  {
    forall c | c in Components({a, b}, links) ensures |c| <= Cap(cap) {
      SubsetNotLarger(c, {a, b});
    }
  }

  lemma PairPlaced(s: State, cfg: Config, a: Address, b: Address) returns (id: IslandId)
    requires Consistent(s) && s.peers.Keys == {a, b} && cfg.maxPeers >= 2
    requires Near(s.peers[a].parcel, s.peers[b].parcel, cfg.radius)
    ensures var p := Place(s, Assignment(s, cfg));
      && Consistent(p) && p.peers.Keys == {a, b}
      && forall x | x in p.peers :: p.peers[x] == s.peers[x].(island := Some(id))
  {
    var g := PairGroup(s, cfg, a, b);
    GroupsOfAreGood(s, cfg);
    id := GroupPlaced(s, GroupsOf(s, cfg), g);
  }

  lemma GroupPlaced(s: State, groups: seq<seq<Address>>, g: seq<Address>) returns (id: IslandId)
    requires Consistent(s) && GoodGroups(groups, s) && g in groups
    ensures var p := Place(s, AssignGroups(groups, s));
      Consistent(p) && p.peers.Keys == s.peers.Keys
      && forall x | x in p.peers && x in g :: p.peers[x] == s.peers[x].(island := Some(id))
  {
    PlaceIsConsistent(s, groups);
    AssignGroupsKeeps(groups, s);
    id := PlacedOn(s, AssignGroups(groups, s), groups, g);
  }

  lemma PlacedOn(s: State, a: Assigned, groups: seq<seq<Address>>, g: seq<Address>) returns (id: IslandId)
    requires MembersShareId(a, groups, s) && g in groups
    ensures forall x | x in Place(s, a).peers && x in g :: Place(s, a).peers[x] == s.peers[x].(island := Some(id))
  {
    id := IdOf(a, g);
  }

  /** Two near peers share an island after a pass with a cap of at least two. */
  lemma PairTogether(s: State, now: int, cfg: Config, a: Address, b: Address) returns (id: IslandId)
    requires Consistent(s) && s.peers.Keys == {a, b} && Stale(s, now, cfg.timeout) == {} && cfg.maxPeers >= 2
    requires Near(s.peers[a].parcel, s.peers[b].parcel, cfg.radius)
    ensures var r := Recluster(s, now, cfg, {}).state;
      && Consistent(r) && r.peers.Keys == {a, b}
      && forall x | x in r.peers :: r.peers[x] == s.peers[x].(island := Some(id))
  {
    id := PairPlaced(s, cfg, a, b);
    PassWithoutBans(s, now, cfg);
  }

  lemma PassWithoutBans(s: State, now: int, cfg: Config)
    requires Consistent(s) && Stale(s, now, cfg.timeout) == {}
    requires Consistent(Place(s, Assignment(s, cfg)))
    ensures Recluster(s, now, cfg, {}).state == Place(s, Assignment(s, cfg))
  {
    RemoveSetNothing(s);
    RemoveSetNothing(Place(s, Assignment(s, cfg)));
    assert ChangedBy(s, Assignment(s, cfg)) * {} == {};
  }

  lemma PairGroup(s: State, cfg: Config, a: Address, b: Address) returns (g: seq<Address>)
    requires s.peers.Keys == {a, b} && Near(s.peers[a].parcel, s.peers[b].parcel, cfg.radius) && cfg.maxPeers >= 2
    ensures g in GroupsOf(s, cfg) && a in g && b in g
  {
    var order, links := Ordered(s.peers.Keys), NearLinks(s.peers, cfg.radius);
    OrderedPeers(s);
    NearLinksSymmetric(s.peers, cfg.radius);
    PairComponents(a, b, links, cfg.maxPeers);
    GroupsAreComponents(order, links, cfg.maxPeers);
    JoinedSelf(a, {a, b}, links);
    JoinedStep(a, a, b, {a, b}, links);
    var c := ComponentOf(a, {a, b}, links);
    assert c in GroupSets(GroupsOf(s, cfg));
    g :| g in GroupsOf(s, cfg) && Elements(g) == c;
    assert a in Elements(g) && b in Elements(g);
  }

  /** A peer near no other is a group of its own. */
  lemma LoneGroup(s: State, cfg: Config, a: Address, b: Address) returns (i: nat)
    requires s.peers.Keys == {a, b} && a != b && (a, b) !in NearLinks(s.peers, cfg.radius) && cfg.maxPeers >= 2
    ensures i < |GroupsOf(s, cfg)| && a in GroupsOf(s, cfg)[i] && b !in GroupsOf(s, cfg)[i]
  {
    var order, links := Ordered(s.peers.Keys), NearLinks(s.peers, cfg.radius);
    OrderedPeers(s);
    NearLinksSymmetric(s.peers, cfg.radius);
    PairComponents(a, b, links, cfg.maxPeers);
    GroupsAreComponents(order, links, cfg.maxPeers);
    i := LoneComponent(GroupsOf(s, cfg), links, a, b);
  }

  lemma LoneComponent(groups: seq<seq<Address>>, links: Links, a: Address, b: Address) returns (i: nat)
    requires a != b && (a, b) !in links && GroupSets(groups) == Components({a, b}, links)
    ensures i < |groups| && a in groups[i] && b !in groups[i]
  {
    JoinedSelf(a, {a, b}, links);
    ComponentInClosed(a, {a}, {a, b}, links);
    var c := ComponentOf(a, {a, b}, links);
    assert c in GroupSets(groups);
    var g :| g in groups && Elements(g) == c;
    assert a in Elements(g) && b !in Elements(g);
    i :| 0 <= i < |groups| && groups[i] == g;
  }

  /** Two peers of one island that have moved apart: both groups keep its id. */
  lemma PairApart(s: State, cfg: Config, a: Address, b: Address, id: IslandId)
    requires Consistent(s) && s.peers.Keys == {a, b} && a != b && cfg.maxPeers >= 2
    requires !Near(s.peers[a].parcel, s.peers[b].parcel, cfg.radius)
    requires s.peers[a].island == Some(id) && s.peers[b].island == Some(id)
    ensures !DistinctOrigins(GroupsOf(s, cfg), s)
  {
    NearSymmetric(s.peers[a].parcel, s.peers[b].parcel, cfg.radius);
    GroupsOfAreGood(s, cfg);
    var i := LoneGroup(s, cfg, a, b);
    var j := LoneGroup(s, cfg, b, a);
    SharedOrigin(s, GroupsOf(s, cfg), i, j, id);
  }

  lemma SharedOrigin(s: State, groups: seq<seq<Address>>, i: nat, j: nat, id: IslandId)
    requires GoodGroups(groups, s) && i < |groups| && j < |groups| && i != j
    requires groups[i] != [] && groups[j] != [] && forall x | x in s.peers :: s.peers[x].island == Some(id)
    ensures !DistinctOrigins(groups, s)
  {
    OriginOf(s, groups, i, id);
    OriginOf(s, groups, j, id);
    assert SameOrigin(groups[i], groups[j], s) && SameOrigin(groups[j], groups[i], s);
  }

  lemma OriginOf(s: State, groups: seq<seq<Address>>, i: nat, id: IslandId)
    requires GoodGroups(groups, s) && i < |groups| && groups[i] != []
    requires forall x | x in s.peers :: s.peers[x].island == Some(id)
    ensures PreviousIds(groups[i], s.peers) != [] && LastLargest(PreviousIds(groups[i], s.peers), s.islands) == id
  {
    assert groups[i] in groups;
    PreviousIdsOfEqual(groups[i], id, s.peers);
    LastLargestOfEqual(PreviousIds(groups[i], s.peers), id, s.islands);
  }
}
