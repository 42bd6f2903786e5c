/**
  What a pass tells its subscribers (crates/catalyrst-archipelago/src/cluster.rs, the end of `recluster_once`),
  read off the states before and after it.
 */
module Announcements {
  import opened Wrappers
  import opened Sequences
  import opened IslandSearch
  import opened ClusterModel
  import opened Reclustering

  predicate Survives(s: State, now: int, cfg: Config, x: Address) {
    x in s.peers && now - s.peers[x].heartbeat <= cfg.timeout
  }

  /** `x` ends on another island than it was on, `u` being the state without bans. */
  predicate Moves(s: State, u: State, x: Address) {
    x in s.peers && x in u.peers && u.peers[x].island.Some? && u.peers[x].island != s.peers[x].island
  }

  /** A pass without bans: who is left, unchanged but for the island. */
  lemma PassWithoutBansKeepsPeers(s: State, now: int, cfg: Config, x: Address)
    requires Consistent(s)
    ensures var u := Recluster(s, now, cfg, {}).state;
      && (x in u.peers <==> Survives(s, now, cfg, x))
      && (x in u.peers ==> u.peers[x] == s.peers[x].(island := u.peers[x].island))
      && (x in u.peers && u.peers[x].island.Some? ==> u.peers[x].island.value in u.islands)
  {
    var live := Survivors(s, now, cfg);
    PlacedState(s, now, cfg);
    RemoveSetKeeps(s, Stale(s, now, cfg.timeout));
    GroupsOfAreGood(live, cfg);
    AssignGroupsKeeps(GroupsOf(live, cfg), live);
    var a := Assignment(live, cfg);
    if x in a.of {
      assert x in Members(GroupsOf(live, cfg));
      var g :| g in GroupsOf(live, cfg) && x in g;
      assert a.of[x] == IdOf(a, g);
    }
  }

  /** The state without bans is the placed one. */
  lemma PlacedState(s: State, now: int, cfg: Config)
    requires Consistent(s)
    ensures var live := Survivors(s, now, cfg);
      && Consistent(live) && live.peers.Keys !! Stale(s, now, cfg.timeout)
      && Recluster(s, now, cfg, {}).state == Place(live, Assignment(live, cfg))
  {
    var live := Survivors(s, now, cfg);
    RemoveSetKeeps(s, Stale(s, now, cfg.timeout));
    GroupsOfAreGood(live, cfg);
    PlaceIsConsistent(live, GroupsOf(live, cfg));
    RemoveSetNothing(Place(live, Assignment(live, cfg)));
    assert ChangedBy(live, Assignment(live, cfg)) * {} == {};
  }

  /** Bans only take out those who would move. */
  lemma PassWithBans(s: State, now: int, cfg: Config, banned: set<Address>)
    requires Consistent(s)
    ensures var u := Recluster(s, now, cfg, {}).state;
      Recluster(s, now, cfg, banned).state == RemoveSet(u, set x | x in banned && Moves(s, u, x))
  {
    var live := Survivors(s, now, cfg);
    var a, u := Assignment(live, cfg), Recluster(s, now, cfg, {}).state;
    PlacedState(s, now, cfg);
    forall x ensures x in ChangedBy(live, a) * banned <==> x in banned && Moves(s, u, x) {
      MovesIffChanged(s, now, cfg, x);
    }
    assert ChangedBy(live, a) * banned == set x | x in banned && Moves(s, u, x);
  }

  lemma MovesIffChanged(s: State, now: int, cfg: Config, x: Address)
    requires Consistent(s)
    ensures var live := Survivors(s, now, cfg);
      x in ChangedBy(live, Assignment(live, cfg)) <==> Moves(s, Recluster(s, now, cfg, {}).state, x)
  {
    PlacedState(s, now, cfg);
  }

  /** Whom the pass says has left: those whose heartbeat is too old, and the banned who would move. */
  lemma LeftExactly(s: State, now: int, cfg: Config, banned: set<Address>, x: Address)
    requires Consistent(s)
    ensures var u := Recluster(s, now, cfg, {}).state;
      PeerLeft(x) in Recluster(s, now, cfg, banned).events <==>
        (x in s.peers && now - s.peers[x].heartbeat > cfg.timeout) || (x in banned && Moves(s, u, x))
  {
    MovesIffChanged(s, now, cfg, x);
    ChangedAreAssigned(s, now, cfg);
  }

  lemma ChangedAreAssigned(s: State, now: int, cfg: Config)
    requires Consistent(s)
    ensures var live := Survivors(s, now, cfg);
      var a := Assignment(live, cfg);
      forall x | x in ChangedBy(live, a) :: x in a.of && a.of[x] in a.islands && x in live.peers
  {
    var live := Survivors(s, now, cfg);
    RemoveSetKeeps(s, Stale(s, now, cfg.timeout));
    GroupsOfAreGood(live, cfg);
    AssignGroupsKeeps(GroupsOf(live, cfg), live);
    var a := Assignment(live, cfg);
    forall x | x in ChangedBy(live, a) ensures a.of[x] in a.islands {
      assert x in Members(GroupsOf(live, cfg));
      var g :| g in GroupsOf(live, cfg) && x in g;
      assert a.of[x] == IdOf(a, g);
    }
  }

  /** Whom it tells an island: those who move and are not banned, each its new island with all its members. */
  lemma ToldExactly(s: State, now: int, cfg: Config, banned: set<Address>,
                    x: Address, id: IslandId, from: Option<IslandId>, members: seq<Address>)
    requires Consistent(s)
    ensures var u := Recluster(s, now, cfg, {}).state;
      IslandChanged(x, id, from, members) in Recluster(s, now, cfg, banned).events <==>
        x !in banned && Moves(s, u, x) && u.peers[x].island == Some(id) && from == s.peers[x].island
             && id in u.islands && members == u.islands[id].peers
  {
    MovesIffChanged(s, now, cfg, x);
    ChangedAreAssigned(s, now, cfg);
    PlacedState(s, now, cfg);
  }

  /** With nobody banned all of this can be read off the state before the pass and the one after it. */
  lemma EventsWithoutBans(s: State, now: int, cfg: Config,
                          x: Address, id: IslandId, from: Option<IslandId>, members: seq<Address>)
    requires Consistent(s)
    ensures var (r, events) := (Recluster(s, now, cfg, {}).state, Recluster(s, now, cfg, {}).events);
      && (IslandChanged(x, id, from, members) in events <==>
            && Survives(s, now, cfg, x) && x in r.peers && r.peers[x].island == Some(id)
            && from == s.peers[x].island && from != Some(id) && id in r.islands && members == r.islands[id].peers)
      && (PeerLeft(x) in events <==> x in s.peers && now - s.peers[x].heartbeat > cfg.timeout)
  {
    ToldExactly(s, now, cfg, {}, x, id, from, members);
    LeftExactly(s, now, cfg, {}, x);
    PassWithoutBansKeepsPeers(s, now, cfg, x);
  }

  /** A banned peer that would move is gone, is said to have left and is told nothing; any other banned peer stays. */
  lemma BannedMovers(s: State, now: int, cfg: Config, banned: set<Address>, x: Address)
    requires Consistent(s) && x in banned && Survives(s, now, cfg, x)
    ensures var (r, events) := (Recluster(s, now, cfg, banned).state, Recluster(s, now, cfg, banned).events);
      var moves := Moves(s, Recluster(s, now, cfg, {}).state, x);
      && (x in r.peers <==> !moves) && (PeerLeft(x) in events <==> moves)
      && forall id, from, members :: IslandChanged(x, id, from, members) !in events
  {
    PassWithBans(s, now, cfg, banned);
    PassWithoutBansKeepsPeers(s, now, cfg, x);
    LeftExactly(s, now, cfg, banned, x);
    forall id, from, members ensures IslandChanged(x, id, from, members) !in Recluster(s, now, cfg, banned).events {
      ToldExactly(s, now, cfg, banned, x, id, from, members);
    }
  }
}
