/**
  The cluster object (crates/catalyrst-archipelago/src/cluster.rs): peer table, island index, id counter
  and connection generations, changed in place. Each method is proved to compute the function of
  `ClusterModel` of the same name.
 */
module Clusters {
  import opened Wrappers
  import opened Ordering
  import opened Sequences
  import opened IslandSearch
  import opened ClusterModel
  import opened Reclustering

  class Cluster {
    const cfg: Config
    var peers: map<Address, Peer>
    var islands: map<IslandId, Island>
    var nextIsland: nat
    var connGens: map<Address, nat>
    var connCounter: nat
    /** Everything broadcast to subscribers, in order. */
    var sent: seq<Event>

    function Model(): State
      reads this
    {
      State(peers, islands, nextIsland)
    }

    ghost predicate Valid()
      reads this
    {
      Consistent(Model())
    }

    constructor (cfg: Config)
      ensures Valid() && Model() == EMPTY && sent == [] && connGens == map[] && connCounter == 0 && this.cfg == cfg
    {
      this.cfg := cfg;
      peers, islands, nextIsland := map[], map[], 0;
      connGens, connCounter, sent := map[], 0, [];
    }

    method RegisterConn(address: Address) returns (gen: nat)
      modifies this`connGens, this`connCounter
      ensures Conns(connGens, connCounter) == NextConn(old(Conns(connGens, connCounter)), address) && gen == connCounter
    {
      connCounter := connCounter + 1;
      gen := connCounter;
      connGens := connGens[address := gen];
    }

    method RemovePeerIfConn(address: Address, gen: nat)
      requires Valid()
      modifies this
      ensures Valid() && connCounter == old(connCounter)
      ensures (connGens, Model()) == DropConn(old(connGens), old(Model()), address, gen)
      ensures connGens == old(connGens) ==> sent == old(sent)
    {
      var isCurrent := address in connGens && connGens[address] == gen;
      if isCurrent {
        connGens := connGens - {address};
        RemovePeerInPlace(address);
      }
    }

    method IslandOfPeer(address: Address) returns (r: Option<(IslandId, seq<Address>)>)
      requires Valid()
      ensures r == IslandOf(Model(), address)
      ensures r.Some? ==> forall p | p in r.value.1 :: p in peers && peers[p].island == Some(r.value.0)
    {
      if address !in peers || peers[address].island.None? {
        return None;
      }
      var id := peers[address].island.value;
      if id !in islands {
        return None;
      }
      assert ConsistentIsland(Model(), id);
      return Some((id, islands[id].peers));
    }

    method UpsertAt(address: Address, parcel: Parcel, realm: string, lastHeartbeat: int)
      requires Valid()
      modifies this`peers
      ensures Valid() && Model() == UpsertPeerAt(old(Model()), address, parcel, realm, lastHeartbeat)
    {
      UpsertKeeps(Model(), address, parcel, realm, lastHeartbeat);
      var prevIsland := None;
      var newTs := lastHeartbeat;
      if address in peers {
        prevIsland := peers[address].island;
        if peers[address].heartbeat > lastHeartbeat {
          newTs := peers[address].heartbeat;
        }
      }
      peers := peers[address := Peer(parcel, realm, newTs, prevIsland)];
    }

    method RemovePeerInPlace(address: Address)
      requires Valid()
      modifies this`peers, this`islands, this`sent
      ensures Valid() && Model() == RemovePeer(old(Model()), address)
      ensures Model() == RemoveSet(old(Model()), {address})
      ensures sent == old(sent) + if address in old(peers) then [PeerLeft(address)] else []
    {
      RemovePeerKeeps(Model(), address);
      if address in peers {
        var state := peers[address];
        peers := peers - {address};
        UnlistInPlace(state.island, address);
        sent := sent + [PeerLeft(address)];
      }
    }

    method UnlistInPlace(island: Option<IslandId>, address: Address)
      modifies this`islands
      ensures islands == Unlist(old(islands), island, address)
    {
      if island.Some? && island.value in islands {
        var id := island.value;
        var rest := Without(islands[id].peers, {address});
        islands := islands[id := islands[id].(peers := rest, peersCount := |rest|)];
        if rest == [] {
          islands := islands - {id};
        }
      }
    }

    /** Removes the peers of `gone` one by one, in whatever order the collection yields them. */
    method RemovePeers(gone: set<Address>)
      requires Valid() && gone <= peers.Keys
      modifies this`peers, this`islands, this`sent
      ensures Valid() && Model() == RemoveSet(old(Model()), gone)
      ensures old(sent) <= sent && multiset(sent[|old(sent)|..]) == multiset(Departures(gone))
    {
      var todo := gone;
      ghost var done: set<Address> := {};
      RemoveSetNothing(Model());
      assert Departures(done) == {};
      while todo != {}
        invariant done !! todo && done + todo == gone
        invariant Valid() && Model() == RemoveSet(old(Model()), done)
        invariant old(sent) <= sent && multiset(sent[|old(sent)|..]) == multiset(Departures(done))
      {
        var a :| a in todo;
        ghost var sentBefore := sent;
        RemoveSetTwice(old(Model()), done, {a});
        RemovePeerInPlace(a);
        DepartOne(old(sent), sentBefore, done, a);
        todo := todo - {a};
        done := done + {a};
      }
      assert done == gone;
    }

    /** Pushes every unvisited peer near `cur`. */
    method PushNear(order: seq<Address>, cur: Address, queue: seq<Address>, visited: set<Address>)
      returns (queue': seq<Address>, visited': set<Address>)
      requires NoDuplicates(order) && Elements(order) == peers.Keys && cur in peers
      ensures var f := Fresh(order, NearLinks(peers, cfg.radius), cur, visited);
              queue' == queue + f && visited' == visited + Elements(f)
    {
      ghost var links := NearLinks(peers, cfg.radius);
      queue', visited' := queue, visited;
      ghost var pushed := [];
      for j := 0 to |order|
        invariant pushed == Fresh(order[..j], links, cur, visited)
        invariant queue' == queue + pushed
        invariant visited' == visited + Elements(pushed)
      {
        var other := order[j];
        assert order[..j + 1][..j] == order[..j] && order[..j + 1][j] == other;
        assert other !in order[..j];
        assert other in Elements(order);
        if other !in visited' {
          if Near(peers[cur].parcel, peers[other].parcel, cfg.radius) {
            visited' := visited' + {other};
            queue' := queue' + [other];
            pushed := pushed + [other];
          }
        }
      }
      assert order[..|order|] == order;
    }

    /** One search: take peers off the stack until it is empty or the group is full. */
    method SearchOne(order: seq<Address>, seed: Address, visited: set<Address>)
      returns (group: seq<Address>, visited': set<Address>, ghost waiting: seq<Address>)
      requires NoDuplicates(order) && Elements(order) == peers.Keys && seed in peers
      ensures Outcome(visited', group, waiting)
              == Search(order, NearLinks(peers, cfg.radius), cfg.maxPeers, visited + {seed}, [seed], [])
    {
      ghost var links := NearLinks(peers, cfg.radius);
      group := [];
      var queue := [seed];
      visited' := visited + {seed};
      while queue != []
        invariant Search(order, links, cfg.maxPeers, visited', queue, group)
                  == Search(order, links, cfg.maxPeers, visited + {seed}, [seed], [])
        invariant forall q | q in queue :: q in peers
        decreases Elements(order) - visited', |queue|
      {
        var cur := queue[|queue| - 1];
        queue := queue[..|queue| - 1];
        group := group + [cur];
        if |group| >= cfg.maxPeers {
          break;
        }
        ghost var f := Fresh(order, links, cur, visited');
        assert f != [] ==> f[0] in Elements(order) - visited' && f[0] !in Elements(order) - (visited' + Elements(f));
        assert f == [] ==> visited' + Elements(f) == visited';
        assert forall q | q in f :: q in Elements(order);
        queue, visited' := PushNear(order, cur, queue, visited');
      }
      waiting := queue;
    }

    /** The capped search seeded by each live peer in turn. */
    method BuildGroups(order: seq<Address>) returns (groups: seq<seq<Address>>)
      requires NoDuplicates(order) && Elements(order) == peers.Keys
      ensures groups == Groups(order, NearLinks(peers, cfg.radius), cfg.maxPeers)
    {
      ghost var links := NearLinks(peers, cfg.radius);
      var visited: set<Address> := {};
      ghost var left: set<Address> := {};
      groups := [];
      for i := 0 to |order|
        invariant Pass(visited, groups, left) == SearchAll(order, links, cfg.maxPeers, i)
      {
        var seed := order[i];
        NextSearch(order, links, cfg.maxPeers, i);
        if seed !in visited {
          assert seed in Elements(order);
          var group, visited', waiting := SearchOne(order, seed, visited);
          visited := visited';
          groups := groups + [group];
          left := left + Elements(waiting);
        }
      }
    }

    /** Gives every group an id and records the new islands and the assignment. */
    method AssignIds(groups: seq<seq<Address>>)
      returns (newIslands: map<IslandId, Island>, assignment: map<Address, IslandId>)
      modifies this`nextIsland
      ensures Assigned(newIslands, assignment, nextIsland) == AssignGroups(groups, old(Model()))
    {
      ghost var s := Model();
      newIslands, assignment := map[], map[];
      for i := 0 to |groups|
        invariant Assigned(newIslands, assignment, nextIsland) == AssignGroups(groups[..i], s)
        invariant peers == s.peers && islands == s.islands
      {
        var group := groups[i];
        assert groups[..i + 1][..i] == groups[..i] && groups[..i + 1][i] == group;
        if group != [] {
          var ids := PreviousIds(group, peers);
          var id;
          if ids != [] {
            id := LastLargest(ids, islands);
          } else {
            nextIsland := nextIsland + 1;
            id := nextIsland;
          }
          assignment := assignment + map a | a in group :: id;
          newIslands := newIslands[id := Island(id, |group|, group)];
        }
      }
      assert groups[..|groups|] == groups;
    }

    method ReclusterOnce(now: int, banned: set<Address>)
      requires Valid()
      modifies this`peers, this`islands, this`nextIsland, this`sent
      ensures Valid()
      ensures Model() == Recluster(old(Model()), now, cfg, banned).state
      ensures old(sent) <= sent
              && multiset(sent[|old(sent)|..]) == multiset(Recluster(old(Model()), now, cfg, banned).events)
    {
      var stale := set a | a in peers && now - peers[a].heartbeat > cfg.timeout;
      RemovePeers(stale);
      ghost var live, sent1 := Model(), sent;
      Regroup(banned);
      ghost var a := Assignment(live, cfg);
      DisjointEvents(stale, ChangedBy(live, a), a, live, banned);
      JoinEvents(old(sent), sent1, sent, Departures(stale), Told(ChangedBy(live, a), a, live, banned));
    }

    /** The rest of a pass, from the peers that are left. */
    method Regroup(banned: set<Address>)
      requires Valid()
      modifies this`peers, this`islands, this`nextIsland, this`sent
      ensures Valid()
      ensures var live := old(Model());
        var a := Assignment(live, cfg);
        && Model() == RemoveSet(Place(live, a), ChangedBy(live, a) * banned)
        && old(sent) <= sent && multiset(sent[|old(sent)|..]) == multiset(Told(ChangedBy(live, a), a, live, banned))
    {
      GroupsOfAreGood(Model(), cfg);
      OrderedPeers(Model());
      var groups := BuildGroups(Ordered(peers.Keys));
      var a, prev := PlaceGroups(groups);
      var changed := ChangedBy(prev, a);
      AssignedPeersAreLive(prev, groups);
      Announce(changed, a, prev, banned);
    }

    /** Assigns ids to `groups`, writes them into the peer table and swaps in the new islands. */
    method PlaceGroups(groups: seq<seq<Address>>) returns (a: Assigned, prev: State)
      requires Valid() && GoodGroups(groups, Model())
      modifies this`peers, this`islands, this`nextIsland
      ensures Valid() && prev == old(Model())
      ensures a == AssignGroups(groups, prev) && Model() == Place(prev, a)
    {
      PlaceIsConsistent(Model(), groups);
      prev := Model();
      var newIslands, assignment := AssignIds(groups);
      a := Assigned(newIslands, assignment, nextIsland);
      peers := map p | p in peers :: peers[p].(island := if p in assignment then Some(assignment[p]) else None);
      islands := newIslands;
    }

    /** Evicts the banned among the changed peers and tells the others their island, in arbitrary order. */
    method Announce(changed: set<Address>, a: Assigned, prev: State, banned: set<Address>)
      requires Valid() && prev.peers.Keys == peers.Keys
      requires forall p | p in changed :: p in a.of && a.of[p] in a.islands && p in prev.peers
      modifies this`peers, this`islands, this`sent
      ensures Valid() && Model() == RemoveSet(old(Model()), changed * banned)
      ensures old(sent) <= sent && multiset(sent[|old(sent)|..]) == multiset(Told(changed, a, prev, banned))
    {
      var todo := changed;
      ghost var done: set<Address> := {};
      RemoveSetNothing(Model());
      assert {} * banned == {};
      assert Told({}, a, prev, banned) == {};
      while todo != {}
        invariant done !! todo && done + todo == changed
        invariant Valid() && Model() == RemoveSet(old(Model()), done * banned)
        invariant old(sent) <= sent && multiset(sent[|old(sent)|..]) == multiset(Told(done, a, prev, banned))
      {
        var p :| p in todo;
        ghost var sentBefore := sent;
        assert p in peers;
        AnnounceOne(p, a, prev, banned);
        RemoveSetTwice(old(Model()), done * banned, {p} * banned);
        assert (done + {p}) * banned == done * banned + {p} * banned;
        TellOne(old(sent), sentBefore, done, p, a, prev, banned);
        todo := todo - {p};
        done := done + {p};
      }
      assert done == changed;
    }

    method AnnounceOne(p: Address, a: Assigned, prev: State, banned: set<Address>)
      requires Valid() && p in peers
      requires p in a.of && a.of[p] in a.islands && p in prev.peers
      modifies this`peers, this`islands, this`sent
      ensures Valid() && Model() == RemoveSet(old(Model()), {p} * banned)
      ensures sent == old(sent) + [EventFor(p, a, prev, banned)]
    {
      if p in banned {
        assert {p} * banned == {p};
        RemovePeerInPlace(p);
      } else {
        assert {p} * banned == {};
        RemoveSetNothing(Model());
        sent := sent + [IslandChanged(p, a.of[p], prev.peers[p].island, a.islands[a.of[p]].peers)];
      }
    }
  }

  lemma NextSearch(order: seq<Address>, links: Links, cap: nat, i: nat)
    requires i < |order|
    ensures SearchAll(order, links, cap, i + 1)
         == SearchFrom(order, links, cap, SearchAll(order, links, cap, i), order[i])
  {
  }

  lemma RemovePeerKeeps(s: State, a: Address)
    requires Consistent(s)
    ensures Consistent(RemovePeer(s, a)) && RemovePeer(s, a) == RemoveSet(s, {a})
  {
    RemovePeerIsRemoveSet(s, a);
    RemoveSetKeeps(s, {a});
  }

  lemma DepartOne(s0: seq<Event>, s1: seq<Event>, done: set<Address>, a: Address)
    requires s0 <= s1 && multiset(s1[|s0|..]) == multiset(Departures(done)) && a !in done
    ensures s0 <= s1 + [PeerLeft(a)] && multiset((s1 + [PeerLeft(a)])[|s0|..]) == multiset(Departures(done + {a}))
  {
    assert (s1 + [PeerLeft(a)])[|s0|..] == s1[|s0|..] + [PeerLeft(a)];
    assert Departures(done + {a}) == Departures(done) + {PeerLeft(a)};
  }

  lemma TellOne(
    s0: seq<Event>, s1: seq<Event>, done: set<Address>, p: Address, a: Assigned, s: State, banned: set<Address>)
    requires p !in done && p in a.of && a.of[p] in a.islands && p in s.peers
    requires s0 <= s1 && multiset(s1[|s0|..]) == multiset(Told(done, a, s, banned))
    ensures var s2 := s1 + [EventFor(p, a, s, banned)];
            s0 <= s2 && multiset(s2[|s0|..]) == multiset(Told(done + {p}, a, s, banned))
  {
    ToldOne(done, p, a, s, banned);
    assert (s1 + [EventFor(p, a, s, banned)])[|s0|..] == s1[|s0|..] + [EventFor(p, a, s, banned)];
  }

  lemma ToldOne(done: set<Address>, p: Address, a: Assigned, s: State, banned: set<Address>)
    requires p !in done && p in a.of && a.of[p] in a.islands && p in s.peers
    ensures var event := EventFor(p, a, s, banned);
            && Told(done + {p}, a, s, banned) == Told(done, a, s, banned) + {event}
            && event !in Told(done, a, s, banned)
  {
  }

  lemma AssignedPeersAreLive(s: State, groups: seq<seq<Address>>)
    requires Consistent(s) && GoodGroups(groups, s)
    ensures var a := AssignGroups(groups, s);
            forall p | p in ChangedBy(s, a) :: p in a.of && a.of[p] in a.islands && p in s.peers
  {
    var a := AssignGroups(groups, s);
    AssignGroupsKeeps(groups, s);
    forall p | p in ChangedBy(s, a) ensures a.of[p] in a.islands {
      var g :| g in groups && p in g;
      assert a.of[p] == IdOf(a, g);
    }
  }

  lemma DisjointEvents(stale: set<Address>, changed: set<Address>, a: Assigned, s: State, banned: set<Address>)
    requires stale !! s.peers.Keys
    ensures Departures(stale) !! Told(changed, a, s, banned)
  {
  }

  lemma JoinEvents(s0: seq<Event>, s1: seq<Event>, s2: seq<Event>, x: set<Event>, y: set<Event>)
    requires s0 <= s1 <= s2 && x !! y
    requires multiset(s1[|s0|..]) == multiset(x) && multiset(s2[|s1|..]) == multiset(y)
    ensures s0 <= s2 && multiset(s2[|s0|..]) == multiset(x + y)
  {
    assert s2[|s0|..] == s1[|s0|..] + s2[|s1|..];
    assert multiset(x + y) == multiset(x) + multiset(y);
  }
}
