/**
  Peers are visited in the order of their addresses, so who is left without an island depends on the addresses.
  A renaming of the addresses changes nothing but that order.
 */
module Renaming {
  import opened Wrappers
  import opened Ordering
  import opened Sequences
  import opened IslandSearch
  import opened ClusterModel
  import opened Reclustering

  type Names = map<Address, Address>

  ghost predicate Renames(f: Names, names: set<Address>) {
    names <= f.Keys && forall a, b | a in names && b in names && f[a] == f[b] :: a == b
  }

  function RenamedSet(f: Names, names: set<Address>): set<Address>
    requires names <= f.Keys
  {
    set a | a in names :: f[a]
  }

  function RenamedList(f: Names, q: seq<Address>): (r: seq<Address>)
    requires forall a | a in q :: a in f
    ensures |r| == |q| && forall i | 0 <= i < |q| :: q[i] in f && r[i] == f[q[i]]
  {
    seq(|q|, i requires 0 <= i < |q| => assert q[i] in q; f[q[i]])
  }

  ghost function RenamedPeers(f: Names, peers: map<Address, Peer>): map<Address, Peer>
    requires Renames(f, peers.Keys)
  {
    map a | a in peers :: f[a] := peers[a]
  }

  ghost function RenamedIslands(f: Names, s: State): map<IslandId, Island>
    requires Consistent(s) && Renames(f, s.peers.Keys)
  {
    map id | id in s.islands ::
      assert ConsistentIsland(s, id);
      Island(id, s.islands[id].peersCount, RenamedList(f, s.islands[id].peers))
  }

  /** The same peers on the same islands under other addresses. */
  ghost function Renamed(f: Names, s: State): State
    requires Consistent(s) && Renames(f, s.peers.Keys)
  {
    State(RenamedPeers(f, s.peers), RenamedIslands(f, s), s.minted)
  }

  lemma RenamedConsistent(f: Names, s: State)
    requires Consistent(s) && Renames(f, s.peers.Keys)
    ensures Consistent(Renamed(f, s))
  {
    var r := Renamed(f, s);
    forall id | id in r.islands ensures ConsistentIsland(r, id) {
      assert ConsistentIsland(s, id);
      RenamedIslandConsistent(f, s, id);
    }
  }

  lemma RenamedIslandConsistent(f: Names, s: State, id: IslandId)
    requires Consistent(s) && Renames(f, s.peers.Keys) && id in s.islands
    ensures ConsistentIsland(Renamed(f, s), id)
  {
    assert ConsistentIsland(s, id);
    var q := s.islands[id].peers;
    var r := RenamedList(f, q);
    forall i, j | 0 <= i < j < |r| ensures r[i] != r[j] {
      assert q[i] in q && q[j] in q;
    }
    forall y | y in r ensures y in Renamed(f, s).peers && Renamed(f, s).peers[y].island == Some(id) {
      var i :| 0 <= i < |r| && r[i] == y;
      assert q[i] in q;
    }
  }

  lemma RenamedSurvivors(f: Names, s: State, now: int, cfg: Config)
    requires Consistent(s) && Renames(f, s.peers.Keys)
    ensures Survivors(Renamed(f, s), now, cfg).peers == RenamedPeers(f, Survivors(s, now, cfg).peers)
  {
  }

  // ----- what a renaming keeps -----

  /** `f` takes the peers of `nodes` into `others` and their links into `moved`. */
  ghost predicate Carries(f: Names, nodes: set<Address>, links: Links, others: set<Address>, moved: Links) {
    && (forall a | a in nodes :: a in f && f[a] in others)
    && (forall a, b | a in nodes && b in nodes && (a, b) in links :: (f[a], f[b]) in moved)
  }

  lemma JoinedCarried(
    f: Names, a: Address, b: Address, nodes: set<Address>, links: Links, others: set<Address>, moved: Links)
    requires Joined(a, b, nodes, links) && Carries(f, nodes, links, others, moved)
    ensures a in f && b in f && Joined(f[a], f[b], others, moved)
  {
    var p :| PathBetween(p, a, b, nodes, links);
    assert forall x | x in p :: x in nodes;
    var q := RenamedList(f, p);
    assert PathBetween(q, f[a], f[b], others, moved);
  }

  lemma {:induction false} RenamedSize(f: Names, names: set<Address>)
    requires Renames(f, names)
    ensures |RenamedSet(f, names)| == |names|
  {
    if names != {} {
      var a :| a in names;
      RenamedSize(f, names - {a});
      assert RenamedSet(f, names) == RenamedSet(f, names - {a}) + {f[a]};
    }
  }

  /** The renaming and its inverse carry the links of near peers. */
  lemma NearCarried(f: Names, peers: map<Address, Peer>, radius: real) returns (g: Names)
    requires Renames(f, peers.Keys)
    ensures Carries(f, peers.Keys, NearLinks(peers, radius),
                    RenamedSet(f, peers.Keys), NearLinks(RenamedPeers(f, peers), radius))
    ensures Carries(g, RenamedSet(f, peers.Keys), NearLinks(RenamedPeers(f, peers), radius),
                    peers.Keys, NearLinks(peers, radius))
    ensures Renames(g, RenamedSet(f, peers.Keys)) && forall a | a in peers :: f[a] in g && g[f[a]] == a
  {
    g := map a | a in peers :: f[a] := a;
  }

  lemma ComponentsCarriedBack(g: Names, nodes: set<Address>, links: Links, others: set<Address>, moved: Links, cap: nat)
    requires Renames(g, nodes) && Carries(g, nodes, links, others, moved) && NoComponentExceeds(others, moved, cap)
    ensures NoComponentExceeds(nodes, links, cap)
  {
    forall c | c in Components(nodes, links) ensures |c| <= Cap(cap) {
      var a :| a in nodes && c == ComponentOf(a, nodes, links);
      var d := ComponentOf(g[a], others, moved);
      assert d in Components(others, moved);
      forall b | b in c ensures g[b] in d {
        JoinedCarried(g, a, b, nodes, links, others, moved);
      }
      RenamedSize(g, c);
      SubsetNotLarger(RenamedSet(g, c), d);
    }
  }

  // ----- names that leave someone behind -----

  /** Names that put `v` first, `u` second and the others after them. */
  function Front(names: set<Address>, v: Address, u: Address): Names {
    map x | x in names :: if x == v then "" else if x == u then "a" else "b" + x
  }

  lemma FrontRenames(names: set<Address>, v: Address, u: Address)
    requires u != v
    ensures Renames(Front(names, v, u), names)
  {
    var f := Front(names, v, u);
    forall a, b | a in names && b in names && f[a] == f[b] ensures a == b {
      assert ("b" + a)[1..] == a && ("b" + b)[1..] == b;
      assert ("b" + a)[0] == 'b' && ("b" + b)[0] == 'b' && "a"[0] == 'a';
    }
  }

  lemma FrontIsFirst(names: set<Address>)
    requires "" in names && "a" in names
    requires forall x | x in names :: x == "" || x == "a" || (x != "" && x[0] == 'b')
    ensures |Ordered(names)| >= 2 && Ordered(names)[0] == "" && Ordered(names)[1] == "a"
  {
    assert IsLeast("", names);
    OneLeast(names);
    var rest := names - {""};
    forall x | x in rest ensures AtMost("a", x) {
      AtMostTotal("a", "a");
    }
    assert IsLeast("a", rest);
    OneLeast(rest);
    assert Ordered(names) == [""] + Ordered(rest);
  }

  /** The peers `v` and `u` of a component under the names that put them first. */
  lemma FrontLeavesOne(
    peers: map<Address, Peer>, radius: real, cap: nat, f: Names, v: Address, u: Address, rest: set<Address>)
    requires Renames(f, peers.Keys) && f == Front(f.Keys, v, u) && u != v
    requires u in peers && rest <= peers.Keys && u !in rest && v in rest && 2 <= cap <= |rest|
    requires (v, u) in NearLinks(peers, radius) && ComponentOf(v, rest, NearLinks(peers, radius)) == rest
    ensures var renamed := RenamedPeers(f, peers);
      LeftBehind(Ordered(renamed.Keys), NearLinks(renamed, radius), cap) != {}
  {
    var renamed := RenamedPeers(f, peers);
    var order, links := Ordered(renamed.Keys), NearLinks(renamed, radius);
    FrontIsFirst(renamed.Keys);
    OrderedIncreases(renamed.Keys);
    FrontRest(peers, radius, f, v, u, rest);
    RenamedSize(f, rest);
    NextIsLeft(order, links, cap, "", "a", RenamedSet(f, rest));
    LeftByFirst(order, links, cap, "a");
  }

  lemma FrontRest(peers: map<Address, Peer>, radius: real, f: Names, v: Address, u: Address, rest: set<Address>)
    requires Renames(f, peers.Keys) && f == Front(f.Keys, v, u) && u != v
    requires u in peers && rest <= peers.Keys && u !in rest && v in rest
    requires (v, u) in NearLinks(peers, radius) && ComponentOf(v, rest, NearLinks(peers, radius)) == rest
    ensures var links, moved := NearLinks(RenamedPeers(f, peers), radius), RenamedSet(f, rest);
      && "a" !in moved && "" in moved && moved <= RenamedPeers(f, peers).Keys
      && ("", "a") in links && ComponentOf("", moved, links) == moved
  {
    var links0, links := NearLinks(peers, radius), NearLinks(RenamedPeers(f, peers), radius);
    var moved := RenamedSet(f, rest);
    assert Carries(f, rest, links0, moved, links);
    forall y | y in moved ensures Joined("", y, moved, links) {
      var x :| x in rest && f[x] == y;
      assert x in ComponentOf(v, rest, links0);
      JoinedCarried(f, v, x, rest, links0, moved, links);
    }
  }

  /** When a component of near peers exceeds a cap of at least two, some names make a pass leave a peer without an
      island. */
  lemma SomeNamesLeaveOne(s: State, now: int, cfg: Config, a: Address) returns (f: Names)
    requires Consistent(s) && 2 <= cfg.maxPeers
    requires var live := Survivors(s, now, cfg);
      a in live.peers && |ComponentOf(a, live.peers.Keys, NearLinks(live.peers, cfg.radius))| > cfg.maxPeers
    ensures Renames(f, s.peers.Keys) && Unassigned(Recluster(Renamed(f, s), now, cfg, {}).state) != {}
  {
    var live := Survivors(s, now, cfg);
    var links := NearLinks(live.peers, cfg.radius);
    NearLinksSymmetric(live.peers, cfg.radius);
    var v, u, rest := RemovablePeer(live.peers.Keys, links, a);
    assert rest + {u} <= live.peers.Keys;
    assert |rest + {u}| == |rest| + 1;
    f := Front(s.peers.Keys, v, u);
    FrontRenames(s.peers.Keys, v, u);
    FrontLeavesOne(live.peers, cfg.radius, cfg.maxPeers, f, v, u, rest);
    LeftUnderNames(f, s, now, cfg);
  }

  /** Under other names too, those without an island are the ones the search left behind. */
  lemma LeftUnderNames(f: Names, s: State, now: int, cfg: Config)
    requires Consistent(s) && Renames(f, s.peers.Keys)
    ensures var renamed := RenamedPeers(f, Survivors(s, now, cfg).peers);
      Unassigned(Recluster(Renamed(f, s), now, cfg, {}).state)
        == LeftBehind(Ordered(renamed.Keys), NearLinks(renamed, cfg.radius), cfg.maxPeers)
  {
    RenamedConsistent(f, s);
    RenamedSurvivors(f, s, now, cfg);
    UnassignedAreLeft(Renamed(f, s), now, cfg, {});
  }

  /** Whatever the names, a pass without bans gives every peer an island: this holds if and only if the cap is at
      most one or no component of near peers exceeds it. */
  lemma EveryoneAssignedUnderAnyNamesIff(s: State, now: int, cfg: Config)
    requires Consistent(s)
    ensures var live := Survivors(s, now, cfg);
      (forall f | Renames(f, s.peers.Keys) :: Unassigned(Recluster(Renamed(f, s), now, cfg, {}).state) == {})
        <==> cfg.maxPeers <= 1 || NoComponentExceeds(live.peers.Keys, NearLinks(live.peers, cfg.radius), cfg.maxPeers)
  {
    var live := Survivors(s, now, cfg);
    var links := NearLinks(live.peers, cfg.radius);
    if cfg.maxPeers <= 1 || NoComponentExceeds(live.peers.Keys, links, cfg.maxPeers) {
      forall f | Renames(f, s.peers.Keys) ensures Unassigned(Recluster(Renamed(f, s), now, cfg, {}).state) == {} {
        AnyNamesAssign(f, s, now, cfg);
      }
    } else {
      var c :| c in Components(live.peers.Keys, links) && |c| > cfg.maxPeers;
      var a :| a in live.peers && c == ComponentOf(a, live.peers.Keys, links);
      var f := SomeNamesLeaveOne(s, now, cfg, a);
    }
  }

  lemma AnyNamesAssign(f: Names, s: State, now: int, cfg: Config)
    requires Consistent(s) && Renames(f, s.peers.Keys)
    requires var live := Survivors(s, now, cfg);
      cfg.maxPeers <= 1 || NoComponentExceeds(live.peers.Keys, NearLinks(live.peers, cfg.radius), cfg.maxPeers)
    ensures Unassigned(Recluster(Renamed(f, s), now, cfg, {}).state) == {}
  {
    var live := Survivors(s, now, cfg);
    LeftUnderNames(f, s, now, cfg);
    NobodyLeftUnderNames(f, live.peers, cfg.radius, cfg.maxPeers);
  }

  lemma NobodyLeftUnderNames(f: Names, peers: map<Address, Peer>, radius: real, cap: nat)
    requires Renames(f, peers.Keys) && (cap <= 1 || NoComponentExceeds(peers.Keys, NearLinks(peers, radius), cap))
    ensures var renamed := RenamedPeers(f, peers);
      LeftBehind(Ordered(renamed.Keys), NearLinks(renamed, radius), cap) == {}
  {
    var renamed := RenamedPeers(f, peers);
    var links := NearLinks(renamed, radius);
    assert renamed.Keys == RenamedSet(f, peers.Keys);
    if cap > 1 {
      var g := NearCarried(f, peers, radius);
      ComponentsCarriedBack(g, renamed.Keys, links, peers.Keys, NearLinks(peers, radius), cap);
    }
    NearLinksSymmetric(renamed, radius);
    NobodyLeftInAnyOrderIff(renamed.Keys, links, cap);
    OrderedIncreases(renamed.Keys);
    assert Elements(Ordered(renamed.Keys)) == renamed.Keys;
  }
}
