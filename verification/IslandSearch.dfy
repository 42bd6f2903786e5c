/**
  The capped stack-driven search that partitions live peers into groups
  (crates/catalyrst-archipelago/src/cluster.rs, `recluster_once`).
  The search is stated over any symmetric relation `links` between addresses; module `ClusterModel`
  instantiates it with parcel distance.
 */
module IslandSearch {
  import opened Ordering
  import opened Sequences

  type Address = string
  type Links = set<(Address, Address)>

  // ----- the search -----

  /** The peers that visiting `cur` pushes: not yet visited and linked to it, in visiting order. */
  function Fresh(order: seq<Address>, links: Links, cur: Address, visited: set<Address>): (f: seq<Address>)
    ensures forall x :: x in f <==> x in order && x !in visited && (cur, x) in links
  {
    if order == [] then [] else
      var last := order[|order| - 1];
      var before := Fresh(order[..|order| - 1], links, cur, visited);
      assert order == order[..|order| - 1] + [last];
      if last !in visited && (cur, last) in links then before + [last] else before
  }

  datatype Outcome = Outcome(visited: set<Address>, group: seq<Address>, waiting: seq<Address>)

  /** One search: pop, take, stop when the group is full, otherwise push what the popped peer reaches. */
  function Search(order: seq<Address>, links: Links, cap: nat,
                  visited: set<Address>, stack: seq<Address>, group: seq<Address>): Outcome
    decreases Elements(order) - visited, |stack|
  {
    if stack == [] then Outcome(visited, group, []) else
      var cur := stack[|stack| - 1];
      var rest := stack[..|stack| - 1];
      var grown := group + [cur];
      if |grown| >= cap then Outcome(visited, grown, rest) else
        var f := Fresh(order, links, cur, visited);
        var visited' := visited + Elements(f);
        assert f != [] ==> f[0] in (Elements(order) - visited) && f[0] !in (Elements(order) - visited');
        assert f == [] ==> visited' == visited;
        Search(order, links, cap, visited', rest + f, grown)
  }

  datatype Pass = Pass(visited: set<Address>, groups: seq<seq<Address>>, left: set<Address>)

  function SearchFrom(order: seq<Address>, links: Links, cap: nat, before: Pass, seed: Address): Pass {
    if seed in before.visited then before else
      var o := Search(order, links, cap, before.visited + {seed}, [seed], []);
      Pass(o.visited, before.groups + [o.group], before.left + Elements(o.waiting))
  }

  /** The searches seeded by the first `n` peers of `order`. */
  function SearchAll(order: seq<Address>, links: Links, cap: nat, n: nat): Pass
    requires n <= |order|
  {
    if n == 0 then Pass({}, [], {}) else
      SearchFrom(order, links, cap, SearchAll(order, links, cap, n - 1), order[n - 1])
  }

  function Groups(order: seq<Address>, links: Links, cap: nat): seq<seq<Address>> {
    SearchAll(order, links, cap, |order|).groups
  }

  /** The peers that a search had queued when its group became full. */
  function LeftBehind(order: seq<Address>, links: Links, cap: nat): set<Address> {
    SearchAll(order, links, cap, |order|).left
  }

  function Cap(cap: nat): nat {
    if cap < 1 then 1 else cap
  }

  // ----- connectivity -----

  ghost predicate IsPath(p: seq<Address>, nodes: set<Address>, links: Links) {
    && p != []
    && (forall i | 0 <= i < |p| :: p[i] in nodes)
    && forall i | 0 <= i < |p| - 1 :: (p[i], p[i + 1]) in links
  }

  ghost predicate PathBetween(p: seq<Address>, a: Address, b: Address, nodes: set<Address>, links: Links) {
    IsPath(p, nodes, links) && p[0] == a && p[|p| - 1] == b
  }

  /** `a` reaches `b` through peers of `nodes`. */
  ghost predicate Joined(a: Address, b: Address, nodes: set<Address>, links: Links) {
    exists p :: PathBetween(p, a, b, nodes, links)
  }

  ghost predicate Symmetric(links: Links) {
    forall a, b | (a, b) in links :: (b, a) in links
  }

  ghost function ComponentOf(a: Address, nodes: set<Address>, links: Links): set<Address> {
    set b | b in nodes && Joined(a, b, nodes, links)
  }

  ghost function Components(nodes: set<Address>, links: Links): set<set<Address>> {
    set a | a in nodes :: ComponentOf(a, nodes, links)
  }

  lemma JoinedSelf(a: Address, nodes: set<Address>, links: Links)
    requires a in nodes
    ensures Joined(a, a, nodes, links)
  {
    assert PathBetween([a], a, a, nodes, links);
  }

  lemma JoinedStep(a: Address, b: Address, c: Address, nodes: set<Address>, links: Links)
    requires Joined(a, b, nodes, links) && (b, c) in links && c in nodes
    ensures Joined(a, c, nodes, links)
  {
    var p :| PathBetween(p, a, b, nodes, links);
    assert PathBetween(p + [c], a, c, nodes, links);
  }

  lemma {:induction false} JoinedTransitive(a: Address, p: seq<Address>, b: Address, c: Address,
                                            nodes: set<Address>, links: Links)
    requires Joined(a, b, nodes, links) && PathBetween(p, b, c, nodes, links)
    ensures Joined(a, c, nodes, links)
    decreases |p|
  {
    if |p| > 1 {
      JoinedStep(a, b, p[1], nodes, links);
      assert PathBetween(p[1..], p[1], c, nodes, links);
      JoinedTransitive(a, p[1..], p[1], c, nodes, links);
    }
  }

  lemma {:induction false} JoinedSymmetric(p: seq<Address>, a: Address, b: Address, nodes: set<Address>, links: Links)
    requires Symmetric(links) && PathBetween(p, a, b, nodes, links)
    ensures Joined(b, a, nodes, links)
    decreases |p|
  {
    if |p| == 1 {
      JoinedSelf(a, nodes, links);
    } else {
      assert PathBetween(p[1..], p[1], b, nodes, links);
      JoinedSymmetric(p[1..], p[1], b, nodes, links);
      JoinedStep(b, p[1], a, nodes, links);
    }
  }

  lemma SameComponent(a: Address, b: Address, nodes: set<Address>, links: Links)
    requires Symmetric(links) && a in nodes && b in ComponentOf(a, nodes, links)
    ensures ComponentOf(a, nodes, links) == ComponentOf(b, nodes, links)
  {
    var p :| PathBetween(p, a, b, nodes, links);
    JoinedSymmetric(p, a, b, nodes, links);
    forall c | c in nodes && Joined(b, c, nodes, links) ensures Joined(a, c, nodes, links) {
      var q :| PathBetween(q, b, c, nodes, links);
      JoinedTransitive(a, q, b, c, nodes, links);
    }
    forall c | c in nodes && Joined(a, c, nodes, links) ensures Joined(b, c, nodes, links) {
      var q :| PathBetween(q, a, c, nodes, links);
      JoinedTransitive(b, q, a, c, nodes, links);
    }
  }

  ghost predicate Closed(s: set<Address>, nodes: set<Address>, links: Links) {
    forall x, y | x in s && y in nodes && (x, y) in links :: y in s
  }

  lemma {:induction false} ClosedHoldsPath(p: seq<Address>, s: set<Address>, nodes: set<Address>, links: Links)
    requires IsPath(p, nodes, links) && p[0] in s && Closed(s, nodes, links)
    ensures p[|p| - 1] in s
    decreases |p|
  {
    if |p| > 1 {
      assert (p[0], p[1]) in links;
      ClosedHoldsPath(p[1..], s, nodes, links);
    }
  }

  lemma ComponentInClosed(a: Address, s: set<Address>, nodes: set<Address>, links: Links)
    requires a in s && Closed(s, nodes, links)
    ensures ComponentOf(a, nodes, links) <= s
  {
    forall b | b in ComponentOf(a, nodes, links) ensures b in s {
      var p :| PathBetween(p, a, b, nodes, links);
      ClosedHoldsPath(p, s, nodes, links);
    }
  }

  /** Every member after the first is linked to an earlier one. */
  ghost predicate Chained(group: seq<Address>, links: Links) {
    forall i | 0 < i < |group| :: LinkedEarlier(group, i, links)
  }

  ghost predicate LinkedEarlier(group: seq<Address>, i: nat, links: Links)
    requires i < |group|
  {
    exists j :: 0 <= j < i && (group[j], group[i]) in links
  }

  lemma {:induction false} ChainedReaches(group: seq<Address>, i: nat, nodes: set<Address>, links: Links)
    requires Chained(group, links) && i < |group| && Elements(group) <= nodes
    ensures Joined(group[0], group[i], nodes, links)
    decreases i
  {
    assert group[i] in Elements(group);
    if i == 0 {
      JoinedSelf(group[0], nodes, links);
    } else {
      assert LinkedEarlier(group, i, links);
      var j :| 0 <= j < i && (group[j], group[i]) in links;
      ChainedReaches(group, j, nodes, links);
      JoinedStep(group[0], group[j], group[i], nodes, links);
    }
  }

  // ----- what one search keeps -----

  /** A search from `seed` that started with `v0` visited and has found `group` and `stack` so far. */
  ghost predicate Exploring(order: seq<Address>, links: Links, v0: set<Address>, seed: Address,
                            visited: set<Address>, group: seq<Address>, stack: seq<Address>) {
    && NoDuplicates(group + stack)
    && visited == v0 + Elements(group) + Elements(stack)
    && v0 !! (Elements(group) + Elements(stack))
    && Elements(group) + Elements(stack) <= Elements(order)
    && (if group == [] then stack == [seed] else group[0] == seed)
    && Chained(group, links)
    && (forall y | y in stack && group != [] :: exists x :: x in group && (x, y) in links)
  }

  ghost predicate Expanded(order: seq<Address>, links: Links, visited: set<Address>, group: seq<Address>) {
    forall x, y | x in group && y in order && (x, y) in links :: y in visited
  }

  lemma {:induction false} FreshNoDuplicates(order: seq<Address>, links: Links, cur: Address, visited: set<Address>)
    requires NoDuplicates(order)
    ensures NoDuplicates(Fresh(order, links, cur, visited))
  {
    if order != [] {
      var init := order[..|order| - 1];
      FreshNoDuplicates(init, links, cur, visited);
      assert order[|order| - 1] !in init;
    }
  }

  /** One turn of the search loop: the popped peer joins the group and its fresh neighbours the stack. */
  lemma ExploreStep(order: seq<Address>, links: Links, v0: set<Address>, seed: Address,
                    visited: set<Address>, group: seq<Address>, stack: seq<Address>)
    requires NoDuplicates(order)
    requires Exploring(order, links, v0, seed, visited, group, stack) && stack != []
    requires Expanded(order, links, visited, group)
    ensures var cur := stack[|stack| - 1];
            var rest := stack[..|stack| - 1];
            var f := Fresh(order, links, cur, visited);
            && Exploring(order, links, v0, seed, visited, group + [cur], rest)
            && Exploring(order, links, v0, seed, visited + Elements(f), group + [cur], rest + f)
            && Expanded(order, links, visited + Elements(f), group + [cur])
  {
    var cur := stack[|stack| - 1];
    var rest := stack[..|stack| - 1];
    assert stack == rest + [cur];
    ExploreTake(order, links, v0, seed, visited, group, rest, cur);
    ExplorePush(order, links, v0, seed, visited, group + [cur], rest, cur);
  }

  lemma ExplorePush(order: seq<Address>, links: Links, v0: set<Address>, seed: Address,
                    visited: set<Address>, grown: seq<Address>, rest: seq<Address>, cur: Address)
    requires NoDuplicates(order)
    requires Exploring(order, links, v0, seed, visited, grown, rest) && cur in grown
    ensures var f := Fresh(order, links, cur, visited);
            Exploring(order, links, v0, seed, visited + Elements(f), grown, rest + f)
  {
    var f := Fresh(order, links, cur, visited);
    PushNoDuplicates(order, links, visited, grown, rest, cur);
    assert Elements(rest + f) == Elements(rest) + Elements(f);
    forall y | y in rest + f ensures exists x :: x in grown && (x, y) in links {
      if y in f {
        assert (cur, y) in links;
      }
    }
  }

  lemma PushNoDuplicates(order: seq<Address>, links: Links, visited: set<Address>,
                         grown: seq<Address>, rest: seq<Address>, cur: Address)
    requires NoDuplicates(order) && NoDuplicates(grown + rest)
    requires Elements(grown) <= visited && Elements(rest) <= visited
    ensures NoDuplicates(grown + (rest + Fresh(order, links, cur, visited)))
  {
    var f := Fresh(order, links, cur, visited);
    FreshNoDuplicates(order, links, cur, visited);
    forall x | x in grown + rest ensures x !in f {
      assert x in Elements(grown) || x in Elements(rest);
    }
    JoinNoDuplicates(grown + rest, f);
    assert grown + (rest + f) == (grown + rest) + f;
  }

  lemma JoinNoDuplicates(a: seq<Address>, b: seq<Address>)
    requires NoDuplicates(a) && NoDuplicates(b) && forall x | x in a :: x !in b
    ensures NoDuplicates(a + b)
  {
    var all := a + b;
    forall i, j | 0 <= i < j < |all| ensures all[i] != all[j] {
      if i < |a| && j >= |a| {
        assert all[i] in a && all[j] in b;
      }
    }
  }

  lemma ExploreTake(order: seq<Address>, links: Links, v0: set<Address>, seed: Address,
                    visited: set<Address>, group: seq<Address>, rest: seq<Address>, cur: Address)
    requires Exploring(order, links, v0, seed, visited, group, rest + [cur])
    ensures Exploring(order, links, v0, seed, visited, group + [cur], rest)
  {
    var grown := group + [cur];
    assert Elements(rest + [cur]) == Elements(rest) + {cur};
    assert Elements(grown) == Elements(group) + {cur};
    var before, after := group + (rest + [cur]), grown + rest;
    assert before[|group| + |rest|] == cur;
    forall i, j | 0 <= i < j < |after| ensures after[i] != after[j] {
      var i0 := if i < |group| then i else if i == |group| then |group| + |rest| else i - 1;
      var j0 := if j < |group| then j else if j == |group| then |group| + |rest| else j - 1;
      assert after[i] == before[i0] && after[j] == before[j0];
    }
    forall i | 0 < i < |grown| ensures LinkedEarlier(grown, i, links) {
      if i < |group| {
        assert LinkedEarlier(group, i, links);
        var j :| 0 <= j < i && (group[j], group[i]) in links;
        assert (grown[j], grown[i]) in links;
      } else {
        assert cur in rest + [cur];
        var x :| x in group && (x, cur) in links;
        var j :| 0 <= j < |group| && group[j] == x;
        assert (grown[j], grown[i]) in links;
      }
    }
    assert group == [] ==> |rest + [cur]| == 1;
    forall y | y in rest ensures exists x :: x in grown && (x, y) in links {
      assert y in rest + [cur];
      var x :| x in group && (x, y) in links;
      assert x in grown;
    }
  }

  /** What a whole search leaves: either everything it found is expanded or the group is full. */
  lemma {:induction false} SearchKeeps(order: seq<Address>, links: Links, cap: nat, v0: set<Address>, seed: Address,
                                       visited: set<Address>, stack: seq<Address>, group: seq<Address>)
    requires NoDuplicates(order)
    requires Exploring(order, links, v0, seed, visited, group, stack)
    requires Expanded(order, links, visited, group)
    requires |group| < Cap(cap)
    ensures var o := Search(order, links, cap, visited, stack, group);
            && Exploring(order, links, v0, seed, o.visited, o.group, o.waiting)
            && 0 < |o.group| <= Cap(cap)
            && (|o.group| == Cap(cap) || (o.waiting == [] && Expanded(order, links, o.visited, o.group)))
    decreases Elements(order) - visited, |stack|
  {
    if stack != [] {
      ExploreStep(order, links, v0, seed, visited, group, stack);
      var cur := stack[|stack| - 1];
      var rest := stack[..|stack| - 1];
      if |group + [cur]| < cap {
        var f := Fresh(order, links, cur, visited);
        assert f != [] ==> f[0] in (Elements(order) - visited) && f[0] !in (Elements(order) - (visited + Elements(f)));
        assert f == [] ==> visited + Elements(f) == visited;
        SearchKeeps(order, links, cap, v0, seed, visited + Elements(f), rest + f, group + [cur]);
      }
    }
  }

  // ----- what a whole pass guarantees, for every cap -----

  ghost predicate GoodGroup(group: seq<Address>, nodes: set<Address>, links: Links, cap: nat) {
    && 0 < |group| <= Cap(cap)
    && NoDuplicates(group)
    && Elements(group) <= nodes
    && Chained(group, links)
  }

  ghost function Members(groups: seq<seq<Address>>): set<Address> {
    set g, a | g in groups && a in g :: a
  }

  ghost predicate PairwiseDisjoint(groups: seq<seq<Address>>) {
    forall i, j | 0 <= i < j < |groups| :: Elements(groups[i]) !! Elements(groups[j])
  }

  /** `x` was reached from a member of a full group. */
  ghost predicate NextToFullGroup(x: Address, groups: seq<seq<Address>>, links: Links, cap: nat) {
    exists g, m :: g in groups && |g| == Cap(cap) && m in g && (m, x) in links
  }

  ghost predicate GoodPass(p: Pass, order: seq<Address>, links: Links, cap: nat) {
    && (forall g | g in p.groups :: GoodGroup(g, Elements(order), links, cap))
    && PairwiseDisjoint(p.groups)
    && p.visited == Members(p.groups) + p.left
    && p.left !! Members(p.groups)
    && p.left <= Elements(order)
    && forall x | x in p.left :: NextToFullGroup(x, p.groups, links, cap)
  }

  lemma SearchFromSeed(order: seq<Address>, links: Links, cap: nat, v0: set<Address>, seed: Address)
    returns (o: Outcome)
    requires NoDuplicates(order) && seed in order && seed !in v0
    ensures o == Search(order, links, cap, v0 + {seed}, [seed], [])
    ensures && v0 + {seed} <= o.visited
            && Exploring(order, links, v0, seed, o.visited, o.group, o.waiting)
            && 0 < |o.group| <= Cap(cap)
            && (|o.group| == Cap(cap) || (o.waiting == [] && Expanded(order, links, o.visited, o.group)))
  {
    assert [] + [seed] == [seed];
    assert Exploring(order, links, v0, seed, v0 + {seed}, [], [seed]);
    SearchKeeps(order, links, cap, v0, seed, v0 + {seed}, [seed], []);
    o := Search(order, links, cap, v0 + {seed}, [seed], []);
    assert o.group[0] in o.group;
  }

  lemma ExtendPass(before: Pass, o: Outcome, order: seq<Address>, links: Links, cap: nat, seed: Address)
    requires GoodPass(before, order, links, cap)
    requires Exploring(order, links, before.visited, seed, o.visited, o.group, o.waiting)
    requires 0 < |o.group| <= Cap(cap)
    requires |o.group| == Cap(cap) || o.waiting == []
    ensures GoodPass(Pass(o.visited, before.groups + [o.group], before.left + Elements(o.waiting)), order, links, cap)
  {
    var groups := before.groups + [o.group];
    var all := o.group + o.waiting;
    assert Members(groups) == Members(before.groups) + Elements(o.group);
    forall i, j | 0 <= i < j < |o.group| ensures o.group[i] != o.group[j] {
      assert all[i] == o.group[i] && all[j] == o.group[j];
    }
    forall x, y | x in o.group && y in o.waiting ensures x != y {
      var i :| 0 <= i < |o.group| && o.group[i] == x;
      var j :| 0 <= j < |o.waiting| && o.waiting[j] == y;
      assert all[i] == x && all[|o.group| + j] == y;
    }
    forall i, j | 0 <= i < j < |groups| ensures Elements(groups[i]) !! Elements(groups[j]) {
      if j == |before.groups| {
        assert groups[i] in before.groups;
        assert Elements(groups[i]) <= Members(before.groups);
      }
    }
    forall x | x in before.left + Elements(o.waiting) ensures NextToFullGroup(x, groups, links, cap) {
      if x in before.left {
        var g, m :| g in before.groups && |g| == Cap(cap) && m in g && (m, x) in links;
        assert g in groups;
      } else {
        var m :| m in o.group && (m, x) in links;
        assert o.group in groups;
      }
    }
  }

  ghost predicate GoodUpTo(p: Pass, order: seq<Address>, links: Links, cap: nat, n: nat)
    requires n <= |order|
  {
    GoodPass(p, order, links, cap) && forall i | 0 <= i < n :: order[i] in p.visited
  }

  lemma NothingYet(order: seq<Address>, links: Links, cap: nat)
    ensures GoodUpTo(Pass({}, [], {}), order, links, cap, 0)
  {
    assert Members([]) == {};
  }

  lemma NextSeedKeeps(before: Pass, after: Pass, order: seq<Address>, links: Links, cap: nat, n: nat)
    requires NoDuplicates(order) && n < |order| && GoodUpTo(before, order, links, cap, n)
    requires after == SearchFrom(order, links, cap, before, order[n])
    ensures GoodUpTo(after, order, links, cap, n + 1)
  {
    SeedKeeps(before, order, links, cap, order[n]);
  }

  lemma SeedKeeps(before: Pass, order: seq<Address>, links: Links, cap: nat, seed: Address)
    requires NoDuplicates(order) && seed in order && GoodPass(before, order, links, cap)
    ensures var p := SearchFrom(order, links, cap, before, seed);
            GoodPass(p, order, links, cap) && before.visited + {seed} <= p.visited
  {
    if seed !in before.visited {
      var o := SearchFromSeed(order, links, cap, before.visited, seed);
      ExtendPass(before, o, order, links, cap, seed);
    }
  }

  lemma {:induction false} PassIsGood(order: seq<Address>, links: Links, cap: nat, n: nat) returns (p: Pass)
    requires NoDuplicates(order) && n <= |order|
    ensures p == SearchAll(order, links, cap, n) && GoodUpTo(p, order, links, cap, n)
  {
    if n == 0 {
      p := Pass({}, [], {});
      NothingYet(order, links, cap);
    } else {
      var before := PassIsGood(order, links, cap, n - 1);
      p := SearchFrom(order, links, cap, before, order[n - 1]);
      NextSeedKeeps(before, p, order, links, cap, n - 1);
    }
  }

  lemma PassKeeps(order: seq<Address>, links: Links, cap: nat, n: nat)
    requires NoDuplicates(order) && n <= |order|
    ensures GoodUpTo(SearchAll(order, links, cap, n), order, links, cap, n)
  {
    var p := PassIsGood(order, links, cap, n);
  }

  /**
    For every cap: the groups are non-empty, duplicate-free, no larger than the cap, connected through
    their own members and pairwise disjoint; each live peer is either in a group or was left behind,
    never both; and a peer is left behind only next to a full group.
   */
  lemma GroupsArePartition(order: seq<Address>, links: Links, cap: nat)
    requires NoDuplicates(order) && Symmetric(links)
    ensures var groups := Groups(order, links, cap);
            var left := LeftBehind(order, links, cap);
            && (forall g | g in groups :: 0 < |g| <= Cap(cap) && NoDuplicates(g))
            && (forall g, a, b | g in groups && a in g && b in g :: Joined(a, b, Elements(g), links))
            && PairwiseDisjoint(groups)
            && Elements(order) == Members(groups) + left
            && left !! Members(groups)
            && forall x | x in left :: NextToFullGroup(x, groups, links, cap)
  {
    PassKeeps(order, links, cap, |order|);
    var groups := Groups(order, links, cap);
    forall g, a, b | g in groups && a in g && b in g ensures Joined(a, b, Elements(g), links) {
      var i :| 0 <= i < |g| && g[i] == a;
      var j :| 0 <= j < |g| && g[j] == b;
      ChainedReaches(g, i, Elements(g), links);
      ChainedReaches(g, j, Elements(g), links);
      var p :| PathBetween(p, g[0], a, Elements(g), links);
      JoinedSymmetric(p, g[0], a, Elements(g), links);
      var q :| PathBetween(q, g[0], b, Elements(g), links);
      JoinedTransitive(a, q, g[0], b, Elements(g), links);
    }
  }

  // ----- when the groups are the connected components -----

  ghost predicate NoComponentExceeds(nodes: set<Address>, links: Links, cap: nat) {
    forall c | c in Components(nodes, links) :: |c| <= Cap(cap)
  }

  ghost function GroupSets(groups: seq<seq<Address>>): set<set<Address>> {
    set g | g in groups :: Elements(g)
  }

  lemma {:induction false} SizeOfElements(q: seq<Address>)
    requires NoDuplicates(q)
    ensures |Elements(q)| == |q|
  {
    if q != [] {
      var init := q[..|q| - 1];
      SizeOfElements(init);
      assert q == init + [q[|q| - 1]];
      assert Elements(q) == Elements(init) + {q[|q| - 1]};
    }
  }

  lemma SubsetOfSameSize(a: set<Address>, b: set<Address>)
    requires a <= b && |b| <= |a|
    ensures a == b
  {
    assert b == a + (b - a);
    assert |b| == |a| + |b - a|;
  }

  lemma SubsetNotLarger(a: set<Address>, b: set<Address>)
    requires a <= b
    ensures |a| <= |b|
  {
    assert |b| == |a| + |b - a|;
  }

  /** From a closed set of visited peers, a search whose component fits the cap finds exactly that component. */
  lemma SearchFindsComponent(order: seq<Address>, links: Links, cap: nat, v0: set<Address>, seed: Address)
    requires NoDuplicates(order) && Symmetric(links) && seed in order && seed !in v0
    requires Closed(v0, Elements(order), links)
    requires |ComponentOf(seed, Elements(order), links)| <= Cap(cap)
    ensures var o := Search(order, links, cap, v0 + {seed}, [seed], []);
            && o.waiting == []
            && Elements(o.group) == ComponentOf(seed, Elements(order), links)
            && Closed(o.visited, Elements(order), links)
  {
    var nodes := Elements(order);
    var comp := ComponentOf(seed, nodes, links);
    var o := SearchFindsAll(order, links, cap, v0, seed);
    forall x, y | x in o.visited && y in nodes && (x, y) in links ensures y in o.visited {
      if x in comp {
        JoinedStep(seed, x, y, nodes, links);
        assert y in comp;
      }
    }
  }

  lemma SearchFindsAll(order: seq<Address>, links: Links, cap: nat, v0: set<Address>, seed: Address)
    returns (o: Outcome)
    requires NoDuplicates(order) && Symmetric(links) && seed in order && seed !in v0
    requires Closed(v0, Elements(order), links)
    requires |ComponentOf(seed, Elements(order), links)| <= Cap(cap)
    ensures o == Search(order, links, cap, v0 + {seed}, [seed], [])
    ensures o.waiting == [] && Elements(o.group) == ComponentOf(seed, Elements(order), links)
    ensures o.visited == v0 + Elements(o.group)
  {
    o := SearchFromSeed(order, links, cap, v0, seed);
    FoundAll(order, links, cap, v0, seed, o);
  }

  lemma FoundAll(order: seq<Address>, links: Links, cap: nat, v0: set<Address>, seed: Address, o: Outcome)
    requires Symmetric(links) && Closed(v0, Elements(order), links) && o.group != []
    requires Exploring(order, links, v0, seed, o.visited, o.group, o.waiting)
    requires |o.group| == Cap(cap)
          || (|o.group| < Cap(cap) && o.waiting == [] && Expanded(order, links, o.visited, o.group))
    requires |ComponentOf(seed, Elements(order), links)| <= Cap(cap)
    ensures o.waiting == [] && Elements(o.group) == ComponentOf(seed, Elements(order), links)
    ensures o.visited == v0 + Elements(o.group)
  {
    FoundInComponent(order, links, v0, seed, o.visited, o.group, o.waiting);
    NothingWaits(o, ComponentOf(seed, Elements(order), links), cap);
    if |o.group| < Cap(cap) {
      FoundIsClosed(order, links, v0, seed, o);
    }
  }

  /** What was found fits the cap, so nothing waits, and a full group is the whole component. */
  lemma NothingWaits(o: Outcome, comp: set<Address>, cap: nat)
    requires NoDuplicates(o.group + o.waiting) && Elements(o.group) + Elements(o.waiting) <= comp && |comp| <= Cap(cap)
    requires |o.group| == Cap(cap) || o.waiting == []
    ensures o.waiting == []
    ensures |o.group| == Cap(cap) ==> Elements(o.group) == comp
  {
    PartsOfFound(o.group, o.waiting);
    SubsetNotLarger(Elements(o.group) + Elements(o.waiting), comp);
    if |o.group| == Cap(cap) {
      SubsetOfSameSize(Elements(o.group) + Elements(o.waiting), comp);
    }
  }

  /** A group that was not filled has everyone its members reach. */
  lemma FoundIsClosed(order: seq<Address>, links: Links, v0: set<Address>, seed: Address, o: Outcome)
    requires Symmetric(links) && Closed(v0, Elements(order), links)
    requires Exploring(order, links, v0, seed, o.visited, o.group, []) && o.group != []
    requires Expanded(order, links, o.visited, o.group)
    ensures ComponentOf(seed, Elements(order), links) <= Elements(o.group)
  {
    assert Elements<Address>([]) == {};
    forall x, y | x in Elements(o.group) && y in Elements(order) && (x, y) in links ensures y in Elements(o.group) {
      assert y in o.visited && (y, x) in links;
    }
    assert seed in Elements(o.group);
    ComponentInClosed(seed, Elements(o.group), Elements(order), links);
  }

  lemma FoundInComponent(order: seq<Address>, links: Links, v0: set<Address>, seed: Address,
                         visited: set<Address>, group: seq<Address>, waiting: seq<Address>)
    requires Exploring(order, links, v0, seed, visited, group, waiting) && group != []
    ensures Elements(group) + Elements(waiting) <= ComponentOf(seed, Elements(order), links)
  {
    var nodes := Elements(order);
    forall x | x in group ensures Joined(seed, x, nodes, links) {
      var i :| 0 <= i < |group| && group[i] == x;
      ChainedReaches(group, i, nodes, links);
    }
    forall y | y in waiting ensures Joined(seed, y, nodes, links) {
      var x :| x in group && (x, y) in links;
      JoinedStep(seed, x, y, nodes, links);
    }
  }

  ghost predicate CleanSoFar(p: Pass, nodes: set<Address>, links: Links) {
    && p.left == {}
    && Closed(p.visited, nodes, links)
    && (forall g | g in p.groups :: Elements(g) in Components(nodes, links))
  }

  lemma CleanSeed(before: Pass, order: seq<Address>, links: Links, cap: nat, seed: Address)
    requires NoDuplicates(order) && Symmetric(links) && seed in order
    requires NoComponentExceeds(Elements(order), links, cap)
    requires CleanSoFar(before, Elements(order), links)
    ensures CleanSoFar(SearchFrom(order, links, cap, before, seed), Elements(order), links)
  {
    if seed !in before.visited {
      assert ComponentOf(seed, Elements(order), links) in Components(Elements(order), links);
      SearchFindsComponent(order, links, cap, before.visited, seed);
    }
  }

  lemma {:induction false} CleanPass(order: seq<Address>, links: Links, cap: nat, n: nat)
    requires NoDuplicates(order) && Symmetric(links) && n <= |order|
    requires NoComponentExceeds(Elements(order), links, cap)
    ensures CleanSoFar(SearchAll(order, links, cap, n), Elements(order), links)
  {
    if n > 0 {
      CleanPass(order, links, cap, n - 1);
      CleanSeed(SearchAll(order, links, cap, n - 1), order, links, cap, order[n - 1]);
    }
  }

  /** The groups are exactly the connected components if and only if no component exceeds the cap. */
  lemma GroupsAreComponents(order: seq<Address>, links: Links, cap: nat)
    requires NoDuplicates(order) && Symmetric(links)
    ensures GroupSets(Groups(order, links, cap)) == Components(Elements(order), links)
            <==> NoComponentExceeds(Elements(order), links, cap)
    ensures NoComponentExceeds(Elements(order), links, cap) ==>
            LeftBehind(order, links, cap) == {} && Members(Groups(order, links, cap)) == Elements(order)
  {
    var nodes := Elements(order);
    var groups := Groups(order, links, cap);
    PassKeeps(order, links, cap, |order|);
    if NoComponentExceeds(nodes, links, cap) {
      CleanPass(order, links, cap, |order|);
      assert GroupSets(groups) <= Components(nodes, links);
      forall c | c in Components(nodes, links) ensures c in GroupSets(groups) {
        var a :| a in nodes && c == ComponentOf(a, nodes, links);
        assert a in Members(groups);
        var g :| g in groups && a in g;
        var b :| b in nodes && Elements(g) == ComponentOf(b, nodes, links);
        SameComponent(b, a, nodes, links);
        assert Elements(g) in GroupSets(groups);
      }
    }
    if GroupSets(groups) == Components(nodes, links) {
      forall c | c in Components(nodes, links) ensures |c| <= Cap(cap) {
        assert c in GroupSets(groups);
        var g :| g in groups && Elements(g) == c;
        SizeOfElements(g);
      }
    }
  }

  // ----- who is left behind -----

  /** A cap of at most one makes every peer a group of its own. */
  lemma {:induction false} SmallCapLeavesNobody(order: seq<Address>, links: Links, cap: nat, n: nat)
    requires cap <= 1 && n <= |order|
    ensures SearchAll(order, links, cap, n).left == {}
  {
    if n > 0 {
      SmallCapLeavesNobody(order, links, cap, n - 1);
      AloneInGroup(order, links, cap, SearchAll(order, links, cap, n - 1).visited, order[n - 1]);
    }
  }

  lemma AloneInGroup(order: seq<Address>, links: Links, cap: nat, visited: set<Address>, seed: Address)
    requires cap <= 1
    ensures Search(order, links, cap, visited + {seed}, [seed], []).waiting == []
  {
  }

  ghost predicate AllLinked(nodes: set<Address>, links: Links) {
    forall a, b | a in nodes && b in nodes :: (a, b) in links
  }

  lemma {:induction false} SearchOnlyAdds(order: seq<Address>, links: Links, cap: nat,
                                          visited: set<Address>, stack: seq<Address>, group: seq<Address>)
    ensures visited <= Search(order, links, cap, visited, stack, group).visited
    decreases Elements(order) - visited, |stack|
  {
    if stack != [] {
      var cur := stack[|stack| - 1];
      var f := Fresh(order, links, cur, visited);
      if |group + [cur]| < cap {
        assert f != [] ==> f[0] in (Elements(order) - visited) && f[0] !in (Elements(order) - (visited + Elements(f)));
        assert f == [] ==> visited + Elements(f) == visited;
        SearchOnlyAdds(order, links, cap, visited + Elements(f), stack[..|stack| - 1] + f, group + [cur]);
      }
    }
  }

  /** A seed linked to everyone has everyone queued at once. */
  lemma CrowdIsVisited(order: seq<Address>, links: Links, cap: nat, seed: Address)
    requires AllLinked(Elements(order), links) && seed in order && cap >= 2
    ensures Elements(order) <= Search(order, links, cap, {seed}, [seed], []).visited
  {
    var f := Fresh(order, links, seed, {seed});
    assert [seed][..0] + f == f && [] + [seed] == [seed];
    assert Elements(order) <= {seed} + Elements(f);
    SearchOnlyAdds(order, links, cap, {seed} + Elements(f), f, [seed]);
  }

  /** The first search over mutually linked peers fills its group and has the others waiting. */
  lemma CrowdSearch(order: seq<Address>, links: Links, cap: nat) returns (o: Outcome)
    requires NoDuplicates(order) && AllLinked(Elements(order), links) && 2 <= cap < |order|
    ensures o == Search(order, links, cap, {} + {order[0]}, [order[0]], [])
    ensures o.visited == Elements(order) && |o.group| == cap && |Elements(o.waiting)| == |order| - cap
  {
    var seed := order[0];
    o := SearchFromSeed(order, links, cap, {}, seed);
    assert {} + {seed} == {seed};
    CrowdIsVisited(order, links, cap, seed);
    SizeOfElements(order);
    PartsOfFound(o.group, o.waiting);
    assert o.visited == Elements(o.group) + Elements(o.waiting) == Elements(order);
  }

  lemma PartsOfFound(group: seq<Address>, waiting: seq<Address>)
    requires NoDuplicates(group + waiting)
    ensures |Elements(group) + Elements(waiting)| == |group| + |waiting| && |Elements(waiting)| == |waiting|
  {
    var found := group + waiting;
    SizeOfElements(found);
    assert Elements(found) == Elements(group) + Elements(waiting);
    forall i, j | 0 <= i < j < |waiting| ensures waiting[i] != waiting[j] {
      assert found[|group| + i] == waiting[i] && found[|group| + j] == waiting[j];
    }
    SizeOfElements(waiting);
  }

  lemma {:induction false} CrowdPass(order: seq<Address>, links: Links, cap: nat, n: nat, full: Pass)
    requires 1 <= n <= |order| && Elements(order) <= full.visited
    requires SearchAll(order, links, cap, 1) == full
    ensures SearchAll(order, links, cap, n) == full
  {
    if n > 1 {
      CrowdPass(order, links, cap, n - 1, full);
      assert order[n - 1] in Elements(order);
    }
  }

  /** More mutually linked peers than a cap of at least two form one full group, and all others are left behind. */
  lemma CrowdLeavesRest(order: seq<Address>, links: Links, cap: nat)
    requires NoDuplicates(order) && AllLinked(Elements(order), links) && 2 <= cap < |order|
    ensures |Groups(order, links, cap)| == 1 && |Groups(order, links, cap)[0]| == cap
    ensures |LeftBehind(order, links, cap)| == |order| - cap
  {
    var o := CrowdSearch(order, links, cap);
    assert SearchAll(order, links, cap, 0) == Pass({}, [], {});
    var full := Pass(o.visited, [] + [o.group], {} + Elements(o.waiting));
    assert SearchAll(order, links, cap, 1) == full;
    CrowdPass(order, links, cap, |order|, full);
  }

  // ----- when no visiting order leaves anyone behind -----

  lemma {:induction false} FreshAppend(
    a: seq<Address>, b: seq<Address>, links: Links, cur: Address, visited: set<Address>)
    ensures Fresh(a + b, links, cur, visited) == Fresh(a, links, cur, visited) + Fresh(b, links, cur, visited)
  {
    if b == [] {
      assert a + b == a;
    } else {
      var init := b[..|b| - 1];
      assert (a + b)[..|a + b| - 1] == a + init;
      FreshAppend(a, init, links, cur, visited);
    }
  }

  /** While `u` lies at the bottom of the stack and the peers joined without it can fill the group, the search
      stops with `u` waiting. */
  lemma {:induction false} BottomIsLeft(
    order: seq<Address>, links: Links, cap: nat, v: Address, u: Address, rest: set<Address>,
    visited: set<Address>, stack: seq<Address>, group: seq<Address>)
    requires NoDuplicates(order) && Exploring(order, links, {}, v, visited, group, stack)
    requires Expanded(order, links, visited, group) && |group| < cap && group != []
    requires stack != [] && stack[0] == u && u !in rest && rest <= Elements(order)
    requires v in rest && ComponentOf(v, rest, links) == rest && |rest| >= cap
    ensures u in Search(order, links, cap, visited, stack, group).waiting
    decreases Elements(order) - visited, |stack|
  {
    if |stack| == 1 {
      RestIsFound(order, links, cap, v, u, rest, visited, stack, group);
    } else {
      ExploreStep(order, links, {}, v, visited, group, stack);
      var cur := stack[|stack| - 1];
      var below := stack[..|stack| - 1];
      assert below[0] == u;
      if |group + [cur]| < cap {
        var f := Fresh(order, links, cur, visited);
        assert f != [] ==> f[0] in (Elements(order) - visited) && f[0] !in (Elements(order) - (visited + Elements(f)));
        assert f == [] ==> visited + Elements(f) == visited;
        BottomIsLeft(order, links, cap, v, u, rest, visited + Elements(f), below + f, group + [cur]);
      }
    }
  }

  /** With only `u` on the stack all peers joined without it are in the group. */
  lemma RestIsFound(order: seq<Address>, links: Links, cap: nat, v: Address, u: Address, rest: set<Address>,
                    visited: set<Address>, stack: seq<Address>, group: seq<Address>)
    requires Exploring(order, links, {}, v, visited, group, stack) && Expanded(order, links, visited, group)
    requires group != [] && stack == [u] && u !in rest && rest <= Elements(order)
    requires v in rest && ComponentOf(v, rest, links) == rest
    ensures |group| >= |rest|
  {
    assert group[0] == v;
    forall x, y | x in Elements(group) && y in rest && (x, y) in links ensures y in Elements(group) {
      assert y in visited;
    }
    ComponentInClosed(v, Elements(group), rest, links);
    SubsetNotLarger(rest, Elements(group));
    assert forall i, j | 0 <= i < j < |group| :: (group + stack)[i] == group[i] && (group + stack)[j] == group[j];
    SizeOfElements(group);
  }

  /** The seed pushes `u` first when `u` comes next in the visiting order. */
  lemma SeedPushesNext(v: Address, u: Address, tail: seq<Address>, links: Links)
    requires u != v && (v, u) in links
    ensures var f := Fresh([v, u] + tail, links, v, {v}); f != [] && f[0] == u
  {
    FreshAppend([v, u], tail, links, v, {v});
    FreshAppend([v], [u], links, v, {v});
    assert [v] + [u] == [v, u];
    assert Fresh([u], links, v, {v}) == [u] by { assert [u][..0] == []; }
    assert Fresh([v], links, v, {v}) == [];
  }

  lemma NextIsLeft(order: seq<Address>, links: Links, cap: nat, v: Address, u: Address, rest: set<Address>)
    requires NoDuplicates(order) && |order| >= 2 && order[0] == v && order[1] == u && (v, u) in links
    requires u !in rest && rest <= Elements(order) && v in rest
    requires ComponentOf(v, rest, links) == rest && 2 <= cap <= |rest|
    ensures u in Search(order, links, cap, {} + {v}, [v], []).waiting
  {
    assert order == [v, u] + order[2..];
    SeedPushesNext(v, u, order[2..], links);
    var f := Fresh(order, links, v, {v});
    assert {} + {v} == {v} && [v][..0] + f == f && [] + [v] == [v];
    assert Exploring(order, links, {}, v, {v}, [], [v]) by { assert [] + [v] == [v]; }
    ExploreStep(order, links, {}, v, {v}, [], [v]);
    BottomIsLeft(order, links, cap, v, u, rest, {v} + Elements(f), f, [v]);
  }

  lemma {:induction false} LeftOnlyGrows(order: seq<Address>, links: Links, cap: nat, n: nat)
    requires 1 <= n <= |order|
    ensures SearchAll(order, links, cap, 1).left <= SearchAll(order, links, cap, n).left
  {
    if n > 1 {
      LeftOnlyGrows(order, links, cap, n - 1);
    }
  }

  /** A component listed so that every peer is linked to an earlier one. */
  lemma ChainOfComponent(nodes: set<Address>, links: Links, a: Address) returns (chain: seq<Address>)
    requires Symmetric(links) && a in nodes
    ensures NoDuplicates(chain) && Chained(chain, links) && chain != []
    ensures Elements(chain) == ComponentOf(a, nodes, links)
  {
    var order := Ordered(nodes);
    OrderedIncreases(nodes);
    assert Elements(order) == nodes;
    var cap := |nodes| + 1;
    assert ComponentOf(a, nodes, links) <= nodes;
    SubsetNotLarger(ComponentOf(a, nodes, links), nodes);
    var o := SearchFindsAll(order, links, cap, {}, a);
    var o' := SearchFromSeed(order, links, cap, {}, a);
    chain := o.group;
    assert chain + [] == chain;
  }

  /** The last of a chain can be taken away without separating the others. */
  lemma PrefixIsJoined(chain: seq<Address>, links: Links, v: Address)
    requires Symmetric(links) && Chained(chain, links) && v in chain
    ensures ComponentOf(v, Elements(chain), links) == Elements(chain)
  {
    var nodes := Elements(chain);
    var i :| 0 <= i < |chain| && chain[i] == v;
    ChainedReaches(chain, i, nodes, links);
    var p :| PathBetween(p, chain[0], v, nodes, links);
    JoinedSymmetric(p, chain[0], v, nodes, links);
    forall y | y in nodes ensures Joined(v, y, nodes, links) {
      var j :| 0 <= j < |chain| && chain[j] == y;
      ChainedReaches(chain, j, nodes, links);
      var q :| PathBetween(q, chain[0], y, nodes, links);
      JoinedTransitive(v, q, chain[0], y, nodes, links);
    }
  }

  lemma LeftByFirst(order: seq<Address>, links: Links, cap: nat, u: Address)
    requires order != [] && u in Search(order, links, cap, {} + {order[0]}, [order[0]], []).waiting
    ensures u in LeftBehind(order, links, cap)
  {
    assert SearchAll(order, links, cap, 0) == Pass({}, [], {});
    assert SearchAll(order, links, cap, 1) == SearchFrom(order, links, cap, Pass({}, [], {}), order[0]);
    LeftOnlyGrows(order, links, cap, |order|);
  }

  lemma PrefixChained(init: seq<Address>, u: Address, links: Links)
    requires Chained(init + [u], links)
    ensures Chained(init, links)
  {
    var chain := init + [u];
    forall i | 0 < i < |init| ensures LinkedEarlier(init, i, links) {
      assert LinkedEarlier(chain, i, links);
      var j :| 0 <= j < i && (chain[j], chain[i]) in links;
      assert (init[j], init[i]) in links;
    }
  }

  /** The last of a chain, and an earlier peer linked to it. */
  lemma LastOfChain(chain: seq<Address>, links: Links) returns (v: Address, init: seq<Address>, u: Address)
    requires Chained(chain, links) && NoDuplicates(chain) && |chain| >= 2
    ensures chain == init + [u] && v in init && (v, u) in links && u !in init && Chained(init, links)
  {
    var n := |chain| - 1;
    init, u := chain[..n], chain[n];
    assert chain == init + [u];
    PrefixChained(init, u, links);
    v := LinkedBefore(chain, links, n);
    assert forall i | 0 <= i < n :: init[i] == chain[i];
  }

  lemma LinkedBefore(chain: seq<Address>, links: Links, n: nat) returns (v: Address)
    requires Chained(chain, links) && 0 < n < |chain|
    ensures v in chain[..n] && (v, chain[n]) in links
  {
    assert LinkedEarlier(chain, n, links);
    var j :| 0 <= j < n && (chain[j], chain[n]) in links;
    v := chain[j];
    assert chain[..n][j] == v;
  }

  /** A peer of a component, and one linked to it, without which the rest is still joined. */
  lemma RemovablePeer(nodes: set<Address>, links: Links, a: Address)
    returns (v: Address, u: Address, rest: set<Address>)
    requires Symmetric(links) && a in nodes && |ComponentOf(a, nodes, links)| >= 2
    ensures u !in rest && v in rest && (v, u) in links && rest + {u} == ComponentOf(a, nodes, links)
    ensures ComponentOf(v, rest, links) == rest
  {
    var chain := ChainOfComponent(nodes, links, a);
    SizeOfElements(chain);
    var init: seq<Address>;
    v, init, u := LastOfChain(chain, links);
    rest := Elements(init);
    assert Elements(chain) == rest + {u};
    PrefixIsJoined(init, links, v);
  }

  /** Starting next to such a peer leaves it behind. */
  lemma SomeOrderLeavesOneBehind(nodes: set<Address>, links: Links, cap: nat, a: Address) returns (order: seq<Address>)
    requires Symmetric(links) && a in nodes && 2 <= cap < |ComponentOf(a, nodes, links)|
    ensures NoDuplicates(order) && Elements(order) == nodes && LeftBehind(order, links, cap) != {}
  {
    var v, u, rest := RemovablePeer(nodes, links, a);
    assert |rest + {u}| == |rest| + 1;
    assert rest <= nodes && u in nodes by { assert rest + {u} <= nodes; }
    order := OrderFrom(nodes, v, u);
    NextIsLeft(order, links, cap, v, u, rest);
    LeftByFirst(order, links, cap, u);
  }

  lemma OrderFrom(nodes: set<Address>, v: Address, u: Address) returns (order: seq<Address>)
    requires v in nodes && u in nodes && u != v
    ensures NoDuplicates(order) && Elements(order) == nodes && |order| >= 2 && order[0] == v && order[1] == u
  {
    var tail := Ordered(nodes - {u, v});
    OrderedIncreases(nodes - {u, v});
    order := [v, u] + tail;
    forall i, j | 0 <= i < j < |order| ensures order[i] != order[j] {
      assert j >= 2 ==> order[j] in tail;
    }
    forall x ensures x in order <==> x in nodes {
      assert x in order <==> x == v || x == u || x in tail;
    }
  }

  /** No visiting order leaves anyone behind if and only if the cap is at most one or no component exceeds it. */
  lemma NobodyLeftInAnyOrderIff(nodes: set<Address>, links: Links, cap: nat)
    requires Symmetric(links)
    ensures (forall order | NoDuplicates(order) && Elements(order) == nodes :: LeftBehind(order, links, cap) == {})
       <==> cap <= 1 || NoComponentExceeds(nodes, links, cap)
  {
    if cap <= 1 {
      forall order | NoDuplicates(order) && Elements(order) == nodes ensures LeftBehind(order, links, cap) == {} {
        SmallCapLeavesNobody(order, links, cap, |order|);
      }
    } else if NoComponentExceeds(nodes, links, cap) {
      forall order | NoDuplicates(order) && Elements(order) == nodes ensures LeftBehind(order, links, cap) == {} {
        GroupsAreComponents(order, links, cap);
      }
    } else {
      var c :| c in Components(nodes, links) && |c| > cap;
      var a :| a in nodes && c == ComponentOf(a, nodes, links);
      var order := SomeOrderLeavesOneBehind(nodes, links, cap, a);
    }
  }
}
