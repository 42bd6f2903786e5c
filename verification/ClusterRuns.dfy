/**
  Runs of the cluster: any sequence of upserts, removals and reclustering passes from the empty state,
  each public call being one step.
 */
module ClusterRuns {
  import opened Wrappers
  import opened Sequences
  import opened IslandSearch
  import opened ClusterModel
  import opened Reclustering

  datatype Action =
    | Upsert(address: Address, parcel: Parcel, realm: string, heartbeat: int)
    | Remove(address: Address)
    | Pass(now: int, banned: set<Address>)

  function Step(s: State, cfg: Config, act: Action): State {
    match act
    case Upsert(a, parcel, realm, heartbeat) => UpsertPeerAt(s, a, parcel, realm, heartbeat)
    case Remove(a) => RemovePeer(s, a)
    case Pass(now, banned) => Recluster(s, now, cfg, banned).state
  }

  function After(cfg: Config, acts: seq<Action>): State {
    if acts == [] then EMPTY else Step(After(cfg, acts[..|acts| - 1]), cfg, acts[|acts| - 1])
  }

  /** The most recent pass of the run, if any, gave its groups distinct ids. */
  ghost predicate LastPassDistinct(cfg: Config, acts: seq<Action>) {
    acts == [] ||
    var before := acts[..|acts| - 1];
    match acts[|acts| - 1]
    case Pass(now, _) =>
      var live := Survivors(After(cfg, before), now, cfg);
      DistinctIds(GroupsOf(live, cfg), Assignment(live, cfg))
    case _ => LastPassDistinct(cfg, before)
  }

  lemma StepKeeps(s: State, cfg: Config, act: Action)
    requires Consistent(s)
    ensures var r := Step(s, cfg, act);
            && Consistent(r)
            && s.minted <= r.minted
            && (forall id | id in Held(r) :: id in Held(s) || s.minted < id <= r.minted)
    ensures act.Pass? || !AllListed(s) || AllListed(Step(s, cfg, act))
  {
    match act
    case Upsert(a, parcel, realm, heartbeat) =>
      UpsertKeeps(s, a, parcel, realm, heartbeat);
    case Remove(a) =>
      RemovePeerIsRemoveSet(s, a);
      RemoveSetKeeps(s, {a});
    case Pass(now, banned) =>
      ReclusterKeeps(s, now, cfg, banned);
  }

  /** In every reachable state the index is consistent, and complete if the last pass chose distinct ids. */
  lemma {:induction false} EveryRunConsistent(cfg: Config, acts: seq<Action>)
    ensures Consistent(After(cfg, acts))
    ensures LastPassDistinct(cfg, acts) ==> AllListed(After(cfg, acts))
  {
    if acts != [] {
      var before, act := acts[..|acts| - 1], acts[|acts| - 1];
      EveryRunConsistent(cfg, before);
      StepKeeps(After(cfg, before), cfg, act);
      if act.Pass? {
        AllListedIffDistinct(After(cfg, before), act.now, cfg, act.banned);
      }
    }
  }

  lemma {:induction false} HeldIdsWereMinted(cfg: Config, acts: seq<Action>, i: nat)
    requires i <= |acts|
    ensures After(cfg, acts[..i]).minted <= After(cfg, acts).minted
    ensures forall id | id in Held(After(cfg, acts[..i])) :: id <= After(cfg, acts).minted
  {
    if i == |acts| {
      assert acts[..i] == acts;
      EveryRunConsistent(cfg, acts);
      var s := After(cfg, acts);
      forall id | id in Held(s) ensures id <= s.minted {
        if id in s.islands { assert ConsistentIsland(s, id); }
      }
    } else {
      var before := acts[..|acts| - 1];
      assert acts[..i] == before[..i];
      HeldIdsWereMinted(cfg, before, i);
      EveryRunConsistent(cfg, before);
      StepKeeps(After(cfg, before), cfg, acts[|acts| - 1]);
    }
  }

  /** An id that appears in the last step of a run was never carried at any earlier point of the run. */
  lemma NewIdsNeverHeldBefore(cfg: Config, acts: seq<Action>, i: nat, id: IslandId)
    requires i < |acts|
    requires id in Held(After(cfg, acts)) && id !in Held(After(cfg, acts[..|acts| - 1]))
    ensures id !in Held(After(cfg, acts[..i]))
  {
    var before := acts[..|acts| - 1];
    assert acts[..i] == before[..i];
    EveryRunConsistent(cfg, before);
    StepKeeps(After(cfg, before), cfg, acts[|acts| - 1]);
    HeldIdsWereMinted(cfg, before, i);
  }

  // ----- runs in which the two conditions fail -----

  lemma AfterOneMore(cfg: Config, acts: seq<Action>, act: Action)
    ensures After(cfg, acts + [act]) == Step(After(cfg, acts), cfg, act)
  {
    assert (acts + [act])[..|acts|] == acts;
  }

  ghost predicate PresentAt(s: State, names: set<Address>, parcel: Parcel, now: int) {
    && s.peers.Keys == names
    && forall x | x in s.peers :: s.peers[x].parcel == parcel && s.peers[x].heartbeat == now
  }

  /** One more peer arrives on a parcel. */
  lemma Arrive(cfg: Config, acts: seq<Action>, names: set<Address>, a: Address, parcel: Parcel, realm: string, now: int)
    requires PresentAt(After(cfg, acts), names, parcel, now) && a !in names
    ensures PresentAt(After(cfg, acts + [Upsert(a, parcel, realm, now)]), names + {a}, parcel, now)
  {
    AfterOneMore(cfg, acts, Upsert(a, parcel, realm, now));
  }

  lemma TwoArrive(cfg: Config, a: Address, b: Address, parcel: Parcel, realm: string, now: int)
    returns (acts: seq<Action>)
    requires a != b
    ensures acts == [Upsert(a, parcel, realm, now)] + [Upsert(b, parcel, realm, now)]
    ensures PresentAt(After(cfg, acts), {a, b}, parcel, now)
  {
    var first := [Upsert(a, parcel, realm, now)];
    Arrive(cfg, [], {}, a, parcel, realm, now);
    assert [] + first == first;
    Arrive(cfg, first, {a}, b, parcel, realm, now);
    acts := first + [Upsert(b, parcel, realm, now)];
    assert {a} + {b} == {a, b} && {} + {a} == {a};
  }

  lemma NearItself(p: Parcel, radius: real)
    ensures Near(p, p, radius)
  {
    assert radius * radius >= 0.0;
  }

  lemma SharedOriginFails(cfg: Config, acts: seq<Action>, now: int)
    requires var s := After(cfg, acts);
      Consistent(s) && Stale(s, now, cfg.timeout) == {} && !DistinctOrigins(GroupsOf(s, cfg), s)
    ensures var pass := Action.Pass(now, {});
      !LastPassDistinct(cfg, acts + [pass]) && !AllListed(After(cfg, acts + [pass]))
  {
    var s, pass := After(cfg, acts), Action.Pass(now, {});
    AfterOneMore(cfg, acts, pass);
    assert (acts + [pass])[..|acts|] == acts;
    RemoveSetNothing(s);
    GroupsOfAreGood(s, cfg);
    DistinctIdsIffOrigins(s, GroupsOf(s, cfg));
    AllListedIffDistinct(s, now, cfg, {});
  }

  /** A run in which two groups keep one id, so that the index misses an assigned peer: two peers arrive on one
      parcel, a pass puts them on one island, one of them moves away and the next pass comes. */
  lemma PartingSharesId(cfg: Config, a: Address, b: Address, here: Parcel, there: Parcel, realm: string, now: int)
    requires a != b && cfg.maxPeers >= 2 && !Near(here, there, cfg.radius)
    ensures var pass := Action.Pass(now, {});
      var acts := [Upsert(a, here, realm, now)] + [Upsert(b, here, realm, now)] + [pass]
                + [Upsert(b, there, realm, now)] + [pass];
      !LastPassDistinct(cfg, acts) && !AllListed(After(cfg, acts))
  {
    var acts, id := TwoMeet(cfg, a, b, here, realm, now);
    MoveAway(cfg, acts, a, b, id, here, there, realm, now);
    SharedOriginFails(cfg, acts + [Upsert(b, there, realm, now)], now);
  }

  lemma TwoMeet(cfg: Config, a: Address, b: Address, here: Parcel, realm: string, now: int)
    returns (acts: seq<Action>, id: IslandId)
    requires a != b && cfg.maxPeers >= 2
    ensures acts == [Upsert(a, here, realm, now)] + [Upsert(b, here, realm, now)] + [Action.Pass(now, {})]
    ensures PresentAt(After(cfg, acts), {a, b}, here, now) && AllOn(After(cfg, acts), id)
  {
    var arrived := TwoArrive(cfg, a, b, here, realm, now);
    EveryRunConsistent(cfg, arrived);
    id := PassOverPair(cfg, After(cfg, arrived), a, b, here, now);
    AfterOneMore(cfg, arrived, Action.Pass(now, {}));
    acts := arrived + [Action.Pass(now, {})];
  }

  lemma PassOverPair(cfg: Config, s: State, a: Address, b: Address, here: Parcel, now: int) returns (id: IslandId)
    requires Consistent(s) && PresentAt(s, {a, b}, here, now) && cfg.maxPeers >= 2
    ensures var r := Step(s, cfg, Action.Pass(now, {})); PresentAt(r, {a, b}, here, now) && AllOn(r, id)
  {
    NearItself(here, cfg.radius);
    NobodyStale(s, {a, b}, here, now, cfg.timeout);
    id := PairTogether(s, now, cfg, a, b);
  }

  lemma NobodyStale(s: State, names: set<Address>, parcel: Parcel, now: int, timeout: nat)
    requires PresentAt(s, names, parcel, now)
    ensures Stale(s, now, timeout) == {}
  {
  }

  ghost predicate AllOn(s: State, id: IslandId) {
    forall x | x in s.peers :: s.peers[x].island == Some(id)
  }

  lemma MoveAway(cfg: Config, acts: seq<Action>, a: Address, b: Address, id: IslandId,
                 here: Parcel, there: Parcel, realm: string, now: int)
    requires a != b && cfg.maxPeers >= 2 && !Near(here, there, cfg.radius)
    requires PresentAt(After(cfg, acts), {a, b}, here, now) && AllOn(After(cfg, acts), id)
    ensures var s := After(cfg, acts + [Upsert(b, there, realm, now)]);
      Consistent(s) && Stale(s, now, cfg.timeout) == {} && !DistinctOrigins(GroupsOf(s, cfg), s)
  {
    AfterOneMore(cfg, acts, Upsert(b, there, realm, now));
    EveryRunConsistent(cfg, acts + [Upsert(b, there, realm, now)]);
    PairApart(After(cfg, acts + [Upsert(b, there, realm, now)]), cfg, a, b, id);
  }

  /** A run in which a peer ends with no island: three of them on one parcel, and a cap of two. */
  lemma CapLeavesPeerBehind(cfg: Config, a: Address, b: Address, c: Address, parcel: Parcel, realm: string, now: int)
    requires a != b && b != c && a != c && cfg.maxPeers == 2
    ensures var acts := [Upsert(a, parcel, realm, now)] + [Upsert(b, parcel, realm, now)]
                      + [Upsert(c, parcel, realm, now)];
      |Unassigned(After(cfg, acts + [Action.Pass(now, {})]))| == 1
  {
    var acts := TwoArrive(cfg, a, b, parcel, realm, now);
    Arrive(cfg, acts, {a, b}, c, parcel, realm, now);
    PassOverCrowd(cfg, acts + [Upsert(c, parcel, realm, now)], {a, b} + {c}, parcel, now);
  }

  lemma PassOverCrowd(cfg: Config, acts: seq<Action>, names: set<Address>, parcel: Parcel, now: int)
    requires PresentAt(After(cfg, acts), names, parcel, now) && 2 <= cfg.maxPeers < |names|
    ensures |Unassigned(After(cfg, acts + [Action.Pass(now, {})]))| == |names| - cfg.maxPeers
  {
    var s := After(cfg, acts);
    AfterOneMore(cfg, acts, Action.Pass(now, {}));
    EveryRunConsistent(cfg, acts);
    NearItself(parcel, cfg.radius);
    assert Stale(s, now, cfg.timeout) == {};
    RemoveSetNothing(s);
    assert |s.peers| == |s.peers.Keys|;
    CrowdLeavesUnassigned(s, now, cfg, {});
  }
}
