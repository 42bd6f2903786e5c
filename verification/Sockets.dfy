/**
  WebSocket connections to the cluster (crates/catalyrst-archipelago/src/ws.rs, `handle_socket`), as steps
  on the shared cluster and on each socket's own variables. Verdicts on signatures, the deny list, the ban
  service and whether a send succeeds are inputs of the step.
 */
module Sockets {
  import opened Wrappers
  import opened IslandSearch
  import opened ClusterModel

  type SocketId = nat

  datatype Stage = HandshakeStart | ChallengeSent | Completed

  /** `notified` and `presence` record the island notifications sent and the presence rows written. */
  datatype Socket = Socket(
    open: bool,
    stage: Stage,
    address: Option<Address>,
    gen: Option<nat>,
    initialSent: bool,
    lastSent: Option<IslandId>,
    notified: seq<IslandId>,
    presence: seq<Address>)

  const NEW_SOCKET := Socket(true, HandshakeStart, None, None, false, None, [], [])

  /** `registered[g - 1]` is the address that generation `g` was handed to. */
  datatype World = World(
    cluster: State,
    connGens: map<Address, nat>,
    registered: seq<Address>,
    sockets: map<SocketId, Socket>)

  const START := World(EMPTY, map[], [], map[])

  datatype Verdict = Rejected | Denied | Accepted(signer: Address)

  datatype Input =
    | ChallengeRequest(claimed: Address, sendOk: bool)
    | SignedChallenge(verdict: Verdict, sendOk: bool)
    | Heartbeat(
        parcel: Option<Parcel>, realm: string, now: int, pass: Option<(Config, set<Address>)>,
        banned: bool, sendOk: bool)
    | OtherMessage
    | IslandEvent(address: Address, island: IslandId, sendOk: bool)
    | Disconnect

  datatype Action =
    | Connect(id: SocketId)
    | Receive(id: SocketId, input: Input)
    | Elsewhere(cluster: State)

  // ----- steps -----

  function RegisterConn(w: World, a: Address): (World, nat) {
    var next := NextConn(Conns(w.connGens, |w.registered|), a);
    (w.(registered := w.registered + [a], connGens := next.gens), next.counter)
  }

  function RemovePeerIfConn(w: World, a: Address, gen: nat): World {
    var (gens, cluster) := DropConn(w.connGens, w.cluster, a, gen);
    w.(connGens := gens, cluster := cluster)
  }

  function Put(w: World, id: SocketId, s: Socket): World {
    w.(sockets := w.sockets[id := s])
  }

  /** Leaving the loop: an authenticated socket gives up its registration. */
  function Close(w: World, id: SocketId, s: Socket): World {
    var closed := Put(w, id, s.(open := false));
    if s.address.Some? && s.gen.Some? then RemovePeerIfConn(closed, s.address.value, s.gen.value) else closed
  }

  function Continue(w: World, id: SocketId, s: Socket, sendOk: bool): World {
    if sendOk then Put(w, id, s) else Close(w, id, s)
  }

  function Notify(s: Socket, island: IslandId): Socket {
    s.(lastSent := Some(island), notified := s.notified + [island])
  }

  /** The cluster after a heartbeat: the peer upserted, and a pass if the first one found no island. */
  function HeartbeatCluster(c: State, first: bool, a: Address, parcel: Parcel, h: Input): State
    requires h.Heartbeat?
  {
    var c1 := UpsertPeerAt(c, a, parcel, h.realm, h.now);
    if first && IslandOf(c1, a).None? && h.pass.Some? then Recluster(c1, h.now, h.pass.value.0, h.pass.value.1).state
    else c1
  }

  /** A heartbeat on an authenticated socket; the first one also announces the island, unless already sent. */
  function OnHeartbeat(w: World, id: SocketId, s: Socket, a: Address, parcel: Parcel, h: Input): World
    requires h.Heartbeat?
  {
    var s1 := s.(presence := s.presence + [a], initialSent := true);
    AnnounceIsland(w, id, s, s1, a, h, HeartbeatCluster(w.cluster, !s.initialSent, a, parcel, h))
  }

  /** What follows on the socket, `s` before the heartbeat and `s1` with it recorded, once the cluster is `c`. */
  function AnnounceIsland(w: World, id: SocketId, s: Socket, s1: Socket, a: Address, h: Input, c: State): World
    requires h.Heartbeat?
  {
    if s.initialSent then Put(w.(cluster := c), id, s1) else
      match IslandOf(c, a)
      case None => Put(w.(cluster := c), id, s1)
      case Some((island, _)) =>
        if s.lastSent == Some(island) then Put(w.(cluster := c), id, s1)
        else if h.banned then Put(w.(cluster := RemovePeer(c, a)), id, s1)
        else Continue(w.(cluster := c), id, Notify(s1, island), h.sendOk)
  }

  function OnInput(w: World, id: SocketId, s: Socket, input: Input): World {
    match input
    case ChallengeRequest(claimed, sendOk) =>
      (match s.stage
       case HandshakeStart =>
         if claimed == "" then Close(w, id, s)
         else if sendOk then Put(w, id, s.(address := Some(claimed), stage := ChallengeSent))
         else Close(w, id, s.(address := Some(claimed)))
       case ChallengeSent => Close(w, id, s)
       case Completed => w)
    case SignedChallenge(verdict, sendOk) =>
      (match s.stage
       case ChallengeSent =>
         if verdict.Accepted? then
           var (w1, gen) := RegisterConn(w, verdict.signer);
           var s1 := s.(address := Some(verdict.signer), gen := Some(gen));
           if sendOk then Put(w1, id, s1.(stage := Completed)) else Close(w1, id, s1)
         else Close(w, id, s)
       case HandshakeStart => Close(w, id, s)
       case Completed => w)
    case Heartbeat(parcel, _, _, _, _, _) =>
      if s.stage != Completed then Close(w, id, s)
      else if s.address.None? || parcel.None? then w
      else OnHeartbeat(w, id, s, s.address.value, parcel.value, input)
    case OtherMessage =>
      if s.stage == Completed then w else Close(w, id, s)
    case IslandEvent(a, island, sendOk) =>
      if s.address != Some(a) || s.lastSent == Some(island) then w
      else Continue(w, id, Notify(s, island), sendOk)
    case Disconnect => Close(w, id, s)
  }

  /** One step of a run; `Elsewhere` is any change other callers make to the cluster. */
  function Step(w: World, act: Action): World {
    match act
    case Connect(id) => if id in w.sockets then w else Put(w, id, NEW_SOCKET)
    case Receive(id, input) =>
      if id in w.sockets && w.sockets[id].open then OnInput(w, id, w.sockets[id], input) else w
    case Elsewhere(cluster) => w.(cluster := cluster)
  }

  function Run(acts: seq<Action>): World {
    if acts == [] then START else Step(Run(acts[..|acts| - 1]), acts[|acts| - 1])
  }

  // ----- what every run keeps -----

  ghost predicate NoLater(registered: seq<Address>, a: Address, gen: nat) {
    forall k | gen <= k < |registered| :: registered[k] != a
  }

  /** The socket's own history: no repeated notification, presence only for its authenticated address. */
  ghost predicate GoodHistory(s: Socket) {
    && (s.lastSent == if s.notified == [] then None else Some(s.notified[|s.notified| - 1]))
    && (forall i | 0 <= i < |s.notified| - 1 :: s.notified[i] != s.notified[i + 1])
    && (s.stage == Completed ==> s.gen.Some?)
    && (s.open && s.gen.Some? ==> s.stage == Completed)
    && (s.presence != [] ==> s.stage == Completed)
    && (forall a | a in s.presence :: s.address == Some(a))
  }

  /** An authenticated socket holds the generation its address was registered with. */
  ghost predicate GoodRegistration(w: World, s: Socket) {
    s.gen.Some? ==>
      && s.address.Some?
      && 0 < s.gen.value <= |w.registered| && w.registered[s.gen.value - 1] == s.address.value
      && (s.open ==> (NoLater(w.registered, s.address.value, s.gen.value)
                      <==> s.address.value in w.connGens && w.connGens[s.address.value] == s.gen.value))
  }

  ghost predicate DistinctGens(w: World) {
    forall i, j | i in w.sockets && j in w.sockets && i != j && w.sockets[i].gen.Some? ::
      w.sockets[i].gen != w.sockets[j].gen
  }

  ghost predicate GensMinted(w: World) {
    forall a | a in w.connGens :: 0 < w.connGens[a] <= |w.registered| && w.registered[w.connGens[a] - 1] == a
  }

  ghost predicate Sound(w: World) {
    && (forall i | i in w.sockets :: GoodHistory(w.sockets[i]) && GoodRegistration(w, w.sockets[i]))
    && DistinctGens(w)
    && GensMinted(w)
  }

  lemma PutSound(w: World, id: SocketId, s: Socket)
    requires Sound(w) && GoodHistory(s) && GoodRegistration(w, s)
    requires id in w.sockets ==> w.sockets[id].gen == s.gen
    requires id !in w.sockets ==> s.gen.None?
    ensures Sound(Put(w, id, s))
  {
    var r := Put(w, id, s);
    forall i | i in r.sockets ensures GoodHistory(r.sockets[i]) && GoodRegistration(r, r.sockets[i]) {
      if i != id { assert GoodRegistration(w, w.sockets[i]); }
    }
  }

  lemma CloseSound(w: World, id: SocketId, s: Socket)
    requires Sound(w) && id in w.sockets && w.sockets[id].gen == s.gen
    requires GoodHistory(s) && GoodRegistration(w, s)
    ensures Sound(Close(w, id, s))
  {
    var closed := Put(w, id, s.(open := false));
    PutSound(w, id, s.(open := false));
    if s.address.Some? && s.gen.Some? {
      ReleaseSound(closed, id, s.address.value, s.gen.value);
    }
  }

  /** Giving up a registration does not disturb any other open socket: generations are never shared. */
  lemma ReleaseSound(w: World, id: SocketId, a: Address, gen: nat)
    requires Sound(w) && id in w.sockets && !w.sockets[id].open && w.sockets[id].gen == Some(gen)
    ensures Sound(RemovePeerIfConn(w, a, gen))
  {
    var r := RemovePeerIfConn(w, a, gen);
    forall i | i in r.sockets ensures GoodRegistration(r, r.sockets[i]) {
      assert GoodRegistration(w, w.sockets[i]);
    }
  }

  lemma RegisterSound(w: World, id: SocketId, s: Socket, signer: Address)
    requires Sound(w) && id in w.sockets && w.sockets[id] == s && s.open && s.stage == ChallengeSent
    ensures var (w1, gen) := RegisterConn(w, signer);
            Sound(Put(w1, id, s.(address := Some(signer), gen := Some(gen), stage := Completed)))
  {
    var (w1, gen) := RegisterConn(w, signer);
    var s1 := s.(address := Some(signer), gen := Some(gen), stage := Completed);
    var r := Put(w1, id, s1);
    forall i | i in r.sockets ensures GoodHistory(r.sockets[i]) && GoodRegistration(r, r.sockets[i]) {
      if i != id {
        OthersAfterRegister(w, w.sockets[i], signer);
      }
    }
    forall i | i in w.sockets && w.sockets[i].gen.Some? ensures w.sockets[i].gen.value < gen {
      assert GoodRegistration(w, w.sockets[i]);
    }
  }

  lemma OthersAfterRegister(w: World, s: Socket, signer: Address)
    requires GoodRegistration(w, s) && GensMinted(w)
    ensures GoodRegistration(RegisterConn(w, signer).0, s)
  {
    var w1 := RegisterConn(w, signer).0;
    if s.gen.Some? {
      if s.address.value == signer {
        assert w1.registered[|w.registered|] == signer;
      } else {
        assert forall k | 0 <= k < |w.registered| :: w1.registered[k] == w.registered[k];
      }
    }
  }

  lemma NotifyGood(w: World, s: Socket, island: IslandId)
    requires GoodHistory(s) && GoodRegistration(w, s) && s.lastSent != Some(island)
    ensures GoodHistory(Notify(s, island)) && GoodRegistration(w, Notify(s, island))
  {
  }

  lemma ClusterDoesNotMatter(w: World, c: State)
    requires Sound(w)
    ensures Sound(w.(cluster := c))
  {
    forall i | i in w.sockets ensures GoodRegistration(w.(cluster := c), w.sockets[i]) {
      assert GoodRegistration(w, w.sockets[i]);
    }
  }

  lemma ContinueSound(w: World, id: SocketId, s: Socket, sendOk: bool)
    requires Sound(w) && id in w.sockets && w.sockets[id].gen == s.gen
    requires GoodHistory(s) && GoodRegistration(w, s)
    ensures Sound(Continue(w, id, s, sendOk))
  {
    if sendOk { PutSound(w, id, s); } else { CloseSound(w, id, s); }
  }

  lemma PutWithCluster(w: World, c: State, id: SocketId, s: Socket)
    requires Sound(w) && id in w.sockets && w.sockets[id].gen == s.gen
    requires GoodHistory(s) && GoodRegistration(w, s)
    ensures Sound(Put(w.(cluster := c), id, s))
  {
    ClusterDoesNotMatter(w, c);
    PutSound(w.(cluster := c), id, s);
  }

  lemma NotifyWithCluster(w: World, c: State, id: SocketId, s: Socket, island: IslandId, sendOk: bool)
    requires Sound(w) && id in w.sockets && w.sockets[id].gen == s.gen
    requires GoodHistory(s) && GoodRegistration(w, s) && s.lastSent != Some(island)
    ensures Sound(Continue(w.(cluster := c), id, Notify(s, island), sendOk))
  {
    ClusterDoesNotMatter(w, c);
    NotifyGood(w.(cluster := c), s, island);
    ContinueSound(w.(cluster := c), id, Notify(s, island), sendOk);
  }

  lemma HeartbeatSound(w: World, id: SocketId, s: Socket, a: Address, parcel: Parcel, h: Input)
    requires Sound(w) && id in w.sockets && w.sockets[id] == s && s.open
    requires s.stage == Completed && s.address == Some(a) && h.Heartbeat?
    ensures Sound(OnHeartbeat(w, id, s, a, parcel, h))
  {
    var s1 := s.(presence := s.presence + [a], initialSent := true);
    assert GoodRegistration(w, s) && GoodHistory(s1) && GoodRegistration(w, s1);
    forall c ensures Sound(Put(w.(cluster := c), id, s1)) {
      PutWithCluster(w, c, id, s1);
    }
    forall c, island: IslandId | s1.lastSent != Some(island)
      ensures Sound(Continue(w.(cluster := c), id, Notify(s1, island), h.sendOk))
    {
      NotifyWithCluster(w, c, id, s1, island, h.sendOk);
    }
  }

  lemma InputSound(w: World, id: SocketId, input: Input)
    requires Sound(w) && id in w.sockets && w.sockets[id].open
    ensures Sound(OnInput(w, id, w.sockets[id], input))
  {
    var s := w.sockets[id];
    assert GoodRegistration(w, s) && GoodHistory(s);
    match input
    case ChallengeRequest(claimed, sendOk) =>
      if s.stage == HandshakeStart && claimed != "" {
        if sendOk { PutSound(w, id, s.(address := Some(claimed), stage := ChallengeSent)); }
        else { CloseSound(w, id, s.(address := Some(claimed))); }
      } else {
        CloseSound(w, id, s);
      }
    case SignedChallenge(verdict, sendOk) =>
      if s.stage == ChallengeSent && verdict.Accepted? {
        SignedSound(w, id, s, verdict.signer, sendOk);
      } else {
        CloseSound(w, id, s);
      }
    case Heartbeat(parcel, _, _, _, _, _) =>
      if s.stage != Completed {
        CloseSound(w, id, s);
      } else if s.address.Some? && parcel.Some? {
        HeartbeatSound(w, id, s, s.address.value, parcel.value, input);
      }
    case OtherMessage => CloseSound(w, id, s);
    case IslandEvent(a, island, sendOk) =>
      if s.address == Some(a) && s.lastSent != Some(island) {
        NotifyGood(w, s, island);
        ContinueSound(w, id, Notify(s, island), sendOk);
      }
    case Disconnect => CloseSound(w, id, s);
  }

  /** The registration is sound also for a socket that closes before it is welcomed. */
  lemma RegisteredClosedSound(w: World, id: SocketId, s: Socket, signer: Address)
    requires Sound(w) && id in w.sockets && w.sockets[id] == s && s.open && s.stage == ChallengeSent
    ensures var (w1, gen) := RegisterConn(w, signer);
            Sound(Put(w1, id, s.(address := Some(signer), gen := Some(gen), open := false)))
  {
    RegisterSound(w, id, s, signer);
    var (w1, gen) := RegisterConn(w, signer);
    var s1 := s.(address := Some(signer), gen := Some(gen));
    var closed, done := Put(w1, id, s1.(open := false)), Put(w1, id, s1.(stage := Completed));
    forall i | i in closed.sockets
      ensures GoodHistory(closed.sockets[i]) && GoodRegistration(closed, closed.sockets[i])
    {
      assert GoodRegistration(done, done.sockets[i]);
    }
    forall i, j | i in closed.sockets && j in closed.sockets && i != j && closed.sockets[i].gen.Some?
      ensures closed.sockets[i].gen != closed.sockets[j].gen
    {
      assert done.sockets[i].gen != done.sockets[j].gen;
    }
  }

  lemma SignedSound(w: World, id: SocketId, s: Socket, signer: Address, sendOk: bool)
    requires Sound(w) && id in w.sockets && w.sockets[id] == s && s.open && s.stage == ChallengeSent
    ensures Sound(OnInput(w, id, s, SignedChallenge(Accepted(signer), sendOk)))
  {
    var (w1, gen) := RegisterConn(w, signer);
    if sendOk {
      RegisterSound(w, id, s, signer);
    } else {
      RegisteredClosedSound(w, id, s, signer);
      ReleaseSound(Put(w1, id, s.(address := Some(signer), gen := Some(gen), open := false)), id, signer, gen);
    }
  }

  lemma {:induction false} EveryRunSound(acts: seq<Action>)
    ensures Sound(Run(acts))
  {
    if acts != [] {
      var w, act := Run(acts[..|acts| - 1]), acts[|acts| - 1];
      EveryRunSound(acts[..|acts| - 1]);
      match act
      case Connect(id) => if id !in w.sockets { PutSound(w, id, NEW_SOCKET); }
      case Receive(id, input) => if id in w.sockets && w.sockets[id].open { InputSound(w, id, input); }
      case Elsewhere(cluster) => ClusterDoesNotMatter(w, cluster);
    }
  }

  // ----- the promises -----

  /** The cluster that a socket finds when it leaves its loop on this input. */
  function ClusterAtClose(w: World, s: Socket, input: Input): State {
    if input.Heartbeat? && s.stage == Completed && s.address.Some? && input.parcel.Some? then
      HeartbeatCluster(w.cluster, !s.initialSent, s.address.value, input.parcel.value, input)
    else w.cluster
  }

  /** Leaving the loop with socket variables `s` removes the peer exactly if no later connection took the address. */
  ghost predicate ClosedWith(w: World, c: State, id: SocketId, r: World) {
    && id in r.sockets && !r.sockets[id].open
    && var s := r.sockets[id];
    && (s.gen.Some? ==> s.address.Some?)
    && r.cluster == if s.gen.Some? && NoLater(w.registered, s.address.value, s.gen.value)
                    then RemovePeer(c, s.address.value) else c
  }

  lemma CloseDrops(w: World, c: State, id: SocketId, s: Socket)
    requires s.open && GoodRegistration(w, s)
    ensures ClosedWith(w, c, id, Close(w.(cluster := c), id, s))
    ensures Close(w.(cluster := c), id, s).registered == w.registered
  {
  }

  lemma HeartbeatCloses(w: World, id: SocketId, s: Socket, a: Address, parcel: Parcel, h: Input)
    requires h.Heartbeat? && s.open && GoodRegistration(w, s) && s.address == Some(a)
    requires !OnHeartbeat(w, id, s, a, parcel, h).sockets[id].open
    ensures var r := OnHeartbeat(w, id, s, a, parcel, h);
      r.registered == w.registered && ClosedWith(w, HeartbeatCluster(w.cluster, !s.initialSent, a, parcel, h), id, r)
  {
    var s1 := s.(presence := s.presence + [a], initialSent := true);
    AnnounceCloses(w, id, s, s1, a, h, HeartbeatCluster(w.cluster, !s.initialSent, a, parcel, h));
  }

  lemma AnnounceCloses(w: World, id: SocketId, s: Socket, s1: Socket, a: Address, h: Input, c: State)
    requires h.Heartbeat? && s1.open && GoodRegistration(w, s1)
    requires !AnnounceIsland(w, id, s, s1, a, h, c).sockets[id].open
    ensures var r := AnnounceIsland(w, id, s, s1, a, h, c); r.registered == w.registered && ClosedWith(w, c, id, r)
  {
    if IslandOf(c, a).Some? {
      CloseDrops(w, c, id, Notify(s1, IslandOf(c, a).value.0));
    }
  }

  /** A closing handshake whose welcome could not be sent gives up the generation it just got. */
  lemma SignedCloses(w: World, id: SocketId, s: Socket, signer: Address)
    requires s.open && s.stage == ChallengeSent
    ensures var r := OnInput(w, id, s, SignedChallenge(Accepted(signer), false)); ClosedWith(r, w.cluster, id, r)
  {
    var (w1, gen) := RegisterConn(w, signer);
    var s1 := s.(address := Some(signer), gen := Some(gen));
    assert GoodRegistration(w1, s1);
    CloseDrops(w1, w1.cluster, id, s1);
    assert w1.(cluster := w1.cluster) == w1 && w1.cluster == w.cluster;
  }

  lemma InputCloses(w: World, id: SocketId, input: Input)
    requires id in w.sockets && w.sockets[id].open && GoodRegistration(w, w.sockets[id]) && GoodHistory(w.sockets[id])
    requires !OnInput(w, id, w.sockets[id], input).sockets[id].open
    ensures var r := OnInput(w, id, w.sockets[id], input); ClosedWith(r, ClusterAtClose(w, w.sockets[id], input), id, r)
  {
    var s := w.sockets[id];
    assert w.(cluster := w.cluster) == w;
    match input
    case ChallengeRequest(claimed, sendOk) => RequestCloses(w, id, s, claimed, sendOk);
    case SignedChallenge(verdict, _) =>
      if s.stage == ChallengeSent && verdict.Accepted? {
        SignedCloses(w, id, s, verdict.signer);
      } else {
        CloseDrops(w, w.cluster, id, s);
      }
    case Heartbeat(parcel, _, _, _, _, _) =>
      if s.stage == Completed {
        HeartbeatCloses(w, id, s, s.address.value, parcel.value, input);
      } else {
        CloseDrops(w, w.cluster, id, s);
      }
    case IslandEvent(_, island, _) => CloseDrops(w, w.cluster, id, Notify(s, island));
    case _ => CloseDrops(w, w.cluster, id, s);
  }

  lemma RequestCloses(w: World, id: SocketId, s: Socket, claimed: Address, sendOk: bool)
    requires s.open && GoodRegistration(w, s) && GoodHistory(s) && id in w.sockets && w.sockets[id] == s
    requires !OnInput(w, id, s, ChallengeRequest(claimed, sendOk)).sockets[id].open
    ensures var r := OnInput(w, id, s, ChallengeRequest(claimed, sendOk)); ClosedWith(r, w.cluster, id, r)
  {
    assert w.(cluster := w.cluster) == w;
    CloseDrops(w, w.cluster, id, s);
    if s.stage == HandshakeStart {
      CloseDrops(w, w.cluster, id, s.(address := Some(claimed)));
    }
  }

  /** Whatever input closes an open socket, a failed send or a protocol error included: its peer is removed if and
      only if the socket is authenticated and no later connection took the address. */
  lemma CloseRemovesOnlyOwnPeer(acts: seq<Action>, id: SocketId, input: Input)
    requires var w := Run(acts);
      && id in w.sockets && w.sockets[id].open && id in Step(w, Receive(id, input)).sockets
      && !Step(w, Receive(id, input)).sockets[id].open
    ensures var w := Run(acts);
            var r := Step(w, Receive(id, input));
            ClosedWith(r, ClusterAtClose(w, w.sockets[id], input), id, r)
  {
    EveryRunSound(acts);
    InputCloses(Run(acts), id, input);
  }

  /** An open socket forwards an island event exactly if it is for the address it carries and not the island it
      sent last, at whatever stage it is. */
  lemma EventForwardedIff(w: World, id: SocketId, a: Address, island: IslandId, sendOk: bool)
    requires id in w.sockets && w.sockets[id].open
    ensures var s, r := w.sockets[id], Step(w, Receive(id, IslandEvent(a, island, sendOk)));
      && id in r.sockets
      && r.sockets[id].notified
           == s.notified + (if s.address == Some(a) && s.lastSent != Some(island) then [island] else [])
      && r.sockets[id].stage == s.stage
  {
  }

  /** So it does once an address has been claimed, before the handshake is complete. */
  lemma EventForwardedBeforeWelcome(a: Address, island: IslandId)
    requires a != ""
    ensures var acts := [Connect(0)] + [Receive(0, ChallengeRequest(a, true))];
      var s := Run(acts + [Receive(0, IslandEvent(a, island, true))]).sockets;
      0 in s && s[0].notified == [island] && s[0].stage == ChallengeSent && s[0].gen == None
  {
    RunOneMore([], Connect(0));
    assert [] + [Connect(0)] == [Connect(0)];
    RunOneMore([Connect(0)], Receive(0, ChallengeRequest(a, true)));
    var acts := [Connect(0)] + [Receive(0, ChallengeRequest(a, true))];
    RunOneMore(acts, Receive(0, IslandEvent(a, island, true)));
    EventForwardedIff(Run(acts), 0, a, island, true);
  }

  lemma RunOneMore(acts: seq<Action>, act: Action)
    ensures Run(acts + [act]) == Step(Run(acts), act)
  {
    assert (acts + [act])[..|acts|] == acts;
  }

  /** What a step does to registrations: nothing, or one more that goes to the acting socket. */
  ghost predicate RegistersAtMostOne(w: World, r: World) {
    && (r.registered == w.registered || exists a :: r.registered == w.registered + [a])
    && (forall i | i in r.sockets && r.sockets[i].gen.Some? && (i !in w.sockets || w.sockets[i].gen.None?) ::
         r.sockets[i].gen.value == |r.registered| == |w.registered| + 1)
  }

  ghost predicate SameGens(w: World, r: World) {
    r.registered == w.registered && r.sockets.Keys == w.sockets.Keys
    && forall i | i in r.sockets :: r.sockets[i].gen == w.sockets[i].gen
  }

  lemma ContinueSameGens(w: World, c: State, id: SocketId, s: Socket, sendOk: bool)
    requires id in w.sockets && w.sockets[id].gen == s.gen
    ensures SameGens(w, Continue(w.(cluster := c), id, s, sendOk))
  {
  }

  lemma HeartbeatRegistersNothing(w: World, id: SocketId, s: Socket, a: Address, parcel: Parcel, h: Input)
    requires h.Heartbeat? && id in w.sockets && w.sockets[id] == s
    ensures SameGens(w, OnHeartbeat(w, id, s, a, parcel, h))
  {
    var s1 := s.(presence := s.presence + [a], initialSent := true);
    forall c ensures SameGens(w, Put(w.(cluster := c), id, s1)) {
    }
    forall c, island: IslandId ensures SameGens(w, Continue(w.(cluster := c), id, Notify(s1, island), h.sendOk)) {
      ContinueSameGens(w, c, id, Notify(s1, island), h.sendOk);
    }
  }

  lemma SignedRegistersOne(w: World, id: SocketId, s: Socket, signer: Address, sendOk: bool)
    requires id in w.sockets && w.sockets[id] == s && s.stage == ChallengeSent
    ensures RegistersAtMostOne(w, OnInput(w, id, s, SignedChallenge(Accepted(signer), sendOk)))
  {
    var r := OnInput(w, id, s, SignedChallenge(Accepted(signer), sendOk));
    assert r.registered == w.registered + [signer];
  }

  lemma InputRegistersAtMostOne(w: World, id: SocketId, input: Input)
    requires id in w.sockets
    ensures RegistersAtMostOne(w, OnInput(w, id, w.sockets[id], input))
  {
    var s := w.sockets[id];
    match input
    case SignedChallenge(verdict, sendOk) =>
      if s.stage == ChallengeSent && verdict.Accepted? {
        SignedRegistersOne(w, id, s, verdict.signer, sendOk);
      }
    case Heartbeat(parcel, _, _, _, _, _) =>
      if s.stage == Completed && s.address.Some? && parcel.Some? {
        HeartbeatRegistersNothing(w, id, s, s.address.value, parcel.value, input);
      }
    case _ =>
  }

  /** Registrations only accumulate: each is numbered one above all earlier ones and belongs to one socket. */
  lemma GenerationsIncrease(acts: seq<Action>, act: Action)
    ensures RegistersAtMostOne(Run(acts), Run(acts + [act]))
    ensures DistinctGens(Run(acts + [act]))
  {
    EveryRunSound(acts + [act]);
    assert (acts + [act])[..|acts|] == acts;
    var w := Run(acts);
    if act.Receive? && act.id in w.sockets && w.sockets[act.id].open {
      InputRegistersAtMostOne(w, act.id, act.input);
    }
  }

  /** Presence is written only by authenticated sockets and only for the address they registered. */
  lemma PresenceNeedsHandshake(acts: seq<Action>, id: SocketId, a: Address)
    requires var w := Run(acts); id in w.sockets && a in w.sockets[id].presence
    ensures var w := Run(acts);
            var s := w.sockets[id];
            && s.stage == Completed && s.gen.Some? && s.address == Some(a)
            && 0 < s.gen.value <= |w.registered| && w.registered[s.gen.value - 1] == a
  {
    EveryRunSound(acts);
    assert GoodRegistration(Run(acts), Run(acts).sockets[id]);
  }

  /** No socket sends the same island twice in a row. */
  lemma NoRepeatedNotification(acts: seq<Action>, id: SocketId, i: nat)
    requires var w := Run(acts); id in w.sockets && i + 1 < |w.sockets[id].notified|
    ensures Run(acts).sockets[id].notified[i] != Run(acts).sockets[id].notified[i + 1]
  {
    EveryRunSound(acts);
  }
}
