/**
  What one message achieves on a connection (crates/catalyrst-archipelago/src/ws.rs:107-251): which inputs end it,
  what the handshake grants, and what a heartbeat records and announces.
 */
module SocketEffects {
  import opened Wrappers
  import opened IslandSearch
  import opened ClusterModel
  import opened Sockets

  predicate Open(w: World, id: SocketId) {
    id in w.sockets && w.sockets[id].open
  }

  predicate OthersKept(w: World, r: World, id: SocketId) {
    r.sockets.Keys == w.sockets.Keys && forall i | i in w.sockets && i != id :: r.sockets[i] == w.sockets[i]
  }

  // ----- handshake -----

  /** A first message that claims an address leads to the challenge; the address is not yet registered. */
  lemma ClaimIsChallenged(w: World, id: SocketId, a: Address)
    requires Open(w, id) && w.sockets[id].stage == HandshakeStart && a != ""
    ensures var s := w.sockets[id];
      Step(w, Receive(id, ChallengeRequest(a, true)))
      == w.(sockets := w.sockets[id := s.(address := Some(a), stage := ChallengeSent)])
  {
  }

  /** An accepted signature registers the signer under the next generation, whatever address was claimed. */
  lemma SignerIsWelcomed(w: World, id: SocketId, signer: Address)
    requires Open(w, id) && w.sockets[id].stage == ChallengeSent
    ensures var s, gen := w.sockets[id], |w.registered| + 1;
      Step(w, Receive(id, SignedChallenge(Accepted(signer), true)))
      == w.(registered := w.registered + [signer], connGens := w.connGens[signer := gen],
            sockets := w.sockets[id := s.(address := Some(signer), gen := Some(gen), stage := Completed)])
  {
  }

  /** Exactly these inputs leave an open connection open. */
  predicate StaysOpen(s: Socket, input: Input, notifies: bool) {
    match input
    case ChallengeRequest(claimed, sendOk) =>
      s.stage == Completed || (s.stage == HandshakeStart && claimed != "" && sendOk)
    case SignedChallenge(verdict, sendOk) =>
      s.stage == Completed || (s.stage == ChallengeSent && verdict.Accepted? && sendOk)
    case Heartbeat(_, _, _, _, _, sendOk) => s.stage == Completed && (sendOk || !notifies)
    case OtherMessage => s.stage == Completed
    case IslandEvent(_, _, sendOk) => sendOk || !notifies
    case Disconnect => false
  }

  lemma OpenIffStays(w: World, id: SocketId, input: Input)
    requires Open(w, id)
    ensures var s, r := w.sockets[id], Step(w, Receive(id, input));
      && OthersKept(w, r, id)
      && (r.sockets[id].open <==> StaysOpen(s, input, r.sockets[id].notified != s.notified))
  {
    var s := w.sockets[id];
    if input.Heartbeat? && s.stage == Completed && s.address.Some? && input.parcel.Some? {
      var c1, c := HeartbeatDoes(w, id, s.address.value, input.parcel.value, input);
    } else {
      OtherInputStays(w, id, input);
    }
  }

  lemma OtherInputStays(w: World, id: SocketId, input: Input)
    requires Open(w, id)
    requires var s := w.sockets[id];
      !(input.Heartbeat? && s.stage == Completed && s.address.Some? && input.parcel.Some?)
    ensures var s, r := w.sockets[id], Step(w, Receive(id, input));
      && OthersKept(w, r, id)
      && (r.sockets[id].open <==> StaysOpen(s, input, r.sockets[id].notified != s.notified))
  {
  }

  /** Once the handshake is complete, its messages and a heartbeat without a position change nothing. */
  lemma CompletedIgnores(w: World, id: SocketId, input: Input)
    requires Open(w, id) && w.sockets[id].stage == Completed
    requires input.ChallengeRequest? || input.SignedChallenge? || input.OtherMessage?
          || (input.Heartbeat? && input.parcel.None?)
    ensures Step(w, Receive(id, input)) == w
  {
  }

  // ----- heartbeats -----

  /** `a` is on island `i`, and the index knows that island. */
  predicate OnIsland(c: State, a: Address, i: IslandId) {
    a in c.peers && c.peers[a].island == Some(i) && i in c.islands
  }

  /** The cluster once the peer is reported: a first heartbeat without an island runs a pass where there is one. */
  ghost predicate Settled(c1: State, c: State, a: Address, first: bool, now: int, pass: Option<(Config, set<Address>)>)
  {
    if first && pass.Some? && (forall i :: !OnIsland(c1, a, i))
    then c == Recluster(c1, now, pass.value.0, pass.value.1).state
    else c == c1
  }

  /** The first heartbeat tells the peer its island unless it was told before; a banned peer is put out instead. */
  ghost predicate Announced(w: World, r: World, id: SocketId, a: Address, c: State, banned: bool, sendOk: bool)
    requires id in w.sockets && id in r.sockets
  {
    var s, t := w.sockets[id], r.sockets[id];
    if exists i: IslandId :: OnIsland(c, a, i) && s.lastSent != Some(i) then
      forall i | OnIsland(c, a, i) ::
        if banned then
          t.notified == s.notified && t.lastSent == s.lastSent && t.open && r.cluster == RemovePeer(c, a)
        else
          && t.notified == s.notified + [i] && t.lastSent == Some(i) && t.open == sendOk
          && r.cluster == (if !sendOk && s.gen.Some? && a in w.connGens && w.connGens[a] == s.gen.value
                           then RemovePeer(c, a) else c)
    else t.notified == s.notified && t.lastSent == s.lastSent && t.open && r.cluster == c
  }

  lemma FirstAnnounced(w: World, id: SocketId, s1: Socket, a: Address, h: Input, c: State)
    requires Open(w, id) && h.Heartbeat? && !w.sockets[id].initialSent && w.sockets[id].address == Some(a)
    requires s1 == w.sockets[id].(presence := w.sockets[id].presence + [a], initialSent := true)
    ensures var r := AnnounceIsland(w, id, w.sockets[id], s1, a, h, c);
      && OthersKept(w, r, id)
      && Announced(w, r, id, a, c, h.banned, h.sendOk)
      && r.sockets[id] == s1.(open := r.sockets[id].open, notified := r.sockets[id].notified,
                              lastSent := r.sockets[id].lastSent)
  {
    if IslandOf(c, a).Some? {
      assert OnIsland(c, a, IslandOf(c, a).value.0);
    }
  }

  lemma LaterAnnounced(w: World, id: SocketId, s1: Socket, a: Address, h: Input, c: State)
    requires Open(w, id) && h.Heartbeat? && w.sockets[id].initialSent
    ensures var r := AnnounceIsland(w, id, w.sockets[id], s1, a, h, c);
      OthersKept(w, r, id) && r.cluster == c && r.sockets[id] == s1
  {
  }

  lemma StepAnnounces(w: World, id: SocketId, a: Address, parcel: Parcel, h: Input)
    requires Open(w, id) && w.sockets[id].stage == Completed && w.sockets[id].address == Some(a)
    requires h.Heartbeat? && h.parcel == Some(parcel)
    ensures var s := w.sockets[id];
      var s1 := s.(presence := s.presence + [a], initialSent := true);
      Step(w, Receive(id, h))
      == AnnounceIsland(w, id, s, s1, a, h, HeartbeatCluster(w.cluster, !s.initialSent, a, parcel, h))
  {
  }

  lemma ClusterSettled(c: State, first: bool, a: Address, parcel: Parcel, h: Input)
    requires h.Heartbeat?
    ensures Settled(UpsertPeerAt(c, a, parcel, h.realm, h.now), HeartbeatCluster(c, first, a, parcel, h), a, first,
                    h.now, h.pass)
  {
    var c1 := UpsertPeerAt(c, a, parcel, h.realm, h.now);
    if IslandOf(c1, a).Some? {
      assert OnIsland(c1, a, IslandOf(c1, a).value.0);
    }
  }

  /** A heartbeat of an authenticated connection, from any state: the peer reported, the cluster as it settles, and
      what the connection says about it. */
  lemma HeartbeatDoes(w: World, id: SocketId, a: Address, parcel: Parcel, h: Input) returns (c1: State, c: State)
    requires Open(w, id) && w.sockets[id].stage == Completed && w.sockets[id].address == Some(a)
    requires h.Heartbeat? && h.parcel == Some(parcel)
    ensures Reports(w.cluster, c1, a, parcel, h.realm, h.now)
    ensures Settled(c1, c, a, !w.sockets[id].initialSent, h.now, h.pass)
    ensures var s, r := w.sockets[id], Step(w, Receive(id, h));
      && OthersKept(w, r, id)
      && r.sockets[id] == s.(presence := s.presence + [a], initialSent := true, open := r.sockets[id].open,
                             notified := r.sockets[id].notified, lastSent := r.sockets[id].lastSent)
      && (if s.initialSent then r.cluster == c && r.sockets[id] == s.(presence := s.presence + [a])
          else Announced(w, r, id, a, c, h.banned, h.sendOk))
  {
    var s := w.sockets[id];
    c1 := UpsertPeerAt(w.cluster, a, parcel, h.realm, h.now);
    c := HeartbeatCluster(w.cluster, !s.initialSent, a, parcel, h);
    UpsertReports(w.cluster, a, parcel, h.realm, h.now);
    ClusterSettled(w.cluster, !s.initialSent, a, parcel, h);
    var s1 := s.(presence := s.presence + [a], initialSent := true);
    StepAnnounces(w, id, a, parcel, h);
    if s.initialSent {
      LaterAnnounced(w, id, s1, a, h, c);
    } else {
      FirstAnnounced(w, id, s1, a, h, c);
    }
  }

  /** Without a pass, a ban or a failed send the cluster afterwards is the one before with the peer reported. */
  lemma HeartbeatReportsPeer(w: World, id: SocketId, a: Address, parcel: Parcel, h: Input)
    requires Open(w, id) && w.sockets[id].stage == Completed && w.sockets[id].address == Some(a)
    requires h.Heartbeat? && h.parcel == Some(parcel)
    requires w.sockets[id].initialSent || (h.pass.None? && !h.banned && h.sendOk)
    ensures Reports(w.cluster, Step(w, Receive(id, h)).cluster, a, parcel, h.realm, h.now)
  {
    var c1, c := HeartbeatDoes(w, id, a, parcel, h);
  }
}
