/**
  Private voice chats (crates/catalyrst-comms/src/voice_db.rs and voice_logic.rs): a table of rows keyed by
  address and room. Each statement or transaction is one step. `now` is the time at which the step runs.
 */
module PrivateVoice {
  import opened Wrappers
  import opened VoiceTypes
  import opened Sequences

  type Key = (string, string)

  datatype Row = Row(status: Status, joinedAt: int, updatedAt: int)

  type Table = map<Key, Row>

  // ----- statements -----

  function SetStatus(t: Table, key: Key, status: Status, now: int): Table {
    if key in t then t[key := t[key].(status := status, updatedAt := now)] else t
  }

  function Invite(t: Table, address: string, room: string, now: int): Table {
    t[(address, room) := Row(NotConnected, now, now)]
  }

  function InviteAll(t: Table, addresses: seq<string>, room: string, now: int): Table {
    if addresses == [] then t
    else Invite(InviteAll(t, addresses[..|addresses| - 1], room, now), addresses[|addresses| - 1], room, now)
  }

  function WithoutRooms(t: Table, rooms: set<string>): Table {
    map key | key in t && key.1 !in rooms :: t[key]
  }

  predicate Counted(row: Row, now: int, cfg: Config) {
    Present(row.status, row.joinedAt, row.updatedAt, now, cfg)
  }

  /** The rows the query considers: those of the address that count. */
  predicate Candidate(t: Table, address: string, room: string, now: int, cfg: Config) {
    (address, room) in t && Counted(t[(address, room)], now, cfg)
  }

  function Rank(status: Status): nat {
    match status
    case Connected => 1
    case ConnectionInterrupted => 2
    case NotConnected => 3
    case Disconnected => 4
  }

  /** The query's ORDER BY. */
  predicate Precedes(a: Row, b: Row) {
    Rank(a.status) < Rank(b.status) || (Rank(a.status) == Rank(b.status) && a.updatedAt >= b.updatedAt)
  }

  /** A first row of the query; rows that tie are returned in any order. */
  ghost predicate Picked(t: Table, address: string, room: string, now: int, cfg: Config) {
    && Candidate(t, address, room, now, cfg)
    && forall other | Candidate(t, address, other, now, cfg) :: Precedes(t[(address, room)], t[(address, other)])
  }

  ghost predicate NoCandidate(t: Table, address: string, now: int, cfg: Config) {
    forall room :: !Candidate(t, address, room, now, cfg)
  }

  /** The transaction of a join, once `previous` has been picked. */
  function Joined(t: Table, address: string, room: string, previous: string, now: int): Table {
    var left := if previous != room then SetStatus(t, (address, previous), Disconnected, now) else t;
    SetStatus(left, (address, room), Connected, now)
  }

  // ----- sweeping -----

  /** What the sweep's WHERE selects. */
  predicate Expired(row: Row, now: int, cfg: Config) {
    || (row.status == NotConnected && row.joinedAt <= now - cfg.initialTtl)
    || (row.status == ConnectionInterrupted && row.updatedAt <= now - cfg.interruptedTtl)
    || row.status == Disconnected
  }

  function ExpiredRooms(t: Table, now: int, cfg: Config): set<string> {
    set key | key in t && Expired(t[key], now, cfg) :: key.1
  }

  /** The rooms a sweep may take: as many expired ones as the batch allows, in any order. */
  predicate Batch(t: Table, rooms: set<string>, now: int, cfg: Config) {
    && rooms <= ExpiredRooms(t, now, cfg)
    && |rooms| == if |ExpiredRooms(t, now, cfg)| <= cfg.batch then |ExpiredRooms(t, now, cfg)| else cfg.batch
  }

  /** Whether the media server's room has to go as well: some selected row never left. */
  predicate ShouldDestroy(t: Table, room: string, now: int, cfg: Config) {
    exists key :: key in t && key.1 == room && Expired(t[key], now, cfg) && t[key].status != Disconnected
  }

  /** The rows of the room that make it so. */
  function SelectedRows(t: Table, room: string, now: int, cfg: Config): set<Key> {
    set key | key in t && key.1 == room && Expired(t[key], now, cfg) && t[key].status != Disconnected
  }

  lemma SelectedIffDestroyed(t: Table, room: string, now: int, cfg: Config)
    ensures SelectedRows(t, room, now, cfg) != {} <==> ShouldDestroy(t, room, now, cfg)
  {
    if ShouldDestroy(t, room, now, cfg) {
      var key :| key in t && key.1 == room && Expired(t[key], now, cfg) && t[key].status != Disconnected;
      assert key in SelectedRows(t, room, now, cfg);
    }
    if SelectedRows(t, room, now, cfg) != {} {
      var key :| key in SelectedRows(t, room, now, cfg);
    }
  }

  // ----- the activity check before a join -----

  predicate Inactive(row: Row, now: int, cfg: Config) {
    || (row.status == ConnectionInterrupted && row.updatedAt + cfg.interruptedTtl < now)
    || (row.status == NotConnected && row.joinedAt + cfg.initialTtl < now)
    || row.status == Disconnected
  }

  function RowsOf(t: Table, room: string): set<Key> {
    set key | key in t && key.1 == room
  }

  predicate RoomActive(t: Table, room: string, now: int, cfg: Config) {
    (forall key | key in RowsOf(t, room) :: !Inactive(t[key], now, cfg)) && |RowsOf(t, room)| >= 2
  }

  /** The rooms of one sweep, taken in any order. */
  method PickBatch(t: Table, now: int, cfg: Config) returns (rooms: set<string>)
    ensures Batch(t, rooms, now, cfg)
  {
    var todo := ExpiredRooms(t, now, cfg);
    rooms := {};
    while todo != {} && |rooms| < cfg.batch
      invariant rooms !! todo && rooms + todo == ExpiredRooms(t, now, cfg)
      invariant |rooms| <= cfg.batch && |rooms| + |todo| == |ExpiredRooms(t, now, cfg)|
      decreases |todo|
    {
      var room :| room in todo;
      todo := todo - {room};
      rooms := rooms + {room};
    }
  }

  // ----- the table -----

  datatype JoinError = NotInARoom

  datatype DeleteError = RoomDoesNotExist

  class VoiceDb {
    var users: Table
    const cfg: Config

    constructor (cfg: Config)
      ensures users == map[] && this.cfg == cfg
    {
      this.cfg := cfg;
      users := map[];
    }

    method CreateVoiceChatRoom(room: string, addresses: seq<string>, now: int)
      modifies this
      ensures users == InviteAll(old(users), addresses, room, now)
    {
      for i := 0 to |addresses|
        invariant users == InviteAll(old(users), addresses[..i], room, now)
      {
        assert addresses[..i + 1][..i] == addresses[..i];
        users := users[(addresses[i], room) := Row(NotConnected, now, now)];
      }
      assert addresses[..|addresses|] == addresses;
    }

    method UpdateUserStatus(address: string, room: string, status: Status, now: int)
      modifies this
      ensures users == SetStatus(old(users), (address, room), status, now)
    {
      if (address, room) in users {
        var row := users[(address, room)];
        users := users[(address, room) := Row(status, row.joinedAt, now)];
      }
    }

    method GetRoomUserIsIn(address: string, now: int) returns (room: Option<string>)
      ensures room.None? ==> NoCandidate(users, address, now, cfg)
      ensures room.Some? ==> Picked(users, address, room.value, now, cfg)
    {
      room := None;
      var rest := users.Keys;
      while rest != {}
        invariant rest <= users.Keys
        invariant room.None? ==> forall r | Candidate(users, address, r, now, cfg) :: (address, r) in rest
        invariant room.Some? ==> Candidate(users, address, room.value, now, cfg)
        invariant room.Some? ==> forall r | Candidate(users, address, r, now, cfg) && (address, r) !in rest ::
               Precedes(users[(address, room.value)], users[(address, r)])
        decreases |rest|
      {
        var key :| key in rest;
        rest := rest - {key};
        if key.0 == address && Counted(users[key], now, cfg) {
          if room.None? || Precedes(users[key], users[(address, room.value)]) {
            room := Some(key.1);
          }
        }
      }
    }

    method JoinUserToRoom(address: string, room: string, now: int) returns (outcome: Result<string, JoinError>)
      modifies this
      ensures outcome.Failure? ==> users == old(users) && NoCandidate(users, address, now, cfg)
      ensures outcome.Success? ==> Picked(old(users), address, outcome.value, now, cfg)
      ensures outcome.Success? ==> users == Joined(old(users), address, room, outcome.value, now)
    {
      var current := GetRoomUserIsIn(address, now);
      match current {
        case None =>
          return Failure(NotInARoom);
        case Some(oldRoom) =>
          if oldRoom != room {
            UpdateUserStatus(address, oldRoom, Disconnected, now);
          }
          UpdateUserStatus(address, room, Connected, now);
          return Success(oldRoom);
      }
    }

    method DeletePrivateVoiceChat(room: string)
      modifies this
      ensures users == WithoutRooms(old(users), {room})
    {
      users := map key | key in users && key.1 != room :: users[key];
    }

    method DeleteVoiceChatUserIsOrWasIn(room: string, address: string) returns (r: Result<set<string>, DeleteError>)
      modifies this
      ensures r.Failure? <==> (address, room) !in old(users)
      ensures r.Failure? ==> users == old(users)
      ensures r.Success? ==> users == WithoutRooms(old(users), {room})
      ensures r.Success? ==> forall a :: a in r.value <==> (a, room) in old(users)
    {
      var addresses := set key | key in users && key.1 == room :: key.0;
      if address !in addresses {
        return Failure(RoomDoesNotExist);
      }
      DeletePrivateVoiceChat(room);
      return Success(addresses);
    }

    /** Of the rooms deleted, those whose media room has to be destroyed too are returned in order, each once. */
    method DeleteExpiredPrivateVoiceChats(now: int) returns (destroyed: seq<string>, rooms: set<string>)
      modifies this
      ensures Batch(old(users), rooms, now, cfg)
      ensures users == WithoutRooms(old(users), rooms)
      ensures forall room :: room in destroyed <==> room in rooms && ShouldDestroy(old(users), room, now, cfg)
      ensures NoDuplicates(destroyed)
    {
      var before := users;
      rooms := PickBatch(before, now, cfg);
      destroyed := [];
      var taken := rooms;
      var todo := taken;
      while todo != {}
        invariant todo <= taken
        invariant forall room :: room in destroyed <==> room in taken - todo && ShouldDestroy(before, room, now, cfg)
        invariant NoDuplicates(destroyed)
        decreases |todo|
      {
        var room :| room in todo;
        todo := todo - {room};
        SelectedIffDestroyed(before, room, now, cfg);
        if SelectedRows(before, room, now, cfg) != {} {
          destroyed := destroyed + [room];
        }
      }
      users := map key | key in before && key.1 !in taken :: before[key];
    }

    /** A room found inactive is left as it is; only its media room is destroyed. */
    method ParticipantJoined(address: string, room: string, now: int)
      returns (outcome: Result<Option<string>, JoinError>)
      modifies this
      ensures !RoomActive(old(users), room, now, cfg) <==> outcome == Success(None)
      ensures outcome == Success(None) || outcome.Failure? ==> users == old(users)
      ensures outcome.Failure? ==> NoCandidate(users, address, now, cfg)
      ensures outcome.Success? && outcome.value.Some? ==> Picked(old(users), address, outcome.value.value, now, cfg)
      ensures outcome.Success? && outcome.value.Some? ==>
        users == Joined(old(users), address, room, outcome.value.value, now)
    {
      var inRoom := set key | key in users && key.1 == room;
      assert inRoom == RowsOf(users, room);
      var inactive := set key | key in inRoom && Inactive(users[key], now, cfg);
      assert inactive == {} <==> forall key | key in inRoom :: !Inactive(users[key], now, cfg) by {
        assert forall key :: key in inactive <==> key in inRoom && Inactive(users[key], now, cfg);
      }
      if inactive != {} || |inRoom| < 2 {
        return Success(None);
      }
      var joined := JoinUserToRoom(address, room, now);
      match joined {
        case Failure(error) => return Failure(error);
        case Success(oldRoom) => return Success(Some(oldRoom));
      }
    }

    method ParticipantLeft(address: string, room: string, reason: Reason, now: int)
      modifies this
      ensures users == Left(old(users), address, room, reason, now)
    {
      if reason == DuplicateIdentity {
        return;
      }
      if reason == ClientInitiated {
        UpdateUserStatus(address, room, Disconnected, now);
      } else if reason == RoomDeleted {
        DeletePrivateVoiceChat(room);
      } else {
        UpdateUserStatus(address, room, ConnectionInterrupted, now);
      }
    }
  }

  function Left(t: Table, address: string, room: string, reason: Reason, now: int): Table {
    match reason
    case DuplicateIdentity => t
    case ClientInitiated => SetStatus(t, (address, room), Disconnected, now)
    case RoomDeleted => WithoutRooms(t, {room})
    case OtherReason => SetStatus(t, (address, room), ConnectionInterrupted, now)
  }

  // ----- runs -----

  datatype Action =
    | Invites(address: string, room: string, now: int)
    | Joins(address: string, room: string, now: int, picked: Option<string>)
    | Leaves(address: string, room: string, reason: Reason, now: int)
    | Ends(address: string, room: string)
    | Sweeps(rooms: set<string>, now: int)

  /** What the nondeterministic parts of the queries may return. */
  ghost predicate Legal(t: Table, act: Action, cfg: Config) {
    match act
    case Joins(address, room, now, picked) =>
      if picked.Some? then Picked(t, address, picked.value, now, cfg) else NoCandidate(t, address, now, cfg)
    case Sweeps(rooms, now) => Batch(t, rooms, now, cfg)
    case _ => true
  }

  function Step(t: Table, act: Action, cfg: Config): Table {
    match act
    case Invites(address, room, now) => Invite(t, address, room, now)
    case Joins(address, room, now, picked) =>
      if RoomActive(t, room, now, cfg) && picked.Some? then Joined(t, address, room, picked.value, now) else t
    case Leaves(address, room, reason, now) => Left(t, address, room, reason, now)
    case Ends(address, room) => if (address, room) in t then WithoutRooms(t, {room}) else t
    case Sweeps(rooms, now) => WithoutRooms(t, rooms)
  }

  function Run(acts: seq<Action>, cfg: Config): Table {
    if acts == [] then map[] else Step(Run(acts[..|acts| - 1], cfg), acts[|acts| - 1], cfg)
  }

  ghost predicate LegalRun(acts: seq<Action>, cfg: Config) {
    acts == []
    || (LegalRun(acts[..|acts| - 1], cfg) && Legal(Run(acts[..|acts| - 1], cfg), acts[|acts| - 1], cfg))
  }

  /** No address is connected to two rooms. */
  predicate OneConnected(t: Table) {
    forall k, l | k in t && l in t && k.0 == l.0 && t[k].status == Connected && t[l].status == Connected :: k == l
  }

  lemma StepKeepsOneConnected(t: Table, act: Action, cfg: Config)
    requires OneConnected(t) && Legal(t, act, cfg)
    ensures OneConnected(Step(t, act, cfg))
  {
    if act.Joins? && act.picked.Some? {
      PickedIsConnected(t, act.address, act.picked.value, act.now, cfg);
    }
  }

  /** The ranking puts a connected row first: when there is one, it is the one picked. */
  lemma PickedIsConnected(t: Table, address: string, room: string, now: int, cfg: Config)
    requires Picked(t, address, room, now, cfg)
    ensures forall k | k in t && k.0 == address && t[k].status == Connected :: t[(address, room)].status == Connected
  {
    forall k | k in t && k.0 == address && t[k].status == Connected ensures t[(address, room)].status == Connected {
      assert k == (address, k.1);
      assert Candidate(t, address, k.1, now, cfg);
    }
  }

  /** Which room is picked: a connected row before a lost one before an awaited one, and then the latest change. */
  lemma PickedFirst(t: Table, address: string, room: string, other: string, now: int, cfg: Config)
    requires Picked(t, address, room, now, cfg) && Candidate(t, address, other, now, cfg)
    ensures var row, rival := t[(address, room)], t[(address, other)];
      && (rival.status == Connected ==> row.status == Connected)
      && (rival.status == ConnectionInterrupted ==> row.status == Connected || row.status == ConnectionInterrupted)
      && (rival.status == row.status ==> row.updatedAt >= rival.updatedAt)
  {
  }

  /** A call is active while two users have rows in it and no row has left or outlived its time to live. */
  lemma RoomActiveIff(t: Table, room: string, now: int, cfg: Config)
    ensures RoomActive(t, room, now, cfg) <==>
            && (exists a, b :: a != b && (a, room) in t && (b, room) in t)
            && (forall a | (a, room) in t :: StillOn(t[(a, room)], now, cfg))
  {
    var rows := RowsOf(t, room);
    forall a: string ensures (a, room) in rows <==> (a, room) in t {}
    if a, b :| a != b && (a, room) in t && (b, room) in t {
      assert {(a, room), (b, room)} <= rows;
      assert rows == {(a, room), (b, room)} + (rows - {(a, room), (b, room)});
    }
    if |rows| >= 2 {
      var a, b := TwoRows(t, room);
    }
    ActiveIffStillOn(t, room, now, cfg);
  }

  lemma TwoRows(t: Table, room: string) returns (a: string, b: string)
    requires |RowsOf(t, room)| >= 2
    ensures a != b && (a, room) in t && (b, room) in t
  {
    var key :| key in RowsOf(t, room);
    assert |RowsOf(t, room) - {key}| >= 1;
    var other :| other in RowsOf(t, room) - {key};
    a, b := key.0, other.0;
  }

  predicate StillOn(row: Row, now: int, cfg: Config) {
    match row.status
    case Connected => true
    case ConnectionInterrupted => now <= row.updatedAt + cfg.interruptedTtl
    case NotConnected => now <= row.joinedAt + cfg.initialTtl
    case Disconnected => false
  }

  lemma ActiveIffStillOn(t: Table, room: string, now: int, cfg: Config)
    ensures (forall key | key in RowsOf(t, room) :: !Inactive(t[key], now, cfg)) <==>
            (forall a | (a, room) in t :: StillOn(t[(a, room)], now, cfg))
  {
    if forall key | key in RowsOf(t, room) :: !Inactive(t[key], now, cfg) {
      forall a | (a, room) in t ensures StillOn(t[(a, room)], now, cfg) {
        assert (a, room) in RowsOf(t, room);
      }
    }
    if forall a | (a, room) in t :: StillOn(t[(a, room)], now, cfg) {
      forall key | key in RowsOf(t, room) ensures !Inactive(t[key], now, cfg) {
        assert key == (key.0, room);
      }
    }
  }

  /** In every run an address has at most one connected row. */
  lemma {:induction false} EveryRunOneConnected(acts: seq<Action>, cfg: Config)
    requires LegalRun(acts, cfg)
    ensures OneConnected(Run(acts, cfg))
  {
    if acts != [] {
      EveryRunOneConnected(acts[..|acts| - 1], cfg);
      StepKeepsOneConnected(Run(acts[..|acts| - 1], cfg), acts[|acts| - 1], cfg);
    }
  }

  /** Picking any other row that counts would break it. */
  lemma RankingIsNeeded() returns (t: Table, previous: string)
    ensures OneConnected(t) && Candidate(t, "0xa", previous, 0, Config(300000, 300000, 300000, 50))
    ensures !OneConnected(Joined(t, "0xa", "third", previous, 0))
  {
    previous := "second";
    t := map[("0xa", "first") := Row(Connected, 0, 0), ("0xa", "second") := Row(NotConnected, 0, 0),
             ("0xa", "third") := Row(NotConnected, 0, 0)];
    var after := Joined(t, "0xa", "third", previous, 0);
    assert after[("0xa", "first")].status == Connected && after[("0xa", "third")].status == Connected;
    assert "first"[0] != "third"[0];
  }

  /** After a join the user is connected to the room joined if and only if it had a row there. If it had not, it
      is disconnected from the room it was in and connected nowhere. */
  lemma JoinConnectsIffInvited(t: Table, address: string, room: string, previous: string, now: int, cfg: Config)
    requires OneConnected(t) && Picked(t, address, previous, now, cfg)
    ensures var after := Joined(t, address, room, previous, now);
      && after.Keys == t.Keys
      && ((address, room) in after && after[(address, room)].status == Connected <==> (address, room) in t)
      && ((address, room) !in t ==>
            && after[(address, previous)].status == Disconnected
            && forall other | (address, other) in after :: after[(address, other)].status != Connected)
      && ((address, room) in t ==> after[(address, room)] == Row(Connected, t[(address, room)].joinedAt, now))
      && (previous != room ==>
            after[(address, previous)] == Row(Disconnected, t[(address, previous)].joinedAt, now))
      && (forall key | key in t && key != (address, room) && key != (address, previous) :: after[key] == t[key])
  {
    PickedIsConnected(t, address, previous, now, cfg);
  }

  /** What some legal run leads to. */
  ghost predicate Reachable(t: Table, cfg: Config) {
    exists acts :: LegalRun(acts, cfg) && Run(acts, cfg) == t
  }

  lemma ReachStep(t: Table, act: Action, after: Table, cfg: Config)
    requires Reachable(t, cfg) && Legal(t, act, cfg) && Step(t, act, cfg) == after
    ensures Reachable(after, cfg)
  {
    var acts :| LegalRun(acts, cfg) && Run(acts, cfg) == t;
    assert (acts + [act])[..|acts|] == acts;
    assert LegalRun(acts + [act], cfg) && Run(acts + [act], cfg) == after;
  }

  /** A fresh row of the calls below. */
  function Fresh(now: int): Row {
    Row(NotConnected, now, now)
  }

  lemma TwoFreshRows(t: Table, a: string, b: string, room: string, now: int, cfg: Config)
    requires a != b && RowsOf(t, room) == {(a, room), (b, room)} && cfg.initialTtl > 0
    requires t[(a, room)] == Fresh(now) && t[(b, room)] == Fresh(now)
    ensures RoomActive(t, room, now, cfg) && Candidate(t, a, room, now, cfg)
  {
  }

  /** The user `u` was invited to `p` and joined it; `q` is a room of two others. */
  function InCall(u: string, v: string, x: string, y: string, p: string, q: string, now: int): Table {
    map[(u, p) := Row(Connected, now, now), (v, p) := Fresh(now), (x, q) := Fresh(now), (y, q) := Fresh(now)]
  }

  /** Until `u` has joined. */
  lemma CallIsReachable(u: string, v: string, p: string, now: int, cfg: Config)
    requires u != v && cfg.initialTtl > 0
    ensures Reachable(map[(u, p) := Row(Connected, now, now), (v, p) := Fresh(now)], cfg)
  {
    assert LegalRun([], cfg) && Run([], cfg) == map[];
    var t1: Table := map[(u, p) := Fresh(now)];
    ReachStep(map[], Invites(u, p, now), t1, cfg);
    var t2: Table := map[(u, p) := Fresh(now), (v, p) := Fresh(now)];
    ReachStep(t1, Invites(v, p, now), t2, cfg);
    assert RowsOf(t2, p) == {(u, p), (v, p)};
    TwoFreshRows(t2, u, v, p, now, cfg);
    OnlyRowPicked(t2, u, p, now, cfg);
    ReachStep(t2, Joins(u, p, now, Some(p)), map[(u, p) := Row(Connected, now, now), (v, p) := Fresh(now)], cfg);
  }

  lemma OnlyRowPicked(t: Table, u: string, p: string, now: int, cfg: Config)
    requires Candidate(t, u, p, now, cfg) && forall key | key in t && key.0 == u :: key.1 == p
    ensures Picked(t, u, p, now, cfg)
  {
  }

  lemma InCallIsReachable(u: string, v: string, x: string, y: string, p: string, q: string, now: int, cfg: Config)
    requires u != v && x != y && p != q && cfg.initialTtl > 0
    ensures Reachable(InCall(u, v, x, y, p, q, now), cfg)
  {
    CallIsReachable(u, v, p, now, cfg);
    var t3: Table := map[(u, p) := Row(Connected, now, now), (v, p) := Fresh(now)];
    var t4 := t3[(x, q) := Fresh(now)];
    ReachStep(t3, Invites(x, q, now), t4, cfg);
    ReachStep(t4, Invites(y, q, now), t4[(y, q) := Fresh(now)], cfg);
    assert t4[(y, q) := Fresh(now)] == InCall(u, v, x, y, p, q, now);
  }

  /** A run in which joining an active room without a row in it ends the user's call and connects to nothing. */
  lemma UninvitedJoinEndsCall(u: string, v: string, x: string, y: string, p: string, q: string, now: int, cfg: Config)
    requires u != v && u != x && u != y && x != y && p != q && cfg.initialTtl > 0
    ensures var t := InCall(u, v, x, y, p, q, now);
      var after := Step(t, Joins(u, q, now, Some(p)), cfg);
      && RoomActive(t, q, now, cfg) && Picked(t, u, p, now, cfg)
      && Reachable(t, cfg) && Reachable(after, cfg)
      && after == t[(u, p) := Row(Disconnected, now, now)] && NoCandidate(after, u, now, cfg)
  {
    var t := InCall(u, v, x, y, p, q, now);
    InCallIsReachable(u, v, x, y, p, q, now, cfg);
    UninvitedStep(u, v, x, y, p, q, now, cfg);
    ReachStep(t, Joins(u, q, now, Some(p)), t[(u, p) := Row(Disconnected, now, now)], cfg);
  }

  lemma UninvitedStep(u: string, v: string, x: string, y: string, p: string, q: string, now: int, cfg: Config)
    requires u != v && u != x && u != y && x != y && p != q && cfg.initialTtl > 0
    ensures var t := InCall(u, v, x, y, p, q, now);
      var after := t[(u, p) := Row(Disconnected, now, now)];
      && RoomActive(t, q, now, cfg) && Picked(t, u, p, now, cfg)
      && Joined(t, u, q, p, now) == after && NoCandidate(after, u, now, cfg)
  {
    var t := InCall(u, v, x, y, p, q, now);
    assert RowsOf(t, q) == {(x, q), (y, q)};
    TwoFreshRows(t, x, y, q, now, cfg);
    OnlyRowPicked(t, u, p, now, cfg);
  }

  /** How long a row counts after a leave: not at all after a willing one or the end of the room, for its time
      to live after a lost connection, and as before when another session took over. */
  lemma LeaveCountsUntil(t: Table, address: string, room: string, reason: Reason, now: int, later: int, cfg: Config)
    requires (address, room) in t
    ensures var after := Left(t, address, room, reason, now);
      && (Candidate(after, address, room, later, cfg) <==>
            match reason
            case DuplicateIdentity => Candidate(t, address, room, later, cfg)
            case OtherReason => later < now + cfg.interruptedTtl
            case _ => false)
      && (forall key | key in t && key != (address, room) && (reason == RoomDeleted ==> key.1 != room) ::
            key in after && after[key] == t[key])
      && (reason == RoomDeleted ==> RowsOf(after, room) == {})
  {
  }

  lemma {:induction false} InvitedRows(t: Table, addresses: seq<string>, room: string, now: int)
    ensures var after := InviteAll(t, addresses, room, now);
      && (forall a | a in addresses :: (a, room) in after && after[(a, room)] == Row(NotConnected, now, now))
      && (forall key: Key | key.1 != room || key.0 !in addresses :: key in after <==> key in t)
      && (forall key | key in t && (key.1 != room || key.0 !in addresses) :: after[key] == t[key])
  {
    if addresses != [] {
      InvitedRows(t, addresses[..|addresses| - 1], room, now);
      assert addresses == addresses[..|addresses| - 1] + [addresses[|addresses| - 1]];
    }
  }

  /** Two users invited to a new room find it active until their time to live has passed, and not a millisecond
      longer; until it is reached either of them can join, and is then connected there and nowhere else. */
  lemma InvitedCanJoin(
    t: Table, a: string, b: string, room: string, now: int, later: int, cfg: Config, previous: string)
    requires a != b && RowsOf(t, room) == {} && OneConnected(t)
    ensures var invited := InviteAll(t, [a, b], room, now);
      && (RoomActive(invited, room, later, cfg) <==> later <= now + cfg.initialTtl)
      && (later < now + cfg.initialTtl ==> !NoCandidate(invited, a, later, cfg))
      && (Picked(invited, a, previous, later, cfg) ==>
            var after := Joined(invited, a, room, previous, later);
            && (a, room) in after && after[(a, room)].status == Connected
            && forall other | other != room && (a, other) in after :: after[(a, other)].status != Connected)
  {
    var invited := InviteAll(t, [a, b], room, now);
    TwoInvited(t, a, b, room, now);
    TwoFreshActive(invited, a, b, room, now, later, cfg);
    if later < now + cfg.initialTtl {
      assert Candidate(invited, a, room, later, cfg);
    }
    if Picked(invited, a, previous, later, cfg) {
      InvitingKeepsOneConnected(t, [a, b], room, now);
      JoinConnectsIffInvited(invited, a, room, previous, later, cfg);
      OnlyConnectedThere(invited, a, room, previous, later, cfg);
    }
  }

  /** The room holds exactly the two fresh rows. */
  lemma TwoInvited(t: Table, a: string, b: string, room: string, now: int)
    requires a != b && RowsOf(t, room) == {}
    ensures var invited := InviteAll(t, [a, b], room, now);
      && RowsOf(invited, room) == {(a, room), (b, room)}
      && invited[(a, room)] == Fresh(now) && invited[(b, room)] == Fresh(now)
  {
    var invited := InviteAll(t, [a, b], room, now);
    InvitedRows(t, [a, b], room, now);
    forall key ensures key in RowsOf(invited, room) <==> key in {(a, room), (b, room)} {
      assert key !in RowsOf(t, room);
      assert key.0 != a && key.0 != b ==> (key in invited <==> key in t);
    }
  }

  lemma TwoFreshActive(t: Table, a: string, b: string, room: string, now: int, later: int, cfg: Config)
    requires a != b && RowsOf(t, room) == {(a, room), (b, room)}
    requires t[(a, room)] == Fresh(now) && t[(b, room)] == Fresh(now)
    ensures RoomActive(t, room, later, cfg) <==> later <= now + cfg.initialTtl
  {
    assert (a, room) in RowsOf(t, room);
  }

  lemma OnlyConnectedThere(t: Table, a: string, room: string, previous: string, now: int, cfg: Config)
    requires OneConnected(t) && Picked(t, a, previous, now, cfg) && (a, room) in t
    ensures var after := Joined(t, a, room, previous, now);
      forall other | other != room && (a, other) in after :: after[(a, other)].status != Connected
  {
    PickedIsConnected(t, a, previous, now, cfg);
  }

  lemma InvitingKeepsOneConnected(t: Table, addresses: seq<string>, room: string, now: int)
    requires OneConnected(t)
    ensures OneConnected(InviteAll(t, addresses, room, now))
  {
    InvitedRows(t, addresses, room, now);
  }

  // ----- the copies of the time-to-live rule agree -----

  /** A row is swept exactly when the lookup does not count it. */
  lemma SweptIffNotCounted(row: Row, now: int, cfg: Config)
    ensures Expired(row, now, cfg) <==> !Counted(row, now, cfg)
  {
  }

  /** The media room goes too exactly if someone in it was awaited or lost for too long, and not just left. */
  lemma DestroyedIff(t: Table, room: string, now: int, cfg: Config)
    ensures ShouldDestroy(t, room, now, cfg) <==>
            exists a :: (a, room) in t && !Counted(t[(a, room)], now, cfg)
                        && (t[(a, room)].status == NotConnected || t[(a, room)].status == ConnectionInterrupted)
  {
    forall key | key in t ensures Expired(t[key], now, cfg) <==> !Counted(t[key], now, cfg) {
      SweptIffNotCounted(t[key], now, cfg);
    }
    if key :| key in t && key.1 == room && Expired(t[key], now, cfg) && t[key].status != Disconnected {
      assert key == (key.0, room);
    }
  }

  /** The sweep takes whole rooms, each holding a row that the lookup does not count. */
  lemma SweepTakesExpiredRooms(t: Table, rooms: set<string>, now: int, cfg: Config)
    requires Batch(t, rooms, now, cfg)
    ensures forall room | room in rooms :: exists key :: key in t && key.1 == room && !Counted(t[key], now, cfg)
    ensures forall room | room in rooms :: RowsOf(WithoutRooms(t, rooms), room) == {}
    ensures forall key | key in t && key.1 !in rooms ::
      key in WithoutRooms(t, rooms) && WithoutRooms(t, rooms)[key] == t[key]
  {
    forall room | room in rooms ensures exists key :: key in t && key.1 == room && !Counted(t[key], now, cfg) {
      assert room in ExpiredRooms(t, now, cfg);
      var key :| key in t && Expired(t[key], now, cfg) && key.1 == room;
      SweptIffNotCounted(t[key], now, cfg);
    }
  }

  lemma ExpiredAfterSweep(t: Table, rooms: set<string>, now: int, cfg: Config)
    ensures ExpiredRooms(WithoutRooms(t, rooms), now, cfg) == ExpiredRooms(t, now, cfg) - rooms
  {
    var after := WithoutRooms(t, rooms);
    forall room ensures room in ExpiredRooms(after, now, cfg) <==> room in ExpiredRooms(t, now, cfg) - rooms {
      if room in ExpiredRooms(t, now, cfg) - rooms {
        var key :| key in t && Expired(t[key], now, cfg) && key.1 == room;
        assert key in after;
      }
    }
  }

  /** Sweeps at one instant, one after the other. */
  ghost predicate Sweeping(ts: seq<Table>, now: int, cfg: Config) {
    |ts| > 0 && forall i | 0 < i < |ts| :: SweptTo(ts[i - 1], ts[i], now, cfg)
  }

  ghost predicate SweptTo(t: Table, after: Table, now: int, cfg: Config) {
    exists rooms :: Batch(t, rooms, now, cfg) && after == WithoutRooms(t, rooms)
  }

  /** `t` is `first` without the expired rooms `gone`, of which there are as many as `n` sweeps take. */
  predicate SweptSoFar(first: Table, t: Table, gone: set<string>, n: nat, now: int, cfg: Config) {
    var expired := ExpiredRooms(first, now, cfg);
    && gone <= expired && t == WithoutRooms(first, gone)
    && |gone| == if |expired| <= n * cfg.batch then |expired| else n * cfg.batch
  }

  lemma WithoutTwice(t: Table, a: set<string>, b: set<string>)
    ensures WithoutRooms(WithoutRooms(t, a), b) == WithoutRooms(t, a + b)
  {
  }

  lemma CountAfterBatch(expired: set<string>, gone: set<string>, rooms: set<string>, n: nat, batch: nat)
    requires gone <= expired && rooms <= expired - gone
    requires |gone| == if |expired| <= n * batch then |expired| else n * batch
    requires |rooms| == if |expired - gone| <= batch then |expired - gone| else batch
    ensures |gone + rooms| == if |expired| <= (n + 1) * batch then |expired| else (n + 1) * batch
  {
    assert |expired - gone| == |expired| - |gone|;
    assert |gone + rooms| == |gone| + |rooms|;
    assert (n + 1) * batch == n * batch + batch;
  }

  lemma NextSweep(
    first: Table, t: Table, after: Table, gone: set<string>, rooms: set<string>, n: nat, now: int, cfg: Config)
    requires SweptSoFar(first, t, gone, n, now, cfg) && Batch(t, rooms, now, cfg) && after == WithoutRooms(t, rooms)
    ensures SweptSoFar(first, after, gone + rooms, n + 1, now, cfg)
  {
    ExpiredAfterSweep(first, gone, now, cfg);
    CountAfterBatch(ExpiredRooms(first, now, cfg), gone, rooms, n, cfg.batch);
    WithoutTwice(first, gone, rooms);
  }

  /** Each sweep removes a full batch of expired rooms until none is left, and nothing else. */
  lemma {:induction false} SweepsCount(ts: seq<Table>, now: int, cfg: Config) returns (gone: set<string>)
    requires Sweeping(ts, now, cfg)
    ensures SweptSoFar(ts[0], ts[|ts| - 1], gone, |ts| - 1, now, cfg)
  {
    var n := |ts| - 1;
    if n == 0 {
      gone := {};
      assert WithoutRooms(ts[0], {}) == ts[0];
    } else {
      var before := SweepsCount(ts[..n], now, cfg);
      assert SweptTo(ts[n - 1], ts[n], now, cfg);
      var rooms :| Batch(ts[n - 1], rooms, now, cfg) && ts[n] == WithoutRooms(ts[n - 1], rooms);
      NextSweep(ts[0], ts[n - 1], ts[n], before, rooms, n - 1, now, cfg);
      gone := before + rooms;
    }
  }

  predicate AllCounted(t: Table, now: int, cfg: Config) {
    forall key | key in t :: Counted(t[key], now, cfg)
  }

  lemma NoneExpired(t: Table, now: int, cfg: Config)
    ensures AllCounted(WithoutRooms(t, ExpiredRooms(t, now, cfg)), now, cfg)
  {
    var after := WithoutRooms(t, ExpiredRooms(t, now, cfg));
    forall key | key in after ensures Counted(after[key], now, cfg) {
      SweptIffNotCounted(t[key], now, cfg);
      assert Expired(t[key], now, cfg) ==> key.1 in ExpiredRooms(t, now, cfg);
    }
  }

  lemma AllSwept(first: Table, t: Table, gone: set<string>, n: nat, now: int, cfg: Config)
    requires SweptSoFar(first, t, gone, n, now, cfg) && cfg.batch >= 1 && |ExpiredRooms(first, now, cfg)| <= n
    ensures t == WithoutRooms(first, ExpiredRooms(first, now, cfg))
  {
    var expired := ExpiredRooms(first, now, cfg);
    assert n * 1 <= n * cfg.batch;
    assert |expired - gone| == |expired| - |gone| == 0;
    assert gone == expired;
  }

  /** With a batch of at least one, as many sweeps as there are expired rooms leave exactly the rooms whose
      rows all count. */
  lemma SweepsFinish(ts: seq<Table>, now: int, cfg: Config)
    requires Sweeping(ts, now, cfg) && cfg.batch >= 1 && |ts| > |ExpiredRooms(ts[0], now, cfg)|
    ensures ts[|ts| - 1] == WithoutRooms(ts[0], ExpiredRooms(ts[0], now, cfg))
    ensures AllCounted(ts[|ts| - 1], now, cfg)
  {
    var gone := SweepsCount(ts, now, cfg);
    AllSwept(ts[0], ts[|ts| - 1], gone, |ts| - 1, now, cfg);
    NoneExpired(ts[0], now, cfg);
  }

  /** A room of two or more rows is rejected exactly when the sweep would have selected it a millisecond before. */
  lemma RejectedIffSweptJustBefore(t: Table, room: string, now: int, cfg: Config)
    requires |RowsOf(t, room)| >= 2
    ensures !RoomActive(t, room, now, cfg) <==> room in ExpiredRooms(t, now - 1, cfg)
  {
    if room in ExpiredRooms(t, now - 1, cfg) {
      var key :| key in t && Expired(t[key], now - 1, cfg) && key.1 == room;
      assert key in RowsOf(t, room) && Inactive(t[key], now, cfg);
    }
    if !RoomActive(t, room, now, cfg) {
      var key :| key in RowsOf(t, room) && Inactive(t[key], now, cfg);
      assert Expired(t[key], now - 1, cfg);
    }
  }

  /** So every such room is one the sweep selects. */
  lemma RejectedIsSwept(t: Table, room: string, now: int, cfg: Config)
    requires |RowsOf(t, room)| >= 2 && !RoomActive(t, room, now, cfg)
    ensures room in ExpiredRooms(t, now, cfg)
  {
    var key :| key in RowsOf(t, room) && Inactive(t[key], now, cfg);
    assert Expired(t[key], now, cfg);
  }

  /** Exactly at its time to live. */
  predicate OnTheBoundary(row: Row, now: int, cfg: Config) {
    || (row.status == ConnectionInterrupted && row.updatedAt + cfg.interruptedTtl == now)
    || (row.status == NotConnected && row.joinedAt + cfg.initialTtl == now)
  }

  /** The converse fails exactly for rooms whose expired rows all reach their time to live at this instant. */
  lemma SweptButActive(t: Table, room: string, now: int, cfg: Config)
    requires |RowsOf(t, room)| >= 2 && room in ExpiredRooms(t, now, cfg)
    ensures RoomActive(t, room, now, cfg)
       <==> forall key | key in RowsOf(t, room) && Expired(t[key], now, cfg) :: OnTheBoundary(t[key], now, cfg)
  {
    if forall key | key in RowsOf(t, room) && Expired(t[key], now, cfg) :: OnTheBoundary(t[key], now, cfg) {
      forall key | key in RowsOf(t, room) ensures !Inactive(t[key], now, cfg) {
        assert Inactive(t[key], now, cfg) ==> Expired(t[key], now, cfg);
      }
    }
  }

  /** Such a room: two users invited together, at the instant their time to live is reached. */
  lemma SweptWhileActive(a: string, b: string, room: string, joined: int, cfg: Config)
    requires a != b
    ensures var t := InviteAll(map[], [a, b], room, joined);
      var now := joined + cfg.initialTtl;
      RoomActive(t, room, now, cfg) && room in ExpiredRooms(t, now, cfg)
  {
    var t: Table := InviteAll(map[], [a, b], room, joined);
    var now := joined + cfg.initialTtl;
    InvitedCanJoin(map[], a, b, room, joined, now, cfg, room);
    InvitedRows(map[], [a, b], room, joined);
    assert Expired(t[(a, room)], now, cfg);
  }
}
