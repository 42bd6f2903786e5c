/**
  Community voice chats (crates/catalyrst-comms/src/voice_db.rs and voice_logic.rs): rows keyed by address and
  community, whose room is named after it, and the table of published events keyed by community and millisecond.
  Each handler runs as one step at the time `now`.
 */
module CommunityVoice {
  import opened Wrappers
  import opened VoiceTypes
  import opened Sequences

  type Key = (string, string)

  type EventKey = (string, int)

  datatype Row = Row(isModerator: bool, status: Status, joinedAt: int, updatedAt: int, sid: Option<string>)

  type Table = map<Key, Row>

  /** The published events, each with its number of participants. */
  type Events = map<EventKey, nat>

  datatype State = State(rows: Table, events: Events)

  // ----- statements -----

  function Enter(t: Table, address: string, community: string, isModerator: bool, now: int): Table {
    var joinedAt := if (address, community) in t then t[(address, community)].joinedAt else now;
    t[(address, community) := Row(isModerator, NotConnected, joinedAt, now, None)]
  }

  /** A missing session id leaves the stored one as it is. */
  function SetStatus(t: Table, key: Key, status: Status, sid: Option<string>, now: int): Table {
    if key in t then
      t[key := t[key].(status := status, updatedAt := now, sid := if sid.Some? then sid else t[key].sid)]
    else t
  }

  function RowsOf(t: Table, community: string): set<Key> {
    set key | key in t && key.1 == community
  }

  function Without(t: Table, communities: set<string>): Table {
    map key | key in t && key.1 !in communities :: t[key]
  }

  /** Nothing is published for an empty room, nor twice under one key. */
  function Publish(events: Events, community: string, count: nat, now: int): Events {
    if count == 0 || (community, now) in events then events else events[(community, now) := count]
  }

  /** A room is deleted, and its end published with the number of its rows. */
  function Close(s: State, community: string, now: int): State {
    State(Without(s.rows, {community}), Publish(s.events, community, |RowsOf(s.rows, community)|, now))
  }

  predicate Active(row: Row, now: int, cfg: Config) {
    Present(row.status, row.joinedAt, row.updatedAt, now, cfg)
  }

  predicate ActiveModerator(t: Table, key: Key, now: int, cfg: Config) {
    key in t && t[key].isModerator && Active(t[key], now, cfg)
  }

  // ----- leaving -----

  const SKEW: int := 1000

  /** The leave belongs to an earlier session than the one stored. */
  predicate StaleLeave(current: Option<string>, leaving: Option<string>, updatedAt: int, leftAt: Option<int>) {
    || (leaving.Some? && current.Some? && current != leaving)
    || (current.None? && leftAt.Some? && updatedAt > leftAt.value + SKEW)
  }

  function OtherActiveModerators(t: Table, address: string, community: string, now: int, cfg: Config): set<Key> {
    set key | key in t && key.1 == community && key.0 != address && ActiveModerator(t, key, now, cfg)
  }

  datatype Leave = Leave(address: string, community: string, reason: Reason, sid: Option<string>, leftAt: Option<int>)

  function Left(s: State, leave: Leave, now: int, cfg: Config): State {
    var key := (leave.address, leave.community);
    match leave.reason
    case DuplicateIdentity => s
    case RoomDeleted => Close(s, leave.community, now)
    case OtherReason => s.(rows := SetStatus(s.rows, key, ConnectionInterrupted, None, now))
    case ClientInitiated =>
      if key in s.rows && StaleLeave(s.rows[key].sid, leave.sid, s.rows[key].updatedAt, leave.leftAt) then s
      else
        var left := s.(rows := SetStatus(s.rows, key, Disconnected, None, now));
        if key in s.rows && s.rows[key].isModerator
           && OtherActiveModerators(s.rows, leave.address, leave.community, now, cfg) == {}
        then Close(left, leave.community, now)
        else left
  }

  // ----- expiry -----

  function Communities(t: Table): set<string> {
    set key | key in t :: key.1
  }

  predicate HasModerator(t: Table, community: string) {
    exists key :: key in t && key.1 == community && t[key].isModerator
  }

  predicate HasActiveModerator(t: Table, community: string, now: int, cfg: Config) {
    exists key :: key in t && key.1 == community && ActiveModerator(t, key, now, cfg)
  }

  /** The latest change of a moderator's row is positive and at most `bound`. */
  predicate LastModeratorChangeBy(t: Table, community: string, bound: int) {
    && (exists key :: key in t && key.1 == community && t[key].isModerator && t[key].updatedAt > 0)
    && (forall key | key in t && key.1 == community && t[key].isModerator :: t[key].updatedAt <= bound)
  }

  predicate Expirable(t: Table, community: string, now: int, cfg: Config) {
    || !HasModerator(t, community)
    || (!HasActiveModerator(t, community, now, cfg) && LastModeratorChangeBy(t, community, now - cfg.noModeratorTtl))
  }

  function ExpirableRooms(t: Table, now: int, cfg: Config): set<string> {
    set community | community in Communities(t) && Expirable(t, community, now, cfg)
  }

  /** The rooms one sweep may take: as many expirable ones as the batch allows, in any order. */
  ghost predicate Batch(t: Table, rooms: seq<string>, now: int, cfg: Config) {
    && NoDuplicates(rooms) && Elements(rooms) <= ExpirableRooms(t, now, cfg)
    && |rooms| == if |ExpirableRooms(t, now, cfg)| <= cfg.batch then |ExpirableRooms(t, now, cfg)| else cfg.batch
  }

  /** Rows are counted only for the rooms that still had an active moderator when the sweep began. */
  function CountedAt(t: Table, community: string, now: int, cfg: Config): nat {
    if HasActiveModerator(t, community, now, cfg) then |RowsOf(t, community)| else 0
  }

  function PublishAll(t: Table, events: Events, rooms: seq<string>, countedAt: int, now: int, cfg: Config): Events {
    if rooms == [] then events
    else
      var last := rooms[|rooms| - 1];
      var before := PublishAll(t, events, rooms[..|rooms| - 1], countedAt, now, cfg);
      Publish(before, last, CountedAt(t, last, countedAt, cfg), now)
  }

  /** The rooms counted, those deleted and the events may each see a later clock. */
  function Expire(s: State, rooms: seq<string>, countedAt: int, now: int, cfg: Config): State {
    State(Without(s.rows, Elements(rooms)), PublishAll(s.rows, s.events, rooms, countedAt, now, cfg))
  }

  // ----- the handlers -----

  class VoiceDb {
    var rows: Table
    var events: Events
    const cfg: Config

    constructor (cfg: Config)
      ensures rows == map[] && events == map[] && this.cfg == cfg
    {
      this.cfg := cfg;
      rows, events := map[], map[];
    }

    function Now(): State
      reads this
    {
      State(rows, events)
    }

    method JoinUserToCommunityRoom(address: string, community: string, isModerator: bool, now: int)
      modifies this
      ensures rows == Enter(old(rows), address, community, isModerator, now) && events == old(events)
    {
      var key := (address, community);
      if key in rows {
        var row := rows[key];
        rows := rows[key := Row(isModerator, NotConnected, row.joinedAt, now, None)];
      } else {
        rows := rows[key := Row(isModerator, NotConnected, now, now, None)];
      }
    }

    method UpdateCommunityUserStatus(address: string, community: string, status: Status, sid: Option<string>, now: int)
      modifies this
      ensures rows == SetStatus(old(rows), (address, community), status, sid, now) && events == old(events)
    {
      var key := (address, community);
      if key in rows {
        var row := rows[key];
        match sid {
          case Some(s) => rows := rows[key := Row(row.isModerator, status, row.joinedAt, now, Some(s))];
          case None => rows := rows[key := Row(row.isModerator, status, row.joinedAt, now, row.sid)];
        }
      }
    }

    method ParticipantCount(community: string) returns (n: nat)
      ensures n == |RowsOf(rows, community)|
    {
      var inRoom := set key | key in rows && key.1 == community;
      assert inRoom == RowsOf(rows, community);
      n := |inRoom|;
    }

    method DeleteCommunityVoiceChat(community: string)
      modifies this
      ensures rows == Without(old(rows), {community}) && events == old(events)
    {
      rows := map key | key in rows && key.1 != community :: rows[key];
    }

    method PublishEnded(community: string, count: nat, now: int)
      modifies this
      ensures rows == old(rows) && events == Publish(old(events), community, count, now)
    {
      if count == 0 {
        return;
      }
      if (community, now) !in events {
        events := events[(community, now) := count];
      }
    }

    method EndCommunityVoiceChat(community: string, now: int)
      modifies this
      ensures Now() == Close(old(Now()), community, now)
    {
      var count := ParticipantCount(community);
      DeleteCommunityVoiceChat(community);
      PublishEnded(community, count, now);
    }

    method ParticipantLeft(leave: Leave, now: int)
      modifies this
      ensures Now() == Left(old(Now()), leave, now, cfg)
    {
      var key := (leave.address, leave.community);
      match leave.reason {
        case DuplicateIdentity =>
        case RoomDeleted =>
          EndCommunityVoiceChat(leave.community, now);
        case ClientInitiated =>
          var before := rows;
          if key in before && StaleLeave(before[key].sid, leave.sid, before[key].updatedAt, leave.leftAt) {
            return;
          }
          UpdateCommunityUserStatus(leave.address, leave.community, Disconnected, None, now);
          if key in before && before[key].isModerator {
            var remaining := OtherActiveModerators(before, leave.address, leave.community, now, cfg);
            if |remaining| == 0 {
              EndCommunityVoiceChat(leave.community, now);
            }
          }
        case OtherReason =>
          UpdateCommunityUserStatus(leave.address, leave.community, ConnectionInterrupted, None, now);
      }
    }

    method DeleteExpiredCommunityVoiceChats(now: int) returns (rooms: seq<string>)
      modifies this
      ensures Batch(old(rows), rooms, now, cfg)
      ensures rows == Without(old(rows), Elements(rooms)) && events == old(events)
    {
      var before := rows;
      var todo := ExpirableRooms(before, now, cfg);
      rooms := [];
      while todo != {} && |rooms| < cfg.batch
        invariant rows == before && events == old(events)
        invariant NoDuplicates(rooms) && Elements(rooms) !! todo
        invariant Elements(rooms) + todo == ExpirableRooms(before, now, cfg)
        invariant |rooms| <= cfg.batch && |rooms| + |todo| == |ExpirableRooms(before, now, cfg)|
        decreases |todo|
      {
        var room :| room in todo;
        todo := todo - {room};
        ghost var taken := rooms;
        rooms := rooms + [room];
        assert forall x :: x in Elements(rooms) <==> x in Elements(taken) || x == room;
      }
      rows := map key | key in before && key.1 !in Elements(rooms) :: before[key];
    }

    method ExpireCommunityVoiceChats(countedAt: int, deletedAt: int, now: int) returns (ghost expired: seq<string>)
      modifies this
      ensures Batch(old(rows), expired, deletedAt, cfg)
      ensures Now() == Expire(old(Now()), expired, countedAt, now, cfg)
    {
      var before := rows;
      var counts: map<string, nat> :=
        map community | community in Communities(before) :: CountedAt(before, community, countedAt, cfg);
      var rooms := DeleteExpiredCommunityVoiceChats(deletedAt);
      for i := 0 to |rooms|
        invariant rows == Without(before, Elements(rooms))
        invariant events == PublishAll(before, old(events), rooms[..i], countedAt, now, cfg)
      {
        assert rooms[..i + 1][..i] == rooms[..i];
        assert rooms[i] in Elements(rooms);
        PublishEnded(rooms[i], counts[rooms[i]], now);
      }
      assert rooms[..|rooms|] == rooms;
      expired := rooms;
    }
  }

  // ----- runs -----

  datatype Action =
    | Enters(address: string, community: string, isModerator: bool, now: int)
    | Joins(address: string, community: string, sid: Option<string>, now: int)
    | Leaves(leave: Leave, now: int)
    | Ends(community: string, now: int)
    | Expires(rooms: seq<string>, countedAt: int, deletedAt: int, now: int)

  ghost predicate Legal(s: State, act: Action, cfg: Config) {
    act.Expires? ==> Batch(s.rows, act.rooms, act.deletedAt, cfg)
  }

  function Step(s: State, act: Action, cfg: Config): State {
    match act
    case Enters(address, community, isModerator, now) => s.(rows := Enter(s.rows, address, community, isModerator, now))
    case Joins(address, community, sid, now) => s.(rows := SetStatus(s.rows, (address, community), Connected, sid, now))
    case Leaves(leave, now) => Left(s, leave, now, cfg)
    case Ends(community, now) => Close(s, community, now)
    case Expires(rooms, countedAt, deletedAt, now) => Expire(s, rooms, countedAt, now, cfg)
  }

  function Run(acts: seq<Action>, cfg: Config): State {
    if acts == [] then State(map[], map[]) else Step(Run(acts[..|acts| - 1], cfg), acts[|acts| - 1], cfg)
  }

  ghost predicate LegalRun(acts: seq<Action>, cfg: Config) {
    acts == []
    || (LegalRun(acts[..|acts| - 1], cfg) && Legal(Run(acts[..|acts| - 1], cfg), acts[|acts| - 1], cfg))
  }

  /** The step takes the community's rows from some to none. */
  predicate Empties(s: State, after: State, community: string) {
    RowsOf(s.rows, community) != {} && RowsOf(after.rows, community) == {}
  }

  function EventsOf(events: Events, community: string): set<EventKey> {
    set key | key in events && key.0 == community
  }

  lemma CloseEmpties(s: State, community: string, now: int)
    ensures RowsOf(Close(s, community, now).rows, community) == {}
    ensures forall c | c != community :: RowsOf(Close(s, community, now).rows, c) == RowsOf(s.rows, c)
    ensures |RowsOf(s.rows, community)| > 0 <==> RowsOf(s.rows, community) != {}
  {
  }

  lemma SetStatusKeepsRows(t: Table, key: Key, status: Status, sid: Option<string>, now: int)
    ensures SetStatus(t, key, status, sid, now).Keys == t.Keys
    ensures forall c :: RowsOf(SetStatus(t, key, status, sid, now), c) == RowsOf(t, c)
  {
  }

  predicate IsExplicit(act: Action) {
    act.Ends? || act.Leaves?
  }

  function TargetOf(act: Action): string
    requires IsExplicit(act)
  {
    if act.Ends? then act.community else act.leave.community
  }

  /** The step publishes the end of `c` with the number of rows removed exactly if it empties the room and the key
      is new, publishes nothing else, and leaves the rows of other communities. */
  ghost predicate PublishesEnd(s: State, after: State, c: string, now: int) {
    && (Empties(s, after, c) && (c, now) !in s.events ==> after.events == s.events[(c, now) := |RowsOf(s.rows, c)|])
    && (!Empties(s, after, c) || (c, now) in s.events ==> after.events == s.events)
    && (forall other | other != c :: RowsOf(after.rows, other) == RowsOf(s.rows, other))
  }

  /** Closing a room whose rows have only changed their status. */
  lemma ClosePublishes(s: State, t: Table, c: string, now: int)
    requires forall other :: RowsOf(t, other) == RowsOf(s.rows, other)
    ensures PublishesEnd(s, Close(State(t, s.events), c, now), c, now)
    ensures PublishesEnd(s, State(t, s.events), c, now)
  {
    CloseEmpties(State(t, s.events), c, now);
  }

  /** An explicit end, a room-deleted webhook or a moderator's leave that empties a room publishes its end with
      the number of rows removed, exactly when no event has this key yet; without emptying, nothing is published. */
  lemma EndingPublishes(s: State, act: Action, cfg: Config)
    requires IsExplicit(act)
    ensures PublishesEnd(s, Step(s, act, cfg), TargetOf(act), act.now)
  {
    var c := TargetOf(act);
    ClosePublishes(s, s.rows, c, act.now);
    if act.Leaves? {
      var key := (act.leave.address, c);
      SetStatusKeepsRows(s.rows, key, Disconnected, None, act.now);
      SetStatusKeepsRows(s.rows, key, ConnectionInterrupted, None, act.now);
      ClosePublishes(s, SetStatus(s.rows, key, Disconnected, None, act.now), c, act.now);
      ClosePublishes(s, SetStatus(s.rows, key, ConnectionInterrupted, None, act.now), c, act.now);
    }
  }

  /** The row still counts at `now`. */
  predicate InCall(row: Row, now: int, cfg: Config) {
    || row.status == Connected
    || (row.status == ConnectionInterrupted && now < row.updatedAt + cfg.interruptedTtl)
    || (row.status == NotConnected && now < row.joinedAt + cfg.initialTtl)
  }

  /** The leave is not about the session stored: another one, or none yet and dated more than a second earlier. */
  predicate OutOfDate(row: Row, leave: Leave) {
    if row.sid.Some? then leave.sid.Some? && leave.sid != row.sid
    else leave.leftAt.Some? && leave.leftAt.value + 1000 < row.updatedAt
  }

  /** Some other moderator of the room is still there. */
  ghost predicate OtherModerator(t: Table, leave: Leave, now: int, cfg: Config) {
    exists a :: a != leave.address && (a, leave.community) in t && t[(a, leave.community)].isModerator
                && InCall(t[(a, leave.community)], now, cfg)
  }

  lemma OtherModeratorsIff(t: Table, leave: Leave, now: int, cfg: Config)
    ensures OtherActiveModerators(t, leave.address, leave.community, now, cfg) == {} <==>
            !OtherModerator(t, leave, now, cfg)
  {
    var others := OtherActiveModerators(t, leave.address, leave.community, now, cfg);
    if key :| key in others {
      assert key == (key.0, leave.community) && InCall(t[key], now, cfg);
    }
    if OtherModerator(t, leave, now, cfg) {
      var a :| a != leave.address && (a, leave.community) in t && t[(a, leave.community)].isModerator
               && InCall(t[(a, leave.community)], now, cfg);
      assert (a, leave.community) in others;
    }
  }

  /** A willing leave changes nothing if it is out of date or by a stranger; it closes the room exactly if the one who
      leaves moderates it and no other moderator is still there; else its row is kept as disconnected. */
  lemma LeaveClosesIff(s: State, leave: Leave, now: int, cfg: Config)
    requires leave.reason == ClientInitiated
    ensures var key, after := (leave.address, leave.community), Left(s, leave, now, cfg);
      if key !in s.rows || OutOfDate(s.rows[key], leave) then after == s
      else if s.rows[key].isModerator && !OtherModerator(s.rows, leave, now, cfg) then
        forall k :: k in after.rows <==> k in s.rows && k.1 != leave.community
      else after == s.(rows := s.rows[key := s.rows[key].(status := Disconnected, updatedAt := now)])
  {
    OtherModeratorsIff(s.rows, leave, now, cfg);
  }

  /** The other reasons: a second session changes nothing, a deleted room empties it, a lost connection is noted. */
  lemma OtherLeaves(s: State, leave: Leave, now: int, cfg: Config)
    ensures var key, after := (leave.address, leave.community), Left(s, leave, now, cfg);
      && (leave.reason == DuplicateIdentity ==> after == s)
      && (leave.reason == RoomDeleted ==> forall k :: k in after.rows <==> k in s.rows && k.1 != leave.community)
      && (leave.reason == OtherReason ==>
            after == if key !in s.rows then s
                     else s.(rows := s.rows[key := s.rows[key].(status := ConnectionInterrupted, updatedAt := now)]))
  {
  }

  /** Coming back does not renew the first join: until it connects the row counts only for what is left of it. */
  lemma EnteredCountsUntil(t: Table, address: string, community: string, isModerator: bool, now: int, later: int,
                           cfg: Config)
    ensures var key, after := (address, community), Enter(t, address, community, isModerator, now);
      && key in after && after[key].isModerator == isModerator && after[key].sid.None?
      && after[key].updatedAt == now
      && (Active(after[key], later, cfg) <==>
            later < (if key in t then t[key].joinedAt else now) + cfg.initialTtl)
      && (forall k | k in t && k != key :: k in after && after[k] == t[k]) && after.Keys == t.Keys + {key}
  {
  }

  /** Joining again and then hearing of an earlier leave: until the media server reports the new session, the
      leave is ignored exactly when it is dated more than a second before the join. */
  lemma RejoinSurvivesIff(s: State, leave: Leave, isModerator: bool, joined: int, now: int, cfg: Config)
    requires leave.reason == ClientInitiated
    ensures var key := (leave.address, leave.community);
      var entered := s.(rows := Enter(s.rows, leave.address, leave.community, isModerator, joined));
      var after := Left(entered, leave, now, cfg);
      if leave.leftAt.Some? && leave.leftAt.value + SKEW < joined then after == entered
      else key !in after.rows || after.rows[key].status == Disconnected
  {
  }

  /** Once it has, leaves of other sessions are ignored whenever they come, and its own are not. */
  lemma NewSessionSurvivesIff(s: State, leave: Leave, current: string, joined: int, now: int, cfg: Config)
    requires leave.reason == ClientInitiated && leave.sid.Some? && (leave.address, leave.community) in s.rows
    ensures var key := (leave.address, leave.community);
      var connected := s.(rows := SetStatus(s.rows, key, Connected, Some(current), joined));
      var after := Left(connected, leave, now, cfg);
      if leave.sid.value != current then after == connected
      else key !in after.rows || after.rows[key].status == Disconnected
  {
  }

  // ----- expiry -----

  /** The value the query's MAX has for a room: the latest change of a moderator, and 0 for everyone else. */
  ghost predicate LatestChange(t: Table, community: string, latest: int) {
    && (forall a | (a, community) in t :: ChangeOf(t[(a, community)]) <= latest)
    && (exists a :: (a, community) in t && ChangeOf(t[(a, community)]) == latest)
  }

  function ChangeOf(row: Row): int {
    if row.isModerator then row.updatedAt else 0
  }

  /** The sweep takes a room without moderators, and one whose moderators are all gone since `noModeratorTtl`. */
  lemma ExpirableIff(t: Table, community: string, latest: int, now: int, cfg: Config)
    requires LatestChange(t, community, latest)
    ensures community in ExpirableRooms(t, now, cfg) <==>
            || (forall a | (a, community) in t :: !t[(a, community)].isModerator)
            || ((forall a | (a, community) in t && t[(a, community)].isModerator ::
                   !InCall(t[(a, community)], now, cfg))
                && 0 < latest <= now - cfg.noModeratorTtl)
  {
    var a :| (a, community) in t && ChangeOf(t[(a, community)]) == latest;
    assert (a, community).1 in Communities(t);
    forall key | key in t && key.1 == community ensures key == (key.0, community) {}
    ModeratorsIff(t, community, now, cfg);
    if HasModerator(t, community) {
      LatestIff(t, community, latest, now - cfg.noModeratorTtl);
    }
  }

  lemma ModeratorsIff(t: Table, community: string, now: int, cfg: Config)
    ensures HasModerator(t, community) <==> exists a :: (a, community) in t && t[(a, community)].isModerator
    ensures HasActiveModerator(t, community, now, cfg) <==>
            exists a :: (a, community) in t && t[(a, community)].isModerator && InCall(t[(a, community)], now, cfg)
  {
    if key :| key in t && key.1 == community && t[key].isModerator {
      assert key == (key.0, community);
    }
    if key :| key in t && key.1 == community && ActiveModerator(t, key, now, cfg) {
      assert key == (key.0, community);
    }
    if a :| (a, community) in t && t[(a, community)].isModerator && InCall(t[(a, community)], now, cfg) {
      assert ActiveModerator(t, (a, community), now, cfg);
    }
  }

  lemma LatestIff(t: Table, community: string, latest: int, bound: int)
    requires LatestChange(t, community, latest) && HasModerator(t, community)
    ensures LastModeratorChangeBy(t, community, bound) <==> 0 < latest <= bound
  {
    var a :| (a, community) in t && ChangeOf(t[(a, community)]) == latest;
    if LastModeratorChangeBy(t, community, bound) {
      var key :| key in t && key.1 == community && t[key].isModerator && t[key].updatedAt > 0;
      assert key == (key.0, community) && ChangeOf(t[key]) <= latest;
    }
    if 0 < latest <= bound {
      assert t[(a, community)].isModerator;
      forall key | key in t && key.1 == community && t[key].isModerator ensures t[key].updatedAt <= bound {
        assert key == (key.0, community) && ChangeOf(t[key]) <= latest;
      }
    }
  }

  /** A room with an active moderator is never swept. */
  lemma ModeratedRoomsSurvive(t: Table, rooms: seq<string>, community: string, now: int, cfg: Config)
    requires Batch(t, rooms, now, cfg) && HasActiveModerator(t, community, now, cfg)
    ensures forall key | key in RowsOf(t, community) :: key in Without(t, Elements(rooms))
  {
    var key :| key in t && key.1 == community && ActiveModerator(t, key, now, cfg);
    assert HasModerator(t, community);
    assert community !in ExpirableRooms(t, now, cfg);
  }

  /** `after` adds to `events` those of the rooms counted, each under the key of `now` with its count. */
  ghost predicate PublishedFor(
    t: Table, events: Events, rooms: seq<string>, countedAt: int, now: int, cfg: Config, after: Events) {
    && (forall key :: key in after <==>
          key in events || (key.1 == now && key.0 in rooms && CountedAt(t, key.0, countedAt, cfg) > 0))
    && (forall key | key in after ::
          after[key] == if key in events then events[key] else CountedAt(t, key.0, countedAt, cfg))
  }

  lemma PublishOneMore(
    t: Table, events: Events, rooms: seq<string>, room: string, countedAt: int, now: int, cfg: Config, after: Events)
    requires PublishedFor(t, events, rooms, countedAt, now, cfg, after) && room !in rooms
    ensures PublishedFor(t, events, rooms + [room], countedAt, now, cfg,
                         Publish(after, room, CountedAt(t, room, countedAt, cfg), now))
  {
  }

  /** Expiry publishes for the rooms that had an active moderator when they were counted and no event under the
      key, and for no other; each new event carries the number of rows then counted. */
  lemma {:induction false} ExpiryPublishes(
    t: Table, events: Events, rooms: seq<string>, countedAt: int, now: int, cfg: Config)
    requires NoDuplicates(rooms)
    ensures PublishedFor(t, events, rooms, countedAt, now, cfg, PublishAll(t, events, rooms, countedAt, now, cfg))
  {
    if rooms != [] {
      var init, last := rooms[..|rooms| - 1], rooms[|rooms| - 1];
      ExpiryPublishes(t, events, init, countedAt, now, cfg);
      assert rooms == init + [last];
      PublishOneMore(t, events, init, last, countedAt, now, cfg, PublishAll(t, events, init, countedAt, now, cfg));
    }
  }

  /** The only moderator lost the connection at `lost`. */
  function Deserted(moderator: string, community: string, lost: int): Table {
    map[(moderator, community) := Row(true, ConnectionInterrupted, lost, lost, None)]
  }

  lemma DesertedIsReached(moderator: string, community: string, lost: int, cfg: Config)
    ensures var acts := [Enters(moderator, community, true, lost)]
        + [Leaves(Leave(moderator, community, OtherReason, None, None), lost)];
      LegalRun(acts, cfg) && Run(acts, cfg) == State(Deserted(moderator, community, lost), map[])
  {
    var first := [Enters(moderator, community, true, lost)];
    var leave := Leaves(Leave(moderator, community, OtherReason, None, None), lost);
    assert first[..0] == [] && (first + [leave])[..1] == first;
    assert LegalRun([], cfg) && LegalRun(first, cfg);
    assert Run(first, cfg) == State(map[(moderator, community) := Row(true, NotConnected, lost, lost, None)], map[]);
  }

  /** Such a room: its moderator stops counting between the count and the sweep, and its end is published with its
      one row. */
  lemma ExpiryCanPublish(moderator: string, community: string, lost: int, countedAt: int, deletedAt: int, cfg: Config)
    requires 0 < lost && countedAt < lost + cfg.interruptedTtl <= deletedAt && lost + cfg.noModeratorTtl <= deletedAt
    requires cfg.batch >= 1
    ensures var s := State(Deserted(moderator, community, lost), map[]);
      && Batch(s.rows, [community], deletedAt, cfg)
      && Expire(s, [community], countedAt, deletedAt, cfg) == State(map[], map[(community, deletedAt) := 1])
  {
    var t, key := Deserted(moderator, community, lost), (moderator, community);
    assert RowsOf(t, community) == {key};
    assert ActiveModerator(t, key, countedAt, cfg);
    assert !HasActiveModerator(t, community, deletedAt, cfg);
    assert LastModeratorChangeBy(t, community, deletedAt - cfg.noModeratorTtl) by { assert t[key].updatedAt > 0; }
    assert ExpirableRooms(t, deletedAt, cfg) == {community};
    ExpiryPublishes(t, map[], [community], countedAt, deletedAt, cfg);
    var after := PublishAll(t, map[], [community], countedAt, deletedAt, cfg);
    assert after == map[(community, deletedAt) := 1];
    assert Elements([community]) == {community};
  }

  /** A room that expires at the instant at which its rows were counted is never announced. */
  lemma ExpiryIsSilent(s: State, rooms: seq<string>, at: int, now: int, cfg: Config)
    requires Batch(s.rows, rooms, at, cfg)
    ensures Expire(s, rooms, at, now, cfg).events == s.events
  {
    var after := Expire(s, rooms, at, now, cfg).events;
    ExpiryPublishes(s.rows, s.events, rooms, at, now, cfg);
    forall c | c in rooms ensures CountedAt(s.rows, c, at, cfg) == 0 {
      assert c in ExpirableRooms(s.rows, at, cfg);
    }
    assert after.Keys == s.events.Keys;
  }

  // ----- events never outnumber emptyings -----

  function Emptyings(acts: seq<Action>, community: string, cfg: Config): nat {
    if acts == [] then 0
    else
      var before := Run(acts[..|acts| - 1], cfg);
      Emptyings(acts[..|acts| - 1], community, cfg)
        + if Empties(before, Step(before, acts[|acts| - 1], cfg), community) then 1 else 0
  }

  lemma OneMoreEvent(events: Events, after: Events, community: string, now: int)
    requires forall key | key in after && key.0 == community :: key in events || key == (community, now)
    ensures |EventsOf(after, community)| <= |EventsOf(events, community)| + 1
  {
    var small := EventsOf(events, community) + {(community, now)};
    SubsetSize(EventsOf(after, community), small);
  }

  lemma SubsetSize(a: set<EventKey>, b: set<EventKey>)
    requires a <= b
    ensures |a| <= |b|
  {
    assert b == a + (b - a);
  }

  lemma StepPublishesAtMostOne(s: State, act: Action, community: string, cfg: Config)
    requires Legal(s, act, cfg)
    ensures var after := Step(s, act, cfg);
      |EventsOf(after.events, community)|
        <= |EventsOf(s.events, community)| + if Empties(s, after, community) then 1 else 0
  {
    var after := Step(s, act, cfg);
    if IsExplicit(act) {
      EndingPublishes(s, act, cfg);
      if TargetOf(act) == community {
        OneMoreEvent(s.events, after.events, community, act.now);
      } else {
        assert EventsOf(after.events, community) == EventsOf(s.events, community);
      }
    } else if act.Expires? {
      ExpiryPublishes(s.rows, s.events, act.rooms, act.countedAt, act.now, cfg);
      OneMoreEvent(s.events, after.events, community, act.now);
      if community in act.rooms && CountedAt(s.rows, community, act.countedAt, cfg) > 0 {
        assert RowsOf(after.rows, community) == {};
      } else {
        assert EventsOf(after.events, community) == EventsOf(s.events, community);
      }
    }
  }

  /** In every run the events of a community never outnumber the times its rows went from some to none. */
  lemma {:induction false} EventsNeverOutnumberEmptyings(acts: seq<Action>, community: string, cfg: Config)
    requires LegalRun(acts, cfg)
    ensures |EventsOf(Run(acts, cfg).events, community)| <= Emptyings(acts, community, cfg)
  {
    if acts != [] {
      EventsNeverOutnumberEmptyings(acts[..|acts| - 1], community, cfg);
      StepPublishesAtMostOne(Run(acts[..|acts| - 1], cfg), acts[|acts| - 1], community, cfg);
    }
  }
}
