/**
  The private-room resolver (room_manager.py). A scan over the bot's joined
  rooms finds the one private room that belongs to an (announcement room,
  user) pair, leaving dead duplicates on the way; when none exists, a new room
  is requested with fixed options.
 */
module RoomManager {
  import opened Wrappers
  import opened Matrix
  import opened RoomState

  /**
    What the bot learns about one joined room. `members` and `state` are None
    when `get_members` or the state request raised; the room is then skipped.
   */
  datatype RoomView = RoomView(id: RoomId, members: Option<seq<Member>>, state: Option<seq<StateEvent>>)

  /** `membership` of the first member event whose state key is `user`, None if none. */
  function MembershipOf(members: seq<Member>, user: UserId): (r: Option<string>)
    ensures (forall i :: 0 <= i < |members| ==> members[i].stateKey != user) ==> r.None?
    ensures forall i | 0 <= i < |members| && members[i].stateKey == user &&
                       (forall j :: 0 <= j < i ==> members[j].stateKey != user) ::
              r == members[i].membership
  {
    if |members| == 0 then None
    else if members[0].stateKey == user then members[0].membership
    else MembershipOf(members[1..], user)
  }

  /** Exactly two members, one of whose state keys is `user`. */
  predicate IsPair(members: seq<Member>, user: UserId) {
    |members| == 2 && exists i :: 0 <= i < |members| && members[i].stateKey == user
  }

  /** Membership JOIN or INVITE. */
  predicate Active(membership: Option<string>) {
    membership == Some(JOIN) || membership == Some(INVITE)
  }

  /** The room is a private room of the pair: two members including `user`, back-reference matching. */
  predicate BelongsTo(room: RoomView, announcementRoom: RoomId, user: UserId) {
    && room.members.Some?
    && IsPair(room.members.value, user)
    && room.state.Some?
    && MatchesAnnouncement(announcementRoom, room.state.value)
  }

  /** A room the scan returns. */
  predicate Qualifies(room: RoomView, announcementRoom: RoomId, user: UserId) {
    BelongsTo(room, announcementRoom, user) && Active(MembershipOf(room.members.value, user))
  }

  /** A room the scan leaves: it belongs to the pair but the user is no longer joined or invited. */
  predicate Stale(room: RoomView, announcementRoom: RoomId, user: UserId) {
    BelongsTo(room, announcementRoom, user) && !Active(MembershipOf(room.members.value, user))
  }

  /** Index of the first qualifying room, `|rooms|` when there is none. */
  function FirstQualifying(rooms: seq<RoomView>, announcementRoom: RoomId, user: UserId): (k: nat)
    ensures k <= |rooms|
    ensures forall j :: 0 <= j < k ==> !Qualifies(rooms[j], announcementRoom, user)
    ensures k < |rooms| ==> Qualifies(rooms[k], announcementRoom, user)
  {
    if |rooms| == 0 then 0
    else if Qualifies(rooms[0], announcementRoom, user) then 0
    else 1 + FirstQualifying(rooms[1..], announcementRoom, user)
  }

  /** Ids of the stale rooms, in order. */
  function StaleIds(rooms: seq<RoomView>, announcementRoom: RoomId, user: UserId): (ids: seq<RoomId>)
    ensures |ids| <= |rooms|
  {
    if |rooms| == 0 then []
    else (if Stale(rooms[0], announcementRoom, user) then [rooms[0].id] else [])
         + StaleIds(rooms[1..], announcementRoom, user)
  }

  lemma {:induction false} StaleIdsAppend(a: seq<RoomView>, b: seq<RoomView>, announcementRoom: RoomId, user: UserId)
    ensures StaleIds(a + b, announcementRoom, user) == StaleIds(a, announcementRoom, user) + StaleIds(b, announcementRoom, user)
    decreases |a|
  {
    if |a| > 0 {
      assert (a + b)[1..] == a[1..] + b;
      StaleIdsAppend(a[1..], b, announcementRoom, user);
    } else {
      assert a + b == b;
    }
  }

  /** Outcome of `get_existing_private_room`: the room returned, and the rooms left on the way. */
  datatype Scan = Scan(found: Option<RoomId>, left: seq<RoomId>)

  /** `get_existing_private_room`: walks the joined rooms in order. */
  function ScanRooms(rooms: seq<RoomView>, announcementRoom: RoomId, user: UserId): Scan {
    if |rooms| == 0 then Scan(None, [])
    else if Qualifies(rooms[0], announcementRoom, user) then Scan(Some(rooms[0].id), [])
    else
      var rest := ScanRooms(rooms[1..], announcementRoom, user);
      if Stale(rooms[0], announcementRoom, user) then Scan(rest.found, [rooms[0].id] + rest.left)
      else rest
  }

  /**
    The scan returns the first qualifying room in joined-room order, having
    left exactly the stale rooms met before it.
   */
  lemma {:induction false} ScanIsFirstQualifying(rooms: seq<RoomView>, announcementRoom: RoomId, user: UserId)
    ensures var r := ScanRooms(rooms, announcementRoom, user);
      var k := FirstQualifying(rooms, announcementRoom, user);
      && r.found == (if k < |rooms| then Some(rooms[k].id) else None)
      && r.left == StaleIds(rooms[..k], announcementRoom, user)
    decreases |rooms|
  {
    if |rooms| > 0 && !Qualifies(rooms[0], announcementRoom, user) {
      ScanIsFirstQualifying(rooms[1..], announcementRoom, user);
      var k := FirstQualifying(rooms[1..], announcementRoom, user);
      assert rooms[..k + 1] == [rooms[0]] + rooms[1..][..k];
      assert rooms[..k + 1][1..] == rooms[1..][..k];
    }
  }

  /**
    A returned room has two members, among them the user, whose membership is
    JOIN or INVITE, and a back-reference to the requested announcement room;
    when nothing is returned, no joined room qualifies.
   */
  lemma FoundRoomQualifies(rooms: seq<RoomView>, announcementRoom: RoomId, user: UserId)
    ensures var r := ScanRooms(rooms, announcementRoom, user);
      r.found.Some? ==> exists i :: (
        && 0 <= i < |rooms| && rooms[i].id == r.found.value
        && rooms[i].members.Some? && |rooms[i].members.value| == 2
        && (exists j :: 0 <= j < 2 && rooms[i].members.value[j].stateKey == user)
        && rooms[i].state.Some? && MatchesAnnouncement(announcementRoom, rooms[i].state.value)
        && MembershipOf(rooms[i].members.value, user) in {Some(JOIN), Some(INVITE)})
    ensures ScanRooms(rooms, announcementRoom, user).found.None? ==>
      forall i :: 0 <= i < |rooms| ==> !Qualifies(rooms[i], announcementRoom, user)
  {
  }

  /**
    Rooms after the first qualifying one are never examined: whatever follows
    it, the scan's outcome is the same.
   */
  lemma ScanStopsAtFirstMatch(rooms: seq<RoomView>, later: seq<RoomView>, announcementRoom: RoomId, user: UserId)
    requires |rooms| > 0 && Qualifies(rooms[|rooms| - 1], announcementRoom, user)
    ensures ScanRooms(rooms + later, announcementRoom, user) == ScanRooms(rooms, announcementRoom, user)
  {
    ScanIsFirstQualifying(rooms, announcementRoom, user);
    ScanIsFirstQualifying(rooms + later, announcementRoom, user);
    var k := FirstQualifying(rooms, announcementRoom, user);
    var k' := FirstQualifying(rooms + later, announcementRoom, user);
    assert forall j :: 0 <= j < |rooms| ==> (rooms + later)[j] == rooms[j];
    assert k' == k;
    assert (rooms + later)[..k] == rooms[..k];
  }

  /** Joined room ids are pairwise distinct. */
  predicate DistinctIds(rooms: seq<RoomView>) {
    forall i, j :: 0 <= i < j < |rooms| ==> rooms[i].id != rooms[j].id
  }

  /** The joined rooms once the rooms in `gone` have been left. */
  function Without(rooms: seq<RoomView>, gone: set<RoomId>): (r: seq<RoomView>)
    ensures |r| <= |rooms|
  {
    if |rooms| == 0 then []
    else (if rooms[0].id in gone then [] else [rooms[0]]) + Without(rooms[1..], gone)
  }

  lemma {:induction false} WithoutIgnoresAbsent(rooms: seq<RoomView>, gone: set<RoomId>, x: RoomId)
    requires forall i :: 0 <= i < |rooms| ==> rooms[i].id != x
    ensures Without(rooms, gone + {x}) == Without(rooms, gone)
    decreases |rooms|
  {
    if |rooms| > 0 {
      WithoutIgnoresAbsent(rooms[1..], gone, x);
    }
  }

  lemma {:induction false} LeftAreJoined(rooms: seq<RoomView>, announcementRoom: RoomId, user: UserId)
    ensures forall x | x in ScanRooms(rooms, announcementRoom, user).left ::
      exists i :: 0 <= i < |rooms| && rooms[i].id == x
    decreases |rooms|
  {
    if |rooms| > 0 && !Qualifies(rooms[0], announcementRoom, user) {
      LeftAreJoined(rooms[1..], announcementRoom, user);
      forall x | x in ScanRooms(rooms, announcementRoom, user).left
        ensures exists i :: 0 <= i < |rooms| && rooms[i].id == x
      {
        if x != rooms[0].id {
          var i :| 0 <= i < |rooms[1..]| && rooms[1..][i].id == x;
          assert rooms[i + 1].id == x;
        }
      }
    }
  }

  /**
    Self-healing dedup settles in one pass: once the rooms a scan left are
    gone, scanning again returns the same room and leaves nothing.
   */
  lemma {:induction false} RescanAfterLeaving(rooms: seq<RoomView>, announcementRoom: RoomId, user: UserId)
    requires DistinctIds(rooms)
    ensures var first := ScanRooms(rooms, announcementRoom, user);
      ScanRooms(Without(rooms, set x | x in first.left), announcementRoom, user) == Scan(first.found, [])
    decreases |rooms|
  {
    var first := ScanRooms(rooms, announcementRoom, user);
    var gone := set x | x in first.left;
    if |rooms| == 0 {
    } else if Qualifies(rooms[0], announcementRoom, user) {
      assert first.left == [];
      assert Without(rooms, gone) == [rooms[0]] + Without(rooms[1..], gone);
    } else {
      var tail := rooms[1..];
      var rest := ScanRooms(tail, announcementRoom, user);
      var restGone := set x | x in rest.left;
      RescanAfterLeaving(tail, announcementRoom, user);
      LeftAreJoined(tail, announcementRoom, user);
      assert forall i :: 0 <= i < |tail| ==> tail[i].id != rooms[0].id by {
        forall i | 0 <= i < |tail| ensures tail[i].id != rooms[0].id {
          assert tail[i] == rooms[i + 1];
        }
      }
      assert rooms[0].id !in restGone;
      if Stale(rooms[0], announcementRoom, user) {
        assert first.left == [rooms[0].id] + rest.left;
        assert gone == restGone + {rooms[0].id};
        WithoutIgnoresAbsent(tail, restGone, rooms[0].id);
        assert Without(rooms, gone) == Without(tail, gone);
      } else {
        assert first == rest;
        assert Without(rooms, gone) == [rooms[0]] + Without(tail, gone);
        var w := Without(rooms, gone);
        assert w[1..] == Without(tail, gone);
      }
    }
  }

  // ----- room creation -----

  const PRIVATE_VISIBILITY: string := "private"
  const PRIVATE_PRESET: string := "private_chat"
  const POWER_LEVELS_TYPE: string := "m.room.power_levels"
  const BOT_POWER: int := 100
  const USER_POWER: int := 0

  /** The keyword arguments passed to `create_room`. */
  datatype RoomOptions = RoomOptions(
    visibility: string,
    invitees: seq<UserId>,
    preset: string,
    topic: Json,
    name: string,
    isDirect: bool,
    initialState: seq<StateEvent>)

  /** An integer in section `section` (`users` or `events`) of the initial power levels, keyed by `key`. */
  function PowerEntry(options: RoomOptions, section: string, key: string): Option<int> {
    match FieldOf(FirstField(options.initialState, POWER_LEVELS_TYPE, section, JNull), key)
    case JNum(n) => Some(n)
    case _ => None
  }

  /** Field `key` of a JSON object; JNull for a missing key or a value that is not an object. */
  function FieldOf(value: Json, key: string): Json {
    if value.JObj? then Lookup(value.fields, key, JNull) else JNull
  }

  /**
    The options for a new private room, or None when the announcement room's
    name is not a string and `"[ " + name + " ]"` raises.
   */
  function BuildOptions(user: UserId, announcementRoom: RoomId, roomState: seq<StateEvent>, bot: UserId)
    : (r: Option<RoomOptions>)
    ensures r.Some? <==> ExtractName(roomState).JStr?
    ensures r.Some? ==>
      && r.value.invitees == [user]
      && r.value.name == "[ " + ExtractName(roomState).s + " ]"
      && r.value.topic == ExtractTopic(roomState)
      && r.value.visibility == PRIVATE_VISIBILITY
      && r.value.preset == PRIVATE_PRESET
      && !r.value.isDirect
      && MatchesAnnouncement(announcementRoom, r.value.initialState)
      && ExtractAvatar(r.value.initialState) == ExtractAvatar(roomState)
      && PowerEntry(r.value, "users", user) == Some(USER_POWER)
      && (bot != user ==> PowerEntry(r.value, "users", bot) == Some(BOT_POWER))
      && PowerEntry(r.value, "events", "m.room.message") == Some(BOT_POWER)
      && PowerEntry(r.value, "events", "m.room.member") == Some(BOT_POWER)
      && PowerEntry(r.value, "events", POWER_LEVELS_TYPE) == Some(BOT_POWER)
      && FirstField(r.value.initialState, POWER_LEVELS_TYPE, "users_default", JNull) == JNum(0)
      && FirstField(r.value.initialState, POWER_LEVELS_TYPE, "events_default", JNull) == JNum(0)
  {
    match ExtractName(roomState)
    case JStr(name) =>
      var initial := InitialState(announcementRoom, ExtractAvatar(roomState), PowerLevels(bot, user));
      Some(RoomOptions(PRIVATE_VISIBILITY, [user], PRIVATE_PRESET, ExtractTopic(roomState),
                       "[ " + name + " ]", false, initial))
    case _ => None
  }

  /** The `m.room.power_levels` content of a new private room: the bot rules, the user may not post. */
  function PowerLevels(bot: UserId, user: UserId): (c: Content)
    ensures FieldOf(Lookup(c, "users", JNull), user) == JNum(USER_POWER)
    ensures bot != user ==> FieldOf(Lookup(c, "users", JNull), bot) == JNum(BOT_POWER)
    ensures FieldOf(Lookup(c, "events", JNull), "m.room.message") == JNum(BOT_POWER)
    ensures FieldOf(Lookup(c, "events", JNull), "m.room.member") == JNum(BOT_POWER)
    ensures FieldOf(Lookup(c, "events", JNull), POWER_LEVELS_TYPE) == JNum(BOT_POWER)
    ensures Lookup(c, "users_default", JNull) == JNum(0)
    ensures Lookup(c, "events_default", JNull) == JNum(0)
  {
    map[
      "users" := JObj(map[bot := JNum(BOT_POWER)][user := JNum(USER_POWER)]),
      "users_default" := JNum(0),
      "events" := JObj(map[
        "m.room.message" := JNum(BOT_POWER),
        "m.room.member" := JNum(BOT_POWER),
        POWER_LEVELS_TYPE := JNum(BOT_POWER)]),
      "events_default" := JNum(0)]
  }

  /** The initial state of a new private room: the back-reference marker, the avatar, the power levels. */
  function InitialState(announcementRoom: RoomId, avatar: Json, power: Content): (r: seq<StateEvent>)
    ensures MatchesAnnouncement(announcementRoom, r)
    ensures ExtractAvatar(r) == avatar
    ensures forall key :: FirstField(r, POWER_LEVELS_TYPE, key, JNull) == Lookup(power, key, JNull)
  {
    var marker := StateEvent(MARKER_TYPE, "", map[BACK_REFERENCE_KEY := JStr(announcementRoom)]);
    var avatarEvent := StateEvent(AVATAR_TYPE, "", map["url" := avatar]);
    var initial := [marker, avatarEvent, StateEvent(POWER_LEVELS_TYPE, "", power)];
    assert IsFirstOfType(initial, MARKER_TYPE, 0);
    assert IsFirstOfType(initial, AVATAR_TYPE, 1);
    assert IsFirstOfType(initial, POWER_LEVELS_TYPE, 2);
    initial
  }

  /** What `create_room` did: returned the new room's id, or raised. */
  datatype CreateOutcome = CreatedAs(room: RoomId) | CreateRaised

  /** The remote world one resolver call sees: the joined rooms, and how creation would go. */
  datatype Directory = Directory(joined: seq<RoomView>, create: CreateOutcome)

  /** Outcome of `create_or_join_private_room`, with the rooms left by its scan. */
  datatype Resolution =
    | Existing(left: seq<RoomId>, room: RoomId)
    | Created(left: seq<RoomId>, options: RoomOptions, room: RoomId)
    | CreateFailed(left: seq<RoomId>, options: RoomOptions)
    | NameRaised(left: seq<RoomId>)
  {
    /** The room id returned to the caller (None for the failed creation). */
    function Room(): Option<RoomId> {
      if Existing? || Created? then Some(room) else None
    }
  }

  /**
    `create_or_join_private_room`: an existing qualifying room is returned
    without building options or creating anything; otherwise a room is
    requested, and a failed request yields no room rather than an error.
   */
  function CreateOrJoin(user: UserId, announcementRoom: RoomId, roomState: seq<StateEvent>, bot: UserId,
                        dir: Directory): (r: Resolution)
    ensures r.left == ScanRooms(dir.joined, announcementRoom, user).left
    ensures r.Existing? <==> exists i :: 0 <= i < |dir.joined| && Qualifies(dir.joined[i], announcementRoom, user)
    ensures r.Existing? ==> Some(r.room) == ScanRooms(dir.joined, announcementRoom, user).found
    ensures r.Created? ==> dir.create == CreatedAs(r.room)
    ensures r.Created? || r.CreateFailed? ==> BuildOptions(user, announcementRoom, roomState, bot) == Some(r.options)
    ensures r.NameRaised? <==> !r.Existing? && !ExtractName(roomState).JStr?
    ensures r.Room().None? <==> r.CreateFailed? || r.NameRaised?
    ensures r.CreateFailed? <==> !r.Existing? && ExtractName(roomState).JStr? && dir.create.CreateRaised?
  {
    var scan := ScanRooms(dir.joined, announcementRoom, user);
    FoundRoomQualifies(dir.joined, announcementRoom, user);
    match scan.found
    case Some(room) => Existing(scan.left, room)
    case None =>
      match BuildOptions(user, announcementRoom, roomState, bot)
      case None => NameRaised(scan.left)
      case Some(options) =>
        match dir.create
        case CreatedAs(room) => Created(scan.left, options, room)
        case CreateRaised => CreateFailed(scan.left, options)
  }

  /**
    A room created from these options is recognised by later scans: once it
    holds the bot and the invited user, it qualifies for the same pair.
   */
  lemma CreatedRoomQualifies(user: UserId, announcementRoom: RoomId, roomState: seq<StateEvent>, bot: UserId,
                             room: RoomId)
    requires bot != user
    requires ExtractName(roomState).JStr?
    ensures Qualifies(RoomView(room, Some([Member(bot, Some(JOIN)), Member(user, Some(INVITE))]),
                               Some(BuildOptions(user, announcementRoom, roomState, bot).value.initialState)),
                      announcementRoom, user)
  {
    var members := [Member(bot, Some(JOIN)), Member(user, Some(INVITE))];
    assert members[1].stateKey == user;
  }

  /** A scan that passes over `a + b` cleanly passes over `a` cleanly. */
  lemma {:induction false} CleanScanPrefix(a: seq<RoomView>, b: seq<RoomView>, announcementRoom: RoomId, user: UserId)
    requires ScanRooms(a + b, announcementRoom, user) == Scan(None, [])
    ensures ScanRooms(a, announcementRoom, user) == Scan(None, [])
    decreases |a|
  {
    if |a| > 0 {
      assert (a + b)[0] == a[0];
      assert (a + b)[1..] == a[1..] + b;
      CleanScanPrefix(a[1..], b, announcementRoom, user);
    }
  }

  /**
    A qualifying room placed after rooms the scan passes over cleanly is the
    one found, whatever follows it.
   */
  lemma {:induction false} ScanFindsInserted(rooms: seq<RoomView>, view: RoomView, later: seq<RoomView>,
                                             announcementRoom: RoomId, user: UserId)
    requires ScanRooms(rooms, announcementRoom, user) == Scan(None, [])
    requires Qualifies(view, announcementRoom, user)
    ensures ScanRooms(rooms + [view] + later, announcementRoom, user) == Scan(Some(view.id), [])
    decreases |rooms|
  {
    if |rooms| > 0 {
      assert (rooms + [view] + later)[0] == rooms[0];
      assert (rooms + [view] + later)[1..] == rooms[1..] + [view] + later;
      ScanFindsInserted(rooms[1..], view, later, announcementRoom, user);
    } else {
      assert rooms + [view] + later == [view] + later;
    }
  }

  /** A qualifying room inserted at position `p` of a list the scan passes over cleanly is the one found. */
  lemma ScanFindsInsertedAt(rooms: seq<RoomView>, view: RoomView, p: nat, announcementRoom: RoomId, user: UserId)
    requires ScanRooms(rooms, announcementRoom, user) == Scan(None, [])
    requires Qualifies(view, announcementRoom, user) && p <= |rooms|
    ensures ScanRooms(rooms[..p] + [view] + rooms[p..], announcementRoom, user) == Scan(Some(view.id), [])
  {
    assert rooms == rooms[..p] + rooms[p..];
    CleanScanPrefix(rooms[..p], rooms[p..], announcementRoom, user);
    ScanFindsInserted(rooms[..p], view, rooms[p..], announcementRoom, user);
  }

  /**
    Resolution is idempotent: a second call, made once the rooms the first
    call left are gone and (if it created one) the new room, holding the bot
    and the invited user, has joined the list at any position `at`, returns
    the same room and leaves nothing.
   */
  lemma ResolveIsIdempotent(user: UserId, announcementRoom: RoomId, roomState: seq<StateEvent>, bot: UserId,
                            dir: Directory, create: CreateOutcome, at: nat)
    requires DistinctIds(dir.joined) && bot != user
    requires CreateOrJoin(user, announcementRoom, roomState, bot, dir).Room().Some?
    ensures var first := CreateOrJoin(user, announcementRoom, roomState, bot, dir);
      var remaining := Without(dir.joined, set x | x in first.left);
      var p := if at <= |remaining| then at else |remaining|;
      var joined := if first.Created?
        then remaining[..p] + [RoomView(first.room, Some([Member(bot, Some(JOIN)), Member(user, Some(INVITE))]),
                                        Some(first.options.initialState))] + remaining[p..]
        else remaining;
      CreateOrJoin(user, announcementRoom, roomState, bot, Directory(joined, create)) == Existing([], first.room)
  {
    var first := CreateOrJoin(user, announcementRoom, roomState, bot, dir);
    var remaining := Without(dir.joined, set x | x in first.left);
    RescanAfterLeaving(dir.joined, announcementRoom, user);
    var joined := remaining;
    if first.Created? {
      var p := if at <= |remaining| then at else |remaining|;
      var view := RoomView(first.room, Some([Member(bot, Some(JOIN)), Member(user, Some(INVITE))]),
                           Some(first.options.initialState));
      CreatedRoomQualifies(user, announcementRoom, roomState, bot, first.room);
      ScanFindsInsertedAt(remaining, view, p, announcementRoom, user);
      joined := remaining[..p] + [view] + remaining[p..];
    }
    assert ScanRooms(joined, announcementRoom, user) == Scan(Some(first.room), []);
  }
}
