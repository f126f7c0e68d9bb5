/**
  The event handlers of bot.py, each a function from the incoming event and
  the remote world it would observe to the list of effects it would have:
  receipts sent, rooms left or created, messages enqueued, history fetched,
  events redacted, state sent.
 */
module Bot {
  import opened Wrappers
  import opened Matrix
  import opened RoomState
  import opened RoomManager
  import opened QueueProcessor

  /** The content key that ties a delivered copy to the announcement it came from. */
  const ORIGIN_KEY: string := "origin_event_id"
  /** Default lookback of `get_and_redact_messages`. */
  const DEFAULT_LOOKBACK: nat := 5

  datatype MessageEvent = MessageEvent(sender: UserId, room: RoomId, eventId: EventId, content: Content)
  datatype RedactionEvent = RedactionEvent(sender: UserId, room: RoomId, redacts: EventId)
  datatype StateChange = StateChange(sender: UserId, room: RoomId, eventType: string, content: Content)
  /** A timeline event returned by `get_messages`. */
  datatype TimelineEvent = TimelineEvent(eventId: EventId, content: Content)

  /** What a handler does to the outside world, in order. */
  datatype Effect =
    | SendReadReceipt(room: RoomId, event: EventId)
    | LeaveRoom(room: RoomId)
    | CreateRoom(options: RoomOptions)
    | Enqueue(message: QueuedMessage)
    | FetchHistory(room: RoomId, limit: nat)
    | Redact(room: RoomId, event: EventId)
    | SendState(room: RoomId, eventType: string, content: Content)

  /** The messages appended to the normal lane, in order. */
  function Enqueued(effects: seq<Effect>): seq<QueuedMessage> {
    if |effects| == 0 then []
    else (if effects[0].Enqueue? then [effects[0].message] else []) + Enqueued(effects[1..])
  }

  lemma {:induction false} EnqueuedAppend(a: seq<Effect>, b: seq<Effect>)
    ensures Enqueued(a + b) == Enqueued(a) + Enqueued(b)
    decreases |a|
  {
    if |a| > 0 {
      assert (a + b)[1..] == a[1..] + b;
      EnqueuedAppend(a[1..], b);
    } else {
      assert a + b == b;
    }
  }

  function LeaveAll(rooms: seq<RoomId>): (r: seq<Effect>)
    ensures |r| == |rooms| && forall i :: 0 <= i < |r| ==> r[i] == LeaveRoom(rooms[i])
  {
    if |rooms| == 0 then [] else [LeaveRoom(rooms[0])] + LeaveAll(rooms[1..])
  }

  /** The remote effects of one `create_or_join_private_room` call: leaves, then the creation request. */
  function ResolutionEffects(r: Resolution): seq<Effect> {
    LeaveAll(r.left) + (if r.Created? || r.CreateFailed? then [CreateRoom(r.options)] else [])
  }

  lemma ResolutionEnqueuesNothing(r: Resolution)
    ensures Enqueued(ResolutionEffects(r)) == []
  {
    var e := ResolutionEffects(r);
    assert forall i :: 0 <= i < |e| ==> !e[i].Enqueue?;
    NoEnqueue(e);
  }

  lemma {:induction false} NoEnqueue(e: seq<Effect>)
    requires forall i :: 0 <= i < |e| ==> !e[i].Enqueue?
    ensures Enqueued(e) == []
    decreases |e|
  {
    if |e| > 0 {
      NoEnqueue(e[1..]);
    }
  }

  /** The admin gate shared by the three handlers: `evt.sender in admin_users`. */
  predicate IsAdmin(sender: UserId, admins: seq<UserId>) {
    sender in admins
  }

  /** The delivery queued for `user` once its private room is known. */
  function DeliveryFor(origin: MessageEvent, room: RoomId, user: UserId): QueuedMessage {
    Delivery(origin.room, origin.eventId, room, origin.content, user)
  }

  /** One resolution per user, each against the remote world that call observes. */
  predicate Aligned(users: Option<seq<UserId>>, worlds: nat) {
    users.Some? ==> |users.value| == worlds
  }

  /** The deliveries queued for a user whose resolution returned `room`. */
  function DeliveriesFor(origin: MessageEvent, room: Option<RoomId>, user: UserId): seq<QueuedMessage> {
    if room.Some? then [DeliveryFor(origin, room.value, user)] else []
  }

  /** Effects of one pass of the fan-out loop: the resolution's effects, then the delivery if any. */
  function UserEffects(origin: MessageEvent, user: UserId, res: Resolution): (r: seq<Effect>)
    ensures Enqueued(r) == DeliveriesFor(origin, res.Room(), user)
  {
    var deliver := if res.Room().Some? then [Enqueue(DeliveryFor(origin, res.Room().value, user))] else [];
    ResolutionEnqueuesNothing(res);
    EnqueuedAppend(ResolutionEffects(res), deliver);
    ResolutionEffects(res) + deliver
  }

  /** Every message is a delivery of `origin`'s content, from its room and event, to one of `users`. */
  ghost predicate DeliveriesOf(ms: seq<QueuedMessage>, origin: MessageEvent, users: seq<UserId>) {
    forall i | 0 <= i < |ms| :: (
      && ms[i].Delivery?
      && ms[i].originRoom == origin.room && ms[i].originEvent == origin.eventId
      && ms[i].content == origin.content && ms[i].user in users)
  }

  lemma DeliveriesOfAppend(a: seq<QueuedMessage>, b: seq<QueuedMessage>, origin: MessageEvent, users: seq<UserId>)
    requires |users| > 0
    requires DeliveriesOf(a, origin, users) && DeliveriesOf(b, origin, users[1..])
    ensures DeliveriesOf(a + b, origin, users)
  {
    assert forall u | u in users[1..] :: u in users;
    assert forall i | |a| <= i < |a + b| :: (a + b)[i] == b[i - |a|];
  }

  /**
    `announce_message_to_allowed_users`: each user's private room is found or
    created; a delivery is queued for each user whose room resolved. A name
    that is not a string raises while building the options and ends the loop.
   */
  function FanOut(origin: MessageEvent, users: seq<UserId>, roomState: seq<StateEvent>, bot: UserId,
                  dirs: seq<Directory>): (r: seq<Effect>)
    requires |dirs| == |users|
    ensures DeliveriesOf(Enqueued(r), origin, users)
    ensures |Enqueued(r)| <= |users|
    decreases |users|
  {
    if |users| == 0 then []
    else
      var here := UserEffects(origin, users[0], CreateOrJoin(users[0], origin.room, roomState, bot, dirs[0]));
      var rest := if CreateOrJoin(users[0], origin.room, roomState, bot, dirs[0]).NameRaised? then []
                  else FanOut(origin, users[1..], roomState, bot, dirs[1..]);
      EnqueuedAppend(here, rest);
      DeliveriesOfAppend(Enqueued(here), Enqueued(rest), origin, users);
      here + rest
  }

  /** The deliveries a fan-out should queue: one per user whose room resolved, in user order. */
  function ExpectedDeliveries(origin: MessageEvent, users: seq<UserId>, rooms: seq<Option<RoomId>>)
    : (r: seq<QueuedMessage>)
    requires |rooms| == |users|
    decreases |users|
  {
    if |users| == 0 then []
    else DeliveriesFor(origin, rooms[0], users[0]) + ExpectedDeliveries(origin, users[1..], rooms[1..])
  }

  /** The room each user's resolution would return, on its own. */
  function ResolvedRooms(origin: MessageEvent, users: seq<UserId>, roomState: seq<StateEvent>, bot: UserId,
                         dirs: seq<Directory>): seq<Option<RoomId>>
    requires |dirs| == |users|
  {
    seq(|users|, i requires 0 <= i < |users| => CreateOrJoin(users[i], origin.room, roomState, bot, dirs[i]).Room())
  }

  /**
    The fan-out queues exactly one delivery per user whose private room
    resolved, in allowed-user order, skipping users without a room. When the
    announcement room's name is a string (nothing raises) that covers every
    user; otherwise the loop stops at the first user needing a new room.
   */
  lemma {:induction false} FanOutQueuesOnePerResolvedUser(origin: MessageEvent, users: seq<UserId>,
                                                          roomState: seq<StateEvent>, bot: UserId, dirs: seq<Directory>)
    requires |dirs| == |users|
    requires ExtractName(roomState).JStr?
    ensures Enqueued(FanOut(origin, users, roomState, bot, dirs)) ==
      ExpectedDeliveries(origin, users, ResolvedRooms(origin, users, roomState, bot, dirs))
    decreases |users|
  {
    if |users| > 0 {
      var res := CreateOrJoin(users[0], origin.room, roomState, bot, dirs[0]);
      var rest := FanOut(origin, users[1..], roomState, bot, dirs[1..]);
      FanOutQueuesOnePerResolvedUser(origin, users[1..], roomState, bot, dirs[1..]);
      ResolvedRoomsTail(origin, users, roomState, bot, dirs);
      FanOutUnfolds(origin, users, roomState, bot, dirs);
      EnqueuedAppend(UserEffects(origin, users[0], res), rest);
    }
  }

  lemma ResolvedRoomsTail(origin: MessageEvent, users: seq<UserId>, roomState: seq<StateEvent>, bot: UserId,
                          dirs: seq<Directory>)
    requires |dirs| == |users| > 0
    ensures ResolvedRooms(origin, users, roomState, bot, dirs)[0] ==
      CreateOrJoin(users[0], origin.room, roomState, bot, dirs[0]).Room()
    ensures ResolvedRooms(origin, users, roomState, bot, dirs)[1..] ==
      ResolvedRooms(origin, users[1..], roomState, bot, dirs[1..])
  {
  }

  /** With a string name no resolution raises, so the fan-out goes on past the first user. */
  lemma FanOutUnfolds(origin: MessageEvent, users: seq<UserId>, roomState: seq<StateEvent>, bot: UserId,
                      dirs: seq<Directory>)
    requires |dirs| == |users| > 0
    requires ExtractName(roomState).JStr?
    ensures FanOut(origin, users, roomState, bot, dirs) ==
      UserEffects(origin, users[0], CreateOrJoin(users[0], origin.room, roomState, bot, dirs[0])) +
      FanOut(origin, users[1..], roomState, bot, dirs[1..])
  {
    assert !CreateOrJoin(users[0], origin.room, roomState, bot, dirs[0]).NameRaised?;
  }

  /** The announcement content with `origin_event_id` set to the event's own id. */
  function Tagged(evt: MessageEvent): (r: MessageEvent)
    ensures r.content.Keys == evt.content.Keys + {ORIGIN_KEY}
    ensures r.content[ORIGIN_KEY] == JStr(evt.eventId)
    ensures forall k | k in evt.content && k != ORIGIN_KEY :: r.content[k] == evt.content[k]
    ensures r.sender == evt.sender && r.room == evt.room && r.eventId == evt.eventId
  {
    evt.(content := evt.content[ORIGIN_KEY := JStr(evt.eventId)])
  }

  /**
    `handle_message_event`: for an admin, read the room's recipients, tag the
    content with its origin, send a read receipt and fan out. Nothing happens
    for anyone else, or when listing the recipients raises.
   */
  function HandleMessage(evt: MessageEvent, admins: seq<UserId>, roomState: seq<StateEvent>, bot: UserId,
                         dirs: seq<Directory>): (r: seq<Effect>)
    requires Aligned(Recipients(ExtractMembers(roomState)), |dirs|)
    ensures !IsAdmin(evt.sender, admins) ==> r == []
    ensures forall users | Recipients(ExtractMembers(roomState)) == Some(users) :: DeliveriesOf(Enqueued(r), Tagged(evt), users)
    ensures Recipients(ExtractMembers(roomState)).None? ==> r == []
    ensures IsAdmin(evt.sender, admins) && Recipients(ExtractMembers(roomState)).Some? ==>
      r != [] && r[0] == SendReadReceipt(evt.room, evt.eventId)
    ensures r != [] ==> r[0] == SendReadReceipt(evt.room, evt.eventId)
  {
    if !IsAdmin(evt.sender, admins) then []
    else match Recipients(ExtractMembers(roomState))
      case None => []
      case Some(users) =>
        var fan := FanOut(Tagged(evt), users, roomState, bot, dirs);
        EnqueuedAppend([SendReadReceipt(evt.room, evt.eventId)], fan);
        [SendReadReceipt(evt.room, evt.eventId)] + fan
  }

  /**
    An admin's announcement, when the room's name is a string, queues exactly
    one delivery of the tagged content per allowed user whose private room
    resolved, in allowed-user order.
   */
  lemma HandleMessageQueuesOnePerResolvedUser(evt: MessageEvent, admins: seq<UserId>, roomState: seq<StateEvent>,
                                              bot: UserId, dirs: seq<Directory>)
    requires Aligned(Recipients(ExtractMembers(roomState)), |dirs|)
    requires ExtractName(roomState).JStr?
    ensures forall users | IsAdmin(evt.sender, admins) && Recipients(ExtractMembers(roomState)) == Some(users) ::
      Enqueued(HandleMessage(evt, admins, roomState, bot, dirs)) ==
        ExpectedDeliveries(Tagged(evt), users, ResolvedRooms(Tagged(evt), users, roomState, bot, dirs))
  {
    if IsAdmin(evt.sender, admins) && Recipients(ExtractMembers(roomState)).Some? {
      var users := Recipients(ExtractMembers(roomState)).value;
      FanOutQueuesOnePerResolvedUser(Tagged(evt), users, roomState, bot, dirs);
      EnqueuedAppend([SendReadReceipt(evt.room, evt.eventId)], FanOut(Tagged(evt), users, roomState, bot, dirs));
    }
  }

  /** The event carries `origin_event_id` equal to `id`. */
  predicate CopyOf(e: TimelineEvent, id: EventId) {
    ORIGIN_KEY in e.content && e.content[ORIGIN_KEY] == JStr(id)
  }

  /**
    The redaction loop of `get_and_redact_messages`: exactly the fetched
    events tagged with the redacted id are redacted, in order.
   */
  function RedactMatches(room: RoomId, events: seq<TimelineEvent>, redacted: EventId): (r: seq<Effect>)
    ensures |r| <= |events| && forall i | 0 <= i < |r| :: r[i].Redact? && r[i].room == room
    ensures forall i | 0 <= i < |events| && CopyOf(events[i], redacted) :: Redact(room, events[i].eventId) in r
    ensures forall x | x in r :: exists i :: 0 <= i < |events| && CopyOf(events[i], redacted)
                                             && x == Redact(room, events[i].eventId)
    decreases |events|
  {
    if |events| == 0 then []
    else
      var rest := RedactMatches(room, events[1..], redacted);
      assert forall i | 1 <= i < |events| :: events[i] == events[1..][i - 1];
      (if CopyOf(events[0], redacted) then [Redact(room, events[0].eventId)] else []) + rest
  }

  /**
    `get_and_redact_messages` with its default lookback: fetch recent
    history, then redact the matching copies, each attempted whatever became
    of the others.
   */
  function RedactInRoom(room: RoomId, history: seq<TimelineEvent>, redacted: EventId): (r: seq<Effect>)
    ensures |r| >= 1 && r[0] == FetchHistory(room, DEFAULT_LOOKBACK)
    ensures forall i | 1 <= i < |r| :: r[i].Redact? && r[i].room == room
    ensures forall i | 0 <= i < |history| && CopyOf(history[i], redacted) :: Redact(room, history[i].eventId) in r
    ensures forall i | 1 <= i < |r| :: exists j :: 0 <= j < |history| && CopyOf(history[j], redacted)
                                                   && r[i] == Redact(room, history[j].eventId)
  {
    var matches := RedactMatches(room, history, redacted);
    var r := [FetchHistory(room, DEFAULT_LOOKBACK)] + matches;
    forall i | 1 <= i < |r|
      ensures exists j :: 0 <= j < |history| && CopyOf(history[j], redacted)
                          && r[i] == Redact(room, history[j].eventId)
    {
      assert r[i] == matches[i - 1] && matches[i - 1] in matches;
    }
    r
  }

  /** What one user's pass of the redaction handler sees: joined rooms and the fetched history. */
  datatype RedactionView = RedactionView(joined: seq<RoomView>, history: seq<TimelineEvent>)

  /** `block` sits in `r` starting at position `k`. */
  ghost predicate BlockAt(r: seq<Effect>, block: seq<Effect>, k: int) {
    0 <= k && k + |block| <= |r| && r[k..k + |block|] == block
  }

  /** `block` occurs in `r` as a contiguous run. */
  ghost predicate Occurs(r: seq<Effect>, block: seq<Effect>) {
    exists k :: BlockAt(r, block, k)
  }

  lemma OccursInSuffix(a: seq<Effect>, b: seq<Effect>, block: seq<Effect>)
    requires Occurs(b, block)
    ensures Occurs(a + b, block)
  {
    var k :| BlockAt(b, block, k);
    assert (a + b)[|a| + k..|a| + k + |block|] == b[k..k + |block|];
    assert BlockAt(a + b, block, |a| + k);
  }

  lemma OccursInPrefix(a: seq<Effect>, b: seq<Effect>, block: seq<Effect>)
    requires Occurs(a, block)
    ensures Occurs(a + b, block)
  {
    var k :| BlockAt(a, block, k);
    assert (a + b)[k..k + |block|] == a[k..k + |block|];
    assert BlockAt(a + b, block, k);
  }

  /** Leaves followed by a block: the block sits right after them, and holds everything that is not a leave. */
  lemma LeavesThenBlock(leaves: seq<Effect>, block: seq<Effect>)
    requires forall i | 0 <= i < |leaves| :: leaves[i].LeaveRoom?
    ensures BlockAt(leaves + block, block, |leaves|)
    ensures forall i | 0 <= i < |leaves + block| && !(leaves + block)[i].LeaveRoom? :: (leaves + block)[i] in block
  {
    assert (leaves + block)[|leaves|..|leaves| + |block|] == block;
    forall i | 0 <= i < |leaves + block| && !(leaves + block)[i].LeaveRoom?
      ensures (leaves + block)[i] in block
    {
      assert i >= |leaves|;
      assert (leaves + block)[i] == block[i - |leaves|];
    }
  }

  /** Every fetch or redaction of `RedactInRoom(room, ...)` is in `room`. */
  lemma RedactInRoomStaysInRoom(room: RoomId, history: seq<TimelineEvent>, redacted: EventId, x: Effect)
    requires x in RedactInRoom(room, history, redacted)
    requires x.Redact? || x.FetchHistory?
    ensures x.room == room
  {
    var block := RedactInRoom(room, history, redacted);
    var i :| 0 <= i < |block| && block[i] == x;
    if i > 0 {
      assert block[i].Redact? && block[i].room == room;
    }
  }

  /** One user's pass of the redaction loop: the scan's leaves, then the redaction in the room found. */
  function UserRedaction(evt: RedactionEvent, user: UserId, view: RedactionView): (r: seq<Effect>)
    ensures var found := ScanRooms(view.joined, evt.room, user).found;
      found.Some? ==> Occurs(r, RedactInRoom(found.value, view.history, evt.redacts))
    ensures forall i | 0 <= i < |r| && (r[i].Redact? || r[i].FetchHistory?) ::
      && ScanRooms(view.joined, evt.room, user).found == Some(r[i].room)
      && r[i] in RedactInRoom(r[i].room, view.history, evt.redacts)
    ensures forall i | 0 <= i < |r| :: r[i].LeaveRoom? || r[i].Redact? || r[i].FetchHistory?
  {
    var scan := ScanRooms(view.joined, evt.room, user);
    var leaves := LeaveAll(scan.left);
    match scan.found
    case Some(room) =>
      var block := RedactInRoom(room, view.history, evt.redacts);
      LeavesThenBlock(leaves, block);
      forall x | x in block && (x.Redact? || x.FetchHistory?) ensures x.room == room {
        RedactInRoomStaysInRoom(room, view.history, evt.redacts, x);
      }
      leaves + block
    case None => leaves
  }

  /** `handle_message_redact_event`'s loop over the allowed users. */
  function RedactAcross(evt: RedactionEvent, users: seq<UserId>, views: seq<RedactionView>): (r: seq<Effect>)
    requires |views| == |users|
    ensures forall i | 0 <= i < |r| :: !r[i].CreateRoom? && !r[i].Enqueue? && !r[i].SendState?
    ensures forall i | 0 <= i < |r| && r[i].FetchHistory? :: r[i].limit == DEFAULT_LOOKBACK
    decreases |users|
  {
    if |users| == 0 then []
    else UserRedaction(evt, users[0], views[0]) + RedactAcross(evt, users[1..], views[1..])
  }

  /**
    Redaction propagation reaches exactly the users' existing private rooms:
    every room a user's scan finds gets the history fetch followed by the
    redaction of the matching copies, and every fetch or redaction lies in
    such a room and redacts only a matching copy there.
   */
  lemma {:induction false} RedactionReachesExactlyFoundRooms(evt: RedactionEvent, users: seq<UserId>,
                                                            views: seq<RedactionView>)
    requires |views| == |users|
    ensures var r := RedactAcross(evt, users, views);
      forall u | 0 <= u < |users| && ScanRooms(views[u].joined, evt.room, users[u]).found.Some? ::
        Occurs(r, RedactInRoom(ScanRooms(views[u].joined, evt.room, users[u]).found.value,
                               views[u].history, evt.redacts))
    ensures var r := RedactAcross(evt, users, views);
      forall i | 0 <= i < |r| && (r[i].Redact? || r[i].FetchHistory?) ::
        exists u :: (0 <= u < |users| && ScanRooms(views[u].joined, evt.room, users[u]).found == Some(r[i].room)
                     && r[i] in RedactInRoom(r[i].room, views[u].history, evt.redacts))
    decreases |users|
  {
    if |users| > 0 {
      var here := UserRedaction(evt, users[0], views[0]);
      var rest := RedactAcross(evt, users[1..], views[1..]);
      RedactionReachesExactlyFoundRooms(evt, users[1..], views[1..]);
      var r := here + rest;
      forall u | 0 <= u < |users| && ScanRooms(views[u].joined, evt.room, users[u]).found.Some?
        ensures Occurs(r, RedactInRoom(ScanRooms(views[u].joined, evt.room, users[u]).found.value,
                                       views[u].history, evt.redacts))
      {
        var block := RedactInRoom(ScanRooms(views[u].joined, evt.room, users[u]).found.value,
                                  views[u].history, evt.redacts);
        if u == 0 {
          OccursInPrefix(here, rest, block);
        } else {
          assert users[1..][u - 1] == users[u] && views[1..][u - 1] == views[u];
          OccursInSuffix(here, rest, block);
        }
      }
      forall i | 0 <= i < |r| && (r[i].Redact? || r[i].FetchHistory?)
        ensures exists u :: (0 <= u < |users| && ScanRooms(views[u].joined, evt.room, users[u]).found == Some(r[i].room)
                             && r[i] in RedactInRoom(r[i].room, views[u].history, evt.redacts))
      {
        if i < |here| {
          assert r[i] == here[i];
          assert ScanRooms(views[0].joined, evt.room, users[0]).found == Some(r[i].room);
        } else {
          assert r[i] == rest[i - |here|];
          var u :| 0 <= u < |users[1..]| && ScanRooms(views[1..][u].joined, evt.room, users[1..][u]).found == Some(r[i].room)
            && r[i] in RedactInRoom(r[i].room, views[1..][u].history, evt.redacts);
          assert users[1..][u] == users[u + 1] && views[1..][u] == views[u + 1];
        }
      }
    }
  }

  /** `handle_message_redact_event`: admin-gated redaction propagation. */
  function HandleRedaction(evt: RedactionEvent, admins: seq<UserId>, roomState: seq<StateEvent>,
                           views: seq<RedactionView>): (r: seq<Effect>)
    requires Aligned(Recipients(ExtractMembers(roomState)), |views|)
    ensures !IsAdmin(evt.sender, admins) ==> r == []
    ensures Recipients(ExtractMembers(roomState)).None? ==> r == []
    ensures forall users | IsAdmin(evt.sender, admins) && Recipients(ExtractMembers(roomState)) == Some(users) ::
      r == RedactAcross(evt, users, views)
    ensures forall i | 0 <= i < |r| :: !r[i].CreateRoom? && !r[i].Enqueue? && !r[i].SendState?
  {
    if !IsAdmin(evt.sender, admins) then []
    else match Recipients(ExtractMembers(roomState))
      case None => []
      case Some(users) => RedactAcross(evt, users, views)
  }

  /** `handle_state_event`'s loop: the change is mirrored into the rooms the scans find. */
  function MirrorAcross(evt: StateChange, users: seq<UserId>, joined: seq<seq<RoomView>>): (r: seq<Effect>)
    requires |joined| == |users|
    ensures forall i | 0 <= i < |r| :: !r[i].CreateRoom? && !r[i].Enqueue? && !r[i].Redact?
    ensures forall i | 0 <= i < |r| && r[i].SendState? ::
      r[i].eventType == evt.eventType && r[i].content == evt.content
    decreases |users|
  {
    if |users| == 0 then []
    else
      var scan := ScanRooms(joined[0], evt.room, users[0]);
      var here := LeaveAll(scan.left) +
        (match scan.found
         case Some(room) => [SendState(room, evt.eventType, evt.content)]
         case None => []);
      here + MirrorAcross(evt, users[1..], joined[1..])
  }

  /**
    State mirroring reaches exactly the users' existing private rooms: every
    room a user's scan finds receives the change, and every state send goes
    to such a room.
   */
  lemma {:induction false} MirrorReachesExactlyFoundRooms(evt: StateChange, users: seq<UserId>,
                                                         joined: seq<seq<RoomView>>)
    requires |joined| == |users|
    ensures var r := MirrorAcross(evt, users, joined);
      forall u | 0 <= u < |users| && ScanRooms(joined[u], evt.room, users[u]).found.Some? ::
        SendState(ScanRooms(joined[u], evt.room, users[u]).found.value, evt.eventType, evt.content) in r
    ensures var r := MirrorAcross(evt, users, joined);
      forall i | 0 <= i < |r| && r[i].SendState? ::
        exists u :: 0 <= u < |users| && ScanRooms(joined[u], evt.room, users[u]).found == Some(r[i].room)
    decreases |users|
  {
    if |users| > 0 {
      var scan := ScanRooms(joined[0], evt.room, users[0]);
      var leaves := LeaveAll(scan.left);
      var here := leaves + (match scan.found
         case Some(room) => [SendState(room, evt.eventType, evt.content)]
         case None => []);
      var rest := MirrorAcross(evt, users[1..], joined[1..]);
      MirrorReachesExactlyFoundRooms(evt, users[1..], joined[1..]);
      var r := here + rest;
      assert r == MirrorAcross(evt, users, joined);
      forall u | 0 <= u < |users| && ScanRooms(joined[u], evt.room, users[u]).found.Some?
        ensures SendState(ScanRooms(joined[u], evt.room, users[u]).found.value, evt.eventType, evt.content) in r
      {
        if u == 0 {
          assert here[|leaves|] == SendState(scan.found.value, evt.eventType, evt.content);
          assert r[|leaves|] == here[|leaves|];
        } else {
          assert users[1..][u - 1] == users[u] && joined[1..][u - 1] == joined[u];
          var x := SendState(ScanRooms(joined[u], evt.room, users[u]).found.value, evt.eventType, evt.content);
          var j :| 0 <= j < |rest| && rest[j] == x;
          assert r[|here| + j] == x;
        }
      }
      forall i | 0 <= i < |r| && r[i].SendState?
        ensures exists u :: 0 <= u < |users| && ScanRooms(joined[u], evt.room, users[u]).found == Some(r[i].room)
      {
        if i < |here| {
          assert r[i] == here[i];
          assert i == |leaves|;
          assert ScanRooms(joined[0], evt.room, users[0]).found == Some(r[i].room);
        } else {
          assert r[i] == rest[i - |here|];
          var u :| 0 <= u < |users[1..]| && ScanRooms(joined[1..][u], evt.room, users[1..][u]).found == Some(r[i].room);
          assert users[1..][u] == users[u + 1] && joined[1..][u] == joined[u + 1];
        }
      }
    }
  }

  /** `handle_state_event`: admin-gated mirroring of name, topic and avatar changes. */
  function HandleState(evt: StateChange, admins: seq<UserId>, roomState: seq<StateEvent>,
                       joined: seq<seq<RoomView>>): (r: seq<Effect>)
    requires Aligned(StateRecipients(ExtractMembers(roomState)), |joined|)
    ensures !IsAdmin(evt.sender, admins) ==> r == []
    ensures StateRecipients(ExtractMembers(roomState)).None? ==> r == []
    ensures forall users | IsAdmin(evt.sender, admins) && StateRecipients(ExtractMembers(roomState)) == Some(users) ::
      r == MirrorAcross(evt, users, joined)
    ensures forall i | 0 <= i < |r| :: !r[i].CreateRoom? && !r[i].Enqueue? && !r[i].Redact?
  {
    if !IsAdmin(evt.sender, admins) then []
    else match StateRecipients(ExtractMembers(roomState))
      case None => []
      case Some(users) => MirrorAcross(evt, users, joined)
  }

  /**
    Redaction correlation closes the loop with fan-out: a delivered copy of an
    announcement is redacted when that announcement is, and a copy of any
    other announcement is not.
   */
  lemma DeliveredCopyIsRedacted(evt: MessageEvent, admins: seq<UserId>, roomState: seq<StateEvent>, bot: UserId,
                                dirs: seq<Directory>, copyId: EventId, other: EventId,
                                room: RoomId, history: seq<TimelineEvent>)
    requires Aligned(Recipients(ExtractMembers(roomState)), |dirs|)
    requires other != evt.eventId
    ensures forall m | m in Enqueued(HandleMessage(evt, admins, roomState, bot, dirs)) &&
                       TimelineEvent(copyId, m.content) in history ::
      && Redact(room, copyId) in RedactMatches(room, history, evt.eventId)
      && !CopyOf(TimelineEvent(copyId, m.content), other)
  {
    var queued := Enqueued(HandleMessage(evt, admins, roomState, bot, dirs));
    forall m | m in queued && TimelineEvent(copyId, m.content) in history
      ensures Redact(room, copyId) in RedactMatches(room, history, evt.eventId)
      ensures !CopyOf(TimelineEvent(copyId, m.content), other)
    {
      var i :| 0 <= i < |queued| && queued[i] == m;
      assert m.content == Tagged(evt).content;
    }
  }
}
