# Announcement bot core, modelled in Dafny

A maubot plugin fans out every message an admin posts in an *announcement room* to one private room per
subscribed user, mirrors name/topic/avatar changes into those rooms, and propagates redactions. This
project models its decision logic with all Matrix I/O replaced by inputs (what the homeserver would
answer) and outputs (what the bot would send, leave, create or redact):

- `matrix.dfy` — identifiers, JSON-shaped content, state events and member events.
- `room_state.dfy` — the `extract_*` lookups over a room's state-event list.
- `room_manager.dfy` — the private-room resolver: the scan over joined rooms (`get_existing_private_room`),
  the options for a new room and `create_or_join_private_room`.
- `queue_processor.dfy` — one iteration of `process_queue` as a pure step over the priority (receipt) lane,
  the normal (delivery) lane and the current delay, given the outcome of the send; `RunSteps` chains steps.
- `bot.dfy` — the three admin-gated handlers as functions returning the list of effects they would have
  (read receipt, leave, create, enqueue, history fetch, redact, state send), including the fan-out and the
  redaction correlation.

Remote answers are inputs: each joined room is a `RoomView` whose member list or state is `None` when
that request raised; each resolver call sees its own `Directory` (joined rooms and how `create_room`
would go), one per allowed user, because rooms created or left for one user change what the next call
sees. A send outcome is `Sent(eventId)`, `Throttled` (the error text contains "Too Many Requests") or
`SendFailed`.

Facts about the code that shape the model:
- the admin gate is `evt.sender in config["admins"]`: admins are a plain list of user ids;
- only the `org.minbh.announcement` marker is read as a back-reference to the announcement room;
- a new private room's initial state holds exactly the marker, the avatar and the power levels;
- after a "Too Many Requests" error the doubled `sleep_time` is never slept: see "## Findings".

## Model

| member | source | states |
|---|---|---|
| RoomState.FirstOfType | announcement/room_manager.py:116 | the position returned holds the first event of the requested type; None exactly when no event has that type |
| RoomState.FirstField | announcement/room_manager.py:114-132 | the field of the first event of the type, the default when that event lacks the key, the default when no such event exists |
| RoomState.ExtractTopic | announcement/room_manager.py:114-117 | `topic` of the first `m.room.topic` event, `""` when the event or the key is missing |
| RoomState.ExtractAvatar | announcement/room_manager.py:124-127 | `url` of the first `m.room.avatar` event, `""` when the event or the key is missing |
| RoomState.ExtractName | announcement/room_manager.py:129-132 | `name` of the first `m.room.name` event, `""` when the event or the key is missing |
| RoomState.ExtractMembers | announcement/room_manager.py:119-122 | the first marker's `Live` value, `[]` without the key, the empty string without a marker |
| RoomState.NoMarkerNoRecipients | announcement/room_manager.py:119-122 | with no marker, or a marker without `Live`, the handlers visit no user at all |
| RoomState.MatchesAnnouncement | announcement/room_manager.py:134-140 | true iff the first marker's `announcement_room_id` (default `""`) equals the room id; false without a marker |
| RoomState.Recipients | announcement/bot.py:49-53 | users visited: a list of strings in order, a string char by char; any other value makes the join raise, so no user is visited |
| RoomState.StateRecipients | announcement/bot.py:96-100 | users the state handler visits: the string items of a list (others can never match a member), a string char by char, the same users as the other handlers whenever their join succeeds; other values make `len` raise |
| RoomManager.MembershipOf | announcement/room_manager.py:90-93 | membership of the first member event of the user, None when the user has no member event |
| RoomManager.ScanIsFirstQualifying | announcement/room_manager.py:77-107 | the scan returns the first qualifying room in joined order (None if none) and leaves exactly the stale rooms before it |
| RoomManager.FoundRoomQualifies | announcement/room_manager.py:86-98 | a returned room has two members including the user, a matching back-reference and JOIN/INVITE membership; None means no room qualifies |
| RoomManager.ScanStopsAtFirstMatch | announcement/room_manager.py:96-98 | rooms after the first qualifying one do not influence the outcome |
| RoomManager.RescanAfterLeaving | announcement/room_manager.py:99-101 | once the stale rooms are left, a second scan returns the same room and leaves nothing |
| RoomManager.BuildOptions | announcement/room_manager.py:24-67 | invitees `[user]`, name `"[ " + name + " ]"`, topic and avatar copied, back-reference set, bot power 100, user 0, message/member/power-level events at 100; none if the name is not a string |
| RoomManager.CreateOrJoin | announcement/room_manager.py:15-75 | an existing qualifying room is returned with no creation; otherwise the built options are requested; a failed request gives no room |
| RoomManager.CreatedRoomQualifies | announcement/room_manager.py:35-42 | a room created with these options, holding the bot and the invited user, qualifies in later scans |
| RoomManager.ResolveIsIdempotent | announcement/room_manager.py:15-21 | resolving again after the first call's leaves, with the created room (if any) at any position of the joined list, returns the same room and leaves nothing |
| QueueProcessor.ReceiptFor | announcement/queu_processor.py:37-52 | the receipt goes to the origin room, is a read receipt, threads under the origin event and its bodies end with the user |
| QueueProcessor.StepOnce | announcement/queu_processor.py:14-68 | the priority head is served first, else the normal head; idle leaves all unchanged; delay reset on success, doubled on throttling, kept on other errors |
| QueueProcessor.ReceiptSynthesis | announcement/queu_processor.py:32-55 | a delivery sent with an event id appends exactly one receipt to the priority tail; a receipt appends nothing |
| QueueProcessor.ThrottleRestoresLanes | announcement/queu_processor.py:59-66 | on throttling both lanes are exactly as before the iteration and the delay doubles |
| QueueProcessor.ThrottledMessageIsNext | announcement/queu_processor.py:59-66 | the next iteration retries the throttled message, with a strictly larger positive delay |
| QueueProcessor.FailedSendDropsMessage | announcement/queu_processor.py:67-68 | on another error the message is gone, the rest of both lanes and the delay are unchanged |
| QueueProcessor.StepKeepsLanes | announcement/queu_processor.py:48-66 | receipts stay only in the priority lane, deliveries only in the normal lane |
| QueueProcessor.StepKeepsBackoff | announcement/queu_processor.py:56-60 | a delay of baseline × 2^k becomes baseline × 2^k' after one iteration |
| QueueProcessor.BackoffInvariant | announcement/queu_processor.py:15-60 | over any run from baseline × 2^k the delay is baseline × 2^k' and never below the baseline |
| QueueProcessor.StepIsFifo | announcement/queu_processor.py:19-24 | without throttling an iteration takes at most the normal lane's head, and nothing else from it |
| QueueProcessor.NormalLaneIsFifo | announcement/queu_processor.py:16-68 | without throttling the deliveries attempted, then those waiting, are the starting normal lane in order |
| QueueProcessor.AsWrittenWaitIsIdleTime | announcement/queu_processor.py:15-71 | as written, a run sleeps the baseline once per idle iteration and nothing else, however often sends are throttled |
| QueueProcessor.ThrottledRetriesAreNotPaced | announcement/queu_processor.py:56-66 | one delivery throttled three times: the delay reaches 8 × the baseline while the retries, as written, wait 0 |
| QueueProcessor.PacedWaitCoversThrottles | announcement/queu_processor.py:59-66 | paced, a run from a delay baseline × 2^k sleeps at least 2 × baseline per throttled send plus the baseline per idle iteration |
| Bot.UserEffects | announcement/bot.py:76-87 | one fan-out pass queues a delivery exactly when the user's room resolved |
| Bot.FanOut | announcement/bot.py:73-87 | every queued message is a delivery carrying the origin room, origin event, content and an entry of the user list; at most one per entry of the user list |
| Bot.FanOutQueuesOnePerResolvedUser | announcement/bot.py:75-87 | the queued deliveries are one per user whose room resolved, in allowed-user order |
| Bot.Tagged | announcement/bot.py:69 | content gains `origin_event_id` equal to the event id; every other key is kept |
| Bot.HandleMessage | announcement/bot.py:58-71 | nothing for non-admins or when listing the recipients raises; for an admin with recipients the read receipt comes first, and every queued message is a delivery of the tagged content to one of the recipients |
| Bot.HandleMessageQueuesOnePerResolvedUser | announcement/bot.py:64-87 | when the room name is a string, an admin's message queues exactly one delivery of the tagged content per recipient whose private room resolved, in recipient order |
| Bot.RedactMatches | announcement/bot.py:132-142 | exactly the fetched events tagged with the redacted id are redacted, in that room |
| Bot.RedactInRoom | announcement/bot.py:105-142 | the history fetch with limit 5 comes first; then redactions in that room, of every fetched event tagged with the redacted id and of nothing else |
| Bot.UserRedaction | announcement/bot.py:53-56 | when a user's scan finds a room, that room's fetch-and-redact block appears in one piece; every fetch or redaction lies in the room found; nothing but leaves, fetches and redactions |
| Bot.RedactAcross | announcement/bot.py:53-56 | redaction uses existing rooms only: no creation, enqueue or state send; history is fetched with lookback 5 |
| Bot.RedactionReachesExactlyFoundRooms | announcement/bot.py:53-56 | every room some user's scan finds gets the history fetch followed by the matching redactions; every fetch or redaction lies in a room some user's scan found, and belongs to that room's block |
| Bot.HandleRedaction | announcement/bot.py:41-56 | nothing for non-admins or when listing the recipients raises; otherwise exactly the per-recipient redaction loop; never creates a room, enqueues or sends state |
| Bot.MirrorAcross | announcement/bot.py:100-103 | state is sent with the event's own type and content into existing rooms only |
| Bot.MirrorReachesExactlyFoundRooms | announcement/bot.py:100-103 | every room some user's scan finds receives the change; every state send goes to a room some user's scan found |
| Bot.HandleState | announcement/bot.py:90-103 | nothing for non-admins or when listing the recipients raises; otherwise exactly the per-recipient mirroring loop; never creates a room, enqueues or redacts |
| Bot.DeliveredCopyIsRedacted | announcement/bot.py:132-140 | a delivered copy of an announcement is redacted with it, and is never taken for a copy of another event |

## Left out

- asyncio: `create_task`, the lock, and the `appendleft` calls made outside the lock; one loop iteration is a sequential step, and a sleep is only a duration added up by `RunWait`.
- The floating-point rate (`0.9`, `1 / 0.9`): the baseline delay is an abstract natural number.
- The "Too Many Requests" substring test: an enumerated send outcome instead.
- Matrix client calls are inputs or effect records. Failures of the calls a handler does not catch (the announcement room's state fetch, `get_joined_rooms` at the start of each scan, `send_receipt`, `get_messages`, `send_state_event`) would abort the handler; the model assumes they succeed.
- The server-side filter of `get_messages` (message type and `contains`): the fetched history is an input; the model re-checks the tag as the code does.
- Redaction failures: each redaction is caught on its own, so the model lists every matching redaction and does not track which succeeded.
- The outer catch-all of `process_queue`, logging, `Config`, `start`, and the event-type registrations.
- Recipients: a JSON object as `Live` is treated like other non-list values (no user visited); Python would visit its keys in document order, which a Dafny map does not keep.
- StateRecipients: the same simplification for a JSON object as `Live`.
- Truthiness of ids: room ids are never empty in Matrix, so `if room_id:` is modelled as "a room was returned"; a falsy event id from `send_message` is `None` or `""`.
- Malformed state events without a `type` key (a `KeyError` caught per room) are not representable.
- JSON numbers are integers.
- CopyOf: `getattr(event.content, 'origin_event_id', None)` is modelled as a lookup of the `origin_event_id` key in the fetched content. Whether the client library's content object exposes a key set by item assignment as an attribute is decided by that library, which is not part of this model.

## Findings

| source | as written | input that shows it | evidently intended | confidence | as-written member | corrected member |
|---|---|---|---|---|---|---|
| announcement/queu_processor.py:56-71 | a throttled send doubles `sleep_time` and `continue`s; the only sleep on the normal path is the idle one with `normal_sleep_time`, and the doubled value is read only by the outer handler, which a send error never reaches | one queued delivery whose send is throttled three times: `sleep_time` reaches 8 × the baseline, yet the three retries follow one another with no sleep | sleep the doubled delay before retrying, so back-off slows the sends | not executed | QueueProcessor.WaitAsWritten, QueueProcessor.ThrottledRetriesAreNotPaced | QueueProcessor.PacedWait, QueueProcessor.PacedWaitCoversThrottles |
