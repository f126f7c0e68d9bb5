/**
  The Matrix vocabulary the bot works with: identifiers, JSON-shaped event
  content, room state events and room members. Everything the remote
  homeserver returns is modelled as plain immutable data.
 */
module Matrix {
  import opened Wrappers

  type UserId = string
  type RoomId = string
  type EventId = string

  /** A JSON value as decoded by the client library (numbers kept integral). */
  datatype Json =
    | JNull
    | JBool(b: bool)
    | JNum(n: int)
    | JStr(s: string)
    | JArr(items: seq<Json>)
    | JObj(fields: map<string, Json>)

  /** The `content` object of an event. */
  type Content = map<string, Json>

  /** `dict.get(key, default)` on an event's content. */
  function Lookup(content: Content, key: string, default: Json): Json {
    if key in content then content[key] else default
  }

  /** One entry of a room's state, as returned by `GET /rooms/{id}/state`. */
  datatype StateEvent = StateEvent(eventType: string, stateKey: string, content: Content)

  /**
    One `m.room.member` event: whose membership it is (its state key) and the
    `membership` field of its content, absent when the content lacks it.
   */
  datatype Member = Member(stateKey: UserId, membership: Option<string>)

  const JOIN: string := "join"
  const INVITE: string := "invite"
}
