/**
  Lookups over a room's state-event list (room_manager.py `extract_*`).
  Every helper takes the FIRST event of a given type, reads one field of its
  content with a default, and falls back to a default when no event of that
  type exists at all.
 */
module RoomState {
  import opened Wrappers
  import opened Matrix

  const TOPIC_TYPE: string := "m.room.topic"
  const NAME_TYPE: string := "m.room.name"
  const AVATAR_TYPE: string := "m.room.avatar"
  /** The bot's own marker type, used both on announcement rooms and as back-reference. */
  const MARKER_TYPE: string := "org.minbh.announcement"
  const BACK_REFERENCE_KEY: string := "announcement_room_id"
  const LIVE_KEY: string := "Live"

  /** `i` is the position of the first event of type `t`. */
  ghost predicate IsFirstOfType(events: seq<StateEvent>, t: string, i: int) {
    && 0 <= i < |events|
    && events[i].eventType == t
    && forall j :: 0 <= j < i ==> events[j].eventType != t
  }

  /** No event of type `t` occurs. */
  ghost predicate NoneOfType(events: seq<StateEvent>, t: string) {
    forall j :: 0 <= j < |events| ==> events[j].eventType != t
  }

  /** Position of the first event of type `t`: Python's `next((e for e in events if ...), None)`. */
  function FirstOfType(events: seq<StateEvent>, t: string): (r: Option<nat>)
    ensures r.Some? ==> IsFirstOfType(events, t, r.value)
    ensures r.None? <==> NoneOfType(events, t)
  {
    if |events| == 0 then None
    else if events[0].eventType == t then Some(0)
    else match FirstOfType(events[1..], t)
      case None => None
      case Some(i) => Some(i + 1)
  }

  /** Field `key` of the first event of type `t`, `default` when the event or the key is missing. */
  function FirstField(events: seq<StateEvent>, t: string, key: string, default: Json): (r: Json)
    ensures forall i | IsFirstOfType(events, t, i) :: r == Lookup(events[i].content, key, default)
    ensures NoneOfType(events, t) ==> r == default
  {
    match FirstOfType(events, t)
    case None => default
    case Some(i) => Lookup(events[i].content, key, default)
  }

  /** `extract_room_topic`. */
  function ExtractTopic(events: seq<StateEvent>): (r: Json)
    ensures forall i | IsFirstOfType(events, TOPIC_TYPE, i) ::
      r == Lookup(events[i].content, "topic", JStr(""))
    ensures NoneOfType(events, TOPIC_TYPE) ==> r == JStr("")
  {
    FirstField(events, TOPIC_TYPE, "topic", JStr(""))
  }

  /** `extract_room_name`. */
  function ExtractName(events: seq<StateEvent>): (r: Json)
    ensures forall i | IsFirstOfType(events, NAME_TYPE, i) ::
      r == Lookup(events[i].content, "name", JStr(""))
    ensures NoneOfType(events, NAME_TYPE) ==> r == JStr("")
  {
    FirstField(events, NAME_TYPE, "name", JStr(""))
  }

  /** `extract_room_avatar`. */
  function ExtractAvatar(events: seq<StateEvent>): (r: Json)
    ensures forall i | IsFirstOfType(events, AVATAR_TYPE, i) ::
      r == Lookup(events[i].content, "url", JStr(""))
    ensures NoneOfType(events, AVATAR_TYPE) ==> r == JStr("")
  {
    FirstField(events, AVATAR_TYPE, "url", JStr(""))
  }

  /**
    `extract_annoucment_members`: the first marker's `Live` value, `[]` when the
    marker has no `Live` key, and the empty STRING when there is no marker.
   */
  function ExtractMembers(events: seq<StateEvent>): (r: Json)
    ensures forall i | IsFirstOfType(events, MARKER_TYPE, i) ::
      r == Lookup(events[i].content, LIVE_KEY, JArr([]))
    ensures NoneOfType(events, MARKER_TYPE) ==> r == JStr("")
  {
    match FirstOfType(events, MARKER_TYPE)
    case None => JStr("")
    case Some(i) => Lookup(events[i].content, LIVE_KEY, JArr([]))
  }

  /**
    `extract_room_matches_announcement`: false without a marker; otherwise the
    first marker's back-reference (default `""`) is compared with the room id.
   */
  function MatchesAnnouncement(announcementRoom: RoomId, events: seq<StateEvent>): (r: bool)
    ensures r <==> exists i | IsFirstOfType(events, MARKER_TYPE, i) ::
      Lookup(events[i].content, BACK_REFERENCE_KEY, JStr("")) == JStr(announcementRoom)
    ensures NoneOfType(events, MARKER_TYPE) ==> !r
  {
    match FirstOfType(events, MARKER_TYPE)
    case None => false
    case Some(i) => Lookup(events[i].content, BACK_REFERENCE_KEY, JStr("")) == JStr(announcementRoom)
  }

  /** Only strings, in order; None as soon as one item is not a string. */
  function Strings(items: seq<Json>): (r: Option<seq<string>>)
    ensures r.Some? <==> forall i :: 0 <= i < |items| ==> items[i].JStr?
    ensures r.Some? ==> |r.value| == |items| && forall i :: 0 <= i < |items| ==> r.value[i] == items[i].s
  {
    if |items| == 0 then Some([])
    else if !items[0].JStr? then None
    else match Strings(items[1..])
      case None => None
      case Some(rest) => Some([items[0].s] + rest)
  }

  /**
    The users a handler's `for user in allowed_users` visits, or None when the
    preceding `', '.join(allowed_users)` raises: a list of strings is visited in
    order, a string character by character, anything else raises.
   */
  function Recipients(live: Json): (r: Option<seq<UserId>>)
    ensures live.JArr? ==> (r.Some? <==> forall i :: 0 <= i < |live.items| ==> live.items[i].JStr?)
    ensures live.JArr? && r.Some? ==>
      && |r.value| == |live.items|
      && forall i :: 0 <= i < |live.items| ==> r.value[i] == live.items[i].s
    ensures live.JStr? ==> r == Some(seq(|live.s|, i requires 0 <= i < |live.s| => [live.s[i]]))
    ensures !live.JArr? && !live.JStr? ==> r.None?
  {
    match live
    case JArr(items) => Strings(items)
    case JStr(s) => Some(seq(|s|, i requires 0 <= i < |s| => [s[i]]))
    case _ => None
  }

  /** The string items, in order. */
  function StringItems(items: seq<Json>): (r: seq<string>)
    ensures |r| <= |items|
    ensures forall x | x in r :: JStr(x) in items
    ensures forall i | 0 <= i < |items| && items[i].JStr? :: items[i].s in r
  {
    if |items| == 0 then []
    else (if items[0].JStr? then [items[0].s] else []) + StringItems(items[1..])
  }

  /**
    The users `handle_state_event` visits, or None when `len(allowed_users)`
    raises. No join is made there, so a list's non-string items do not raise;
    they are skipped, since no member's state key can equal them.
   */
  function StateRecipients(live: Json): (r: Option<seq<UserId>>)
    ensures live.JArr? ==> r == Some(StringItems(live.items))
    ensures live.JStr? ==> r == Recipients(live)
    ensures !live.JArr? && !live.JStr? ==> r.None?
    ensures forall ids | Recipients(live) == Some(ids) :: r == Some(ids)
  {
    match live
    case JArr(items) =>
      StringsAreStringItems(items);
      Some(StringItems(items))
    case _ => Recipients(live)
  }

  /** When every item is a string, skipping non-strings changes nothing. */
  lemma {:induction false} StringsAreStringItems(items: seq<Json>)
    ensures Strings(items).Some? ==> Strings(items) == Some(StringItems(items))
    decreases |items|
  {
    if |items| > 0 {
      StringsAreStringItems(items[1..]);
    }
  }

  /**
    Whatever the state, the member list never names a recipient when the marker
    or its `Live` key is absent.
   */
  lemma NoMarkerNoRecipients(events: seq<StateEvent>)
    requires NoneOfType(events, MARKER_TYPE) ||
             exists i | IsFirstOfType(events, MARKER_TYPE, i) :: LIVE_KEY !in events[i].content
    ensures Recipients(ExtractMembers(events)) == Some([])
  {
    if !NoneOfType(events, MARKER_TYPE) {
      var i :| IsFirstOfType(events, MARKER_TYPE, i) && LIVE_KEY !in events[i].content;
      assert ExtractMembers(events) == JArr([]);
    } else {
      assert ExtractMembers(events) == JStr("");
      assert Recipients(JStr("")).value == [];
    }
  }
}
