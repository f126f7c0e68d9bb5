/**
  The dispatch queue (queu_processor.py). One iteration of `process_queue`'s
  loop is a pure step over the two lanes and the current delay, given how the
  send went; `RunSteps` chains iterations.
 */
module QueueProcessor {
  import opened Wrappers
  import opened Matrix

  /**
    The two message shapes the bot enqueues: a delivery into a private room
    (normal lane, carrying the origin triple for its receipt) and a receipt
    back to the announcement room (priority lane, `read_receipt` set).
   */
  datatype QueuedMessage =
    | Delivery(originRoom: RoomId, originEvent: EventId, room: RoomId, content: Content, user: UserId)
    | Receipt(room: RoomId, content: Content)
  {
    /** `message.get('read_receipt')` is truthy. */
    predicate ReadReceipt() { Receipt? }
  }

  /** Both lanes and the current inter-send delay (`sleep_time`). */
  datatype Processor = Processor(priority: seq<QueuedMessage>, normal: seq<QueuedMessage>, sleepTime: nat)

  /**
    How `send_message` went: it returned an event id (None for a falsy one),
    raised an error whose text contains "Too Many Requests", or raised any
    other error.
   */
  datatype SendOutcome = Sent(eventId: Option<EventId>) | Throttled | SendFailed

  /** One iteration: the message it tried to send, if any, and the state after it. */
  datatype Step = Step(attempted: Option<QueuedMessage>, next: Processor)

  const RECEIPT_REL_TYPE: string := "m.thread"

  /** The event a content threads under: its `m.relates_to` with `rel_type` `m.thread`. */
  function ThreadTarget(content: Content): Option<EventId> {
    if "m.relates_to" in content && content["m.relates_to"].JObj? then
      var rel := content["m.relates_to"].fields;
      if "rel_type" in rel && rel["rel_type"] == JStr(RECEIPT_REL_TYPE) && "event_id" in rel && rel["event_id"].JStr?
      then Some(rel["event_id"].s) else None
    else None
  }

  /** `s` ends with `suffix`. */
  predicate EndsWith(s: string, suffix: string) {
    |suffix| <= |s| && s[|s| - |suffix|..] == suffix
  }

  /**
    The acknowledgement built after a delivery succeeds: addressed to the
    origin room, threaded under the origin event, its body naming the user.
   */
  function ReceiptFor(m: QueuedMessage): (r: QueuedMessage)
    requires m.Delivery?
    ensures r.ReadReceipt() && r.room == m.originRoom
    ensures ThreadTarget(r.content) == Some(m.originEvent)
    ensures "body" in r.content && r.content["body"].JStr? && EndsWith(r.content["body"].s, m.user)
    ensures "formatted_body" in r.content && r.content["formatted_body"].JStr?
            && EndsWith(r.content["formatted_body"].s, m.user)
  {
    var body := "\U{1F514} *Sent for*:" + m.user;
    var formatted := "\U{1F514} <em>Sent for</em>: " + m.user;
    assert body[|body| - |m.user|..] == m.user;
    assert formatted[|formatted| - |m.user|..] == m.user;
    Receipt(m.originRoom, map[
      "msgtype" := JStr("m.text"),
      "body" := JStr(body),
      "format" := JStr("org.matrix.custom.html"),
      "formatted_body" := JStr(formatted),
      "m.relates_to" := JObj(map["rel_type" := JStr(RECEIPT_REL_TYPE), "event_id" := JStr(m.originEvent)])])
  }

  /** `if event_id:` — a returned, non-empty event id. */
  predicate Truthy(eventId: Option<EventId>) {
    eventId.Some? && eventId.value != ""
  }

  /**
    One loop iteration of `process_queue`, with `baseline` the delay captured
    when the loop started.
   */
  function StepOnce(p: Processor, baseline: nat, outcome: SendOutcome): (r: Step)
    // lane selection
    ensures p.priority != [] ==> r.attempted == Some(p.priority[0])
    ensures p.priority == [] && p.normal != [] ==> r.attempted == Some(p.normal[0])
    ensures p.priority == [] && p.normal == [] ==> r.attempted.None? && r.next == p
    // taking from the priority lane leaves the normal lane as it was, and vice versa
    ensures p.priority != [] && !outcome.Throttled? ==> r.next.normal == p.normal
    ensures p.priority == [] && p.normal != [] && !outcome.Throttled? ==> r.next.normal == p.normal[1..]
    // delay
    ensures r.attempted.Some? && outcome.Sent? ==> r.next.sleepTime == baseline
    ensures r.attempted.Some? && outcome.Throttled? ==> r.next.sleepTime == 2 * p.sleepTime
    ensures !outcome.Sent? && !outcome.Throttled? ==> r.next.sleepTime == p.sleepTime
  {
    if p.priority != [] then
      Step(Some(p.priority[0]), Deliver(p.priority[0], p.priority[1..], p.normal, p.sleepTime, baseline, outcome))
    else if p.normal != [] then
      Step(Some(p.normal[0]), Deliver(p.normal[0], p.priority, p.normal[1..], p.sleepTime, baseline, outcome))
    else
      Step(None, p)
  }

  /** The send step for message `m`, already taken off its lane. */
  function Deliver(m: QueuedMessage, priority: seq<QueuedMessage>, normal: seq<QueuedMessage>,
                   sleepTime: nat, baseline: nat, outcome: SendOutcome): Processor
  {
    match outcome
    case Sent(eventId) =>
      if !m.ReadReceipt() && Truthy(eventId) then Processor(priority + [ReceiptFor(m)], normal, baseline)
      else Processor(priority, normal, baseline)
    case Throttled =>
      if m.ReadReceipt() then Processor([m] + priority, normal, 2 * sleepTime)
      else Processor(priority, [m] + normal, 2 * sleepTime)
    case SendFailed => Processor(priority, normal, sleepTime)
  }

  /**
    A successful delivery with an event id appends exactly one receipt, to the
    tail of the priority lane; a successful receipt (or a delivery without an
    id) enqueues nothing.
   */
  lemma ReceiptSynthesis(p: Processor, baseline: nat, eventId: Option<EventId>)
    requires p.priority != [] || p.normal != []
    ensures var r := StepOnce(p, baseline, Sent(eventId));
      var m := r.attempted.value;
      var rest := if p.priority != [] then p.priority[1..] else p.priority;
      && (m.Delivery? && Truthy(eventId) ==> r.next.priority == rest + [ReceiptFor(m)])
      && (m.ReadReceipt() || !Truthy(eventId) ==> r.next.priority == rest)
  {
  }

  /**
    On throttling the delay doubles and the failed message goes back to the
    head of its own lane: both lanes are exactly as before the iteration.
   */
  lemma ThrottleRestoresLanes(p: Processor, baseline: nat)
    requires LanesHold(p)
    ensures var r := StepOnce(p, baseline, Throttled);
      && r.next.priority == p.priority
      && r.next.normal == p.normal
      && (r.attempted.Some? ==> r.next.sleepTime == 2 * p.sleepTime)
  {
  }

  /**
    After a throttled attempt, the next iteration retries the same message,
    with a strictly larger delay when the delay was positive.
   */
  lemma ThrottledMessageIsNext(p: Processor, baseline: nat, outcome: SendOutcome)
    requires LanesHold(p)
    requires p.priority != [] || p.normal != []
    ensures var r := StepOnce(p, baseline, Throttled);
      && StepOnce(r.next, baseline, outcome).attempted == r.attempted
      && (p.sleepTime > 0 ==> r.next.sleepTime > p.sleepTime)
  {
  }

  /**
    Any other send error drops the message: the lanes stay as the dequeue left
    them and the delay is unchanged.
   */
  lemma FailedSendDropsMessage(p: Processor, baseline: nat)
    requires p.priority != [] || p.normal != []
    ensures StepOnce(p, baseline, SendFailed).next ==
      if p.priority != [] then Processor(p.priority[1..], p.normal, p.sleepTime)
      else Processor(p.priority, p.normal[1..], p.sleepTime)
  {
  }

  /** Lane discipline: receipts only in the priority lane, deliveries only in the normal lane. */
  ghost predicate LanesHold(p: Processor) {
    && (forall i :: 0 <= i < |p.priority| ==> p.priority[i].Receipt?)
    && (forall i :: 0 <= i < |p.normal| ==> p.normal[i].Delivery?)
  }

  /** Every iteration keeps receipts and deliveries in their own lanes. */
  lemma StepKeepsLanes(p: Processor, baseline: nat, outcome: SendOutcome)
    requires LanesHold(p)
    ensures LanesHold(StepOnce(p, baseline, outcome).next)
  {
  }

  function Pow2(k: nat): (r: nat)
    ensures r >= 1
  {
    if k == 0 then 1 else 2 * Pow2(k - 1)
  }

  /** The exponent of the delay after one iteration: reset, doubled or kept. */
  function NextExponent(p: Processor, k: nat, outcome: SendOutcome): nat {
    if p.priority == [] && p.normal == [] then k
    else match outcome
      case Sent(_) => 0
      case Throttled => k + 1
      case SendFailed => k
  }

  /** One iteration keeps the delay of the form baseline × 2^k. */
  lemma StepKeepsBackoff(p: Processor, baseline: nat, k: nat, outcome: SendOutcome)
    requires p.sleepTime == baseline * Pow2(k)
    ensures StepOnce(p, baseline, outcome).next.sleepTime == baseline * Pow2(NextExponent(p, k, outcome))
  {
  }

  /** The iterations driven by a sequence of send outcomes, one per iteration. */
  datatype Run = Run(attempts: seq<QueuedMessage>, final: Processor)

  function RunSteps(p: Processor, baseline: nat, outcomes: seq<SendOutcome>): Run
    decreases |outcomes|
  {
    if |outcomes| == 0 then Run([], p)
    else
      var s := StepOnce(p, baseline, outcomes[0]);
      var rest := RunSteps(s.next, baseline, outcomes[1..]);
      Run(Attempted(s) + rest.attempts, rest.final)
  }

  /** The exponent of the delay after a run, following `NextExponent` step by step. */
  function RunExponent(p: Processor, baseline: nat, k: nat, outcomes: seq<SendOutcome>): nat
    decreases |outcomes|
  {
    if |outcomes| == 0 then k
    else RunExponent(StepOnce(p, baseline, outcomes[0]).next, baseline, NextExponent(p, k, outcomes[0]), outcomes[1..])
  }

  /**
    Starting from the baseline, the delay is always baseline × 2^k for some
    k, so it never drops below the baseline.
   */
  lemma {:induction false} BackoffInvariant(p: Processor, baseline: nat, k: nat, outcomes: seq<SendOutcome>)
    requires p.sleepTime == baseline * Pow2(k)
    ensures RunSteps(p, baseline, outcomes).final.sleepTime == baseline * Pow2(RunExponent(p, baseline, k, outcomes))
    ensures RunSteps(p, baseline, outcomes).final.sleepTime >= baseline
    decreases |outcomes|
  {
    if |outcomes| > 0 {
      var s := StepOnce(p, baseline, outcomes[0]);
      StepKeepsBackoff(p, baseline, k, outcomes[0]);
      BackoffInvariant(s.next, baseline, NextExponent(p, k, outcomes[0]), outcomes[1..]);
    }
  }

  /** The deliveries among some messages, in order. */
  function Deliveries(ms: seq<QueuedMessage>): (r: seq<QueuedMessage>)
    ensures |r| <= |ms|
  {
    if |ms| == 0 then []
    else (if ms[0].Delivery? then [ms[0]] else []) + Deliveries(ms[1..])
  }

  lemma {:induction false} DeliveriesAppend(a: seq<QueuedMessage>, b: seq<QueuedMessage>)
    ensures Deliveries(a + b) == Deliveries(a) + Deliveries(b)
    decreases |a|
  {
    if |a| > 0 {
      assert (a + b)[1..] == a[1..] + b;
      DeliveriesAppend(a[1..], b);
    } else {
      assert a + b == b;
    }
  }

  /** The messages one iteration attempted, as a sequence. */
  function Attempted(s: Step): seq<QueuedMessage> {
    if s.attempted.Some? then [s.attempted.value] else []
  }

  /** Without throttling, one iteration takes at most the normal lane's head, and only from it. */
  lemma StepIsFifo(p: Processor, baseline: nat, outcome: SendOutcome)
    requires LanesHold(p) && !outcome.Throttled?
    ensures var s := StepOnce(p, baseline, outcome);
      Deliveries(Attempted(s)) + s.next.normal == p.normal
  {
  }

  /**
    Without throttling, the normal lane is served in FIFO order: the
    deliveries attempted, followed by what is still waiting, are exactly the
    normal lane the run started with, each attempted once.
   */
  lemma {:induction false} NormalLaneIsFifo(p: Processor, baseline: nat, outcomes: seq<SendOutcome>)
    requires LanesHold(p)
    requires forall i :: 0 <= i < |outcomes| ==> !outcomes[i].Throttled?
    ensures var run := RunSteps(p, baseline, outcomes);
      Deliveries(run.attempts) + run.final.normal == p.normal
    decreases |outcomes|
  {
    if |outcomes| > 0 {
      StepKeepsLanes(p, baseline, outcomes[0]);
      NormalLaneIsFifo(StepOnce(p, baseline, outcomes[0]).next, baseline, outcomes[1..]);
      FifoExtends(p, baseline, outcomes);
    }
  }

  /** The FIFO property of a run follows from the same property of its tail. */
  lemma FifoExtends(p: Processor, baseline: nat, outcomes: seq<SendOutcome>)
    requires LanesHold(p) && |outcomes| > 0 && !outcomes[0].Throttled?
    requires var rest := RunSteps(StepOnce(p, baseline, outcomes[0]).next, baseline, outcomes[1..]);
      Deliveries(rest.attempts) + rest.final.normal == StepOnce(p, baseline, outcomes[0]).next.normal
    ensures var run := RunSteps(p, baseline, outcomes);
      Deliveries(run.attempts) + run.final.normal == p.normal
  {
    var s := StepOnce(p, baseline, outcomes[0]);
    var rest := RunSteps(s.next, baseline, outcomes[1..]);
    var run := RunSteps(p, baseline, outcomes);
    assert run.attempts == Attempted(s) + rest.attempts && run.final == rest.final;
    assert Deliveries(Attempted(s)) + s.next.normal == p.normal by {
      StepIsFifo(p, baseline, outcomes[0]);
    }
    DeliveriesAppend(Attempted(s), rest.attempts);
    Regroup(Deliveries(Attempted(s)), Deliveries(rest.attempts), rest.final.normal);
  }

  lemma Regroup<T>(a: seq<T>, b: seq<T>, c: seq<T>)
    ensures (a + b) + c == a + (b + c)
  {
  }

  // ----- pacing -----

  /** Both lanes are empty: the iteration only sleeps. */
  predicate Idle(p: Processor) {
    p.priority == [] && p.normal == []
  }

  /**
    How long an iteration sleeps, as written: only an idle iteration sleeps,
    for the delay captured at start. The doubled `sleep_time` is read only by
    the outer error handler, which a failed send never reaches.
   */
  function WaitAsWritten(p: Processor, baseline: nat, outcome: SendOutcome): nat {
    if Idle(p) then baseline else 0
  }

  /** The pacing the doubled delay is for: a throttled send sleeps the new delay before its retry. */
  function PacedWait(p: Processor, baseline: nat, outcome: SendOutcome): nat {
    if Idle(p) then baseline
    else if outcome.Throttled? then 2 * p.sleepTime
    else 0
  }

  /** The time a run spends sleeping, as written or paced. */
  function RunWait(p: Processor, baseline: nat, outcomes: seq<SendOutcome>, paced: bool): nat
    decreases |outcomes|
  {
    if |outcomes| == 0 then 0
    else
      (if paced then PacedWait(p, baseline, outcomes[0]) else WaitAsWritten(p, baseline, outcomes[0]))
      + RunWait(StepOnce(p, baseline, outcomes[0]).next, baseline, outcomes[1..], paced)
  }

  /** The idle iterations of a run. */
  function Idles(p: Processor, baseline: nat, outcomes: seq<SendOutcome>): nat
    decreases |outcomes|
  {
    if |outcomes| == 0 then 0
    else (if Idle(p) then 1 else 0) + Idles(StepOnce(p, baseline, outcomes[0]).next, baseline, outcomes[1..])
  }

  /** The throttled sends of a run. */
  function Throttles(p: Processor, baseline: nat, outcomes: seq<SendOutcome>): nat
    decreases |outcomes|
  {
    if |outcomes| == 0 then 0
    else (if !Idle(p) && outcomes[0].Throttled? then 1 else 0)
         + Throttles(StepOnce(p, baseline, outcomes[0]).next, baseline, outcomes[1..])
  }

  /**
    As written, a run sleeps only while idle: throttling doubles the delay
    but adds no time between sends.
   */
  lemma {:induction false} AsWrittenWaitIsIdleTime(p: Processor, baseline: nat, outcomes: seq<SendOutcome>)
    ensures RunWait(p, baseline, outcomes, false) == baseline * Idles(p, baseline, outcomes)
    decreases |outcomes|
  {
    if |outcomes| > 0 {
      var next := StepOnce(p, baseline, outcomes[0]).next;
      AsWrittenWaitIsIdleTime(next, baseline, outcomes[1..]);
      Distribute(baseline, if Idle(p) then 1 else 0, Idles(next, baseline, outcomes[1..]));
    }
  }

  lemma AtLeastOnce(a: nat, m: nat)
    requires m >= 1
    ensures a * m >= a
  {
  }

  lemma Distribute(a: nat, x: nat, y: nat)
    ensures a * (x + y) == a * x + a * y
  {
  }

  /**
    One pending delivery throttled three times: the delay reaches eight times
    the baseline, yet as written the three retries follow each other with no
    sleep at all.
   */
  lemma ThrottledRetriesAreNotPaced()
    ensures var p := Processor([], [Delivery("!announce", "$origin", "!private", map[], "@user")], 1);
      var outcomes := [Throttled, Throttled, Throttled];
      && RunSteps(p, 1, outcomes).final.sleepTime == 8
      && Throttles(p, 1, outcomes) == 3
      && RunWait(p, 1, outcomes, false) == 0
  {
  }

  /**
    Paced, a run starting from a delay baseline × 2^k sleeps at least twice the
    baseline for every throttled send, on top of the baseline for every idle
    iteration.
   */
  lemma {:induction false} PacedWaitCoversThrottles(p: Processor, baseline: nat, k: nat, outcomes: seq<SendOutcome>)
    requires p.sleepTime == baseline * Pow2(k)
    ensures RunWait(p, baseline, outcomes, true) >=
      baseline * Idles(p, baseline, outcomes) + 2 * baseline * Throttles(p, baseline, outcomes)
    decreases |outcomes|
  {
    if |outcomes| > 0 {
      var next := StepOnce(p, baseline, outcomes[0]).next;
      StepKeepsBackoff(p, baseline, k, outcomes[0]);
      PacedWaitCoversThrottles(next, baseline, NextExponent(p, k, outcomes[0]), outcomes[1..]);
      Distribute(baseline, if Idle(p) then 1 else 0, Idles(next, baseline, outcomes[1..]));
      Distribute(2 * baseline, if !Idle(p) && outcomes[0].Throttled? then 1 else 0, Throttles(next, baseline, outcomes[1..]));
      AtLeastOnce(baseline, Pow2(k));
    }
  }
}
