/** The message bus: what both implementations promise. Queue handles are
    numbers, a null handle is None; the queues themselves are those of the
    operating system, with bounded room and sends that do not block. */
module MsgBus {
  import opened Words

  const EVENT_SENSOR_MAX := 4
  const EVENT_GROUP_SENSOR := 0x1000
  const MAX_SUBSCRIBERS := 8

  datatype Msg = Msg(topic: nat, payload: seq<byte>)

  datatype Queue = Queue(room: nat, items: seq<Msg>)

  type Queues = map<nat, Queue>

  /** xQueueSend with no timeout: a full queue drops the message. */
  function SendTo(q: Queues, h: nat, m: Msg): Queues {
    if h in q && |q[h].items| < q[h].room then q[h := q[h].(items := q[h].items + [m])] else q
  }

  function SendAll(q: Queues, hs: seq<nat>, m: Msg): Queues {
    if hs == [] then q else SendTo(SendAll(q, hs[..|hs| - 1], m), hs[|hs| - 1], m)
  }

  /** xQueueReceive with no timeout. */
  function Receive(q: Queues, h: nat): (Queues, Option<Msg>) {
    if h in q && q[h].items != [] then (q[h := q[h].(items := q[h].items[1..])], Some(q[h].items[0])) else (q, None)
  }

  /** The subscribers of every topic and of the sensor group, oldest first. */
  datatype Bus = Bus(topics: seq<seq<nat>>, group: seq<nat>)

  predicate ValidBus(b: Bus) {
    && |b.topics| == EVENT_SENSOR_MAX && |b.group| <= MAX_SUBSCRIBERS
    && forall t :: 0 <= t < EVENT_SENSOR_MAX ==> |b.topics[t]| <= MAX_SUBSCRIBERS
  }

  function EmptyBus(): Bus {
    Bus([[], [], [], []], [])
  }

  /** Topic subscribers first, then the group; messages of no topic go nowhere. */
  function PublishAll(b: Bus, q: Queues, m: Msg): Queues
    requires ValidBus(b)
  {
    if m.topic < EVENT_SENSOR_MAX then SendAll(SendAll(q, b.topics[m.topic], m), b.group, m) else q
  }

  function AddTopic(b: Bus, t: nat, h: nat): Bus
    requires ValidBus(b) && t < EVENT_SENSOR_MAX
  {
    b.(topics := b.topics[t := b.topics[t] + [h]])
  }

  datatype Op =
    | Subscribe(topic: nat, handle: Option<nat>)
    | SubscribeGroup(id: nat, handle: Option<nat>)
    | Publish(msg: Option<Msg>)
    | Drain(queue: nat)

  datatype Result = Flag(ok: bool) | Done | Got(msg: Option<Msg>)

  /** What one call does and returns. */
  function Apply(b: Bus, q: Queues, op: Op): (r: (Bus, Queues, Result))
    requires ValidBus(b)
    ensures ValidBus(r.0)
  {
    match op
    case Subscribe(t, h) =>
      if h.None? || t >= EVENT_SENSOR_MAX || |b.topics[t]| == MAX_SUBSCRIBERS then (b, q, Flag(false))
      else (AddTopic(b, t, h.value), q, Flag(true))
    case SubscribeGroup(id, h) =>
      if id != EVENT_GROUP_SENSOR || h.None? || |b.group| == MAX_SUBSCRIBERS then (b, q, Flag(false))
      else (b.(group := b.group + [h.value]), q, Flag(true))
    case Publish(m) =>
      (b, if m.None? then q else PublishAll(b, q, m.value), Done)
    case Drain(h) =>
      (b, Receive(q, h).0, Got(Receive(q, h).1))
  }

  /** The results of a sequence of calls. */
  function Results(b: Bus, q: Queues, ops: seq<Op>): seq<Result>
    requires ValidBus(b)
    decreases ops
  {
    if ops == [] then []
    else
      var (b', q', r) := Apply(b, q, ops[0]);
      [r] + Results(b', q', ops[1..])
  }

  // -------------------------------------------------------------- deliveries

  function Occurrences(hs: seq<nat>, h: nat): nat {
    if hs == [] then 0 else Occurrences(hs[..|hs| - 1], h) + if hs[|hs| - 1] == h then 1 else 0
  }

  function Copies(m: Msg, n: nat): (s: seq<Msg>)
    ensures |s| == n
  {
    seq(n, _ => m)
  }

  /** A queue gets one copy for each of its subscriptions, as far as it has
      room; all other queues keep what they hold. */
  lemma {:induction false} Delivery(q: Queues, hs: seq<nat>, m: Msg, h: nat)
    requires h in q && |q[h].items| <= q[h].room
    ensures
      var t := SendAll(q, hs, m);
      && t.Keys == q.Keys && t[h].room == q[h].room
      && t[h].items == q[h].items + Copies(m, Min(Occurrences(hs, h), q[h].room - |q[h].items|))
  {
    if hs == [] {
      assert q[h].items + [] == q[h].items;
    } else {
      var init := hs[..|hs| - 1];
      Delivery(q, init, m, h);
      var n := Min(Occurrences(init, h), q[h].room - |q[h].items|);
      assert Copies(m, n) + [m] == Copies(m, n + 1);
      assert (q[h].items + Copies(m, n)) + [m] == q[h].items + (Copies(m, n) + [m]);
    }
  }

  lemma {:induction false} OccurrencesAppend(a: seq<nat>, b: seq<nat>, h: nat)
    ensures Occurrences(a + b, h) == Occurrences(a, h) + Occurrences(b, h)
    decreases |b|
  {
    if b == [] {
      assert a + b == a;
    } else {
      OccurrencesAppend(a, b[..|b| - 1], h);
      assert (a + b)[..|a + b| - 1] == a + b[..|b| - 1];
    }
  }

  /** Publishing: one copy for each subscription to the topic or to the group. */
  lemma PublishDelivers(b: Bus, q: Queues, m: Msg, h: nat)
    requires ValidBus(b) && h in q && |q[h].items| <= q[h].room
    ensures
      var n := if m.topic < EVENT_SENSOR_MAX then Occurrences(b.topics[m.topic] + b.group, h) else 0;
      && h in PublishAll(b, q, m)
      && PublishAll(b, q, m)[h].items == q[h].items + Copies(m, Min(n, q[h].room - |q[h].items|))
  {
    if m.topic < EVENT_SENSOR_MAX {
      var hs := b.topics[m.topic];
      OccurrencesAppend(hs, b.group, h);
      Delivery(q, hs, m, h);
      var t := SendAll(q, hs, m);
      var n := Min(Occurrences(hs, h), q[h].room - |q[h].items|);
      assert |t[h].items| == |q[h].items| + n;
      Delivery(t, b.group, m, h);
      var k := Min(Occurrences(b.group, h), t[h].room - |t[h].items|);
      assert Copies(m, n) + Copies(m, k) == Copies(m, n + k);
    }
  }

  // ----------------------------------------------------------- subscriptions

  /** The handles in a row of slots: hs first, the rest null. */
  ghost predicate RowHolds(slots: array2<Option<nat>>, t: nat, hs: seq<nat>)
    requires t < slots.Length0
    reads slots
  {
    && |hs| <= slots.Length1
    && forall i :: 0 <= i < slots.Length1 ==> slots[t, i] == if i < |hs| then Some(hs[i]) else None
  }

  ghost predicate SlotsHold(slots: array<Option<nat>>, hs: seq<nat>)
    reads slots
  {
    && |hs| <= slots.Length
    && forall i :: 0 <= i < slots.Length ==> slots[i] == if i < |hs| then Some(hs[i]) else None
  }

  lemma SendOneMore(q: Queues, hs: seq<nat>, i: nat, m: Msg)
    requires i < |hs|
    ensures SendAll(q, hs[..i + 1], m) == SendTo(SendAll(q, hs[..i], m), hs[i], m)
  {
    assert hs[..i + 1][..i] == hs[..i];
  }
}
