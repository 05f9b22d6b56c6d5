/** The two buses: file-static arrays and free functions in C (msg_bus.c), one
    object in C++ (MessageBus.cpp), each with its own loops. Both do what module
    MsgBus says, so that no sequence of calls tells them apart. The mutex makes
    every call atomic. */
module MsgBusImpl {
  import opened Words
  import opened MsgBus

  /** The queues of the operating system. */
  class Rtos {
    var queues: Queues

    constructor (queues: Queues)
      ensures this.queues == queues
    {
      this.queues := queues;
    }

    method QueueSend(h: nat, m: Msg)
      modifies this
      ensures queues == SendTo(old(queues), h, m)
    {
      queues := SendTo(queues, h, m);
    }

    method QueueReceive(h: nat) returns (m: Option<Msg>)
      modifies this
      ensures (queues, m) == Receive(old(queues), h)
    {
      var (q, r) := Receive(queues, h);
      queues := q;
      m := r;
    }
  }

  /** The arrays of a bus and the subscribers that they hold. */
  ghost predicate Holds(subs: array2<Option<nat>>, group: array<Option<nat>>, count: nat, b: Bus)
    reads subs, group
  {
    && subs.Length0 == EVENT_SENSOR_MAX && subs.Length1 == MAX_SUBSCRIBERS && group.Length == MAX_SUBSCRIBERS
    && ValidBus(b) && count == |b.group| && SlotsHold(group, b.group)
    && forall t :: 0 <= t < EVENT_SENSOR_MAX ==> RowHolds(subs, t, b.topics[t])
  }

  /** msg_bus.c. */
  class CBus {
    const rtos: Rtos
    const subscriberQueues: array2<Option<nat>>
    const groupQueues: array<Option<nat>>
    var groupQueueCount: nat
    ghost var bus: Bus

    ghost predicate Valid()
      reads this, subscriberQueues, groupQueues
    {
      Holds(subscriberQueues, groupQueues, groupQueueCount, bus)
    }

    constructor (rtos: Rtos)
      ensures Valid() && bus == EmptyBus() && this.rtos == rtos && fresh(subscriberQueues) && fresh(groupQueues)
    {
      this.rtos := rtos;
      subscriberQueues := new Option<nat>[EVENT_SENSOR_MAX, MAX_SUBSCRIBERS]((_, _) => None);
      groupQueues := new Option<nat>[MAX_SUBSCRIBERS](_ => None);
      groupQueueCount := 0;
      bus := EmptyBus();
    }

    /** get_group_id. */
    static function GroupId(topic: nat): (id: nat)
      ensures id == EVENT_GROUP_SENSOR <==> topic < EVENT_SENSOR_MAX
    {
      if topic < EVENT_SENSOR_MAX then EVENT_GROUP_SENSOR else 0xFFFF
    }

    /** msg_bus_publish. */
    method Publish(msg: Option<Msg>)
      requires Valid()
      modifies rtos
      ensures Valid() && (bus, rtos.queues, Done) == Apply(old(bus), old(rtos.queues), Op.Publish(msg))
    {
      if msg.None? {
        return;
      }
      if msg.value.topic < EVENT_SENSOR_MAX {
        SendTopic(msg.value);
      }
      var group := GroupId(msg.value.topic);
      if group == EVENT_GROUP_SENSOR {
        SendGroup(msg.value);
      }
    }

    /** The topic part of msg_bus_publish. */
    method SendTopic(m: Msg)
      requires Valid() && m.topic < EVENT_SENSOR_MAX
      modifies rtos
      ensures Valid() && rtos.queues == SendAll(old(rtos.queues), bus.topics[m.topic], m)
    {
      ghost var hs := bus.topics[m.topic];
      for i := 0 to MAX_SUBSCRIBERS
        invariant rtos.queues == SendAll(old(rtos.queues), hs[..Min(i, |hs|)], m)
      {
        if subscriberQueues[m.topic, i] != None {
          SendOneMore(old(rtos.queues), hs, i, m);
          rtos.QueueSend(subscriberQueues[m.topic, i].value, m);
        }
      }
      assert hs[..|hs|] == hs;
    }

    /** Its group part. */
    method SendGroup(m: Msg)
      requires Valid()
      modifies rtos
      ensures Valid() && rtos.queues == SendAll(old(rtos.queues), bus.group, m)
    {
      for i := 0 to groupQueueCount
        invariant rtos.queues == SendAll(old(rtos.queues), bus.group[..i], m)
      {
        if groupQueues[i] != None {
          SendOneMore(old(rtos.queues), bus.group, i, m);
          rtos.QueueSend(groupQueues[i].value, m);
        }
      }
      assert bus.group[..|bus.group|] == bus.group;
    }

    /** msg_bus_subscribe. */
    method Subscribe(topic: nat, queue: Option<nat>) returns (ok: bool)
      requires Valid()
      modifies this`bus, subscriberQueues
      ensures Valid() && (bus, rtos.queues, Flag(ok)) == Apply(old(bus), rtos.queues, Op.Subscribe(topic, queue))
    {
      if queue.None? || topic >= EVENT_SENSOR_MAX {
        return false;
      }
      ghost var hs := bus.topics[topic];
      for i := 0 to MAX_SUBSCRIBERS
        invariant Valid() && bus == old(bus) && |hs| >= i
      {
        if subscriberQueues[topic, i] == None {
          subscriberQueues[topic, i] := queue;
          bus := AddTopic(bus, topic, queue.value);
          return true;
        }
      }
      ok := false;
    }

    /** msg_bus_subscribe_group: the first free slot. */
    method SubscribeGroup(id: nat, queue: Option<nat>) returns (ok: bool)
      requires Valid()
      modifies this`bus, this`groupQueueCount, groupQueues
      ensures Valid() && (bus, rtos.queues, Flag(ok)) == Apply(old(bus), rtos.queues, Op.SubscribeGroup(id, queue))
    {
      if id != EVENT_GROUP_SENSOR || queue.None? {
        return false;
      }
      for i := 0 to MAX_SUBSCRIBERS
        invariant Valid() && bus == old(bus) && forall k :: 0 <= k < i ==> groupQueues[k].Some?
      {
        if groupQueues[i].None? {
          assert i > 0 ==> groupQueues[i - 1].Some?;
          assert i == |bus.group|;
          groupQueues[i] := queue;
          groupQueueCount := groupQueueCount + 1;
          bus := bus.(group := bus.group + [queue.value]);
          return true;
        }
      }
      assert groupQueues[MAX_SUBSCRIBERS - 1].Some?;
      ok := false;
    }
  }

  /** MessageBus.cpp. */
  class MessageBus {
    const rtos: Rtos
    const topicSubs: array2<Option<nat>>
    const groupSubs: array<Option<nat>>
    var groupCount: nat
    ghost var bus: Bus

    ghost predicate Valid()
      reads this, topicSubs, groupSubs
    {
      Holds(topicSubs, groupSubs, groupCount, bus)
    }

    constructor (rtos: Rtos)
      ensures Valid() && bus == EmptyBus() && this.rtos == rtos && fresh(topicSubs) && fresh(groupSubs)
    {
      this.rtos := rtos;
      topicSubs := new Option<nat>[EVENT_SENSOR_MAX, MAX_SUBSCRIBERS]((_, _) => None);
      groupSubs := new Option<nat>[MAX_SUBSCRIBERS](_ => None);
      groupCount := 0;
      bus := EmptyBus();
    }

    /** group_of. */
    static function GroupOf(topic: nat): (id: nat)
      ensures id == EVENT_GROUP_SENSOR <==> topic < EVENT_SENSOR_MAX
    {
      if topic < EVENT_SENSOR_MAX then EVENT_GROUP_SENSOR else 0xFFFF
    }

    /** monet_cpp_bus_publish. */
    method Publish(msg: Option<Msg>)
      requires Valid()
      modifies rtos
      ensures Valid() && (bus, rtos.queues, Done) == Apply(old(bus), old(rtos.queues), Op.Publish(msg))
    {
      if msg.Some? {
        FanOut(msg.value);
      }
    }

    /** publish. */
    method FanOut(m: Msg)
      requires Valid()
      modifies rtos
      ensures Valid() && rtos.queues == PublishAll(bus, old(rtos.queues), m)
    {
      ghost var q := rtos.queues;
      if m.topic < EVENT_SENSOR_MAX {
        ghost var hs := bus.topics[m.topic];
        for i := 0 to MAX_SUBSCRIBERS
          invariant rtos.queues == SendAll(q, hs[..Min(i, |hs|)], m)
        {
          if topicSubs[m.topic, i].Some? {
            SendOneMore(q, hs, i, m);
            rtos.QueueSend(topicSubs[m.topic, i].value, m);
          }
        }
        assert hs[..|hs|] == hs;
      }
      if GroupOf(m.topic) == EVENT_GROUP_SENSOR {
        ghost var r := rtos.queues;
        for i := 0 to groupCount
          invariant rtos.queues == SendAll(r, bus.group[..i], m)
        {
          if groupSubs[i].Some? {
            SendOneMore(r, bus.group, i, m);
            rtos.QueueSend(groupSubs[i].value, m);
          }
        }
        assert bus.group[..groupCount] == bus.group;
      }
    }

    /** subscribe. */
    method Subscribe(topic: nat, queue: Option<nat>) returns (ok: bool)
      requires Valid()
      modifies this`bus, topicSubs
      ensures Valid() && (bus, rtos.queues, Flag(ok)) == Apply(old(bus), rtos.queues, Op.Subscribe(topic, queue))
    {
      if queue.None? || topic >= EVENT_SENSOR_MAX {
        return false;
      }
      for i := 0 to MAX_SUBSCRIBERS
        invariant Valid() && bus == old(bus) && i <= |bus.topics[topic]|
      {
        if topicSubs[topic, i].None? {
          topicSubs[topic, i] := queue;
          bus := AddTopic(bus, topic, queue.value);
          return true;
        }
      }
      ok := false;
    }

    /** subscribe_group: the slot that the count points to. */
    method SubscribeGroup(id: nat, queue: Option<nat>) returns (ok: bool)
      requires Valid()
      modifies this`bus, this`groupCount, groupSubs
      ensures Valid() && (bus, rtos.queues, Flag(ok)) == Apply(old(bus), rtos.queues, Op.SubscribeGroup(id, queue))
    {
      if id != EVENT_GROUP_SENSOR || queue.None? {
        return false;
      }
      if groupCount >= MAX_SUBSCRIBERS {
        return false;
      }
      groupSubs[groupCount] := queue;
      groupCount := groupCount + 1;
      bus := bus.(group := bus.group + [queue.value]);
      ok := true;
    }
  }

  method CallC(b: CBus, op: Op) returns (r: Result)
    requires b.Valid()
    modifies b, b.subscriberQueues, b.groupQueues, b.rtos
    ensures b.Valid() && (b.bus, b.rtos.queues, r) == Apply(old(b.bus), old(b.rtos.queues), op)
  {
    match op
    case Subscribe(t, h) => var ok := b.Subscribe(t, h); r := Flag(ok);
    case SubscribeGroup(id, h) => var ok := b.SubscribeGroup(id, h); r := Flag(ok);
    case Publish(m) => b.Publish(m); r := Done;
    case Drain(h) => var m := b.rtos.QueueReceive(h); r := Got(m);
  }

  method CallCpp(b: MessageBus, op: Op) returns (r: Result)
    requires b.Valid()
    modifies b, b.topicSubs, b.groupSubs, b.rtos
    ensures b.Valid() && (b.bus, b.rtos.queues, r) == Apply(old(b.bus), old(b.rtos.queues), op)
  {
    match op
    case Subscribe(t, h) => var ok := b.Subscribe(t, h); r := Flag(ok);
    case SubscribeGroup(id, h) => var ok := b.SubscribeGroup(id, h); r := Flag(ok);
    case Publish(m) => b.Publish(m); r := Done;
    case Drain(h) => var m := b.rtos.QueueReceive(h); r := Got(m);
  }

  /** Observational equivalence: from the same queues, the same calls return
      the same results, and leave the same messages in every queue. */
  method SameRun(queues: Queues, ops: seq<Op>)
    returns (c: seq<Result>, cpp: seq<Result>, queuesC: Queues, queuesCpp: Queues)
    ensures c == cpp == Results(EmptyBus(), queues, ops)
    ensures queuesC == queuesCpp
  {
    hide Apply, Results, Holds;
    var rtosC := new Rtos(queues);
    var rtosCpp := new Rtos(queues);
    var busC := new CBus(rtosC);
    var busCpp := new MessageBus(rtosCpp);
    c, cpp := [], [];
    assert ops[0..] == ops && [] + Results(EmptyBus(), queues, ops) == Results(EmptyBus(), queues, ops);
    for i := 0 to |ops|
      invariant busC.Valid() && busCpp.Valid() && ValidBus(busC.bus)
      invariant busC.bus == busCpp.bus && rtosC.queues == rtosCpp.queues
      invariant c == cpp && Results(EmptyBus(), queues, ops) == c + Results(busC.bus, rtosC.queues, ops[i..])
    {
      ResultsStep(busC.bus, rtosC.queues, ops[i..], c);
      assert ops[i..][1..] == ops[i + 1..];
      var r := CallC(busC, ops[i]);
      var s := CallCpp(busCpp, ops[i]);
      c, cpp := c + [r], cpp + [s];
    }
    ResultsEnd(busC.bus, rtosC.queues, c);
    queuesC, queuesCpp := rtosC.queues, rtosCpp.queues;
  }

  lemma ResultsStep(b: Bus, q: Queues, ops: seq<Op>, done: seq<Result>)
    requires ValidBus(b) && ops != []
    ensures
      var (b', q', r) := Apply(b, q, ops[0]);
      ValidBus(b') && done + Results(b, q, ops) == (done + [r]) + Results(b', q', ops[1..])
  {
    hide Apply;
  }

  lemma ResultsEnd(b: Bus, q: Queues, done: seq<Result>)
    requires ValidBus(b)
    ensures done + Results(b, q, []) == done
  {
  }
}
