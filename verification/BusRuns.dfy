/** What the message bus promises over whole runs, told by the calls and their
    results only. */
module BusRuns {
  import opened Words
  import opened MsgBus

  /** The bus and the queues after some calls on an empty bus. */
  function After(q: Queues, ops: seq<Op>): (r: (Bus, Queues))
    ensures ValidBus(r.0)
    decreases |ops|
  {
    if ops == [] then (EmptyBus(), q)
    else
      var (b, t) := After(q, ops[..|ops| - 1]);
      (Apply(b, t, ops[|ops| - 1]).0, Apply(b, t, ops[|ops| - 1]).1)
  }

  /** What call i returned. */
  function ResultOf(q: Queues, ops: seq<Op>, i: nat): Result
    requires i < |ops|
  {
    var (b, t) := After(q, ops[..i]);
    Apply(b, t, ops[i]).2
  }

  /** Call i reported success, and subscribed to topic t. */
  predicate JoinedTopic(q: Queues, ops: seq<Op>, i: nat, t: nat)
    requires i < |ops|
  {
    ops[i].Subscribe? && ops[i].topic == t && ResultOf(q, ops, i) == Flag(true)
  }

  predicate JoinedGroup(q: Queues, ops: seq<Op>, i: nat)
    requires i < |ops|
  {
    ops[i].SubscribeGroup? && ResultOf(q, ops, i) == Flag(true)
  }

  /** How many of the first n calls subscribed to the topic; those with handle h. */
  function TopicJoins(q: Queues, ops: seq<Op>, t: nat, n: nat): nat
    requires n <= |ops|
  {
    if n == 0 then 0 else TopicJoins(q, ops, t, n - 1) + if JoinedTopic(q, ops, n - 1, t) then 1 else 0
  }

  function TopicJoinsOf(q: Queues, ops: seq<Op>, t: nat, h: nat, n: nat): nat
    requires n <= |ops|
  {
    if n == 0 then 0
    else
      TopicJoinsOf(q, ops, t, h, n - 1)
      + if JoinedTopic(q, ops, n - 1, t) && ops[n - 1].handle == Some(h) then 1 else 0
  }

  function GroupJoins(q: Queues, ops: seq<Op>, n: nat): nat
    requires n <= |ops|
  {
    if n == 0 then 0 else GroupJoins(q, ops, n - 1) + if JoinedGroup(q, ops, n - 1) then 1 else 0
  }

  function GroupJoinsOf(q: Queues, ops: seq<Op>, h: nat, n: nat): nat
    requires n <= |ops|
  {
    if n == 0 then 0
    else
      GroupJoinsOf(q, ops, h, n - 1)
      + if JoinedGroup(q, ops, n - 1) && ops[n - 1].handle == Some(h) then 1 else 0
  }

  // ----------------------------------------- the bus is what was subscribed

  lemma AfterOneMore(q: Queues, ops: seq<Op>, n: nat)
    requires n < |ops|
    ensures After(q, ops[..n + 1]) == (Apply(After(q, ops[..n]).0, After(q, ops[..n]).1, ops[n]).0,
                                       Apply(After(q, ops[..n]).0, After(q, ops[..n]).1, ops[n]).1)
    ensures ResultOf(q, ops, n) == Apply(After(q, ops[..n]).0, After(q, ops[..n]).1, ops[n]).2
  {
    hide Apply;
    assert ops[..n + 1][..n] == ops[..n];
  }

  lemma OneMore(hs: seq<nat>, h: nat, g: nat)
    ensures Occurrences(hs + [h], g) == Occurrences(hs, g) + if h == g then 1 else 0
  {
    assert (hs + [h])[..|hs|] == hs;
  }

  /** How one call changes the subscribers of a topic, and what it returns. */
  lemma TopicStep(b: Bus, q: Queues, op: Op, t: nat)
    requires ValidBus(b) && t < EVENT_SENSOR_MAX
    ensures
      var joins := op.Subscribe? && op.topic == t && op.handle.Some? && |b.topics[t]| < MAX_SUBSCRIBERS;
      && ValidBus(Apply(b, q, op).0)
      && Apply(b, q, op).0.topics[t] == (if joins then b.topics[t] + [op.handle.value] else b.topics[t])
      && (op.Subscribe? && op.topic == t ==> Apply(b, q, op).2 == Flag(joins))
  {
  }

  lemma GroupStep(b: Bus, q: Queues, op: Op)
    requires ValidBus(b)
    ensures
      var joins := op.SubscribeGroup? && op.id == EVENT_GROUP_SENSOR && op.handle.Some? && |b.group| < MAX_SUBSCRIBERS;
      && Apply(b, q, op).0.group == (if joins then b.group + [op.handle.value] else b.group)
      && (op.SubscribeGroup? ==> Apply(b, q, op).2 == Flag(joins))
  {
  }

  lemma {:induction false} TopicCounts(q: Queues, ops: seq<Op>, t: nat, h: nat, n: nat)
    requires n <= |ops| && t < EVENT_SENSOR_MAX
    ensures
      var b := After(q, ops[..n]).0;
      |b.topics[t]| == TopicJoins(q, ops, t, n) && Occurrences(b.topics[t], h) == TopicJoinsOf(q, ops, t, h, n)
  {
    hide Apply, Occurrences, ResultOf;
    if n == 0 {
      NoneYet(q, ops, h);
    } else {
      TopicCounts(q, ops, t, h, n - 1);
      var (b, r) := After(q, ops[..n - 1]);
      AfterOneMore(q, ops, n - 1);
      TopicStep(b, r, ops[n - 1], t);
      if JoinedTopic(q, ops, n - 1, t) {
        OneMore(b.topics[t], ops[n - 1].handle.value, h);
      }
    }
  }

  lemma NoneYet(q: Queues, ops: seq<Op>, h: nat)
    ensures After(q, ops[..0]).0 == EmptyBus() && Occurrences([], h) == 0
  {
    assert ops[..0] == [];
  }

  lemma {:induction false} GroupCounts(q: Queues, ops: seq<Op>, h: nat, n: nat)
    requires n <= |ops|
    ensures
      var b := After(q, ops[..n]).0;
      |b.group| == GroupJoins(q, ops, n) && Occurrences(b.group, h) == GroupJoinsOf(q, ops, h, n)
  {
    hide Apply, Occurrences, ResultOf;
    if n == 0 {
      NoneYet(q, ops, h);
    } else {
      GroupCounts(q, ops, h, n - 1);
      var (b, r) := After(q, ops[..n - 1]);
      AfterOneMore(q, ops, n - 1);
      GroupStep(b, r, ops[n - 1]);
      if JoinedGroup(q, ops, n - 1) {
        OneMore(b.group, ops[n - 1].handle.value, h);
      }
    }
  }

  // ------------------------------------------------------------- results

  /** A subscription to a topic succeeds if and only if the handle is not null, the
      topic is known, and fewer than eight earlier ones to it succeeded. */
  lemma SubscribeSucceedsIff(q: Queues, ops: seq<Op>, i: nat)
    requires i < |ops| && ops[i].Subscribe?
    ensures ResultOf(q, ops, i) == Flag(true)
       <==> ops[i].handle.Some? && ops[i].topic < EVENT_SENSOR_MAX && TopicJoins(q, ops, ops[i].topic, i) < 8
    ensures ResultOf(q, ops, i) == Flag(true) || ResultOf(q, ops, i) == Flag(false)
  {
    var (b, r) := After(q, ops[..i]);
    if ops[i].topic < EVENT_SENSOR_MAX {
      TopicCounts(q, ops, ops[i].topic, 0, i);
      TopicStep(b, r, ops[i], ops[i].topic);
    }
  }

  lemma GroupSucceedsIff(q: Queues, ops: seq<Op>, i: nat)
    requires i < |ops| && ops[i].SubscribeGroup?
    ensures ResultOf(q, ops, i) == Flag(true)
       <==> ops[i].handle.Some? && ops[i].id == EVENT_GROUP_SENSOR && GroupJoins(q, ops, i) < 8
    ensures ResultOf(q, ops, i) == Flag(true) || ResultOf(q, ops, i) == Flag(false)
  {
    var (b, r) := After(q, ops[..i]);
    GroupCounts(q, ops, 0, i);
    GroupStep(b, r, ops[i]);
  }

  predicate WithinRoom(q: Queues) {
    forall h :: h in q ==> |q[h].items| <= q[h].room
  }

  lemma {:induction false} SendsKeepRoom(q: Queues, hs: seq<nat>, m: Msg)
    requires WithinRoom(q)
    ensures WithinRoom(SendAll(q, hs, m)) && SendAll(q, hs, m).Keys == q.Keys
    decreases |hs|
  {
    if hs != [] {
      SendsKeepRoom(q, hs[..|hs| - 1], m);
    }
  }

  lemma StepKeepsRoom(b: Bus, q: Queues, op: Op)
    requires ValidBus(b) && WithinRoom(q)
    ensures WithinRoom(Apply(b, q, op).1) && Apply(b, q, op).1.Keys == q.Keys
  {
    if op.Publish? && op.msg.Some? && op.msg.value.topic < EVENT_SENSOR_MAX {
      hide WithinRoom, SendAll;
      SendsKeepRoom(q, b.topics[op.msg.value.topic], op.msg.value);
      SendsKeepRoom(SendAll(q, b.topics[op.msg.value.topic], op.msg.value), b.group, op.msg.value);
    }
  }

  lemma {:induction false} RunKeepsRoom(q: Queues, ops: seq<Op>)
    requires WithinRoom(q)
    ensures WithinRoom(After(q, ops).1) && After(q, ops).1.Keys == q.Keys
    decreases |ops|
  {
    hide Apply, WithinRoom;
    if ops != [] {
      var n := |ops| - 1;
      RunKeepsRoom(q, ops[..n]);
      StepKeepsRoom(After(q, ops[..n]).0, After(q, ops[..n]).1, ops[n]);
    }
  }

  /** After any calls, a publication adds to a queue one copy for each successful
      subscription of its handle to the topic, and one for each to the group, as
      far as there is room. */
  lemma PublicationsArrive(q: Queues, ops: seq<Op>, m: Msg, h: nat)
    requires WithinRoom(q) && h in q
    ensures
      var (b, t) := After(q, ops);
      var n := if m.topic < EVENT_SENSOR_MAX
               then TopicJoinsOf(q, ops, m.topic, h, |ops|) + GroupJoinsOf(q, ops, h, |ops|) else 0;
      var sent := Apply(b, t, Publish(Some(m))).1;
      h in t && h in sent && |t[h].items| <= t[h].room
      && sent[h].items == t[h].items + Copies(m, Min(n, t[h].room - |t[h].items|))
  {
    hide Occurrences, After, TopicJoinsOf, GroupJoinsOf, PublishAll;
    var (b, t) := After(q, ops);
    RunKeepsRoom(q, ops);
    assert ops[..|ops|] == ops;
    PublishDelivers(b, t, m, h);
    if m.topic < EVENT_SENSOR_MAX {
      TopicCounts(q, ops, m.topic, h, |ops|);
      GroupCounts(q, ops, h, |ops|);
      OccurrencesAppend(b.topics[m.topic], b.group, h);
    }
  }

  /** These are the results that both buses return. */
  lemma {:induction false} ResultsAre(q: Queues, ops: seq<Op>, done: nat)
    requires done <= |ops|
    ensures
      var (b, t) := After(q, ops[..done]);
      |Results(b, t, ops[done..])| == |ops| - done
      && forall i :: done <= i < |ops| ==> Results(b, t, ops[done..])[i - done] == ResultOf(q, ops, i)
    decreases |ops| - done
  {
    hide Apply, ResultOf;
    if done < |ops| {
      var (b, t) := After(q, ops[..done]);
      AfterOneMore(q, ops, done);
      ResultsAre(q, ops, done + 1);
      assert ops[done..][0] == ops[done] && ops[done..][1..] == ops[done + 1..];
    }
  }

  lemma SameResults(q: Queues, ops: seq<Op>, i: nat)
    requires i < |ops|
    ensures i < |Results(EmptyBus(), q, ops)| && Results(EmptyBus(), q, ops)[i] == ResultOf(q, ops, i)
  {
    hide Apply, ResultOf, Results;
    ResultsAre(q, ops, 0);
    assert ops[..0] == [] && ops[0..] == ops;
  }
}
