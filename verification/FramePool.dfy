/** The frame buffers of cam_hal.c and who has them: the operations on the pool
    of frames and on the frame queue, and what each of them keeps. */
module FramePool {
  import opened Words

  /** cam_frame_t: data is the part of the buffer below fb.len. stamp numbers
      the captures in the order in which they started. */
  datatype Frame = Frame(en: bool, data: seq<byte>, stamp: nat)

  /** The frames, the queue, who holds which frame, and the stamps of the
      frames taken so far. */
  datatype Pool = Pool(frames: seq<Frame>, queue: seq<nat>, holder: map<nat, nat>, taken: seq<nat>)

  function SetEn(p: Pool, f: nat, en: bool): Pool
    requires f < |p.frames|
  {
    p.(frames := p.frames[f := p.frames[f].(en := en)])
  }

  function SetData(p: Pool, f: nat, data: seq<byte>): Pool
    requires f < |p.frames|
  {
    p.(frames := p.frames[f := p.frames[f].(data := data)])
  }

  function SetStamp(p: Pool, f: nat, stamp: nat): Pool
    requires f < |p.frames|
  {
    p.(frames := p.frames[f := p.frames[f].(stamp := stamp)])
  }

  function Count(b: bool): nat {
    if b then 1 else 0
  }

  /** In how many hands frame f is: free or being filled, in the queue, with a
      consumer, with the capture task on its way into or out of the queue. */
  function Owners(p: Pool, mine: set<nat>, f: nat): nat
    requires f < |p.frames|
  {
    Count(p.frames[f].en) + Count(f in p.queue) + Count(f in p.holder) + Count(f in mine)
  }

  predicate Shape(n: nat, cap: nat, p: Pool, mine: set<nat>) {
    && |p.frames| == n && |p.queue| <= cap
    && (forall i :: 0 <= i < |p.queue| ==> p.queue[i] < n)
    && (forall i, j :: 0 <= i < j < |p.queue| ==> p.queue[i] != p.queue[j])
    && (forall f :: f in p.holder ==> f < n)
    && (forall f :: f in mine ==> f < n)
  }

  predicate OneOwner(p: Pool, mine: set<nat>) {
    forall f :: 0 <= f < |p.frames| ==> Owners(p, mine, f) == 1
  }

  predicate Stamped(p: Pool) {
    forall i :: 0 <= i < |p.queue| ==> p.queue[i] < |p.frames|
  }

  function QueueStamp(p: Pool, i: nat): nat
    requires Stamped(p) && i < |p.queue|
  {
    p.frames[p.queue[i]].stamp
  }

  /** Captures leave in the order in which they started. */
  predicate Ordered(p: Pool, clock: nat) {
    && Stamped(p)
    && (forall f :: 0 <= f < |p.frames| ==> p.frames[f].stamp <= clock)
    && (forall i, j :: 0 <= i < j < |p.queue| ==> QueueStamp(p, i) < QueueStamp(p, j))
    && (forall i, j :: 0 <= i < j < |p.taken| ==> p.taken[i] < p.taken[j])
    && (forall i, j :: 0 <= i < |p.taken| && 0 <= j < |p.queue| ==> p.taken[i] < QueueStamp(p, j))
    && (forall i :: 0 <= i < |p.taken| ==> p.taken[i] <= clock)
  }

  /** Frame f is the latest capture, and was not sent yet. */
  predicate Newest(p: Pool, clock: nat, f: nat) {
    && Stamped(p) && f < |p.frames| && p.frames[f].stamp == clock
    && (forall i :: 0 <= i < |p.queue| ==> QueueStamp(p, i) < clock)
    && (forall i :: 0 <= i < |p.taken| ==> p.taken[i] < clock)
  }

  ghost predicate PoolOk(n: nat, cap: nat, p: Pool, mine: set<nat>, clock: nat) {
    Shape(n, cap, p, mine) && OneOwner(p, mine) && Ordered(p, clock)
  }

  // ------------------------------------------------- what every step keeps

  lemma Queued(p: Pool, f: nat, i: nat)
    requires i < |p.queue| && p.queue[i] == f
    ensures f in p.queue
  {
  }

  /** Writing data does not concern the owners. */
  lemma DataPool(n: nat, cap: nat, p: Pool, mine: set<nat>, clock: nat, f: nat, data: seq<byte>)
    requires PoolOk(n, cap, p, mine, clock) && f < n
    ensures PoolOk(n, cap, SetData(p, f, data), mine, clock)
    ensures forall g :: Newest(p, clock, g) ==> Newest(SetData(p, f, data), clock, g)
  {
    var t := SetData(p, f, data);
    SameOwners(p, t, mine);
    SameStamps(p, t, clock);
  }

  lemma SameOwners(p: Pool, t: Pool, mine: set<nat>)
    requires OneOwner(p, mine) && |t.frames| == |p.frames| && t.queue == p.queue && t.holder == p.holder
    requires forall f :: 0 <= f < |t.frames| ==> t.frames[f].en == p.frames[f].en
    ensures OneOwner(t, mine)
  {
    forall f | 0 <= f < |t.frames|
      ensures Owners(t, mine, f) == 1
    {
      assert Owners(p, mine, f) == 1;
    }
  }

  lemma SameStamps(p: Pool, t: Pool, clock: nat)
    requires Ordered(p, clock) && |t.frames| == |p.frames| && t.queue == p.queue && t.taken == p.taken
    requires forall f :: 0 <= f < |t.frames| ==> t.frames[f].stamp == p.frames[f].stamp
    ensures Ordered(t, clock)
    ensures forall g :: Newest(p, clock, g) ==> Newest(t, clock, g)
  {
    assert forall i :: 0 <= i < |t.queue| ==> QueueStamp(t, i) == QueueStamp(p, i);
  }

  /** The capture task disables a frame of its own: now it carries it. */
  lemma DisablePool(n: nat, cap: nat, p: Pool, mine: set<nat>, clock: nat, f: nat)
    requires PoolOk(n, cap, p, mine, clock) && f < n && p.frames[f].en
    ensures PoolOk(n, cap, SetEn(p, f, false), mine + {f}, clock)
    ensures forall g :: Newest(p, clock, g) ==> Newest(SetEn(p, f, false), clock, g)
  {
    var t := SetEn(p, f, false);
    forall g | 0 <= g < n
      ensures Owners(t, mine + {f}, g) == 1
    {
      assert Owners(p, mine, g) == 1;
    }
    SameStamps(p, t, clock);
  }

  /** The capture task enables a frame that it carries. */
  lemma EnablePool(n: nat, cap: nat, p: Pool, mine: set<nat>, clock: nat, f: nat)
    requires PoolOk(n, cap, p, mine, clock) && f in mine
    ensures PoolOk(n, cap, SetEn(p, f, true), mine - {f}, clock)
  {
    var t := SetEn(p, f, true);
    forall g | 0 <= g < n
      ensures Owners(t, mine - {f}, g) == 1
    {
      assert Owners(p, mine, g) == 1;
    }
    SameStamps(p, t, clock);
  }

  /** The capture task sends the newest frame, which it carries. */
  lemma EnqueuePool(n: nat, cap: nat, p: Pool, mine: set<nat>, clock: nat, f: nat)
    requires PoolOk(n, cap, p, mine, clock) && f in mine && Newest(p, clock, f) && |p.queue| < cap
    ensures PoolOk(n, cap, p.(queue := p.queue + [f]), mine - {f}, clock)
  {
    var t := p.(queue := p.queue + [f]);
    assert Owners(p, mine, f) == 1;
    forall i | 0 <= i < |p.queue|
      ensures p.queue[i] != f
    {
      Queued(p, p.queue[i], i);
    }
    forall g | 0 <= g < n
      ensures Owners(t, mine - {f}, g) == 1
    {
      assert Owners(p, mine, g) == 1;
    }
    assert forall i :: 0 <= i < |p.queue| ==> QueueStamp(t, i) == QueueStamp(p, i);
    assert QueueStamp(t, |p.queue|) == clock;
  }

  /** The capture task takes the oldest frame out of the queue. */
  lemma DequeuePool(n: nat, cap: nat, p: Pool, mine: set<nat>, clock: nat)
    requires PoolOk(n, cap, p, mine, clock) && p.queue != []
    ensures PoolOk(n, cap, p.(queue := p.queue[1..]), mine + {p.queue[0]}, clock)
    ensures p.queue[0] !in mine
    ensures forall g :: Newest(p, clock, g) ==> Newest(p.(queue := p.queue[1..]), clock, g)
  {
    var t, f := p.(queue := p.queue[1..]), p.queue[0];
    Queued(p, f, 0);
    assert Owners(p, mine, f) == 1;
    forall g | 0 <= g < n
      ensures Owners(t, mine + {f}, g) == 1
    {
      assert Owners(p, mine, g) == 1;
      assert p.queue == [f] + t.queue;
    }
    assert forall i :: 0 <= i < |t.queue| ==> QueueStamp(t, i) == QueueStamp(p, i + 1);
  }

  function TakeFrame(p: Pool, who: nat): Pool
    requires Stamped(p) && p.queue != []
  {
    Pool(p.frames, p.queue[1..], p.holder[p.queue[0] := who], p.taken + [QueueStamp(p, 0)])
  }

  function GiveFrame(p: Pool, f: nat): Pool
    requires f < |p.frames|
  {
    SetEn(p, f, true).(holder := p.holder - {f})
  }

  lemma TakePool(n: nat, cap: nat, p: Pool, mine: set<nat>, clock: nat, who: nat)
    requires PoolOk(n, cap, p, mine, clock) && p.queue != []
    ensures PoolOk(n, cap, TakeFrame(p, who), mine, clock)
    ensures forall g :: Newest(p, clock, g) ==> Newest(TakeFrame(p, who), clock, g)
  {
    var t, f := TakeFrame(p, who), p.queue[0];
    Queued(p, f, 0);
    forall g | 0 <= g < n
      ensures Owners(t, mine, g) == 1
    {
      assert Owners(p, mine, g) == 1;
      assert p.queue == [f] + t.queue;
    }
    assert forall i :: 0 <= i < |t.queue| ==> QueueStamp(t, i) == QueueStamp(p, i + 1);
  }

  lemma GivePool(n: nat, cap: nat, p: Pool, mine: set<nat>, clock: nat, f: nat)
    requires PoolOk(n, cap, p, mine, clock) && f in p.holder
    ensures PoolOk(n, cap, GiveFrame(p, f), mine, clock)
    ensures forall g :: Newest(p, clock, g) ==> Newest(GiveFrame(p, f), clock, g)
  {
    var t := GiveFrame(p, f);
    forall g | 0 <= g < n
      ensures Owners(t, mine, g) == 1
    {
      assert Owners(p, mine, g) == 1;
    }
    SameStamps(p, t, clock);
  }

  /** A capture starts in a frame that is free: it becomes the newest one. */
  lemma StampPool(n: nat, cap: nat, p: Pool, mine: set<nat>, clock: nat, f: nat)
    requires PoolOk(n, cap, p, mine, clock) && f < n && p.frames[f].en
    ensures PoolOk(n, cap, SetStamp(p, f, clock + 1), mine, clock + 1)
    ensures Newest(SetStamp(p, f, clock + 1), clock + 1, f)
  {
    var t := SetStamp(p, f, clock + 1);
    SameOwners(p, t, mine);
    assert Owners(p, mine, f) == 1;
    forall i | 0 <= i < |t.queue|
      ensures QueueStamp(t, i) == QueueStamp(p, i)
    {
      Queued(p, p.queue[i], i);
    }
  }

  lemma PoolFacts(n: nat, cap: nat, p: Pool, mine: set<nat>, clock: nat)
    requires PoolOk(n, cap, p, mine, clock)
    ensures |p.frames| == n && Stamped(p) && |p.queue| <= cap
  {
  }

  // ---------------------------------------------------------------- counting

  /** Distinct numbers below n. */
  lemma {:induction false} Pigeonhole(q: seq<nat>, n: nat)
    requires forall i :: 0 <= i < |q| ==> q[i] < n
    requires forall i, j :: 0 <= i < j < |q| ==> q[i] != q[j]
    ensures |q| <= n
    decreases n
  {
    if q != [] {
      assert q[0] < n;
      if i :| 0 <= i < |q| && q[i] == n - 1 {
        Pigeonhole(q[..i] + q[i + 1..], n - 1);
      } else {
        Pigeonhole(q, n - 1);
      }
    }
  }

  /** A queue in which every frame occurs. */
  lemma {:induction false} Covering(q: seq<nat>, n: nat)
    requires forall f :: 0 <= f < n ==> f in q
    ensures |q| >= n
    decreases n
  {
    if n > 0 {
      assert n - 1 in q;
      var i :| 0 <= i < |q| && q[i] == n - 1;
      var r := q[..i] + q[i + 1..];
      forall f | 0 <= f < n - 1
        ensures f in r
      {
        assert f in q;
        var j :| 0 <= j < |q| && q[j] == f;
        assert r[if j < i then j else j - 1] == f;
      }
      Covering(r, n - 1);
    }
  }
}
