/** When a completed frame can be lost: exactly in the mode that grabs the latest
    of several frames, if the configuration lets a frame complete at all. */
module CamRace {
  import opened Words
  import opened Markers
  import opened FramePool
  import opened CamHal

  ghost predicate Reachable(c: Config, s: State) {
    exists run :: Possible(c, InitState(c), run) && After(c, InitState(c), run) == s
  }

  lemma ReachableInv(c: Config, s: State)
    requires GoodConfig(c) && Reachable(c, s)
    ensures Inv(c, s)
  {
    hide Inv;
    var run :| Possible(c, InitState(c), run) && After(c, InitState(c), run) == s;
    InitInv(c);
    RunInv(c, InitState(c), run);
  }

  // ------------------------------------------------------------ single steps

  lemma {:induction false} Extend(c: Config, s: State, run: seq<Action>, a: Action)
    requires Possible(c, s, run)
    requires Bounded(c, After(c, s, run)) && Enabled(c, After(c, s, run), a)
    requires Bounded(c, Step(c, After(c, s, run), a))
    ensures Possible(c, s, run + [a]) && After(c, s, run + [a]) == Step(c, After(c, s, run), a)
    decreases run
  {
    hide Step, Enabled, Bounded;
    if run == [] {
      assert (run + [a])[1..] == [];
      assert Possible(c, Step(c, s, a), []);
    } else {
      Extend(c, Step(c, s, run[0]), run[1..], a);
      assert (run + [a])[1..] == run[1..] + [a];
    }
  }

  lemma Do(c: Config, s: State, a: Action) returns (t: State)
    requires GoodConfig(c) && Reachable(c, s) && Bounded(c, s) && Enabled(c, s, a)
    ensures Reachable(c, t) && Bounded(c, t) && t == Step(c, s, a)
  {
    hide Inv, Step, Enabled, InitState;
    ReachableInv(c, s);
    StepInv(c, s, a);
    InvBounds(c, s);
    InvBounds(c, Step(c, s, a));
    var run :| Possible(c, InitState(c), run) && After(c, InitState(c), run) == s;
    Extend(c, InitState(c), run, a);
    t := Step(c, s, a);
  }

  lemma InvBounds(c: Config, s: State)
    requires Inv(c, s)
    ensures Bounded(c, s)
  {
  }

  lemma DoRead(c: Config, s: State, chunk: seq<byte>) returns (t: State)
    requires GoodConfig(c) && Reachable(c, s) && Bounded(c, s) && ReadPc(s.pc) && (s.pc.Wait? ==> s.events != [])
    requires |chunk| <= c.perDma
    ensures Reachable(c, t) && Bounded(c, t) && t == ReadStep(c, s, chunk, true)
  {
    hide ReadStep, Reachable;
    t := Do(c, s, Task(chunk, true));
  }

  lemma DoSend(c: Config, s: State) returns (t: State)
    requires GoodConfig(c) && Reachable(c, s) && Bounded(c, s) && SendPc(s.pc)
    ensures Reachable(c, t) && Bounded(c, t) && t == SendStep(c, s, [])
  {
    hide SendStep, Reachable;
    t := Do(c, s, Task([], true));
  }

  lemma DoStart(c: Config, s: State) returns (t: State)
    requires GoodConfig(c) && Reachable(c, s) && Bounded(c, s) && StartPc(s.pc)
    ensures Reachable(c, t) && Bounded(c, t) && t == StartStep(c, s, true)
  {
    hide StartStep, Reachable;
    t := Do(c, s, Task([], true));
  }

  /** An event arrives and the capture task begins to handle it. */
  lemma Deliver(c: Config, s: State, ev: Event) returns (t: State)
    requires GoodConfig(c) && Reachable(c, s) && Bounded(c, s)
    requires s.pc.Wait? && s.mode.ReadBuf? && s.events == [] && !s.stopping
    ensures Reachable(c, t) && Bounded(c, t) && t == s.(pc := Reading(ev))
  {
    hide Reachable, TaskStep, Data, StartsWithSoi, Fits;
    t := Do(c, s, Interrupt(ev));
    hide Step;
    assert t == s.(events := [ev]);
    t := DoRead(c, t, []);
    t := DoRead(c, t, []);
    assert t == s.(pc := Reading(ev));
  }

  // --------------------------------------------------------- phases of a run

  predicate NoneDropped(s: State) {
    s.evicted == 0 && s.lost == 0
  }

  /** A capture has begun, q frames are queued and no consumer holds any. */
  ghost predicate Begun(c: Config, s: State, q: nat) {
    && Reachable(c, s) && Bounded(c, s) && s.pc.Wait? && s.mode.ReadBuf? && s.events == [] && !s.stopping
    && s.cnt == 0 && Data(s) == [] && s.pool.holder == map[] && |s.pool.queue| == q && NoneDropped(s)
  }

  /** The next frame synchronisation completes the capture. */
  ghost predicate Filled(c: Config, s: State, q: nat) {
    && Reachable(c, s) && Bounded(c, s) && s.pc.Wait? && s.mode.ReadBuf? && s.events == [] && !s.stopping
    && s.pool.holder == map[] && |s.pool.queue| == q && NoneDropped(s)
    && (c.psram || (if c.jpeg then s.cnt > 0 else |Data(s)| == c.fbSize))
  }

  ghost predicate Sending(c: Config, s: State, q: nat) {
    && Reachable(c, s) && Bounded(c, s) && s.pc.Send? && s.mode.ReadBuf? && s.events == [] && !s.stopping
    && s.pool.holder == map[] && |s.pool.queue| == q && NoneDropped(s)
  }

  /** The sizes let a frame complete: nothing is ever copied when one transfer is
      larger than the frame, or empty. */
  predicate CanComplete(c: Config) {
    c.psram || 1 <= c.perDma <= c.fbSize || (!c.jpeg && c.fbSize == 0)
  }

  lemma Begin(c: Config) returns (s: State)
    requires GoodConfig(c)
    ensures Begun(c, s, 0)
  {
    hide TaskStep, StartsWithSoi, Fits;
    s := InitState(c);
    assert Possible(c, s, []) && After(c, s, []) == s;
    hide Reachable;
    s := Do(c, s, Interrupt(Vsync));
    hide Step;
    s := DoRead(c, s, []);
    s := DoRead(c, s, []);
    s := DoStart(c, s);
    s := DoStart(c, s);
    s := DoStart(c, s);
    s := DoStart(c, s);
  }

  /** One transfer is copied. */
  lemma CopyOne(c: Config, s: State, q: nat, chunk: seq<byte>) returns (t: State)
    requires GoodConfig(c) && !c.psram && |chunk| <= c.perDma
    requires Reachable(c, s) && Bounded(c, s) && s.pc.Wait? && s.mode.ReadBuf? && s.events == [] && !s.stopping
    requires Fits(c, s) && (c.jpeg ==> s.cnt == 0 && Data(s) == [] && StartsWithSoi(chunk, true))
    requires s.pool.holder == map[] && |s.pool.queue| == q && NoneDropped(s)
    ensures Reachable(c, t) && Bounded(c, t) && t.pc.Wait? && t.mode.ReadBuf? && t.events == [] && !t.stopping
    ensures t.pool.holder == map[] && |t.pool.queue| == q && NoneDropped(t) && t.cnt > 0 && Data(t) == Data(s) + chunk
  {
    hide Reachable, TaskStep, Step, StartsWithSoi;
    t := Deliver(c, s, Eof);
    t := DoRead(c, t, chunk);
    assert Data(t) == Data(s) + chunk && t.pc.Check?;
    assert [] + chunk == chunk;
    t := DoRead(c, t, []);
  }

  /** A raw frame is filled to its size. */
  lemma {:induction false} FillRaw(c: Config, s: State, q: nat) returns (t: State)
    requires GoodConfig(c) && !c.psram && !c.jpeg && (c.fbSize == 0 || 1 <= c.perDma <= c.fbSize)
    requires Reachable(c, s) && Bounded(c, s) && s.pc.Wait? && s.mode.ReadBuf? && s.events == [] && !s.stopping
    requires s.pool.holder == map[] && |s.pool.queue| == q && NoneDropped(s)
    requires |Data(s)| == c.fbSize || |Data(s)| + c.perDma <= c.fbSize
    ensures Filled(c, t, q)
    decreases c.fbSize - |Data(s)|
  {
    hide Reachable;
    if |Data(s)| == c.fbSize {
      t := s;
    } else {
      var left := c.fbSize - |Data(s)|;
      var n := if c.perDma < left < 2 * c.perDma then left - c.perDma else c.perDma;
      t := CopyOne(c, s, q, seq(n, _ => 0));
      t := FillRaw(c, t, q);
    }
  }

  lemma Fill(c: Config, s: State, q: nat) returns (t: State)
    requires GoodConfig(c) && CanComplete(c) && Begun(c, s, q)
    ensures Filled(c, t, q)
  {
    hide Reachable;
    if c.psram {
      t := s;
    } else if c.jpeg {
      t := CopyOne(c, s, q, if c.perDma >= 3 then [0xFF, 0xD8, 0xFF] else [0xFF]);
    } else {
      t := FillRaw(c, s, q);
    }
  }

  lemma Finish(c: Config, s: State, q: nat) returns (t: State)
    requires GoodConfig(c) && Filled(c, s, q)
    ensures Sending(c, t, q)
  {
    hide Reachable, TaskStep, Step, StartsWithSoi;
    t := Deliver(c, s, Vsync);
    t := DoRead(c, t, []);
    assert t == s.(running := false, pc := Closing);
    t := DoRead(c, t, []);
    assert t.pc.Disable? && t.mode.ReadBuf? && t.events == [] && !t.stopping && t.pool.holder == map[];
    assert |t.pool.queue| == q && (!c.psram && !c.jpeg ==> |Data(t)| == c.fbSize);
    t := DoSend(c, t);
    assert t.pc.Measure? && |t.pool.queue| == q && (!c.psram && !c.jpeg ==> |Data(t)| == c.fbSize);
    t := DoSend(c, t);
  }

  /** The search of cam_get_next_frame arrives at a free frame. */
  lemma {:induction false} Search(c: Config, s: State, f: nat) returns (t: State)
    requires GoodConfig(c) && Reachable(c, s) && Bounded(c, s) && s.pc.Scan? && !s.pc.idle && s.pc.x <= f < c.frameCnt
    requires s.pool.frames[f].en
    ensures Reachable(c, t) && Bounded(c, t) && t.pc == Start(false) && t.pool == s.pool
    ensures t.mode == s.mode && t.events == s.events && t.stopping == s.stopping && (NoneDropped(s) ==> NoneDropped(t))
    decreases f - s.pc.x
  {
    hide Reachable, TaskStep, Step;
    t := DoStart(c, s);
    if !s.pool.frames[s.pc.x].en {
      t := Search(c, t, f);
    }
  }

  /** Fewer frames queued than there are: one is free, apart from the one sent. */
  lemma FreeFrame(c: Config, s: State, q: nat) returns (f: nat)
    requires GoodConfig(c) && Sending(c, s, q) && q + 1 < c.frameCnt
    ensures f < c.frameCnt && s.pool.frames[f].en
  {
    hide Reachable, Ordered, Newest;
    ReachableInv(c, s);
    var p := s.pool;
    if forall f :: 0 <= f < c.frameCnt ==> !p.frames[f].en {
      forall f | 0 <= f < c.frameCnt
        ensures f in p.queue + [s.pos]
      {
        assert Owners(p, Mine(s), f) == 1;
      }
      Covering(p.queue + [s.pos], c.frameCnt);
    }
    f :| 0 <= f < c.frameCnt && p.frames[f].en;
  }

  lemma NotFree(c: Config, s: State, q: nat)
    requires GoodConfig(c) && Sending(c, s, q)
    ensures !s.pool.frames[s.pos].en
  {
    hide Reachable, Ordered, Newest;
    ReachableInv(c, s);
    assert Owners(s.pool, Mine(s), s.pos) == 1;
  }

  lemma SendNext(c: Config, s: State, q: nat) returns (t: State)
    requires GoodConfig(c) && Sending(c, s, q) && q < QueueLength(c) && q + 1 < c.frameCnt
    ensures Begun(c, t, q + 1)
  {
    var f := FreeFrame(c, s, q);
    NotFree(c, s, q);
    hide Reachable, TaskStep, Step;
    t := DoSend(c, s);
    assert t.pc == Probe(false) && t.pool.frames == s.pool.frames && |t.pool.queue| == q + 1;
    t := DoStart(c, t);
    assert t.pc == Scan(false, 0) && t.pool.frames == s.pool.frames && |t.pool.queue| == q + 1;
    t := Search(c, t, f);
    t := DoStart(c, t);
    t := DoStart(c, t);
  }

  /** Any number of frames below the size of the pool can be queued. */
  lemma {:induction false} FillQueue(c: Config, q: nat) returns (s: State)
    requires GoodConfig(c) && CanComplete(c) && q <= QueueLength(c) && q < c.frameCnt
    ensures Sending(c, s, q)
    decreases q
  {
    hide Sending, Begun, Filled;
    if q == 0 {
      s := Begin(c);
    } else {
      s := FillQueue(c, q - 1);
      s := SendNext(c, s, q - 1);
    }
    s := Fill(c, s, q);
    s := Finish(c, s, q);
  }

  /** Consumers take all that is queued. */
  lemma {:induction false} TakeAll(c: Config, s: State) returns (t: State)
    requires GoodConfig(c) && Reachable(c, s) && Bounded(c, s) && s.pc.Pop? && NoneDropped(s)
    ensures Reachable(c, t) && Bounded(c, t) && t.pc.Pop? && t.pool.queue == [] && NoneDropped(t)
    decreases |s.pool.queue|
  {
    hide Reachable, TaskStep;
    if s.pool.queue == [] {
      t := s;
    } else {
      t := Do(c, s, Take(0));
      t := TakeAll(c, t);
    }
  }

  /** The race: the queue is full when a frame is sent, and empty when the capture
      task wants to make room. */
  lemma LossHappens(c: Config) returns (s: State)
    requires GoodConfig(c) && c.latest && c.frameCnt > 1 && CanComplete(c)
    ensures Reachable(c, s) && s.lost == 1 && s.evicted == 0 && s.pool.queue == []
  {
    hide Reachable, TaskStep, Step;
    s := FillQueue(c, QueueLength(c));
    s := DoSend(c, s);
    assert s.pc.Pop?;
    s := TakeAll(c, s);
    s := DoSend(c, s);
    s := DoSend(c, s);
  }

  /** Two JPEG frames of a QVGA camera, transfers of 512 bytes, four events. */
  const RACE := Config(2, true, true, false, 15360, 512, 4)

  /** There, a completed frame is dropped with the queue empty and nothing evicted. */
  lemma LostRace()
    ensures exists s :: Reachable(RACE, s) && s.lost == 1 && s.evicted == 0 && s.pool.queue == []
  {
    hide Reachable;
    var s := LossHappens(RACE);
  }

  // ---------------------------------------------- when no frame can complete

  /** Nothing was ever copied or queued. */
  predicate Barren(c: Config, s: State) {
    && Bounded(c, s) && s.completed == 0 && s.pool.queue == [] && s.pool.holder == map[]
    && !s.pc.Send? && !s.pc.Pop? && !s.pc.Lost? && !s.pc.Push? && !s.pc.GiveBack?
    && (c.jpeg ==> !s.pc.Disable? && !s.pc.Measure?)
    && (Capture(s) ==> Data(s) == [] && (c.jpeg ==> s.cnt == 0))
  }

  /** Between the start of a capture and its end. */
  predicate Capture(s: State) {
    || ((s.pc.Wait? || s.pc.Got?) && s.mode.ReadBuf?) || s.pc.Reading? || s.pc.Check? || s.pc.Closing?
    || s.pc.Disable? || s.pc.Measure? || s.pc.MarkRead?
  }

  lemma ReadBarren(c: Config, s: State, chunk: seq<byte>, stale: bool)
    requires !CanComplete(c) && Barren(c, s) && ReadPc(s.pc) && (s.pc.Wait? ==> s.events != []) && |chunk| <= c.perDma
    ensures Barren(c, ReadStep(c, s, chunk, stale))
  {
  }

  lemma SendBarren(c: Config, s: State, image: seq<byte>)
    requires !CanComplete(c) && Barren(c, s) && SendPc(s.pc)
    ensures Barren(c, SendStep(c, s, image))
  {
  }

  lemma StartBarren(c: Config, s: State, started: bool)
    requires !CanComplete(c) && Barren(c, s) && StartPc(s.pc) && (InIdleBranch(s) ==> s.mode.Idle?)
    ensures Barren(c, StartStep(c, s, started))
  {
  }

  lemma StepBarren(c: Config, s: State, a: Action)
    requires !CanComplete(c) && Barren(c, s) && Enabled(c, s, a) && (InIdleBranch(s) ==> s.mode.Idle?)
    ensures Barren(c, Step(c, s, a))
  {
    hide ReadStep, SendStep, StartStep;
    if a.Task? {
      hide Barren;
      if ReadPc(s.pc) {
        ReadBarren(c, s, a.chunk, a.yes);
      } else if SendPc(s.pc) {
        SendBarren(c, s, a.chunk);
      } else {
        StartBarren(c, s, a.yes);
      }
    }
  }

  lemma {:induction false} RunBarren(c: Config, s: State, run: seq<Action>)
    requires !CanComplete(c) && Inv(c, s) && Barren(c, s) && Possible(c, s, run)
    ensures Barren(c, After(c, s, run))
    decreases run
  {
    hide Step, Enabled, Barren, PoolOk, Sizes, Newest;
    if run != [] {
      StepBarren(c, s, run[0]);
      StepInv(c, s, run[0]);
      RunBarren(c, Step(c, s, run[0]), run[1..]);
    }
  }

  /** A run that loses a completed frame exists if and only if the latest of
      several frames is grabbed, and frames can complete. */
  lemma LossIff(c: Config)
    requires GoodConfig(c)
    ensures (exists s :: Reachable(c, s) && s.lost > 0) <==> c.latest && c.frameCnt > 1 && CanComplete(c)
  {
    if c.latest && c.frameCnt > 1 && CanComplete(c) {
      var s := LossHappens(c);
    }
    forall s | Reachable(c, s) && s.lost > 0
      ensures c.latest && c.frameCnt > 1 && CanComplete(c)
    {
      LossNeeds(c, s);
    }
  }

  lemma LossNeeds(c: Config, s: State)
    requires GoodConfig(c) && Reachable(c, s) && s.lost > 0
    ensures c.latest && c.frameCnt > 1 && CanComplete(c)
  {
    hide PoolOk, Sizes, Newest, InitState;
    ReachableInv(c, s);
    if !CanComplete(c) {
      var run :| Possible(c, InitState(c), run) && After(c, InitState(c), run) == s;
      InitInv(c);
      InitBarren(c);
      RunBarren(c, InitState(c), run);
    }
  }

  lemma InitBarren(c: Config)
    requires GoodConfig(c)
    ensures Barren(c, InitState(c))
  {
  }
}
