/** What the frames in the queue hold: exactly the chunks that were copied since
    their capture began, and without JPEG exactly the size of an image. */
module CamContent {
  import opened Words
  import opened Markers
  import opened FramePool
  import opened CamHal

  /** Frames of raw pixels, copied by the capture task. */
  predicate Raw(c: Config) {
    !c.psram && !c.jpeg
  }

  /** The capture task has a complete frame in hand. */
  predicate Sending(s: State) {
    s.pc.Send? || s.pc.Pop? || s.pc.Lost? || s.pc.Push?
  }

  /** The frame at pos holds what was captured so far. */
  predicate Filled(s: State) {
    || s.pc.Reading? || s.pc.Check? || s.pc.Closing? || s.pc.Disable? || s.pc.MarkRead? || InFlight(s)
    || ((s.pc.Wait? || s.pc.Got?) && s.mode.ReadBuf?)
  }

  // ------------------------------------------------------------- one step

  /** A disabled raw frame is sent if and only if it has the size of an image;
      otherwise it is enabled again, and neither queued nor counted. */
  lemma SentIffComplete(c: Config, s: State, image: seq<byte>)
    requires Bounded(c, s) && s.pc.Measure? && Raw(c)
    ensures SendStep(c, s, image).pc.Send? <==> |Data(s)| == c.fbSize
    ensures SendStep(c, s, image).completed == s.completed + Count(|Data(s)| == c.fbSize)
    ensures |Data(s)| != c.fbSize ==>
      var t := SendStep(c, s, image);
      t.pool.frames[s.pos].en && t.pool.queue == s.pool.queue && t.pc == Probe(false)
  {
  }

  /** An observer writes down what is copied: nothing at the start of a capture,
      then chunk after chunk, in psram mode the image of the hardware. */
  function Observe(c: Config, s: State, a: Action, o: seq<seq<byte>>): (o': seq<seq<byte>>)
    requires Bounded(c, s) && |o| == c.frameCnt
    ensures |o'| == c.frameCnt
  {
    if !a.Task? then o
    else if s.pc.Reset? then o[s.pos := []]
    else if Copies(c, s) then o[s.pos := o[s.pos] + a.chunk]
    else if s.pc.Measure? && c.psram then o[s.pos := a.chunk]
    else o
  }

  /** What was written down for every frame after a run. */
  ghost function Observed(c: Config, s: State, run: seq<Action>, o: seq<seq<byte>>): (o': seq<seq<byte>>)
    requires Possible(c, s, run) && |o| == c.frameCnt
    ensures |o'| == c.frameCnt
    decreases run
  {
    if run == [] then o else Observed(c, Step(c, s, run[0]), run[1..], Observe(c, s, run[0], o))
  }

  function Blank(c: Config): (o: seq<seq<byte>>)
    ensures |o| == c.frameCnt
  {
    seq(c.frameCnt, _ => [])
  }

  // ------------------------------------------------------------ invariant

  predicate QueueKept(p: Pool, o: seq<seq<byte>>, raw: bool, size: nat) {
    && Stamped(p) && |o| == |p.frames|
    && forall i :: 0 <= i < |p.queue| ==>
      p.frames[p.queue[i]].data == o[p.queue[i]] && (raw ==> |o[p.queue[i]]| == size)
  }

  predicate Kept(c: Config, s: State, o: seq<seq<byte>>) {
    && Bounded(c, s) && |o| == c.frameCnt && QueueKept(s.pool, o, Raw(c), c.fbSize)
    && (Filled(s) ==> Data(s) == o[s.pos])
    && (Sending(s) && Raw(c) ==> |o[s.pos]| == c.fbSize)
  }

  lemma InitKept(c: Config)
    requires GoodConfig(c)
    ensures Kept(c, InitState(c), Blank(c))
  {
  }

  lemma QueueFacts(p: Pool, o: seq<seq<byte>>, raw: bool, size: nat)
    requires QueueKept(p, o, raw, size)
    ensures Stamped(p)
  {
  }

  /** Writing a frame that is not in the queue, and writing it down. */
  lemma DataKept(p: Pool, o: seq<seq<byte>>, raw: bool, size: nat, f: nat, data: seq<byte>)
    requires QueueKept(p, o, raw, size) && f < |p.frames| && f !in p.queue
    ensures QueueKept(SetData(p, f, data), o, raw, size) && QueueKept(SetData(p, f, data), o[f := data], raw, size)
  {
    forall i | 0 <= i < |p.queue|
      ensures p.queue[i] != f
    {
      Queued(p, p.queue[i], i);
    }
  }

  lemma FlagsKept(p: Pool, o: seq<seq<byte>>, raw: bool, size: nat, f: nat, en: bool, stamp: nat)
    requires QueueKept(p, o, raw, size) && f < |p.frames|
    ensures QueueKept(SetEn(p, f, en), o, raw, size) && QueueKept(SetStamp(p, f, stamp), o, raw, size)
  {
  }

  lemma EnqueueKept(p: Pool, o: seq<seq<byte>>, raw: bool, size: nat, f: nat)
    requires QueueKept(p, o, raw, size) && f < |p.frames| && p.frames[f].data == o[f] && (raw ==> |o[f]| == size)
    ensures QueueKept(p.(queue := p.queue + [f]), o, raw, size)
  {
  }

  lemma DequeueKept(p: Pool, o: seq<seq<byte>>, raw: bool, size: nat, who: nat)
    requires QueueKept(p, o, raw, size) && p.queue != []
    ensures QueueKept(p.(queue := p.queue[1..]), o, raw, size) && p.queue[0] < |p.frames|
    ensures Stamped(p) && QueueKept(TakeFrame(p, who), o, raw, size)
  {
  }

  lemma GiveKept(p: Pool, o: seq<seq<byte>>, raw: bool, size: nat, f: nat)
    requires QueueKept(p, o, raw, size) && f < |p.frames|
    ensures QueueKept(GiveFrame(p, f), o, raw, size)
  {
  }

  /** The frame at pos is not in the queue while it is written or carried. */
  lemma PosNotQueued(c: Config, s: State)
    requires Inv(c, s)
    ensures s.pos < |s.pool.frames|
    ensures Writing(s) || InFlight(s) || s.pool.frames[s.pos].en ==> s.pos !in s.pool.queue
    ensures InIdleBranch(s) ==> s.mode.Idle?
  {
    hide Ordered, Newest, Sizes, Conserved, Room;
    assert Owners(s.pool, Mine(s), s.pos) == 1;
  }

  // ---------------------------------------------------------- preservation

  lemma EventKept(c: Config, s: State, o: seq<seq<byte>>, chunk: seq<byte>, stale: bool)
    requires Kept(c, s, o) && (s.pc.Wait? || s.pc.Got? || s.pc.Check?) && (s.pc.Wait? ==> s.events != [])
    ensures Kept(c, ReadStep(c, s, chunk, stale), o)
  {
    hide QueueKept, Stamped, StartsWithSoi;
  }

  lemma CopyKept(c: Config, s: State, o: seq<seq<byte>>, chunk: seq<byte>, stale: bool)
    requires Kept(c, s, o) && Copies(c, s) && s.pos !in s.pool.queue
    ensures Kept(c, ReadStep(c, s, chunk, stale), o[s.pos := o[s.pos] + chunk])
  {
    hide QueueKept, StartsWithSoi;
    DataKept(s.pool, o, Raw(c), c.fbSize, s.pos, Data(s) + chunk);
    QueueFacts(SetData(s.pool, s.pos, Data(s) + chunk), o, Raw(c), c.fbSize);
  }

  lemma StopKept(c: Config, s: State, o: seq<seq<byte>>, chunk: seq<byte>, stale: bool)
    requires Kept(c, s, o) && (s.pc.Reading? || s.pc.Closing?) && !Copies(c, s)
    ensures Kept(c, ReadStep(c, s, chunk, stale), o)
  {
    hide QueueKept, Stamped, StartsWithSoi;
  }

  lemma DisableKept(c: Config, s: State, o: seq<seq<byte>>, image: seq<byte>)
    requires Kept(c, s, o) && (s.pc.Disable? || s.pc.Lost?)
    ensures Kept(c, SendStep(c, s, image), o)
  {
    hide QueueKept;
    FlagsKept(s.pool, o, Raw(c), c.fbSize, s.pos, s.pc.Lost?, 0);
    QueueFacts(SetEn(s.pool, s.pos, s.pc.Lost?), o, Raw(c), c.fbSize);
  }

  lemma MeasureKept(c: Config, s: State, o: seq<seq<byte>>, image: seq<byte>)
    requires Kept(c, s, o) && s.pc.Measure? && s.pos !in s.pool.queue
    ensures Kept(c, SendStep(c, s, image), if c.psram then o[s.pos := image] else o)
  {
    hide QueueKept;
    DataKept(s.pool, o, Raw(c), c.fbSize, s.pos, image);
    QueueFacts(SetData(s.pool, s.pos, image), o, Raw(c), c.fbSize);
    FlagsKept(s.pool, o, Raw(c), c.fbSize, s.pos, true, 0);
    QueueFacts(SetEn(s.pool, s.pos, true), o, Raw(c), c.fbSize);
  }

  lemma SendKept(c: Config, s: State, o: seq<seq<byte>>, image: seq<byte>)
    requires Kept(c, s, o) && (s.pc.Send? || s.pc.Push?)
    ensures Kept(c, SendStep(c, s, image), o)
  {
    hide QueueKept;
    EnqueueKept(s.pool, o, Raw(c), c.fbSize, s.pos);
    QueueFacts(s.pool.(queue := s.pool.queue + [s.pos]), o, Raw(c), c.fbSize);
    FlagsKept(s.pool, o, Raw(c), c.fbSize, s.pos, true, 0);
    QueueFacts(SetEn(s.pool, s.pos, true), o, Raw(c), c.fbSize);
  }

  lemma PopKept(c: Config, s: State, o: seq<seq<byte>>, image: seq<byte>)
    requires Kept(c, s, o) && (s.pc.Pop? || s.pc.GiveBack?)
    ensures Kept(c, SendStep(c, s, image), o)
  {
    hide QueueKept;
    if s.pc.GiveBack? {
      FlagsKept(s.pool, o, Raw(c), c.fbSize, s.pc.fb2, true, 0);
      QueueFacts(SetEn(s.pool, s.pc.fb2, true), o, Raw(c), c.fbSize);
    } else if s.pool.queue != [] {
      DequeueKept(s.pool, o, Raw(c), c.fbSize, 0);
      QueueFacts(s.pool.(queue := s.pool.queue[1..]), o, Raw(c), c.fbSize);
    }
  }

  lemma SearchKept(c: Config, s: State, o: seq<seq<byte>>, started: bool)
    requires Kept(c, s, o) && (s.pc.Probe? || s.pc.Scan? || s.pc.MarkRead? || s.pc.Failed?)
    requires InIdleBranch(s) ==> s.mode.Idle?
    ensures Kept(c, StartStep(c, s, started), o)
  {
    hide QueueKept, Stamped;
  }

  lemma BeginKept(c: Config, s: State, o: seq<seq<byte>>, started: bool)
    requires Kept(c, s, o) && s.pc.Start? && s.pos !in s.pool.queue
    ensures Kept(c, StartStep(c, s, started), o)
  {
    hide QueueKept;
    FlagsKept(s.pool, o, Raw(c), c.fbSize, s.pos, false, s.clock + 1);
    QueueFacts(SetStamp(s.pool, s.pos, s.clock + 1), o, Raw(c), c.fbSize);
  }

  lemma ResetKept(c: Config, s: State, o: seq<seq<byte>>, started: bool)
    requires Kept(c, s, o) && s.pc.Reset? && s.pos !in s.pool.queue
    ensures Kept(c, StartStep(c, s, started), o[s.pos := []])
  {
    hide QueueKept;
    DataKept(s.pool, o, Raw(c), c.fbSize, s.pos, []);
    QueueFacts(SetData(s.pool, s.pos, []), o, Raw(c), c.fbSize);
  }

  lemma InterruptKept(c: Config, s: State, o: seq<seq<byte>>, a: Action)
    requires Kept(c, s, o) && (a.Interrupt? || a.IsrIdle?) && Enabled(c, s, a)
    ensures Kept(c, Step(c, s, a), o)
  {
    hide QueueKept, Stamped;
  }

  lemma ConsumerKept(c: Config, s: State, o: seq<seq<byte>>, a: Action)
    requires Inv(c, s) && Kept(c, s, o) && (a.Take? || a.Trim? || a.Give?) && Enabled(c, s, a)
    requires a.Trim? ==> a.f !in s.pool.queue && (Writing(s) || InFlight(s) ==> a.f != s.pos)
    ensures Kept(c, Step(c, s, a), o)
  {
    hide Inv, QueueKept;
    match a
    case Take(who) =>
      DequeueKept(s.pool, o, Raw(c), c.fbSize, who);
      QueueFacts(TakeFrame(s.pool, who), o, Raw(c), c.fbSize);
    case Trim(_, f, len) =>
      DataKept(s.pool, o, Raw(c), c.fbSize, f, s.pool.frames[f].data[..len]);
      QueueFacts(SetData(s.pool, f, s.pool.frames[f].data[..len]), o, Raw(c), c.fbSize);
    case Give(_, f) =>
      GiveKept(s.pool, o, Raw(c), c.fbSize, f);
      QueueFacts(GiveFrame(s.pool, f), o, Raw(c), c.fbSize);
  }

  lemma HeldApart(c: Config, s: State, f: nat)
    requires Inv(c, s) && f in s.pool.holder
    ensures f < |s.pool.frames| && f !in s.pool.queue && (Writing(s) || InFlight(s) ==> f != s.pos)
  {
    hide Ordered, Newest, Sizes, Conserved, Room;
    assert Owners(s.pool, Mine(s), f) == 1;
  }

  lemma TaskKept(c: Config, s: State, o: seq<seq<byte>>, chunk: seq<byte>, yes: bool)
    requires Inv(c, s) && Kept(c, s, o) && Enabled(c, s, Task(chunk, yes))
    ensures Kept(c, TaskStep(c, s, chunk, yes), Observe(c, s, Task(chunk, yes), o))
  {
    PosNotQueued(c, s);
    KeptBounds(c, s, o);
    hide Inv, Kept, ReadStep, SendStep, StartStep, Bounded;
    match s.pc
    case Wait => EventKept(c, s, o, chunk, yes);
    case Got(_) => EventKept(c, s, o, chunk, yes);
    case Check => EventKept(c, s, o, chunk, yes);
    case Reading(_) => ReadKept(c, s, o, chunk, yes);
    case Closing => ReadKept(c, s, o, chunk, yes);
    case Disable => DisableKept(c, s, o, chunk);
    case Lost => DisableKept(c, s, o, chunk);
    case Measure => MeasureKept(c, s, o, chunk);
    case Send => SendKept(c, s, o, chunk);
    case Push(_) => SendKept(c, s, o, chunk);
    case Pop => PopKept(c, s, o, chunk);
    case GiveBack(_) => PopKept(c, s, o, chunk);
    case Probe(_) => SearchKept(c, s, o, yes);
    case Scan(_, _) => SearchKept(c, s, o, yes);
    case MarkRead => SearchKept(c, s, o, yes);
    case Failed(_) => SearchKept(c, s, o, yes);
    case Start(_) => BeginKept(c, s, o, yes);
    case Reset(_) => ResetKept(c, s, o, yes);
  }

  lemma KeptBounds(c: Config, s: State, o: seq<seq<byte>>)
    requires Kept(c, s, o)
    ensures Bounded(c, s) && |o| == c.frameCnt
    // the frame that a capture starts in is enabled
    ensures Inv(c, s) && s.pc.Start? ==> s.pool.frames[s.pos].en
  {
  }

  lemma ReadKept(c: Config, s: State, o: seq<seq<byte>>, chunk: seq<byte>, yes: bool)
    requires Kept(c, s, o) && (s.pc.Reading? || s.pc.Closing?) && s.pos !in s.pool.queue
    ensures Kept(c, ReadStep(c, s, chunk, yes), if Copies(c, s) then o[s.pos := o[s.pos] + chunk] else o)
  {
    KeptBounds(c, s, o);
    hide Kept, ReadStep, Bounded;
    if Copies(c, s) {
      CopyKept(c, s, o, chunk, yes);
    } else {
      StopKept(c, s, o, chunk, yes);
    }
  }

  lemma StepKept(c: Config, s: State, o: seq<seq<byte>>, a: Action)
    requires Inv(c, s) && Kept(c, s, o) && Enabled(c, s, a)
    ensures Bounded(c, s) && |o| == c.frameCnt
    ensures Kept(c, Step(c, s, a), Observe(c, s, a, o))
  {
    KeptBounds(c, s, o);
    hide Inv, Kept, TaskStep, Bounded;
    match a
    case Interrupt(_) => InterruptKept(c, s, o, a);
    case IsrIdle => InterruptKept(c, s, o, a);
    case Task(chunk, yes) => TaskKept(c, s, o, chunk, yes);
    case Take(_) => ConsumerKept(c, s, o, a);
    case Trim(_, f, _) =>
      HeldApart(c, s, f);
      ConsumerKept(c, s, o, a);
    case Give(_, _) => ConsumerKept(c, s, o, a);
  }

  lemma {:induction false} RunKept(c: Config, s: State, run: seq<Action>, o: seq<seq<byte>>)
    requires Inv(c, s) && Kept(c, s, o) && Possible(c, s, run) && |o| == c.frameCnt
    ensures Kept(c, After(c, s, run), Observed(c, s, run, o))
    decreases run
  {
    hide Inv, Step, Enabled, Kept, Observe, Bounded;
    if run != [] {
      StepInv(c, s, run[0]);
      StepKept(c, s, o, run[0]);
      RunKept(c, Step(c, s, run[0]), run[1..], Observe(c, s, run[0], o));
    }
  }

  // -------------------------------------------------------------- results

  /** A queued frame holds the chunks of its capture, each once and in order,
      whatever the interleaving. */
  lemma QueuedFramesAreTheirChunks(c: Config, run: seq<Action>, i: nat)
    requires GoodConfig(c) && Possible(c, InitState(c), run) && i < |After(c, InitState(c), run).pool.queue|
    ensures
      var p := After(c, InitState(c), run).pool;
      Stamped(p) && |p.frames| == c.frameCnt
      && p.frames[p.queue[i]].data == Observed(c, InitState(c), run, Blank(c))[p.queue[i]]
  {
    hide InitState, Enabled, Step, Observe;
    InitInv(c);
    InitKept(c);
    RunKept(c, InitState(c), run, Blank(c));
  }

  /** Every raw frame in the queue has the size of an image, and so has every one
      that is about to be sent, evicted or lost. */
  lemma RawFramesAreComplete(c: Config, run: seq<Action>)
    requires GoodConfig(c) && Raw(c) && Possible(c, InitState(c), run)
    ensures
      var s := After(c, InitState(c), run);
      && Bounded(c, s)
      && (forall i :: 0 <= i < |s.pool.queue| ==> |s.pool.frames[s.pool.queue[i]].data| == c.fbSize)
      && (Sending(s) ==> |Data(s)| == c.fbSize)
  {
    hide InitState, Enabled, Step, Observe;
    InitInv(c);
    InitKept(c);
    RunKept(c, InitState(c), run, Blank(c));
  }
}
