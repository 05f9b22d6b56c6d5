/** What the capture task checks of a JPEG frame outside psram mode: every frame
    in the queue starts with the start-of-image marker. */
module CamJpeg {
  import opened Words
  import opened Markers
  import opened FramePool
  import opened CamHal

  predicate HasSoi(data: seq<byte>) {
    SoiAt(data, 0)
  }

  predicate QueueMarked(p: Pool) {
    Stamped(p) && forall i :: 0 <= i < |p.queue| ==> HasSoi(p.frames[p.queue[i]].data)
  }

  /** The frame at pos is being filled: nothing yet, or checked data. */
  predicate Filling(s: State)
    requires s.pos < |s.pool.frames|
  {
    if s.cnt == 0 then Data(s) == [] else HasSoi(Data(s))
  }

  predicate Marked(c: Config, s: State) {
    && Bounded(c, s) && QueueMarked(s.pool)
    && (s.pc.Reading? || ((s.pc.Wait? || s.pc.Got?) && s.mode.ReadBuf?) ==> Filling(s))
    && (s.pc.Closing? ==> Filling(s))
    && (s.pc.Check? ==> if s.cnt == 0 then |Data(s)| >= 3 else HasSoi(Data(s)))
    && (s.pc.Disable? || InFlight(s) ==> HasSoi(Data(s)))
    && (s.pc.MarkRead? ==> Data(s) == [])
  }

  /** In this step the first copy of a capture delivers three bytes or more. */
  predicate LongFirstCopy(s: State, chunk: seq<byte>) {
    s.pc == Reading(Eof) && s.cnt == 0 ==> |chunk| >= 3
  }

  predicate Chunky(c: Config, s: State, a: Action) {
    c.jpeg && !c.psram && (a.Task? ==> LongFirstCopy(s, a.chunk))
  }

  /** In the whole run. */
  ghost predicate ChunkyRun(c: Config, s: State, run: seq<Action>)
    requires Possible(c, s, run)
    decreases run
  {
    run != [] ==> Chunky(c, s, run[0]) && ChunkyRun(c, Step(c, s, run[0]), run[1..])
  }

  lemma InitMarked(c: Config)
    requires GoodConfig(c)
    ensures Marked(c, InitState(c))
  {
  }

  /** Writing a frame that is not in the queue. */
  lemma DataMarked(p: Pool, f: nat, data: seq<byte>)
    requires QueueMarked(p) && f < |p.frames| && f !in p.queue
    ensures QueueMarked(SetData(p, f, data))
  {
    forall i | 0 <= i < |p.queue|
      ensures p.queue[i] != f
    {
      Queued(p, p.queue[i], i);
    }
  }

  lemma EnMarked(p: Pool, f: nat, en: bool)
    requires QueueMarked(p) && f < |p.frames|
    ensures QueueMarked(SetEn(p, f, en))
  {
  }

  lemma StampMarked(p: Pool, f: nat, stamp: nat)
    requires QueueMarked(p) && f < |p.frames|
    ensures QueueMarked(SetStamp(p, f, stamp))
  {
  }

  lemma EnqueueMarked(p: Pool, f: nat)
    requires QueueMarked(p) && f < |p.frames| && HasSoi(p.frames[f].data)
    ensures QueueMarked(p.(queue := p.queue + [f]))
  {
  }

  lemma DequeueMarked(p: Pool)
    requires QueueMarked(p) && p.queue != []
    ensures QueueMarked(p.(queue := p.queue[1..])) && p.queue[0] < |p.frames|
  {
  }

  lemma NotQueued(c: Config, s: State)
    requires Inv(c, s)
    ensures s.pos < |s.pool.frames| && (s.pool.frames[s.pos].en ==> s.pos !in s.pool.queue)
    ensures Writing(s) ==> s.pos !in s.pool.queue
    ensures InIdleBranch(s) ==> s.mode.Idle?
  {
    hide Ordered, Newest, Sizes, Conserved, Room;
    assert Owners(s.pool, Mine(s), s.pos) == 1;
  }

  lemma SoiKept(data: seq<byte>, chunk: seq<byte>)
    ensures HasSoi(data) ==> HasSoi(data + chunk)
    ensures data == [] ==> data + chunk == chunk
  {
  }

  lemma QueueIsStamped(p: Pool)
    requires QueueMarked(p)
    ensures Stamped(p)
  {
  }

  lemma CopyMarked(c: Config, s: State, chunk: seq<byte>, stale: bool)
    requires Marked(c, s) && (s.pc.Reading? || s.pc.Closing?) && c.jpeg && !c.psram
    requires LongFirstCopy(s, chunk)
    requires s.pos !in s.pool.queue
    ensures Marked(c, ReadStep(c, s, chunk, stale))
  {
    hide HasSoi, StartsWithSoi;
    QueueIsStamped(s.pool);
    hide QueueMarked, Stamped;
    DataMarked(s.pool, s.pos, Data(s) + chunk);
    QueueIsStamped(SetData(s.pool, s.pos, Data(s) + chunk));
    SoiKept(Data(s), chunk);
  }

  lemma WaitMarked(c: Config, s: State, chunk: seq<byte>, stale: bool)
    requires Marked(c, s) && (s.pc.Wait? || s.pc.Got?) && (s.pc.Wait? ==> s.events != [])
    ensures Marked(c, ReadStep(c, s, chunk, stale))
  {
    hide QueueMarked, HasSoi, Stamped;
  }

  lemma CheckMarked(c: Config, s: State, chunk: seq<byte>, stale: bool)
    requires Marked(c, s) && s.pc.Check? && c.jpeg
    ensures Marked(c, ReadStep(c, s, chunk, stale))
  {
    hide QueueMarked, Stamped;
  }

  lemma CloseMarked(c: Config, s: State, image: seq<byte>)
    requires Marked(c, s) && (s.pc.Disable? || s.pc.Measure? || s.pc.Send?) && c.jpeg && !c.psram
    ensures Marked(c, SendStep(c, s, image))
  {
    EnMarked(s.pool, s.pos, false);
    if s.pc.Send? {
      EnqueueMarked(s.pool, s.pos);
    }
    hide QueueMarked, HasSoi, Stamped;
  }

  lemma EvictMarked(c: Config, s: State, image: seq<byte>)
    requires Marked(c, s) && (s.pc.Pop? || s.pc.Lost? || s.pc.Push? || s.pc.GiveBack?)
    ensures Marked(c, SendStep(c, s, image))
  {
    EnMarked(s.pool, if s.pc.GiveBack? then s.pc.fb2 else s.pos, true);
    if s.pc.Push? {
      EnqueueMarked(s.pool, s.pos);
    }
    if s.pool.queue != [] {
      DequeueMarked(s.pool);
    }
    assert Stamped(s.pool);
    hide QueueMarked, HasSoi;
  }

  lemma StartMarked(c: Config, s: State, started: bool)
    requires Marked(c, s) && (s.pc.Start? || s.pc.Reset?) && s.pos !in s.pool.queue
    ensures Marked(c, StartStep(c, s, started))
  {
    DataMarked(s.pool, s.pos, []);
    StampMarked(s.pool, s.pos, s.clock + 1);
    hide QueueMarked, HasSoi, Stamped;
  }

  lemma SearchMarked(c: Config, s: State, started: bool)
    requires Marked(c, s) && (s.pc.Probe? || s.pc.Scan?)
    requires InIdleBranch(s) ==> s.mode.Idle?
    ensures Marked(c, StartStep(c, s, started))
  {
    hide QueueMarked, HasSoi, Stamped;
  }

  lemma EnterMarked(c: Config, s: State, started: bool)
    requires Marked(c, s) && (s.pc.MarkRead? || s.pc.Failed?)
    requires InIdleBranch(s) ==> s.mode.Idle?
    ensures Marked(c, StartStep(c, s, started))
  {
    hide QueueMarked, HasSoi, Stamped;
  }

  lemma IsrMarked(c: Config, s: State, a: Action)
    requires Marked(c, s) && (a.Interrupt? || a.IsrIdle?) && Enabled(c, s, a)
    ensures Marked(c, Step(c, s, a))
  {
    hide QueueMarked, HasSoi, Stamped;
  }

  lemma PassMarked(c: Config, s: State, a: Action)
    requires Marked(c, s) && (a.Take? || a.Give?) && Enabled(c, s, a)
    ensures Marked(c, Step(c, s, a))
  {
    if a.Take? {
      DequeueMarked(s.pool);
    } else {
      EnMarked(s.pool, a.f, true);
    }
    hide HasSoi;
  }

  lemma TrimMarked(c: Config, s: State, a: Action)
    requires Marked(c, s) && a.Trim? && Enabled(c, s, a)
    requires a.f !in s.pool.queue && (Writing(s) || InFlight(s) ==> a.f != s.pos)
    ensures Marked(c, Step(c, s, a))
  {
    DataMarked(s.pool, a.f, s.pool.frames[a.f].data[..a.len]);
    hide QueueMarked, HasSoi, Stamped;
  }

  lemma HeldElsewhere(c: Config, s: State, f: nat)
    requires Inv(c, s) && f in s.pool.holder
    ensures f < |s.pool.frames| && f !in s.pool.queue && (Writing(s) || InFlight(s) ==> f != s.pos)
  {
    hide Ordered, Newest, Sizes, Conserved, Room;
    assert Owners(s.pool, Mine(s), f) == 1;
  }

  lemma TaskMarked(c: Config, s: State, chunk: seq<byte>, yes: bool)
    requires Inv(c, s) && Marked(c, s) && Enabled(c, s, Task(chunk, yes)) && c.jpeg && !c.psram
    requires LongFirstCopy(s, chunk)
    ensures Marked(c, TaskStep(c, s, chunk, yes))
  {
    NotQueued(c, s);
    hide Inv, Marked, ReadStep, SendStep, StartStep;
    match s.pc
    case Wait => WaitMarked(c, s, chunk, yes);
    case Got(_) => WaitMarked(c, s, chunk, yes);
    case Reading(_) => CopyMarked(c, s, chunk, yes);
    case Check => CheckMarked(c, s, chunk, yes);
    case Closing => CopyMarked(c, s, chunk, yes);
    case Disable => CloseMarked(c, s, chunk);
    case Measure => CloseMarked(c, s, chunk);
    case Send => CloseMarked(c, s, chunk);
    case Pop => EvictMarked(c, s, chunk);
    case Lost => EvictMarked(c, s, chunk);
    case Push(_) => EvictMarked(c, s, chunk);
    case GiveBack(_) => EvictMarked(c, s, chunk);
    case Probe(_) => SearchMarked(c, s, yes);
    case Scan(_, _) => SearchMarked(c, s, yes);
    case Start(_) => StartMarked(c, s, yes);
    case Reset(_) => StartMarked(c, s, yes);
    case MarkRead => EnterMarked(c, s, yes);
    case Failed(_) => EnterMarked(c, s, yes);
  }

  lemma StepMarked(c: Config, s: State, a: Action)
    requires Inv(c, s) && Marked(c, s) && Enabled(c, s, a) && Chunky(c, s, a)
    ensures Marked(c, Step(c, s, a))
  {
    hide Inv, Marked, TaskStep;
    match a
    case Interrupt(_) => IsrMarked(c, s, a);
    case IsrIdle => IsrMarked(c, s, a);
    case Task(chunk, yes) => TaskMarked(c, s, chunk, yes);
    case Take(_) => PassMarked(c, s, a);
    case Trim(_, f, _) =>
      HeldElsewhere(c, s, f);
      TrimMarked(c, s, a);
    case Give(_, _) => PassMarked(c, s, a);
  }

  lemma {:induction false} RunMarked(c: Config, s: State, run: seq<Action>)
    requires Inv(c, s) && Marked(c, s) && Possible(c, s, run) && ChunkyRun(c, s, run)
    ensures Marked(c, After(c, s, run))
    decreases run
  {
    hide Inv, Step, Enabled, Marked, Chunky;
    if run != [] {
      StepInv(c, s, run[0]);
      StepMarked(c, s, run[0]);
      RunMarked(c, Step(c, s, run[0]), run[1..]);
    }
  }

  /** After any run in which the first copy of every capture is long enough,
      whatever can be taken starts with the marker. */
  lemma QueuedFramesStartWithSoi(c: Config, run: seq<Action>, i: nat)
    requires GoodConfig(c) && Possible(c, InitState(c), run) && ChunkyRun(c, InitState(c), run)
    requires i < |After(c, InitState(c), run).pool.queue|
    ensures
      var p := After(c, InitState(c), run).pool;
      Stamped(p) && HasSoi(p.frames[p.queue[i]].data)
  {
    hide InitState, Enabled, Step, Chunky;
    InitInv(c);
    InitMarked(c);
    RunMarked(c, InitState(c), run);
  }
}
