/** The capture protocol of cam_hal.c: the capture task, the interrupt, the
    frame queue and the consumers, as a state machine whose steps are the queue
    operations and the writes of en and state. A run is any sequence of
    actions, so that it covers every interleaving. */
module CamHal {
  import opened Words
  import opened Markers
  import opened FramePool

  datatype Event = Eof | Vsync

  /** cam_state_t. */
  datatype Mode = Idle | ReadBuf

  datatype Config = Config(frameCnt: nat, latest: bool, jpeg: bool, psram: bool, fbSize: nat, perDma: nat, evCap: nat)

  /** cam_config: the length of the frame queue. */
  function QueueLength(c: Config): nat {
    if c.latest && c.frameCnt > 1 then c.frameCnt - 1 else c.frameCnt
  }

  /** Where the capture task is. idle says that cam_start_frame was called in
      the idle branch. */
  datatype Pc =
    | Wait
    | Got(ev: Event)
    | Reading(ev: Event)
    | Check
    | Closing
    | Disable
    | Measure
    | Send
    | Pop
    | Lost
    | Push(fb2: nat)
    | GiveBack(fb2: nat)
    | Probe(idle: bool)
    | Scan(idle: bool, x: nat)
    | Start(idle: bool)
    | Reset(idle: bool)
    | MarkRead
    | Failed(idle: bool)

  /** running: the hardware is writing, into the frame at pos. stopping: the
      interrupt has stopped it, but not yet written the mode. clock counts the
      captures started; completed, evicted and lost count frames. */
  datatype State = State(
    pc: Pc,
    pos: nat,
    cnt: nat,
    mode: Mode,
    running: bool,
    stopping: bool,
    events: seq<Event>,
    pool: Pool,
    clock: nat,
    completed: nat,
    evicted: nat,
    lost: nat)

  datatype Action =
    | Interrupt(ev: Event)
    | IsrIdle
    | Task(chunk: seq<byte>, yes: bool)
    | Take(consumer: nat)
    | Trim(consumer: nat, f: nat, len: nat)
    | Give(consumer: nat, f: nat)

  function InitState(c: Config): State {
    State(Wait, 0, 0, Idle, false, false, [],
          Pool(seq(c.frameCnt, _ => Frame(true, [], 0)), [], map[], []), 0, 0, 0, 0)
  }

  // ------------------------------------------------------------------ steps

  predicate Bounded(c: Config, s: State) {
    && |s.pool.frames| == c.frameCnt && s.pos < c.frameCnt && Stamped(s.pool)
    && ((s.pc.Push? || s.pc.GiveBack?) ==> s.pc.fb2 < c.frameCnt)
  }

  function Data(s: State): seq<byte>
    requires s.pos < |s.pool.frames|
  {
    s.pool.frames[s.pos].data
  }

  predicate Fits(c: Config, s: State)
    requires s.pos < |s.pool.frames|
  {
    |Data(s)| + c.perDma <= c.fbSize
  }

  function Append(s: State, chunk: seq<byte>): State
    requires s.pos < |s.pool.frames|
  {
    s.(pool := SetData(s.pool, s.pos, Data(s) + chunk))
  }

  predicate ReadPc(pc: Pc) {
    pc.Wait? || pc.Got? || pc.Reading? || pc.Check? || pc.Closing?
  }

  /** cam_task, receiving events and filling the frame. chunk is what
      ll_cam_memcpy delivers. */
  function ReadStep(c: Config, s: State, chunk: seq<byte>, stale: bool): State
    requires Bounded(c, s) && ReadPc(s.pc) && (s.pc.Wait? ==> s.events != [])
  {
    match s.pc
    case Wait => s.(events := s.events[1..], pc := Got(s.events[0]))
    case Got(ev) =>
      if s.mode.ReadBuf? then s.(pc := Reading(ev))
      else if ev.Vsync? then s.(pc := Probe(true))
      else s.(pc := Wait)
    case Reading(ev) =>
      if ev.Vsync? then s.(running := false, pc := Closing)
      else if c.psram then s.(pc := Check)
      else if !Fits(c, s) then s.(running := false, pc := Wait)
      else Append(s, chunk).(pc := Check)
    case Check =>
      if c.jpeg && s.cnt == 0 && !StartsWithSoi(Data(s), stale)
      then s.(running := false, mode := Idle, cnt := 1, pc := Wait)
      else s.(cnt := s.cnt + 1, pc := Wait)
    case Closing =>
      if s.cnt == 0 && c.jpeg && !c.psram then s.(pc := Probe(false))
      else if !c.jpeg then s.(pc := Disable)
      else if c.psram then s.(cnt := s.cnt + 1, pc := Disable)
      else if !Fits(c, s) then s.(pc := Disable)
      else Append(s, chunk).(cnt := s.cnt + 1, pc := Disable)
  }

  predicate SendPc(pc: Pc) {
    pc.Disable? || pc.Measure? || pc.Send? || pc.Pop? || pc.Lost? || pc.Push? || pc.GiveBack?
  }

  /** cam_task, from disabling a complete frame until it is sent. In psram mode
      image is what the hardware wrote. */
  function SendStep(c: Config, s: State, image: seq<byte>): State
    requires Bounded(c, s) && SendPc(s.pc)
  {
    match s.pc
    case Disable => s.(pool := SetEn(s.pool, s.pos, false), pc := Measure)
    case Measure =>
      if c.psram then s.(pool := SetData(s.pool, s.pos, image), completed := s.completed + 1, pc := Send)
      else if !c.jpeg && |Data(s)| != c.fbSize then s.(pool := SetEn(s.pool, s.pos, true), pc := Probe(false))
      else s.(completed := s.completed + 1, pc := Send)
    case Send =>
      if |s.pool.queue| < QueueLength(c)
      then s.(pool := s.pool.(queue := s.pool.queue + [s.pos]), pc := Probe(false))
      else s.(pc := Pop)
    case Pop =>
      if s.pool.queue == [] then s.(pc := Lost)
      else s.(pool := s.pool.(queue := s.pool.queue[1..]), evicted := s.evicted + 1, pc := Push(s.pool.queue[0]))
    case Lost => s.(pool := SetEn(s.pool, s.pos, true), lost := s.lost + 1, pc := Probe(false))
    case Push(fb2) =>
      if |s.pool.queue| < QueueLength(c)
      then s.(pool := s.pool.(queue := s.pool.queue + [s.pos]), pc := GiveBack(fb2))
      else s.(pool := SetEn(s.pool, s.pos, true), lost := s.lost + 1, pc := GiveBack(fb2))
    case GiveBack(fb2) => s.(pool := SetEn(s.pool, fb2, true), pc := Probe(false))
  }

  predicate StartPc(pc: Pc) {
    pc.Probe? || pc.Scan? || pc.Start? || pc.Reset? || pc.MarkRead? || pc.Failed?
  }

  /** cam_start_frame and what follows it; started is the result of ll_cam_start. */
  function StartStep(c: Config, s: State, started: bool): State
    requires Bounded(c, s) && StartPc(s.pc)
  {
    match s.pc
    case Probe(idle) => if s.pool.frames[s.pos].en then s.(pc := Start(idle)) else s.(pc := Scan(idle, 0))
    case Scan(idle, x) =>
      if x >= c.frameCnt then s.(pc := Failed(idle))
      else if s.pool.frames[x].en then s.(pos := x, pc := Start(idle))
      else s.(pc := Scan(idle, x + 1))
    case Start(idle) =>
      if started
      then s.(running := true, clock := s.clock + 1, pool := SetStamp(s.pool, s.pos, s.clock + 1), pc := Reset(idle))
      else s.(pc := Failed(idle))
    case Reset(idle) => s.(pool := SetData(s.pool, s.pos, []), cnt := 0, pc := if idle then MarkRead else Wait)
    case MarkRead => s.(mode := ReadBuf, cnt := 0, pc := Wait)
    case Failed(idle) => s.(mode := if idle then s.mode else Idle, cnt := 0, pc := Wait)
  }

  function TaskStep(c: Config, s: State, chunk: seq<byte>, yes: bool): State
    requires Bounded(c, s) && (s.pc.Wait? ==> s.events != [])
  {
    if ReadPc(s.pc) then ReadStep(c, s, chunk, yes)
    else if SendPc(s.pc) then SendStep(c, s, chunk)
    else StartStep(c, s, yes)
  }

  /** What the outside may do: ll_cam_memcpy delivers at most perDma bytes, and
      a consumer touches only frames that it holds. */
  predicate Enabled(c: Config, s: State, a: Action)
    requires Bounded(c, s)
  {
    match a
    case Interrupt(_) => !s.stopping
    case IsrIdle => s.stopping
    case Task(chunk, _) => (s.pc.Wait? ==> s.events != []) && (c.psram || |chunk| <= c.perDma)
    case Take(_) => s.pool.queue != []
    case Trim(who, f, len) =>
      f in s.pool.holder && s.pool.holder[f] == who && f < c.frameCnt && len <= |s.pool.frames[f].data|
    case Give(who, f) => f in s.pool.holder && s.pool.holder[f] == who && f < c.frameCnt
  }

  function Step(c: Config, s: State, a: Action): State
    requires Bounded(c, s) && Enabled(c, s, a)
  {
    match a
    case Interrupt(ev) =>
      // ll_cam_send_event
      if |s.events| < c.evCap then s.(events := s.events + [ev]) else s.(running := false, stopping := true)
    case IsrIdle => s.(mode := Idle, stopping := false)
    case Task(chunk, yes) => TaskStep(c, s, chunk, yes)
    case Take(who) => s.(pool := TakeFrame(s.pool, who))
    case Trim(_, f, len) => s.(pool := SetData(s.pool, f, s.pool.frames[f].data[..len]))
    case Give(_, f) => s.(pool := GiveFrame(s.pool, f))
  }

  // -------------------------------------------------------------- invariant

  /** Between disabling the frame at pos and sending it. */
  predicate InFlight(s: State) {
    s.pc.Measure? || s.pc.Send? || s.pc.Pop? || s.pc.Lost? || s.pc.Push?
  }

  /** The frames that the capture task carries into or out of the queue. */
  function Mine(s: State): set<nat> {
    (if InFlight(s) then {s.pos} else {}) + (if s.pc.Push? || s.pc.GiveBack? then {s.pc.fb2} else {})
  }

  /** The capture task is writing the frame at pos, or will at the next event. */
  predicate Writing(s: State) {
    || s.pc.Reading? || s.pc.Check? || s.pc.Closing? || s.pc.Disable? || s.pc.Reset? || s.pc.MarkRead?
    || ((s.pc.Wait? || s.pc.Got?) && s.mode.ReadBuf?)
  }

  predicate InIdleBranch(s: State) {
    || ((s.pc.Probe? || s.pc.Scan? || s.pc.Start? || s.pc.Reset? || s.pc.Failed?) && s.pc.idle)
    || s.pc.MarkRead?
  }

  /** Neither the capture task nor the hardware writes a frame that is not its own. */
  predicate WritesOwn(s: State) {
    && s.pos < |s.pool.frames|
    && (Writing(s) || s.pc.Start? || s.running ==> s.pool.frames[s.pos].en)
    && (InIdleBranch(s) ==> s.mode.Idle?)
    && (s.pc.Closing? || s.pc.Disable? ==> !s.running)
    && (s.pc.Push? ==> s.pc.fb2 != s.pos)
  }

  /** Every completed capture was taken, is queued, was evicted or lost, or is
      about to be sent. */
  predicate Conserved(s: State) {
    s.completed
    == |s.pool.taken| + |s.pool.queue| + s.evicted + s.lost + Count(s.pc.Send? || s.pc.Pop? || s.pc.Lost? || s.pc.Push?)
  }

  predicate Sizes(c: Config, p: Pool) {
    !c.psram ==> forall f :: 0 <= f < |p.frames| ==> |p.frames[f].data| <= c.fbSize
  }

  /** With a queue as long as the pool nothing is evicted or lost; and a frame
      popped by the capture task leaves room for the new one. */
  predicate Room(c: Config, s: State) {
    && (s.pc.Push? ==> |s.pool.queue| < QueueLength(c))
    && (QueueLength(c) == c.frameCnt ==>
      s.evicted == 0 && s.lost == 0 && !s.pc.Pop? && !s.pc.Lost? && !s.pc.Push? && !s.pc.GiveBack?)
  }

  predicate Control(c: Config, s: State) {
    && 1 <= c.evCap && Bounded(c, s) && WritesOwn(s) && Conserved(s) && Room(c, s)
    && (Writing(s) || InFlight(s) ==> Newest(s.pool, s.clock, s.pos))
  }

  ghost predicate Inv(c: Config, s: State) {
    && PoolOk(c.frameCnt, QueueLength(c), s.pool, Mine(s), s.clock)
    && Control(c, s) && Sizes(c, s.pool)
  }

  lemma InitInv(c: Config)
    requires c.frameCnt >= 1 && c.evCap >= 1
    ensures Inv(c, InitState(c))
  {
  }

  // ------------------------------------------------------------ preservation

  lemma InterruptInv(c: Config, s: State, a: Action)
    requires Inv(c, s) && (a.Interrupt? || a.IsrIdle?) && Enabled(c, s, a)
    ensures Inv(c, Step(c, s, a))
  {
    hide PoolOk, Newest, Sizes;
  }

  lemma ConsumerInv(c: Config, s: State, a: Action)
    requires Inv(c, s) && (a.Take? || a.Trim? || a.Give?) && Enabled(c, s, a)
    ensures Inv(c, Step(c, s, a))
  {
    hide PoolOk, Newest, Ordered, OneOwner;
    var n, cap, p, mine, clock := c.frameCnt, QueueLength(c), s.pool, Mine(s), s.clock;
    PoolFacts(n, cap, p, mine, clock);
    match a
    case Take(who) => TakePool(n, cap, p, mine, clock, who);
    case Trim(_, f, len) =>
      DataPool(n, cap, p, mine, clock, f, p.frames[f].data[..len]);
    case Give(_, f) =>
      GivePool(n, cap, p, mine, clock, f);
  }

  /** Taking an event and testing the first bytes leave the pool alone. */
  lemma EventInv(c: Config, s: State, chunk: seq<byte>, yes: bool)
    requires Inv(c, s) && Enabled(c, s, Task(chunk, yes)) && (s.pc.Wait? || s.pc.Got? || s.pc.Check?)
    ensures Inv(c, ReadStep(c, s, chunk, yes))
  {
    hide PoolOk, Newest, Sizes, StartsWithSoi, Stamped;
  }

  /** The step appends a chunk to the frame. */
  predicate Copies(c: Config, s: State)
    requires Bounded(c, s)
  {
    && !c.psram && Fits(c, s)
    && ((s.pc.Reading? && !s.pc.ev.Vsync?) || (s.pc.Closing? && c.jpeg && s.cnt != 0))
  }

  lemma CopyInv(c: Config, s: State, chunk: seq<byte>, yes: bool)
    requires Inv(c, s) && Enabled(c, s, Task(chunk, yes)) && Copies(c, s)
    ensures Inv(c, ReadStep(c, s, chunk, yes))
  {
    hide PoolOk, Newest, Sizes;
    DataPool(c.frameCnt, QueueLength(c), s.pool, Mine(s), s.clock, s.pos, Data(s) + chunk);
    AppendSize(c, s, chunk);
  }

  lemma StopInv(c: Config, s: State, chunk: seq<byte>, yes: bool)
    requires Inv(c, s) && Enabled(c, s, Task(chunk, yes)) && (s.pc.Reading? || s.pc.Closing?) && !Copies(c, s)
    ensures Inv(c, ReadStep(c, s, chunk, yes))
  {
    hide PoolOk, Newest, Sizes, Stamped, StartsWithSoi;
  }

  lemma ReadInv(c: Config, s: State, chunk: seq<byte>, yes: bool)
    requires Inv(c, s) && Enabled(c, s, Task(chunk, yes)) && (s.pc.Reading? || s.pc.Closing?)
    ensures Inv(c, ReadStep(c, s, chunk, yes))
  {
    hide PoolOk, Sizes, Newest, Stamped, ReadStep;
    if Copies(c, s) {
      CopyInv(c, s, chunk, yes);
    } else {
      StopInv(c, s, chunk, yes);
    }
  }

  lemma AppendSize(c: Config, s: State, chunk: seq<byte>)
    requires Bounded(c, s) && Sizes(c, s.pool) && (c.psram || (|chunk| <= c.perDma && Fits(c, s)))
    ensures Sizes(c, Append(s, chunk).pool)
  {
  }

  /** Pigeonhole: with one frame elsewhere, the queue is shorter than the pool. */
  lemma RoomInWholeQueue(n: nat, cap: nat, p: Pool, mine: set<nat>, clock: nat, f: nat)
    requires PoolOk(n, cap, p, mine, clock) && f in mine
    ensures |p.queue| < n
  {
    assert Owners(p, mine, f) == 1;
    forall i | 0 <= i < |p.queue|
      ensures p.queue[i] != f
    {
      Queued(p, p.queue[i], i);
    }
    Pigeonhole(p.queue + [f], n);
  }

  lemma DisableInv(c: Config, s: State, chunk: seq<byte>, yes: bool)
    requires Inv(c, s) && Enabled(c, s, Task(chunk, yes)) && s.pc.Disable?
    ensures Inv(c, SendStep(c, s, chunk))
  {
    hide PoolOk, Newest;
    DisablePool(c.frameCnt, QueueLength(c), s.pool, Mine(s), s.clock, s.pos);
    assert Mine(SendStep(c, s, chunk)) == Mine(s) + {s.pos};
  }

  lemma MeasureInv(c: Config, s: State, chunk: seq<byte>, yes: bool)
    requires Inv(c, s) && Enabled(c, s, Task(chunk, yes)) && s.pc.Measure?
    ensures Inv(c, SendStep(c, s, chunk))
  {
    hide PoolOk, Newest;
    var t := SendStep(c, s, chunk);
    if t.pc.Probe? {
      EnablePool(c.frameCnt, QueueLength(c), s.pool, Mine(s), s.clock, s.pos);
      assert Mine(t) == Mine(s) - {s.pos};
    } else {
      DataPool(c.frameCnt, QueueLength(c), s.pool, Mine(s), s.clock, s.pos, chunk);
      assert Mine(t) == Mine(s);
    }
  }

  lemma SendInv(c: Config, s: State, chunk: seq<byte>, yes: bool)
    requires Inv(c, s) && Enabled(c, s, Task(chunk, yes)) && s.pc.Send?
    ensures Inv(c, SendStep(c, s, chunk))
  {
    hide PoolOk, Newest;
    RoomInWholeQueue(c.frameCnt, QueueLength(c), s.pool, Mine(s), s.clock, s.pos);
    if |s.pool.queue| < QueueLength(c) {
      EnqueuePool(c.frameCnt, QueueLength(c), s.pool, Mine(s), s.clock, s.pos);
      assert Mine(SendStep(c, s, chunk)) == Mine(s) - {s.pos};
    }
  }

  lemma PopInv(c: Config, s: State, chunk: seq<byte>, yes: bool)
    requires Inv(c, s) && Enabled(c, s, Task(chunk, yes)) && s.pc.Pop?
    ensures Inv(c, SendStep(c, s, chunk))
  {
    hide PoolOk, Newest;
    PoolFacts(c.frameCnt, QueueLength(c), s.pool, Mine(s), s.clock);
    if s.pool.queue != [] {
      DequeuePool(c.frameCnt, QueueLength(c), s.pool, Mine(s), s.clock);
      assert Mine(SendStep(c, s, chunk)) == Mine(s) + {s.pool.queue[0]};
    }
  }

  lemma EvictInv(c: Config, s: State, chunk: seq<byte>, yes: bool)
    requires Inv(c, s) && Enabled(c, s, Task(chunk, yes)) && (s.pc.Lost? || s.pc.Push? || s.pc.GiveBack?)
    ensures Inv(c, SendStep(c, s, chunk))
  {
    hide PoolOk, Newest;
    var t := SendStep(c, s, chunk);
    match s.pc
    case Lost =>
      EnablePool(c.frameCnt, QueueLength(c), s.pool, Mine(s), s.clock, s.pos);
      assert Mine(t) == Mine(s) - {s.pos};
    case Push(fb2) =>
      EnqueuePool(c.frameCnt, QueueLength(c), s.pool, Mine(s), s.clock, s.pos);
      assert Mine(t) == Mine(s) - {s.pos};
    case GiveBack(fb2) =>
      EnablePool(c.frameCnt, QueueLength(c), s.pool, Mine(s), s.clock, fb2);
      assert Mine(t) == Mine(s) - {fb2};
  }

  /** Looking for a frame does not touch the pool. */
  lemma ProbeInv(c: Config, s: State, chunk: seq<byte>, yes: bool)
    requires Inv(c, s) && Enabled(c, s, Task(chunk, yes)) && s.pc.Probe?
    ensures Inv(c, StartStep(c, s, yes))
  {
    hide PoolOk, Newest, Sizes, Stamped;
  }

  lemma ScanInv(c: Config, s: State, chunk: seq<byte>, yes: bool)
    requires Inv(c, s) && Enabled(c, s, Task(chunk, yes)) && s.pc.Scan?
    ensures Inv(c, StartStep(c, s, yes))
  {
    hide PoolOk, Newest, Sizes, Stamped;
  }

  lemma EnterInv(c: Config, s: State, chunk: seq<byte>, yes: bool)
    requires Inv(c, s) && Enabled(c, s, Task(chunk, yes)) && (s.pc.Failed? || s.pc.MarkRead?)
    ensures Inv(c, StartStep(c, s, yes))
  {
    hide PoolOk, Newest, Sizes, Stamped;
  }

  lemma StartInv(c: Config, s: State, chunk: seq<byte>, yes: bool)
    requires Inv(c, s) && Enabled(c, s, Task(chunk, yes)) && (s.pc.Start? || s.pc.Reset?)
    ensures Inv(c, StartStep(c, s, yes))
  {
    hide PoolOk, Newest;
    var n, cap, p, mine, clock := c.frameCnt, QueueLength(c), s.pool, Mine(s), s.clock;
    if s.pc.Start? {
      StampPool(n, cap, p, mine, clock, s.pos);
    } else {
      DataPool(n, cap, p, mine, clock, s.pos, []);
    }
  }

  lemma StepInv(c: Config, s: State, a: Action)
    requires Inv(c, s) && Enabled(c, s, a)
    ensures Inv(c, Step(c, s, a))
  {
    hide Inv, ReadStep, SendStep, StartStep;
    match a
    case Interrupt(_) => InterruptInv(c, s, a);
    case IsrIdle => InterruptInv(c, s, a);
    case Take(_) => ConsumerInv(c, s, a);
    case Trim(_, _, _) => ConsumerInv(c, s, a);
    case Give(_, _) => ConsumerInv(c, s, a);
    case Task(chunk, yes) =>
      if s.pc.Reading? || s.pc.Closing? {
        ReadInv(c, s, chunk, yes);
      } else if ReadPc(s.pc) {
        EventInv(c, s, chunk, yes);
      } else if s.pc.Disable? {
        DisableInv(c, s, chunk, yes);
      } else if s.pc.Measure? {
        MeasureInv(c, s, chunk, yes);
      } else if s.pc.Send? {
        SendInv(c, s, chunk, yes);
      } else if s.pc.Pop? {
        PopInv(c, s, chunk, yes);
      } else if SendPc(s.pc) {
        EvictInv(c, s, chunk, yes);
      } else if s.pc.Start? || s.pc.Reset? {
        StartInv(c, s, chunk, yes);
      } else if s.pc.Probe? {
        ProbeInv(c, s, chunk, yes);
      } else if s.pc.Scan? {
        ScanInv(c, s, chunk, yes);
      } else {
        EnterInv(c, s, chunk, yes);
      }
  }

  // -------------------------------------------------------------------- runs

  /** A run from s: every action is possible when its turn comes. */
  ghost predicate Possible(c: Config, s: State, run: seq<Action>)
    decreases run
  {
    Bounded(c, s) && (run != [] ==> Enabled(c, s, run[0]) && Possible(c, Step(c, s, run[0]), run[1..]))
  }

  ghost function After(c: Config, s: State, run: seq<Action>): State
    requires Possible(c, s, run)
    decreases run
  {
    if run == [] then s else After(c, Step(c, s, run[0]), run[1..])
  }

  lemma {:induction false} RunInv(c: Config, s: State, run: seq<Action>)
    requires Inv(c, s) && Possible(c, s, run)
    ensures Inv(c, After(c, s, run))
    decreases run
  {
    hide Inv, Step, Enabled;
    if run != [] {
      StepInv(c, s, run[0]);
      RunInv(c, Step(c, s, run[0]), run[1..]);
    }
  }

  predicate GoodConfig(c: Config) {
    c.frameCnt >= 1 && c.evCap >= 1
  }

  /** Ownership: whatever the interleaving, every frame is in exactly one of
      the four hands, and at most once in the queue; capture and hardware write only frames that are free. */
  lemma Ownership(c: Config, run: seq<Action>, f: nat)
    requires GoodConfig(c) && Possible(c, InitState(c), run) && f < c.frameCnt
    ensures
      var s := After(c, InitState(c), run);
      && Bounded(c, s) && Owners(s.pool, Mine(s), f) == 1
      && (forall i, j :: 0 <= i < j < |s.pool.queue| ==> s.pool.queue[i] != s.pool.queue[j])
      && (s.pc.Wait? && s.mode.ReadBuf? ==> s.pool.frames[s.pos].en)
      && (s.running ==> s.pool.frames[s.pos].en)
  {
    hide InitState, Enabled, Step;
    InitInv(c);
    RunInv(c, InitState(c), run);
  }

  /** Frames are taken in strictly increasing order of capture. */
  lemma TakenInOrder(c: Config, run: seq<Action>, i: nat, j: nat)
    requires GoodConfig(c) && Possible(c, InitState(c), run)
    requires i < j < |After(c, InitState(c), run).pool.taken|
    ensures After(c, InitState(c), run).pool.taken[i] < After(c, InitState(c), run).pool.taken[j]
  {
    hide InitState, Enabled, Step;
    InitInv(c);
    RunInv(c, InitState(c), run);
  }

  /** With a queue as long as the pool (every mode but grabbing the latest of
      several frames) each completed frame was taken or is still queued. */
  lemma NothingDropped(c: Config, run: seq<Action>)
    requires GoodConfig(c) && QueueLength(c) == c.frameCnt && Possible(c, InitState(c), run)
    ensures
      var s := After(c, InitState(c), run);
      s.completed == |s.pool.taken| + |s.pool.queue| + Count(s.pc.Send?)
  {
    hide InitState, Enabled, Step;
    InitInv(c);
    RunInv(c, InitState(c), run);
  }

  /** Then the queue is never full when a frame is sent. */
  lemma SendHasRoom(c: Config, run: seq<Action>)
    requires GoodConfig(c) && Possible(c, InitState(c), run)
    requires After(c, InitState(c), run).pc.Send? && QueueLength(c) == c.frameCnt
    ensures |After(c, InitState(c), run).pool.queue| < QueueLength(c)
  {
    hide InitState, Enabled, Step;
    InitInv(c);
    RunInv(c, InitState(c), run);
    var s := After(c, InitState(c), run);
    RoomInWholeQueue(c.frameCnt, QueueLength(c), s.pool, Mine(s), s.clock, s.pos);
  }

  /** The capture task is the only producer: after a pop that succeeded, the push does. */
  lemma PushSucceeds(c: Config, run: seq<Action>)
    requires GoodConfig(c) && Possible(c, InitState(c), run) && After(c, InitState(c), run).pc.Push?
    ensures |After(c, InitState(c), run).pool.queue| < QueueLength(c)
  {
    hide InitState, Enabled, Step;
    InitInv(c);
    RunInv(c, InitState(c), run);
  }

  /** What is evicted is older than all that stays, and than the new frame. */
  lemma EvictsOldest(c: Config, run: seq<Action>, i: nat)
    requires GoodConfig(c) && Possible(c, InitState(c), run)
    requires var s := After(c, InitState(c), run); s.pc.Pop? && i < |s.pool.queue|
    ensures
      var s := After(c, InitState(c), run);
      && Bounded(c, s)
      && QueueStamp(s.pool, 0) <= QueueStamp(s.pool, i) < s.pool.frames[s.pos].stamp
      && (i > 0 ==> QueueStamp(s.pool, 0) < QueueStamp(s.pool, i))
  {
    hide InitState, Enabled, Step;
    InitInv(c);
    RunInv(c, InitState(c), run);
  }

  /** Grabbing the latest of several frames: while no consumer holds a frame, a
      free one exists whenever the capture task looks for one. */
  lemma FreeFrameExists(c: Config, run: seq<Action>)
    requires GoodConfig(c) && c.latest && c.frameCnt > 1 && Possible(c, InitState(c), run)
    requires var s := After(c, InitState(c), run); s.pool.holder == map[] && StartPc(s.pc)
    ensures
      var s := After(c, InitState(c), run);
      exists f :: 0 <= f < |s.pool.frames| && s.pool.frames[f].en
  {
    hide InitState, Enabled, Step, Ordered;
    InitInv(c);
    RunInv(c, InitState(c), run);
    var s := After(c, InitState(c), run);
    if forall f :: 0 <= f < |s.pool.frames| ==> !s.pool.frames[f].en {
      forall f | 0 <= f < c.frameCnt
        ensures f in s.pool.queue
      {
        assert Owners(s.pool, Mine(s), f) == 1;
      }
      Covering(s.pool.queue, c.frameCnt);
    }
  }

  // ------------------------------------------- frames in the hands of others

  predicate Touches(a: Action, f: nat) {
    (a.Trim? || a.Give?) && a.f == f
  }

  /** One step leaves a frame that is queued or held as it is, unless its holder
      trims it or gives it back. */
  lemma StepLeavesFrame(c: Config, s: State, a: Action, f: nat)
    requires Inv(c, s) && Enabled(c, s, a) && f < c.frameCnt && !Touches(a, f)
    requires f in s.pool.queue || f in s.pool.holder
    ensures var t := Step(c, s, a); |t.pool.frames| == c.frameCnt && t.pool.frames[f] == s.pool.frames[f]
    ensures f in s.pool.holder ==> f in Step(c, s, a).pool.holder && Step(c, s, a).pool.holder[f] == s.pool.holder[f]
  {
    hide Sizes, Conserved, Room, Ordered, Newest, StartsWithSoi;
    assert Owners(s.pool, Mine(s), f) == 1;
    if a.Take? {
      Queued(s.pool, s.pool.queue[0], 0);
    } else if a.Task? {
      TaskLeavesFrame(c, s, a.chunk, a.yes, f);
    }
  }

  /** The frame at pos, and one popped by the capture task, are all that it writes. */
  lemma TaskLeavesFrame(c: Config, s: State, chunk: seq<byte>, yes: bool, f: nat)
    requires Bounded(c, s) && WritesOwn(s) && Enabled(c, s, Task(chunk, yes)) && f < c.frameCnt
    requires f !in Mine(s) && !s.pool.frames[f].en
    ensures
      var t := TaskStep(c, s, chunk, yes);
      |t.pool.frames| == c.frameCnt && t.pool.frames[f] == s.pool.frames[f] && t.pool.holder == s.pool.holder
  {
    hide ReadStep, SendStep, StartStep;
    if ReadPc(s.pc) {
      ReadLeavesFrame(c, s, chunk, yes, f);
    } else if SendPc(s.pc) {
      SendLeavesFrame(c, s, chunk, f);
    } else {
      StartLeavesFrame(c, s, yes, f);
    }
  }

  lemma ReadLeavesFrame(c: Config, s: State, chunk: seq<byte>, stale: bool, f: nat)
    requires Bounded(c, s) && WritesOwn(s) && ReadPc(s.pc) && (s.pc.Wait? ==> s.events != [])
    requires f < c.frameCnt && !s.pool.frames[f].en
    ensures
      var t := ReadStep(c, s, chunk, stale);
      |t.pool.frames| == c.frameCnt && t.pool.frames[f] == s.pool.frames[f] && t.pool.holder == s.pool.holder
  {
    hide StartsWithSoi, Stamped;
  }

  lemma SendLeavesFrame(c: Config, s: State, image: seq<byte>, f: nat)
    requires Bounded(c, s) && WritesOwn(s) && SendPc(s.pc)
    requires f < c.frameCnt && f !in Mine(s) && !s.pool.frames[f].en
    ensures
      var t := SendStep(c, s, image);
      |t.pool.frames| == c.frameCnt && t.pool.frames[f] == s.pool.frames[f] && t.pool.holder == s.pool.holder
  {
    hide Stamped;
    assert s.pc.Push? || s.pc.GiveBack? ==> s.pc.fb2 in Mine(s);
    assert InFlight(s) ==> s.pos in Mine(s);
  }

  lemma StartLeavesFrame(c: Config, s: State, started: bool, f: nat)
    requires Bounded(c, s) && WritesOwn(s) && StartPc(s.pc)
    requires f < c.frameCnt && !s.pool.frames[f].en
    ensures
      var t := StartStep(c, s, started);
      |t.pool.frames| == c.frameCnt && t.pool.frames[f] == s.pool.frames[f] && t.pool.holder == s.pool.holder
  {
    hide Stamped;
  }

  /** What a consumer holds stays as captured, for as long as it holds it. */
  lemma {:induction false} HeldFrameKept(c: Config, s: State, run: seq<Action>, f: nat)
    requires Inv(c, s) && Possible(c, s, run) && f in s.pool.holder && f < c.frameCnt
    requires forall a :: a in run ==> !Touches(a, f)
    ensures
      var t := After(c, s, run);
      && |t.pool.frames| == c.frameCnt && t.pool.frames[f] == s.pool.frames[f]
      && f in t.pool.holder && t.pool.holder[f] == s.pool.holder[f]
    decreases run
  {
    hide Step, Enabled, Touches;
    if run != [] {
      assert run[0] in run;
      hide PoolOk, Control, Sizes;
      StepLeavesFrame(c, s, run[0], f);
      StepInv(c, s, run[0]);
      HeldFrameKept(c, Step(c, s, run[0]), run[1..], f);
    }
  }

  // ----------------------------------------------------- the frame that is lost

  function Takes(run: seq<Action>): nat {
    if run == [] then 0 else Count(run[0].Take?) + Takes(run[1..])
  }

  /** Between a send that found the queue full and the capture task's next step. */
  lemma {:induction false} OthersDrain(c: Config, s: State, run: seq<Action>)
    requires Possible(c, s, run) && forall a :: a in run ==> !a.Task?
    ensures After(c, s, run).pc == s.pc
    ensures |After(c, s, run).pool.queue| + Takes(run) == |s.pool.queue|
    decreases run
  {
    if run != [] {
      assert run[0] in run;
      OthersDrain(c, Step(c, s, run[0]), run[1..]);
    }
  }

  /** A new frame that found the queue full is dropped if and only if consumers
      emptied the queue before the capture task could make room itself. */
  lemma LostIffDrained(c: Config, s: State, run: seq<Action>, chunk: seq<byte>, yes: bool)
    requires Inv(c, s) && s.pc.Send? && |s.pool.queue| == QueueLength(c)
    requires var s1 := SendStep(c, s, chunk); Possible(c, s1, run) && forall a :: a in run ==> !a.Task?
    ensures
      var s2 := After(c, SendStep(c, s, chunk), run);
      && Bounded(c, s2) && s2.pc.Pop?
      && (SendStep(c, s2, chunk).pc.Lost? <==> Takes(run) == QueueLength(c))
  {
    hide Step, Enabled, Inv;
    var s1 := SendStep(c, s, chunk);
    OthersDrain(c, s1, run);
    assert Bounded(c, After(c, s1, run)) by {
      EndBounded(c, s1, run);
    }
  }

  lemma {:induction false} EndBounded(c: Config, s: State, run: seq<Action>)
    requires Possible(c, s, run)
    ensures Bounded(c, After(c, s, run))
    decreases run
  {
    hide Step, Enabled;
    if run != [] {
      EndBounded(c, Step(c, s, run[0]), run[1..]);
    }
  }
}
