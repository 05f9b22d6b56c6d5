/** A capture without losses, from its first transfer to the next capture: what the
    capture task makes of the transfers that the hardware announces. */
module CamCapture {
  import opened Words
  import opened Markers
  import opened FramePool
  import opened CamHal

  /** The capture task waits for the events of a capture. */
  predicate Filling(c: Config, s: State) {
    && Bounded(c, s) && c.evCap >= 1
    && s.pc.Wait? && s.mode.ReadBuf? && s.events == [] && !s.stopping
  }

  // ------------------------------------------------------- what happens

  /** The buffer after one more transfer; one that may not fit is dropped. */
  function Grown(c: Config, have: seq<byte>, chunk: seq<byte>): seq<byte> {
    if |have| + c.perDma <= c.fbSize then have + chunk else have
  }

  function Received(c: Config, have: seq<byte>, chunks: seq<seq<byte>>): seq<byte>
    decreases chunks
  {
    if chunks == [] then have else Received(c, Grown(c, have, chunks[0]), chunks[1..])
  }

  function Flat(chunks: seq<seq<byte>>): seq<byte> {
    if chunks == [] then [] else chunks[0] + Flat(chunks[1..])
  }

  /** Full transfers arrive complete and in order while the frame has room. */
  lemma {:induction false} AllReceived(c: Config, have: seq<byte>, chunks: seq<seq<byte>>)
    requires forall i :: 0 <= i < |chunks| ==> |chunks[i]| == c.perDma
    requires |have| + |Flat(chunks)| <= c.fbSize
    ensures Received(c, have, chunks) == have + Flat(chunks)
    decreases chunks
  {
    if chunks != [] {
      AllReceived(c, have + chunks[0], chunks[1..]);
      assert (have + chunks[0]) + Flat(chunks[1..]) == have + (chunks[0] + Flat(chunks[1..]));
    }
  }

  /** The interrupt at the end of a transfer, and the steps that handle it. */
  function ChunkRun(c: Config, have: seq<byte>, chunk: seq<byte>): seq<Action> {
    [Interrupt(Eof)] + ([Task([], true)] + ([Task([], true)] + ([Task(chunk, true)]
      + if |have| + c.perDma <= c.fbSize then [Task([], true)] + [] else [])))
  }

  function ChunksRun(c: Config, have: seq<byte>, chunks: seq<seq<byte>>): seq<Action>
    decreases chunks
  {
    if chunks == [] then []
    else ChunkRun(c, have, chunks[0]) + ChunksRun(c, Grown(c, have, chunks[0]), chunks[1..])
  }

  /** The frame synchronisation, and the steps that handle it. */
  function VsyncRun(): seq<Action> {
    [Interrupt(Vsync)] + ([Task([], true)] + ([Task([], true)] + ([Task([], true)] + [])))
  }

  /** What follows: the last transfer, then the frame is disabled and measured, and
      sent if it is whole. */
  function SendRun(tail: seq<byte>, whole: bool): seq<Action> {
    [Task(tail, true)] + ([Task([], true)] + ([Task([], true)] + if whole then [Task([], true)] + [] else []))
  }

  /** The search for a free frame, and the start of the next capture. */
  function Tasks(n: nat): seq<Action> {
    if n == 0 then [] else [Task([], true)] + Tasks(n - 1)
  }

  function NextRun(searched: bool, f: nat): seq<Action> {
    [Task([], true)] + (Tasks(if searched then f + 1 else 0) + Tasks(2))
  }

  /** A whole capture, from an empty frame to the next empty frame, which is f. */
  function CaptureRun(c: Config, chunks: seq<seq<byte>>, tail: seq<byte>, whole: bool, f: nat): seq<Action> {
    ChunksRun(c, [], chunks) + (VsyncRun() + (SendRun(tail, whole) + NextRun(whole, f)))
  }

  // -------------------------------------------------------------- chaining

  lemma First(c: Config, s: State, a: Action, run: seq<Action>)
    requires Bounded(c, s) && Enabled(c, s, a) && Possible(c, Step(c, s, a), run)
    ensures Possible(c, s, [a] + run) && After(c, s, [a] + run) == After(c, Step(c, s, a), run)
  {
    hide Bounded, Enabled, Step;
    assert ([a] + run)[1..] == run;
  }

  lemma {:induction false} Chained(c: Config, s: State, run: seq<Action>, more: seq<Action>)
    requires Possible(c, s, run) && Possible(c, After(c, s, run), more)
    ensures Possible(c, s, run + more) && After(c, s, run + more) == After(c, After(c, s, run), more)
    decreases run
  {
    hide Bounded, Enabled, Step;
    if run == [] {
      assert run + more == more;
    } else {
      Chained(c, Step(c, s, run[0]), run[1..], more);
      assert (run + more)[1..] == run[1..] + more;
    }
  }

  lemma Phases(c: Config, s: State, a: seq<Action>, b: seq<Action>, d: seq<Action>, e: seq<Action>)
    requires Possible(c, s, a) && Possible(c, After(c, s, a), b) && Possible(c, After(c, After(c, s, a), b), d)
    requires Possible(c, After(c, After(c, After(c, s, a), b), d), e)
    ensures Possible(c, s, a + (b + (d + e)))
    ensures After(c, s, a + (b + (d + e))) == After(c, After(c, After(c, After(c, s, a), b), d), e)
  {
    hide Possible, After;
    var s1 := After(c, s, a);
    Chained(c, After(c, s1, b), d, e);
    Chained(c, s1, b, d + e);
    Chained(c, s, a, b + (d + e));
  }

  lemma Done(c: Config, s: State)
    requires Bounded(c, s)
    ensures Possible(c, s, []) && After(c, s, []) == s
  {
  }

  // ------------------------------------------------------------ one transfer

  function AfterChunk(c: Config, s: State, chunk: seq<byte>): State
    requires Bounded(c, s)
  {
    if Fits(c, s) then Append(s, chunk).(cnt := s.cnt + 1) else s.(running := false)
  }

  lemma ChunkArrives(c: Config, s: State, chunk: seq<byte>)
    requires Filling(c, s) && !c.psram && |chunk| <= c.perDma
    requires c.jpeg && s.cnt == 0 && Fits(c, s) ==> SoiAt(Data(s) + chunk, 0)
    ensures Possible(c, s, ChunkRun(c, Data(s), chunk))
    ensures After(c, s, ChunkRun(c, Data(s), chunk)) == AfterChunk(c, s, chunk)
    ensures Filling(c, AfterChunk(c, s, chunk)) && Data(AfterChunk(c, s, chunk)) == Grown(c, Data(s), chunk)
  {
    hide Possible, After;
    var t := AfterChunk(c, s, chunk);
    var r4 := if Fits(c, s) then [Task([], true)] + [] else [];
    Done(c, t);
    if Fits(c, s) {
      First(c, Append(s, chunk).(pc := Check), Task([], true), []);
    }
    First(c, s.(pc := Reading(Eof)), Task(chunk, true), r4);
    var r3 := [Task(chunk, true)] + r4;
    First(c, s.(pc := Got(Eof)), Task([], true), r3);
    var r2 := [Task([], true)] + r3;
    assert [Eof][1..] == [] && s.events + [Eof] == [Eof];
    First(c, s.(events := [Eof]), Task([], true), r2);
    First(c, s, Interrupt(Eof), [Task([], true)] + r2);
  }

  /** The transfers of a capture, one after the other. */
  predicate Transfers(c: Config, chunks: seq<seq<byte>>) {
    forall i :: 0 <= i < |chunks| ==> |chunks[i]| <= c.perDma
  }

  /** Only the first transfer of a JPEG is looked at. */
  predicate Marked(c: Config, s: State, chunks: seq<seq<byte>>)
    requires Bounded(c, s)
  {
    c.jpeg && s.cnt == 0 && chunks != [] && Fits(c, s) ==> SoiAt(Data(s) + chunks[0], 0)
  }

  lemma {:induction false} ChunksArrive(c: Config, s: State, chunks: seq<seq<byte>>)
    requires Filling(c, s) && !c.psram && Transfers(c, chunks) && Marked(c, s, chunks)
    ensures Possible(c, s, ChunksRun(c, Data(s), chunks))
    ensures
      var t := After(c, s, ChunksRun(c, Data(s), chunks));
      && Filling(c, t) && t.pos == s.pos && t.clock == s.clock
      && t.pool == SetData(s.pool, s.pos, Received(c, Data(s), chunks))
      && t.completed == s.completed && t.evicted == s.evicted && t.lost == s.lost
      && (t.cnt > 0 <==> s.cnt > 0 || (chunks != [] && Fits(c, s)))
    decreases |chunks|
  {
    hide Possible, After;
    if chunks == [] {
      Done(c, s);
      assert s.pool.frames[s.pos := s.pool.frames[s.pos]] == s.pool.frames;
    } else {
      var t := AfterChunk(c, s, chunks[0]);
      ChunkArrives(c, s, chunks[0]);
      ChunksArrive(c, t, chunks[1..]);
      Chained(c, s, ChunkRun(c, Data(s), chunks[0]), ChunksRun(c, Data(t), chunks[1..]));
      SetTwice(s.pool, s.pos, Data(t), Received(c, Data(s), chunks));
    }
  }

  lemma SetTwice(p: Pool, f: nat, a: seq<byte>, b: seq<byte>)
    requires f < |p.frames|
    ensures SetData(SetData(p, f, a), f, b) == SetData(p, f, b)
    ensures p.frames[f].data == b ==> SetData(p, f, b) == p
  {
  }

  // -------------------------------------------------------- the end of it

  /** What the frame holds in the end: a JPEG ends with the transfer that the
      frame synchronisation cuts off. */
  function Whole(c: Config, data: seq<byte>, tail: seq<byte>): seq<byte> {
    if c.jpeg then Grown(c, data, tail) else data
  }

  /** Whether there is a picture: some transfer of a JPEG, all pixels otherwise. */
  predicate IsWhole(c: Config, s: State)
    requires Bounded(c, s)
  {
    if c.jpeg then s.cnt > 0 else |Data(s)| == c.fbSize
  }

  lemma VsyncArrives(c: Config, s: State)
    requires Filling(c, s)
    ensures Possible(c, s, VsyncRun())
    ensures After(c, s, VsyncRun()) == s.(running := false, pc := Closing)
  {
    hide Possible, After;
    assert [Vsync][1..] == [] && s.events + [Vsync] == [Vsync];
    Done(c, s.(running := false, pc := Closing));
    First(c, s.(pc := Reading(Vsync)), Task([], true), []);
    var r3: seq<Action> := [Task([], true)] + [];
    First(c, s.(pc := Got(Vsync)), Task([], true), r3);
    var r2 := [Task([], true)] + r3;
    First(c, s.(events := [Vsync]), Task([], true), r2);
    First(c, s, Interrupt(Vsync), [Task([], true)] + r2);
  }

  /** The frame is disabled and goes to the end of the queue. */
  function Sent(p: Pool, f: nat): Pool
    requires f < |p.frames|
  {
    SetEn(p, f, false).(queue := p.queue + [f])
  }

  /** What is left of a capture: a whole frame is sent and counted, another one is
      free again. */
  function AfterSend(c: Config, s: State, tail: seq<byte>): State
    requires Bounded(c, s)
  {
    if IsWhole(c, s)
    then s.(pc := Probe(false), completed := s.completed + 1, cnt := CntAfter(c, s),
            pool := Sent(SetData(s.pool, s.pos, Whole(c, Data(s), tail)), s.pos))
    else s.(pc := Probe(false))
  }

  function CntAfter(c: Config, s: State): nat
    requires Bounded(c, s)
  {
    if c.jpeg && Fits(c, s) then s.cnt + 1 else s.cnt
  }

  lemma FrameEnds(c: Config, s: State, tail: seq<byte>)
    requires Bounded(c, s) && s.pc.Closing? && !c.psram && |tail| <= c.perDma && s.pool.frames[s.pos].en
    requires |s.pool.queue| < QueueLength(c) && (c.jpeg ==> s.cnt > 0)
    ensures Possible(c, s, SendRun(tail, IsWhole(c, s)))
    ensures After(c, s, SendRun(tail, IsWhole(c, s))) == AfterSend(c, s, tail)
  {
    hide Possible, After, StartsWithSoi, StartStep;
    var whole := IsWhole(c, s);
    var p := SetData(s.pool, s.pos, Whole(c, Data(s), tail));
    assert s.pool.frames[s.pos := s.pool.frames[s.pos]] == s.pool.frames;
    assert !whole ==> SetEn(SetEn(p, s.pos, false), s.pos, true).frames == s.pool.frames;
    var t2 := s.(pc := Disable, cnt := CntAfter(c, s), pool := p);
    var t3 := t2.(pc := Measure, pool := SetEn(p, s.pos, false));
    var t4 := t3.(pc := Send, completed := s.completed + 1);
    var r4 := if whole then [Task([], true)] + [] else [];
    Done(c, AfterSend(c, s, tail));
    if whole {
      First(c, t4, Task([], true), []);
    }
    First(c, t3, Task([], true), r4);
    var r3 := [Task([], true)] + r4;
    First(c, t2, Task([], true), r3);
    First(c, s, Task(tail, true), [Task([], true)] + r3);
  }

  // -------------------------------------------------------- the next one

  /** The frame of the next capture: the same one if it is free, otherwise the
      first free one. */
  predicate IsNext(p: Pool, pos: nat, f: nat)
    requires pos < |p.frames|
  {
    && f < |p.frames| && p.frames[f].en
    && (p.frames[pos].en ==> f == pos)
    && (!p.frames[pos].en ==> forall x :: 0 <= x < f ==> !p.frames[x].en)
  }

  lemma {:induction false} SearchEnds(c: Config, s: State, f: nat)
    requires Bounded(c, s) && s.pc.Scan? && s.pc.x <= f < c.frameCnt && s.pool.frames[f].en && !c.psram
    requires forall x :: s.pc.x <= x < f ==> !s.pool.frames[x].en
    ensures Possible(c, s, Tasks(f - s.pc.x + 1))
    ensures After(c, s, Tasks(f - s.pc.x + 1)) == s.(pos := f, pc := Start(s.pc.idle))
    decreases f - s.pc.x
  {
    hide Possible, After;
    var t := StartStep(c, s, true);
    if s.pc.x < f {
      SearchEnds(c, t, f);
    } else {
      Done(c, t);
    }
    First(c, s, Task([], true), Tasks(f - s.pc.x));
  }

  function Restarted(c: Config, s: State, f: nat): State
    requires Bounded(c, s) && f < c.frameCnt
  {
    s.(pos := f, pc := Wait, running := true, clock := s.clock + 1, cnt := 0,
       pool := SetData(SetStamp(s.pool, f, s.clock + 1), f, []))
  }

  lemma StartArrives(c: Config, s: State)
    requires Bounded(c, s) && s.pc == Start(false) && !c.psram
    ensures Possible(c, s, Tasks(2)) && After(c, s, Tasks(2)) == Restarted(c, s, s.pos)
  {
    hide Possible, After;
    var t := StartStep(c, s, true);
    assert Tasks(2) == [Task([], true)] + Tasks(1) && Tasks(1) == [Task([], true)] + [];
    Done(c, Restarted(c, s, s.pos));
    First(c, t, Task([], true), []);
    First(c, s, Task([], true), Tasks(1));
  }

  lemma NextBegins(c: Config, s: State, f: nat)
    requires Bounded(c, s) && s.pc == Probe(false) && !c.psram && IsNext(s.pool, s.pos, f)
    ensures
      var run := NextRun(!s.pool.frames[s.pos].en, f);
      Possible(c, s, run) && After(c, s, run) == Restarted(c, s, f)
  {
    hide Possible, After, Tasks, Stamped;
    var t := s.(pos := f, pc := Start(false));
    StartArrives(c, t);
    if s.pool.frames[s.pos].en {
      NoTasks();
      First(c, s, Task([], true), [] + Tasks(2));
    } else {
      var u := s.(pc := Scan(false, 0));
      SearchEnds(c, u, f);
      Chained(c, u, Tasks(f + 1), Tasks(2));
      First(c, s, Task([], true), Tasks(f + 1) + Tasks(2));
    }
  }

  lemma NoTasks()
    ensures Tasks(0) == [] && [] + Tasks(2) == Tasks(2)
  {
  }

  // ---------------------------------------------------------- main result

  /** The capture of an empty frame begins. */
  predicate Empty(c: Config, s: State) {
    Filling(c, s) && s.cnt == 0 && Data(s) == [] && s.pool.frames[s.pos].en
  }

  /** The picture that these transfers make. */
  function Picture(c: Config, chunks: seq<seq<byte>>, tail: seq<byte>): seq<byte> {
    Whole(c, Received(c, [], chunks), tail)
  }

  /** A JPEG needs one transfer, which starts it; raw pixels must be all there. */
  predicate Good(c: Config, chunks: seq<seq<byte>>) {
    c.jpeg || |Received(c, [], chunks)| == c.fbSize
  }

  predicate Starts(c: Config, chunks: seq<seq<byte>>) {
    c.jpeg ==> chunks != [] && SoiAt(chunks[0], 0) && c.perDma <= c.fbSize
  }

  /** The first free frame other than pos; without a picture, pos itself. */
  predicate Follows(p: Pool, pos: nat, sent: bool, f: nat) {
    if sent
    then f < |p.frames| && f != pos && p.frames[f].en && (forall x :: 0 <= x < f && x != pos ==> !p.frames[x].en)
    else f == pos
  }

  lemma FrameArrives(c: Config, s: State, chunks: seq<seq<byte>>, tail: seq<byte>, f: nat)
    requires Empty(c, s) && !c.psram && |s.pool.queue| < QueueLength(c)
    requires Transfers(c, chunks) && |tail| <= c.perDma && Starts(c, chunks)
    requires Follows(s.pool, s.pos, Good(c, chunks), f)
    ensures
      var run, good := CaptureRun(c, chunks, tail, Good(c, chunks), f), Good(c, chunks);
      && Possible(c, s, run)
      && var t := After(c, s, run);
      && Empty(c, t) && t.pos == f && t.pool.holder == s.pool.holder && t.pool.taken == s.pool.taken
      && t.pool.queue == s.pool.queue + (if good then [s.pos] else [])
      && t.completed == s.completed + Count(good) && t.evicted == s.evicted && t.lost == s.lost
      && (good ==> t.pool.frames[s.pos].data == Picture(c, chunks, tail) && !t.pool.frames[s.pos].en)
      && (forall g :: 0 <= g < c.frameCnt && g != s.pos && g != f ==> t.pool.frames[g] == s.pool.frames[g])
  {
    hide Possible, After, ChunksRun, VsyncRun, SendRun, NextRun, Received, Whole, SoiAt;
    var good := Good(c, chunks);
    if chunks != [] {
      assert [] + chunks[0] == chunks[0];
    }
    ChunksArrive(c, s, chunks);
    var s1 := After(c, s, ChunksRun(c, [], chunks));
    VsyncArrives(c, s1);
    var s2 := s1.(running := false, pc := Closing);
    FrameEnds(c, s2, tail);
    var s3 := AfterSend(c, s2, tail);
    NextBegins(c, s3, f);
    Phases(c, s, ChunksRun(c, [], chunks), VsyncRun(), SendRun(tail, good), NextRun(good, f));
  }
}
