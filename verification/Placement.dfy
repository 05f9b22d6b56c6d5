/** Which place of the image each block of a scan shows: T.81 section A.2.3, from
    the sampling factors of the frame header alone. */
module Placement {
  import opened Words
  import opened Geometry
  import opened Headers
  import opened JpegFile

  /** Block column x and block row y of a component. */
  datatype BlockPlace = BlockPlace(comp: nat, x: nat, y: nat)

  predicate Sampled(cs: seq<FrameComponent>) {
    forall i :: 0 <= i < |cs| ==> cs[i].h >= 1 && cs[i].v >= 1
  }

  /** The blocks that an MCU has of these components. */
  function McuSize(cs: seq<FrameComponent>): nat
    requires Sampled(cs)
  {
    if cs == [] then 0 else cs[0].h * cs[0].v + McuSize(cs[1..])
  }

  /** Block j of those that component i, with h by v of them in an MCU, has in the
      MCU in column mx, row my: from left to right and from top to bottom. */
  function InComponent(i: nat, h: nat, v: nat, mx: nat, my: nat, j: nat): BlockPlace
    requires h >= 1
  {
    BlockPlace(i, h * mx + j % h, v * my + j / h)
  }

  /** Block j of that MCU, component after component. */
  function PlaceInMcu(cs: seq<FrameComponent>, i: nat, mx: nat, my: nat, j: nat): (p: BlockPlace)
    requires Sampled(cs) && j < McuSize(cs)
    ensures i <= p.comp < i + |cs|
    decreases cs
  {
    var c := cs[0];
    if j < c.h * c.v then InComponent(i, c.h, c.v, mx, my, j)
    else PlaceInMcu(cs[1..], i + 1, mx, my, j - c.h * c.v)
  }

  /** Block n of the scan, when the MCUs go from left to right, across in a row. */
  function PlaceOf(cs: seq<FrameComponent>, across: nat, n: nat): (p: BlockPlace)
    requires Sampled(cs) && McuSize(cs) > 0 && across > 0
    ensures p.comp < |cs|
  {
    var mcu := n / McuSize(cs);
    PlaceInMcu(cs, 0, mcu % across, mcu / across, n % McuSize(cs))
  }

  /** A sample of component c, when dx by dy samples of the image make one: the
      mean, rounded down, or for four samples down and to nearest in turn. */
  function ShownSample(f: Format, rows: seq<seq<byte>>, c: nat, dx: nat, dy: nat, x: nat, y: nat): int
    requires ValidFormat(f) && ValidRows(f, rows) && rows != []
  {
    if dx == 1 && dy == 1 then Plane(f, rows, c, x, y) - 128
    else if dy == 1 then (Plane(f, rows, c, 2 * x, y) + Plane(f, rows, c, 2 * x + 1, y)) / 2 - 128
    else
      (Plane(f, rows, c, 2 * x, 2 * y) + Plane(f, rows, c, 2 * x + 1, 2 * y)
       + Plane(f, rows, c, 2 * x, 2 * y + 1) + Plane(f, rows, c, 2 * x + 1, 2 * y + 1)
       + if (x + y) % 2 == 0 then 0 else 2) / 4 - 128
  }

  /** The 64 samples of a component at a place; how many samples of the image make
      one follows from the largest sampling factors of the frame. */
  function ShownBlock(f: Format, rows: seq<seq<byte>>, cs: seq<FrameComponent>, p: BlockPlace): (s: seq<int>)
    requires ValidFormat(f) && ValidRows(f, rows) && rows != [] && Sampled(cs) && p.comp < |cs|
    ensures |s| == 64
  {
    var dx, dy := MaxSampling(cs, false) / cs[p.comp].h, MaxSampling(cs, true) / cs[p.comp].v;
    seq(64, k requires 0 <= k < 64 =>
      ShownSample(f, rows, p.comp, if dx > 0 then dx else 0, if dy > 0 then dy else 0, 8 * p.x + k % 8, 8 * p.y + k / 8))
  }

  // -------------------------------------------------- the blocks in order

  /** Element i of a is element j of b. */
  predicate Same<T(==)>(a: seq<T>, i: int, b: seq<T>, j: int) {
    0 <= i < |a| && 0 <= j < |b| && a[i] == b[j]
  }

  /** A position before the end stays, one behind it moves. */
  lemma SameAppend<T>(a: seq<T>, i: int, b: seq<T>, j: int, c: seq<T>)
    ensures Same(a, i, b, j) ==> Same(a + c, i, b, j)
    ensures Same(c, i, b, j) ==> Same(a + c, |a| + i, b, j)
  {
  }

  lemma {:induction false} RowBlockAt(f: Format, ls: seq<seq<byte>>, n: nat, i: nat, j: nat)
    requires ValidLines(f, ls) && i < n <= McusPerRow(f) && j < BlocksPerMcu(f.mode)
    ensures Same(RowBlocks(f, ls, n), i * BlocksPerMcu(f.mode) + j, McuBlocks(f, ls, i), j)
  {
    hide McuBlocks, BlocksPerMcu, McusPerRow, ValidLines;
    McuBlockCount(f, ls, n - 1);
    RowBlockCount(f, ls, n - 1);
    if i < n - 1 {
      RowBlockAt(f, ls, n - 1, i, j);
      SameAppend(RowBlocks(f, ls, n - 1), i * BlocksPerMcu(f.mode) + j, McuBlocks(f, ls, i), j, McuBlocks(f, ls, n - 1));
    } else {
      SameAppend(RowBlocks(f, ls, n - 1), j, McuBlocks(f, ls, i), j, McuBlocks(f, ls, n - 1));
    }
  }

  lemma McuBlockCount(f: Format, ls: seq<seq<byte>>, i: nat)
    requires ValidLines(f, ls) && i < McusPerRow(f)
    ensures |McuBlocks(f, ls, i)| == BlocksPerMcu(f.mode)
  {
    hide FullBlock, HalfBlock, QuarterBlock;
  }

  lemma {:induction false} ImageBlockCount(f: Format, rows: seq<seq<byte>>, n: nat)
    requires ValidFormat(f) && ValidRows(f, rows) && (n > 0 ==> rows != [])
    ensures |ImageBlocks(f, rows, n)| == n * (McusPerRow(f) * BlocksPerMcu(f.mode))
  {
    hide RowBlocks, McuLines, McusPerRow, BlocksPerMcu;
    if n > 0 {
      ImageBlockCount(f, rows, n - 1);
      RowBlockCount(f, McuLines(f, rows, n - 1), McusPerRow(f));
      var size := McusPerRow(f) * BlocksPerMcu(f.mode);
      assert n * size == (n - 1) * size + size;
    }
  }

  lemma {:induction false} ImageBlockAt(f: Format, rows: seq<seq<byte>>, n: nat, m: nat, i: nat, j: nat)
    requires ValidFormat(f) && ValidRows(f, rows) && rows != [] && m < n && i < McusPerRow(f) && j < BlocksPerMcu(f.mode)
    ensures
      var b := BlocksPerMcu(f.mode);
      Same(ImageBlocks(f, rows, n), m * (McusPerRow(f) * b) + (i * b + j), McuBlocks(f, McuLines(f, rows, m), i), j)
  {
    hide RowBlocks, McuBlocks, McuLines, McusPerRow, BlocksPerMcu, Same, ValidLines;
    var b := BlocksPerMcu(f.mode);
    var before, last := ImageBlocks(f, rows, n - 1), RowBlocks(f, McuLines(f, rows, n - 1), McusPerRow(f));
    var mcu := McuBlocks(f, McuLines(f, rows, m), i);
    ImageBlockCount(f, rows, n - 1);
    RowBlockAt(f, McuLines(f, rows, m), McusPerRow(f), i, j);
    if m < n - 1 {
      ImageBlockAt(f, rows, n - 1, m, i, j);
      SameAppend(before, m * (McusPerRow(f) * b) + (i * b + j), mcu, j, last);
    } else {
      SameAppend(before, i * b + j, mcu, j, last);
    }
  }

  // ------------------------------------------------------- what they show

  /** The frame header in numbers. */
  lemma FrameFacts(m: Subsampling)
    ensures Sampled(FrameOf(m)) && McuSize(FrameOf(m)) == BlocksPerMcu(m)
    ensures 8 * MaxSampling(FrameOf(m), false) == McuWidth(m) && 8 * MaxSampling(FrameOf(m), true) == McuHeight(m)
    ensures |FrameOf(m)| == Components(m)
    ensures FrameOf(m)[0].h == MaxSampling(FrameOf(m), false) && FrameOf(m)[0].v == MaxSampling(FrameOf(m), true)
    ensures !m.YOnly? ==> FrameOf(m)[1].h == FrameOf(m)[1].v == FrameOf(m)[2].h == FrameOf(m)[2].v == 1
  {
    hide HSamp, VSamp, McuSize, MaxSampling, BlocksPerMcu, McuWidth, McuHeight;
    FewBlocks(m);
    NoSize();
    var luma := FrameComponent(1, HSamp(m, 0), VSamp(m, 0), 0);
    var blue, red := FrameComponent(2, 1, 1, 1), FrameComponent(3, 1, 1, 1);
    if m.YOnly? {
      FrameStep(luma, []);
      assert FrameOf(m) == [luma] + [];
    } else {
      FrameStep(red, []);
      FrameStep(blue, [red] + []);
      FrameStep(luma, [blue] + ([red] + []));
      assert FrameOf(m) == [luma] + ([blue] + ([red] + []));
    }
  }

  lemma FrameStep(c: FrameComponent, cs: seq<FrameComponent>)
    requires c.h >= 1 && c.v >= 1 && Sampled(cs)
    ensures Sampled([c] + cs) && McuSize([c] + cs) == c.h * c.v + McuSize(cs)
    ensures MaxSampling([c] + cs, false) == Max(MaxSampling(cs, false), c.h)
    ensures MaxSampling([c] + cs, true) == Max(MaxSampling(cs, true), c.v)
    ensures MaxSampling([], false) == 1 && MaxSampling([], true) == 1
  {
    assert ([c] + cs)[1..] == cs;
  }

  /** Where the blocks of an MCU belong, mode by mode. */
  lemma LumaPlace(m: Subsampling, mx: nat, my: nat, j: nat)
    requires j < HSamp(m, 0) * VSamp(m, 0)
    ensures Sampled(FrameOf(m)) && j < McuSize(FrameOf(m))
    ensures PlaceInMcu(FrameOf(m), 0, mx, my, j)
         == BlockPlace(0, HSamp(m, 0) * mx + j % HSamp(m, 0), VSamp(m, 0) * my + j / HSamp(m, 0))
  {
    hide McuSize, HSamp, VSamp;
    FrameFacts(m);
    FewBlocks(m);
  }

  lemma FewBlocks(m: Subsampling)
    ensures HSamp(m, 0) * VSamp(m, 0) + (if m.YOnly? then 0 else 2) == BlocksPerMcu(m)
    ensures HSamp(m, 0) >= 1 && VSamp(m, 0) >= 1
    ensures 8 * HSamp(m, 0) == McuWidth(m) && 8 * VSamp(m, 0) == McuHeight(m)
  {
  }

  lemma ChromaPlace(m: Subsampling, mx: nat, my: nat, c: nat)
    requires !m.YOnly? && 1 <= c <= 2
    ensures
      var j := HSamp(m, 0) * VSamp(m, 0) + c - 1;
      && Sampled(FrameOf(m)) && j < McuSize(FrameOf(m))
      && PlaceInMcu(FrameOf(m), 0, mx, my, j) == BlockPlace(c, mx, my)
  {
    hide HSamp, VSamp, McuSize;
    FrameFacts(m);
    FewBlocks(m);
    var f0 := FrameOf(m)[0];
    var blue, red := FrameComponent(2, 1, 1, 1), FrameComponent(3, 1, 1, 1);
    var j := HSamp(m, 0) * VSamp(m, 0) + c - 1;
    FrameStep(red, []);
    FrameStep(blue, [red] + []);
    NoSize();
    assert FrameOf(m)[1..] == [blue] + ([red] + []);
    assert ([blue] + ([red] + []))[1..] == [red] + [];
    SmallPlace(blue, [red] + [], 1, mx, my, c - 1);
    if c == 2 {
      SmallPlace(red, [], 2, mx, my, 0);
    }
    assert PlaceInMcu(FrameOf(m), 0, mx, my, j) == PlaceInMcu(FrameOf(m)[1..], 1, mx, my, c - 1);
  }

  lemma NoSize()
    ensures McuSize([]) == 0
  {
  }

  /** A component with one block in each MCU. */
  lemma SmallPlace(c: FrameComponent, cs: seq<FrameComponent>, i: nat, mx: nat, my: nat, j: nat)
    requires c.h == c.v == 1 && Sampled(cs) && Sampled([c] + cs) && j < 1 + McuSize(cs) && j < McuSize([c] + cs)
    ensures PlaceInMcu([c] + cs, i, mx, my, j)
         == if j == 0 then BlockPlace(i, mx, my) else PlaceInMcu(cs, i + 1, mx, my, j - 1)
  {
    assert ([c] + cs)[1..] == cs;
  }

  lemma ShownAt(f: Format, rows: seq<seq<byte>>, p: BlockPlace, dx: nat, dy: nat, k: nat)
    requires ValidFormat(f) && ValidRows(f, rows) && rows != []
    requires Sampled(FrameOf(f.mode)) && p.comp < |FrameOf(f.mode)| && k < 64
    requires MaxSampling(FrameOf(f.mode), false) / FrameOf(f.mode)[p.comp].h == dx
    requires MaxSampling(FrameOf(f.mode), true) / FrameOf(f.mode)[p.comp].v == dy
    ensures ShownBlock(f, rows, FrameOf(f.mode), p)[k] == ShownSample(f, rows, p.comp, dx, dy, 8 * p.x + k % 8, 8 * p.y + k / 8)
  {
    hide ShownSample, MaxSampling, FrameOf;
  }

  lemma LumaShows(f: Format, rows: seq<seq<byte>>, my: nat, i: nat, j: nat)
    requires ValidFormat(f) && ValidRows(f, rows) && rows != [] && i < McusPerRow(f)
    requires j < HSamp(f.mode, 0) * VSamp(f.mode, 0)
    ensures
      var h, v := HSamp(f.mode, 0), VSamp(f.mode, 0);
      && h * i + j % h < BlocksAcross(f) && 8 * (j / h) < McuHeight(f.mode) && Sampled(FrameOf(f.mode))
      && FullBlock(f, McuLines(f, rows, my), h * i + j % h, j / h, 0)
         == ShownBlock(f, rows, FrameOf(f.mode), BlockPlace(0, h * i + j % h, v * my + j / h))
  {
    hide McusPerRow, FullBlock, ShownBlock, McuLines, Plane, MaxSampling, FrameOf;
    var h, v := HSamp(f.mode, 0), VSamp(f.mode, 0);
    FrameFacts(f.mode);
    LumaInside(f, i, j);
    var p := BlockPlace(0, h * i + j % h, v * my + j / h);
    forall k | 0 <= k < 64
      ensures FullBlock(f, McuLines(f, rows, my), h * i + j % h, j / h, 0)[k] == ShownBlock(f, rows, FrameOf(f.mode), p)[k]
    {
      FullBlockShows(f, rows, my, h * i + j % h, j / h, 0, k);
      ShownAt(f, rows, p, 1, 1, k);
      TopOfBlock(f, my, j);
    }
  }

  lemma LumaInside(f: Format, i: nat, j: nat)
    requires i < McusPerRow(f) && j < HSamp(f.mode, 0) * VSamp(f.mode, 0)
    ensures HSamp(f.mode, 0) * i + j % HSamp(f.mode, 0) < BlocksAcross(f) && 8 * (j / HSamp(f.mode, 0)) < McuHeight(f.mode)
  {
    hide McusPerRow;
  }

  lemma TopOfBlock(f: Format, my: nat, j: nat)
    requires j < HSamp(f.mode, 0) * VSamp(f.mode, 0)
    ensures McuTop(f, my) + 8 * (j / HSamp(f.mode, 0)) == 8 * (VSamp(f.mode, 0) * my + j / HSamp(f.mode, 0))
  {
  }

  lemma ChromaFullShows(f: Format, rows: seq<seq<byte>>, my: nat, i: nat, c: nat)
    requires ValidFormat(f) && ValidRows(f, rows) && rows != [] && i < McusPerRow(f) && f.mode.H1V1? && 1 <= c <= 2
    ensures Sampled(FrameOf(f.mode))
    ensures FullBlock(f, McuLines(f, rows, my), i, 0, c) == ShownBlock(f, rows, FrameOf(f.mode), BlockPlace(c, i, my))
  {
    hide McusPerRow, FullBlock, ShownBlock, McuLines, Plane, MaxSampling, FrameOf;
    FrameFacts(f.mode);
    forall k | 0 <= k < 64
      ensures FullBlock(f, McuLines(f, rows, my), i, 0, c)[k] == ShownBlock(f, rows, FrameOf(f.mode), BlockPlace(c, i, my))[k]
    {
      FullBlockShows(f, rows, my, i, 0, c, k);
      ShownAt(f, rows, BlockPlace(c, i, my), 1, 1, k);
    }
  }

  lemma ChromaHalfShows(f: Format, rows: seq<seq<byte>>, my: nat, i: nat, c: nat)
    requires ValidFormat(f) && ValidRows(f, rows) && rows != [] && i < McusPerRow(f) && f.mode.H2V1? && 1 <= c <= 2
    ensures Sampled(FrameOf(f.mode))
    ensures HalfBlock(f, McuLines(f, rows, my), i, c) == ShownBlock(f, rows, FrameOf(f.mode), BlockPlace(c, i, my))
  {
    hide McusPerRow, HalfBlock, ShownBlock, McuLines, Plane, MaxSampling, FrameOf;
    FrameFacts(f.mode);
    forall k | 0 <= k < 64
      ensures HalfBlock(f, McuLines(f, rows, my), i, c)[k] == ShownBlock(f, rows, FrameOf(f.mode), BlockPlace(c, i, my))[k]
    {
      HalfBlockShows(f, rows, my, i, c, k);
      ShownAt(f, rows, BlockPlace(c, i, my), 2, 1, k);
    }
  }

  lemma Parity(x: nat, y: nat, half: nat, odd: nat)
    requires x + y == 2 * half + odd
    ensures (x + y) % 2 == odd % 2
  {
  }

  lemma QuarterSampleAt(f: Format, rows: seq<seq<byte>>, my: nat, i: nat, c: nat, k: nat)
    requires ValidFormat(f) && ValidRows(f, rows) && rows != [] && i < McusPerRow(f) && f.mode.H2V2? && c < 3 && k < 64
    ensures QuarterBlock(f, McuLines(f, rows, my), i, c)[k]
         == ShownSample(f, rows, c, 2, 2, 8 * i + k % 8, 8 * my + k / 8)
  {
    hide McusPerRow, QuarterBlock, McuLines, Plane;
    QuarterBlockShows(f, rows, my, i, c, k);
    Parity(8 * i + k % 8, 8 * my + k / 8, 4 * i + 4 * my, k / 8 + k % 8);
  }

  lemma ChromaQuarterShows(f: Format, rows: seq<seq<byte>>, my: nat, i: nat, c: nat)
    requires ValidFormat(f) && ValidRows(f, rows) && rows != [] && i < McusPerRow(f) && f.mode.H2V2? && 1 <= c <= 2
    ensures Sampled(FrameOf(f.mode))
    ensures QuarterBlock(f, McuLines(f, rows, my), i, c) == ShownBlock(f, rows, FrameOf(f.mode), BlockPlace(c, i, my))
  {
    hide McusPerRow, QuarterBlock, ShownBlock, ShownSample, McuLines, Plane, MaxSampling, FrameOf;
    FrameFacts(f.mode);
    forall k | 0 <= k < 64
      ensures QuarterBlock(f, McuLines(f, rows, my), i, c)[k] == ShownBlock(f, rows, FrameOf(f.mode), BlockPlace(c, i, my))[k]
    {
      QuarterSampleAt(f, rows, my, i, c, k);
      ShownAt(f, rows, BlockPlace(c, i, my), 2, 2, k);
    }
  }

  /** The luma blocks come first. */
  lemma LumaBlock(f: Format, rows: seq<seq<byte>>, my: nat, i: nat, j: nat)
    requires ValidFormat(f) && ValidRows(f, rows) && rows != [] && i < McusPerRow(f)
    requires j < HSamp(f.mode, 0) * VSamp(f.mode, 0)
    ensures
      var h := HSamp(f.mode, 0);
      && h * i + j % h < BlocksAcross(f) && 8 * (j / h) < McuHeight(f.mode)
      && j < |McuBlocks(f, McuLines(f, rows, my), i)|
      && McuBlocks(f, McuLines(f, rows, my), i)[j] == RawBlock(0, FullBlock(f, McuLines(f, rows, my), h * i + j % h, j / h, 0))
  {
    hide McusPerRow, McuLines, FullBlock, HalfBlock, QuarterBlock, ValidLines;
    LumaInside(f, i, j);
  }

  lemma McuBlockShows(f: Format, rows: seq<seq<byte>>, my: nat, i: nat, j: nat)
    requires ValidFormat(f) && ValidRows(f, rows) && rows != [] && i < McusPerRow(f) && j < BlocksPerMcu(f.mode)
    ensures Sampled(FrameOf(f.mode)) && j < McuSize(FrameOf(f.mode)) && j < |McuBlocks(f, McuLines(f, rows, my), i)|
    ensures
      var p := PlaceInMcu(FrameOf(f.mode), 0, i, my, j);
      McuBlocks(f, McuLines(f, rows, my), i)[j] == RawBlock(p.comp, ShownBlock(f, rows, FrameOf(f.mode), p))
  {
    hide McusPerRow, McuLines, FullBlock, HalfBlock, QuarterBlock, ShownBlock, FrameOf, PlaceInMcu, McuSize, ValidLines;
    FrameFacts(f.mode);
    FewBlocks(f.mode);
    if j < HSamp(f.mode, 0) * VSamp(f.mode, 0) {
      hide McuBlocks;
      LumaPlace(f.mode, i, my, j);
      LumaBlock(f, rows, my, i, j);
      LumaShows(f, rows, my, i, j);
    } else {
      var c := j - HSamp(f.mode, 0) * VSamp(f.mode, 0) + 1;
      ChromaPlace(f.mode, i, my, c);
      if f.mode.H1V1? {
        ChromaFullShows(f, rows, my, i, c);
      } else if f.mode.H2V1? {
        ChromaHalfShows(f, rows, my, i, c);
      } else {
        ChromaQuarterShows(f, rows, my, i, c);
      }
    }
  }

  lemma SplitIndex(n: nat, across: nat, size: nat)
    requires across > 0 && size > 0
    ensures
      var mcu := n / size;
      var m, i, j := mcu / across, mcu % across, n % size;
      m >= 0 && 0 <= i < across && 0 <= j < size && n == m * (across * size) + i * size + j
  {
    var mcu := n / size;
    QuotientBounds(n, size);
    QuotientBounds(mcu, across);
    var m := mcu / across;
    assert mcu == across * m + mcu % across;
    assert n == size * mcu + n % size;
    assert size * (across * m + mcu % across) == m * (across * size) + (mcu % across) * size;
  }

  lemma IndexInside(n: nat, across: nat, size: nat, rows: nat)
    requires across > 0 && size > 0 && n < rows * (across * size)
    ensures (n / size) / across < rows
  {
    SplitIndex(n, across, size);
    var m := (n / size) / across;
    if m >= rows {
      MulMono(across * size, rows, m);
      assert false;
    }
  }

  /** Block n of the scan is that of its place. */
  lemma BlockShows(f: Format, rows: seq<seq<byte>>, n: nat)
    requires ValidFormat(f) && ValidRows(f, rows) && n < |ImageBlocks(f, rows, McuRows(f, |rows|))|
    ensures rows != [] && Sampled(FrameOf(f.mode)) && McuSize(FrameOf(f.mode)) > 0 && McusPerRow(f) > 0
    ensures
      var p := PlaceOf(FrameOf(f.mode), McusPerRow(f), n);
      ImageBlocks(f, rows, McuRows(f, |rows|))[n] == RawBlock(p.comp, ShownBlock(f, rows, FrameOf(f.mode), p))
  {
    hide ImageBlocks, McuBlocks, McuLines, McusPerRow, McuRows, ShownBlock, FrameOf, PlaceInMcu, McuSize, BlocksPerMcu;
    var total, across, size := McuRows(f, |rows|), McusPerRow(f), BlocksPerMcu(f.mode);
    SomeMcus(f, |rows|);
    FrameFacts(f.mode);
    ImageBlockCount(f, rows, total);
    NoBlocks(f, rows);
    SplitIndex(n, across, size);
    IndexInside(n, across, size, total);
    var m, i, j := (n / size) / across, (n / size) % across, n % size;
    ImageBlockAt(f, rows, total, m, i, j);
    McuBlockShows(f, rows, m, i, j);
  }

  lemma NoBlocks(f: Format, rows: seq<seq<byte>>)
    requires ValidFormat(f) && ValidRows(f, rows)
    ensures rows == [] ==> |ImageBlocks(f, rows, McuRows(f, |rows|))| == 0
  {
  }

  lemma SomeMcus(f: Format, n: nat)
    requires ValidFormat(f)
    ensures McusPerRow(f) > 0 && BlocksPerMcu(f.mode) > 0 && (n == 0 ==> McuRows(f, n) == 0)
  {
  }
}
