/** From scanlines to 8x8 blocks (jpge.cpp: RGB_to_YCC, load_mcu, load_block_*,
    process_mcu_row, process_end_of_image): what every block holds. */
module Geometry {
  import opened Words

  datatype Subsampling = YOnly | H1V1 | H2V1 | H2V2

  function Components(m: Subsampling): (n: nat)
    ensures n == 1 || n == 3
  {
    if m.YOnly? then 1 else 3
  }

  function McuWidth(m: Subsampling): nat {
    if m.YOnly? || m.H1V1? then 8 else 16
  }

  function McuHeight(m: Subsampling): nat {
    if m.H2V2? then 16 else 8
  }

  function CeilDiv(a: nat, b: nat): nat
    requires b > 0
  {
    (a + b - 1) / b
  }

  /** An image as it is fed: rows of width * bpp bytes. */
  datatype Format = Format(width: nat, bpp: nat, mode: Subsampling)

  predicate ValidFormat(f: Format) {
    1 <= f.width && (f.bpp == 1 || f.bpp == 3 || f.bpp == 4)
  }

  predicate ValidRow(f: Format, row: seq<byte>) {
    |row| == f.width * f.bpp
  }

  function McusPerRow(f: Format): nat {
    CeilDiv(f.width, McuWidth(f.mode))
  }

  /** The width rounded up to whole MCUs. */
  function PaddedWidth(f: Format): (w: nat)
    ensures f.width <= w < f.width + McuWidth(f.mode)
  {
    if McuWidth(f.mode) == 8 then 8 * McusPerRow(f) else 16 * McusPerRow(f)
  }

  /** The length of a line buffer. */
  function LineLength(f: Format): nat {
    if Components(f.mode) == 1 then PaddedWidth(f) else 3 * PaddedWidth(f)
  }

  // ------------------------------------------------------- colour conversion

  function Clamp(i: int): byte {
    if i < 0 then 0 else if i > 0xFF then 0xFF else i
  }

  /** The weights sum to 2^16, so that the luma needs no clamping. */
  function Luma(r: byte, g: byte, b: byte): byte {
    (r * 19595 + g * 38470 + b * 7471 + 32768) / 0x1_0000
  }

  function BlueDifference(r: byte, g: byte, b: byte): byte {
    Clamp(128 + (r * -11059 + g * -21709 + b * 32768 + 32768) / 0x1_0000)
  }

  function RedDifference(r: byte, g: byte, b: byte): byte {
    Clamp(128 + (r * 32768 + g * -27439 + b * -5329 + 32768) / 0x1_0000)
  }

  /** Grey pixels have no colour difference. */
  lemma GreyIsNeutral(v: byte)
    ensures Luma(v, v, v) == v && BlueDifference(v, v, v) == 128 && RedDifference(v, v, v) == 128
  {
  }

  /** The luma is that of the standard weights 0.299, 0.587 and 0.114, rounded. */
  lemma LumaIsStandard(r: byte, g: byte, b: byte)
    ensures -505 <= 1000 * Luma(r, g, b) - (299 * r + 587 * g + 114 * b) <= 505
  {
  }

  /** The colour differences are those of the standard weights around 128, rounded
      and cut to eight bits. */
  lemma BlueIsStandard(r: byte, g: byte, b: byte)
    ensures -504_000 <= 1_000_000 * BlueDifference(r, g, b) - (128_000_000 - 168_736 * r - 331_264 * g + 500_000 * b) <= 504_000
  {
  }

  lemma RedIsStandard(r: byte, g: byte, b: byte)
    ensures -504_000 <= 1_000_000 * RedDifference(r, g, b) - (128_000_000 + 500_000 * r - 418_688 * g - 81_312 * b) <= 504_000
  {
  }

  lemma QuotientMono(x: int, y: int)
    requires x <= y
    ensures Clamp(128 + x / 0x1_0000) <= Clamp(128 + y / 0x1_0000)
  {
  }

  /** More blue, or less of the other two, never lowers the blue difference. */
  lemma BlueFollowsBlue(r: byte, g: byte, b: byte, r': byte, g': byte, b': byte)
    requires b <= b' && r >= r' && g >= g'
    ensures BlueDifference(r, g, b) <= BlueDifference(r', g', b')
  {
    QuotientMono(r * -11059 + g * -21709 + b * 32768 + 32768, r' * -11059 + g' * -21709 + b' * 32768 + 32768);
  }

  /** More red, or less of the other two, never lowers the red difference. */
  lemma RedFollowsRed(r: byte, g: byte, b: byte, r': byte, g': byte, b': byte)
    requires r <= r' && g >= g' && b >= b'
    ensures RedDifference(r, g, b) <= RedDifference(r', g', b')
  {
    QuotientMono(r * 32768 + g * -27439 + b * -5329 + 32768, r' * 32768 + g' * -27439 + b' * -5329 + 32768);
  }

  /** Component c of the pixel in column x of a source row. Rows that are not
      RGB count as one byte a pixel. */
  function Component(f: Format, row: seq<byte>, x: nat, c: nat): byte
    requires ValidFormat(f) && ValidRow(f, row) && x < f.width
  {
    if f.bpp == 3 then
      var r, g, b := row[3 * x], row[3 * x + 1], row[3 * x + 2];
      if c == 0 then Luma(r, g, b) else if c == 1 then BlueDifference(r, g, b) else RedDifference(r, g, b)
    else
      RowCovers(f, row);
      if c == 0 then row[x] else 128
  }

  lemma RowCovers(f: Format, row: seq<byte>)
    requires ValidFormat(f) && ValidRow(f, row)
    ensures f.width <= |row|
  {
    assert f.bpp == 3 ==> f.width * f.bpp == 3 * f.width;
    assert f.bpp == 4 ==> f.width * f.bpp == 4 * f.width;
  }

  /** The bytes of the pixel in column x. */
  function Pixel(f: Format, row: seq<byte>, x: nat): (p: seq<byte>)
    requires ValidFormat(f) && ValidRow(f, row) && x < f.width
    ensures |p| == f.bpp
  {
    PixelsFit(f, x);
    if f.bpp == 1 then row[x..x + 1]
    else if f.bpp == 3 then row[3 * x..3 * x + 3]
    else row[4 * x..4 * x + 4]
  }

  lemma PixelsFit(f: Format, x: nat)
    requires ValidFormat(f) && x < f.width
    ensures f.bpp == 1 ==> x + 1 <= f.width * f.bpp
    ensures f.bpp == 3 ==> 3 * x + 3 <= f.width * f.bpp
    ensures f.bpp == 4 ==> 4 * x + 4 <= f.width * f.bpp
  {
    assert f.bpp == 1 ==> f.width * f.bpp == f.width;
    assert f.bpp == 3 ==> f.width * f.bpp == 3 * f.width;
    assert f.bpp == 4 ==> f.width * f.bpp == 4 * f.width;
  }

  /** Component c of a grey or an RGB pixel. */
  function Sample(p: seq<byte>, c: nat): byte
    requires |p| == 1 || |p| == 3
  {
    if |p| == 1 then if c == 0 then p[0] else 128
    else if c == 0 then Luma(p[0], p[1], p[2])
    else if c == 1 then BlueDifference(p[0], p[1], p[2])
    else RedDifference(p[0], p[1], p[2])
  }

  /** With one or three channels, what is read in column x is its pixel. */
  lemma ComponentIsSample(f: Format, row: seq<byte>, x: nat, c: nat)
    requires ValidFormat(f) && ValidRow(f, row) && x < f.width && f.bpp != 4
    ensures Component(f, row, x, c) == Sample(Pixel(f, row, x), c)
  {
    hide Luma, BlueDifference, RedDifference;
    PixelsFit(f, x);
  }

  /** The sample in column x depends on no other bytes than those of pixel x. */
  ghost predicate PixelDecides(f: Format, x: nat)
    requires ValidFormat(f) && x < f.width
  {
    forall row, other, c: nat ::
      c < 3 && ValidRow(f, row) && ValidRow(f, other) && Pixel(f, row, x) == Pixel(f, other, x) ==>
        Component(f, row, x, c) == Component(f, other, x, c)
  }

  /** A four-channel source is read as one byte a pixel: a column shows its own
      pixel if and only if there are not four channels, or it is the first. */
  lemma PixelDecidesIff(f: Format, x: nat)
    requires ValidFormat(f) && x < f.width
    ensures PixelDecides(f, x) <==> f.bpp != 4 || x == 0
  {
    hide Luma, BlueDifference, RedDifference;
    PixelsFit(f, x);
    if f.bpp != 4 {
      forall row, other, c: nat | c < 3 && ValidRow(f, row) && ValidRow(f, other) && Pixel(f, row, x) == Pixel(f, other, x)
        ensures Component(f, row, x, c) == Component(f, other, x, c)
      {
        ComponentIsSample(f, row, x, c);
        ComponentIsSample(f, other, x, c);
      }
    } else if x == 0 {
      forall row, other, c: nat | c < 3 && ValidRow(f, row) && ValidRow(f, other) && Pixel(f, row, x) == Pixel(f, other, x)
        ensures Component(f, row, x, c) == Component(f, other, x, c)
      {
        assert row[0] == Pixel(f, row, 0)[0] && other[0] == Pixel(f, other, 0)[0];
      }
    } else {
      var row := seq(f.width * f.bpp, _ => 0);
      var other := row[x := 1];
      assert Pixel(f, row, x) == Pixel(f, other, x);
      assert Component(f, row, x, 0) != Component(f, other, x, 0);
    }
  }

  /** Two RGBA pixels, black and white: the second column shows a byte of the
      first pixel. */
  lemma FourChannelsMisread()
    ensures
      var f, row := Format(2, 4, YOnly), [0, 0, 0, 0xFF, 0xFF, 0xFF, 0xFF, 0xFF];
      ValidRow(f, row) && Pixel(f, row, 1) == [0xFF, 0xFF, 0xFF, 0xFF] && Component(f, row, 1, 0) == 0
  {
  }

  /** T.81 section A.2.4: the sample of component c at column x, row y of the
      image continued to the right and down by its last column and row. */
  function Plane(f: Format, rows: seq<seq<byte>>, c: nat, x: nat, y: nat): byte
    requires ValidFormat(f) && rows != [] && ValidRows(f, rows)
  {
    Component(f, rows[Min(y, |rows| - 1)], Min(x, f.width - 1), c)
  }

  /** With one or three channels the continued image shows its pixels. */
  lemma PlaneShowsPixel(f: Format, rows: seq<seq<byte>>, c: nat, x: nat, y: nat)
    requires ValidFormat(f) && rows != [] && ValidRows(f, rows) && f.bpp != 4
    ensures Plane(f, rows, c, x, y) == Sample(Pixel(f, rows[Min(y, |rows| - 1)], Min(x, f.width - 1)), c)
  {
    ComponentIsSample(f, rows[Min(y, |rows| - 1)], Min(x, f.width - 1), c);
  }

  /** A line buffer after load_mcu: components interleaved, padded to the right. */
  function Line(f: Format, row: seq<byte>): (l: seq<byte>)
    requires ValidFormat(f) && ValidRow(f, row)
    ensures |l| == LineLength(f)
  {
    seq(LineLength(f), j requires 0 <= j < LineLength(f) =>
      Component(f, row, Min(j / Components(f.mode), f.width - 1), j % Components(f.mode)))
  }

  predicate ValidRows(f: Format, rows: seq<seq<byte>>) {
    forall i :: 0 <= i < |rows| ==> ValidRow(f, rows[i])
  }

  /** The first image row of MCU row m. */
  function McuTop(f: Format, m: nat): nat {
    if McuHeight(f.mode) == 8 then 8 * m else 16 * m
  }

  /** How many whole MCU rows n image rows fill, and how many are left over. */
  function WholeMcuRows(f: Format, n: nat): nat {
    if McuHeight(f.mode) == 8 then n / 8 else n / 16
  }

  function LeftoverRows(f: Format, n: nat): nat {
    if McuHeight(f.mode) == 8 then n % 8 else n % 16
  }

  /** The MCU rows that n image rows take, the last one padded. */
  function McuRows(f: Format, n: nat): (m: nat)
    ensures n == 0 ==> m == 0
  {
    WholeMcuRows(f, n) + if LeftoverRows(f, n) > 0 then 1 else 0
  }

  /** Line y of MCU row m: missing rows repeat the last one. */
  function McuLine(f: Format, rows: seq<seq<byte>>, m: nat, y: nat): (l: seq<byte>)
    requires ValidFormat(f) && ValidRows(f, rows) && rows != []
    ensures |l| == LineLength(f)
  {
    Line(f, rows[Min(McuTop(f, m) + y, |rows| - 1)])
  }

  /** The line buffers of MCU row m. */
  function McuLines(f: Format, rows: seq<seq<byte>>, m: nat): (ls: seq<seq<byte>>)
    requires ValidFormat(f) && ValidRows(f, rows) && rows != []
    ensures ValidLines(f, ls)
  {
    var ls := seq(McuHeight(f.mode), y requires 0 <= y < McuHeight(f.mode) => McuLine(f, rows, m, y));
    assert forall y :: 0 <= y < |ls| ==> ls[y] == McuLine(f, rows, m, y);
    ls
  }

  // ------------------------------------------------------------------ blocks

  function At(l: seq<byte>, j: nat): (v: int)
    requires j < |l|
    ensures 0 <= v <= 0xFF
  {
    l[j]
  }

  /** Column x of the padded image has its components inside the line. */
  lemma ColumnInLine(f: Format, x: nat, c: nat)
    requires x < PaddedWidth(f) && c < Components(f.mode)
    ensures x * Components(f.mode) + c < LineLength(f)
    ensures (x * Components(f.mode) + c) / Components(f.mode) == x
    ensures (x * Components(f.mode) + c) % Components(f.mode) == c
  {
    hide PaddedWidth;
    if Components(f.mode) == 3 {
      assert x * Components(f.mode) == 3 * x;
    } else {
      assert x * Components(f.mode) == x;
    }
  }

  /** The line buffers of one MCU row, for a format. */
  predicate ValidLines(f: Format, ls: seq<seq<byte>>) {
    |ls| == McuHeight(f.mode) && forall y :: 0 <= y < |ls| ==> |ls[y]| == LineLength(f)
  }

  /** How many 8-sample columns of full-resolution blocks there are. */
  function BlocksAcross(f: Format): nat {
    if McuWidth(f.mode) == 8 then McusPerRow(f) else 2 * McusPerRow(f)
  }

  /** Row r, column q of block (bx, br) at full resolution. */
  function FullSample(f: Format, ls: seq<seq<byte>>, bx: nat, br: nat, c: nat, r: nat, q: nat): int
    requires ValidLines(f, ls) && bx < BlocksAcross(f) && 8 * br < McuHeight(f.mode) && c < Components(f.mode)
    requires r < 8 && q < 8
  {
    ColumnInLine(f, 8 * bx + q, c);
    At(ls[8 * br + r], (8 * bx + q) * Components(f.mode) + c) - 128
  }

  /** load_block_8_8_grey and load_block_8_8: block column bx, block row br. */
  function FullBlock(f: Format, ls: seq<seq<byte>>, bx: nat, br: nat, c: nat): (s: seq<int>)
    requires ValidLines(f, ls) && bx < BlocksAcross(f) && 8 * br < McuHeight(f.mode) && c < Components(f.mode)
    ensures |s| == 64
  {
    seq(64, k requires 0 <= k < 64 => FullSample(f, ls, bx, br, c, k / 8, k % 8))
  }

  function HalfSample(f: Format, ls: seq<seq<byte>>, i: nat, c: nat, r: nat, q: nat): int
    requires ValidLines(f, ls) && McuWidth(f.mode) == 16 && i < McusPerRow(f) && c < 3 && r < 8 && q < 8
  {
    var l, j := ls[r], 3 * (16 * i + 2 * q) + c;
    ColumnInLine(f, 16 * i + 2 * q + 1, c);
    (At(l, j) + At(l, j + 3)) / 2 - 128
  }

  /** load_block_16_8_8: two pixels across are averaged, rounding down. */
  function HalfBlock(f: Format, ls: seq<seq<byte>>, i: nat, c: nat): (s: seq<int>)
    requires ValidLines(f, ls) && McuWidth(f.mode) == 16 && i < McusPerRow(f) && c < 3
    ensures |s| == 64
  {
    seq(64, k requires 0 <= k < 64 => HalfSample(f, ls, i, c, k / 8, k % 8))
  }

  function QuarterSample(f: Format, ls: seq<seq<byte>>, i: nat, c: nat, r: nat, q: nat): int
    requires ValidLines(f, ls) && f.mode.H2V2? && i < McusPerRow(f) && c < 3 && r < 8 && q < 8
  {
    var l, m, j := ls[2 * r], ls[2 * r + 1], 3 * (16 * i + 2 * q) + c;
    ColumnInLine(f, 16 * i + 2 * q + 1, c);
    (At(l, j) + At(l, j + 3) + At(m, j) + At(m, j + 3) + if (r + q) % 2 == 0 then 0 else 2) / 4 - 128
  }

  /** load_block_16_8: two by two pixels are averaged; what is added before the
      division alternates between 0 and 2 like a checkerboard. */
  function QuarterBlock(f: Format, ls: seq<seq<byte>>, i: nat, c: nat): (s: seq<int>)
    requires ValidLines(f, ls) && f.mode.H2V2? && i < McusPerRow(f) && c < 3
    ensures |s| == 64
  {
    seq(64, k requires 0 <= k < 64 => QuarterSample(f, ls, i, c, k / 8, k % 8))
  }

  /** The row and the column of an entry of a block. */
  lemma InBlock(r: nat, q: nat)
    requires r < 8 && q < 8
    ensures 8 * r + q < 64 && (8 * r + q) / 8 == r && (8 * r + q) % 8 == q
  {
  }

  /** Samples of one component, level shifted. */
  datatype RawBlock = RawBlock(comp: nat, samples: seq<int>)

  /** The blocks of MCU i in coding order. */
  function McuBlocks(f: Format, ls: seq<seq<byte>>, i: nat): seq<RawBlock>
    requires ValidLines(f, ls) && i < McusPerRow(f)
  {
    match f.mode
    case YOnly => [RawBlock(0, FullBlock(f, ls, i, 0, 0))]
    case H1V1 =>
      [RawBlock(0, FullBlock(f, ls, i, 0, 0)),
       RawBlock(1, FullBlock(f, ls, i, 0, 1)),
       RawBlock(2, FullBlock(f, ls, i, 0, 2))]
    case H2V1 =>
      [RawBlock(0, FullBlock(f, ls, 2 * i, 0, 0)),
       RawBlock(0, FullBlock(f, ls, 2 * i + 1, 0, 0)),
       RawBlock(1, HalfBlock(f, ls, i, 1)),
       RawBlock(2, HalfBlock(f, ls, i, 2))]
    case H2V2 =>
      [RawBlock(0, FullBlock(f, ls, 2 * i, 0, 0)),
       RawBlock(0, FullBlock(f, ls, 2 * i + 1, 0, 0)),
       RawBlock(0, FullBlock(f, ls, 2 * i, 1, 0)),
       RawBlock(0, FullBlock(f, ls, 2 * i + 1, 1, 0)),
       RawBlock(1, QuarterBlock(f, ls, i, 1)),
       RawBlock(2, QuarterBlock(f, ls, i, 2))]
  }

  /** The first n MCUs of a row. */
  function RowBlocks(f: Format, ls: seq<seq<byte>>, n: nat): seq<RawBlock>
    requires ValidLines(f, ls) && n <= McusPerRow(f)
  {
    if n == 0 then [] else RowBlocks(f, ls, n - 1) + McuBlocks(f, ls, n - 1)
  }

  /** The blocks of the first n MCU rows of an image. */
  function ImageBlocks(f: Format, rows: seq<seq<byte>>, n: nat): seq<RawBlock>
    requires ValidFormat(f) && ValidRows(f, rows) && (n > 0 ==> rows != [])
  {
    if n == 0 then [] else ImageBlocks(f, rows, n - 1) + RowBlocks(f, McuLines(f, rows, n - 1), McusPerRow(f))
  }

  // ----------------------------------------------- blocks show the image

  /** Every line-buffer entry is the sample of the continued image at its place. */
  lemma LinesShowImage(f: Format, rows: seq<seq<byte>>, m: nat, y: nat, x: nat, c: nat)
    requires ValidFormat(f) && ValidRows(f, rows) && rows != []
    requires y < McuHeight(f.mode) && x < PaddedWidth(f) && c < Components(f.mode)
    ensures x * Components(f.mode) + c < LineLength(f)
    ensures McuLines(f, rows, m)[y][x * Components(f.mode) + c]
         == Plane(f, rows, c, x, McuTop(f, m) + y)
  {
    hide Component, Components, PaddedWidth;
    ColumnInLine(f, x, c);
    assert McuLines(f, rows, m)[y] == McuLine(f, rows, m, y);
  }

  /** Full-resolution blocks: sample k of block (bx, br) of MCU row m. */
  lemma FullBlockShows(f: Format, rows: seq<seq<byte>>, m: nat, bx: nat, br: nat, c: nat, k: nat)
    requires ValidFormat(f) && ValidRows(f, rows) && rows != []
    requires bx < BlocksAcross(f) && 8 * br < McuHeight(f.mode) && c < Components(f.mode) && k < 64
    ensures FullBlock(f, McuLines(f, rows, m), bx, br, c)[k]
         == Plane(f, rows, c, 8 * bx + k % 8, McuTop(f, m) + 8 * br + k / 8) - 128
  {
    hide McuLines, Plane;
    LinesShowImage(f, rows, m, 8 * br + k / 8, 8 * bx + k % 8, c);
  }

  lemma HalfSampleShows(f: Format, rows: seq<seq<byte>>, m: nat, i: nat, c: nat, r: nat, q: nat)
    requires ValidFormat(f) && ValidRows(f, rows) && rows != [] && f.mode.H2V1?
    requires i < McusPerRow(f) && c < 3 && r < 8 && q < 8
    ensures
      var x, y := 2 * (8 * i + q), 8 * m + r;
      HalfSample(f, McuLines(f, rows, m), i, c, r, q) == (Plane(f, rows, c, x, y) + Plane(f, rows, c, x + 1, y)) / 2 - 128
  {
    hide McuLines, Plane;
    var x := 2 * (8 * i + q);
    LinesShowImage(f, rows, m, r, x, c);
    LinesShowImage(f, rows, m, r, x + 1, c);
  }

  /** Chroma with H2V1 subsampling: the mean of two samples, rounded down. */
  lemma HalfBlockShows(f: Format, rows: seq<seq<byte>>, m: nat, i: nat, c: nat, k: nat)
    requires ValidFormat(f) && ValidRows(f, rows) && rows != [] && f.mode.H2V1?
    requires i < McusPerRow(f) && c < 3 && k < 64
    ensures
      var x, y := 2 * (8 * i + k % 8), 8 * m + k / 8;
      HalfBlock(f, McuLines(f, rows, m), i, c)[k]
      == (Plane(f, rows, c, x, y) + Plane(f, rows, c, x + 1, y)) / 2 - 128
  {
    hide McuLines, Plane, HalfSample, McusPerRow;
    HalfSampleShows(f, rows, m, i, c, k / 8, k % 8);
  }

  lemma QuarterSampleShows(f: Format, rows: seq<seq<byte>>, m: nat, i: nat, c: nat, r: nat, q: nat)
    requires ValidFormat(f) && ValidRows(f, rows) && rows != [] && f.mode.H2V2?
    requires i < McusPerRow(f) && c < 3 && r < 8 && q < 8
    ensures
      var x, y := 2 * (8 * i + q), 2 * (8 * m + r);
      QuarterSample(f, McuLines(f, rows, m), i, c, r, q)
      == (Plane(f, rows, c, x, y) + Plane(f, rows, c, x + 1, y)
          + Plane(f, rows, c, x, y + 1) + Plane(f, rows, c, x + 1, y + 1) + if (r + q) % 2 == 0 then 0 else 2) / 4 - 128
  {
    hide McuLines, Plane;
    var x, y := 2 * (8 * i + q), 2 * r;
    LinesShowImage(f, rows, m, y, x, c);
    LinesShowImage(f, rows, m, y, x + 1, c);
    LinesShowImage(f, rows, m, y + 1, x, c);
    LinesShowImage(f, rows, m, y + 1, x + 1, c);
  }

  /** Chroma with H2V2 subsampling: the mean of four samples, rounded down or
      to nearest in turn. */
  lemma QuarterBlockShows(f: Format, rows: seq<seq<byte>>, m: nat, i: nat, c: nat, k: nat)
    requires ValidFormat(f) && ValidRows(f, rows) && rows != [] && f.mode.H2V2?
    requires i < McusPerRow(f) && c < 3 && k < 64
    ensures
      var x, y := 2 * (8 * i + k % 8), 2 * (8 * m + k / 8);
      QuarterBlock(f, McuLines(f, rows, m), i, c)[k]
      == (Plane(f, rows, c, x, y) + Plane(f, rows, c, x + 1, y)
          + Plane(f, rows, c, x, y + 1) + Plane(f, rows, c, x + 1, y + 1)
          + if (k / 8 + k % 8) % 2 == 0 then 0 else 2) / 4 - 128
  {
    hide McuLines, Plane, QuarterSample, McusPerRow;
    QuarterSampleShows(f, rows, m, i, c, k / 8, k % 8);
  }

  // ------------------------------------------------------- feeding by rows

  /** ceil(n / height of an MCU), as rows are fed. */
  lemma McuRowCount(f: Format, n: nat)
    ensures CeilDiv(n, McuHeight(f.mode)) == McuRows(f, n)
    ensures n == McuTop(f, WholeMcuRows(f, n)) + LeftoverRows(f, n) && LeftoverRows(f, n) < McuHeight(f.mode)
  {
  }

  lemma OneMoreRow(f: Format, n: nat)
    ensures
      if LeftoverRows(f, n) + 1 == McuHeight(f.mode)
      then WholeMcuRows(f, n + 1) == WholeMcuRows(f, n) + 1 && LeftoverRows(f, n + 1) == 0
      else WholeMcuRows(f, n + 1) == WholeMcuRows(f, n) && LeftoverRows(f, n + 1) == LeftoverRows(f, n) + 1
  {
  }

  /** A complete MCU row does not depend on later rows. */
  lemma {:induction false} EarlierRowsStay(f: Format, rows: seq<seq<byte>>, row: seq<byte>, n: nat)
    requires ValidFormat(f) && ValidRows(f, rows + [row]) && ValidRows(f, rows)
    requires McuTop(f, n) <= |rows|
    ensures ImageBlocks(f, rows + [row], n) == ImageBlocks(f, rows, n)
  {
    hide Line, RowBlocks;
    if n > 0 {
      EarlierRowsStay(f, rows, row, n - 1);
      assert McuLines(f, rows + [row], n - 1) == McuLines(f, rows, n - 1);
    }
  }

  /** The number of blocks of an MCU. */
  function BlocksPerMcu(m: Subsampling): nat {
    match m
    case YOnly => 1
    case H1V1 => 3
    case H2V1 => 4
    case H2V2 => 6
  }

  lemma {:induction false} RowBlockCount(f: Format, ls: seq<seq<byte>>, n: nat)
    requires ValidLines(f, ls) && n <= McusPerRow(f)
    ensures |RowBlocks(f, ls, n)| == n * BlocksPerMcu(f.mode)
  {
    hide FullBlock, HalfBlock, QuarterBlock;
    if n > 0 {
      RowBlockCount(f, ls, n - 1);
    }
  }

  predicate RawInRange(b: RawBlock) {
    b.comp < 3 && |b.samples| == 64 && forall k :: 0 <= k < 64 ==> -128 <= b.samples[k] <= 127
  }

  /** Samples stay in the range that the transform expects. */
  predicate InRange(bs: seq<RawBlock>) {
    forall i :: 0 <= i < |bs| ==> RawInRange(bs[i])
  }
}
