/** How long the file of an image is: bounds by its dimensions alone, and the
    image that reaches the lower one. */
module FileSize {
  import opened Words
  import opened Huffman
  import opened Entropy
  import opened Scan
  import opened Packer
  import opened StandardTables
  import Dct
  import opened Quant
  import opened Geometry
  import opened Headers
  import opened JpegFile
  import opened CodeLength
  import opened Encoder
  import opened ImageFile

  // ----------------------------------------------------------------- header

  function HeaderLength(m: Subsampling): nat {
    if m.YOnly? then 328 else 623
  }

  lemma SegmentLength(s: Segment)
    ensures |SegmentBytes(s)| == 4 + |s.payload|
  {
  }

  lemma {:induction false} AllLength(ss: seq<Segment>)
    ensures |AllBytes(ss)| == PayloadSum(ss) + 4 * |ss|
  {
    hide SegmentBytes;
    if ss != [] {
      SegmentLength(ss[0]);
      AllLength(ss[1..]);
    }
  }

  function PayloadSum(ss: seq<Segment>): nat {
    if ss == [] then 0 else |ss[0].payload| + PayloadSum(ss[1..])
  }

  lemma PayloadOne(s: Segment, ss: seq<Segment>)
    ensures PayloadSum([s] + ss) == |s.payload| + PayloadSum(ss)
  {
    assert ([s] + ss)[1..] == ss;
  }

  lemma FixedPayloads(width: nat, height: nat, m: Subsampling)
    ensures |App0().payload| == 14
    ensures |Sof(width, height, m).payload| == 6 + 3 * Components(m) && |Sos(m).payload| == 4 + 2 * Components(m)
  {
    hide SofComponents, SosComponents;
  }

  lemma DqtPayload(i: byte, q: seq<int>)
    requires IsQuantTable(q)
    ensures |Dqt(i, q).payload| == 65
  {
  }

  lemma DhtPayload(h: Spec, id: byte)
    requires Emittable(h)
    ensures |Dht(h, id).payload| == 17 + |h.val|
  {
  }

  /** A DC and an AC table have 12 and 162 symbols. */
  predicate StandardSized(k: Coder) {
    |k.dc.val| == 12 && |k.ac.val| == 162
  }

  lemma GreyHeader(a: Segment, q: Segment, f: Segment, d: Segment, e: Segment, s: Segment)
    requires |a.payload| == 14 && |q.payload| == 65 && |f.payload| == 9
    requires |d.payload| == 29 && |e.payload| == 179 && |s.payload| == 6
    ensures |AllBytes([a, q, f, d, e, s])| == 326
  {
    hide AllBytes;
    var all := [a] + ([q] + ([f] + ([d] + ([e] + ([s] + [])))));
    assert all == [a, q, f, d, e, s];
    AllLength(all);
    PayloadOne(s, []);
    PayloadOne(e, [s] + []);
    PayloadOne(d, [e] + ([s] + []));
    PayloadOne(f, [d] + ([e] + ([s] + [])));
    PayloadOne(q, [f] + ([d] + ([e] + ([s] + []))));
    PayloadOne(a, [q] + ([f] + ([d] + ([e] + ([s] + [])))));
  }

  lemma ColourHeader(a: Segment, q: Segment, r: Segment, f: Segment, d: Segment, e: Segment, g: Segment, h: Segment, s: Segment)
    requires |a.payload| == 14 && |q.payload| == 65 && |r.payload| == 65 && |f.payload| == 15
    requires |d.payload| == 29 && |e.payload| == 179 && |g.payload| == 29 && |h.payload| == 179 && |s.payload| == 10
    ensures |AllBytes([a, q, r, f, d, e, g, h, s])| == 621
  {
    hide AllBytes, PayloadSum;
    var t := [g] + ([h] + ([s] + []));
    var all := [a] + ([q] + ([r] + ([f] + ([d] + ([e] + t)))));
    assert all == [a, q, r, f, d, e, g, h, s];
    AllLength(all);
    NoPayload();
    PayloadOne(s, []);
    PayloadOne(h, [s] + []);
    PayloadOne(g, [h] + ([s] + []));
    PayloadOne(e, t);
    PayloadOne(d, [e] + t);
    PayloadOne(f, [d] + ([e] + t));
    PayloadOne(r, [f] + ([d] + ([e] + t)));
    PayloadOne(q, [r] + ([f] + ([d] + ([e] + t))));
    PayloadOne(a, [q] + ([r] + ([f] + ([d] + ([e] + t)))));
  }

  lemma NoPayload()
    ensures PayloadSum([]) == 0
  {
  }

  lemma HeaderSize(k: Coders, width: nat, height: nat, m: Subsampling, lum: seq<int>, chroma: seq<int>)
    requires EmittableCoders(k) && StandardSized(k.luma) && StandardSized(k.chroma)
    requires IsQuantTable(lum) && IsQuantTable(chroma)
    ensures |HeaderBytes(k, width, height, m, lum, chroma)| == HeaderLength(m)
  {
    hide App0, Dqt, Sof, Dht, Sos, IsQuantTable, AllBytes, WellSized, Total;
    FixedPayloads(width, height, m);
    DqtPayload(0, lum);
    DqtPayload(1, chroma);
    DhtPayload(k.luma.dc, 0x00);
    DhtPayload(k.luma.ac, 0x10);
    DhtPayload(k.chroma.dc, 0x01);
    DhtPayload(k.chroma.ac, 0x11);
    if m.YOnly? {
      GreyHeader(App0(), Dqt(0, lum), Sof(width, height, m), Dht(k.luma.dc, 0x00), Dht(k.luma.ac, 0x10), Sos(m));
    } else {
      ColourHeader(App0(), Dqt(0, lum), Dqt(1, chroma), Sof(width, height, m),
                   Dht(k.luma.dc, 0x00), Dht(k.luma.ac, 0x10), Dht(k.chroma.dc, 0x01), Dht(k.chroma.ac, 0x11), Sos(m));
    }
  }

  lemma StandardSizes()
    ensures StandardSized(LUMA) && StandardSized(CHROMA)
  {
    DcLumSizes();
    AcLumSizes();
    DcChromaSizes();
    AcChromaSizes();
  }

  // ------------------------------------------------------------- dimensions

  /** The MCUs of an image. */
  function Mcus(f: Format, height: nat): nat {
    CeilDiv(f.width, McuWidth(f.mode)) * CeilDiv(height, McuHeight(f.mode))
  }

  /** The bits of the shortest code for one MCU. */
  function LeastMcuBits(m: Subsampling): (n: nat)
    ensures n == LeastBits(McuComps(m))
  {
    hide LeastBits;
    McuCompBits();
    match m
    case YOnly => 6
    case H1V1 => 14
    case H2V1 => 20
    case H2V2 => 32
  }

  lemma McuCompBits()
    ensures LeastBits([0]) == 6 && LeastBits([0, 1, 2]) == 14
    ensures LeastBits([0, 0, 1, 2]) == 20 && LeastBits([0, 0, 0, 0, 1, 2]) == 32
  {
    assert LeastBits([2]) == 4;
    assert LeastBits([1, 2]) == 8 by { assert [1, 2][1..] == [2]; }
    assert LeastBits([0, 1, 2]) == 14 by { assert [0, 1, 2][1..] == [1, 2]; }
    assert LeastBits([0, 0, 1, 2]) == 20 by { assert [0, 0, 1, 2][1..] == [0, 1, 2]; }
    assert LeastBits([0, 0, 0, 1, 2]) == 26 by { assert [0, 0, 0, 1, 2][1..] == [0, 0, 1, 2]; }
    assert LeastBits([0, 0, 0, 0, 1, 2]) == 32 by { assert [0, 0, 0, 0, 1, 2][1..] == [0, 0, 0, 1, 2]; }
  }

  /** The length of the shortest file of these dimensions, and a bound for all. */
  function ShortestFile(f: Format, height: nat): nat {
    HeaderLength(f.mode) + (LeastMcuBits(f.mode) * Mcus(f, height) + 7) / 8 + 2
  }

  function LongestFile(f: Format, height: nat): nat {
    HeaderLength(f.mode) + 2 * ((MOST_BITS * (BlocksPerMcu(f.mode) * Mcus(f, height)) + 7) / 8) + 2
  }

  lemma {:induction false} RepeatBits(p: seq<int>, n: nat)
    requires forall j :: 0 <= j < |p| ==> 0 <= p[j] < 3
    ensures LeastBits(Repeat(p, n)) == LeastBits(p) * n
  {
    hide LeastBits;
    if n == 0 {
      NoBits();
    } else {
      RepeatBits(p, n - 1);
      LeastBitsAppend(Repeat(p, n - 1), p);
      assert LeastBits(p) * n == LeastBits(p) * (n - 1) + LeastBits(p);
    }
  }

  lemma NoBits()
    ensures LeastBits([]) == 0
  {
  }

  /** The blocks of an image, counted and weighed. */
  lemma ImageLeastBits(f: Format, rows: seq<seq<byte>>, quality: int)
    requires ValidFormat(f) && ValidRows(f, rows) && 1 <= quality <= 100
    ensures LeastBits(Comps(Coefficients(f, rows, quality))) == LeastMcuBits(f.mode) * Mcus(f, |rows|)
    ensures |Coefficients(f, rows, quality)| == BlocksPerMcu(f.mode) * Mcus(f, |rows|)
  {
    hide Coefficients, CeilDiv, McuRows, ImageBlocks, Repeat, LeastBits, LeastMcuBits, McuComps, RawComps, Comps;
    var n := McuRows(f, |rows|);
    McuRowCount(f, |rows|);
    ImageComps(f, rows, n);
    CoefficientComps(f, rows, quality);
    RepeatBits(McuComps(f.mode), McusPerRow(f) * n);
    McuTotal(f, rows, quality);
  }

  // ------------------------------------------------------------------ bounds

  /** The scan bytes, from the bits. */
  lemma ScanSize(bits: seq<bool>)
    ensures
      var n := |Stuff(PackBytes(bits + Ones(7)))|;
      (|bits| + 7) / 8 <= n <= 2 * ((|bits| + 7) / 8)
    ensures Calm(bits) ==> |Stuff(PackBytes(bits + Ones(7)))| == (|bits| + 7) / 8
  {
    hide PackBytes, Stuff, Calm;
    PackedLength(bits + Ones(7));
    StuffedLength(PackBytes(bits + Ones(7)));
    if Calm(bits) {
      CalmHasNoFF(bits);
    }
  }

  lemma EighthsMono(a: nat, b: nat)
    requires a <= b
    ensures (a + 7) / 8 <= (b + 7) / 8
  {
  }

  /** The bits of the scan of an image. */
  ghost function ImageBits(f: Format, rows: seq<seq<byte>>, quality: int): seq<bool>
    requires ValidFormat(f) && ValidRows(f, rows) && 1 <= quality <= 100
  {
    hide Coefficients, CodableBlock, Covers, EmittableCoders, Standard, WellSizedCoders;
    StandardReady();
    CoversEach(Standard(), 0);
    EncodeBlocks(Standard(), START, Coefficients(f, rows, quality))
  }

  /** What the length of a file is made of. */
  lemma FileParts(f: Format, rows: seq<seq<byte>>, quality: int)
    requires ValidFormat(f) && ValidRows(f, rows) && 1 <= quality <= 100
    ensures |ImageBytes(f, rows, quality)|
         == HeaderLength(f.mode) + |Stuff(PackBytes(ImageBits(f, rows, quality) + Ones(7)))| + 2
  {
    hide Coefficients, QuantTable, IsQuantTable, EmittableCoders, HeaderBytes, EncodeBlocks, Stuff, PackBytes;
    hide HeaderLength, StandardSized, CoversAll, CodableBlock, WellSizedCoders;
    TableIsQuant(STD_LUM_QUANT, quality);
    TableIsQuant(STD_CHROMA_QUANT, quality);
    StandardReady();
    StandardSizes();
    HeaderSize(Standard(), f.width, |rows|, f.mode, QuantTable(STD_LUM_QUANT, quality), QuantTable(STD_CHROMA_QUANT, quality));
  }

  lemma ImageBitsLength(f: Format, rows: seq<seq<byte>>, quality: int)
    requires ValidFormat(f) && ValidRows(f, rows) && 1 <= quality <= 100
    ensures LeastMcuBits(f.mode) * Mcus(f, |rows|) <= |ImageBits(f, rows, quality)|
         <= MOST_BITS * (BlocksPerMcu(f.mode) * Mcus(f, |rows|))
  {
    hide Coefficients, CodableBlock, EmittableCoders, EncodeBlocks, LeastMcuBits, LeastBits, Comps, Mcus, BlocksPerMcu, Frugal;
    hide WellSizedCoder, Covers;
    StandardReady();
    CoversEach(Standard(), 0);
    StandardIsFrugal();
    ScanLength(Standard(), START, Coefficients(f, rows, quality));
    ImageLeastBits(f, rows, quality);
  }

  /** Whatever the pixels, the length lies between two bounds that depend on the
      dimensions only. */
  lemma FileLength(f: Format, rows: seq<seq<byte>>, quality: int)
    requires ValidFormat(f) && ValidRows(f, rows) && 1 <= quality <= 100
    ensures ShortestFile(f, |rows|) <= |ImageBytes(f, rows, quality)| <= LongestFile(f, |rows|)
  {
    hide ImageBytes, ImageBits, Stuff, PackBytes, HeaderLength, Mcus, LeastMcuBits, BlocksPerMcu;
    FileParts(f, rows, quality);
    ImageBitsLength(f, rows, quality);
    var bits := ImageBits(f, rows, quality);
    ScanSize(bits);
    EighthsMono(LeastMcuBits(f.mode) * Mcus(f, |rows|), |bits|);
    EighthsMono(|bits|, MOST_BITS * (BlocksPerMcu(f.mode) * Mcus(f, |rows|)));
  }

  // ------------------------------------------------------ the shortest file

  /** Rows of mid-grey pixels. */
  function GreyRows(f: Format, height: nat): (rows: seq<seq<byte>>)
    ensures |rows| == height && ValidRows(f, rows)
    ensures forall y :: 0 <= y < height ==> GreyRow(rows[y])
  {
    seq(height, _ => seq(f.width * f.bpp, _ => 128))
  }

  predicate GreyRow(row: seq<byte>) {
    forall i :: 0 <= i < |row| ==> row[i] == 128
  }

  /** Samples that are all zero. */
  predicate ZeroSamples(b: RawBlock) {
    |b.samples| == 64 && forall k :: 0 <= k < 64 ==> b.samples[k] == 0
  }

  predicate AllZero(bs: seq<RawBlock>) {
    forall i :: 0 <= i < |bs| ==> ZeroSamples(bs[i])
  }

  predicate GreyLines(ls: seq<seq<byte>>) {
    forall y :: 0 <= y < |ls| ==> GreyRow(ls[y])
  }

  lemma GreyComponent(f: Format, row: seq<byte>, x: nat, c: nat)
    requires ValidFormat(f) && ValidRow(f, row) && GreyRow(row) && x < f.width
    ensures Component(f, row, x, c) == 128
  {
    hide Luma, BlueDifference, RedDifference;
    GreyIsNeutral(128);
    RowCovers(f, row);
    PixelsFit(f, x);
  }

  lemma GreyLine(f: Format, row: seq<byte>)
    requires ValidFormat(f) && ValidRow(f, row) && GreyRow(row)
    ensures GreyRow(Line(f, row))
  {
    hide Component;
    forall j | 0 <= j < LineLength(f)
      ensures Line(f, row)[j] == 128
    {
      GreyComponent(f, row, Min(j / Components(f.mode), f.width - 1), j % Components(f.mode));
    }
  }

  lemma GreyMcuLines(f: Format, height: nat, m: nat)
    requires ValidFormat(f) && height > 0
    ensures GreyLines(McuLines(f, GreyRows(f, height), m))
  {
    hide Line, GreyRow, LineLength;
    var rows := GreyRows(f, height);
    forall y | 0 <= y < McuHeight(f.mode)
      ensures GreyRow(McuLines(f, rows, m)[y])
    {
      var row := rows[Min(McuTop(f, m) + y, |rows| - 1)];
      assert ValidRow(f, row) && GreyRow(row);
      GreyLine(f, row);
      assert McuLines(f, rows, m)[y] == McuLine(f, rows, m, y);
    }
  }

  lemma GreyFull(f: Format, ls: seq<seq<byte>>, bx: nat, br: nat, c: nat)
    requires ValidLines(f, ls) && bx < BlocksAcross(f) && 8 * br < McuHeight(f.mode) && c < Components(f.mode)
    requires GreyLines(ls)
    ensures ZeroSamples(RawBlock(c, FullBlock(f, ls, bx, br, c)))
  {
    hide LineLength;
    forall k | 0 <= k < 64
      ensures FullBlock(f, ls, bx, br, c)[k] == 0
    {
      ColumnInLine(f, 8 * bx + k % 8, c);
      assert GreyRow(ls[8 * br + k / 8]);
    }
  }

  lemma GreyHalf(f: Format, ls: seq<seq<byte>>, i: nat, c: nat)
    requires ValidLines(f, ls) && f.mode.H2V1? && i < McusPerRow(f) && c < 3 && GreyLines(ls)
    ensures ZeroSamples(RawBlock(c, HalfBlock(f, ls, i, c)))
  {
    hide LineLength;
    forall k | 0 <= k < 64
      ensures HalfBlock(f, ls, i, c)[k] == 0
    {
      ColumnInLine(f, 16 * i + 2 * (k % 8) + 1, c);
      assert GreyRow(ls[k / 8]);
    }
  }

  lemma GreyQuarter(f: Format, ls: seq<seq<byte>>, i: nat, c: nat)
    requires ValidLines(f, ls) && f.mode.H2V2? && i < McusPerRow(f) && c < 3 && GreyLines(ls)
    ensures ZeroSamples(RawBlock(c, QuarterBlock(f, ls, i, c)))
  {
    hide LineLength;
    forall k | 0 <= k < 64
      ensures QuarterBlock(f, ls, i, c)[k] == 0
    {
      ColumnInLine(f, 16 * i + 2 * (k % 8) + 1, c);
      assert GreyRow(ls[2 * (k / 8)]) && GreyRow(ls[2 * (k / 8) + 1]);
    }
  }

  lemma GreyMcu(f: Format, ls: seq<seq<byte>>, i: nat)
    requires ValidLines(f, ls) && i < McusPerRow(f) && GreyLines(ls)
    ensures AllZero(McuBlocks(f, ls, i))
  {
    hide FullBlock, HalfBlock, QuarterBlock, McusPerRow, ValidLines, GreyLines;
    match f.mode
    case YOnly => GreyFull(f, ls, i, 0, 0);
    case H1V1 =>
      GreyFull(f, ls, i, 0, 0);
      GreyFull(f, ls, i, 0, 1);
      GreyFull(f, ls, i, 0, 2);
    case H2V1 =>
      GreyFull(f, ls, 2 * i, 0, 0);
      GreyFull(f, ls, 2 * i + 1, 0, 0);
      GreyHalf(f, ls, i, 1);
      GreyHalf(f, ls, i, 2);
    case H2V2 =>
      GreyFull(f, ls, 2 * i, 0, 0);
      GreyFull(f, ls, 2 * i + 1, 0, 0);
      GreyFull(f, ls, 2 * i, 1, 0);
      GreyFull(f, ls, 2 * i + 1, 1, 0);
      GreyQuarter(f, ls, i, 1);
      GreyQuarter(f, ls, i, 2);
  }

  lemma {:induction false} GreyMcuRow(f: Format, ls: seq<seq<byte>>, n: nat)
    requires ValidLines(f, ls) && n <= McusPerRow(f) && GreyLines(ls)
    ensures AllZero(RowBlocks(f, ls, n))
  {
    hide McuBlocks, McusPerRow, ValidLines, GreyLines, ZeroSamples;
    if n > 0 {
      GreyMcuRow(f, ls, n - 1);
      GreyMcu(f, ls, n - 1);
    }
  }

  lemma {:induction false} GreyImage(f: Format, height: nat, n: nat)
    requires ValidFormat(f) && (n > 0 ==> height > 0)
    ensures AllZero(ImageBlocks(f, GreyRows(f, height), n))
  {
    hide GreyRows, McuLines, RowBlocks, McusPerRow, GreyLines, ZeroSamples;
    if n > 0 {
      GreyImage(f, height, n - 1);
      GreyMcuLines(f, height, n - 1);
      GreyMcuRow(f, McuLines(f, GreyRows(f, height), n - 1), McusPerRow(f));
    }
  }

  lemma ZeroDot(s: seq<int>, k: nat)
    requires |s| == 8 && k < 8 && forall i :: 0 <= i < 8 ==> s[i] == 0
    ensures Dct.RowOut(s, k) == 0 && Dct.ColumnOut(s, k) == 0
  {
    assert Dct.Dot(k, s) == 0;
  }

  lemma ZeroRowPass(s: seq<int>, n: nat)
    requires |s| == 64 && n < 64 && forall k :: 0 <= k < 64 ==> s[k] == 0
    ensures Dct.RowPass(s)[n] == 0
  {
    hide Dct.RowOut, Dct.RowPass;
    Dct.RowPassAt(s, n);
    ZeroDot(Dct.Row(s, n / 8), n % 8);
  }

  lemma ZeroColumnPass(m: seq<int>, n: nat)
    requires |m| == 64 && n < 64 && forall k :: 0 <= k < 64 ==> m[k] == 0
    ensures Dct.ColumnPass(m)[n] == 0
  {
    hide Dct.ColumnOut, Dct.ColumnPass;
    Dct.ColumnPassAt(m, n);
    ZeroDot(Dct.Column(m, n % 8), n / 8);
  }

  lemma ZeroDct(s: seq<int>)
    requires |s| == 64 && forall k :: 0 <= k < 64 ==> s[k] == 0
    ensures Dct.Dct2D(s) == seq(64, _ => 0)
  {
    hide Dct.RowPass, Dct.ColumnPass;
    forall n | 0 <= n < 64
      ensures Dct.RowPass(s)[n] == 0
    {
      ZeroRowPass(s, n);
    }
    forall n | 0 <= n < 64
      ensures Dct.Dct2D(s)[n] == 0
    {
      ZeroColumnPass(Dct.RowPass(s), n);
    }
  }

  lemma ZeroQuantised(q: seq<int>)
    requires IsQuantTable(q)
    ensures QuantiseBlock(seq(64, _ => 0), q) == Flat()
  {
    forall i | 0 <= i < 64
      ensures Quantise(0, q[i]) == 0
    {
      QuantiseSmall(0, q[i]);
    }
  }

  lemma GreyCoefficients(f: Format, height: nat, quality: int)
    requires ValidFormat(f) && 1 <= quality <= 100
    ensures forall i :: 0 <= i < |Coefficients(f, GreyRows(f, height), quality)| ==>
      Coefficients(f, GreyRows(f, height), quality)[i].coefs == Flat()
  {
    hide ImageBlocks, GreyRows, QuantTable, IsQuantTable, Flat, McuRows, QuantiseBlock;
    var rows := GreyRows(f, height);
    var bs := ImageBlocks(f, rows, McuRows(f, height));
    GreyImage(f, height, McuRows(f, height));
    TableIsQuant(STD_LUM_QUANT, quality);
    TableIsQuant(STD_CHROMA_QUANT, quality);
    ZeroQuantised(QuantTable(STD_LUM_QUANT, quality));
    ZeroQuantised(QuantTable(STD_CHROMA_QUANT, quality));
    forall i | 0 <= i < |bs|
      ensures ZeroSamples(bs[i]) && Dct.Dct2D(bs[i].samples) == seq(64, _ => 0)
    {
      ZeroDct(bs[i].samples);
    }
    hide Dct.Dct2D;
  }

  /** The lower bound is reached by the mid-grey image, for all dimensions, modes
      and qualities. */
  lemma GreyIsShortest(f: Format, height: nat, quality: int)
    requires ValidFormat(f) && 1 <= quality <= 100
    ensures |ImageBytes(f, GreyRows(f, height), quality)| == ShortestFile(f, height)
  {
    hide ImageBytes, ImageBits, Stuff, PackBytes, HeaderLength, Mcus, LeastMcuBits, GreyRows, Calm;
    FileParts(f, GreyRows(f, height), quality);
    GreyBits(f, height, quality);
    ScanSize(ImageBits(f, GreyRows(f, height), quality));
  }

  lemma GreyBits(f: Format, height: nat, quality: int)
    requires ValidFormat(f) && 1 <= quality <= 100
    ensures |ImageBits(f, GreyRows(f, height), quality)| == LeastMcuBits(f.mode) * Mcus(f, height)
    ensures Calm(ImageBits(f, GreyRows(f, height), quality))
  {
    hide Coefficients, CodableBlock, EmittableCoders, EncodeBlocks, LeastMcuBits, LeastBits, Comps, Mcus, Frugal, GreyRows;
    hide WellSizedCoder, Covers, CalmCoder, Calm, Flat;
    StandardReady();
    CoversEach(Standard(), 0);
    StandardIsFrugal();
    StandardIsCalm();
    GreyCoefficients(f, height, quality);
    FlatScan(Standard(), Coefficients(f, GreyRows(f, height), quality));
    ImageLeastBits(f, GreyRows(f, height), quality);
  }
}
