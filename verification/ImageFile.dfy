/** A whole image: what the encoder promises from the first scanline to the last
    byte, and the driver convert_image of to_jpg.cpp. */
module ImageFile {
  import opened Words
  import opened Entropy
  import opened Scan
  import opened Packer
  import opened Dct
  import opened Output
  import opened Quant
  import opened Geometry
  import opened Headers
  import opened JpegFile
  import opened ScanCoding
  import opened Encoder

  // ------------------------------------------- the components of the blocks

  function RawComps(bs: seq<RawBlock>): seq<int> {
    seq(|bs|, i requires 0 <= i < |bs| => bs[i].comp)
  }

  /** The component of every block of an MCU, in coding order. */
  function McuComps(m: Subsampling): (p: seq<int>)
    ensures forall j :: 0 <= j < |p| ==> 0 <= p[j] < 3
  {
    match m
    case YOnly => [0]
    case H1V1 => [0, 1, 2]
    case H2V1 => [0, 0, 1, 2]
    case H2V2 => [0, 0, 0, 0, 1, 2]
  }

  /** It is what a decoder derives from the frame header. */
  lemma PatternIsMcu(m: Subsampling)
    ensures McuPattern(FrameOf(m), 0) == McuComps(m)
  {
    hide McuPattern;
    var n := HSamp(m, 0) * VSamp(m, 0);
    var luma := FrameComponent(1, HSamp(m, 0), VSamp(m, 0), 0);
    assert n == 1 || n == 2 || n == 4;
    FewZeros(n);
    NoPattern();
    if m.YOnly? {
      assert FrameOf(m) == [luma] + [];
      OnePattern(luma, [], 0);
    } else {
      var rest := [FrameComponent(2, 1, 1, 1), FrameComponent(3, 1, 1, 1)];
      ChromaPattern();
      OnePattern(luma, rest, 0);
      assert FrameOf(m) == [luma] + rest;
    }
  }

  lemma FewZeros(n: nat)
    requires n <= 4
    ensures seq(n, _ => 0) == [0, 0, 0, 0][..n]
  {
  }

  lemma ChromaPattern()
    ensures McuPattern([FrameComponent(2, 1, 1, 1), FrameComponent(3, 1, 1, 1)], 1) == [1, 2]
  {
    hide McuPattern;
    var f1, f2 := FrameComponent(2, 1, 1, 1), FrameComponent(3, 1, 1, 1);
    NoPattern();
    OnePattern(f2, [], 2);
    OnePattern(f1, [f2] + [], 1);
    assert [f1, f2] == [f1] + ([f2] + []);
    assert seq(1, _ => 1) == [1] && seq(1, _ => 2) == [2];
  }

  lemma NoPattern()
    ensures McuPattern([], 1) == [] && McuPattern([], 3) == []
  {
  }

  lemma OnePattern(c: FrameComponent, cs: seq<FrameComponent>, i: nat)
    requires |cs| + i <= 2 && c.h * c.v >= 0
    ensures McuPattern([c] + cs, i) == seq(c.h * c.v, _ => i) + McuPattern(cs, i + 1)
  {
    assert ([c] + cs)[1..] == cs;
  }

  lemma RawCompsAppend(a: seq<RawBlock>, b: seq<RawBlock>)
    ensures RawComps(a + b) == RawComps(a) + RawComps(b)
  {
  }

  lemma McuBlocksComps(f: Format, ls: seq<seq<byte>>, i: nat)
    requires ValidLines(f, ls) && i < McusPerRow(f)
    ensures RawComps(McuBlocks(f, ls, i)) == McuComps(f.mode)
  {
    hide FullBlock, HalfBlock, QuarterBlock, ValidLines, McusPerRow;
  }

  lemma {:induction false} RowComps(f: Format, ls: seq<seq<byte>>, n: nat)
    requires ValidLines(f, ls) && n <= McusPerRow(f)
    ensures RawComps(RowBlocks(f, ls, n)) == Repeat(McuComps(f.mode), n)
  {
    hide McuBlocks, ValidLines, McusPerRow, McuComps;
    if n > 0 {
      RowComps(f, ls, n - 1);
      McuBlocksComps(f, ls, n - 1);
      RawCompsAppend(RowBlocks(f, ls, n - 1), McuBlocks(f, ls, n - 1));
    }
  }

  lemma {:induction false} RepeatAppend(p: seq<int>, a: nat, b: nat)
    requires forall j :: 0 <= j < |p| ==> 0 <= p[j] < 3
    ensures Repeat(p, a + b) == Repeat(p, a) + Repeat(p, b)
  {
    if b > 0 {
      RepeatAppend(p, a, b - 1);
      assert Repeat(p, a + b) == Repeat(p, a + b - 1) + p;
    }
  }

  lemma {:induction false} ImageComps(f: Format, rows: seq<seq<byte>>, n: nat)
    requires ValidFormat(f) && ValidRows(f, rows) && (n > 0 ==> rows != [])
    ensures RawComps(ImageBlocks(f, rows, n)) == Repeat(McuComps(f.mode), McusPerRow(f) * n)
  {
    hide RowBlocks, McuLines, McusPerRow, McuComps, ValidLines;
    if n > 0 {
      ImageComps(f, rows, n - 1);
      var ls := McuLines(f, rows, n - 1);
      RowComps(f, ls, McusPerRow(f));
      RawCompsAppend(ImageBlocks(f, rows, n - 1), RowBlocks(f, ls, McusPerRow(f)));
      RepeatAppend(McuComps(f.mode), McusPerRow(f) * (n - 1), McusPerRow(f));
      assert McusPerRow(f) * n == McusPerRow(f) * (n - 1) + McusPerRow(f);
    }
  }

  // ------------------------------------------------------ the file of an image

  /** The quantised coefficients of an image. */
  ghost function Coefficients(f: Format, rows: seq<seq<byte>>, quality: int): (bs: seq<Block>)
    requires ValidFormat(f) && ValidRows(f, rows) && 1 <= quality <= 100
    ensures CodableBlocks(bs)
  {
    hide ImageBlocks, CodeAll, QuantTable, IsQuantTable, InRange;
    var n := McuRows(f, |rows|);
    TableIsQuant(STD_LUM_QUANT, quality);
    TableIsQuant(STD_CHROMA_QUANT, quality);
    ImageInRange(f, rows, n);
    CodeAllCodable(ImageBlocks(f, rows, n), QuantTable(STD_LUM_QUANT, quality), QuantTable(STD_CHROMA_QUANT, quality));
    CodeAll(ImageBlocks(f, rows, n), QuantTable(STD_LUM_QUANT, quality), QuantTable(STD_CHROMA_QUANT, quality))
  }

  /** The bytes of the file of an image. */
  ghost function ImageBytes(f: Format, rows: seq<seq<byte>>, quality: int): seq<byte>
    requires ValidFormat(f) && ValidRows(f, rows) && 1 <= quality <= 100
  {
    hide Coefficients, QuantTable, IsQuantTable, EmittableCoders, FileBytes, Standard;
    TableIsQuant(STD_LUM_QUANT, quality);
    TableIsQuant(STD_CHROMA_QUANT, quality);
    StandardReady();
    FileBytes(Standard(), f, |rows|, QuantTable(STD_LUM_QUANT, quality), QuantTable(STD_CHROMA_QUANT, quality),
              Coefficients(f, rows, quality))
  }

  /** What the header of that file declares: the size, the sampling factors of
      the mode, the standard Huffman tables and the tables of the quality. */
  ghost function ImageInfo(f: Format, height: nat, quality: int): Info
    requires 1 <= quality <= 100
  {
    hide QuantTable, IsQuantTable, EmittableCoders, Standard;
    TableIsQuant(STD_LUM_QUANT, quality);
    TableIsQuant(STD_CHROMA_QUANT, quality);
    StandardReady();
    HeaderInfo(Standard(), f.width, height, f.mode, QuantTable(STD_LUM_QUANT, quality), QuantTable(STD_CHROMA_QUANT, quality))
  }

  lemma CoefficientComps(f: Format, rows: seq<seq<byte>>, quality: int)
    requires ValidFormat(f) && ValidRows(f, rows) && 1 <= quality <= 100
    ensures Comps(Coefficients(f, rows, quality)) == RawComps(ImageBlocks(f, rows, McuRows(f, |rows|)))
    ensures |Coefficients(f, rows, quality)| == |ImageBlocks(f, rows, McuRows(f, |rows|))|
  {
    hide ImageBlocks, QuantTable, Dct2D, QuantiseBlock;
  }

  lemma {:induction false} RepeatZeros(n: nat)
    ensures forall i :: 0 <= i < |Repeat([0], n)| ==> Repeat([0], n)[i] == 0
  {
    if n > 0 {
      RepeatZeros(n - 1);
    }
  }

  /** From the bytes of the file alone a T.81 decoder recovers the size, the
      sampling factors, the tables and every quantised coefficient. */
  lemma ImageRoundTrip(f: Format, rows: seq<seq<byte>>, quality: int)
    requires ValidFormat(f) && ValidRows(f, rows) && 1 <= quality <= 100
    requires f.width <= 0xFFFF && |rows| <= 0xFFFF
    ensures DecodeFile(ImageBytes(f, rows, quality))
         == Some((ImageInfo(f, |rows|, quality), Coefficients(f, rows, quality)))
  {
    hide Coefficients, QuantTable, IsQuantTable, EmittableCoders, FileBytes, Standard, CoversAll;
    hide ImageBlocks, McuPattern, Repeat, McusPerRow, DecodeFile, HeaderInfo, RawComps, McuComps;
    var n := McuRows(f, |rows|);
    var bs := Coefficients(f, rows, quality);
    TableIsQuant(STD_LUM_QUANT, quality);
    TableIsQuant(STD_CHROMA_QUANT, quality);
    StandardReady();
    McuRowCount(f, |rows|);
    ImageComps(f, rows, n);
    CoefficientComps(f, rows, quality);
    PatternIsMcu(f.mode);
    assert FollowsPattern(f, |rows|, Comps(bs));
    if f.mode.YOnly? {
      GreyComps(Comps(bs), McusPerRow(f) * n);
      forall i | 0 <= i < |bs|
        ensures bs[i].comp == 0
      {
        assert Comps(bs)[i] == bs[i].comp;
      }
    }
    FileRoundTrip(Standard(), f, |rows|, QuantTable(STD_LUM_QUANT, quality), QuantTable(STD_CHROMA_QUANT, quality), bs);
  }

  lemma GreyComps(cs: seq<int>, n: nat)
    requires cs == Repeat(McuComps(YOnly), n)
    ensures forall i :: 0 <= i < |cs| ==> cs[i] == 0
  {
    RepeatZeros(n);
  }

  /** What a decoder makes of a quantised coefficient: it is n steps, the step is
      that of its place in the table which the frame header names. */
  ghost predicate DecodedNear(info: Info, b: Block, raw: RawBlock, z: nat)
    requires z < 64 && |raw.samples| == 64
  {
    && b.comp == raw.comp && 0 <= b.comp < |info.frame| && info.frame[b.comp].quant in info.quant
    && var table := info.quant[info.frame[b.comp].quant];
    && |table| == 64 && |b.coefs| == 64 && NearestAway(b.coefs[z], Dct2D(raw.samples)[Zag(z)], table[z])
  }

  /** The table that the frame header names for a component. */
  lemma DeclaredTable(f: Format, height: nat, quality: int, comp: int)
    requires 1 <= quality <= 100 && 0 <= comp < 3 && (f.mode.YOnly? ==> comp == 0)
    ensures
      var info := ImageInfo(f, height, quality);
      && comp < |info.frame| && info.frame[comp].quant in info.quant
      && info.quant[info.frame[comp].quant] == if comp == 0 then QuantTable(STD_LUM_QUANT, quality) else QuantTable(STD_CHROMA_QUANT, quality)
  {
    hide QuantTable, Standard, EmittableCoders, HSamp, VSamp;
  }

  lemma CoefficientNear(f: Format, height: nat, quality: int, raw: RawBlock, z: nat)
    requires 1 <= quality <= 100 && RawInRange(raw) && z < 64 && (f.mode.YOnly? ==> raw.comp == 0)
    requires IsQuantTable(QuantTable(STD_LUM_QUANT, quality)) && IsQuantTable(QuantTable(STD_CHROMA_QUANT, quality))
    ensures DecodedNear(ImageInfo(f, height, quality),
                        CodeRaw(raw, QuantTable(STD_LUM_QUANT, quality), QuantTable(STD_CHROMA_QUANT, quality)), raw, z)
  {
    hide ImageInfo, QuantTable, Dct2D, Quantise, NearestAway, Zag;
    DeclaredTable(f, height, quality, raw.comp);
    var table := if raw.comp == 0 then QuantTable(STD_LUM_QUANT, quality) else QuantTable(STD_CHROMA_QUANT, quality);
    QuantiseNearest(Dct2D(raw.samples)[Zag(z)], table[z]);
  }

  /** From the bytes alone: each decoded coefficient, times the step that the file
      declares for it, is within half a step of the transform of the image block
      at its place, and no other value is nearer. */
  lemma DecodedIsNear(f: Format, rows: seq<seq<byte>>, quality: int, i: nat, z: nat)
    requires ValidFormat(f) && ValidRows(f, rows) && 1 <= quality <= 100
    requires f.width <= 0xFFFF && |rows| <= 0xFFFF
    requires i < |ImageBlocks(f, rows, McuRows(f, |rows|))| && z < 64
    ensures DecodeFile(ImageBytes(f, rows, quality)).Some?
    ensures
      var (info, blocks) := DecodeFile(ImageBytes(f, rows, quality)).value;
      var raw := ImageBlocks(f, rows, McuRows(f, |rows|))[i];
      i < |blocks| && |raw.samples| == 64 && DecodedNear(info, blocks[i], raw, z)
  {
    hide ImageBlocks, McuRows, QuantTable, IsQuantTable, ImageInfo, DecodeFile, ImageBytes, CodeRaw, DecodedNear, RawInRange;
    ImageRoundTrip(f, rows, quality);
    var n := McuRows(f, |rows|);
    var raw := ImageBlocks(f, rows, n)[i];
    TableIsQuant(STD_LUM_QUANT, quality);
    TableIsQuant(STD_CHROMA_QUANT, quality);
    ImageInRange(f, rows, n);
    RawFacts(raw);
    if f.mode.YOnly? {
      GreyRaw(f, rows, n, i);
    }
    CoefficientNear(f, |rows|, quality, raw, z);
    CoefficientIs(f, rows, quality, i);
  }

  lemma RawFacts(raw: RawBlock)
    requires RawInRange(raw)
    ensures |raw.samples| == 64
  {
  }

  lemma CoefficientIs(f: Format, rows: seq<seq<byte>>, quality: int, i: nat)
    requires ValidFormat(f) && ValidRows(f, rows) && 1 <= quality <= 100
    requires i < |ImageBlocks(f, rows, McuRows(f, |rows|))|
    requires |ImageBlocks(f, rows, McuRows(f, |rows|))[i].samples| == 64
    requires IsQuantTable(QuantTable(STD_LUM_QUANT, quality)) && IsQuantTable(QuantTable(STD_CHROMA_QUANT, quality))
    ensures i < |Coefficients(f, rows, quality)|
    ensures Coefficients(f, rows, quality)[i]
         == CodeRaw(ImageBlocks(f, rows, McuRows(f, |rows|))[i], QuantTable(STD_LUM_QUANT, quality),
                    QuantTable(STD_CHROMA_QUANT, quality))
  {
    hide ImageBlocks, McuRows, QuantTable, IsQuantTable, CodeRaw, RawInRange;
    ImageInRange(f, rows, McuRows(f, |rows|));
  }

  /** Grey images have luma blocks only. */
  lemma GreyRaw(f: Format, rows: seq<seq<byte>>, n: nat, i: nat)
    requires ValidFormat(f) && ValidRows(f, rows) && (n > 0 ==> rows != []) && f.mode.YOnly?
    requires i < |ImageBlocks(f, rows, n)|
    ensures ImageBlocks(f, rows, n)[i].comp == 0
  {
    hide ImageBlocks, McusPerRow;
    ImageComps(f, rows, n);
    GreyComps(RawComps(ImageBlocks(f, rows, n)), McusPerRow(f) * n);
    assert RawComps(ImageBlocks(f, rows, n))[i] == ImageBlocks(f, rows, n)[i].comp;
  }

  /** The number of coded MCUs: the image size in MCUs, rounded up. */
  lemma McuTotal(f: Format, rows: seq<seq<byte>>, quality: int)
    requires ValidFormat(f) && ValidRows(f, rows) && 1 <= quality <= 100
    ensures |Coefficients(f, rows, quality)|
         == BlocksPerMcu(f.mode) * (CeilDiv(f.width, McuWidth(f.mode)) * CeilDiv(|rows|, McuHeight(f.mode)))
  {
    hide Coefficients, CeilDiv, McuRows, ImageBlocks, Repeat;
    var n := McuRows(f, |rows|);
    McuRowCount(f, |rows|);
    ImageComps(f, rows, n);
    CoefficientComps(f, rows, quality);
    RepeatLength(McuComps(f.mode), McusPerRow(f) * n);
    assert |RawComps(ImageBlocks(f, rows, n))| == |ImageBlocks(f, rows, n)|;
  }

  lemma {:induction false} RepeatLength(p: seq<int>, n: nat)
    requires forall j :: 0 <= j < |p| ==> 0 <= p[j] < 3
    ensures |Repeat(p, n)| == |p| * n
  {
    if n > 0 {
      RepeatLength(p, n - 1);
      assert |p| * n == |p| * (n - 1) + |p|;
    }
  }

  // ------------------------------------------------ prefixes of that file

  lemma {:induction false} EarlierImageStays(f: Format, rows: seq<seq<byte>>, more: seq<seq<byte>>, n: nat)
    requires ValidFormat(f) && ValidRows(f, rows + more) && McuTop(f, n) <= |rows| && ValidRows(f, rows)
    ensures ImageBlocks(f, rows + more, n) == ImageBlocks(f, rows, n)
    decreases |more|
  {
    hide ImageBlocks, ValidRow, McuTop;
    if more == [] {
      assert rows + more == rows;
    } else {
      var k := |more| - 1;
      assert rows + more == (rows + more[..k]) + [more[k]];
      assert forall i :: 0 <= i < |rows| + k ==> (rows + more[..k])[i] == (rows + more)[i];
      EarlierImageStays(f, rows, more[..k], n);
      EarlierRowsStay(f, rows + more[..k], more[k], n);
    }
  }

  lemma {:induction false} ImageGrows(f: Format, rows: seq<seq<byte>>, m: nat, n: nat)
    requires ValidFormat(f) && ValidRows(f, rows) && (n > 0 ==> rows != []) && m <= n
    ensures ImageBlocks(f, rows, m) <= ImageBlocks(f, rows, n)
  {
    hide RowBlocks, McuLines, McusPerRow, ValidLines;
    if m < n {
      ImageGrows(f, rows, m, n - 1);
    }
  }

  lemma {:induction false} EncodeGrows(k: Coders, preds: seq<int>, a: seq<Block>, b: seq<Block>)
    requires WellSizedCoders(k) && ValidPreds(preds) && CodableBlocks(a + b) && CodableBlocks(a)
    ensures EncodeBlocks(k, preds, a) <= EncodeBlocks(k, preds, a + b)
    decreases a
  {
    hide EncodeBlock, CodableBlock;
    if a != [] {
      assert (a + b)[1..] == a[1..] + b && (a + b)[0] == a[0];
      assert CodableBlock(a[0]);
      EncodeGrows(k, NextPreds(preds, a[0]), a[1..], b);
    }
  }

  /** A longer bit string has more stuffed bytes, none of them changed. */
  lemma StuffedGrows(s: seq<bool>, t: seq<bool>)
    requires s <= t
    ensures Stuff(PackBytes(s)) <= Stuff(PackBytes(t))
  {
    hide Stuff, PackBytes, Rest;
    var u := t[|s|..];
    assert t == s + u;
    PackAppend(s, u);
    StuffAppend(PackBytes(s), PackBytes(Rest(s) + u));
  }

  /** The blocks coded so far come first in the whole image. */
  lemma CodedGrows(f: Format, rows: seq<seq<byte>>, all: seq<seq<byte>>, quality: int,
                   base: seq<byte>, head: seq<byte>, coded: seq<Block>)
    requires ValidFormat(f) && ValidRows(f, all) && rows <= all && 1 <= quality <= 100
    requires RowsCoded(Standard(), f, |all|, rows, WholeMcuRows(f, |rows|), QuantTable(STD_LUM_QUANT, quality),
                       QuantTable(STD_CHROMA_QUANT, quality), base, head, coded)
    ensures coded <= Coefficients(f, all, quality)
  {
    hide QuantTable, IsQuantTable, ImageBlocks, CodeRaw, RawInRange, EmittableCoders, Standard, HeaderBytes;
    var m, n := WholeMcuRows(f, |rows|), McuRows(f, |all|);
    McuRowCount(f, |rows|);
    EarlierImageStays(f, rows, all[|rows|..], m);
    assert rows + all[|rows|..] == all;
    assert m <= n;
    ImageGrows(f, all, m, n);
  }

  /** What the encoder has emitted after some scanlines is the beginning of
      the file of any image that starts with them. */
  lemma EmittedIsPrefix(f: Format, rows: seq<seq<byte>>, all: seq<seq<byte>>, quality: int,
                        base: seq<byte>, head: seq<byte>, coded: seq<Block>, bits: seq<bool>)
    requires ValidFormat(f) && ValidRows(f, all) && rows <= all && 1 <= quality <= 100
    requires RowsCoded(Standard(), f, |all|, rows, WholeMcuRows(f, |rows|), QuantTable(STD_LUM_QUANT, quality),
                       QuantTable(STD_CHROMA_QUANT, quality), base, head, coded)
    requires BitsAre(Standard(), coded, bits)
    ensures head + Stuff(PackBytes(bits)) <= base + ImageBytes(f, all, quality)
  {
    hide QuantTable, IsQuantTable, HeaderBytes, Standard, EncodeBlocks, Stuff, PackBytes, CodableBlock;
    hide EmittableCoders, Coefficients, ImageBlocks, CodeAll, InRange, WholeMcuRows;
    var k, blocks := Standard(), Coefficients(f, all, quality);
    CodedGrows(f, rows, all, quality, base, head, coded);
    assert blocks == coded + blocks[|coded|..];
    EncodeGrows(k, START, coded, blocks[|coded|..]);
    var allBits := EncodeBlocks(k, START, blocks) + Ones(7);
    assert bits <= allBits;
    StuffedGrows(bits, allBits);
    PrefixInMiddle(base, HeaderBytes(k, f.width, |all|, f.mode, QuantTable(STD_LUM_QUANT, quality), QuantTable(STD_CHROMA_QUANT, quality)),
                   Stuff(PackBytes(bits)), Stuff(PackBytes(allBits)), [0xFF, M_EOI]);
  }

  lemma PrefixInMiddle(base: seq<byte>, h: seq<byte>, a: seq<byte>, b: seq<byte>, t: seq<byte>)
    requires a <= b
    ensures (base + h) + a <= base + (h + b + t)
  {
  }

  // ------------------------------------------------------------ convert_image

  /** What convert_image makes of the quality it is asked for. */
  function Clamped(quality: byte): (q: int)
    ensures 1 <= q <= 100
    ensures 1 <= quality <= 100 ==> q == quality
    ensures quality == 0 ==> q == 1
    ensures quality > 100 ==> q == 100
  {
    if quality == 0 then 1 else if quality > 100 then 100 else quality
  }

  /** Grey pictures have one channel; all others are RGB, with chroma at half the
      resolution both ways. */
  function ConvertFormat(width: nat, grey: bool): (f: Format)
    ensures f.width == width && f.bpp == (if grey then 1 else 3)
    ensures Components(f.mode) == f.bpp && (!grey ==> McuWidth(f.mode) == McuHeight(f.mode) == 16)
  {
    Format(width, if grey then 1 else 3, if grey then YOnly else H2V2)
  }

  /** The encoder was set up for an image of the given rows, n of them are fed. */
  ghost predicate Feeding(e: JpegEncoder, f: Format, rows: seq<seq<byte>>, n: nat, quality: int, base: seq<byte>)
    reads e, e.statics, e.statics.quantLum, e.statics.quantChroma
  {
    && e.statics.Valid() && e.statics.lastQuality == quality
    && e.Made() && n <= |rows| && 1 <= quality <= 100
    && e.format == f && e.height == |rows| && e.fed == rows[..n] && e.base == base
  }

  /** Up to here the stream holds a prefix of the file. */
  lemma FeedingPrefix(e: JpegEncoder, f: Format, rows: seq<seq<byte>>, n: nat, quality: int, base: seq<byte>)
    requires ValidFormat(f) && ValidRows(f, rows) && e.Open() && Feeding(e, f, rows, n, quality, base)
    ensures e.FlagRight() && e.coder.w.stream.accepted <= base + ImageBytes(f, rows, quality)
  {
    hide QuantTable, RowsCoded, BitsAre, Standard, Stuff, PackBytes, ImageBytes, EmittableCoders;
    hide JpegEncoder.Open, ScanCoder.Ready, ScanCoder.QuantReady;
    e.OpenFacts();
    e.InsideImage();
    ReadyToEnd(e.coder);
    FlagOf(e.coder.w);
    EmittedIsPrefix(f, rows[..n], rows, quality, base, e.coder.w.head, e.coder.coded, e.coder.w.bits);
  }

  /** At the end of the image, the whole file was offered to the stream. */
  lemma FinishedFile(e: JpegEncoder, f: Format, rows: seq<seq<byte>>, quality: int, base: seq<byte>)
    requires ValidFormat(f) && ValidRows(f, rows) && e.Finished() && Feeding(e, f, rows, |rows|, quality, base)
    ensures e.coder != null && e.coder.w.emitted == base + ImageBytes(f, rows, quality)
  {
    hide QuantTable, IsQuantTable, Standard, CodableBlock, FileBytes, EmittableCoders, ImageBlocks, CodeAll, InRange;
    hide ScanCoder.QuantReady;
    assert rows[..|rows|] == rows;
  }

  /** The scanline loop of convert_image, and the call that ends the image. */
  method FeedRows(e: JpegEncoder, rows: seq<seq<byte>>, ghost f: Format, ghost quality: int, ghost base: seq<byte>,
                  ghost statics: Statics, ghost stream: OutputStream, ghost failuresBefore: nat,
                  ghost endsBefore: nat)
    returns (ok: bool)
    requires ValidFormat(f) && ValidRows(f, rows) && 1 <= quality <= 100
    requires e.statics == statics && e.coder != null && e.Taking()
    requires e.coder.w.stream == stream && e.coder.w.failuresBefore == failuresBefore && e.coder.w.endsBefore == endsBefore
    requires {e, e.lines, statics, statics.quantLum, statics.quantChroma} !! e.Parts()
    requires e.lines as object != statics.quantLum && e.lines as object != statics.quantChroma
    requires Feeding(e, f, rows, 0, quality, base)
    requires e.Open()
    modifies e, e.lines, e.Parts()
    ensures statics.Valid() && (ok <==> stream.failures == failuresBefore) && (stream.reliable ==> ok)
    ensures endsBefore <= stream.ends <= endsBefore + 1 && (ok ==> stream.ends == endsBefore + 1)
    ensures stream.accepted <= base + ImageBytes(f, rows, quality)
    ensures ok ==> stream.accepted == base + ImageBytes(f, rows, quality)
  {
    hide JpegEncoder.Open, JpegEncoder.Finished, Statics.Valid, ImageBytes, QuantTable, ValidRow;
    for i := 0 to |rows|
      invariant e.Open() && Feeding(e, f, rows, i, quality, base) && e.Taking()
      invariant e.coder == old(e.coder) && e.lines == old(e.lines)
    {
      ok := e.ProcessScanline(Some(rows[i]));
      if !ok {
        FeedingPrefix(e, f, rows, i + 1, quality, base);
        return;
      }
    }
    ok := e.ProcessScanline(None);
    FinishedFile(e, f, rows, quality, base);
  }

  /** convert_image, with the pixel rows in the order that the encoder reads
      them, and with the results of the two allocations as parameters. */
  method ConvertImage(statics: Statics, stream: OutputStream, width: nat, rows: seq<seq<byte>>, grey: bool,
                      quality: byte, encoderMemory: bool, lineMemory: bool)
    returns (ok: bool)
    requires statics.Valid() && ValidRows(ConvertFormat(width, grey), rows)
    modifies statics, statics.quantLum, statics.quantChroma, stream
    ensures statics.Valid()
    ensures ok <==> width > 0 && rows != [] && encoderMemory && lineMemory && stream.failures == old(stream.failures)
    ensures stream.reliable ==> stream.failures == old(stream.failures)
    ensures old(stream.ends) <= stream.ends <= old(stream.ends) + 1 && (ok ==> stream.ends == old(stream.ends) + 1)
    ensures width == 0 || rows == [] || !encoderMemory ==> unchanged(stream)
    ensures width > 0 && rows != [] && encoderMemory ==>
      stream.accepted <= old(stream.accepted) + ImageBytes(ConvertFormat(width, grey), rows, Clamped(quality))
    ensures ok ==>
      stream.accepted == old(stream.accepted) + ImageBytes(ConvertFormat(width, grey), rows, Clamped(quality))
  {
    hide JpegEncoder.Open, JpegEncoder.Finished, Statics.Valid, ImageBytes, QuantTable, ValidRow, Clamped;
    ghost var base, f := stream.accepted, ConvertFormat(width, grey);
    var q := Clamped(quality);
    var e := new JpegEncoder(statics);
    ok := e.Init(stream, width, |rows|, if grey then 1 else 3, q, if grey then YOnly else H2V2, encoderMemory);
    if width == 0 || rows == [] || !encoderMemory {
      return;
    }
    FeedingPrefix(e, f, rows, 0, q, base);
    if !ok || !lineMemory {
      return false;
    }
    e.InsideImage();
    ok := FeedRows(e, rows, f, q, base, statics, stream, old(stream.failures), old(stream.ends));
  }
}
