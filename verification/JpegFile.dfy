/** The whole file that the encoder emits for an image, and a decoder that
    starts from the bytes alone and recovers every quantised coefficient. */
module JpegFile {
  import opened Words
  import opened Entropy
  import opened Scan
  import opened Packer
  import opened Dct
  import opened Quant
  import opened Geometry
  import opened Headers

  // -------------------------------------------------------------- encoding

  /** Transform and quantise one block. */
  function CodeRaw(b: RawBlock, lum: seq<int>, chroma: seq<int>): Block
    requires |b.samples| == 64 && IsQuantTable(lum) && IsQuantTable(chroma)
  {
    Block(b.comp, QuantiseBlock(Dct2D(b.samples), if b.comp == 0 then lum else chroma))
  }

  lemma CodeRawCodable(b: RawBlock, lum: seq<int>, chroma: seq<int>)
    requires RawInRange(b) && IsQuantTable(lum) && IsQuantTable(chroma)
    ensures CodableBlock(CodeRaw(b, lum, chroma))
  {
    hide Dct2D, QuantiseBlock;
    var f := Dct2D(b.samples);
    forall n | 0 <= n < 64
      ensures n == 0 ==> -1024 <= f[n] <= 1016
      ensures n != 0 ==> -1020 <= f[n] <= 1020
    {
      CoefficientRange(b.samples, n);
    }
    QuantisedCodable(f, if b.comp == 0 then lum else chroma);
  }

  function CodeAll(bs: seq<RawBlock>, lum: seq<int>, chroma: seq<int>): (r: seq<Block>)
    requires InRange(bs) && IsQuantTable(lum) && IsQuantTable(chroma)
    ensures |r| == |bs|
  {
    seq(|bs|, i requires 0 <= i < |bs| => CodeRaw(bs[i], lum, chroma))
  }

  /** Whatever the samples, the coefficients are codable. */
  lemma CodeAllCodable(bs: seq<RawBlock>, lum: seq<int>, chroma: seq<int>)
    requires InRange(bs) && IsQuantTable(lum) && IsQuantTable(chroma)
    ensures CodableBlocks(CodeAll(bs, lum, chroma))
  {
    hide CodeRaw, CodableBlock;
    forall i | 0 <= i < |bs|
      ensures CodableBlock(CodeAll(bs, lum, chroma)[i])
    {
      CodeRawCodable(bs[i], lum, chroma);
    }
  }

  const START: seq<int> := [0, 0, 0]

  /** The entropy-coded bytes of a scan, padded with one bits. */
  function ScanBytes(k: Coders, blocks: seq<Block>): seq<byte>
    requires WellSizedCoders(k) && CodableBlocks(blocks)
  {
    Stuff(PackBytes(EncodeBlocks(k, START, blocks) + Ones(7)))
  }

  function FileBytes(k: Coders, f: Format, height: nat, lum: seq<int>, chroma: seq<int>, blocks: seq<Block>): seq<byte>
    requires EmittableCoders(k) && IsQuantTable(lum) && IsQuantTable(chroma) && CodableBlocks(blocks)
  {
    HeaderBytes(k, f.width, height, f.mode, lum, chroma) + ScanBytes(k, blocks) + [0xFF, M_EOI]
  }

  // -------------------------------------------------------------- decoding

  /** The largest sampling factor of a frame, across or down. */
  function MaxSampling(cs: seq<FrameComponent>, down: bool): (n: int)
    ensures n >= 1
  {
    if cs == [] then 1
    else
      Max(MaxSampling(cs[1..], down), if down then cs[0].v else cs[0].h)
  }

  /** The component of every block of one MCU (T.81 section A.2.3). */
  function McuPattern(cs: seq<FrameComponent>, i: nat): (p: seq<int>)
    requires |cs| + i <= 3
    ensures forall j :: 0 <= j < |p| ==> 0 <= p[j] < 3
  {
    if cs == [] then []
    else seq(if cs[0].h * cs[0].v > 0 then cs[0].h * cs[0].v else 0, _ => i) + McuPattern(cs[1..], i + 1)
  }

  function Repeat(p: seq<int>, n: nat): (r: seq<int>)
    requires forall j :: 0 <= j < |p| ==> 0 <= p[j] < 3
    ensures forall j :: 0 <= j < |r| ==> 0 <= r[j] < 3
  {
    if n == 0 then [] else Repeat(p, n - 1) + p
  }

  /** The number of MCUs that cover the declared size. */
  function McuCount(info: Info): nat {
    if info.width < 0 || info.height < 0 then 0
    else CeilDiv(info.width, 8 * MaxSampling(info.frame, false)) * CeilDiv(info.height, 8 * MaxSampling(info.frame, true))
  }

  /** The scan has the components of the frame, in the same order. */
  predicate SameComponents(frame: seq<FrameComponent>, scan: seq<ScanComponent>) {
    |scan| == |frame| && forall i :: 0 <= i < |scan| ==> scan[i].id == frame[i].id
  }

  /** The Huffman tables that the scan header selects. */
  function SelectCoders(info: Info): Option<Coders> {
    var s := info.scan;
    if |s| == 0 || !SameComponents(info.frame, s) || s[0].dc !in info.dc || s[0].ac !in info.ac then None
    else
      var luma := Coder(info.dc[s[0].dc], info.ac[s[0].ac]);
      if |s| == 1 then Some(Coders(luma, luma))
      else if |s| == 3 && s[1].dc == s[2].dc && s[1].ac == s[2].ac && s[1].dc in info.dc && s[1].ac in info.ac then
        Some(Coders(luma, Coder(info.dc[s[1].dc], info.ac[s[1].ac])))
      else None
  }

  /** Header, entropy-coded data up to the marker, EOI; all blocks in order. */
  function DecodeFile(b: seq<byte>): Option<(Info, seq<Block>)> {
    match ReadHeader(b)
    case None => None
    case Some((info, body)) =>
      var (data, tail) := Unstuff(body);
      match SelectCoders(info)
      case None => None
      case Some(k) =>
        if tail != [0xFF, EOI] || |info.frame| > 3 || !WellSizedCoders(k) then None
        else
          match DecodeBlocks(k, START, Repeat(McuPattern(info.frame, 0), McuCount(info)), UnpackBytes(data))
          case None => None
          case Some((blocks, _)) => Some((info, blocks))
  }

  // ------------------------------------------------------------ round trip

  lemma SelectedCoders(k: Coders, width: nat, height: nat, m: Subsampling, lum: seq<int>, chroma: seq<int>)
    requires EmittableCoders(k) && IsQuantTable(lum) && IsQuantTable(chroma)
    ensures SelectCoders(HeaderInfo(k, width, height, m, lum, chroma))
         == Some(if m.YOnly? then Coders(k.luma, k.luma) else k)
  {
    hide EmittableCoders;
    assert k.luma == Coder(k.luma.dc, k.luma.ac) && k.chroma == Coder(k.chroma.dc, k.chroma.ac);
  }

  /** Blocks whose components follow the MCU pattern of the frame header. */
  predicate FollowsPattern(f: Format, height: nat, comps: seq<int>) {
    comps == Repeat(McuPattern(FrameOf(f.mode), 0), McusPerRow(f) * CeilDiv(height, McuHeight(f.mode)))
  }

  lemma DeclaredCount(k: Coders, f: Format, height: nat, lum: seq<int>, chroma: seq<int>)
    requires EmittableCoders(k) && IsQuantTable(lum) && IsQuantTable(chroma)
    ensures McuCount(HeaderInfo(k, f.width, height, f.mode, lum, chroma))
         == McusPerRow(f) * CeilDiv(height, McuHeight(f.mode))
  {
    hide EmittableCoders;
    var m := f.mode;
    var f0 := FrameComponent(1, HSamp(m, 0), VSamp(m, 0), 0);
    var f1, f2 := FrameComponent(2, 1, 1, 1), FrameComponent(3, 1, 1, 1);
    SamplingOf([], false);
    SamplingOf([], true);
    if m.YOnly? {
      assert FrameOf(m) == [f0] + [];
    } else {
      assert FrameOf(m) == [f0] + ([f1] + ([f2] + []));
      SamplingOf([f2] + [], false);
      SamplingOf([f2] + [], true);
      SamplingOf([f1] + ([f2] + []), false);
      SamplingOf([f1] + ([f2] + []), true);
    }
    SamplingOf(FrameOf(m), false);
    SamplingOf(FrameOf(m), true);
    assert MaxSampling(FrameOf(m), false) == HSamp(m, 0) && MaxSampling(FrameOf(m), true) == VSamp(m, 0);
  }

  lemma SamplingOf(cs: seq<FrameComponent>, down: bool)
    ensures MaxSampling(cs, down)
         == if cs == [] then 1
            else Max(MaxSampling(cs[1..], down), if down then cs[0].v else cs[0].h)
  {
  }

  /** With one component only, the chroma coder is never used. */
  lemma {:induction false} LumaOnly(k: Coders, preds: seq<int>, bs: seq<Block>)
    requires WellSizedCoders(k) && ValidPreds(preds) && CodableBlocks(bs)
    requires forall i :: 0 <= i < |bs| ==> bs[i].comp == 0
    ensures EncodeBlocks(k, preds, bs) == EncodeBlocks(Coders(k.luma, k.luma), preds, bs)
    decreases bs
  {
    hide EncodeBlock;
    if bs != [] {
      LumaOnly(k, NextPreds(preds, bs[0]), bs[1..]);
    }
  }

  /** The decoder reads back the scan that the encoder wrote. */
  lemma ScanBytesRoundTrip(k: Coders, blocks: seq<Block>)
    requires WellSizedCoders(k) && CoversAll(k) && CodableBlocks(blocks)
    ensures Unstuff(ScanBytes(k, blocks) + [0xFF, M_EOI])
         == (PackBytes(EncodeBlocks(k, START, blocks) + Ones(7)), [0xFF, M_EOI])
    ensures
      var r := DecodeBlocks(k, START, Comps(blocks), UnpackBytes(PackBytes(EncodeBlocks(k, START, blocks) + Ones(7))));
      r.Some? && r.value.0 == blocks
  {
    hide EncodeBlocks, DecodeBlocks, PackBytes, UnpackBytes, Unstuff, Stuff, CoversAll;
    var bits := EncodeBlocks(k, START, blocks);
    UnstuffStuff(PackBytes(bits + Ones(7)), [0xFF, M_EOI]);
    PaddingFlushes(bits);
    ScanRoundTrip(k, START, blocks, Ones(PadCount(|bits|)));
  }

  /** DecodeFile on a file whose parts have been read. */
  lemma DecodeParts(b: seq<byte>, info: Info, body: seq<byte>, data: seq<byte>, k: Coders, blocks: seq<Block>)
    requires ReadHeader(b) == Some((info, body)) && Unstuff(body) == (data, [0xFF, M_EOI])
    requires SelectCoders(info) == Some(k) && |info.frame| <= 3 && WellSizedCoders(k)
    requires
      var r := DecodeBlocks(k, START, Repeat(McuPattern(info.frame, 0), McuCount(info)), UnpackBytes(data));
      r.Some? && r.value.0 == blocks
    ensures DecodeFile(b) == Some((info, blocks))
  {
    hide ReadHeader, Unstuff, DecodeBlocks, SelectCoders, McuPattern, Repeat, McuCount, WellSizedCoders, UnpackBytes;
  }

  /** Decoding a whole file returns the declared size, the tables, and exactly
      the quantised coefficients of every block. */
  lemma FileRoundTrip(k: Coders, f: Format, height: nat, lum: seq<int>, chroma: seq<int>, blocks: seq<Block>)
    requires EmittableCoders(k) && CoversAll(k) && IsQuantTable(lum) && IsQuantTable(chroma)
    requires f.width <= 0xFFFF && height <= 0xFFFF
    requires CodableBlocks(blocks) && FollowsPattern(f, height, Comps(blocks))
    requires f.mode.YOnly? ==> forall i :: 0 <= i < |blocks| ==> blocks[i].comp == 0
    ensures DecodeFile(FileBytes(k, f, height, lum, chroma, blocks))
         == Some((HeaderInfo(k, f.width, height, f.mode, lum, chroma), blocks))
  {
    hide ReadHeader, HeaderBytes, Unstuff, DecodeBlocks, SelectCoders, McuPattern, Repeat, McuCount, ScanBytes, CoversAll;
    hide DecodeFile, IsQuantTable, CodableBlock, UnpackBytes, PackBytes, EncodeBlocks, Comps, Ones, McusPerRow, CeilDiv, McuHeight;
    var info := HeaderInfo(k, f.width, height, f.mode, lum, chroma);
    var body := ScanBytes(k, blocks) + [0xFF, M_EOI];
    HeaderRoundTrip(k, f.width, height, f.mode, lum, chroma, body);
    FileParts(k, f, height, lum, chroma, blocks);
    SelectedCoders(k, f.width, height, f.mode, lum, chroma);
    DeclaredCount(k, f, height, lum, chroma);
    var k' := if f.mode.YOnly? then Coders(k.luma, k.luma) else k;
    SameScan(k, k', f.mode, blocks);
    ScanBytesRoundTrip(k', blocks);
    DecodeParts(FileBytes(k, f, height, lum, chroma, blocks), info, body,
                PackBytes(EncodeBlocks(k', START, blocks) + Ones(7)), k', blocks);
  }

  lemma FileParts(k: Coders, f: Format, height: nat, lum: seq<int>, chroma: seq<int>, blocks: seq<Block>)
    requires EmittableCoders(k) && IsQuantTable(lum) && IsQuantTable(chroma) && CodableBlocks(blocks)
    ensures FileBytes(k, f, height, lum, chroma, blocks)
         == HeaderBytes(k, f.width, height, f.mode, lum, chroma) + (ScanBytes(k, blocks) + [0xFF, M_EOI])
  {
    hide HeaderBytes, ScanBytes;
  }

  lemma SameScan(k: Coders, k': Coders, m: Subsampling, blocks: seq<Block>)
    requires WellSizedCoders(k) && CoversAll(k) && CodableBlocks(blocks)
    requires k' == if m.YOnly? then Coders(k.luma, k.luma) else k
    requires m.YOnly? ==> forall i :: 0 <= i < |blocks| ==> blocks[i].comp == 0
    ensures WellSizedCoders(k') && CoversAll(k') && ScanBytes(k, blocks) == ScanBytes(k', blocks)
  {
    hide EncodeBlocks, Covers;
    if m.YOnly? {
      LumaOnly(k, START, blocks);
    }
  }
}
