/** From the bytes of a file to the pixels: what a decoder gets for every block,
    and how near the samples that it computes are to the image. */
module DecodedImage {
  import opened Words
  import opened Scan
  import opened Dct
  import opened Quant
  import opened Geometry
  import opened Headers
  import opened JpegFile
  import opened ScanCoding
  import opened Encoder
  import opened ImageFile
  import opened Placement
  import opened Inverse

  /** The MCUs in a row that a frame header declares. */
  function Across(info: Info): int {
    CeilDiv(if info.width > 0 then info.width else 0, 8 * MaxSampling(info.frame, false))
  }

  /** Block n of the decoded blocks stands at the place p of the image: its
      component is that of p, and each of its coefficients is the nearest multiple
      of the declared step to the transform of the samples at p. */
  ghost predicate Pictures(f: Format, rows: seq<seq<byte>>, info: Info, b: Block, p: BlockPlace)
    requires ValidFormat(f) && ValidRows(f, rows) && rows != []
  {
    && Sampled(info.frame) && p.comp < |info.frame| && b.comp == p.comp
    && info.frame[p.comp].quant in info.quant
    && var table := info.quant[info.frame[p.comp].quant];
    && IsQuantTable(table) && |b.coefs| == 64
    && forall z :: 0 <= z < 64 ==>
      NearestAway(b.coefs[z], Dct2D(ShownBlock(f, rows, info.frame, p))[Zag(z)], table[z])
  }

  /** The block is that of index n of the scan. */
  ghost predicate PicturesAt(f: Format, rows: seq<seq<byte>>, info: Info, b: Block, n: nat) {
    && ValidFormat(f) && ValidRows(f, rows) && rows != []
    && Sampled(info.frame) && McuSize(info.frame) > 0 && Across(info) > 0
    && Pictures(f, rows, info, b, PlaceOf(info.frame, Across(info), n))
  }

  /** What a decoder finds in a file: the declarations, and every block at the
      place that T.81 assigns to its index. */
  ghost predicate Shows(f: Format, rows: seq<seq<byte>>, info: Info, blocks: seq<Block>) {
    && ValidFormat(f) && ValidRows(f, rows)
    && info.width == f.width && info.height == |rows| && Sampled(info.frame)
    && |blocks| == McuCount(info) * McuSize(info.frame)
    && forall n :: 0 <= n < |blocks| ==> PicturesAt(f, rows, info, blocks[n], n)
  }

  lemma InfoFacts(f: Format, height: nat, quality: int)
    requires ValidFormat(f) && 1 <= quality <= 100
    ensures
      var info := ImageInfo(f, height, quality);
      && info.width == f.width && info.height == height && info.frame == FrameOf(f.mode)
      && Sampled(info.frame) && McuSize(info.frame) == BlocksPerMcu(f.mode) > 0
      && Across(info) == McusPerRow(f) > 0
  {
    hide QuantTable, IsQuantTable, EmittableCoders, Standard, FrameOf, MaxSampling, McuSize, CeilDiv;
    FrameFacts(f.mode);
    SomeMcus(f, height);
  }

  lemma InfoCount(f: Format, height: nat, quality: int)
    requires ValidFormat(f) && 1 <= quality <= 100
    ensures McuCount(ImageInfo(f, height, quality)) == McusPerRow(f) * CeilDiv(height, McuHeight(f.mode))
  {
    hide QuantTable, IsQuantTable, EmittableCoders, Standard, McuCount, HeaderInfo;
    TableIsQuant(STD_LUM_QUANT, quality);
    TableIsQuant(STD_CHROMA_QUANT, quality);
    StandardReady();
    DeclaredCount(Standard(), f, height, QuantTable(STD_LUM_QUANT, quality), QuantTable(STD_CHROMA_QUANT, quality));
  }

  /** What is known of one block makes it a picture of its place. */
  lemma NearIsPicture(f: Format, rows: seq<seq<byte>>, info: Info, b: Block, p: BlockPlace)
    requires ValidFormat(f) && ValidRows(f, rows) && rows != [] && Sampled(info.frame) && p.comp < |info.frame|
    requires info.frame[p.comp].quant in info.quant && IsQuantTable(info.quant[info.frame[p.comp].quant])
    requires forall z :: 0 <= z < 64 ==> DecodedNear(info, b, RawBlock(p.comp, ShownBlock(f, rows, info.frame, p)), z)
    ensures Pictures(f, rows, info, b, p)
  {
    hide ShownBlock, Dct2D, NearestAway, Zag, IsQuantTable;
    var raw := RawBlock(p.comp, ShownBlock(f, rows, info.frame, p));
    var table := info.quant[info.frame[p.comp].quant];
    assert DecodedNear(info, b, raw, 0);
    forall z | 0 <= z < 64
      ensures NearestAway(b.coefs[z], Dct2D(raw.samples)[Zag(z)], table[z])
    {
      assert DecodedNear(info, b, raw, z);
    }
  }

  /** One block of the image. */
  lemma BlockPictures(f: Format, rows: seq<seq<byte>>, quality: int, n: nat)
    requires ValidFormat(f) && ValidRows(f, rows) && 1 <= quality <= 100
    requires n < |Coefficients(f, rows, quality)|
    ensures PicturesAt(f, rows, ImageInfo(f, |rows|, quality), Coefficients(f, rows, quality)[n], n)
  {
    hide Coefficients, ImageInfo, ImageBlocks, McuRows, QuantTable, IsQuantTable, ShownBlock, PlaceInMcu, McuSize, Across;
    hide McusPerRow, FrameOf, CodeRaw, DecodedNear, Pictures, RawInRange, Sampled;
    InfoFacts(f, |rows|, quality);
    CoefficientComps(f, rows, quality);
    BlockShows(f, rows, n);
    var info := ImageInfo(f, |rows|, quality);
    var p := PlaceOf(FrameOf(f.mode), McusPerRow(f), n);
    var raw := ImageBlocks(f, rows, McuRows(f, |rows|))[n];
    TableIsQuant(STD_LUM_QUANT, quality);
    TableIsQuant(STD_CHROMA_QUANT, quality);
    ImageInRange(f, rows, McuRows(f, |rows|));
    CoefficientIs(f, rows, quality, n);
    GreyIsLuma(f, rows, McuRows(f, |rows|), n);
    FrameFacts(f.mode);
    DeclaredTable(f, |rows|, quality, p.comp);
    forall z | 0 <= z < 64
      ensures DecodedNear(info, Coefficients(f, rows, quality)[n], raw, z)
    {
      CoefficientNear(f, |rows|, quality, raw, z);
    }
    NearIsPicture(f, rows, info, Coefficients(f, rows, quality)[n], p);
  }

  lemma GreyIsLuma(f: Format, rows: seq<seq<byte>>, n: nat, i: nat)
    requires ValidFormat(f) && ValidRows(f, rows) && (n > 0 ==> rows != [])
    requires i < |ImageBlocks(f, rows, n)|
    ensures f.mode.YOnly? ==> ImageBlocks(f, rows, n)[i].comp == 0
  {
    hide ImageBlocks;
    if f.mode.YOnly? {
      GreyRaw(f, rows, n, i);
    }
  }

  /** Main result: from the bytes of the file alone a decoder finds every block of
      the image at its place. */
  lemma FileShowsImage(f: Format, rows: seq<seq<byte>>, quality: int)
    requires ValidFormat(f) && ValidRows(f, rows) && 1 <= quality <= 100
    requires f.width <= 0xFFFF && |rows| <= 0xFFFF
    ensures DecodeFile(ImageBytes(f, rows, quality)).Some?
    ensures
      var (info, blocks) := DecodeFile(ImageBytes(f, rows, quality)).value;
      Shows(f, rows, info, blocks)
  {
    hide Coefficients, ImageInfo, ImageBytes, DecodeFile, McuSize, Across, PicturesAt, CeilDiv, McuCount, McusPerRow;
    ImageRoundTrip(f, rows, quality);
    InfoFacts(f, |rows|, quality);
    InfoCount(f, |rows|, quality);
    TotalBlocks(f, rows, quality);
    var info, blocks := ImageInfo(f, |rows|, quality), Coefficients(f, rows, quality);
    forall n | 0 <= n < |blocks|
      ensures PicturesAt(f, rows, info, blocks[n], n)
    {
      BlockPictures(f, rows, quality, n);
    }
  }

  lemma TotalBlocks(f: Format, rows: seq<seq<byte>>, quality: int)
    requires ValidFormat(f) && ValidRows(f, rows) && 1 <= quality <= 100
    ensures |Coefficients(f, rows, quality)| == (McusPerRow(f) * CeilDiv(|rows|, McuHeight(f.mode))) * BlocksPerMcu(f.mode)
  {
    hide Coefficients, CeilDiv, BlocksPerMcu;
    McuTotal(f, rows, quality);
  }

  // ------------------------------------------------------------- samples

  /** The coefficients of a decoder, out of the zigzag order, times their steps. */
  function Dequantised(coefs: seq<int>, table: seq<int>): (g: seq<int>)
    requires |coefs| == 64 && |table| == 64
    ensures |g| == 64
  {
    seq(64, p requires 0 <= p < 64 => coefs[Unzag(p)] * table[Unzag(p)])
  }

  lemma ShownRange(f: Format, rows: seq<seq<byte>>, cs: seq<FrameComponent>, p: BlockPlace)
    requires ValidFormat(f) && ValidRows(f, rows) && rows != [] && Sampled(cs) && p.comp < |cs|
    ensures Within(ShownBlock(f, rows, cs, p), -128, 127)
  {
    hide Plane;
  }

  lemma DequantisedNear(coefs: seq<int>, table: seq<int>, t: seq<int>, m: nat, p: nat)
    requires |coefs| == 64 && IsQuantTable(table) && |t| == 64 && p < 64
    requires forall z :: 0 <= z < 64 ==> NearestAway(coefs[z], t[Zag(z)], table[z]) && table[z] <= m
    ensures -(m as int) <= 2 * (Dequantised(coefs, table)[p] - t[p]) <= m
  {
    hide Zag, Unzag;
    var z := Unzag(p);
    ZagHasAll(p);
    assert NearestAway(coefs[z], t[Zag(z)], table[z]);
    assert table[z] * coefs[z] == coefs[z] * table[z];
  }

  /** The inverse transform of what is decoded for a block is, for every sample of
      the image at its place, within 4 and three and a half times the coarsest
      step of the table. */
  lemma SamplesNear(f: Format, rows: seq<seq<byte>>, info: Info, b: Block, p: BlockPlace, m: nat, k: nat)
    requires ValidFormat(f) && ValidRows(f, rows) && rows != [] && k < 64
    requires Pictures(f, rows, info, b, p)
    requires forall z :: 0 <= z < 64 ==> info.quant[info.frame[p.comp].quant][z] <= m
    ensures
      var table := info.quant[info.frame[p.comp].quant];
      -(8 + 7 * m) * ONE
      <= 2 * (Sample29(Dequantised(b.coefs, table), k) - ONE * ShownBlock(f, rows, info.frame, p)[k])
      <= (8 + 7 * m) * ONE
  {
    hide ShownBlock, Dct2D, NearestAway, Zag, Unzag, Sample29, Dequantised;
    var table := info.quant[info.frame[p.comp].quant];
    var s := ShownBlock(f, rows, info.frame, p);
    ShownRange(f, rows, info.frame, p);
    InverseRecovers(s, k);
    forall q | 0 <= q < 64
      ensures -(m as int) <= 2 * (Dequantised(b.coefs, table)[q] - Dct2D(s)[q]) <= m
    {
      DequantisedNear(b.coefs, table, Dct2D(s), m, q);
    }
    InverseNear(Dequantised(b.coefs, table), Dct2D(s), m, k);
  }
}
