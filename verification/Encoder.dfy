/** jpeg_encoder (jpge.cpp): init, process_scanline and the bytes that reach
    the stream over a whole image. */
module Encoder {
  import opened Words
  import opened Bits
  import opened Huffman
  import opened Entropy
  import opened StandardTables
  import opened Scan
  import opened Packer
  import opened Output
  import opened BlockCoding
  import opened Quant
  import opened Geometry
  import opened Headers
  import opened HeaderWriting
  import opened JpegFile
  import opened BlockLoading
  import opened ScanCoding

  /** params::check and the argument test of init. */
  predicate GoodArguments(width: int, height: int, channels: int, quality: int) {
    width >= 1 && height >= 1 && (channels == 1 || channels == 3 || channels == 4) && 1 <= quality <= 100
  }

  /** What init must accept: an image that is not empty, with one, three or four
      channels, at a quality from 1 to 100. */
  predicate Accepts(stream: OutputStream?, width: int, height: int, channels: int, quality: int, memory: bool) {
    stream != null && memory && width > 0 && height > 0 && channels in {1, 3, 4} && 0 < quality < 101
  }

  function Standard(): Coders {
    Coders(LUMA, CHROMA)
  }

  /** The blocks coded are those of the first n MCU rows, after the header. */
  ghost predicate RowsCoded(k: Coders, f: Format, height: nat, rows: seq<seq<byte>>, n: nat,
                            lum: seq<int>, chroma: seq<int>, base: seq<byte>, head: seq<byte>, coded: seq<Block>) {
    && EmittableCoders(k) && IsQuantTable(lum) && IsQuantTable(chroma)
    && ValidFormat(f) && ValidRows(f, rows) && (n > 0 ==> rows != [])
    && InRange(ImageBlocks(f, rows, n))
    && coded == CodeAll(ImageBlocks(f, rows, n), lum, chroma)
    && head == base + HeaderBytes(k, f.width, height, f.mode, lum, chroma)
  }

  /** The bytes emitted are the file of the image, after base. */
  ghost predicate WholeFile(k: Coders, f: Format, height: nat, rows: seq<seq<byte>>,
                            lum: seq<int>, chroma: seq<int>, base: seq<byte>, emitted: seq<byte>) {
    && EmittableCoders(k) && IsQuantTable(lum) && IsQuantTable(chroma)
    && ValidFormat(f) && ValidRows(f, rows) && InRange(ImageBlocks(f, rows, McuRows(f, |rows|)))
    && var blocks := CodeAll(ImageBlocks(f, rows, McuRows(f, |rows|)), lum, chroma);
    && CodableBlocks(blocks) && emitted == base + FileBytes(k, f, height, lum, chroma, blocks)
  }

  /** One more MCU row has been coded. */
  lemma RowsGrow(k: Coders, f: Format, height: nat, rows: seq<seq<byte>>, n: nat,
                 lum: seq<int>, chroma: seq<int>, base: seq<byte>, head: seq<byte>, coded: seq<Block>)
    requires RowsCoded(k, f, height, rows, n, lum, chroma, base, head, coded) && rows != []
    requires InRange(RowBlocks(f, McuLines(f, rows, n), McusPerRow(f)))
    ensures RowsCoded(k, f, height, rows, n + 1, lum, chroma, base, head,
                      coded + CodeAll(RowBlocks(f, McuLines(f, rows, n), McusPerRow(f)), lum, chroma))
  {
    hide RowBlocks, McuLines, McusPerRow, CodeAll, HeaderBytes, EmittableCoders, IsQuantTable, InRange;
    CodeAllAppend(ImageBlocks(f, rows, n), RowBlocks(f, McuLines(f, rows, n), McusPerRow(f)), lum, chroma);
  }

  /** A later scanline leaves the complete MCU rows as they are. */
  lemma RowsStay(k: Coders, f: Format, height: nat, rows: seq<seq<byte>>, row: seq<byte>, n: nat,
                 lum: seq<int>, chroma: seq<int>, base: seq<byte>, head: seq<byte>, coded: seq<Block>)
    requires RowsCoded(k, f, height, rows, n, lum, chroma, base, head, coded)
    requires ValidRow(f, row) && McuTop(f, n) <= |rows|
    ensures RowsCoded(k, f, height, rows + [row], n, lum, chroma, base, head, coded)
  {
    hide ImageBlocks, CodeAll, HeaderBytes, EmittableCoders, IsQuantTable, InRange, ValidRow, McuTop;
    EarlierRowsStay(f, rows, row, n);
  }

  /** All blocks, the padding and the end marker make up the file. */
  lemma FileComplete(k: Coders, f: Format, height: nat, rows: seq<seq<byte>>, lum: seq<int>, chroma: seq<int>,
                     base: seq<byte>, head: seq<byte>, coded: seq<Block>, emitted: seq<byte>)
    requires RowsCoded(k, f, height, rows, McuRows(f, |rows|), lum, chroma, base, head, coded)
    requires WellSizedCoders(k) && CodableBlocks(coded)
    requires emitted == head + Stuff(PackBytes(EncodeBlocks(k, START, coded) + Ones(7))) + [0xFF, M_EOI]
    ensures WholeFile(k, f, height, rows, lum, chroma, base, emitted)
  {
    hide IsQuantTable, HeaderBytes, EmittableCoders, ImageBlocks, InRange, CodeAll, EncodeBlocks, PackBytes, Stuff;
    var header, scan := HeaderBytes(k, f.width, height, f.mode, lum, chroma), ScanBytes(k, coded);
    assert base + header + scan + [0xFF, M_EOI] == base + (header + scan + [0xFF, M_EOI]);
  }

  /** The bits put so far are the code of the blocks so far. */
  ghost predicate BitsAre(k: Coders, coded: seq<Block>, bits: seq<bool>) {
    WellSizedCoders(k) && CodableBlocks(coded) && bits == EncodeBlocks(k, START, coded)
  }

  lemma ReadyToEnd(c: ScanCoder)
    requires c.Ready() && EmittableCoders(c.k)
    ensures c.w.ScanValid() && c.w.bitsIn <= 7
    ensures BitsAre(c.k, c.coded, c.w.bits)
  {
    hide ScanCoder.QuantReady, ScanCoder.HuffReady, EncodeBlocks, PredsAfter, IsQuantTable, WellSized, Stuff, PackBytes;
  }

  lemma FlagOf(w: Writer)
    requires w.BufferValid()
    ensures w.FlagValid()
  {
  }

  class JpegEncoder {
    const statics: Statics
    /** The Huffman specifications: the standard ones. */
    ghost const coders: Coders
    var format: Format
    var height: nat
    var lines: array2<byte>
    var mcuYOfs: nat
    /** 0 before init, 2 while scanlines are taken, 3 after the end. */
    var passNum: nat
    var coder: ScanCoder?
    /** The scanlines taken so far. */
    ghost var fed: seq<seq<byte>>
    /** What the stream held at init. */
    ghost var base: seq<byte>

    ghost function Parts(): set<object>
      reads this
    {
      if coder == null then {} else coder.Repr()
    }

    /** Line buffer y holds the y-th scanline after the complete MCU rows. */
    ghost predicate RowLoaded(y: nat)
      requires ValidFormat(format) && ValidRows(format, fed) && Sized(lines, format)
      requires y < lines.Length0
      reads this, lines
    {
      var i := McuTop(format, WholeMcuRows(format, |fed|)) + y;
      i < |fed| && LineHolds(lines, y, Line(format, fed[i]), LineLength(format))
    }

    ghost predicate Shape()
      reads this, lines
    {
      && passNum == 2 && coder != null && coder.statics == statics
      && coder.k == coders && EmittableCoders(coder.k)
      && lines !in coder.Repr()
      && ValidFormat(format) && ValidRows(format, fed) && Sized(lines, format)
      && mcuYOfs == LeftoverRows(format, |fed|) < lines.Length0
      && forall y :: 0 <= y < mcuYOfs ==> RowLoaded(y)
    }

    /** The scan codes the first n MCU rows of what was fed, after the header. */
    ghost predicate CodesRows(n: nat)
      reads this, statics, statics.quantLum, statics.quantChroma, Parts()
    {
      && coder != null && coder.statics == statics
      && RowsCoded(coder.k, format, height, fed, n, coder.LumTable(), coder.ChromaTable(), base, coder.w.head, coder.coded)
    }

    /** The coder is ready for the next MCU row, and has coded the earlier ones. */
    ghost predicate Coding()
      reads this, statics, statics.quantLum, statics.quantChroma, Parts()
    {
      hide ScanCoder.Ready, JpegEncoder.CodesRows, WholeMcuRows;
      coder != null && coder.statics == statics && coder.Ready() && CodesRows(WholeMcuRows(format, |fed|))
    }

    /** Between calls: the scan codes the complete MCU rows of what was fed, and
        the line buffers hold the rest. */
    ghost predicate Open()
      reads this, lines, statics, statics.quantLum, statics.quantChroma, Parts()
    {
      hide JpegEncoder.Shape, JpegEncoder.Coding;
      Shape() && Coding()
    }

    constructor (statics: Statics)
      ensures this.statics == statics && Made() && passNum == 0 && coder == null
    {
      this.statics := statics;
      coders := Standard();
      format := Format(1, 1, YOnly);
      height := 1;
      lines := new byte[0, 0];
      mcuYOfs := 0;
      passNum := 0;
      coder := null;
      fed := [];
      base := [];
    }

    ghost predicate Made() {
      coders == Standard()
    }

    /** init, with the result of the line-buffer allocation as a parameter. */
    method Init(stream: OutputStream?, width: int, h: int, channels: int, quality: int, mode: Subsampling, memory: bool)
      returns (ok: bool)
      requires statics.Valid() && Made()
      modifies this, statics, statics.quantLum, statics.quantChroma
      modifies if stream == null then {} else {stream}
      ensures statics.Valid()
      ensures Accepts(stream, width, h, channels, quality, memory) ==>
        && coder != null && NewParts(coder) && fresh(lines)
        && format == Format(width, channels, mode) && height == h && fed == []
        && coder.w.stream == stream && base == old(stream.accepted) && coder.w.failuresBefore == old(stream.failures)
        && coder.w.endsBefore == old(stream.ends) && statics.lastQuality == quality
        && ok == coder.w.allOk
      ensures !Accepts(stream, width, h, channels, quality, memory) ==>
        !ok && passNum == 0 && (stream != null ==> unchanged(stream))
      ensures Accepts(stream, width, h, channels, quality, memory) ==> Open()
    {
      hide Statics.Valid, JpegEncoder.Open;
      coder := null;
      passNum := 0;
      if stream == null || !GoodArguments(width, h, channels, quality) {
        return false;
      }
      if !memory {
        return false;
      }
      ok := JpgOpen(stream, width, h, channels, quality, mode);
    }

    /** jpg_open. Scanlines are taken even when a write of the headers failed. */
    method JpgOpen(stream: OutputStream, width: int, h: int, channels: int, quality: int, mode: Subsampling)
      returns (ok: bool)
      requires statics.Valid() && Made() && GoodArguments(width, h, channels, quality)
      modifies this, statics, statics.quantLum, statics.quantChroma, stream
      ensures statics.Valid() && statics.lastQuality == quality
      ensures coder != null && coder.w.stream == stream && ok == coder.w.allOk
      ensures coder.w.failuresBefore == old(stream.failures) && coder.w.endsBefore == old(stream.ends)
      ensures NewParts(coder) && fresh(lines)
      ensures format == Format(width, channels, mode) && height == h && fed == [] && base == old(stream.accepted)
      ensures Open()
    {
      hide ScanCoder.Ready, ScanCoder.QuantReady, ScanCoder.LumTable, ScanCoder.ChromaTable, Standard, EmittableCoders;
      hide HeaderBytes, IsQuantTable, Statics.Valid, JpegEncoder.Open, LineLength, McusPerRow, Sized, ValidFormat, ScanCoder.Repr;
      hide CeilDiv, PaddedWidth, Components, McuHeight, McuWidth, Writer.FlagValid, Writer.BufferValid, ScanCoder.HuffReady, ScanCoder.Valid;
      SetUp(stream, width, h, channels, mode);
      var c := StartScan(stream, statics, width, h, quality, mode, lines, Standard());
      c.ReadyFacts();
      Attach(c);
      ok := c.w.allOk;
    }

    /** The scan that has just been started becomes that of the image. */
    method Attach(c: ScanCoder)
      requires passNum == 2 && c.statics == statics && lines !in c.Repr()
      requires c.Ready() && c.k == coders && EmittableCoders(c.k) && c.coded == []
      requires ValidFormat(format) && Sized(lines, format) && fed == [] && mcuYOfs == 0
      requires IsQuantTable(c.LumTable()) && IsQuantTable(c.ChromaTable())
      requires c.w.head == base + HeaderBytes(c.k, format.width, height, format.mode, c.LumTable(), c.ChromaTable())
      modifies this`coder
      ensures coder == c
      ensures Open()
    {
      hide ScanCoder.Ready, ScanCoder.QuantReady, ScanCoder.LumTable, ScanCoder.ChromaTable, Standard, EmittableCoders;
      hide HeaderBytes, IsQuantTable, JpegEncoder.Open, Sized, ValidFormat;
      coder := c;
      c.ReadyFacts();
      OpenAtStart();
    }

    /** The fields that do not depend on the tables. */
    method SetUp(stream: OutputStream, width: int, h: int, channels: int, mode: Subsampling)
      requires GoodArguments(width, h, channels, 1)
      modifies this
      ensures format == Format(width, channels, mode) && height == h && fed == [] && base == stream.accepted
      ensures ValidFormat(format) && fresh(lines) && Sized(lines, format) && mcuYOfs == 0 && passNum == 2
    {
      hide LineLength;
      format := Format(width, channels, mode);
      height := h;
      base := stream.accepted;
      fed := [];
      mcuYOfs := 0;
      passNum := 2;
      lines := new byte[McuHeight(mode), LineLength(format)];
    }

    /** With nothing fed yet, the empty scan is the right one. */
    lemma OpenAtStart()
      requires passNum == 2 && coder != null && coder.statics == statics && lines !in coder.Repr()
      requires coder.Ready() && coder.k == coders && EmittableCoders(coder.k) && coder.coded == []
      requires coder.QuantReady() && IsQuantTable(coder.LumTable()) && IsQuantTable(coder.ChromaTable())
      requires ValidFormat(format) && Sized(lines, format) && fed == [] && mcuYOfs == 0
      requires coder.w.head
        == base + HeaderBytes(coder.k, format.width, height, format.mode, coder.LumTable(), coder.ChromaTable())
      ensures Open()
    {
      hide ScanCoder.Ready, ScanCoder.QuantReady, Standard, EmittableCoders, HeaderBytes, IsQuantTable;
      CodeNone(coder.LumTable(), coder.ChromaTable());
    }

    /** Nothing but the progress of the image has changed. */
    twostate predicate Advanced()
      reads this, Parts()
    {
      && old(coder) != null && coder == old(coder)
      && format == old(format) && height == old(height) && base == old(base)
      && coder.Advances()
    }

    /** load_mcu. */
    method LoadMcu(row: seq<byte>)
      requires Open() && ValidRow(format, row)
      modifies this`mcuYOfs, this`fed, lines, Parts()
      ensures Advanced() && fed == old(fed) + [row]
      ensures Open()
    {
      hide JpegEncoder.Open, JpegEncoder.HasLine;
      FillLine(row);
      if mcuYOfs + 1 == McuHeight(format.mode) {
        FinishMcuRow(row);
      } else {
        KeepRow(row);
      }
    }

    /** The next line buffer holds the scanline. */
    ghost predicate HasLine(row: seq<byte>)
      reads this, lines
    {
      && ValidFormat(format) && ValidRow(format, row) && mcuYOfs < lines.Length0
      && LineHolds(lines, mcuYOfs, Line(format, row), LineLength(format))
    }

    /** The new scanline goes to the next line buffer. */
    method FillLine(row: seq<byte>)
      requires Open() && ValidRow(format, row)
      modifies lines
      ensures Advanced() && HasLine(row)
      ensures Open()
    {
      hide ScanCoder.Ready, ScanCoder.Valid, Standard, EmittableCoders, JpegEncoder.CodesRows;
      hide LineLength, Line, McuTop, WholeMcuRows, Sized;
      SizedFacts();
      assert lines !in Parts() && lines as object != statics.quantLum && lines as object != statics.quantChroma;
      LoadLine(lines, mcuYOfs, format, row);
      forall y | 0 <= y < mcuYOfs
        ensures RowLoaded(y)
      {
        assert old(RowLoaded(y));
      }
    }

    /** The line buffers hold MCU row m of some rows, of which the first m are
        coded: code it. */
    method CodeMcuRow(ghost rows: seq<seq<byte>>, ghost m: nat)
      requires coder != null && coder.statics == statics && lines !in coder.Repr() && Sized(lines, format)
      requires ValidFormat(format) && ValidRows(format, rows) && rows != [] && Shows(lines, McuLines(format, rows, m))
      requires RowsCoded(coder.k, format, height, rows, m, coder.LumTable(), coder.ChromaTable(), base, coder.w.head, coder.coded)
      requires coder.Ready()
      modifies Parts()
      ensures Advanced()
      ensures RowsCoded(coder.k, format, height, rows, m + 1, coder.LumTable(), coder.ChromaTable(), base, coder.w.head, coder.coded)
      ensures coder.Ready()
    {
      hide ScanCoder.Ready, ScanCoder.Valid, ScanCoder.QuantReady, RowsCoded, McuLines, RowBlocks, Sized, Shows, CodeAll, McusPerRow;
      hide IsQuantTable, InRange;
      coder.ReadyFacts();
      ghost var lum, chroma, before, head := coder.LumTable(), coder.ChromaTable(), coder.coded, coder.w.head;
      ProcessMcuRow(coder, lines, format, McuLines(format, rows, m));
      coder.ValidFacts();
      RowsGrow(coder.k, format, height, rows, m, lum, chroma, base, head, before);
    }

    /** The MCU row is complete: code it. */
    method FinishMcuRow(row: seq<byte>)
      requires Open() && HasLine(row) && mcuYOfs + 1 == McuHeight(format.mode)
      modifies this`mcuYOfs, this`fed, Parts()
      ensures Advanced() && fed == old(fed) + [row]
      ensures Open()
    {
      hide ScanCoder.Ready, RowsCoded, Standard, EmittableCoders, Shows;
      hide LineLength, Line, McuLines, Sized, McuTop, WholeMcuRows, LeftoverRows, LineHolds;
      ghost var m := WholeMcuRows(format, |fed|);
      NextRowFacts(row);
      FullRowShows(row, m);
      RowsStay(coder.k, format, height, fed, row, m, coder.LumTable(), coder.ChromaTable(), base, coder.w.head, coder.coded);
      CodeMcuRow(fed + [row], m);
      mcuYOfs := 0;
      fed := fed + [row];
    }

    /** The MCU row is not complete yet. */
    method KeepRow(row: seq<byte>)
      requires Open() && HasLine(row) && mcuYOfs + 1 != McuHeight(format.mode)
      modifies this`mcuYOfs, this`fed
      ensures Advanced() && fed == old(fed) + [row]
      ensures Open()
    {
      hide ScanCoder.Ready, RowsCoded, Standard, EmittableCoders;
      hide LineLength, Line, Sized, McuTop, WholeMcuRows, LeftoverRows, LineHolds;
      SizedFacts();
      NextRowFacts(row);
      ghost var m := WholeMcuRows(format, |fed|);
      RowsStay(coder.k, format, height, fed, row, m, coder.LumTable(), coder.ChromaTable(), base, coder.w.head, coder.coded);
      mcuYOfs := mcuYOfs + 1;
      fed := fed + [row];
      forall y | 0 <= y < mcuYOfs
        ensures RowLoaded(y)
      {
        assert y + 1 < mcuYOfs ==> old(RowLoaded(y));
      }
    }

    /** How the counters move with one more scanline. */
    lemma NextRowFacts(row: seq<byte>)
      requires ValidFormat(format) && ValidRows(format, fed) && ValidRow(format, row)
      ensures
        var n, m := |fed|, WholeMcuRows(format, |fed|);
        && ValidRows(format, fed + [row])
        && n == McuTop(format, m) + LeftoverRows(format, n)
        && McuTop(format, m) <= n
        && if LeftoverRows(format, n) + 1 == McuHeight(format.mode)
           then WholeMcuRows(format, n + 1) == m + 1 && LeftoverRows(format, n + 1) == 0
           else WholeMcuRows(format, n + 1) == m && LeftoverRows(format, n + 1) == LeftoverRows(format, n) + 1
    {
      hide ValidRow;
      McuRowCount(format, |fed|);
      OneMoreRow(format, |fed|);
    }

    /** process_end_of_image, first part: the last, incomplete MCU row is
        completed with copies of the last scanline and coded. */
    method CodeLastRow()
      requires Open()
      modifies lines, Parts()
      ensures passNum == 2 && Advanced() && coder.k == coders && EmittableCoders(coder.k)
      ensures CodesRows(McuRows(format, |fed|))
      ensures coder.Ready()
    {
      hide ScanCoder.Ready, RowsCoded, Standard, EmittableCoders, Shows;
      hide LineLength, Line, McuLines, Sized, McuTop, WholeMcuRows, LeftoverRows, LineHolds;
      McuRowCount(format, |fed|);
      if mcuYOfs != 0 {
        RepeatLastLine();
        CodeMcuRow(fed, WholeMcuRows(format, |fed|));
      }
    }

    /** The copy loop of process_end_of_image. */
    method RepeatLastLine()
      requires Shape() && mcuYOfs != 0
      modifies lines
      ensures lines.Length0 == McuHeight(format.mode) && fed != []
      ensures Shows(lines, McuLines(format, fed, WholeMcuRows(format, |fed|)))
    {
      hide LineLength, Line, Standard, EmittableCoders, McuTop, WholeMcuRows, LeftoverRows;
      ghost var m := WholeMcuRows(format, |fed|);
      McuRowCount(format, |fed|);
      SizedFacts();
      forall y | 0 <= y < mcuYOfs
        ensures LineHolds(lines, y, McuLine(format, fed, m, y), lines.Length1)
      {
        assert RowLoaded(y);
      }
      for i := mcuYOfs to McuHeight(format.mode)
        invariant forall y :: 0 <= y < i ==> LineHolds(lines, y, McuLine(format, fed, m, y), lines.Length1)
      {
        assert McuLine(format, fed, m, i) == McuLine(format, fed, m, mcuYOfs - 1);
        assert LineHolds(lines, mcuYOfs - 1, McuLine(format, fed, m, mcuYOfs - 1), lines.Length1);
        forall j | 0 <= j < lines.Length1 {
          lines[i, j] := lines[mcuYOfs - 1, j];
        }
        assert LineHolds(lines, i, McuLine(format, fed, m, i), lines.Length1);
      }
      ShowsMcu(lines, format, fed, m);
    }

    /** Everything is out: the stream was offered the whole file. */
    ghost predicate Finished()
      reads this, statics, statics.quantLum, statics.quantChroma, Parts()
    {
      && coder != null && coder.statics == statics && coder.k == coders
      && WholeFile(coder.k, format, height, fed, coder.LumTable(), coder.ChromaTable(), base, coder.w.emitted)
    }

    ghost predicate WritesOk()
      reads this, Parts()
    {
      coder != null && coder.w.allOk
    }

    /** The flag says exactly whether a call of the stream has failed since init. */
    ghost predicate FlagRight()
      reads this, Parts()
    {
      coder != null && coder.w.FlagValid()
    }

    /** The stream holds a prefix of what was emitted; unless a call of the stream
        has failed since init, it holds all of it and was told of the end. */
    ghost predicate Delivered()
      reads this, Parts()
    {
      && coder != null && FlagRight() && coder.w.stream.accepted <= coder.w.emitted
      && (WritesOk() ==> coder.w.stream.accepted == coder.w.emitted && coder.w.ended)
    }

    /** process_end_of_image. */
    method ProcessEndOfImage()
      requires Open()
      modifies this`passNum, lines, Parts()
      ensures passNum == 3 && Advanced() && Finished() && Delivered()
    {
      hide JpegEncoder.Open, RowsCoded, WholeFile, ScanCoder.Ready, Writer.ScanValid, Writer.BufferValid, Standard;
      hide EmittableCoders, EncodeBlocks, PackBytes, Stuff, Pow2, ToBits;
      CodeLastRow();
      ReadyToEnd(coder);
      coder.w.EndScan(M_EOI);
      FileComplete(coder.k, format, height, fed, coder.LumTable(), coder.ChromaTable(), base, coder.w.head, coder.coded,
                   coder.w.emitted);
      FlagOf(coder.w);
      passNum := passNum + 1;
    }

    /** Scanlines are taken inside an image until a write fails. */
    ghost predicate Taking()
      reads this, Parts()
    {
      1 <= passNum <= 2 && WritesOk()
    }

    /** process_scanline; None stands for the null pointer that ends the image. */
    method ProcessScanline(row: Option<seq<byte>>) returns (ok: bool)
      requires 1 <= passNum <= 2 && row.Some? ==> ValidRow(format, row.value)
      requires 1 <= passNum <= 2 ==> Open()
      modifies this`passNum, this`mcuYOfs, this`fed, lines, Parts()
      ensures !old(Taking()) ==> !ok && unchanged(this) && unchanged(lines) && unchanged(Parts())
      ensures old(Taking()) ==> Advanced() && ok == WritesOk()
      ensures old(Taking()) && row.Some? ==> passNum == 2 && fed == old(fed) + [row.value] && Open()
      ensures old(Taking()) && row.None? ==> passNum == 3 && fed == old(fed) && Delivered() && Finished()
    {
      hide JpegEncoder.Open, JpegEncoder.Finished;
      if passNum < 1 || passNum > 2 {
        return false;
      }
      InsideImage();
      if coder.w.allOk {
        if row.None? {
          ProcessEndOfImage();
        } else {
          LoadMcu(row.value);
          InsideImage();
        }
      }
      ok := coder.w.allOk;
    }

    lemma InsideImage()
      requires Open()
      ensures passNum == 2 && coder != null
    {
    }

    lemma OpenFacts()
      requires Open()
      ensures passNum == 2 && coder != null && coder.statics == statics && coder.k == coders
      ensures coder.Ready() && CodesRows(WholeMcuRows(format, |fed|)) && ValidFormat(format) && EmittableCoders(coder.k)
      ensures lines !in coder.Repr()
    {
      hide JpegEncoder.CodesRows, ScanCoder.Ready, Standard, EmittableCoders, Sized;
    }

    lemma SizedFacts()
      requires Sized(lines, format)
      ensures lines.Length0 == McuHeight(format.mode) && lines.Length1 == LineLength(format)
    {
    }

    /** The line buffers, all loaded, are those of MCU row m. */
    lemma FullRowShows(row: seq<byte>, m: nat)
      requires ValidFormat(format) && ValidRows(format, fed) && ValidRow(format, row) && Sized(lines, format)
      requires m == WholeMcuRows(format, |fed|) && LeftoverRows(format, |fed|) + 1 == McuHeight(format.mode)
      requires LeftoverRows(format, |fed|) < lines.Length0
      requires forall y :: 0 <= y < LeftoverRows(format, |fed|) ==> RowLoaded(y)
      requires LineHolds(lines, LeftoverRows(format, |fed|), Line(format, row), LineLength(format))
      ensures ValidRows(format, fed + [row]) && Shows(lines, McuLines(format, fed + [row], m))
    {
      hide Line, LineLength;
      var rows := fed + [row];
      McuRowCount(format, |fed|);
      forall y | 0 <= y < McuHeight(format.mode)
        ensures LineHolds(lines, y, McuLine(format, rows, m, y), LineLength(format))
      {
        if y < LeftoverRows(format, |fed|) {
          assert RowLoaded(y) && McuTop(format, m) + y < |fed|;
          assert rows[McuTop(format, m) + y] == fed[McuTop(format, m) + y];
        } else {
          assert rows[McuTop(format, m) + y] == row;
        }
      }
      ShowsMcu(lines, format, rows, m);
    }
  }

  lemma ShowsMcu(lines: array2<byte>, f: Format, rows: seq<seq<byte>>, m: nat)
    requires ValidFormat(f) && ValidRows(f, rows) && rows != [] && Sized(lines, f)
    requires forall y :: 0 <= y < McuHeight(f.mode) ==> LineHolds(lines, y, McuLine(f, rows, m, y), LineLength(f))
    ensures Shows(lines, McuLines(f, rows, m))
  {
    hide LineLength, McuLine;
    assert forall y :: 0 <= y < McuHeight(f.mode) ==> McuLines(f, rows, m)[y] == McuLine(f, rows, m, y);
  }

  /** All that the coder uses is new, but for the stream and the statics. */
  twostate predicate NewParts(new c: ScanCoder) {
    fresh(c) && fresh(c.w) && fresh(c.w.outBuf) && fresh(c.samples) && fresh(c.coefs) && fresh(c.lastDc)
  }

  /** The shared tables are those of the specifications and of the quality. */
  method PrepareTables(statics: Statics, quality: int, ghost k: Coders)
    requires statics.Valid() && 1 <= quality <= 100 && k == Standard()
    modifies statics, statics.quantLum, statics.quantChroma
    ensures statics.Valid() && statics.lastQuality == quality
    ensures EmittableCoders(k) && CoversAll(k)
    ensures Generated(statics.dcLum, k.luma.dc) && Generated(statics.acLum, k.luma.ac)
    ensures Generated(statics.dcChroma, k.chroma.dc) && Generated(statics.acChroma, k.chroma.ac)
    ensures statics.quantLum.Length == 64 && statics.quantChroma.Length == 64
    ensures IsQuantTable(statics.quantLum[..]) && IsQuantTable(statics.quantChroma[..])
  {
    hide QuantTable, Generated, CoversAll, WellSized, EmittableCoders, IsQuantTable;
    statics.Prepare(quality);
    StandardReady();
    TableIsQuant(STD_LUM_QUANT, quality);
    TableIsQuant(STD_CHROMA_QUANT, quality);
  }

  /** The tables, the headers and an empty scan, apart from the line buffers. */
  method StartScan(stream: OutputStream, statics: Statics, width: nat, height: nat, quality: int, mode: Subsampling,
                   ghost lines: array2<byte>, k: Coders)
    returns (c: ScanCoder)
    requires statics.Valid() && 1 <= quality <= 100 && k == Standard()
    modifies statics, statics.quantLum, statics.quantChroma, stream
    ensures statics.Valid() && statics.lastQuality == quality
    ensures c.Ready() && c.statics == statics && c.k == k && EmittableCoders(c.k)
    ensures c.w.stream == stream && NewParts(c) && lines !in c.Repr() && c.coded == []
    ensures c.w.failuresBefore == old(stream.failures) && c.w.endsBefore == old(stream.ends)
    ensures c.w.head == old(stream.accepted) + HeaderBytes(c.k, width, height, mode, c.LumTable(), c.ChromaTable())
  {
    hide Generated, CoversAll, Standard, WellSized, HeaderBytes, EmittableCoders, IsQuantTable, Statics.Valid;
    hide Writer.ScanValid, ScanCoder.Valid, ScanCoder.QuantReady;
    PrepareTables(statics, quality, k);
    var w := new Writer(stream);
    EmitHeader(w, k, width, height, mode, statics.quantLum, statics.quantChroma);
    w.BeginScan();
    c := new ScanCoder(w, statics, k);
  }

  lemma TableIsQuant(std: seq<step>, quality: int)
    requires |std| == 64 && 1 <= quality <= 100
    ensures IsQuantTable(QuantTable(std, quality))
  {
  }

  lemma EmittableOf(h: Spec)
    requires Valid(h) && |h.val| == Total(h.bits) && h.bits[0] == 0
    ensures Emittable(h)
  {
  }

  lemma StandardReady()
    ensures EmittableCoders(Standard()) && CoversAll(Standard()) && Standard() == Coders(LUMA, CHROMA)
  {
    hide Total, Covers, Valid, Emittable;
    DcLumSizes();
    AcLumSizes();
    DcChromaSizes();
    AcChromaSizes();
    EmittableOf(DC_LUM);
    EmittableOf(AC_LUM);
    EmittableOf(DC_CHROMA);
    EmittableOf(AC_CHROMA);
    StandardCovers();
  }
}
