/** Transforming, quantising and coding blocks and MCU rows (jpge.cpp:
    code_block, process_mcu_row). */
module ScanCoding {
  import opened Words
  import opened Entropy
  import opened Scan
  import opened Output
  import opened BlockCoding
  import opened Dct
  import opened Quant
  import opened Geometry
  import opened Headers
  import opened JpegFile
  import opened BlockLoading

  /** The block-coding half of jpeg_encoder. */
  class ScanCoder {
    const w: Writer
    const statics: Statics
    const samples: array<int32>
    const coefs: array<int16>
    const lastDc: array<int>
    /** The Huffman specifications behind the tables of statics. */
    ghost const k: Coders
    /** The blocks of the scan so far. */
    ghost var coded: seq<Block>

    ghost function Repr(): set<object> {
      {this, w, w.stream, w.outBuf, samples, coefs, lastDc}
    }

    ghost predicate QuantReady()
      reads statics, statics.quantLum, statics.quantChroma
    {
      && statics.quantLum.Length == 64 && statics.quantChroma.Length == 64
      && IsQuantTable(statics.quantLum[..]) && IsQuantTable(statics.quantChroma[..])
    }

    ghost predicate HuffReady()
      reads statics
    {
      && Generated(statics.dcLum, k.luma.dc) && Generated(statics.acLum, k.luma.ac)
      && Generated(statics.dcChroma, k.chroma.dc) && Generated(statics.acChroma, k.chroma.ac)
      && CoversAll(k)
    }

    /** The bits put so far code exactly the blocks so far. */
    ghost predicate Valid()
      reads this, w, w.stream, w.outBuf, lastDc, statics, statics.quantLum, statics.quantChroma
    {
      && samples.Length == 64 && coefs.Length == 64 && lastDc.Length == 3
      && statics.quantLum != samples && statics.quantChroma != samples
      && QuantReady() && HuffReady() && w.ScanValid()
      && CodableBlocks(coded)
      && w.bits == EncodeBlocks(k, START, coded)
      && lastDc[..] == PredsAfter(START, coded)
    }

    lemma ValidFacts()
      requires Valid()
      ensures Ready()
      ensures samples.Length == 64 && QuantReady()
      ensures IsQuantTable(LumTable()) && IsQuantTable(ChromaTable())
      ensures statics.quantLum != samples && statics.quantChroma != samples
    {
    }

    lemma ReadyFacts()
      requires Ready()
      ensures Valid() && QuantReady() && IsQuantTable(LumTable()) && IsQuantTable(ChromaTable())
    {
    }

    ghost function LumTable(): seq<int>
      reads statics, statics.quantLum
    {
      statics.quantLum[..]
    }

    ghost function ChromaTable(): seq<int>
      reads statics, statics.quantChroma
    {
      statics.quantChroma[..]
    }

    /** Valid, with the facts that contracts need to be well-defined. */
    ghost predicate Ready()
      reads this, w, w.stream, w.outBuf, lastDc, statics, statics.quantLum, statics.quantChroma
    {
      Valid() && QuantReady() && IsQuantTable(LumTable()) && IsQuantTable(ChromaTable())
    }

    constructor (w: Writer, statics: Statics, ghost k: Coders)
      requires w.ScanValid() && w.bits == []
      requires statics.quantLum.Length == 64 && statics.quantChroma.Length == 64
      requires IsQuantTable(statics.quantLum[..]) && IsQuantTable(statics.quantChroma[..])
      requires Generated(statics.dcLum, k.luma.dc) && Generated(statics.acLum, k.luma.ac)
      requires Generated(statics.dcChroma, k.chroma.dc) && Generated(statics.acChroma, k.chroma.ac)
      requires CoversAll(k)
      ensures Valid() && Ready() && coded == []
      ensures this.w == w && this.statics == statics && this.k == k
      ensures fresh(samples) && fresh(coefs) && fresh(lastDc)
    {
      this.w := w;
      this.statics := statics;
      this.k := k;
      samples := new int32[64];
      coefs := new int16[64];
      lastDc := new int[3](_ => 0);
      coded := [];
    }

    /** The header is kept, and failures and accepted bytes are final. */
    twostate predicate Advances()
      reads w, w.stream
    {
      && w.head == old(w.head)
      && (w.allOk ==> old(w.allOk))
      && old(w.stream.accepted) <= w.stream.accepted
    }

    /** code_block. */
    method CodeBlock(comp: nat)
      requires Valid() && comp < 3 && Within(samples[..], -128, 127)
      modifies Repr()
      ensures Valid()
      ensures coded == old(coded) + [CodeRaw(RawBlock(comp, old(samples[..])), LumTable(), ChromaTable())]
      ensures Advances()
    {
      hide Generated, Covers, Writer.ScanValid, EncodeBlocks, PredsAfter, EncodeBlock, Dct2D, QuantiseBlock;
      ghost var raw := RawBlock(comp, samples[..]);
      CodeRawCodable(raw, LumTable(), ChromaTable());
      SampleRange(samples[..]);
      Transform(samples);
      var q := if comp > 0 then statics.quantChroma else statics.quantLum;
      LoadQuantizedCoefficients(samples, coefs, q);
      ghost var b := CodeRaw(raw, LumTable(), ChromaTable());
      assert coefs[..] == b.coefs;
      CoversEach(k, comp);
      EncodeAppend(k, START, coded, b);
      if comp == 0 {
        CodeCoefficients(w, statics.dcLum, statics.acLum, k.luma, coefs, lastDc, comp);
      } else {
        CodeCoefficients(w, statics.dcChroma, statics.acChroma, k.chroma, coefs, lastDc, comp);
      }
      coded := coded + [b];
    }
  }

  // ---------------------------------------------------------------- MCU rows

  lemma FullInRange(f: Format, ls: seq<seq<byte>>, bx: nat, br: nat, c: nat)
    requires ValidLines(f, ls) && bx < BlocksAcross(f) && 8 * br < McuHeight(f.mode) && c < Components(f.mode)
    ensures RawInRange(RawBlock(c, FullBlock(f, ls, bx, br, c)))
  {
    hide LineLength;
  }

  lemma HalfInRange(f: Format, ls: seq<seq<byte>>, i: nat, c: nat)
    requires ValidLines(f, ls) && McuWidth(f.mode) == 16 && i < McusPerRow(f) && c < 3
    ensures RawInRange(RawBlock(c, HalfBlock(f, ls, i, c)))
  {
    hide LineLength, McusPerRow;
  }

  lemma QuarterInRange(f: Format, ls: seq<seq<byte>>, i: nat, c: nat)
    requires ValidLines(f, ls) && f.mode.H2V2? && i < McusPerRow(f) && c < 3
    ensures RawInRange(RawBlock(c, QuarterBlock(f, ls, i, c)))
  {
    hide LineLength, McusPerRow;
  }

  lemma McuInRange(f: Format, ls: seq<seq<byte>>, i: nat)
    requires ValidLines(f, ls) && i < McusPerRow(f)
    ensures InRange(McuBlocks(f, ls, i))
  {
    hide FullBlock, HalfBlock, QuarterBlock, LineLength, ValidLines;
    match f.mode
    case YOnly =>
      FullInRange(f, ls, i, 0, 0);
    case H1V1 =>
      FullInRange(f, ls, i, 0, 0);
      FullInRange(f, ls, i, 0, 1);
      FullInRange(f, ls, i, 0, 2);
    case H2V1 =>
      FullInRange(f, ls, 2 * i, 0, 0);
      FullInRange(f, ls, 2 * i + 1, 0, 0);
      HalfInRange(f, ls, i, 1);
      HalfInRange(f, ls, i, 2);
    case H2V2 =>
      FullInRange(f, ls, 2 * i, 0, 0);
      FullInRange(f, ls, 2 * i + 1, 0, 0);
      FullInRange(f, ls, 2 * i, 1, 0);
      FullInRange(f, ls, 2 * i + 1, 1, 0);
      QuarterInRange(f, ls, i, 1);
      QuarterInRange(f, ls, i, 2);
  }

  lemma {:induction false} RowInRange(f: Format, ls: seq<seq<byte>>, n: nat)
    requires ValidLines(f, ls) && n <= McusPerRow(f)
    ensures InRange(RowBlocks(f, ls, n))
  {
    hide McuBlocks, ValidLines, McusPerRow;
    if n > 0 {
      RowInRange(f, ls, n - 1);
      McuInRange(f, ls, n - 1);
    }
  }

  lemma {:induction false} ImageInRange(f: Format, rows: seq<seq<byte>>, n: nat)
    requires ValidFormat(f) && ValidRows(f, rows) && (n > 0 ==> rows != [])
    ensures InRange(ImageBlocks(f, rows, n))
  {
    hide RowBlocks, McuLines, McusPerRow, ValidLines;
    if n > 0 {
      ImageInRange(f, rows, n - 1);
      RowInRange(f, McuLines(f, rows, n - 1), McusPerRow(f));
    }
  }

  lemma CodeAllAppend(a: seq<RawBlock>, b: seq<RawBlock>, lum: seq<int>, chroma: seq<int>)
    requires InRange(a) && InRange(b) && IsQuantTable(lum) && IsQuantTable(chroma)
    ensures InRange(a + b)
    ensures CodeAll(a + b, lum, chroma) == CodeAll(a, lum, chroma) + CodeAll(b, lum, chroma)
  {
    hide CodeRaw, RawInRange, IsQuantTable;
  }

  /** The coded form of one block. */
  ghost function Coded(c: ScanCoder, b: RawBlock): Block
    requires |b.samples| == 64 && c.QuantReady()
    reads c, c.statics, c.statics.quantLum, c.statics.quantChroma
  {
    CodeRaw(b, c.LumTable(), c.ChromaTable())
  }

  method CodeGrey(c: ScanCoder, lines: array2<byte>, f: Format, ghost ls: seq<seq<byte>>, x: nat)
    requires c.Valid() && lines !in c.Repr() && Shows(lines, ls) && Sized(lines, f) && ValidLines(f, ls)
    requires f.mode.YOnly? && x < BlocksAcross(f)
    modifies c.Repr()
    ensures c.Valid() && c.Advances() && c.QuantReady()
    ensures c.coded == old(c.coded) + [Coded(c, RawBlock(0, FullBlock(f, ls, x, 0, 0)))]
  {
    hide ScanCoder.Valid, ScanCoder.QuantReady, FullBlock, CodeRaw;
    c.ValidFacts();
    FullInRange(f, ls, x, 0, 0);
    LoadGrey(lines, c.samples, f, ls, x);
    c.CodeBlock(0);
    c.ValidFacts();
  }

  method CodeFull(c: ScanCoder, lines: array2<byte>, f: Format, ghost ls: seq<seq<byte>>, x: nat, y: nat, comp: nat)
    requires c.Valid() && lines !in c.Repr() && Shows(lines, ls) && Sized(lines, f) && ValidLines(f, ls)
    requires !f.mode.YOnly? && x < BlocksAcross(f) && 8 * y < McuHeight(f.mode) && comp < 3
    modifies c.Repr()
    ensures c.Valid() && c.Advances() && c.QuantReady()
    ensures c.coded == old(c.coded) + [Coded(c, RawBlock(comp, FullBlock(f, ls, x, y, comp)))]
  {
    hide ScanCoder.Valid, ScanCoder.QuantReady, FullBlock, CodeRaw;
    c.ValidFacts();
    FullInRange(f, ls, x, y, comp);
    LoadFull(lines, c.samples, f, ls, x, y, comp);
    c.CodeBlock(comp);
    c.ValidFacts();
  }

  method CodeHalf(c: ScanCoder, lines: array2<byte>, f: Format, ghost ls: seq<seq<byte>>, x: nat, comp: nat)
    requires c.Valid() && lines !in c.Repr() && Shows(lines, ls) && Sized(lines, f) && ValidLines(f, ls)
    requires McuWidth(f.mode) == 16 && x < McusPerRow(f) && comp < 3
    modifies c.Repr()
    ensures c.Valid() && c.Advances() && c.QuantReady()
    ensures c.coded == old(c.coded) + [Coded(c, RawBlock(comp, HalfBlock(f, ls, x, comp)))]
  {
    hide ScanCoder.Valid, ScanCoder.QuantReady, HalfBlock, CodeRaw;
    c.ValidFacts();
    HalfInRange(f, ls, x, comp);
    LoadHalf(lines, c.samples, f, ls, x, comp);
    c.CodeBlock(comp);
    c.ValidFacts();
  }

  method CodeQuarter(c: ScanCoder, lines: array2<byte>, f: Format, ghost ls: seq<seq<byte>>, x: nat, comp: nat)
    requires c.Valid() && lines !in c.Repr() && Shows(lines, ls) && Sized(lines, f) && ValidLines(f, ls)
    requires f.mode.H2V2? && x < McusPerRow(f) && comp < 3
    modifies c.Repr()
    ensures c.Valid() && c.Advances() && c.QuantReady()
    ensures c.coded == old(c.coded) + [Coded(c, RawBlock(comp, QuarterBlock(f, ls, x, comp)))]
  {
    hide ScanCoder.Valid, ScanCoder.QuantReady, QuarterBlock, CodeRaw;
    c.ValidFacts();
    QuarterInRange(f, ls, x, comp);
    LoadQuarter(lines, c.samples, f, ls, x, comp);
    c.CodeBlock(comp);
    c.ValidFacts();
  }

  /** The coded form of a list of blocks. */
  ghost function CodedAll(c: ScanCoder, bs: seq<RawBlock>): seq<Block>
    requires InRange(bs) && c.QuantReady()
    reads c, c.statics, c.statics.quantLum, c.statics.quantChroma
  {
    CodeAll(bs, c.LumTable(), c.ChromaTable())
  }

  /** One MCU without subsampling. */
  method CodeMcuH1V1(c: ScanCoder, lines: array2<byte>, f: Format, ghost ls: seq<seq<byte>>, i: nat)
    requires c.Valid() && lines !in c.Repr() && Shows(lines, ls) && Sized(lines, f) && ValidLines(f, ls)
    requires i < McusPerRow(f) && f.mode.H1V1?
    modifies c.Repr()
    ensures InRange(McuBlocks(f, ls, i)) && c.Advances() && c.QuantReady()
    ensures c.coded == old(c.coded) + CodedAll(c, McuBlocks(f, ls, i))
    ensures c.Valid()
  {
    hide ScanCoder.Valid, ScanCoder.QuantReady, ScanCoder.LumTable, ScanCoder.ChromaTable, FullBlock, HalfBlock, QuarterBlock, CodeRaw, ValidLines, Shows, Sized, CodeAll, InRange;
    McuInRange(f, ls, i);
    c.ValidFacts();
    CodeFull(c, lines, f, ls, i, 0, 0);
    CodeFull(c, lines, f, ls, i, 0, 1);
    CodeFull(c, lines, f, ls, i, 0, 2);
    CodeThree(McuBlocks(f, ls, i), c.LumTable(), c.ChromaTable());
  }

  ghost function CodedPair(c: ScanCoder, f: Format, ls: seq<seq<byte>>, i: nat, y: nat): seq<Block>
    requires ValidLines(f, ls) && i < McusPerRow(f) && McuWidth(f.mode) == 16 && 8 * y < McuHeight(f.mode) && c.QuantReady()
    reads c, c.statics, c.statics.quantLum, c.statics.quantChroma
  {
    [Coded(c, RawBlock(0, FullBlock(f, ls, 2 * i, y, 0))), Coded(c, RawBlock(0, FullBlock(f, ls, 2 * i + 1, y, 0)))]
  }

  /** The two luma blocks of an MCU in block row y. */
  method CodePair(c: ScanCoder, lines: array2<byte>, f: Format, ghost ls: seq<seq<byte>>, i: nat, y: nat)
    requires c.Valid() && lines !in c.Repr() && Shows(lines, ls) && Sized(lines, f) && ValidLines(f, ls)
    requires i < McusPerRow(f) && McuWidth(f.mode) == 16 && 8 * y < McuHeight(f.mode)
    modifies c.Repr()
    ensures c.Advances() && c.QuantReady()
    ensures c.coded == old(c.coded) + CodedPair(c, f, ls, i, y)
    ensures c.Valid()
  {
    hide ScanCoder.Valid, ScanCoder.QuantReady, ScanCoder.LumTable, ScanCoder.ChromaTable, FullBlock, HalfBlock, QuarterBlock, CodeRaw, ValidLines, Shows, Sized;
    c.ValidFacts();
    CodeFull(c, lines, f, ls, 2 * i, y, 0);
    CodeFull(c, lines, f, ls, 2 * i + 1, y, 0);
  }

  /** One MCU with horizontal subsampling. */
  method CodeMcuH2V1(c: ScanCoder, lines: array2<byte>, f: Format, ghost ls: seq<seq<byte>>, i: nat)
    requires c.Valid() && lines !in c.Repr() && Shows(lines, ls) && Sized(lines, f) && ValidLines(f, ls)
    requires i < McusPerRow(f) && f.mode.H2V1?
    modifies c.Repr()
    ensures InRange(McuBlocks(f, ls, i)) && c.Advances() && c.QuantReady()
    ensures c.coded == old(c.coded) + CodedAll(c, McuBlocks(f, ls, i))
    ensures c.Valid()
  {
    hide ScanCoder.Valid, ScanCoder.QuantReady, ScanCoder.LumTable, ScanCoder.ChromaTable, FullBlock, HalfBlock, QuarterBlock, CodeRaw, ValidLines, Shows, Sized, CodeAll, InRange;
    McuInRange(f, ls, i);
    c.ValidFacts();
    CodePair(c, lines, f, ls, i, 0);
    CodeHalf(c, lines, f, ls, i, 1);
    CodeHalf(c, lines, f, ls, i, 2);
    CodeFour(McuBlocks(f, ls, i), c.LumTable(), c.ChromaTable());
  }

  /** One MCU with subsampling in both directions. */
  method CodeMcuH2V2(c: ScanCoder, lines: array2<byte>, f: Format, ghost ls: seq<seq<byte>>, i: nat)
    requires c.Valid() && lines !in c.Repr() && Shows(lines, ls) && Sized(lines, f) && ValidLines(f, ls)
    requires i < McusPerRow(f) && f.mode.H2V2?
    modifies c.Repr()
    ensures InRange(McuBlocks(f, ls, i)) && c.Advances() && c.QuantReady()
    ensures c.coded == old(c.coded) + CodedAll(c, McuBlocks(f, ls, i))
    ensures c.Valid()
  {
    hide ScanCoder.Valid, ScanCoder.QuantReady, ScanCoder.LumTable, ScanCoder.ChromaTable, FullBlock, HalfBlock, QuarterBlock, CodeRaw, ValidLines, Shows, Sized, CodeAll, InRange;
    McuInRange(f, ls, i);
    c.ValidFacts();
    ghost var lum, chroma := c.LumTable(), c.ChromaTable();
    CodePair(c, lines, f, ls, i, 0);
    CodePair(c, lines, f, ls, i, 1);
    CodeQuarter(c, lines, f, ls, i, 1);
    CodeQuarter(c, lines, f, ls, i, 2);
    CodeSix(McuBlocks(f, ls, i), c.LumTable(), c.ChromaTable());
  }

  lemma CodeThree(bs: seq<RawBlock>, lum: seq<int>, chroma: seq<int>)
    requires |bs| == 3 && InRange(bs) && IsQuantTable(lum) && IsQuantTable(chroma)
    ensures CodeAll(bs, lum, chroma)
         == [CodeRaw(bs[0], lum, chroma), CodeRaw(bs[1], lum, chroma), CodeRaw(bs[2], lum, chroma)]
  {
    hide CodeRaw;
  }

  lemma CodeFour(bs: seq<RawBlock>, lum: seq<int>, chroma: seq<int>)
    requires |bs| == 4 && InRange(bs) && IsQuantTable(lum) && IsQuantTable(chroma)
    ensures CodeAll(bs, lum, chroma)
         == [CodeRaw(bs[0], lum, chroma), CodeRaw(bs[1], lum, chroma), CodeRaw(bs[2], lum, chroma), CodeRaw(bs[3], lum, chroma)]
  {
    hide CodeRaw;
  }

  lemma CodeSix(bs: seq<RawBlock>, lum: seq<int>, chroma: seq<int>)
    requires |bs| == 6 && InRange(bs) && IsQuantTable(lum) && IsQuantTable(chroma)
    ensures CodeAll(bs, lum, chroma)
         == [CodeRaw(bs[0], lum, chroma), CodeRaw(bs[1], lum, chroma), CodeRaw(bs[2], lum, chroma),
             CodeRaw(bs[3], lum, chroma), CodeRaw(bs[4], lum, chroma), CodeRaw(bs[5], lum, chroma)]
  {
    hide CodeRaw;
  }

  /** The body of the loop of process_mcu_row. */
  method CodeMcu(c: ScanCoder, lines: array2<byte>, f: Format, ghost ls: seq<seq<byte>>, i: nat)
    requires c.Valid() && lines !in c.Repr() && Shows(lines, ls) && Sized(lines, f) && ValidLines(f, ls)
    requires i < McusPerRow(f)
    modifies c.Repr()
    ensures InRange(McuBlocks(f, ls, i)) && c.Advances() && c.QuantReady()
    ensures c.coded == old(c.coded) + CodedAll(c, McuBlocks(f, ls, i))
    ensures c.Valid()
  {
    hide ScanCoder.Valid, ScanCoder.QuantReady, FullBlock, CodeRaw, ValidLines, Shows, Sized;
    McuInRange(f, ls, i);
    c.ValidFacts();
    match f.mode
    case YOnly =>
      CodeGrey(c, lines, f, ls, i);
      c.ValidFacts();
    case H1V1 =>
      CodeMcuH1V1(c, lines, f, ls, i);
    case H2V1 =>
      CodeMcuH2V1(c, lines, f, ls, i);
    case H2V2 =>
      CodeMcuH2V2(c, lines, f, ls, i);
  }

  /** process_mcu_row. */
  method ProcessMcuRow(c: ScanCoder, lines: array2<byte>, f: Format, ghost ls: seq<seq<byte>>)
    requires c.Valid() && lines !in c.Repr() && Shows(lines, ls) && Sized(lines, f) && ValidLines(f, ls)
    modifies c.Repr()
    ensures c.Valid() && c.Advances() && InRange(RowBlocks(f, ls, McusPerRow(f)))
    ensures c.coded == old(c.coded) + CodedAll(c, RowBlocks(f, ls, McusPerRow(f)))
  {
    hide ScanCoder.Valid, ScanCoder.QuantReady, McuBlocks, CodeAll, ValidLines, Shows, Sized, McusPerRow;
    RowInRange(f, ls, McusPerRow(f));
    c.ValidFacts();
    CodeNone(c.LumTable(), c.ChromaTable());
    for i := 0 to McusPerRow(f)
      invariant c.Valid() && c.QuantReady() && c.Advances() && InRange(RowBlocks(f, ls, i))
      invariant c.coded == old(c.coded) + CodedAll(c, RowBlocks(f, ls, i))
    {
      McuInRange(f, ls, i);
      CodeMcu(c, lines, f, ls, i);
      c.ValidFacts();
      CodeAllAppend(RowBlocks(f, ls, i), McuBlocks(f, ls, i), c.LumTable(), c.ChromaTable());
      RowInRange(f, ls, i + 1);
    }
  }

  lemma CodeNone(lum: seq<int>, chroma: seq<int>)
    requires IsQuantTable(lum) && IsQuantTable(chroma)
    ensures CodeAll([], lum, chroma) == []
  {
  }

  lemma SampleRange(b: seq<int>)
    requires |b| == 64 && Within(b, -128, 127)
    ensures forall n :: 0 <= n < 64 ==> -1024 <= Dct2D(b)[n] <= 1023
  {
    hide Dct2D;
    forall n | 0 <= n < 64
      ensures -1024 <= Dct2D(b)[n] <= 1023
    {
      CoefficientRange(b, n);
    }
  }
}
