/** Filling the line buffers from a scanline and the sample block from the line
    buffers (jpge.cpp: RGB_to_YCC, RGB_to_Y, Y_to_YCC, load_mcu, load_block_*),
    in place, proved against module Geometry. */
module BlockLoading {
  import opened Words
  import opened Geometry

  /** The line buffers hold ls. */
  ghost predicate Shows(lines: array2<byte>, ls: seq<seq<byte>>)
    reads lines
  {
    && lines.Length0 == |ls|
    && (forall y :: 0 <= y < |ls| ==> |ls[y]| == lines.Length1)
    && forall y, j :: 0 <= y < lines.Length0 && 0 <= j < lines.Length1 ==> lines[y, j] == ls[y][j]
  }

  /** The line buffers have the dimensions of the format. */
  predicate Sized(lines: array2<byte>, f: Format) {
    lines.Length0 == McuHeight(f.mode) && lines.Length1 == LineLength(f)
  }

  /** The entries of line y below n are those of l. */
  ghost predicate LineHolds(lines: array2<byte>, y: nat, l: seq<byte>, n: nat)
    requires y < lines.Length0
    reads lines
  {
    |l| == lines.Length1 && n <= |l| && forall j :: 0 <= j < n ==> lines[y, j] == l[j]
  }

  twostate predicate OtherLinesKept(lines: array2<byte>, y: nat)
    reads lines
  {
    forall i, j :: 0 <= i < lines.Length0 && i != y && 0 <= j < lines.Length1 ==> lines[i, j] == old(lines[i, j])
  }

  // ---------------------------------------------------------- scanlines in

  lemma PixelAt(f: Format, row: seq<byte>, x: nat, c: nat)
    requires ValidFormat(f) && ValidRow(f, row) && x < PaddedWidth(f) && c < Components(f.mode)
    ensures x * Components(f.mode) + c < LineLength(f)
    ensures Line(f, row)[x * Components(f.mode) + c] == Component(f, row, Min(x, f.width - 1), c)
  {
    hide Component;
    ColumnInLine(f, x, c);
  }

  method RgbToYcc(lines: array2<byte>, y: nat, f: Format, row: seq<byte>)
    requires ValidFormat(f) && ValidRow(f, row) && f.bpp == 3 && !f.mode.YOnly?
    requires Sized(lines, f) && y < lines.Length0
    modifies lines
    ensures LineHolds(lines, y, Line(f, row), 3 * f.width) && OtherLinesKept(lines, y)
  {
    hide Luma, BlueDifference, RedDifference, Line;
    for x := 0 to f.width
      invariant LineHolds(lines, y, Line(f, row), 3 * x) && OtherLinesKept(lines, y)
    {
      PixelAt(f, row, x, 0);
      PixelAt(f, row, x, 1);
      PixelAt(f, row, x, 2);
      var r, g, b := row[3 * x], row[3 * x + 1], row[3 * x + 2];
      lines[y, 3 * x] := Luma(r, g, b);
      lines[y, 3 * x + 1] := BlueDifference(r, g, b);
      lines[y, 3 * x + 2] := RedDifference(r, g, b);
    }
    LineFits(f);
  }

  lemma LineFits(f: Format)
    ensures Components(f.mode) * f.width <= LineLength(f)
    ensures LineLength(f) == Components(f.mode) * PaddedWidth(f)
  {
    hide PaddedWidth;
    var n, w := Components(f.mode), PaddedWidth(f);
    assert n == 3 ==> n * w == 3 * w;
    assert n == 1 ==> n * w == w;
  }

  method RgbToY(lines: array2<byte>, y: nat, f: Format, row: seq<byte>)
    requires ValidFormat(f) && ValidRow(f, row) && f.bpp == 3 && f.mode.YOnly?
    requires Sized(lines, f) && y < lines.Length0
    modifies lines
    ensures LineHolds(lines, y, Line(f, row), f.width) && OtherLinesKept(lines, y)
  {
    hide Luma, Line;
    LineFits(f);
    for x := 0 to f.width
      invariant LineHolds(lines, y, Line(f, row), x) && OtherLinesKept(lines, y)
    {
      PixelAt(f, row, x, 0);
      lines[y, x] := Luma(row[3 * x], row[3 * x + 1], row[3 * x + 2]);
    }
  }

  method YToYcc(lines: array2<byte>, y: nat, f: Format, row: seq<byte>)
    requires ValidFormat(f) && ValidRow(f, row) && f.bpp != 3 && !f.mode.YOnly?
    requires Sized(lines, f) && y < lines.Length0
    modifies lines
    ensures LineHolds(lines, y, Line(f, row), 3 * f.width) && OtherLinesKept(lines, y)
  {
    hide Line;
    RowCovers(f, row);
    LineFits(f);
    for x := 0 to f.width
      invariant LineHolds(lines, y, Line(f, row), 3 * x) && OtherLinesKept(lines, y)
    {
      PixelAt(f, row, x, 0);
      PixelAt(f, row, x, 1);
      PixelAt(f, row, x, 2);
      lines[y, 3 * x] := row[x];
      lines[y, 3 * x + 1] := 128;
      lines[y, 3 * x + 2] := 128;
    }
  }

  method CopyY(lines: array2<byte>, y: nat, f: Format, row: seq<byte>)
    requires ValidFormat(f) && ValidRow(f, row) && f.bpp != 3 && f.mode.YOnly?
    requires Sized(lines, f) && y < lines.Length0
    modifies lines
    ensures LineHolds(lines, y, Line(f, row), f.width) && OtherLinesKept(lines, y)
  {
    hide Line;
    RowCovers(f, row);
    LineFits(f);
    for x := 0 to f.width
      invariant LineHolds(lines, y, Line(f, row), x) && OtherLinesKept(lines, y)
    {
      PixelAt(f, row, x, 0);
      lines[y, x] := row[x];
    }
  }

  /** memset of the grey line buffer beyond the image. */
  method PadGrey(lines: array2<byte>, y: nat, f: Format, ghost row: seq<byte>)
    requires ValidFormat(f) && ValidRow(f, row) && f.mode.YOnly?
    requires Sized(lines, f) && y < lines.Length0
    requires LineHolds(lines, y, Line(f, row), f.width)
    modifies lines
    ensures LineHolds(lines, y, Line(f, row), LineLength(f)) && OtherLinesKept(lines, y)
  {
    hide Line;
    LineFits(f);
    var w := f.width;
    PixelAt(f, row, w - 1, 0);
    var v := lines[y, w - 1];
    for x := w to PaddedWidth(f)
      invariant LineHolds(lines, y, Line(f, row), x) && OtherLinesKept(lines, y)
    {
      PixelAt(f, row, x, 0);
      lines[y, x] := v;
    }
  }

  /** The right padding of load_mcu. */
  method PadLine(lines: array2<byte>, y: nat, f: Format, ghost row: seq<byte>)
    requires ValidFormat(f) && ValidRow(f, row)
    requires Sized(lines, f) && y < lines.Length0
    requires LineHolds(lines, y, Line(f, row), Components(f.mode) * f.width)
    modifies lines
    ensures LineHolds(lines, y, Line(f, row), LineLength(f)) && OtherLinesKept(lines, y)
  {
    hide Line;
    LineFits(f);
    var w := f.width;
    if f.mode.YOnly? {
      PadGrey(lines, y, f, row);
    } else {
      PixelAt(f, row, w - 1, 0);
      PixelAt(f, row, w - 1, 1);
      PixelAt(f, row, w - 1, 2);
      var luma, cb, cr := lines[y, 3 * w - 3], lines[y, 3 * w - 2], lines[y, 3 * w - 1];
      for x := w to PaddedWidth(f)
        invariant LineHolds(lines, y, Line(f, row), 3 * x) && OtherLinesKept(lines, y)
      {
        PixelAt(f, row, x, 0);
        PixelAt(f, row, x, 1);
        PixelAt(f, row, x, 2);
        lines[y, 3 * x], lines[y, 3 * x + 1], lines[y, 3 * x + 2] := luma, cb, cr;
      }
    }
  }

  /** The part of load_mcu that fills line y. */
  method LoadLine(lines: array2<byte>, y: nat, f: Format, row: seq<byte>)
    requires ValidFormat(f) && ValidRow(f, row)
    requires Sized(lines, f) && y < lines.Length0
    modifies lines
    ensures LineHolds(lines, y, Line(f, row), LineLength(f)) && OtherLinesKept(lines, y)
  {
    hide Line, LineLength;
    if f.mode.YOnly? {
      if f.bpp == 3 {
        RgbToY(lines, y, f, row);
      } else {
        CopyY(lines, y, f, row);
      }
    } else {
      if f.bpp == 3 {
        RgbToYcc(lines, y, f, row);
      } else {
        YToYcc(lines, y, f, row);
      }
    }
    PadLine(lines, y, f, row);
  }

  // --------------------------------------------------------- sample blocks

  lemma GreyAt(f: Format, ls: seq<seq<byte>>, x: nat, i: nat, k: nat)
    requires ValidLines(f, ls) && f.mode.YOnly? && x < BlocksAcross(f) && i < 8 && k < 8
    ensures 8 * x + k < LineLength(f) && FullBlock(f, ls, x, 0, 0)[8 * i + k] == At(ls[i], 8 * x + k) - 128
  {
    LineFits(f);
    InBlock(i, k);
  }

  /** load_block_8_8_grey. */
  method LoadGrey(lines: array2<byte>, samples: array<int32>, f: Format, ghost ls: seq<seq<byte>>, x: nat)
    requires Shows(lines, ls) && Sized(lines, f) && ValidLines(f, ls) && f.mode.YOnly? && x < BlocksAcross(f)
    requires samples.Length == 64
    modifies samples
    ensures samples[..] == FullBlock(f, ls, x, 0, 0)
  {
    hide FullBlock, LineLength;
    ghost var block := FullBlock(f, ls, x, 0, 0);
    for i := 0 to 8
      invariant forall k :: 0 <= k < 8 * i ==> samples[k] == block[k]
    {
      GreyAt(f, ls, x, i, 7);
      forall r | 8 * i <= r < 8 * i + 8
        ensures block[r] == lines[i, 8 * x + (r - 8 * i)] as int - 128
      {
        GreyAt(f, ls, x, i, r - 8 * i);
      }
      forall r | 8 * i <= r < 8 * i + 8 {
        samples[r] := lines[i, 8 * x + (r - 8 * i)] as int - 128;
      }
    }
  }

  lemma FullAt(f: Format, ls: seq<seq<byte>>, x: nat, y: nat, c: nat, i: nat, k: nat)
    requires ValidLines(f, ls) && !f.mode.YOnly? && i < 8 && k < 8
    requires x < BlocksAcross(f) && 8 * y < McuHeight(f.mode) && c < 3
    ensures 24 * x + c + 3 * k < LineLength(f)
    ensures FullBlock(f, ls, x, y, c)[8 * i + k] == At(ls[8 * y + i], 24 * x + c + 3 * k) - 128
  {
    hide LineLength;
    LineFits(f);
    InBlock(i, k);
    assert 3 * (8 * x + k) + c == 24 * x + c + 3 * k;
  }

  /** load_block_8_8. */
  method LoadFull(lines: array2<byte>, samples: array<int32>, f: Format, ghost ls: seq<seq<byte>>, x: nat, y: nat, c: nat)
    requires Shows(lines, ls) && Sized(lines, f) && ValidLines(f, ls) && !f.mode.YOnly?
    requires x < BlocksAcross(f) && 8 * y < McuHeight(f.mode) && c < 3
    requires samples.Length == 64
    modifies samples
    ensures samples[..] == FullBlock(f, ls, x, y, c)
  {
    hide FullBlock, LineLength;
    ghost var block := FullBlock(f, ls, x, y, c);
    for i := 0 to 8
      invariant forall k :: 0 <= k < 8 * i ==> samples[k] == block[k]
    {
      FullAt(f, ls, x, y, c, i, 7);
      forall r | 8 * i <= r < 8 * i + 8
        ensures block[r] == lines[8 * y + i, 24 * x + c + 3 * (r - 8 * i)] as int - 128
      {
        FullAt(f, ls, x, y, c, i, r - 8 * i);
      }
      forall r | 8 * i <= r < 8 * i + 8 {
        samples[r] := lines[8 * y + i, 24 * x + c + 3 * (r - 8 * i)] as int - 128;
      }
    }
  }

  lemma HalfAt(f: Format, ls: seq<seq<byte>>, x: nat, c: nat, i: nat, k: nat)
    requires ValidLines(f, ls) && McuWidth(f.mode) == 16 && x < McusPerRow(f) && c < 3 && i < 8 && k < 8
    ensures 48 * x + c + 6 * k + 3 < LineLength(f)
    ensures HalfBlock(f, ls, x, c)[8 * i + k]
         == (At(ls[i], 48 * x + c + 6 * k) + At(ls[i], 48 * x + c + 6 * k + 3)) / 2 - 128
  {
    hide LineLength;
    LineFits(f);
    InBlock(i, k);
    assert 3 * (16 * x + 2 * k) + c == 48 * x + c + 6 * k;
  }

  /** load_block_16_8_8. */
  method LoadHalf(lines: array2<byte>, samples: array<int32>, f: Format, ghost ls: seq<seq<byte>>, x: nat, c: nat)
    requires Shows(lines, ls) && Sized(lines, f) && ValidLines(f, ls)
    requires McuWidth(f.mode) == 16 && x < McusPerRow(f) && c < 3
    requires samples.Length == 64
    modifies samples
    ensures samples[..] == HalfBlock(f, ls, x, c)
  {
    hide HalfBlock, LineLength, McusPerRow;
    ghost var block := HalfBlock(f, ls, x, c);
    for i := 0 to 8
      invariant forall k :: 0 <= k < 8 * i ==> samples[k] == block[k]
    {
      HalfAt(f, ls, x, c, i, 7);
      forall r | 8 * i <= r < 8 * i + 8
        ensures block[r]
                == (lines[i, 48 * x + c + 6 * (r - 8 * i)] as int + lines[i, 48 * x + c + 6 * (r - 8 * i) + 3] as int) / 2 - 128
      {
        HalfAt(f, ls, x, c, i, r - 8 * i);
      }
      forall r | 8 * i <= r < 8 * i + 8 {
        samples[r] := (lines[i, 48 * x + c + 6 * (r - 8 * i)] as int + lines[i, 48 * x + c + 6 * (r - 8 * i) + 3] as int) / 2 - 128;
      }
    }
  }

  lemma QuarterAt(f: Format, ls: seq<seq<byte>>, x: nat, c: nat, i: nat, k: nat)
    requires ValidLines(f, ls) && f.mode.H2V2? && x < McusPerRow(f) && c < 3 && i < 8 && k < 8
    ensures 48 * x + c + 6 * k + 3 < LineLength(f)
    ensures QuarterBlock(f, ls, x, c)[8 * i + k]
         == (At(ls[2 * i], 48 * x + c + 6 * k) + At(ls[2 * i], 48 * x + c + 6 * k + 3)
             + At(ls[2 * i + 1], 48 * x + c + 6 * k) + At(ls[2 * i + 1], 48 * x + c + 6 * k + 3)
             + if (i + k) % 2 == 0 then 0 else 2) / 4 - 128
  {
    hide LineLength;
    LineFits(f);
    InBlock(i, k);
    assert 3 * (16 * x + 2 * k) + c == 48 * x + c + 6 * k;
  }

  /** The sum of two by two samples. */
  function Sum4(lines: array2<byte>, y: nat, j: nat): int
    requires y + 1 < lines.Length0 && j + 3 < lines.Length1
    reads lines
  {
    lines[y, j] as int + lines[y, j + 3] as int + lines[y + 1, j] as int + lines[y + 1, j + 3] as int
  }

  lemma QuarterEntry(lines: array2<byte>, f: Format, ls: seq<seq<byte>>, x: nat, c: nat, i: nat, k: nat)
    requires Shows(lines, ls) && Sized(lines, f) && ValidLines(f, ls) && f.mode.H2V2? && x < McusPerRow(f) && c < 3
    requires i < 8 && k < 8
    ensures 48 * x + c + 6 * k + 3 < lines.Length1
    ensures QuarterBlock(f, ls, x, c)[8 * i + k]
         == (Sum4(lines, 2 * i, 48 * x + c + 6 * k) + if (i + k) % 2 == 0 then 0 else 2) / 4 - 128
  {
    hide QuarterBlock, LineLength, McusPerRow;
    QuarterAt(f, ls, x, c, i, k);
  }

  lemma Alternates(i: nat, k: nat)
    ensures (i + k) % 2 == if k % 2 == 0 then i % 2 else 1 - i % 2
  {
  }

  /** Row i of load_block_16_8: a and b are added at even and odd columns. */
  method LoadQuarterRow(lines: array2<byte>, samples: array<int32>, f: Format, ghost ls: seq<seq<byte>>, x: nat, c: nat,
                        i: nat, a: int, b: int)
    requires Shows(lines, ls) && Sized(lines, f) && ValidLines(f, ls) && f.mode.H2V2? && x < McusPerRow(f) && c < 3
    requires samples.Length == 64 && i < 8 && a == (if i % 2 == 0 then 0 else 2) && b == 2 - a
    modifies samples
    ensures forall k :: 0 <= k < 8 * i ==> samples[k] == old(samples[k])
    ensures forall k :: 8 * i <= k < 8 * i + 8 ==> samples[k] == QuarterBlock(f, ls, x, c)[k]
  {
    hide QuarterBlock, LineLength, McusPerRow, Sum4;
    ghost var block := QuarterBlock(f, ls, x, c);
    QuarterAt(f, ls, x, c, i, 7);
    forall r | 8 * i <= r < 8 * i + 8
      ensures block[r]
              == (Sum4(lines, 2 * i, 48 * x + c + 6 * (r - 8 * i)) + if (r - 8 * i) % 2 == 0 then a else b) / 4 - 128
    {
      QuarterEntry(lines, f, ls, x, c, i, r - 8 * i);
      Alternates(i, r - 8 * i);
    }
    forall r | 8 * i <= r < 8 * i + 8 {
      samples[r] := (Sum4(lines, 2 * i, 48 * x + c + 6 * (r - 8 * i)) + if (r - 8 * i) % 2 == 0 then a else b) / 4 - 128;
    }
  }

  /** load_block_16_8. */
  method LoadQuarter(lines: array2<byte>, samples: array<int32>, f: Format, ghost ls: seq<seq<byte>>, x: nat, c: nat)
    requires Shows(lines, ls) && Sized(lines, f) && ValidLines(f, ls) && f.mode.H2V2? && x < McusPerRow(f) && c < 3
    requires samples.Length == 64
    modifies samples
    ensures samples[..] == QuarterBlock(f, ls, x, c)
  {
    hide QuarterBlock, LineLength, McusPerRow;
    ghost var block := QuarterBlock(f, ls, x, c);
    var a, b := 0, 2;
    for i := 0 to 8
      invariant a == (if i % 2 == 0 then 0 else 2) && b == 2 - a
      invariant forall k :: 0 <= k < 8 * i ==> samples[k] == block[k]
    {
      LoadQuarterRow(lines, samples, f, ls, x, c, i, a, b);
      a, b := b, a;
    }
  }
}
