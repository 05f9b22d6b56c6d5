/** fmt2jpg of to_jpg.cpp: an image file in a buffer of fixed size, and for which
    images the buffer holds all of it. */
module ToJpg {
  import opened Words
  import opened Quant
  import opened Output
  import opened Geometry
  import opened ImageFile
  import opened FileSize

  const JPG_BUF_LEN := 128 * 1024

  /** A buffer of fmt2jpg holds the first n bytes of a file, as many as fit. */
  predicate KeptIn(buf: seq<byte>, n: nat, file: seq<byte>) {
    |buf| == JPG_BUF_LEN && n == Min(JPG_BUF_LEN, |file|) && buf[..n] == file[..n]
  }

  /** The stream is a memory_stream, which never reports a failure, and keeps the
      same bytes however they are cut into calls. The caller is told of success
      even when the image file did not fit. */
  method Fmt2Jpg(statics: Statics, width: nat, rows: seq<seq<byte>>, grey: bool, quality: byte,
                 bufferMemory: bool, encoderMemory: bool, lineMemory: bool)
    returns (ok: bool, out: array<byte>, outLen: nat)
    requires statics.Valid() && ValidRows(ConvertFormat(width, grey), rows)
    modifies statics, statics.quantLum, statics.quantChroma
    ensures statics.Valid() && fresh(out)
    ensures ok <==> width > 0 && rows != [] && bufferMemory && encoderMemory && lineMemory
    ensures ok ==> KeptIn(out[..], outLen, ImageBytes(ConvertFormat(width, grey), rows, Clamped(quality)))
  {
    hide Statics.Valid, ImageBytes, ValidRow, Clamped;
    outLen := 0;
    if !bufferMemory {
      ok, out := false, new byte[0];
      return;
    }
    var buffer := new MemoryStream(JPG_BUF_LEN);
    var stream := new OutputStream(true);
    ok := ConvertImage(statics, stream, width, rows, grey, quality, encoderMemory, lineMemory);
    var _ := buffer.PutBuf(Some(stream.accepted));
    out, outLen := buffer.outBuf, buffer.index;
    assert [] + stream.accepted == stream.accepted;
  }

  // ------------------------------------------------ which images are cut

  /** What is handed out for these rows is their file, and not only a part. */
  ghost predicate Whole(f: Format, rows: seq<seq<byte>>, quality: int)
    requires ValidFormat(f) && ValidRows(f, rows) && 1 <= quality <= 100
  {
    forall buf: seq<byte>, n: nat :: KeptIn(buf, n, ImageBytes(f, rows, quality)) ==>
      n <= |buf| && buf[..n] == ImageBytes(f, rows, quality)
  }

  lemma WholeIffFits(f: Format, rows: seq<seq<byte>>, quality: int)
    requires ValidFormat(f) && ValidRows(f, rows) && 1 <= quality <= 100
    ensures Whole(f, rows, quality) <==> |ImageBytes(f, rows, quality)| <= JPG_BUF_LEN
  {
    hide ImageBytes;
    var file := ImageBytes(f, rows, quality);
    if |file| <= JPG_BUF_LEN {
      assert file == file[..|file|];
    } else {
      assert KeptIn(file[..JPG_BUF_LEN], JPG_BUF_LEN, file);
      assert |file[..JPG_BUF_LEN][..JPG_BUF_LEN]| != |file|;
    }
  }

  /** For given dimensions and any quality: some image is handed out whole if and
      only if the shortest file fits. Above that size every image is cut. */
  lemma SomeIsWholeIff(f: Format, height: nat, quality: int)
    requires ValidFormat(f) && 1 <= quality <= 100
    ensures (exists rows :: |rows| == height && ValidRows(f, rows) && Whole(f, rows, quality))
       <==> ShortestFile(f, height) <= JPG_BUF_LEN
  {
    hide ImageBytes, ShortestFile, GreyRows, Whole;
    GreyIsShortest(f, height, quality);
    WholeIffFits(f, GreyRows(f, height), quality);
    forall rows | |rows| == height && ValidRows(f, rows) && Whole(f, rows, quality)
      ensures ShortestFile(f, height) <= JPG_BUF_LEN
    {
      FileLength(f, rows, quality);
      WholeIffFits(f, rows, quality);
    }
  }

  /** Small enough, every image is handed out whole. */
  lemma SmallIsWhole(f: Format, rows: seq<seq<byte>>, quality: int)
    requires ValidFormat(f) && ValidRows(f, rows) && 1 <= quality <= 100
    requires LongestFile(f, |rows|) <= JPG_BUF_LEN
    ensures Whole(f, rows, quality)
  {
    hide ImageBytes, LongestFile, ShortestFile;
    FileLength(f, rows, quality);
    WholeIffFits(f, rows, quality);
  }

  function BlackRows(width: nat, height: nat): (rows: seq<seq<byte>>)
    ensures |rows| == height && forall y :: 0 <= y < height ==> |rows[y]| == width
  {
    seq(height, _ => seq(width, _ => 0))
  }

  /** A black image of 3344 by 3344 grey pixels is cut, at the lowest quality. */
  lemma BlackIsCut()
    ensures ValidRows(ConvertFormat(3344, true), BlackRows(3344, 3344))
    ensures !Whole(ConvertFormat(3344, true), BlackRows(3344, 3344), 1)
  {
    hide ImageBytes, Whole, BlackRows;
    var f := ConvertFormat(3344, true);
    assert ShortestFile(f, 3344) == 328 + (6 * (418 * 418) + 7) / 8 + 2;
    FileLength(f, BlackRows(3344, 3344), 1);
    WholeIffFits(f, BlackRows(3344, 3344), 1);
  }

  /** Every colour image of 112 by 112 pixels is whole. */
  lemma ThumbnailIsWhole(rows: seq<seq<byte>>, quality: int)
    requires ValidRows(ConvertFormat(112, false), rows) && |rows| == 112 && 1 <= quality <= 100
    ensures Whole(ConvertFormat(112, false), rows, quality)
  {
    hide Whole;
    assert LongestFile(ConvertFormat(112, false), 112) == 623 + 2 * ((1665 * (6 * (7 * 7)) + 7) / 8) + 2;
    SmallIsWhole(ConvertFormat(112, false), rows, quality);
  }
}
