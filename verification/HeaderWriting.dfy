/** Emitting the marker segments byte by byte (jpge.cpp: emit_jfif_app0,
    emit_dqt, emit_sof, emit_dht, emit_sos), proved against module Headers. */
module HeaderWriting {
  import opened Words
  import opened Huffman
  import opened Entropy
  import opened Scan
  import opened Geometry
  import opened Headers
  import opened Output

  /** What the emit methods change, and that failures are final. */
  twostate predicate Progress(w: Writer)
    reads w, w.stream
  {
    && (w.allOk ==> old(w.allOk))
    && old(w.stream.accepted) <= w.stream.accepted
  }

  method EmitBytes(w: Writer, b: seq<byte>)
    requires w.BufferValid()
    modifies w`outBufLeft, w`allOk, w`emitted, w.outBuf, w.stream
    ensures w.BufferValid() && Progress(w)
    ensures w.emitted == old(w.emitted) + b
  {
    hide Writer.BufferValid;
    for i := 0 to |b|
      invariant w.BufferValid() && Progress(w)
      invariant w.emitted == old(w.emitted) + b[..i]
    {
      w.EmitByte(b[i]);
    }
    assert b[..|b|] == b;
  }

  /** A marker and the length field. */
  method EmitStart(w: Writer, marker: byte, length: nat)
    requires w.BufferValid()
    modifies w`outBufLeft, w`allOk, w`emitted, w.outBuf, w.stream
    ensures w.BufferValid() && Progress(w)
    ensures w.emitted == old(w.emitted) + ([0xFF, marker] + Word(length))
  {
    hide Writer.BufferValid;
    w.EmitMarker(marker);
    w.EmitWord(length);
  }

  method EmitWords(w: Writer, a: nat, b: nat)
    requires w.BufferValid()
    modifies w`outBufLeft, w`allOk, w`emitted, w.outBuf, w.stream
    ensures w.BufferValid() && Progress(w)
    ensures w.emitted == old(w.emitted) + (Word(a) + Word(b))
  {
    hide Writer.BufferValid;
    w.EmitWord(a);
    w.EmitWord(b);
  }

  method EmitJfifApp0(w: Writer)
    requires w.BufferValid()
    modifies w`outBufLeft, w`allOk, w`emitted, w.outBuf, w.stream
    ensures w.BufferValid() && Progress(w)
    ensures w.emitted == old(w.emitted) + SegmentBytes(App0())
  {
    hide Writer.BufferValid, Word;
    EmitStart(w, M_APP0, 2 + 4 + 1 + 2 + 1 + 2 + 2 + 1 + 1);
    EmitBytes(w, [0x4A, 0x46, 0x49, 0x46, 0, 1, 1, 0]);
    EmitWords(w, 1, 1);
    EmitBytes(w, [0, 0]);
    JfifLength();
  }

  lemma JfifLength()
    ensures |App0().payload| == 14
  {
  }

  method EmitDqt(w: Writer, i: byte, q: array<int32>)
    requires w.BufferValid() && q.Length == 64 && IsQuantTable(q[..])
    modifies w`outBufLeft, w`allOk, w`emitted, w.outBuf, w.stream
    ensures w.BufferValid() && Progress(w) && q[..] == old(q[..])
    ensures w.emitted == old(w.emitted) + SegmentBytes(Dqt(i, q[..]))
  {
    hide Writer.BufferValid, Word;
    ghost var t := AsBytes(q[..]);
    EmitStart(w, M_DQT, 64 + 1 + 2);
    w.EmitByte(i);
    ghost var start := w.emitted;
    for j := 0 to 64
      invariant w.BufferValid() && Progress(w) && q[..] == t
      invariant w.emitted == start + t[..j]
    {
      w.EmitByte(q[..][j] % 0x100);
    }
    assert t[..64] == t;
  }

  method EmitSof(w: Writer, width: nat, height: nat, m: Subsampling)
    requires w.BufferValid()
    modifies w`outBufLeft, w`allOk, w`emitted, w.outBuf, w.stream
    ensures w.BufferValid() && Progress(w)
    ensures w.emitted == old(w.emitted) + SegmentBytes(Sof(width, height, m))
  {
    hide Writer.BufferValid, Word, SofComponents, SegmentBytes, Sof;
    var n := Components(m);
    EmitStart(w, M_SOF0, 3 * n + 2 + 5 + 1);
    w.EmitByte(8);
    EmitWords(w, height, width);
    w.EmitByte(n);
    EmitSofComponents(w, m);
    SofBytes(width, height, m);
    Regroup(old(w.emitted), [0xFF, M_SOF0] + Word(3 * n + 2 + 5 + 1), [8], Word(height) + Word(width),
            [n] + SofComponents(m, 0)[..3 * n]);
  }

  lemma SofBytes(width: nat, height: nat, m: Subsampling)
    ensures SegmentBytes(Sof(width, height, m))
         == ([0xFF, M_SOF0] + Word(3 * Components(m) + 8)) + [8] + (Word(height) + Word(width))
            + ([Components(m)] + SofComponents(m, 0)[..3 * Components(m)])
  {
    hide SofComponents;
  }

  /** The component loop of emit_sof. */
  method EmitSofComponents(w: Writer, m: Subsampling)
    requires w.BufferValid()
    modifies w`outBufLeft, w`allOk, w`emitted, w.outBuf, w.stream
    ensures w.BufferValid() && Progress(w)
    ensures w.emitted == old(w.emitted) + SofComponents(m, 0)[..3 * Components(m)]
  {
    hide Writer.BufferValid, SofComponents, HSamp, VSamp;
    for i := 0 to Components(m)
      invariant w.BufferValid() && Progress(w)
      invariant w.emitted == old(w.emitted) + SofComponents(m, 0)[..3 * i]
    {
      EmitSofComponent(w, m, i);
      SofComponentAt(m, i);
    }
  }

  method EmitSofComponent(w: Writer, m: Subsampling, i: nat)
    requires w.BufferValid() && i < 3
    modifies w`outBufLeft, w`allOk, w`emitted, w.outBuf, w.stream
    ensures w.BufferValid() && Progress(w)
    ensures w.emitted == old(w.emitted) + [i + 1, 16 * HSamp(m, i) + VSamp(m, i), if i > 0 then 1 else 0]
  {
    hide Writer.BufferValid;
    w.EmitByte(i + 1);
    w.EmitByte((HSamp(m, i) * 16 + VSamp(m, i)) % 0x100);
    w.EmitByte(if i > 0 then 1 else 0);
  }

  lemma SofComponentAt(m: Subsampling, i: nat)
    requires i < 3
    ensures SofComponents(m, 0)[..3 * i + 3]
         == SofComponents(m, 0)[..3 * i] + [i + 1, 16 * HSamp(m, i) + VSamp(m, i), if i > 0 then 1 else 0]
  {
    assert SofComponents(m, 1) == [2, 17, 1] + SofComponents(m, 2);
    assert SofComponents(m, 2) == [3, 17, 1] + SofComponents(m, 3);
  }

  method EmitDht(w: Writer, h: Spec, index: nat, acFlag: bool)
    requires w.BufferValid() && WellSized(h) && index <= 1
    modifies w`outBufLeft, w`allOk, w`emitted, w.outBuf, w.stream
    ensures w.BufferValid() && Progress(w)
    ensures w.emitted == old(w.emitted) + SegmentBytes(Dht(h, if acFlag then index + 16 else index))
  {
    hide Writer.BufferValid;
    var length := 0;
    for i := 1 to 17
      invariant length == Index(h.bits, i)
    {
      length := length + h.bits[i] as int;
    }
    EmitStart(w, M_DHT, length + 2 + 1 + 16);
    w.EmitByte(if acFlag then index + 16 else index);
    EmitCounts(w, h.bits);
    ghost var start := w.emitted;
    for i := 0 to length
      invariant w.BufferValid() && Progress(w)
      invariant w.emitted == start + h.val[..i]
    {
      w.EmitByte(h.val[i]);
    }
  }

  /** The loop over the sixteen counts of emit_dht. */
  method EmitCounts(w: Writer, bits: seq<byte>)
    requires w.BufferValid() && |bits| == 17
    modifies w`outBufLeft, w`allOk, w`emitted, w.outBuf, w.stream
    ensures w.BufferValid() && Progress(w)
    ensures w.emitted == old(w.emitted) + bits[1..]
  {
    hide Writer.BufferValid;
    for i := 1 to 17
      invariant w.BufferValid() && Progress(w)
      invariant w.emitted == old(w.emitted) + bits[1..i]
    {
      w.EmitByte(bits[i]);
    }
    assert bits[1..17] == bits[1..];
  }

  method EmitSos(w: Writer, m: Subsampling)
    requires w.BufferValid()
    modifies w`outBufLeft, w`allOk, w`emitted, w.outBuf, w.stream
    ensures w.BufferValid() && Progress(w)
    ensures w.emitted == old(w.emitted) + SegmentBytes(Sos(m))
  {
    hide Writer.BufferValid, Word, SosComponents;
    var n := Components(m);
    EmitStart(w, M_SOS, 2 * n + 2 + 1 + 3);
    w.EmitByte(n);
    EmitSosComponents(w, n);
    EmitBytes(w, [0, 63, 0]);
  }

  /** The component loop of emit_sos. */
  method EmitSosComponents(w: Writer, n: nat)
    requires w.BufferValid() && (n == 1 || n == 3)
    modifies w`outBufLeft, w`allOk, w`emitted, w.outBuf, w.stream
    ensures w.BufferValid() && Progress(w)
    ensures w.emitted == old(w.emitted) + SosComponents(n)
  {
    hide Writer.BufferValid;
    for i := 0 to n
      invariant w.BufferValid() && Progress(w)
      invariant w.emitted == old(w.emitted) + SosComponents(n)[..2 * i]
    {
      w.EmitByte(i + 1);
      w.EmitByte(if i == 0 then 0x00 else 0x11);
    }
    assert SosComponents(n)[..2 * n] == SosComponents(n);
  }

  /** emit_dqt: one table, or two with colour. */
  ghost function DqtList(m: Subsampling, lum: seq<int>, chroma: seq<int>): seq<Segment>
    requires IsQuantTable(lum) && IsQuantTable(chroma)
  {
    if m.YOnly? then [Dqt(0, lum)] else [Dqt(0, lum), Dqt(1, chroma)]
  }

  method EmitDqts(w: Writer, m: Subsampling, lum: array<int32>, chroma: array<int32>)
    requires w.BufferValid()
    requires lum.Length == 64 && chroma.Length == 64 && IsQuantTable(lum[..]) && IsQuantTable(chroma[..])
    modifies w`outBufLeft, w`allOk, w`emitted, w.outBuf, w.stream
    ensures w.BufferValid() && Progress(w)
    ensures lum[..] == old(lum[..]) && chroma[..] == old(chroma[..])
    ensures w.emitted == old(w.emitted) + AllBytes(DqtList(m, lum[..], chroma[..]))
  {
    hide Writer.BufferValid, SegmentBytes, IsQuantTable, Dqt, AllBytes;
    EmitDqt(w, 0, lum);
    AllBytesOne(Dqt(0, lum[..]));
    if !m.YOnly? {
      EmitDqt(w, 1, chroma);
      AllBytesSnoc([Dqt(0, lum[..])], Dqt(1, chroma[..]));
      assert [Dqt(0, lum[..])] + [Dqt(1, chroma[..])] == DqtList(m, lum[..], chroma[..]);
    }
  }

  ghost function DhtList(k: Coders, m: Subsampling): seq<Segment>
    requires EmittableCoders(k)
  {
    if m.YOnly? then [Dht(k.luma.dc, 0x00), Dht(k.luma.ac, 0x10)]
    else [Dht(k.luma.dc, 0x00), Dht(k.luma.ac, 0x10)] + [Dht(k.chroma.dc, 0x01), Dht(k.chroma.ac, 0x11)]
  }

  /** A DC and an AC table. */
  method EmitDhtPair(w: Writer, k: Coder, index: nat)
    requires w.BufferValid() && WellSizedCoder(k) && index <= 1
    modifies w`outBufLeft, w`allOk, w`emitted, w.outBuf, w.stream
    ensures w.BufferValid() && Progress(w)
    ensures w.emitted == old(w.emitted) + AllBytes([Dht(k.dc, index), Dht(k.ac, index + 16)])
  {
    hide Writer.BufferValid, SegmentBytes, Dht, AllBytes, WellSized;
    EmitDht(w, k.dc, index, false);
    AllBytesOne(Dht(k.dc, index));
    EmitDht(w, k.ac, index, true);
    AllBytesSnoc([Dht(k.dc, index)], Dht(k.ac, index + 16));
    assert [Dht(k.dc, index)] + [Dht(k.ac, index + 16)] == [Dht(k.dc, index), Dht(k.ac, index + 16)];
  }

  /** emit_dhts. */
  method EmitDhts(w: Writer, k: Coders, m: Subsampling)
    requires w.BufferValid() && EmittableCoders(k)
    modifies w`outBufLeft, w`allOk, w`emitted, w.outBuf, w.stream
    ensures w.BufferValid() && Progress(w)
    ensures w.emitted == old(w.emitted) + AllBytes(DhtList(k, m))
  {
    hide Writer.BufferValid, Dht, AllBytes, WellSized;
    EmitDhtPair(w, k.luma, 0);
    if !m.YOnly? {
      EmitDhtPair(w, k.chroma, 1);
      AllBytesJoin([Dht(k.luma.dc, 0x00), Dht(k.luma.ac, 0x10)], [Dht(k.chroma.dc, 0x01), Dht(k.chroma.ac, 0x11)]);
    }
  }

  /** The emission part of jpg_open. */
  method EmitHeader(w: Writer, k: Coders, width: nat, height: nat, m: Subsampling, lum: array<int32>, chroma: array<int32>)
    requires w.BufferValid() && EmittableCoders(k)
    requires lum.Length == 64 && chroma.Length == 64 && IsQuantTable(lum[..]) && IsQuantTable(chroma[..])
    modifies w`outBufLeft, w`allOk, w`emitted, w.outBuf, w.stream
    ensures w.BufferValid() && Progress(w)
    ensures lum[..] == old(lum[..]) && chroma[..] == old(chroma[..])
    ensures w.emitted == old(w.emitted) + HeaderBytes(k, width, height, m, lum[..], chroma[..])
  {
    hide Writer.BufferValid, SegmentBytes, IsQuantTable, AllBytes, EmittableCoders, HeaderBytes, HeaderSegments, DqtList, DhtList, App0, Sof, Sos;
    EmitPrologue(w, m, lum, chroma);
    EmitSof(w, width, height, m);
    EmitDhts(w, k, m);
    EmitSos(w, m);
    HeaderParts(k, width, height, m, lum[..], chroma[..]);
    Regroup(old(w.emitted), [0xFF, M_SOI] + SegmentBytes(App0()) + AllBytes(DqtList(m, lum[..], chroma[..])),
            SegmentBytes(Sof(width, height, m)), AllBytes(DhtList(k, m)), SegmentBytes(Sos(m)));
  }

  lemma Regroup(e: seq<byte>, a: seq<byte>, b: seq<byte>, c: seq<byte>, d: seq<byte>)
    ensures e + a + b + c + d == e + (a + b + c + d)
  {
  }

  /** SOI, APP0 and the quantisation tables. */
  method EmitPrologue(w: Writer, m: Subsampling, lum: array<int32>, chroma: array<int32>)
    requires w.BufferValid()
    requires lum.Length == 64 && chroma.Length == 64 && IsQuantTable(lum[..]) && IsQuantTable(chroma[..])
    modifies w`outBufLeft, w`allOk, w`emitted, w.outBuf, w.stream
    ensures w.BufferValid() && Progress(w)
    ensures lum[..] == old(lum[..]) && chroma[..] == old(chroma[..])
    ensures w.emitted == old(w.emitted) + ([0xFF, M_SOI] + SegmentBytes(App0()) + AllBytes(DqtList(m, lum[..], chroma[..])))
  {
    hide Writer.BufferValid, SegmentBytes, IsQuantTable, AllBytes, DqtList;
    w.EmitMarker(M_SOI);
    EmitJfifApp0(w);
    EmitDqts(w, m, lum, chroma);
  }

  lemma HeaderParts(k: Coders, width: nat, height: nat, m: Subsampling, lum: seq<int>, chroma: seq<int>)
    requires EmittableCoders(k) && IsQuantTable(lum) && IsQuantTable(chroma)
    ensures HeaderBytes(k, width, height, m, lum, chroma)
         == [0xFF, M_SOI] + SegmentBytes(App0()) + AllBytes(DqtList(m, lum, chroma))
            + SegmentBytes(Sof(width, height, m)) + AllBytes(DhtList(k, m)) + SegmentBytes(Sos(m))
  {
    hide SegmentBytes, AllBytes, App0, Dqt, Sof, Dht, Sos, IsQuantTable, WellSized;
    var a, q, f, d := [App0()], DqtList(m, lum, chroma), [Sof(width, height, m)], DhtList(k, m);
    AllBytesOne(App0());
    AllBytesJoin(a, q);
    AllBytesSnoc(a + q, Sof(width, height, m));
    AllBytesJoin(a + q + f, d);
    AllBytesSnoc(a + q + f + d, Sos(m));
    assert HeaderSegments(k, width, height, m, lum, chroma) == a + q + f + d + [Sos(m)];
  }

  lemma AllBytesOne(s: Segment)
    ensures AllBytes([s]) == SegmentBytes(s)
  {
    hide SegmentBytes;
    assert AllBytes([s]) == SegmentBytes(s) + AllBytes([]);
  }

  lemma {:induction false} AllBytesJoin(a: seq<Segment>, b: seq<Segment>)
    ensures AllBytes(a + b) == AllBytes(a) + AllBytes(b)
  {
    hide SegmentBytes;
    if a == [] {
      assert a + b == b;
    } else {
      AllBytesJoin(a[1..], b);
      assert (a + b)[1..] == a[1..] + b;
      assert AllBytes(a + b) == SegmentBytes(a[0]) + (AllBytes(a[1..]) + AllBytes(b));
    }
  }

  lemma AllBytesSnoc(ss: seq<Segment>, s: Segment)
    ensures AllBytes(ss + [s]) == AllBytes(ss) + SegmentBytes(s)
  {
    AllBytesJoin(ss, [s]);
    AllBytesOne(s);
  }
}
