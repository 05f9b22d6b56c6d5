/** The marker segments before the scan (jpge.cpp: emit_jfif_app0, emit_dqt,
    emit_sof, emit_dht, emit_sos) and a reader of them after T.81 Annex B. */
module Headers {
  import opened Words
  import opened Huffman
  import opened Scan
  import opened Geometry

  const M_SOF0: byte := 0xC0
  const M_DHT: byte := 0xC4
  const M_SOI: byte := 0xD8
  const M_EOI: byte := 0xD9
  const M_SOS: byte := 0xDA
  const M_DQT: byte := 0xDB
  const M_APP0: byte := 0xE0

  /** A marker with its parameters, the length field left out. */
  datatype Segment = Segment(marker: byte, payload: seq<byte>)

  /** emit_word: the low 16 bits, high byte first. */
  function Word(i: nat): seq<byte> {
    [(i / 0x100) % 0x100, i % 0x100]
  }

  function U16(hi: byte, lo: byte): (v: nat)
    ensures v <= 0xFFFF
  {
    0x100 * (hi as int) + lo as int
  }

  /** A marker segment; its length counts the two length bytes. */
  function SegmentBytes(s: Segment): seq<byte> {
    [0xFF, s.marker] + Word(|s.payload| + 2) + s.payload
  }

  function AllBytes(ss: seq<Segment>): seq<byte> {
    if ss == [] then [] else SegmentBytes(ss[0]) + AllBytes(ss[1..])
  }

  // ------------------------------------------------------- what is emitted

  function App0(): Segment {
    Segment(M_APP0, [0x4A, 0x46, 0x49, 0x46, 0, 1, 1, 0] + Word(1) + Word(1) + [0, 0])
  }

  predicate IsQuantTable(q: seq<int>) {
    |q| == 64 && forall i :: 0 <= i < 64 ==> 1 <= q[i] <= 0xFF
  }

  function AsBytes(q: seq<int>): (b: seq<byte>)
    requires IsQuantTable(q)
    ensures |b| == 64 && b == q
  {
    seq(64, i requires 0 <= i < 64 => q[i])
  }

  function Dqt(i: byte, q: seq<int>): Segment
    requires IsQuantTable(q)
  {
    Segment(M_DQT, [i] + AsBytes(q))
  }

  /** Horizontal and vertical sampling factors of a component. */
  function HSamp(m: Subsampling, i: nat): nat {
    if i == 0 then McuWidth(m) / 8 else 1
  }

  function VSamp(m: Subsampling, i: nat): nat {
    if i == 0 then McuHeight(m) / 8 else 1
  }

  function SofComponents(m: Subsampling, i: nat): (b: seq<byte>)
    requires i <= 3
    ensures |b| == 3 * (3 - i)
    decreases 3 - i
  {
    if i == 3 then []
    else [i + 1, 16 * HSamp(m, i) + VSamp(m, i), if i > 0 then 1 else 0] + SofComponents(m, i + 1)
  }

  function Sof(width: nat, height: nat, m: Subsampling): Segment {
    var n := Components(m);
    Segment(M_SOF0, [8] + Word(height) + Word(width) + [n] + SofComponents(m, 0)[..3 * n])
  }

  /** The 16 counts, then the symbols in use. */
  function Dht(h: Spec, id: byte): Segment
    requires WellSized(h)
  {
    Segment(M_DHT, [id] + h.bits[1..] + h.val[..Total(h.bits)])
  }

  function SosComponents(n: nat): (b: seq<byte>)
    requires n == 1 || n == 3
    ensures |b| == 2 * n
  {
    if n == 1 then [1, 0x00] else [1, 0x00, 2, 0x11, 3, 0x11]
  }

  function Sos(m: Subsampling): Segment {
    var n := Components(m);
    Segment(M_SOS, [n] + SosComponents(n) + [0, 63, 0])
  }

  /** The symbol list is as long as the counts say. */
  predicate Emittable(h: Spec) {
    WellSized(h) && |h.val| == Total(h.bits) && h.bits[0] == 0
  }

  predicate EmittableCoders(k: Coders) {
    Emittable(k.luma.dc) && Emittable(k.luma.ac) && Emittable(k.chroma.dc) && Emittable(k.chroma.ac)
  }

  /** The segments of jpg_open in order. */
  function HeaderSegments(k: Coders, width: nat, height: nat, m: Subsampling, lum: seq<int>, chroma: seq<int>): seq<Segment>
    requires EmittableCoders(k) && IsQuantTable(lum) && IsQuantTable(chroma)
  {
    if m.YOnly? then
      [App0(), Dqt(0, lum), Sof(width, height, m), Dht(k.luma.dc, 0x00), Dht(k.luma.ac, 0x10), Sos(m)]
    else
      [App0(), Dqt(0, lum), Dqt(1, chroma), Sof(width, height, m),
       Dht(k.luma.dc, 0x00), Dht(k.luma.ac, 0x10), Dht(k.chroma.dc, 0x01), Dht(k.chroma.ac, 0x11), Sos(m)]
  }

  function HeaderBytes(k: Coders, width: nat, height: nat, m: Subsampling, lum: seq<int>, chroma: seq<int>): seq<byte>
    requires EmittableCoders(k) && IsQuantTable(lum) && IsQuantTable(chroma)
  {
    [0xFF, M_SOI] + AllBytes(HeaderSegments(k, width, height, m, lum, chroma))
  }

  // --------------------------------------------------------------- reading

  /** The marker codes of T.81 table B.1, as a reader knows them. */
  const SOF0: byte := 0xC0
  const DHT: byte := 0xC4
  const SOI: byte := 0xD8
  const EOI: byte := 0xD9
  const SOS: byte := 0xDA
  const DQT: byte := 0xDB
  const APP0: byte := 0xE0

  /** The segments up to the start of the scan, and the bytes after it. */
  function ReadSegments(b: seq<byte>): Option<(seq<Segment>, seq<byte>)>
    decreases |b|
  {
    if |b| < 4 || b[0] != 0xFF then None
    else
      var len := U16(b[2], b[3]);
      if len < 2 || |b| < 2 + len then None
      else
        var s := Segment(b[1], b[4..2 + len]);
        if s.marker == SOS then Some(([s], b[2 + len..]))
        else
          match ReadSegments(b[2 + len..])
          case None => None
          case Some((ss, rest)) => Some(([s] + ss, rest))
  }

  datatype FrameComponent = FrameComponent(id: int, h: int, v: int, quant: int)
  datatype ScanComponent = ScanComponent(id: int, dc: int, ac: int)

  /** The parameters of a JFIF file: version, unit and values of the density. */
  datatype Jfif = Jfif(major: int, minor: int, units: int, across: int, down: int)

  /** What the segments declare. */
  datatype Info = Info(
    jfif: Option<Jfif>, width: int, height: int, frame: seq<FrameComponent>,
    quant: map<int, seq<int>>, dc: map<int, Spec>, ac: map<int, Spec>, scan: seq<ScanComponent>)

  const NOTHING: Info := Info(None, 0, 0, [], map[], map[], map[], [])

  /** DQT: tables of 8-bit entries. */
  function ReadDqt(p: seq<byte>, info: Info): Option<Info>
    decreases |p|
  {
    if p == [] then Some(info)
    else if |p| < 65 || p[0] / 16 != 0 then None
    else ReadDqt(p[65..], info.(quant := info.quant[p[0] as int := p[1..65]]))
  }

  /** DHT: class and destination, 16 counts, symbols. */
  function ReadDht(p: seq<byte>, info: Info): Option<Info>
    decreases |p|
  {
    if p == [] then Some(info)
    else if |p| < 17 then None
    else
      var bits: seq<byte> := [0] + p[1..17];
      var n := Total(bits);
      if |p| < 17 + n || p[0] / 16 > 1 then None
      else
        var h := Spec(bits, p[17..17 + n]);
        var id := p[0] % 16;
        ReadDht(p[17 + n..], if p[0] / 16 == 0 then info.(dc := info.dc[id := h]) else info.(ac := info.ac[id := h]))
  }

  function ReadFrame(p: seq<byte>): Option<seq<FrameComponent>>
    decreases |p|
  {
    if p == [] then Some([])
    else if |p| < 3 then None
    else
      match ReadFrame(p[3..])
      case None => None
      case Some(cs) => Some([FrameComponent(p[0], p[1] / 16, p[1] % 16, p[2])] + cs)
  }

  function ReadScan(p: seq<byte>): Option<seq<ScanComponent>>
    decreases |p|
  {
    if p == [] then Some([])
    else if |p| < 2 then None
    else
      match ReadScan(p[2..])
      case None => None
      case Some(cs) => Some([ScanComponent(p[0], p[1] / 16, p[1] % 16)] + cs)
  }

  function ReadSof(p: seq<byte>, info: Info): Option<Info> {
    if |p| < 6 || p[0] != 8 || |p| != 6 + 3 * (p[5] as int) then None
    else
      match ReadFrame(p[6..])
      case None => None
      case Some(cs) => Some(info.(height := U16(p[1], p[2]), width := U16(p[3], p[4]), frame := cs))
  }

  function ReadSos(p: seq<byte>, info: Info): Option<Info> {
    if |p| < 1 || |p| != 4 + 2 * (p[0] as int) then None
    else
      match ReadScan(p[1..1 + 2 * (p[0] as int)])
      case None => None
      case Some(cs) =>
        if p[|p| - 3..] == [0, 63, 0] then Some(info.(scan := cs)) else None
  }

  /** The identifier "JFIF" with its zero, then the parameters. */
  function ReadApp0(p: seq<byte>, info: Info): Option<Info> {
    if |p| >= 14 && p[..5] == [0x4A, 0x46, 0x49, 0x46, 0x00] then
      Some(info.(jfif := Some(Jfif(p[5], p[6], p[7], U16(p[8], p[9]), U16(p[10], p[11])))))
    else Some(info)
  }

  function ReadSegment(s: Segment, info: Info): Option<Info> {
    if s.marker == DQT then ReadDqt(s.payload, info)
    else if s.marker == DHT then ReadDht(s.payload, info)
    else if s.marker == SOF0 then ReadSof(s.payload, info)
    else if s.marker == SOS then ReadSos(s.payload, info)
    else if s.marker == APP0 then ReadApp0(s.payload, info)
    else None
  }

  function Interpret(ss: seq<Segment>, info: Info): Option<Info> {
    if ss == [] then Some(info)
    else
      match ReadSegment(ss[0], info)
      case None => None
      case Some(next) => Interpret(ss[1..], next)
  }

  /** The declarations of a file, and its bytes from the scan on. */
  function ReadHeader(b: seq<byte>): Option<(Info, seq<byte>)> {
    if |b| < 2 || b[0] != 0xFF || b[1] != SOI then None
    else
      match ReadSegments(b[2..])
      case None => None
      case Some((ss, rest)) =>
        match Interpret(ss, NOTHING)
        case None => None
        case Some(info) => Some((info, rest))
  }

  // ------------------------------------------------------------ round trip

  lemma WordValue(i: nat)
    ensures U16(Word(i)[0], Word(i)[1]) == i % 0x1_0000
  {
  }

  /** Where the parts of a segment stand. */
  lemma SegmentParts(s: Segment, rest: seq<byte>)
    requires |s.payload| <= 0xFFFD
    ensures
      var b, len := SegmentBytes(s) + rest, |s.payload| + 2;
      && |b| == 2 + len + |rest| && b[0] == 0xFF && b[1] == s.marker && U16(b[2], b[3]) == len
      && b[4..2 + len] == s.payload && b[2 + len..] == rest
  {
    hide U16;
    var b := SegmentBytes(s) + rest;
    var w := Word(|s.payload| + 2);
    WordValue(|s.payload| + 2);
    assert b[2] == w[0] && b[3] == w[1];
  }

  lemma ReadParts(b: seq<byte>, s: Segment, rest: seq<byte>)
    requires |b| >= 4 && b[0] == 0xFF && b[1] == s.marker && U16(b[2], b[3]) == |s.payload| + 2
    requires |b| == 4 + |s.payload| + |rest| && b[4..4 + |s.payload|] == s.payload && b[4 + |s.payload|..] == rest
    ensures
      ReadSegments(b)
      == if s.marker == M_SOS then Some(([s], rest))
         else match ReadSegments(rest)
              case None => None
              case Some((ss, r)) => Some(([s] + ss, r))
  {
    hide U16;
  }

  lemma ReadOne(s: Segment, rest: seq<byte>)
    requires |s.payload| <= 0xFFFD
    ensures
      ReadSegments(SegmentBytes(s) + rest)
      == if s.marker == M_SOS then Some(([s], rest))
         else match ReadSegments(rest)
              case None => None
              case Some((ss, r)) => Some(([s] + ss, r))
  {
    hide ReadSegments, SegmentBytes, U16;
    SegmentParts(s, rest);
    ReadParts(SegmentBytes(s) + rest, s, rest);
  }

  /** Every length field says where the next marker is. */
  lemma {:induction false} SegmentsRoundTrip(ss: seq<Segment>, rest: seq<byte>)
    requires ss != [] && ss[|ss| - 1].marker == M_SOS
    requires forall i :: 0 <= i < |ss| ==> |ss[i].payload| <= 0xFFFD
    requires forall i :: 0 <= i < |ss| - 1 ==> ss[i].marker != M_SOS
    ensures ReadSegments(AllBytes(ss) + rest) == Some((ss, rest))
  {
    hide ReadSegments, SegmentBytes;
    if |ss| == 1 {
      assert AllBytes(ss) == SegmentBytes(ss[0]) + AllBytes([]);
      assert AllBytes(ss) + rest == SegmentBytes(ss[0]) + rest;
      ReadOne(ss[0], rest);
      assert ss == [ss[0]];
    } else {
      SegmentsRoundTrip(ss[1..], rest);
      assert AllBytes(ss) + rest == SegmentBytes(ss[0]) + (AllBytes(ss[1..]) + rest);
      ReadOne(ss[0], AllBytes(ss[1..]) + rest);
      assert ss == [ss[0]] + ss[1..];
    }
  }

  lemma DqtRead(i: byte, q: seq<int>, info: Info)
    requires IsQuantTable(q) && i < 16
    ensures ReadSegment(Dqt(i, q), info) == Some(info.(quant := info.quant[i as int := q]))
  {
    var p := Dqt(i, q).payload;
    assert p[1..65] == q && p[65..] == [];
    assert ReadDqt([], info.(quant := info.quant[i as int := q])) == Some(info.(quant := info.quant[i as int := q]));
  }

  lemma DhtRead(h: Spec, id: byte, info: Info)
    requires Emittable(h) && id / 16 <= 1
    ensures ReadSegment(Dht(h, id), info)
         == Some(if id / 16 == 0 then info.(dc := info.dc[id % 16 := h]) else info.(ac := info.ac[id % 16 := h]))
  {
    hide Total;
    var p := Dht(h, id).payload;
    assert [0] + p[1..17] == h.bits;
    assert p[17..17 + Total(h.bits)] == h.val;
    assert p[17 + Total(h.bits)..] == [];
    var next := if id / 16 == 0 then info.(dc := info.dc[id % 16 := h]) else info.(ac := info.ac[id % 16 := h]);
    assert ReadDht([], next) == Some(next);
    assert h == Spec(h.bits, h.val);
  }

  function FrameOf(m: Subsampling): seq<FrameComponent> {
    var luma := FrameComponent(1, HSamp(m, 0), VSamp(m, 0), 0);
    if m.YOnly? then [luma] else [luma, FrameComponent(2, 1, 1, 1), FrameComponent(3, 1, 1, 1)]
  }

  function ScanOf(m: Subsampling): seq<ScanComponent> {
    var luma := ScanComponent(1, 0, 0);
    if m.YOnly? then [luma] else [luma, ScanComponent(2, 1, 1), ScanComponent(3, 1, 1)]
  }

  lemma ReadFrameOne(p: seq<byte>, t: seq<byte>)
    requires |p| == 3
    ensures ReadFrame(p + t)
         == match ReadFrame(t)
            case None => None
            case Some(cs) => Some([FrameComponent(p[0], p[1] / 16, p[1] % 16, p[2])] + cs)
  {
    assert (p + t)[3..] == t;
  }

  /** The bytes of the luma component, and those of the chroma components. */
  function LumaBytes(m: Subsampling): seq<byte> {
    [1, 16 * HSamp(m, 0) + VSamp(m, 0), 0]
  }

  const BLUE_BYTES: seq<byte> := [2, 17, 1]
  const RED_BYTES: seq<byte> := [3, 17, 1]

  lemma SofBytesSplit(m: Subsampling)
    ensures SofComponents(m, 0) == LumaBytes(m) + (BLUE_BYTES + (RED_BYTES + []))
  {
    assert SofComponents(m, 2) == RED_BYTES + SofComponents(m, 3);
    assert SofComponents(m, 1) == BLUE_BYTES + SofComponents(m, 2);
    assert SofComponents(m, 0) == LumaBytes(m) + SofComponents(m, 1);
  }

  lemma ReadLuma(m: Subsampling, t: seq<byte>)
    requires ReadFrame(t).Some?
    ensures ReadFrame(LumaBytes(m) + t) == Some([FrameComponent(1, HSamp(m, 0), VSamp(m, 0), 0)] + ReadFrame(t).value)
  {
    hide ReadFrame;
    ReadFrameOne(LumaBytes(m), t);
  }

  lemma ReadChroma()
    ensures ReadFrame([]) == Some([])
    ensures ReadFrame(BLUE_BYTES + (RED_BYTES + []))
         == Some([FrameComponent(2, 1, 1, 1)] + ([FrameComponent(3, 1, 1, 1)] + []))
  {
    ReadFrameOne(RED_BYTES, []);
    ReadFrameOne(BLUE_BYTES, RED_BYTES + []);
  }

  lemma SofFrame(m: Subsampling)
    ensures ReadFrame(SofComponents(m, 0)[..3 * Components(m)]) == Some(FrameOf(m))
  {
    hide ReadFrame, SofComponents, HSamp, VSamp;
    SofBytesSplit(m);
    ReadChroma();
    if m.YOnly? {
      assert SofComponents(m, 0)[..3] == LumaBytes(m) + [];
      ReadLuma(m, []);
      assert FrameOf(m) == [FrameComponent(1, HSamp(m, 0), VSamp(m, 0), 0)] + [];
    } else {
      assert SofComponents(m, 0)[..9] == LumaBytes(m) + (BLUE_BYTES + (RED_BYTES + []));
      ReadLuma(m, BLUE_BYTES + (RED_BYTES + []));
      assert FrameOf(m) == [FrameComponent(1, HSamp(m, 0), VSamp(m, 0), 0)]
                           + ([FrameComponent(2, 1, 1, 1)] + ([FrameComponent(3, 1, 1, 1)] + []));
    }
  }

  lemma SofRead(width: nat, height: nat, m: Subsampling, info: Info)
    ensures ReadSegment(Sof(width, height, m), info)
         == Some(info.(height := height % 0x1_0000, width := width % 0x1_0000, frame := FrameOf(m)))
  {
    hide SofComponents, FrameOf, ReadFrame;
    var p := Sof(width, height, m).payload;
    var n := Components(m);
    WordValue(width);
    WordValue(height);
    assert p[0] == 8 && p[1] == Word(height)[0] && p[2] == Word(height)[1];
    assert p[3] == Word(width)[0] && p[4] == Word(width)[1] && p[5] == n;
    assert p[6..] == SofComponents(m, 0)[..3 * n];
    SofFrame(m);
  }

  lemma ReadScanOne(p: seq<byte>, t: seq<byte>)
    requires |p| == 2
    ensures ReadScan(p + t)
         == match ReadScan(t)
            case None => None
            case Some(cs) => Some([ScanComponent(p[0], p[1] / 16, p[1] % 16)] + cs)
  {
    assert (p + t)[2..] == t;
  }

  lemma SosRead(m: Subsampling, info: Info)
    ensures ReadSegment(Sos(m), info) == Some(info.(scan := ScanOf(m)))
  {
    var p := Sos(m).payload;
    var n := Components(m);
    assert p[1..1 + 2 * n] == SosComponents(n);
    assert p[|p| - 3..] == [0, 63, 0];
    ReadScanOne([3, 0x11], []);
    ReadScanOne([2, 0x11], [3, 0x11] + []);
    ReadScanOne([1, 0x00], [2, 0x11] + ([3, 0x11] + []));
    ReadScanOne([1, 0x00], []);
    assert ReadScan([]) == Some([]);
    var c0, c1, c2 := ScanComponent(1, 0, 0), ScanComponent(2, 1, 1), ScanComponent(3, 1, 1);
    if n == 1 {
      assert SosComponents(n) == [1, 0x00] + [];
      assert ScanOf(m) == [c0] + [];
    } else {
      assert SosComponents(n) == [1, 0x00] + ([2, 0x11] + ([3, 0x11] + []));
      assert ScanOf(m) == [c0] + ([c1] + ([c2] + []));
    }
  }

  /** Version 1.01, no unit, square pixels. */
  const JFIF_1_01: Option<Jfif> := Some(Jfif(1, 1, 0, 1, 1))

  /** What is known after the APP0 segment. */
  const STARTED: Info := NOTHING.(jfif := JFIF_1_01)

  /** The declarations that a decoder gets. */
  function HeaderInfo(k: Coders, width: nat, height: nat, m: Subsampling, lum: seq<int>, chroma: seq<int>): Info {
    if m.YOnly? then
      Info(JFIF_1_01, width, height, FrameOf(m), map[0 := lum], map[0 := k.luma.dc], map[0 := k.luma.ac], ScanOf(m))
    else
      Info(JFIF_1_01, width, height, FrameOf(m), map[0 := lum, 1 := chroma],
           map[0 := k.luma.dc, 1 := k.chroma.dc], map[0 := k.luma.ac, 1 := k.chroma.ac], ScanOf(m))
  }

  lemma InterpretOne(s: Segment, t: seq<Segment>, info: Info)
    ensures Interpret([s] + t, info)
         == match ReadSegment(s, info)
            case None => None
            case Some(next) => Interpret(t, next)
  {
    hide ReadSegment;
    assert ([s] + t)[1..] == t;
  }

  /** Interpreting the list of segments that jpg_open emits. */
  lemma HeaderInterprets(k: Coders, width: nat, height: nat, m: Subsampling, lum: seq<int>, chroma: seq<int>)
    requires EmittableCoders(k) && IsQuantTable(lum) && IsQuantTable(chroma)
    ensures Interpret(HeaderSegments(k, width, height, m, lum, chroma), NOTHING)
         == Some(HeaderInfo(k, width % 0x1_0000, height % 0x1_0000, m, lum, chroma))
  {
    if m.YOnly? {
      GreyInterprets(k, width, height, m, lum, chroma);
    } else {
      ColourInterprets(k, width, height, m, lum, chroma);
    }
  }

  lemma GreyInterprets(k: Coders, width: nat, height: nat, m: Subsampling, lum: seq<int>, chroma: seq<int>)
    requires EmittableCoders(k) && IsQuantTable(lum) && IsQuantTable(chroma) && m.YOnly?
    ensures Interpret(HeaderSegments(k, width, height, m, lum, chroma), NOTHING)
         == Some(HeaderInfo(k, width % 0x1_0000, height % 0x1_0000, m, lum, chroma))
  {
    var w, h := width % 0x1_0000, height % 0x1_0000;
    App0Read(NOTHING);
    hide ReadSegment, Interpret, App0, Dqt, Sof, Dht, Sos, FrameOf, ScanOf;
    var i0 := STARTED;
    var i1 := i0.(quant := map[0 := lum]);
    var i2 := i1.(height := h, width := w, frame := FrameOf(m));
    var i3 := i2.(dc := map[0 := k.luma.dc]);
    var i4 := i3.(ac := map[0 := k.luma.ac]);
    var i5 := i4.(scan := ScanOf(m));
    DqtRead(0, lum, i0);
    SofRead(width, height, m, i1);
    DhtRead(k.luma.dc, 0x00, i2);
    DhtRead(k.luma.ac, 0x10, i3);
    SosRead(m, i4);
    var s5: seq<Segment> := [Sos(m)] + [];
    var s4 := [Dht(k.luma.ac, 0x10)] + s5;
    var s3 := [Dht(k.luma.dc, 0x00)] + s4;
    var s2 := [Sof(width, height, m)] + s3;
    var s1 := [Dqt(0, lum)] + s2;
    var s0 := [App0()] + s1;
    assert HeaderSegments(k, width, height, m, lum, chroma) == s0;
    InterpretOne(App0(), s1, NOTHING);
    InterpretOne(Dqt(0, lum), s2, i0);
    InterpretOne(Sof(width, height, m), s3, i1);
    InterpretOne(Dht(k.luma.dc, 0x00), s4, i2);
    InterpretOne(Dht(k.luma.ac, 0x10), s5, i3);
    InterpretOne(Sos(m), [], i4);
    InterpretNone(i5);
  }

  lemma InterpretNone(info: Info)
    ensures Interpret([], info) == Some(info)
  {
  }

  lemma App0Read(info: Info)
    ensures ReadSegment(App0(), info) == Some(info.(jfif := JFIF_1_01))
  {
    hide ReadDqt, ReadDht, ReadSof, ReadSos, ReadApp0;
    App0Payload(info);
  }

  lemma App0Payload(info: Info)
    ensures ReadApp0(App0().payload, info) == Some(info.(jfif := JFIF_1_01))
  {
    App0Bytes();
    var head: seq<byte> := [0x4A, 0x46, 0x49, 0x46, 0x00];
    var tail: seq<byte> := [1, 1, 0, 0, 1, 0, 1, 0, 0];
    assert (head + tail)[..5] == head;
    hide App0;
  }

  lemma App0Bytes()
    ensures App0().payload == [0x4A, 0x46, 0x49, 0x46, 0x00] + [1, 1, 0, 0, 1, 0, 1, 0, 0]
  {
    assert Word(1) == [0, 1];
  }

  lemma ColourInterprets(k: Coders, width: nat, height: nat, m: Subsampling, lum: seq<int>, chroma: seq<int>)
    requires EmittableCoders(k) && IsQuantTable(lum) && IsQuantTable(chroma) && !m.YOnly?
    ensures Interpret(HeaderSegments(k, width, height, m, lum, chroma), NOTHING)
         == Some(HeaderInfo(k, width % 0x1_0000, height % 0x1_0000, m, lum, chroma))
  {
    hide ReadSegment, Interpret, App0, Dqt, Sof, Dht, Sos, FrameOf, ScanOf;
    var w, h := width % 0x1_0000, height % 0x1_0000;
    var i3 := STARTED.(quant := map[0 := lum, 1 := chroma], height := h, width := w, frame := FrameOf(m));
    var i4 := i3.(dc := map[0 := k.luma.dc]);
    var i5 := i4.(ac := map[0 := k.luma.ac]);
    DhtRead(k.luma.dc, 0x00, i3);
    DhtRead(k.luma.ac, 0x10, i4);
    var t := [Dht(k.chroma.dc, 0x01), Dht(k.chroma.ac, 0x11), Sos(m)];
    var s5 := [Dht(k.luma.ac, 0x10)] + t;
    var s4 := [Dht(k.luma.dc, 0x00)] + s5;
    assert HeaderSegments(k, width, height, m, lum, chroma)
        == [App0()] + ([Dqt(0, lum)] + ([Dqt(1, chroma)] + ([Sof(width, height, m)] + s4)));
    FrontInterprets(width, height, m, lum, chroma, s4);
    InterpretOne(Dht(k.luma.dc, 0x00), s5, i3);
    InterpretOne(Dht(k.luma.ac, 0x10), t, i4);
    ChromaInterprets(k, m, i5);
  }

  /** The segments before the Huffman tables of a colour image. */
  lemma FrontInterprets(width: nat, height: nat, m: Subsampling, lum: seq<int>, chroma: seq<int>, t: seq<Segment>)
    requires IsQuantTable(lum) && IsQuantTable(chroma)
    ensures Interpret([App0()] + ([Dqt(0, lum)] + ([Dqt(1, chroma)] + ([Sof(width, height, m)] + t))), NOTHING)
         == Interpret(t, STARTED.(quant := map[0 := lum, 1 := chroma], height := height % 0x1_0000,
                                  width := width % 0x1_0000, frame := FrameOf(m)))
  {
    App0Read(NOTHING);
    hide ReadSegment, Interpret, App0, Dqt, Sof, FrameOf;
    var i1 := STARTED.(quant := map[0 := lum]);
    var i2 := i1.(quant := map[0 := lum, 1 := chroma]);
    DqtRead(0, lum, STARTED);
    DqtRead(1, chroma, i1);
    SofRead(width, height, m, i2);
    var s3 := [Sof(width, height, m)] + t;
    var s2 := [Dqt(1, chroma)] + s3;
    var s1 := [Dqt(0, lum)] + s2;
    InterpretOne(App0(), s1, NOTHING);
    InterpretOne(Dqt(0, lum), s2, STARTED);
    InterpretOne(Dqt(1, chroma), s3, i1);
    InterpretOne(Sof(width, height, m), t, i2);
  }

  lemma ChromaInterprets(k: Coders, m: Subsampling, info: Info)
    requires EmittableCoders(k) && info.dc == map[0 := k.luma.dc] && info.ac == map[0 := k.luma.ac]
    ensures Interpret([Dht(k.chroma.dc, 0x01), Dht(k.chroma.ac, 0x11), Sos(m)], info)
         == Some(info.(dc := map[0 := k.luma.dc, 1 := k.chroma.dc], ac := map[0 := k.luma.ac, 1 := k.chroma.ac], scan := ScanOf(m)))
  {
    hide ReadSegment, Interpret, Dht, Sos, ScanOf;
    DhtRead(k.chroma.dc, 0x01, info);
    var i1 := info.(dc := map[0 := k.luma.dc, 1 := k.chroma.dc]);
    DhtRead(k.chroma.ac, 0x11, i1);
    var i2 := i1.(ac := map[0 := k.luma.ac, 1 := k.chroma.ac]);
    SosRead(m, i2);
    var s2: seq<Segment> := [Sos(m)] + [];
    var s1 := [Dht(k.chroma.ac, 0x11)] + s2;
    assert [Dht(k.chroma.dc, 0x01), Dht(k.chroma.ac, 0x11), Sos(m)] == [Dht(k.chroma.dc, 0x01)] + s1;
    InterpretOne(Dht(k.chroma.dc, 0x01), s1, info);
    InterpretOne(Dht(k.chroma.ac, 0x11), s2, i1);
    InterpretOne(Sos(m), [], i2);
    InterpretNone(i2.(scan := ScanOf(m)));
  }

  lemma PayloadsFit(k: Coders, width: nat, height: nat, m: Subsampling, lum: seq<int>, chroma: seq<int>)
    requires EmittableCoders(k) && IsQuantTable(lum) && IsQuantTable(chroma)
    ensures
      var ss := HeaderSegments(k, width, height, m, lum, chroma);
      && ss != [] && ss[|ss| - 1].marker == M_SOS
      && (forall i :: 0 <= i < |ss| ==> |ss[i].payload| <= 0xFFFD)
      && forall i :: 0 <= i < |ss| - 1 ==> ss[i].marker != M_SOS
  {
    hide Total, SofComponents;
  }

  /** A reader of the header bytes recovers the dimensions modulo 2^16, the
      sampling factors, the tables and the Huffman specifications. */
  lemma HeaderRoundTrip(k: Coders, width: nat, height: nat, m: Subsampling, lum: seq<int>, chroma: seq<int>, rest: seq<byte>)
    requires EmittableCoders(k) && IsQuantTable(lum) && IsQuantTable(chroma)
    ensures ReadHeader(HeaderBytes(k, width, height, m, lum, chroma) + rest)
         == Some((HeaderInfo(k, width % 0x1_0000, height % 0x1_0000, m, lum, chroma), rest))
  {
    hide HeaderSegments, Interpret, ReadSegments, AllBytes, HeaderInfo;
    var ss := HeaderSegments(k, width, height, m, lum, chroma);
    PayloadsFit(k, width, height, m, lum, chroma);
    SegmentsRoundTrip(ss, rest);
    HeaderInterprets(k, width, height, m, lum, chroma);
    assert (HeaderBytes(k, width, height, m, lum, chroma) + rest)[2..] == AllBytes(ss) + rest;
  }

  lemma InfoKeepsSize(k: Coders, w: nat, h: nat, width: nat, height: nat, m: Subsampling, lum: seq<int>, chroma: seq<int>)
    ensures HeaderInfo(k, w, h, m, lum, chroma) == HeaderInfo(k, width, height, m, lum, chroma)
      <==> w == width && h == height
  {
    hide FrameOf, ScanOf;
  }

  /** The dimensions survive exactly when they fit in 16 bits. */
  lemma DimensionsSurvive(k: Coders, width: nat, height: nat, m: Subsampling, lum: seq<int>, chroma: seq<int>, rest: seq<byte>)
    requires EmittableCoders(k) && IsQuantTable(lum) && IsQuantTable(chroma)
    ensures ReadHeader(HeaderBytes(k, width, height, m, lum, chroma) + rest)
         == Some((HeaderInfo(k, width, height, m, lum, chroma), rest))
      <==> width <= 0xFFFF && height <= 0xFFFF
  {
    hide ReadHeader, HeaderBytes, HeaderInfo, EmittableCoders, IsQuantTable;
    HeaderRoundTrip(k, width, height, m, lum, chroma, rest);
    InfoKeepsSize(k, width % 0x1_0000, height % 0x1_0000, width, height, m, lum, chroma);
  }
}
