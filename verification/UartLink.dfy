/** The serial camera link: the printer of JPEG frames (uart_service.c,
    uart_sink_handler) and the parser that finds them again in the byte stream
    (camera_uart_test.py, main). The checksum is any function of the payload. */
module UartLink {
  import opened Words

  const MAGIC: seq<byte> := [0xA5, 0xA5, 0xA5, 0xA5]
  const HEADER_SIZE := 16
  const BUFFER_LIMIT := 2 * 1024 * 1024
  const MAX_LENGTH := 1024 * 1024
  const KEPT := 1024

  // ---------------------------------------------------------------- printer

  /** camera_fb_t; the handler truncates width and height to 16 bits. */
  datatype Picture = Picture(width: nat, height: nat, data: seq<byte>)

  function Bytes16(n: nat): (b: seq<byte>)
    ensures |b| == 2
  {
    [n % 0x100, n / 0x100 % 0x100]
  }

  function Bytes32(n: nat): (b: seq<byte>)
    ensures |b| == 4
  {
    [n % 0x100, n / 0x100 % 0x100, n / 0x1_0000 % 0x100, n / 0x100_0000 % 0x100]
  }

  function Value32(b: seq<byte>): (n: nat)
    requires |b| == 4
    ensures n < 0x1_0000_0000
  {
    b[0] as int + 0x100 * b[1] as int + 0x1_0000 * b[2] as int + 0x100_0000 * b[3] as int
  }

  lemma Value32OfBytes(n: nat)
    requires n < 0x1_0000_0000
    ensures Value32(Bytes32(n)) == n
  {
    var a, b, c := n / 0x100, n / 0x1_0000, n / 0x100_0000;
    assert n == 0x100 * a + n % 0x100 && a == 0x100 * b + a % 0x100 && b == 0x100 * c + b % 0x100;
    assert b == a / 0x100 && c == b / 0x100;
  }

  /** The packed header with any checksum. */
  function HeaderWith(p: Picture, sum: uint32): (h: seq<byte>)
    ensures |h| == HEADER_SIZE
  {
    MAGIC + Bytes16(p.width) + Bytes16(p.height) + Bytes32(|p.data|) + Bytes32(sum)
  }

  /** What uart_sink_handler writes for a picture. */
  function Header(crc: seq<byte> -> uint32, p: Picture): (h: seq<byte>)
    ensures |h| == HEADER_SIZE
  {
    HeaderWith(p, crc(p.data))
  }

  function Value16(b: seq<byte>): (n: nat)
    requires |b| == 2
  {
    b[0] as int + 0x100 * b[1] as int
  }

  /** struct.unpack of "<IHHII". */
  datatype Unpacked = Unpacked(magic: nat, width: nat, height: nat, length: nat, sum: nat)

  function Unpack(h: seq<byte>): Unpacked
    requires |h| == HEADER_SIZE
  {
    Unpacked(Value32(h[0..4]), Value16(h[4..6]), Value16(h[6..8]), Value32(h[8..12]), Value32(h[12..16]))
  }

  lemma Value16OfBytes(n: nat)
    ensures Value16(Bytes16(n)) == n % 0x1_0000
  {
    var a := n / 0x100;
    assert n == 0x100 * a + n % 0x100 && a == 0x100 * (a / 0x100) + a % 0x100;
    DivModUnique(n, 0x1_0000, a / 0x100, n % 0x100 + 0x100 * (a % 0x100));
  }

  /** The parser unpacks what the handler packed: the width, then the height, both
      modulo 2^16, the length and the checksum. */
  lemma UnpackHeader(p: Picture, sum: uint32)
    requires |p.data| < 0x1_0000_0000
    ensures Unpack(HeaderWith(p, sum))
         == Unpacked(0xA5A5_A5A5, p.width % 0x1_0000, p.height % 0x1_0000, |p.data|, sum)
  {
    hide Bytes32, Bytes16, Value32, Value16;
    var h := HeaderWith(p, sum);
    assert h[4..6] == Bytes16(p.width) && h[6..8] == Bytes16(p.height);
    assert h[8..12] == Bytes32(|p.data|) && h[12..16] == Bytes32(sum);
    assert h[0..4] == MAGIC;
    MagicValue();
    Value16OfBytes(p.width);
    Value16OfBytes(p.height);
    Value32OfBytes(|p.data|);
    Value32OfBytes(sum);
  }

  lemma MagicValue()
    ensures Value32(MAGIC) == 0xA5A5_A5A5
  {
  }

  function Print(crc: seq<byte> -> uint32, p: Picture): (s: seq<byte>)
    ensures |s| == HEADER_SIZE + |p.data|
  {
    Header(crc, p) + p.data
  }

  /** The serial port: everything written to it. */
  class Uart {
    var written: seq<byte>

    constructor ()
      ensures written == []
    {
      written := [];
    }

    method WriteBytes(data: seq<byte>)
      modifies this
      ensures written == old(written) + data
    {
      written := written + data;
    }

    /** The JPEG branch of uart_sink_handler: header, then payload. */
    method SinkPicture(crc: seq<byte> -> uint32, p: Picture)
      modifies this
      ensures written == old(written) + Print(crc, p)
    {
      var sum := crc(p.data);
      var hdr := MAGIC + Bytes16(p.width) + Bytes16(p.height) + Bytes32(|p.data|) + Bytes32(sum);
      WriteBytes(hdr);
      WriteBytes(p.data);
    }
  }

  // ----------------------------------------------------------------- parser

  predicate MagicAt(s: seq<byte>, i: nat) {
    i + 4 <= |s| && s[i] == 0xA5 && s[i + 1] == 0xA5 && s[i + 2] == 0xA5 && s[i + 3] == 0xA5
  }

  /** buffer.find(MAGIC). */
  function Find(s: seq<byte>): (r: Option<nat>)
    ensures r.Some? ==> MagicAt(s, r.value) && forall k: nat :: k < r.value ==> !MagicAt(s, k)
    ensures r.None? ==> forall k: nat :: !MagicAt(s, k)
  {
    if |s| < 4 then None
    else if s[0] == 0xA5 && s[1] == 0xA5 && s[2] == 0xA5 && s[3] == 0xA5 then Some(0)
    else
      var r := Find(s[1..]);
      assert forall k: nat :: k > 0 ==> (MagicAt(s, k) <==> MagicAt(s[1..], k - 1));
      if r.None? then None else Some(r.value + 1)
  }

  /** A frame found: its number, its payload, and whether the checksum agrees. */
  datatype Found = Found(id: nat, data: seq<byte>, good: bool)

  /** What the parser does with the front of its buffer. */
  datatype Verdict =
    | NeedMore
    | Skip(n: nat)
    | Deliver(n: nat, data: seq<byte>, good: bool)

  /** One round of the inner loop. */
  function Inspect(crc: seq<byte> -> uint32, s: seq<byte>): (v: Verdict)
    ensures !v.NeedMore? ==> 0 < v.n <= |s|
  {
    match Find(s)
    case None => NeedMore
    case Some(i) =>
      if |s| < i + HEADER_SIZE then NeedMore
      else
        var length := Value32(s[i + 8..i + 12]);
        if length > MAX_LENGTH then Skip(i + 1)
        else if |s| < i + HEADER_SIZE + length then NeedMore
        else
          var data := s[i + HEADER_SIZE..i + HEADER_SIZE + length];
          Deliver(i + HEADER_SIZE + length, data, crc(data) == Value32(s[i + 12..i + 16]))
  }

  /** All that can be found in s, and what is left of it. */
  function Parse(crc: seq<byte> -> uint32, s: seq<byte>, id: nat): (seq<Found>, seq<byte>)
    decreases |s|
  {
    match Inspect(crc, s)
    case NeedMore => ([], s)
    case Skip(n) => Parse(crc, s[n..], id)
    case Deliver(n, data, good) =>
      var (found, rest) := Parse(crc, s[n..], id + 1);
      ([Found(id, data, good)] + found, rest)
  }

  /** More bytes do not change a verdict once it is given. */
  lemma InspectStable(crc: seq<byte> -> uint32, s: seq<byte>, t: seq<byte>)
    requires !Inspect(crc, s).NeedMore?
    ensures Inspect(crc, s + t) == Inspect(crc, s)
  {
    var i := Find(s).value;
    FindStable(s, t);
    assert (s + t)[i + 8..i + 12] == s[i + 8..i + 12];
    assert (s + t)[i + 12..i + 16] == s[i + 12..i + 16];
    var length := Value32(s[i + 8..i + 12]);
    if length <= MAX_LENGTH {
      assert (s + t)[i + HEADER_SIZE..i + HEADER_SIZE + length] == s[i + HEADER_SIZE..i + HEADER_SIZE + length];
    }
  }

  lemma FindStable(s: seq<byte>, t: seq<byte>)
    requires Find(s).Some?
    ensures Find(s + t) == Find(s)
  {
    var i := Find(s).value;
    assert MagicAt(s + t, i);
    forall k: nat | k < i
      ensures !MagicAt(s + t, k)
    {
      assert !MagicAt(s, k);
      assert k + 4 <= |s|;
    }
  }

  /** Chunk independence, one cut: parsing the first part and then what is left
      together with the second part finds the same frames. */
  lemma {:induction false} ParseSplit(crc: seq<byte> -> uint32, s: seq<byte>, t: seq<byte>, id: nat)
    ensures
      var (found, rest) := Parse(crc, s, id);
      var (more, last) := Parse(crc, rest + t, id + |found|);
      Parse(crc, s + t, id) == (found + more, last)
    decreases |s|
  {
    hide Inspect;
    match Inspect(crc, s)
    case NeedMore =>
      assert [] + Parse(crc, s + t, id).0 == Parse(crc, s + t, id).0;
    case Skip(n) =>
      InspectStable(crc, s, t);
      assert (s + t)[n..] == s[n..] + t;
      ParseSplit(crc, s[n..], t, id);
    case Deliver(n, data, good) =>
      InspectStable(crc, s, t);
      assert (s + t)[n..] == s[n..] + t;
      ParseSplit(crc, s[n..], t, id + 1);
      var (found, rest) := Parse(crc, s[n..], id + 1);
      var (more, last) := Parse(crc, rest + t, id + 1 + |found|);
      assert [Found(id, data, good)] + (found + more) == ([Found(id, data, good)] + found) + more;
  }

  // ----------------------------------------------------- the parser's loop

  function Trim(buffer: seq<byte>): seq<byte> {
    if |buffer| > BUFFER_LIMIT then buffer[|buffer| - KEPT..] else buffer
  }

  function Prepend(done: seq<Found>, r: (seq<Found>, seq<byte>)): (seq<Found>, seq<byte>) {
    (done + r.0, r.1)
  }

  /** The inner loop against Parse: what one round leaves to do. */
  lemma ParseUnfolds(crc: seq<byte> -> uint32, s: seq<byte>, id: nat, done: seq<Found>)
    ensures
      match Inspect(crc, s)
      case NeedMore => Prepend(done, Parse(crc, s, id)) == (done, s)
      case Skip(n) => Parse(crc, s, id) == Parse(crc, s[n..], id)
      case Deliver(n, data, good) =>
        Prepend(done, Parse(crc, s, id)) == Prepend(done + [Found(id, data, good)], Parse(crc, s[n..], id + 1))
  {
    hide Inspect;
    match Inspect(crc, s)
    case NeedMore =>
      assert done + [] == done;
    case Skip(_) =>
    case Deliver(n, data, good) =>
      var later := Parse(crc, s[n..], id + 1).0;
      assert done + ([Found(id, data, good)] + later) == (done + [Found(id, data, good)]) + later;
  }

  /** The variables of main, and the frames found so far. */
  class Receiver {
    var buffer: seq<byte>
    var frameId: nat
    var found: seq<Found>

    constructor ()
      ensures buffer == [] && frameId == 0 && found == []
    {
      buffer, frameId, found := [], 0, [];
    }

    /** The inner loop. */
    method Drain(crc: seq<byte> -> uint32)
      modifies this
      ensures (found, buffer) == Prepend(old(found), Parse(crc, old(buffer), old(frameId)))
      ensures frameId - old(frameId) == |found| - |old(found)|
    {
      hide Parse, Find, Value32;
      ghost var start, id0 := buffer, frameId;
      while true
        invariant frameId - id0 == |found| - |old(found)|
        invariant Prepend(old(found), Parse(crc, start, id0)) == Prepend(found, Parse(crc, buffer, frameId))
        decreases |buffer|
      {
        ParseUnfolds(crc, buffer, frameId, found);
        var idx := Find(buffer);
        if idx.None? {
          break;
        }
        var i := idx.value;
        if |buffer| < i + HEADER_SIZE {
          break;
        }
        var length := Value32(buffer[i + 8..i + 12]);
        if length > MAX_LENGTH {
          buffer := buffer[i + 1..];
          continue;
        }
        var total := HEADER_SIZE + length;
        if |buffer| < i + total {
          break;
        }
        var data := buffer[i + HEADER_SIZE..i + total];
        var good := crc(data) == Value32(buffer[i + 12..i + 16]);
        found := found + [Found(frameId, data, good)];
        buffer := buffer[i + total..];
        frameId := frameId + 1;
      }
    }

    /** The body of the outer loop; chunk is empty when the read timed out. */
    method OnChunk(crc: seq<byte> -> uint32, chunk: seq<byte>)
      modifies this
      ensures found == old(found) + Parse(crc, old(buffer) + chunk, old(frameId)).0
      ensures frameId == old(frameId) + |Parse(crc, old(buffer) + chunk, old(frameId)).0|
      ensures buffer == Trim(Parse(crc, old(buffer) + chunk, old(frameId)).1)
    {
      hide Parse;
      if chunk != [] {
        buffer := buffer + chunk;
      }
      assert buffer == old(buffer) + chunk;
      Drain(crc);
      if |buffer| > BUFFER_LIMIT {
        buffer := buffer[|buffer| - KEPT..];
      }
    }
  }

  // ------------------------------------------------------------- whole runs

  function Concat(chunks: seq<seq<byte>>): seq<byte> {
    if chunks == [] then [] else chunks[0] + Concat(chunks[1..])
  }

  /** What Receiver does with a list of chunks: the frames, and the buffer. */
  function Receive(crc: seq<byte> -> uint32, buffer: seq<byte>, id: nat, chunks: seq<seq<byte>>): (seq<Found>, seq<byte>)
    decreases chunks
  {
    if chunks == [] then ([], buffer)
    else
      var (found, rest) := Parse(crc, buffer + chunks[0], id);
      var (more, last) := Receive(crc, Trim(rest), id + |found|, chunks[1..]);
      (found + more, last)
  }

  /** The outer loop of main, over the chunks that were read. */
  method Listen(crc: seq<byte> -> uint32, chunks: seq<seq<byte>>) returns (r: Receiver)
    ensures fresh(r) && (r.found, r.buffer) == Receive(crc, [], 0, chunks)
  {
    hide Parse, Receive;
    r := new Receiver();
    assert chunks[0..] == chunks;
    assert [] + Receive(crc, [], 0, chunks).0 == Receive(crc, [], 0, chunks).0;
    for i := 0 to |chunks|
      invariant fresh(r) && Prepend(r.found, Receive(crc, r.buffer, r.frameId, chunks[i..])) == Receive(crc, [], 0, chunks)
    {
      ReceiveStep(crc, r.buffer, r.frameId, chunks[i..], r.found);
      assert chunks[i..][1..] == chunks[i + 1..];
      r.OnChunk(crc, chunks[i]);
    }
    assert chunks[|chunks|..] == [];
    ReceiveEnd(crc, r.buffer, r.frameId, r.found);
  }

  lemma ReceiveStep(crc: seq<byte> -> uint32, buffer: seq<byte>, id: nat, chunks: seq<seq<byte>>, done: seq<Found>)
    requires chunks != []
    ensures
      var (found, rest) := Parse(crc, buffer + chunks[0], id);
      Prepend(done, Receive(crc, buffer, id, chunks))
      == Prepend(done + found, Receive(crc, Trim(rest), id + |found|, chunks[1..]))
  {
    hide Parse;
    var (found, rest) := Parse(crc, buffer + chunks[0], id);
    var more := Receive(crc, Trim(rest), id + |found|, chunks[1..]).0;
    assert done + (found + more) == (done + found) + more;
  }

  lemma ReceiveEnd(crc: seq<byte> -> uint32, buffer: seq<byte>, id: nat, done: seq<Found>)
    ensures Prepend(done, Receive(crc, buffer, id, [])) == (done, buffer)
  {
    assert done + [] == done;
  }

  /** Trimming is not needed after any chunk. */
  predicate NeverTrims(crc: seq<byte> -> uint32, buffer: seq<byte>, id: nat, chunks: seq<seq<byte>>)
    decreases chunks
  {
    chunks != [] ==>
      var (found, rest) := Parse(crc, buffer + chunks[0], id);
      |rest| <= BUFFER_LIMIT && NeverTrims(crc, rest, id + |found|, chunks[1..])
  }

  /** A buffer in which nothing more can be found. */
  predicate Settled(crc: seq<byte> -> uint32, buffer: seq<byte>) {
    Inspect(crc, buffer).NeedMore?
  }

  lemma {:induction false} ParseSettles(crc: seq<byte> -> uint32, s: seq<byte>, id: nat)
    ensures Settled(crc, Parse(crc, s, id).1)
    decreases |s|
  {
    hide Inspect;
    match Inspect(crc, s)
    case NeedMore =>
    case Skip(n) => ParseSettles(crc, s[n..], id);
    case Deliver(n, _, _) => ParseSettles(crc, s[n..], id + 1);
  }

  /** Chunk independence: however the bytes are cut into chunks, the frames
      found are those of the whole byte string. */
  lemma {:induction false} ChunkIndependence(crc: seq<byte> -> uint32, buffer: seq<byte>, id: nat, chunks: seq<seq<byte>>)
    requires Settled(crc, buffer) && NeverTrims(crc, buffer, id, chunks)
    ensures Receive(crc, buffer, id, chunks) == Parse(crc, buffer + Concat(chunks), id)
    decreases chunks
  {
    hide Inspect;
    if chunks == [] {
      assert buffer + Concat(chunks) == buffer;
    } else {
      var (found, rest) := Parse(crc, buffer + chunks[0], id);
      ParseSettles(crc, buffer + chunks[0], id);
      ChunkIndependence(crc, rest, id + |found|, chunks[1..]);
      ParseSplit(crc, buffer + chunks[0], Concat(chunks[1..]), id);
      assert buffer + Concat(chunks) == (buffer + chunks[0]) + Concat(chunks[1..]);
    }
  }

  // --------------------------------------------------- printer, then parser

  /** Console text, then a picture. */
  datatype Piece = Piece(text: seq<byte>, picture: Picture)

  predicate NoMagic(text: seq<byte>) {
    forall k :: 0 <= k < |text| ==> !MagicAt(text, k)
  }

  /** Text after which the parser finds the next magic: other bytes of the value
      0xA5 do not matter. */
  predicate Plain(text: seq<byte>) {
    NoMagic(text) && (text != [] ==> text[|text| - 1] != 0xA5)
  }

  function Stream(crc: seq<byte> -> uint32, pieces: seq<Piece>): seq<byte> {
    if pieces == [] then []
    else pieces[0].text + Print(crc, pieces[0].picture) + Stream(crc, pieces[1..])
  }

  function Pictures(pieces: seq<Piece>, id: nat): seq<Found> {
    if pieces == [] then [] else [Found(id, pieces[0].picture.data, true)] + Pictures(pieces[1..], id + 1)
  }

  predicate GoodPiece(p: Piece) {
    Plain(p.text) && |p.picture.data| <= MAX_LENGTH
  }

  /** The text and the frame fit into the buffer together, but for one byte. */
  predicate SmallPiece(p: Piece) {
    |p.text| + HEADER_SIZE + |p.picture.data| - 1 <= BUFFER_LIMIT
  }

  /** Plain text hides no magic, and none starts in it. */
  lemma FindAfterText(text: seq<byte>, s: seq<byte>)
    requires Plain(text)
    ensures forall k: nat :: k < |text| ==> !MagicAt(text + s, k)
  {
    forall k: nat | k < |text|
      ensures !MagicAt(text + s, k)
    {
      if k + 4 <= |text| {
        assert !MagicAt(text, k);
      } else {
        assert (text + s)[|text| - 1] == text[|text| - 1];
      }
    }
  }

  lemma HeaderFields(p: Picture, sum: uint32)
    requires |p.data| < 0x1_0000_0000
    ensures MagicAt(HeaderWith(p, sum), 0)
    ensures Value32(HeaderWith(p, sum)[8..12]) == |p.data| && Value32(HeaderWith(p, sum)[12..16]) == sum
  {
    hide Bytes32, Bytes16, Value32, Value16;
    UnpackHeader(p, sum);
  }

  /** Where the fields of a frame stand in a stream. */
  lemma FrameAt(text: seq<byte>, p: Picture, sum: uint32, t: seq<byte>)
    requires |p.data| < 0x1_0000_0000
    ensures
      var s, i := text + (HeaderWith(p, sum) + p.data) + t, |text|;
      && |s| == i + HEADER_SIZE + |p.data| + |t| && MagicAt(s, i)
      && Value32(s[i + 8..i + 12]) == |p.data| && Value32(s[i + 12..i + 16]) == sum
      && s[i + HEADER_SIZE..i + HEADER_SIZE + |p.data|] == p.data
  {
    hide HeaderWith, Value32;
    var i, h := |text|, HeaderWith(p, sum);
    var s := text + (h + p.data) + t;
    HeaderFields(p, sum);
    assert s[i..i + HEADER_SIZE] == h;
    assert h[0] == s[i] && h[1] == s[i + 1] && h[2] == s[i + 2] && h[3] == s[i + 3];
    assert s[i + 8..i + 12] == h[8..12] && s[i + 12..i + 16] == h[12..16];
  }

  lemma FindFirst(s: seq<byte>, i: nat)
    requires MagicAt(s, i) && forall k: nat :: k < i ==> !MagicAt(s, k)
    ensures Find(s) == Some(i)
  {
  }

  /** Exactly after such text the parser finds the header at its place. */
  lemma HeaderFoundIff(crc: seq<byte> -> uint32, text: seq<byte>, p: Picture)
    requires |p.data| < 0x1_0000_0000
    ensures Find(text + Print(crc, p)) == Some(|text|) <==> Plain(text)
  {
    hide HeaderWith, Value32, Find;
    var s := text + Print(crc, p);
    FrameAt(text, p, crc(p.data), []);
    assert s + [] == s;
    if Plain(text) {
      FindAfterText(text, Print(crc, p));
      FindFirst(s, |text|);
    } else if !NoMagic(text) {
      var k :| 0 <= k < |text| && MagicAt(text, k);
      assert MagicAt(s, k);
    } else {
      assert MagicAt(s, |text| - 1);
    }
  }

  /** A whole frame after text is delivered, with its payload. */
  lemma InspectFrame(crc: seq<byte> -> uint32, p: Piece, t: seq<byte>)
    requires GoodPiece(p)
    ensures Inspect(crc, p.text + Print(crc, p.picture) + t)
         == Deliver(|p.text| + HEADER_SIZE + |p.picture.data|, p.picture.data, true)
  {
    hide HeaderWith, Value32, Find, MagicAt;
    var s := p.text + Print(crc, p.picture) + t;
    FrameAt(p.text, p.picture, crc(p.picture.data), t);
    FindAfterText(p.text, Print(crc, p.picture) + t);
    assert s == p.text + (Print(crc, p.picture) + t);
    FindFirst(s, |p.text|);
  }

  /** A frame with any checksum is delivered, and reported good if and only if the
      checksum is that of its payload. */
  lemma ChecksumDecides(crc: seq<byte> -> uint32, p: Piece, sum: uint32, t: seq<byte>)
    requires GoodPiece(p)
    ensures Inspect(crc, p.text + (HeaderWith(p.picture, sum) + p.picture.data) + t)
         == Deliver(|p.text| + HEADER_SIZE + |p.picture.data|, p.picture.data, crc(p.picture.data) == sum)
  {
    hide HeaderWith, Value32, Find, MagicAt;
    var frame := HeaderWith(p.picture, sum) + p.picture.data;
    FrameAt(p.text, p.picture, sum, t);
    FindAfterText(p.text, frame + t);
    assert p.text + frame + t == p.text + (frame + t);
    FindFirst(p.text + frame + t, |p.text|);
  }

  lemma TextSettles(crc: seq<byte> -> uint32, text: seq<byte>)
    requires NoMagic(text)
    ensures Settled(crc, text)
  {
  }

  lemma StreamSplits(crc: seq<byte> -> uint32, pieces: seq<Piece>, tail: seq<byte>)
    requires pieces != []
    ensures Stream(crc, pieces) + tail
         == (pieces[0].text + Print(crc, pieces[0].picture)) + (Stream(crc, pieces[1..]) + tail)
  {
  }

  /** The parser finds exactly the pictures printed, in order. */
  lemma {:induction false} ParseStream(crc: seq<byte> -> uint32, pieces: seq<Piece>, tail: seq<byte>, id: nat)
    requires (forall i :: 0 <= i < |pieces| ==> GoodPiece(pieces[i])) && NoMagic(tail)
    ensures Parse(crc, Stream(crc, pieces) + tail, id) == (Pictures(pieces, id), tail)
  {
    hide Print, GoodPiece, Inspect;
    if pieces == [] {
      assert [] + tail == tail;
      TextSettles(crc, tail);
    } else {
      var p := pieces[0];
      var front, rest := p.text + Print(crc, p.picture), Stream(crc, pieces[1..]) + tail;
      StreamSplits(crc, pieces, tail);
      InspectFrame(crc, p, rest);
      assert (front + rest)[|front|..] == rest;
      ParseStream(crc, pieces[1..], tail, id + 1);
    }
  }

  /** Of a piece that has not arrived completely, nothing is consumed. */
  lemma InspectPartial(crc: seq<byte> -> uint32, p: Piece, s: seq<byte>)
    requires GoodPiece(p) && s < p.text + Print(crc, p.picture)
    ensures Settled(crc, s)
  {
    hide HeaderWith, Value32;
    var i, h := |p.text|, Header(crc, p.picture);
    var whole := p.text + Print(crc, p.picture);
    HeaderFields(p.picture, crc(p.picture.data));
    FindAfterText(p.text, Print(crc, p.picture));
    forall k: nat | k < i
      ensures !MagicAt(s, k)
    {
      assert !MagicAt(whole, k);
    }
    if |s| >= i + 4 {
      assert whole[i..i + HEADER_SIZE] == h;
      assert h[0] == s[i] && h[1] == s[i + 1] && h[2] == s[i + 2] && h[3] == s[i + 3];
      assert MagicAt(s, i) && Find(s) == Some(i);
      if |s| >= i + HEADER_SIZE {
        assert s[i + 8..i + 12] == whole[i + 8..i + 12] == h[8..12];
      }
    }
  }

  /** Whatever part of the stream has arrived, what is left in the buffer is
      less than one piece, or text at the end. */
  lemma {:induction false} RestIsSmall(crc: seq<byte> -> uint32, pieces: seq<Piece>, tail: seq<byte>, s: seq<byte>, id: nat)
    requires (forall i :: 0 <= i < |pieces| ==> GoodPiece(pieces[i]) && SmallPiece(pieces[i]))
    requires NoMagic(tail) && |tail| <= BUFFER_LIMIT && s <= Stream(crc, pieces) + tail
    ensures |Parse(crc, s, id).1| <= BUFFER_LIMIT
    decreases pieces
  {
    hide GoodPiece, Inspect;
    if pieces == [] {
      RestShrinks(crc, s, id);
    } else {
      var p := pieces[0];
      var front, rest := p.text + Print(crc, p.picture), Stream(crc, pieces[1..]) + tail;
      StreamSplits(crc, pieces, tail);
      if |s| < |front| {
        assert s == (front + rest)[..|s|] == front[..|s|];
        RestShrinks(crc, s, id);
      } else {
        var s' := s[|front|..];
        assert s == front + s' && s' <= rest;
        InspectFrame(crc, p, s');
        RestIsSmall(crc, pieces[1..], tail, s', id + 1);
      }
    }
  }

  lemma {:induction false} RestShrinks(crc: seq<byte> -> uint32, s: seq<byte>, id: nat)
    ensures |Parse(crc, s, id).1| <= |s|
    decreases |s|
  {
    hide Inspect;
    match Inspect(crc, s)
    case NeedMore =>
    case Skip(n) => RestShrinks(crc, s[n..], id);
    case Deliver(n, _, _) => RestShrinks(crc, s[n..], id + 1);
  }

  /** The state of the receiver after the bytes s, in chunks, is Parse of s. */
  lemma {:induction false} StreamNeverTrims(crc: seq<byte> -> uint32, pieces: seq<Piece>, tail: seq<byte>,
                                            s: seq<byte>, id: nat, chunks: seq<seq<byte>>)
    requires (forall i :: 0 <= i < |pieces| ==> GoodPiece(pieces[i]) && SmallPiece(pieces[i]))
    requires NoMagic(tail) && |tail| <= BUFFER_LIMIT && s + Concat(chunks) <= Stream(crc, pieces) + tail
    ensures NeverTrims(crc, Parse(crc, s, id).1, id + |Parse(crc, s, id).0|, chunks)
    decreases chunks
  {
    hide Inspect, Parse, GoodPiece, SmallPiece;
    if chunks != [] {
      ParseSplit(crc, s, chunks[0], id);
      assert s + Concat(chunks) == (s + chunks[0]) + Concat(chunks[1..]);
      RestIsSmall(crc, pieces, tail, s + chunks[0], id);
      StreamNeverTrims(crc, pieces, tail, s + chunks[0], id, chunks[1..]);
    }
  }

  /** Printer and parser together: for any pictures of at most 1 MiB, with plain
      text between them, cut into any chunks, the receiver never trims its
      buffer and finds exactly those pictures in order. */
  lemma PicturesArrive(crc: seq<byte> -> uint32, pieces: seq<Piece>, tail: seq<byte>, chunks: seq<seq<byte>>)
    requires (forall i :: 0 <= i < |pieces| ==> GoodPiece(pieces[i]) && SmallPiece(pieces[i]))
    requires NoMagic(tail) && |tail| <= BUFFER_LIMIT && Concat(chunks) == Stream(crc, pieces) + tail
    ensures NeverTrims(crc, [], 0, chunks)
    ensures Receive(crc, [], 0, chunks) == (Pictures(pieces, 0), tail)
  {
    hide Inspect, GoodPiece, SmallPiece, Receive;
    TextSettles(crc, []);
    assert Parse(crc, [], 0) == ([], []);
    assert [] + Concat(chunks) == Concat(chunks);
    StreamNeverTrims(crc, pieces, tail, [], 0, chunks);
    ChunkIndependence(crc, [], 0, chunks);
    ParseStream(crc, pieces, tail, 0);
  }

  /** How much text a picture may follow: the buffer is never trimmed while the
      piece arrives, if and only if it is small. */
  lemma TrimIffLarge(crc: seq<byte> -> uint32, p: Piece, id: nat)
    requires GoodPiece(p)
    ensures SmallPiece(p)
       <==> forall s :: s < p.text + Print(crc, p.picture) ==> |Parse(crc, s, id).1| <= BUFFER_LIMIT
  {
    hide Inspect, GoodPiece, Print;
    var whole := p.text + Print(crc, p.picture);
    forall s | s < whole
      ensures Parse(crc, s, id).1 == s
    {
      InspectPartial(crc, p, s);
    }
    var almost := whole[..|whole| - 1];
    assert almost < whole;
    assert Parse(crc, almost, id).1 == almost;
    assert SmallPiece(p) <==> |almost| <= BUFFER_LIMIT;
    forall s | s < whole && |almost| <= BUFFER_LIMIT
      ensures |Parse(crc, s, id).1| <= BUFFER_LIMIT
    {
      assert |s| <= |almost|;
    }
  }

  /** A picture above 1 MiB is not recognised: the parser steps over its magic. */
  lemma OverlongSkipped(crc: seq<byte> -> uint32, p: Piece, t: seq<byte>)
    requires Plain(p.text) && MAX_LENGTH < |p.picture.data| < 0x1_0000_0000
    ensures Inspect(crc, p.text + Print(crc, p.picture) + t) == Skip(|p.text| + 1)
  {
    hide HeaderWith, Value32, Find, MagicAt;
    var s := p.text + Print(crc, p.picture) + t;
    FrameAt(p.text, p.picture, crc(p.picture.data), t);
    FindAfterText(p.text, Print(crc, p.picture) + t);
    assert s == p.text + (Print(crc, p.picture) + t);
    FindFirst(s, |p.text|);
  }
}
