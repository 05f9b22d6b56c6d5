/** The byte and bit output of the encoder (jpge.cpp: emit_byte,
    flush_output_buffer, put_bits, emit_word, emit_marker) and its sinks. */
module Output {
  import opened Words
  import opened Bits
  import opened Packer

  /** output_stream: put_buf may report success or failure at any call, unless
      the stream is one that never fails. */
  class OutputStream {
    const reliable: bool
    /** The bytes of the calls that reported success. */
    var accepted: seq<byte>
    /** How many calls reported failure. */
    var failures: nat
    /** How many calls announced the end of an image. */
    var ends: nat

    constructor (reliable: bool)
      ensures accepted == [] && failures == 0 && ends == 0 && this.reliable == reliable
    {
      this.reliable := reliable;
      accepted := [];
      failures := 0;
      ends := 0;
    }

    /** Without data, the call announces the end of the image. */
    method PutBuf(data: seq<byte>) returns (ok: bool)
      modifies this
      ensures accepted == old(accepted) + if ok then data else []
      ensures failures == old(failures) + if ok then 0 else 1
      ensures ends == old(ends) + if data == [] then 1 else 0
      ensures reliable ==> ok
    {
      ok := *;
      if reliable {
        ok := true;
      }
      if data == [] {
        ends := ends + 1;
      }
      if ok {
        accepted := accepted + data;
      } else {
        failures := failures + 1;
      }
    }
  }

  /** memory_stream of to_jpg.cpp: keeps what fits, always reports success. */
  class MemoryStream {
    const outBuf: array<byte>
    var index: nat
    /** Every byte offered so far. */
    ghost var offered: seq<byte>

    ghost predicate Valid()
      reads this, outBuf
    {
      && index == Min(outBuf.Length, |offered|)
      && outBuf[..index] == offered[..index]
    }

    constructor (maxLen: nat)
      ensures Valid() && offered == [] && outBuf.Length == maxLen && fresh(outBuf)
    {
      outBuf := new byte[maxLen];
      index := 0;
      offered := [];
    }

    /** A missing buffer marks the end of the image. */
    method PutBuf(data: Option<seq<byte>>) returns (ok: bool)
      requires Valid()
      modifies this, outBuf
      ensures Valid() && ok
      ensures offered == old(offered) + if data.Some? then data.value else []
      ensures outBuf[..old(index)] == old(outBuf[..index])
    {
      if data.None? {
        return true;
      }
      var len := |data.value|;
      if len > outBuf.Length - index {
        len := outBuf.Length - index;
      }
      offered := offered + data.value;
      if len > 0 {
        var base := index;
        forall i | 0 <= i < len {
          outBuf[base + i] := data.value[i];
        }
        index := index + len;
      }
      assert offered[..index] == old(offered)[..old(index)] + data.value[..len];
      assert outBuf[..index] == old(outBuf[..index]) + data.value[..len];
      ok := true;
    }
  }

  // ------------------------------------------------ lemmas on the bit buffer

  lemma {:induction false} ShiftBack(a: nat, m: nat, r: nat)
    ensures ShiftRight(ShiftLeft(a, m), m + r) == ShiftRight(a, r)
  {
    if m > 0 {
      ShiftBack(a, m - 1, r);
      assert ShiftLeft(a, m) / 2 == ShiftLeft(a, m - 1);
    }
  }

  lemma ModDouble(x: nat, m: nat)
    requires m > 0
    ensures (2 * x) % (2 * m) == 2 * (x % m)
  {
    var q, r := x / m, x % m;
    assert 2 * x == (2 * m) * q + 2 * r;
    DivModUnique(2 * x, 2 * m, q, 2 * r);
  }

  lemma {:induction false} ShiftLeftMod(a: nat, n: nat, k: nat)
    ensures ShiftLeft(a, n) % Pow2(n + k) == ShiftLeft(a % Pow2(k), n)
  {
    if n > 0 {
      ShiftLeftMod(a, n - 1, k);
      ModDouble(ShiftLeft(a, n - 1), Pow2(n - 1 + k));
    }
  }

  lemma HalfMod(a: nat, m: nat)
    requires m > 0
    ensures (a % (2 * m)) / 2 == (a / 2) % m && (a % (2 * m)) % 2 == a % 2
  {
    var q, r := a / (2 * m), a % (2 * m);
    assert a == 2 * (m * q) + r;
    assert a / 2 == m * q + r / 2;
    DivModUnique(a / 2, m, q, r / 2);
  }

  lemma {:induction false} ToBitsMod(a: nat, k: nat, n: nat)
    requires n <= k
    ensures ToBits(a % Pow2(k), n) == ToBits(a, n)
  {
    if n > 0 {
      HalfMod(a, Pow2(k - 1));
      ToBitsMod(a / 2, k - 1, n - 1);
    }
  }

  lemma {:induction false} ToBitsSplit(a: nat, m: nat, r: nat)
    ensures ToBits(a, m + r) == ToBits(ShiftRight(a, r), m) + ToBits(a, r)
  {
    if r == 0 {
      assert ToBits(a, m) + [] == ToBits(a, m);
    } else {
      ToBitsSplit(a / 2, m, r - 1);
    }
  }

  /** The bit buffer: n pending bits a, left-aligned below bit 24. The bits of
      a above the pending ones are left over from bytes already taken out. */
  predicate Holds(buf: uint32, a: nat, n: nat)
    requires n <= 24
  {
    buf == ShiftLeft(a, 24 - n) && a < Pow2(8 + n)
  }

  lemma Pow2Of32()
    ensures Pow2(32) == 0x1_0000_0000
  {
    Pow2Values();
    assert Pow2(27) == 0x800_0000 && Pow2(30) == 0x4000_0000;
  }

  /** The byte taken from the buffer is the value of the first eight bits. */
  lemma TopByte(a: nat, k: nat)
    requires 8 <= k <= 24
    ensures
      var c := ShiftRight(ShiftLeft(a, 24 - k), 16) % 0x100;
      && PackBytes(ToBits(a, k)) == [c] + PackBytes(ToBits(a, k - 8))
      && Rest(ToBits(a, k)) == Rest(ToBits(a, k - 8))
  {
    hide ToBits, ShiftRight, ShiftLeft, Value;
    Pow2Values();
    ShiftBack(a, 24 - k, k - 8);
    var x := ShiftRight(a, k - 8);
    ToBitsSplit(a, 8, k - 8);
    ToBitsMod(x, 8, 8);
    ValueToBits(x % 0x100, 8);
    var s, h, t := ToBits(a, k), ToBits(x, 8), ToBits(a, k - 8);
    assert s[..8] == h && s[8..] == t;
  }

  /** Taking a byte out drops what lies above the remaining bits. */
  lemma PopByte(buf: uint32, a: nat, k: nat)
    requires 8 <= k <= 24 && Holds(buf, a, k)
    ensures
      var a' := a % Pow2(k);
      var c := ShiftRight(buf, 16) % 0x100;
      && Holds(Shl32(buf, 8), a', k - 8)
      && PackBytes(ToBits(a, k)) == [c] + PackBytes(ToBits(a', k - 8))
      && Rest(ToBits(a, k)) == Rest(ToBits(a', k - 8))
  {
    hide ShiftLeft, ToBits, PackBytes, Rest;
    Pow2Of32();
    ShiftLeftAdd(a, 24 - k, 8);
    ShiftLeftMod(a, 32 - k, k);
    ToBitsMod(a, k, k - 8);
    TopByte(a, k);
  }

  /** A field shifted to its place stays below the pending bits. */
  lemma FieldInPlace(bits: uint32, n: nat, len: nat)
    requires n + len <= 24 && bits < Pow2(len)
    ensures Shl32(bits, 24 - n - len) == ShiftLeft(bits, 24 - n - len) < Pow2(24 - n)
  {
    hide ShiftLeft, Pow2;
    Pow2Of32();
    ShiftLeftBound(bits, len, 24 - n - len);
    Pow2Mono(24 - n, 32);
  }

  /** Pending bits and field make up the new buffer. */
  lemma BufferSum(a: nat, n: nat, bits: nat, len: nat)
    requires n + len <= 24 && bits < Pow2(len) && a < Pow2(8 + n)
    ensures
      var a', k := ShiftLeft(a, len) + bits, n + len;
      && ShiftLeft(a', 24 - k) == ShiftLeft(a, 24 - n) + ShiftLeft(bits, 24 - k)
      && a' < Pow2(8 + k) && ShiftLeft(a', 24 - k) < 0x1_0000_0000
  {
    hide ShiftLeft, Pow2;
    var a', k := ShiftLeft(a, len) + bits, n + len;
    Pow2Of32();
    ShiftedBelow(a, 8 + n, bits, len);
    ShiftLeftBound(a', 8 + k, 24 - k);
    ShiftLeftAdd(a, len, 24 - k);
    ShiftLeftSum(ShiftLeft(a, len), bits, 24 - k);
  }

  /** Or-ing a field in below the pending bits. */
  lemma PushField(buf: uint32, a: nat, n: nat, bits: uint32, len: nat)
    requires n + len <= 24 && bits < Pow2(len) && Holds(buf, a, n)
    ensures
      var a' := ShiftLeft(a, len) + bits;
      var k := n + len;
      var buf' := Or(buf, Shl32(bits, 24 - k));
      && buf' < 0x1_0000_0000 && Holds(buf', a', k)
      && ToBits(a', k) == ToBits(a, n) + ToBits(bits, len)
  {
    hide Or, ToBits, ShiftLeft, Shl32, Pow2;
    FieldInPlace(bits, n, len);
    BufferSum(a, n, bits, len);
    OrDisjoint(a, ShiftLeft(bits, 24 - n - len), 24 - n);
    ToBitsAppend(a, bits, n, len);
  }

  lemma {:induction false} ShiftedBelow(a: nat, m: nat, bits: nat, len: nat)
    requires a < Pow2(m) && bits < Pow2(len)
    ensures ShiftLeft(a, len) + bits < Pow2(m + len)
  {
    if len > 0 {
      ShiftedBelow(a, m, bits / 2, len - 1);
      assert Pow2(m + len) == 2 * Pow2(m + len - 1);
    }
  }

  lemma {:induction false} ShiftLeftSum(x: nat, y: nat, n: nat)
    ensures ShiftLeft(x + y, n) == ShiftLeft(x, n) + ShiftLeft(y, n)
  {
    if n > 0 {
      ShiftLeftSum(x, y, n - 1);
    }
  }

  // ------------------------------------------------------------ the writer

  const OUT_BUF_SIZE := 512

  /** The output half of jpeg_encoder. */
  class Writer {
    const stream: OutputStream
    const outBuf: array<byte>
    var outBufLeft: int
    var bitBuffer: uint32
    var bitsIn: nat
    var allOk: bool

    /** The failures of the stream before this image. */
    ghost const failuresBefore: nat
    /** The ends of images that it was told of before, and whether of this one. */
    ghost const endsBefore: nat
    ghost var ended: bool
    /** Every byte given to EmitByte, after what the stream held before. */
    ghost var emitted: seq<byte>
    /** The bit buffer without the zero bits below the pending ones. */
    ghost var acc: nat
    /** What was emitted before the scan, and the bits put since. */
    ghost var head: seq<byte>
    ghost var bits: seq<bool>

    /** The flag says exactly whether a call of the stream has failed, and the
        stream was told of no end but that of this image. */
    ghost predicate FlagValid()
      reads this`allOk, this`ended, stream
    {
      && stream.ends == endsBefore + (if ended then 1 else 0)
      && stream.failures >= failuresBefore && (allOk <==> stream.failures == failuresBefore)
      && (stream.reliable ==> allOk)
    }

    /** What was emitted is what the stream accepted, then the buffer; after a
        failure the stream keeps a prefix of it. */
    ghost predicate BufferValid()
      reads this`allOk, this`ended, this`outBufLeft, this`emitted, stream, outBuf
    {
      && FlagValid() && outBuf.Length == OUT_BUF_SIZE && 1 <= outBufLeft <= OUT_BUF_SIZE
      && (allOk ==> stream.accepted + outBuf[..OUT_BUF_SIZE - outBufLeft] == emitted)
      && (!allOk ==> stream.accepted <= emitted)
    }

    ghost predicate Valid()
      reads this, stream, outBuf
    {
      && BufferValid() && !ended
      && bitsIn <= 7 && Holds(bitBuffer, acc, bitsIn)
    }

    /** Inside the scan: the complete bytes of all bits put were emitted, with
        byte stuffing, and the others are pending. */
    ghost predicate ScanValid()
      reads this, stream, outBuf
    {
      && Valid()
      && emitted == head + Stuff(PackBytes(bits)) && Pending() == Rest(bits)
    }

    /** The bits not yet part of an emitted byte. */
    ghost function Pending(): seq<bool>
      reads this
    {
      ToBits(acc, bitsIn)
    }

    constructor (stream: OutputStream)
      ensures Valid() && this.stream == stream && fresh(outBuf)
      ensures failuresBefore == stream.failures && endsBefore == stream.ends
      ensures emitted == stream.accepted && Pending() == [] && allOk
    {
      this.stream := stream;
      failuresBefore := stream.failures;
      endsBefore := stream.ends;
      ended := false;
      outBuf := new byte[OUT_BUF_SIZE];
      outBufLeft := OUT_BUF_SIZE;
      bitBuffer := 0;
      bitsIn := 0;
      allOk := true;
      emitted := stream.accepted;
      acc := 0;
      head := stream.accepted;
      bits := [];
      new;
      ZeroShift(24);
    }

    /** The headers are out; the bits that follow form the scan. */
    ghost method BeginScan()
      requires Valid() && Pending() == []
      modifies this`head, this`bits
      ensures ScanValid() && head == emitted && bits == []
    {
      head := emitted;
      bits := [];
      ShortPack([]);
      assert head + Stuff([]) == head;
    }

    method FlushOutputBuffer()
      requires outBuf.Length == OUT_BUF_SIZE && 0 <= outBufLeft <= OUT_BUF_SIZE
      requires allOk ==> stream.accepted + outBuf[..OUT_BUF_SIZE - outBufLeft] == emitted
      requires !allOk ==> stream.accepted <= emitted
      requires FlagValid()
      modifies this`outBufLeft, this`allOk, stream
      ensures outBufLeft == OUT_BUF_SIZE && FlagValid()
      ensures allOk ==> old(allOk) && stream.accepted == emitted
      ensures !allOk ==> stream.accepted == old(stream.accepted) <= emitted
    {
      if outBufLeft != OUT_BUF_SIZE && allOk {
        allOk := stream.PutBuf(outBuf[..OUT_BUF_SIZE - outBufLeft]);
      }
      outBufLeft := OUT_BUF_SIZE;
    }

    method EmitByte(i: byte)
      requires BufferValid()
      modifies this`outBufLeft, this`allOk, this`emitted, outBuf, stream
      ensures BufferValid()
      ensures emitted == old(emitted) + [i]
      ensures allOk ==> old(allOk)
      ensures old(stream.accepted) <= stream.accepted
    {
      outBuf[OUT_BUF_SIZE - outBufLeft] := i;
      outBufLeft := outBufLeft - 1;
      emitted := emitted + [i];
      assert outBuf[..OUT_BUF_SIZE - outBufLeft] == old(outBuf[..OUT_BUF_SIZE - outBufLeft]) + [i];
      if outBufLeft == 0 {
        FlushOutputBuffer();
      }
    }

    method EmitWord(i: nat)
      requires BufferValid()
      modifies this`outBufLeft, this`allOk, this`emitted, outBuf, stream
      ensures BufferValid()
      ensures emitted == old(emitted) + [(i / 0x100) % 0x100, i % 0x100]
      ensures allOk ==> old(allOk)
      ensures old(stream.accepted) <= stream.accepted
    {
      EmitByte((i / 0x100) % 0x100);
      EmitByte(i % 0x100);
    }

    method EmitMarker(marker: byte)
      requires BufferValid()
      modifies this`outBufLeft, this`allOk, this`emitted, outBuf, stream
      ensures BufferValid()
      ensures emitted == old(emitted) + [0xFF, marker]
      ensures allOk ==> old(allOk)
      ensures old(stream.accepted) <= stream.accepted
    {
      EmitByte(0xFF);
      EmitByte(marker);
    }

    /** The last flush, and the end-of-image call of the stream. */
    method Finish()
      requires BufferValid() && !ended
      modifies this`outBufLeft, this`allOk, this`ended, stream
      ensures BufferValid() && (allOk ==> ended)
      ensures allOk ==> old(allOk) && stream.accepted == emitted
      ensures old(stream.accepted) <= stream.accepted <= emitted
    {
      FlushOutputBuffer();
      if allOk {
        allOk := stream.PutBuf([]);
        ended := true;
      }
    }

    /** The body of the put_bits loop: a byte, and a zero after 0xFF. */
    method EmitStuffed(c: byte)
      requires BufferValid()
      modifies this`outBufLeft, this`allOk, this`emitted, outBuf, stream
      ensures BufferValid()
      ensures emitted == old(emitted) + StuffByte(c)
      ensures allOk ==> old(allOk)
      ensures old(stream.accepted) <= stream.accepted
    {
      EmitByte(c);
      if c == 0xFF {
        EmitByte(0);
      }
    }

    /** One round of the put_bits loop: the first pending byte goes out. */
    method EmitPending()
      requires BufferValid() && 8 <= bitsIn <= 24 && Holds(bitBuffer, acc, bitsIn)
      modifies this`outBufLeft, this`allOk, this`emitted, this`bitBuffer, this`bitsIn, this`acc, outBuf, stream
      ensures BufferValid() && bitsIn == old(bitsIn) - 8 && Holds(bitBuffer, acc, bitsIn)
      ensures emitted == old(emitted) + StuffByte(ShiftRight(old(bitBuffer), 16) % 0x100)
      ensures PackBytes(old(Pending())) == [ShiftRight(old(bitBuffer), 16) % 0x100] + PackBytes(Pending())
      ensures Rest(old(Pending())) == Rest(Pending())
      ensures allOk ==> old(allOk)
      ensures old(stream.accepted) <= stream.accepted
    {
      hide ToBits, ShiftLeft, ShiftRight, Pow2, PackBytes, Rest, StuffByte, Holds, Shl32, Writer.BufferValid;
      PopByte(bitBuffer, acc, bitsIn);
      EmitStuffed(ShiftRight(bitBuffer, 16) % 0x100);
      acc := acc % Pow2(bitsIn);
      bitBuffer := Shl32(bitBuffer, 8);
      bitsIn := bitsIn - 8;
    }

    /** The put_bits loop. */
    method EmitWhole()
      requires BufferValid() && !ended && bitsIn <= 24 && Holds(bitBuffer, acc, bitsIn)
      modifies this`outBufLeft, this`allOk, this`emitted, this`bitBuffer, this`bitsIn, this`acc, outBuf, stream
      ensures Valid()
      ensures emitted == old(emitted) + Stuff(PackBytes(old(Pending()))) && Pending() == Rest(old(Pending()))
      ensures allOk ==> old(allOk)
      ensures old(stream.accepted) <= stream.accepted
    {
      hide ToBits, ShiftLeft, ShiftRight, PackBytes, Rest, StuffByte, Stuff, Holds, Writer.BufferValid;
      ghost var all, done := Pending(), [];
      NothingDone(emitted, PackBytes(all));
      while bitsIn >= 8
        invariant BufferValid() && bitsIn <= 24 && Holds(bitBuffer, acc, bitsIn)
        invariant emitted == old(emitted) + Stuff(done)
        invariant PackBytes(all) == done + PackBytes(Pending()) && Rest(all) == Rest(Pending())
        invariant allOk ==> old(allOk)
        invariant old(stream.accepted) <= stream.accepted
      {
        ghost var c: byte := ShiftRight(bitBuffer, 16) % 0x100;
        EmitPending();
        StuffOne(done, c);
        done := done + [c];
      }
      ShortPack(Pending());
      assert done == PackBytes(all);
    }

    /** Appends the low len bits of bits. The precondition is the domain of the
        shift count 24 - (bitsIn + len). */
    method PutBits(field: uint32, len: nat)
      requires ScanValid() && bitsIn + len <= 24 && field < Pow2(len)
      modifies this, outBuf, stream
      ensures ScanValid()
      ensures bits == old(bits) + ToBits(field, len) && head == old(head)
      ensures allOk ==> old(allOk)
      ensures old(stream.accepted) <= stream.accepted
    {
      hide ToBits, ShiftLeft, ShiftRight, Or, Pow2, PackBytes, Rest, Stuff, Holds, Shl32, Writer.BufferValid;
      PushField(bitBuffer, acc, bitsIn, field, len);
      acc := ShiftLeft(acc, len) + field;
      bitsIn := bitsIn + len;
      bitBuffer := Or(bitBuffer, Shl32(field, 24 - bitsIn));
      EmitWhole();
      ScanAppend(head, bits, ToBits(field, len));
      bits := bits + ToBits(field, len);
    }

    /** The last lines of process_end_of_image: padding, end marker, flush. */
    method EndScan(marker: byte)
      requires ScanValid()
      modifies this, outBuf, stream
      ensures BufferValid() && head == old(head) && (allOk ==> ended)
      ensures emitted == head + Stuff(PackBytes(old(bits) + Ones(7))) + [0xFF, marker]
      ensures allOk ==> old(allOk) && stream.accepted == emitted
      ensures old(stream.accepted) <= stream.accepted <= emitted
    {
      hide ToBits, PackBytes, Rest, Stuff, Holds, Writer.BufferValid, Pow2;
      SevenOnes();
      PutBits(0x7F, 7);
      EmitMarker(marker);
      Finish();
    }
  }

  /** The padding of process_end_of_image: put_bits(0x7F, 7). */
  lemma SevenOnes()
    ensures ToBits(0x7F, 7) == Ones(7) && 0x7F < Pow2(7)
  {
    Pow2Values();
    assert ToBits(0xF, 4) == [true, true, true, true];
    assert ToBits(0x7F, 7) == ToBits(0x3F, 6) + [true];
    assert ToBits(0x3F, 6) == ToBits(0x1F, 5) + [true];
  }

  lemma NothingDone(emitted: seq<byte>, rest: seq<byte>)
    ensures emitted + Stuff([]) == emitted && [] + rest == rest
  {
  }

  lemma StuffOne(done: seq<byte>, c: byte)
    ensures Stuff(done + [c]) == Stuff(done) + StuffByte(c)
  {
    StuffAppend(done, [c]);
    assert Stuff([c]) == StuffByte(c) + Stuff([]);
  }

  /** Adding the bits x to a scan whose complete bytes are already out. */
  lemma ScanAppend(head: seq<byte>, bits: seq<bool>, x: seq<bool>)
    ensures head + Stuff(PackBytes(bits)) + Stuff(PackBytes(Rest(bits) + x)) == head + Stuff(PackBytes(bits + x))
    ensures Rest(Rest(bits) + x) == Rest(bits + x)
  {
    hide PackBytes, Rest, Stuff;
    PackAppend(bits, x);
    StuffAppend(PackBytes(bits), PackBytes(Rest(bits) + x));
  }

  lemma ShortPack(s: seq<bool>)
    requires |s| < 8
    ensures PackBytes(s) == [] && Rest(s) == s
  {
  }

  lemma {:induction false} ZeroShift(n: nat)
    ensures ShiftLeft(0, n) == 0
  {
    if n > 0 {
      ZeroShift(n - 1);
    }
  }
}
