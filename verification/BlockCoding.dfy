/** Writing one block (jpge.cpp, code_coefficients_pass_two), proved against
    the coding of module Entropy. */
module BlockCoding {
  import opened Words
  import opened Huffman
  import opened Entropy
  import opened Output

  /** Codes and code lengths by symbol. */
  datatype HuffTable = HuffTable(codes: seq<uint32>, sizes: seq<byte>)

  predicate Generated(t: HuffTable, h: Spec) {
    WellSized(h) && t.codes == CodeTable(h) && t.sizes == SizeTable(h)
  }

  /** put_bits with the code of a symbol. */
  method PutSymbol(w: Writer, t: HuffTable, ghost h: Spec, sym: byte)
    requires w.ScanValid() && Generated(t, h) && Valid(h) && HasCode(h, sym)
    modifies w, w.outBuf, w.stream
    ensures w.ScanValid() && w.head == old(w.head)
    ensures w.bits == old(w.bits) + Symbol(h, sym)
    ensures w.allOk ==> old(w.allOk)
    ensures old(w.stream.accepted) <= w.stream.accepted
  {
    SymbolDecodes(h, sym, []);
    w.PutBits(t.codes[sym], t.sizes[sym]);
  }

  /** The magnitude bits of v, whose category n was just computed. */
  method PutMagnitude(w: Writer, v: int, temp2: int, n: nat)
    requires w.ScanValid() && n == NBits(Abs(v)) <= 11 && temp2 == if v < 0 then v - 1 else v
    modifies w, w.outBuf, w.stream
    ensures w.ScanValid() && w.head == old(w.head)
    ensures w.bits == old(w.bits) + Magnitude(v)
    ensures w.allOk ==> old(w.allOk)
    ensures old(w.stream.accepted) <= w.stream.accepted
  {
    MagnitudeExtends(v);
    Pow2Mono(n, 11);
    Pow2Values();
    w.PutBits(temp2 % Pow2(n), n);
  }

  /** The category loop of the DC difference. */
  method CountBits(v: nat) returns (nbits: nat)
    ensures nbits == NBits(v)
  {
    var temp1 := v;
    nbits := 0;
    while temp1 != 0
      invariant temp1 >= 0 && nbits + NBits(temp1) == NBits(v)
    {
      nbits := nbits + 1;
      temp1 := temp1 / 2;
    }
  }

  /** The category loop of an AC coefficient, which is not zero. */
  method CountBitsNonzero(v: nat) returns (nbits: nat)
    requires v != 0
    ensures nbits == NBits(v)
  {
    nbits := 1;
    var temp1 := v / 2;
    while temp1 != 0
      invariant temp1 >= 0 && nbits + NBits(temp1) == NBits(v)
    {
      nbits := nbits + 1;
      temp1 := temp1 / 2;
    }
  }

  method PutDc(w: Writer, dc: HuffTable, ghost h: Spec, diff: int)
    requires w.ScanValid() && Generated(dc, h) && CoversDc(h) && CodableDiff(diff)
    modifies w, w.outBuf, w.stream
    ensures w.ScanValid() && w.head == old(w.head)
    ensures w.bits == old(w.bits) + EncodeDc(h, diff)
    ensures w.allOk ==> old(w.allOk)
    ensures old(w.stream.accepted) <= w.stream.accepted
  {
    hide Symbol, Magnitude, NBits, CodeTable, SizeTable, Writer.ScanValid;
    SmallCategory(diff);
    var temp1, temp2 := diff, diff;
    if temp1 < 0 {
      temp1 := -temp1;
      temp2 := temp2 - 1;
    }
    var nbits := CountBits(temp1);
    PutSymbol(w, dc, h, nbits);
    if nbits != 0 {
      PutMagnitude(w, diff, temp2, nbits);
    } else {
      assert |Magnitude(diff)| == 0;
    }
  }

  lemma AcSymbol(h: Spec, run: nat, n: nat)
    requires CoversAc(h) && run < 16 && 1 <= n <= 10
    ensures run * 16 + n == RunSize(run, n) && RunSize(run, n) < 0x100
    ensures Valid(h) && HasCode(h, RunSize(run, n))
  {
  }

  /** A nonzero coefficient after run_len zeros. */
  method PutCoefficient(w: Writer, ac: HuffTable, ghost h: Spec, runLen: nat, v: int)
    requires w.ScanValid() && Generated(ac, h) && CoversAc(h) && v != 0 && -1023 <= v <= 1023
    modifies w, w.outBuf, w.stream
    ensures w.ScanValid() && w.head == old(w.head)
    ensures NBits(Abs(v)) < 16
    ensures w.bits == old(w.bits) + (Zrl(h, runLen / 16) + Symbol(h, RunSize(runLen % 16, NBits(Abs(v)))) + Magnitude(v))
    ensures w.allOk ==> old(w.allOk)
    ensures old(w.stream.accepted) <= w.stream.accepted
  {
    hide Symbol, Magnitude, NBits, CodeTable, SizeTable, RunSize, CoversAc, HasCode, Valid, Writer.ScanValid;
    SmallCategory(v);
    var run := PutZeroRuns(w, ac, h, runLen);
    var temp1, temp2 := v, v;
    if temp2 < 0 {
      temp1 := -temp1;
      temp2 := temp2 - 1;
    }
    var nbits := CountBitsNonzero(temp1);
    var j := run * 16 + nbits;
    AcSymbol(h, run, nbits);
    PutSymbol(w, ac, h, j);
    PutMagnitude(w, v, temp2, nbits);
  }

  /** The ZRL loop; returns what is left of the run. */
  method PutZeroRuns(w: Writer, ac: HuffTable, ghost h: Spec, runLen: nat) returns (run: nat)
    requires w.ScanValid() && Generated(ac, h) && CoversAc(h)
    modifies w, w.outBuf, w.stream
    ensures w.ScanValid() && w.head == old(w.head)
    ensures run == runLen % 16
    ensures w.bits == old(w.bits) + Zrl(h, runLen / 16)
    ensures w.allOk ==> old(w.allOk)
    ensures old(w.stream.accepted) <= w.stream.accepted
  {
    hide Symbol, CodeTable, SizeTable, Writer.ScanValid;
    run := runLen;
    ghost var n := 0;
    while run >= 16
      invariant w.ScanValid() && w.head == old(w.head)
      invariant n >= 0 && runLen == run + 16 * n
      invariant w.bits == old(w.bits) + Zrl(h, n)
      invariant w.allOk ==> old(w.allOk)
      invariant old(w.stream.accepted) <= w.stream.accepted
    {
      PutSymbol(w, ac, h, 0xF0);
      ZrlAppend(h, n);
      run := run - 16;
      n := n + 1;
    }
    assert n == runLen / 16;
  }

  lemma {:induction false} ZrlAppend(h: Spec, n: nat)
    requires WellSized(h)
    ensures Zrl(h, n) + Symbol(h, 0xF0) == Zrl(h, n + 1)
  {
    hide Symbol;
    if n == 0 {
      assert Zrl(h, 1) == Symbol(h, 0xF0) + Zrl(h, 0);
    } else {
      ZrlAppend(h, n - 1);
      assert Zrl(h, n) + Symbol(h, 0xF0) == Symbol(h, 0xF0) + (Zrl(h, n - 1) + Symbol(h, 0xF0));
    }
  }

  /** A zero coefficient makes the run longer. */
  lemma AcZero(h: Spec, c: seq<int>, i: nat, run: nat)
    requires WellSized(h) && Codable(c) && 1 <= i < 64 && c[i] == 0
    ensures EncodeAc(h, c, i, run) == EncodeAc(h, c, i + 1, run + 1)
  {
  }

  /** Another coefficient is coded with the run before it. */
  lemma AcNonzero(h: Spec, c: seq<int>, i: nat, run: nat, done: seq<bool>)
    requires WellSized(h) && Codable(c) && 1 <= i < 64 && c[i] != 0
    ensures NBits(Abs(c[i])) < 16
    ensures
      var code := Zrl(h, run / 16) + Symbol(h, RunSize(run % 16, NBits(Abs(c[i])))) + Magnitude(c[i]);
      done + EncodeAc(h, c, i, run) == (done + code) + EncodeAc(h, c, i + 1, 0)
  {
    hide Symbol, Magnitude, Zrl, NBits;
    SmallCategory(c[i]);
  }

  lemma AcEnd(h: Spec, c: seq<int>, run: nat)
    requires WellSized(h) && Codable(c)
    ensures EncodeAc(h, c, 64, run) == if run > 0 then Symbol(h, 0x00) else []
  {
  }

  /** The AC loop of the block. */
  method PutAc(w: Writer, ac: HuffTable, ghost h: Spec, coefs: array<int16>)
    requires w.ScanValid() && Generated(ac, h) && CoversAc(h)
    requires coefs.Length == 64 && Codable(coefs[..])
    modifies w, w.outBuf, w.stream
    ensures w.ScanValid() && w.head == old(w.head)
    ensures coefs[..] == old(coefs[..])
    ensures w.bits == old(w.bits) + EncodeAc(h, coefs[..], 1, 0)
    ensures w.allOk ==> old(w.allOk)
    ensures old(w.stream.accepted) <= w.stream.accepted
  {
    hide Symbol, Magnitude, CodeTable, SizeTable, Zrl, NBits, Writer.ScanValid, EncodeAc, RunSize;
    ghost var c := coefs[..];
    ghost var done: seq<bool> := [];
    var runLen := 0;
    for i := 1 to 64
      invariant w.ScanValid() && w.head == old(w.head)
      invariant coefs[..] == c && runLen >= 0
      invariant w.bits == old(w.bits) + done
      invariant done + EncodeAc(h, c, i, runLen) == EncodeAc(h, c, 1, 0)
      invariant w.allOk ==> old(w.allOk)
      invariant old(w.stream.accepted) <= w.stream.accepted
    {
      var temp1 := coefs[i];
      assert temp1 == c[i];
      if temp1 == 0 {
        AcZero(h, c, i, runLen);
        runLen := runLen + 1;
      } else {
        AcNonzero(h, c, i, runLen, done);
        PutCoefficient(w, ac, h, runLen, temp1);
        done := done + (Zrl(h, runLen / 16) + Symbol(h, RunSize(runLen % 16, NBits(Abs(temp1)))) + Magnitude(temp1));
        runLen := 0;
      }
    }
    AcEnd(h, c, runLen);
    if runLen > 0 {
      PutSymbol(w, ac, h, 0x00);
    }
  }

  /** code_coefficients_pass_two: codes the block in coefs and remembers its DC
      value as the prediction for the next block of the component. */
  method CodeCoefficients(w: Writer, dc: HuffTable, ac: HuffTable, ghost k: Coder,
                          coefs: array<int16>, lastDc: array<int>, comp: nat)
    requires w.ScanValid() && Generated(dc, k.dc) && Generated(ac, k.ac) && Covers(k)
    requires coefs.Length == 64 && Codable(coefs[..])
    requires lastDc.Length == 3 && comp < 3 && CodableDiff(coefs[0] - lastDc[comp])
    modifies w, w.outBuf, w.stream, lastDc
    ensures w.ScanValid() && w.head == old(w.head)
    ensures coefs[..] == old(coefs[..])
    ensures lastDc[..] == old(lastDc[..])[comp := coefs[0] as int]
    ensures w.bits == old(w.bits) + EncodeBlock(k, old(lastDc[comp]), coefs[..])
    ensures w.allOk ==> old(w.allOk)
    ensures old(w.stream.accepted) <= w.stream.accepted
  {
    hide EncodeDc, EncodeAc, CodeTable, SizeTable, Writer.ScanValid;
    var diff := coefs[0] - lastDc[comp];
    lastDc[comp] := coefs[0];
    PutDc(w, dc, k.dc, diff);
    PutAc(w, ac, k.ac, coefs);
  }
}
