/** How long the code of a scan is: bounds for every block and every scan, in
    bits and in stuffed bytes, and the shortest scan there is. */
module CodeLength {
  import opened Words
  import opened Bits
  import opened Huffman
  import opened Entropy
  import opened Scan
  import opened Packer
  import opened StandardTables

  // ---------------------------------------------------------------- symbols

  /** Every code has two bits or more. */
  ghost predicate NoShort(h: Spec) {
    WellSized(h) && forall sym: byte :: HasCode(h, sym) ==> |Symbol(h, sym)| >= 2
  }

  lemma SizeAtLeastTwo(bits: seq<byte>, p: nat)
    requires |bits| == 17 && p < Total(bits) && bits[1] == 0
    ensures SizeAt(bits, p) >= 2
  {
    NextLength(bits, 1);
  }

  lemma NoShortCodes(h: Spec)
    requires Valid(h) && h.bits[1] == 0
    ensures NoShort(h)
  {
    forall sym: byte | HasCode(h, sym)
      ensures |Symbol(h, sym)| >= 2
    {
      SymbolDecodes(h, sym, []);
      TableEntry(h, sym);
      var p :| 0 <= p < Total(h.bits) && h.val[p] == sym && SizeTable(h)[sym] == SizeAt(h.bits, p);
      SizeAtLeastTwo(h.bits, p);
    }
  }

  /** The coder has no code of one bit, and its shortest block, with no change
      of the DC value and no AC coefficient, has n bits. */
  ghost predicate Frugal(k: Coder, n: nat) {
    && Covers(k) && NoShort(k.dc) && NoShort(k.ac)
    && |Symbol(k.dc, 0x00)| == 2 && |Symbol(k.ac, 0x00)| == n - 2 && n <= 7
  }

  ghost predicate FrugalCoders(k: Coders) {
    Frugal(k.luma, 6) && Frugal(k.chroma, 4)
  }

  // ----------------------------------------------------------------- blocks

  lemma SymbolLength(h: Spec, sym: byte)
    requires CoversAc(h) && NoShort(h) && HasCode(h, sym)
    ensures 2 <= |Symbol(h, sym)| <= 16
  {
    SymbolDecodes(h, sym, []);
  }

  /** End of block and ZRL. */
  lemma EndLengths(h: Spec)
    requires CoversAc(h) && NoShort(h)
    ensures 2 <= |Symbol(h, 0x00)| <= 16 && 2 <= |Symbol(h, 0xF0)| <= 16
  {
    SymbolLength(h, 0x00);
    SymbolLength(h, 0xF0);
  }

  lemma {:induction false} ZrlLength(h: Spec, n: nat)
    requires CoversAc(h) && NoShort(h)
    ensures 2 * n <= |Zrl(h, n)| <= 16 * n
  {
    hide Symbol, CoversAc, WellSized;
    if n > 0 {
      ZrlLength(h, n - 1);
      EndLengths(h);
    }
  }

  /** The code of one coefficient after a run of zeros. */
  lemma CoefficientLength(h: Spec, c: seq<int>, i: nat, run: nat)
    requires CoversAc(h) && NoShort(h) && Codable(c) && 1 <= i < 64 && c[i] != 0
    ensures
      var n := |EncodeAc(h, c, i, run)| - |EncodeAc(h, c, i + 1, 0)|;
      3 + 2 * (run / 16) <= n <= 26 + 16 * (run / 16)
  {
    hide Symbol, Zrl, Magnitude, NBits, NoShort;
    SmallCategory(c[i]);
    ZrlLength(h, run / 16);
    SymbolLength(h, RunSize(run % 16, NBits(Abs(c[i]))));
  }

  lemma {:induction false} AcAtLeastTwo(h: Spec, c: seq<int>, i: nat, run: nat)
    requires CoversAc(h) && NoShort(h) && Codable(c) && 1 <= i <= 64 && (i < 64 || run > 0)
    ensures |EncodeAc(h, c, i, run)| >= 2
    decreases 64 - i
  {
    hide Symbol, CoversAc, NoShort, EncodeAc;
    if i == 64 {
      AcAtEnd(h, c, run);
      EndLengths(h);
    } else if c[i] == 0 {
      AcAtZero(h, c, i, run);
      AcAtLeastTwo(h, c, i + 1, run + 1);
    } else {
      CoefficientLength(h, c, i, run);
    }
  }

  lemma AcAtEnd(h: Spec, c: seq<int>, run: nat)
    requires NoShort(h) && Codable(c)
    ensures EncodeAc(h, c, 64, run) == if run > 0 then Symbol(h, 0x00) else []
  {
  }

  lemma AcAtZero(h: Spec, c: seq<int>, i: nat, run: nat)
    requires NoShort(h) && Codable(c) && 1 <= i < 64 && c[i] == 0
    ensures EncodeAc(h, c, i, run) == EncodeAc(h, c, i + 1, run + 1)
  {
  }

  /** No list of AC coefficients has a shorter code than that of zeros only:
      even when the last one is not zero, and no end of block is coded. */
  lemma {:induction false} AcAtLeastEob(h: Spec, c: seq<int>, i: nat)
    requires CoversAc(h) && NoShort(h) && Codable(c) && 1 <= i <= 64 && |Symbol(h, 0x00)| <= 5
    ensures |EncodeAc(h, c, i, i - 1)| >= |Symbol(h, 0x00)|
    decreases 64 - i
  {
    hide Symbol, CoversAc, NoShort, EncodeAc;
    if i == 64 {
      AcAtEnd(h, c, i - 1);
    } else if c[i] == 0 {
      AcAtZero(h, c, i, i - 1);
      AcAtLeastEob(h, c, i + 1);
    } else {
      CoefficientLength(h, c, i, i - 1);
      if i < 63 {
        AcAtLeastTwo(h, c, i + 1, 0);
      }
    }
  }

  lemma {:induction false} AcAtMost(h: Spec, c: seq<int>, i: nat, run: nat)
    requires CoversAc(h) && NoShort(h) && Codable(c) && 1 <= i <= 64
    ensures |EncodeAc(h, c, i, run)| <= 26 * (64 - i + run)
    decreases 64 - i
  {
    hide Symbol, CoversAc, NoShort, EncodeAc;
    if i == 64 {
      AcAtEnd(h, c, run);
      EndLengths(h);
    } else if c[i] == 0 {
      AcAtZero(h, c, i, run);
      AcAtMost(h, c, i + 1, run + 1);
    } else {
      CoefficientLength(h, c, i, run);
      AcAtMost(h, c, i + 1, 0);
    }
  }

  /** The longest code a block can need: 27 bits for the DC difference and 26 for
      each AC coefficient. */
  const MOST_BITS := 27 + 63 * 26

  lemma BlockLength(k: Coder, n: nat, pred: int, c: seq<int>)
    requires Frugal(k, n) && Codable(c) && CodableDiff(c[0] - pred)
    ensures n <= |EncodeBlock(k, pred, c)| <= MOST_BITS
  {
    hide EncodeAc, Symbol, NBits;
    var d := c[0] - pred;
    SmallCategory(d);
    SymbolDecodes(k.dc, NBits(Abs(d)), []);
    AcAtLeastEob(k.ac, c, 1);
    AcAtMost(k.ac, c, 1, 0);
  }

  // ------------------------------------------------------------------ scans

  /** The bits of the shortest code for blocks of these components. */
  function LeastBits(cs: seq<int>): nat {
    if cs == [] then 0 else (if cs[0] == 0 then 6 else 4) + LeastBits(cs[1..])
  }

  lemma {:induction false} LeastBitsAppend(a: seq<int>, b: seq<int>)
    ensures LeastBits(a + b) == LeastBits(a) + LeastBits(b)
  {
    if a == [] {
      assert a + b == b;
    } else {
      LeastBitsAppend(a[1..], b);
      assert (a + b)[1..] == a[1..] + b;
    }
  }

  lemma {:induction false} ScanLength(k: Coders, preds: seq<int>, bs: seq<Block>)
    requires WellSizedCoders(k) && FrugalCoders(k) && ValidPreds(preds) && CodableBlocks(bs)
    ensures LeastBits(Comps(bs)) <= |EncodeBlocks(k, preds, bs)| <= MOST_BITS * |bs|
    decreases bs
  {
    hide EncodeBlock, Frugal;
    if bs != [] {
      var b := bs[0];
      BlockLength(CoderOf(k, b.comp), if b.comp == 0 then 6 else 4, preds[b.comp], b.coefs);
      ScanLength(k, NextPreds(preds, b), bs[1..]);
      assert Comps(bs)[1..] == Comps(bs[1..]);
    }
  }

  // --------------------------------------------------------- stuffed bytes

  lemma {:induction false} PackedLength(s: seq<bool>)
    ensures |PackBytes(s)| == |s| / 8
    decreases |s|
  {
    if |s| >= 8 {
      PackedLength(s[8..]);
    }
  }

  lemma {:induction false} StuffedLength(b: seq<byte>)
    ensures |b| <= |Stuff(b)| <= 2 * |b|
    ensures 0xFF !in b ==> Stuff(b) == b
  {
    if b != [] {
      StuffedLength(b[1..]);
    }
  }

  /** No two ones in a row, and none at the end. */
  predicate Calm(s: seq<bool>) {
    && (forall i :: 0 <= i < |s| - 1 ==> !s[i] || !s[i + 1])
    && (s != [] ==> !s[|s| - 1])
  }

  lemma CalmAppend(a: seq<bool>, b: seq<bool>)
    requires Calm(a) && Calm(b)
    ensures Calm(a + b)
  {
    var s := a + b;
    forall i | 0 <= i < |s| - 1
      ensures !s[i] || !s[i + 1]
    {
      if i + 1 < |a| {
        assert !a[i] || !a[i + 1];
      } else if i >= |a| {
        assert !b[i - |a|] || !b[i - |a| + 1];
      }
    }
  }

  lemma OnlyOnesAreFF(s: seq<bool>)
    requires |s| == 8 && Value(s) == 0xFF
    ensures s == [true, true, true, true, true, true, true, true]
  {
    ToBitsValue(s);
    assert ToBits(0xF, 4) == [true, true, true, true];
    assert ToBits(0x3F, 6) == ToBits(0xF, 4) + [true, true];
    assert ToBits(0xFF, 8) == ToBits(0x3F, 6) + [true, true];
  }

  lemma ZeroBitNotFF(s: seq<bool>, k: nat)
    requires |s| == 8 && k < 8 && !s[k]
    ensures Value(s) != 0xFF
  {
    hide Value;
    if Value(s) == 0xFF {
      OnlyOnesAreFF(s);
    }
  }

  /** Such bits, padded with ones, make no byte that needs stuffing. */
  lemma {:induction false} CalmHasNoFF(s: seq<bool>)
    requires Calm(s)
    ensures 0xFF !in PackBytes(s + Ones(7))
    decreases |s|
  {
    hide Value;
    var t := s + Ones(7);
    if s != [] {
      var k := if |s| < 8 then |s| - 1 else if s[0] then 1 else 0;
      assert !t[..8][k];
      ZeroBitNotFF(t[..8], k);
      if |s| >= 8 {
        assert t[8..] == s[8..] + Ones(7);
        CalmTail(s);
        CalmHasNoFF(s[8..]);
      } else {
        assert |t[8..]| < 8;
      }
      assert PackBytes(t) == [Value(t[..8])] + PackBytes(t[8..]);
    }
  }

  lemma CalmTail(s: seq<bool>)
    requires Calm(s) && |s| >= 8
    ensures Calm(s[8..])
  {
    assert |s| > 8 ==> s[8..][|s| - 9] == s[|s| - 1];
  }

  // --------------------------------------------------- the shortest scan

  function Flat(): (c: seq<int>)
    ensures |c| == 64 && Codable(c)
  {
    seq(64, _ => 0)
  }

  lemma {:induction false} FlatAc(h: Spec, i: nat)
    requires WellSized(h) && 1 <= i <= 64
    ensures EncodeAc(h, Flat(), i, i - 1) == Symbol(h, 0x00)
    decreases 64 - i
  {
    hide Symbol;
    if i < 64 {
      FlatAc(h, i + 1);
    }
  }

  lemma FlatBlock(k: Coder)
    requires WellSizedCoder(k)
    ensures EncodeBlock(k, 0, Flat()) == Symbol(k.dc, 0x00) + Symbol(k.ac, 0x00)
  {
    hide Symbol, EncodeAc;
    FlatAc(k.ac, 1);
    assert NBits(0) == 0 && |Magnitude(0)| == 0;
  }

  ghost predicate CalmCoder(k: Coder) {
    WellSizedCoder(k) && Calm(Symbol(k.dc, 0x00)) && Calm(Symbol(k.ac, 0x00))
  }

  /** A scan of flat blocks has the shortest code. */
  lemma {:induction false} FlatScan(k: Coders, bs: seq<Block>)
    requires WellSizedCoders(k) && FrugalCoders(k) && CalmCoder(k.luma) && CalmCoder(k.chroma)
    requires CodableBlocks(bs) && forall i :: 0 <= i < |bs| ==> bs[i].coefs == Flat()
    ensures |EncodeBlocks(k, [0, 0, 0], bs)| == LeastBits(Comps(bs)) && Calm(EncodeBlocks(k, [0, 0, 0], bs))
    decreases bs
  {
    hide EncodeBlock, Symbol, Calm, Codable;
    if bs == [] {
      EmptyIsCalm();
    } else {
      var b := bs[0];
      var c := CoderOf(k, b.comp);
      FlatBlock(c);
      CalmAppend(Symbol(c.dc, 0x00), Symbol(c.ac, 0x00));
      assert NextPreds([0, 0, 0], b) == [0, 0, 0];
      FlatScan(k, bs[1..]);
      CalmAppend(EncodeBlock(c, 0, b.coefs), EncodeBlocks(k, [0, 0, 0], bs[1..]));
      assert Comps(bs)[1..] == Comps(bs[1..]);
    }
  }

  lemma EmptyIsCalm()
    ensures Calm([])
  {
  }

  // ------------------------------------------------------ standard tables

  /** A symbol listed once has the code of its position. */
  lemma TablesAtOnce(h: Spec, p: nat)
    requires WellSized(h) && p < Total(h.bits) && h.val[p] !in h.val[p + 1..Total(h.bits)]
    ensures CodeTable(h)[h.val[p]] == CodeAt(h.bits, p) && SizeTable(h)[h.val[p]] == SizeAt(h.bits, p)
  {
    hide CodeAt, SizeAt;
    var n := Total(h.bits);
    forall q | p < q < n
      ensures h.val[q] != h.val[p]
    {
      assert h.val[q] == h.val[p + 1..n][q - p - 1];
    }
    ScatterAt(h.val, Codes(h.bits), n, p);
    ScatterAt(h.val, Sizes(h.bits), n, p);
  }

  lemma CodeOfOnce(h: Spec, p: nat, size: nat)
    requires WellSized(h) && p < Total(h.bits) && h.val[p] !in h.val[p + 1..Total(h.bits)]
    requires 1 <= size <= 16 && Index(h.bits, size) <= p < Index(h.bits, size + 1)
    ensures Symbol(h, h.val[p]) == ToBits(First(h.bits, size) + (p - Index(h.bits, size)), size)
  {
    hide CodeTable, SizeTable, SizeAt, First, Index, ToBits;
    TablesAtOnce(h, p);
    SizeUnique(h.bits, p, size);
  }

  /** The code lengths 1 to 4 of a table. */
  lemma ShortCounts(bits: seq<byte>, a: nat, b: nat, c: nat)
    requires |bits| == 17 && bits[1] == 0 && bits[2] == a && bits[3] == b && bits[4] == c
    ensures Index(bits, 2) == 0 && Index(bits, 3) == a && Index(bits, 4) == a + b && Index(bits, 5) == a + b + c
    ensures First(bits, 2) == 0 && First(bits, 3) == 2 * a && First(bits, 4) == 2 * (2 * a + b)
  {
    hide Index, First;
    StartOfCounts(bits);
    NextLength(bits, 1);
    NextLength(bits, 2);
    NextLength(bits, 3);
    NextLength(bits, 4);
  }

  lemma DcLumZero()
    ensures WellSized(DC_LUM) && Symbol(DC_LUM, 0x00) == [false, false]
  {
    hide Index, First, Symbol, Valid;
    DcLumSizes();
    ShortCounts(DC_LUM_BITS, 1, 5, 1);
    assert 0 !in DC_LUM_VAL[1..12];
    CodeOfOnce(DC_LUM, 0, 2);
    TwoZeros();
  }

  lemma DcChromaZero()
    ensures WellSized(DC_CHROMA) && Symbol(DC_CHROMA, 0x00) == [false, false]
  {
    hide Index, First, Symbol, Valid;
    DcChromaSizes();
    ShortCounts(DC_CHROMA_BITS, 3, 1, 1);
    assert 0 !in DC_CHROMA_VAL[1..12];
    CodeOfOnce(DC_CHROMA, 0, 2);
    TwoZeros();
  }

  lemma TwoZeros()
    ensures ToBits(0, 2) == [false, false]
  {
    assert ToBits(0, 1) == [false];
  }

  /** A symbol that stands at position n - 1 of eleven rows, and nowhere behind. */
  lemma OnceInRows(r0: seq<byte>, r1: seq<byte>, r2: seq<byte>, r3: seq<byte>, r4: seq<byte>, r5: seq<byte>,
                   r6: seq<byte>, r7: seq<byte>, r8: seq<byte>, r9: seq<byte>, r10: seq<byte>, n: nat, x: byte)
    requires n <= |r0| && x !in r0[n..]
    requires x !in r1 && x !in r2 && x !in r3 && x !in r4 && x !in r5
    requires x !in r6 && x !in r7 && x !in r8 && x !in r9 && x !in r10
    ensures x !in (r0 + r1 + r2 + r3 + r4 + r5 + r6 + r7 + r8 + r9 + r10)[n..]
  {
    NotInTail(r0, r1, n, x);
    NotInTail(r0 + r1, r2, n, x);
    NotInTail(r0 + r1 + r2, r3, n, x);
    NotInTail(r0 + r1 + r2 + r3, r4, n, x);
    NotInTail(r0 + r1 + r2 + r3 + r4, r5, n, x);
    NotInTail(r0 + r1 + r2 + r3 + r4 + r5, r6, n, x);
    NotInTail(r0 + r1 + r2 + r3 + r4 + r5 + r6, r7, n, x);
    NotInTail(r0 + r1 + r2 + r3 + r4 + r5 + r6 + r7, r8, n, x);
    NotInTail(r0 + r1 + r2 + r3 + r4 + r5 + r6 + r7 + r8, r9, n, x);
    NotInTail(r0 + r1 + r2 + r3 + r4 + r5 + r6 + r7 + r8 + r9, r10, n, x);
  }

  lemma NotInTail(a: seq<byte>, b: seq<byte>, n: nat, x: byte)
    requires n <= |a| && x !in a[n..] && x !in b
    ensures x !in (a + b)[n..]
  {
    assert (a + b)[n..] == a[n..] + b;
  }

  lemma LumZeroInFirst()
    ensures LUM_0[3] == 0x00 && |LUM_0| == 16 && 0x00 !in LUM_0[4..]
  {
  }

  lemma LumHasNoZeroUpper()
    ensures 0x00 !in LUM_1 && 0x00 !in LUM_2 && 0x00 !in LUM_3
  {
  }

  lemma LumHasNoZeroMiddle()
    ensures 0x00 !in LUM_4 && 0x00 !in LUM_5 && 0x00 !in LUM_6
  {
  }

  lemma LumHasNoZeroLower()
    ensures 0x00 !in LUM_7 && 0x00 !in LUM_8 && 0x00 !in LUM_9 && 0x00 !in LUM_10
  {
  }

  /** EOB is listed once. */
  lemma LumZeroOnce()
    ensures |AC_LUM_VAL| == 162 && AC_LUM_VAL[3] == 0x00 && 0x00 !in AC_LUM_VAL[4..162]
  {
    AcLumSizes();
    LumZeroInFirst();
    LumHasNoZeroUpper();
    LumHasNoZeroMiddle();
    LumHasNoZeroLower();
    OnceInRows(LUM_0, LUM_1, LUM_2, LUM_3, LUM_4, LUM_5, LUM_6, LUM_7, LUM_8, LUM_9, LUM_10, 4, 0x00);
    assert AC_LUM_VAL[4..162] == AC_LUM_VAL[4..];
  }

  lemma ChromaZeroInFirst()
    ensures CHROMA_0[0] == 0x00 && |CHROMA_0| == 16 && 0x00 !in CHROMA_0[1..]
  {
  }

  lemma ChromaHasNoZeroUpper()
    ensures 0x00 !in CHROMA_1 && 0x00 !in CHROMA_2 && 0x00 !in CHROMA_3
  {
  }

  lemma ChromaHasNoZeroMiddle()
    ensures 0x00 !in CHROMA_4 && 0x00 !in CHROMA_5 && 0x00 !in CHROMA_6
  {
  }

  lemma ChromaHasNoZeroLower()
    ensures 0x00 !in CHROMA_7 && 0x00 !in CHROMA_8 && 0x00 !in CHROMA_9 && 0x00 !in CHROMA_10
  {
  }

  /** EOB is listed once. */
  lemma ChromaZeroOnce()
    ensures |AC_CHROMA_VAL| == 162 && AC_CHROMA_VAL[0] == 0x00 && 0x00 !in AC_CHROMA_VAL[1..162]
  {
    AcChromaSizes();
    ChromaZeroInFirst();
    ChromaHasNoZeroUpper();
    ChromaHasNoZeroMiddle();
    ChromaHasNoZeroLower();
    OnceInRows(CHROMA_0, CHROMA_1, CHROMA_2, CHROMA_3, CHROMA_4, CHROMA_5, CHROMA_6, CHROMA_7, CHROMA_8, CHROMA_9, CHROMA_10, 1, 0x00);
    assert AC_CHROMA_VAL[1..162] == AC_CHROMA_VAL[1..];
  }

  lemma AcLumZero()
    ensures WellSized(AC_LUM) && Symbol(AC_LUM, 0x00) == [true, false, true, false]
  {
    hide Index, First, Symbol, Valid;
    AcLumSizes();
    ShortCounts(AC_LUM_BITS, 2, 1, 3);
    LumZeroOnce();
    CodeOfOnce(AC_LUM, 3, 4);
    assert ToBits(2, 2) == [true, false];
    assert ToBits(10, 4) == [true, false, true, false];
  }

  lemma AcChromaZero()
    ensures WellSized(AC_CHROMA) && Symbol(AC_CHROMA, 0x00) == [false, false]
  {
    hide Index, First, Symbol, Valid;
    AcChromaSizes();
    ShortCounts(AC_CHROMA_BITS, 2, 1, 2);
    ChromaZeroOnce();
    CodeOfOnce(AC_CHROMA, 0, 2);
    TwoZeros();
  }

  /** The shortest luma block has 6 bits, the shortest chroma block 4. */
  lemma StandardIsFrugal()
    ensures Frugal(LUMA, 6) && Frugal(CHROMA, 4)
  {
    hide Symbol, Covers, NoShort;
    StandardCovers();
    LumIsFrugal();
    ChromaIsFrugal();
  }

  lemma LumIsFrugal()
    ensures NoShort(DC_LUM) && NoShort(AC_LUM)
    ensures |Symbol(DC_LUM, 0x00)| == 2 && |Symbol(AC_LUM, 0x00)| == 4
  {
    hide Symbol, NoShort, Valid;
    DcLumSizes();
    AcLumSizes();
    NoShortCodes(DC_LUM);
    NoShortCodes(AC_LUM);
    DcLumZero();
    AcLumZero();
  }

  lemma ChromaIsFrugal()
    ensures NoShort(DC_CHROMA) && NoShort(AC_CHROMA)
    ensures |Symbol(DC_CHROMA, 0x00)| == 2 && |Symbol(AC_CHROMA, 0x00)| == 2
  {
    hide Symbol, NoShort, Valid;
    DcChromaSizes();
    AcChromaSizes();
    NoShortCodes(DC_CHROMA);
    NoShortCodes(AC_CHROMA);
    DcChromaZero();
    AcChromaZero();
  }

  lemma StandardIsCalm()
    ensures CalmCoder(LUMA) && CalmCoder(CHROMA)
  {
    hide Symbol;
    DcLumZero();
    AcLumZero();
    DcChromaZero();
    AcChromaZero();
  }
}
