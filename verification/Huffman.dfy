/** Huffman code generation (jpge.cpp, compute_huffman_table) and the decoder of
    ITU-T T.81 section F.2.2.3, which knows only the BITS and HUFFVAL lists that
    a DHT segment carries. */
module Huffman {
  import opened Words
  import opened Bits

  /** bits[l] (l in 1..16) counts the codes of length l; bits[0] is unused.
      val lists the symbols by increasing code. */
  datatype Spec = Spec(bits: seq<byte>, val: seq<byte>)

  /** The number of codes shorter than l. */
  function Index(bits: seq<byte>, l: nat): nat
    requires |bits| == 17 && 1 <= l <= 17
  {
    if l == 1 then 0 else Index(bits, l - 1) + bits[l - 1]
  }

  /** The first code of length l. */
  function First(bits: seq<byte>, l: nat): nat
    requires |bits| == 17 && 1 <= l <= 17
  {
    if l == 1 then 0 else 2 * (First(bits, l - 1) + bits[l - 1])
  }

  function Total(bits: seq<byte>): nat
    requires |bits| == 17
  {
    Index(bits, 17)
  }

  /** The lists index inside the 256-entry tables of the encoder. */
  predicate WellSized(h: Spec) {
    |h.bits| == 17 && Total(h.bits) <= 256 && Total(h.bits) <= |h.val|
  }

  /** Kraft's inequality, scaled by 2^16. */
  predicate Kraft(bits: seq<byte>)
    requires |bits| == 17
  {
    First(bits, 16) + bits[16] <= Pow2(16)
  }

  predicate Valid(h: Spec) {
    WellSized(h) && Kraft(h.bits)
  }

  /** The length of the p-th code, by increasing code. */
  function SizeFrom(bits: seq<byte>, p: nat, l: nat): (s: nat)
    requires |bits| == 17 && 1 <= l <= 17 && Index(bits, l) <= p < Total(bits)
    ensures l <= s <= 16 && Index(bits, s) <= p < Index(bits, s + 1)
    decreases 17 - l
  {
    if p < Index(bits, l + 1) then l else SizeFrom(bits, p, l + 1)
  }

  function SizeAt(bits: seq<byte>, p: nat): (s: nat)
    requires |bits| == 17 && p < Total(bits)
    ensures 1 <= s <= 16 && Index(bits, s) <= p < Index(bits, s + 1)
  {
    SizeFrom(bits, p, 1)
  }

  function CodeAt(bits: seq<byte>, p: nat): nat
    requires |bits| == 17 && p < Total(bits)
  {
    var s := SizeAt(bits, p);
    First(bits, s) + (p - Index(bits, s))
  }

  lemma NextLength(bits: seq<byte>, l: nat)
    requires |bits| == 17 && 1 <= l <= 16
    ensures Index(bits, l + 1) == Index(bits, l) + bits[l]
    ensures First(bits, l + 1) == 2 * (First(bits, l) + bits[l])
  {
  }

  lemma {:induction false} IndexMono(bits: seq<byte>, l: nat, m: nat)
    requires |bits| == 17 && 1 <= l <= m <= 17
    ensures Index(bits, l) <= Index(bits, m)
  {
    if l < m {
      IndexMono(bits, l, m - 1);
    }
  }

  lemma SizeUnique(bits: seq<byte>, p: nat, l: nat)
    requires |bits| == 17 && 1 <= l <= 16 && p < Total(bits)
    requires Index(bits, l) <= p < Index(bits, l + 1)
    ensures SizeAt(bits, p) == l
  {
    var s := SizeAt(bits, p);
    if s < l {
      IndexMono(bits, s + 1, l);
    } else if l < s {
      IndexMono(bits, l + 1, s);
    }
  }

  lemma {:induction false} FirstBound(bits: seq<byte>, l: nat)
    requires |bits| == 17 && 1 <= l <= 16
    ensures First(bits, l) + bits[l] <= 255 * (Pow2(l) - 1)
  {
    if l == 1 {
      assert Pow2(1) == 2 * Pow2(0);
    } else {
      FirstBound(bits, l - 1);
    }
  }

  lemma {:induction false} FirstZero(bits: seq<byte>, l: nat)
    requires |bits| == 17 && 1 <= l <= 17 && Index(bits, l) == 0
    ensures First(bits, l) == 0
  {
    if l > 1 {
      FirstZero(bits, l - 1);
    }
  }

  /** Without codes of the lengths between, the codes of length m start where
      those of length l end, extended by zeros. */
  lemma {:induction false} FirstAfterGap(bits: seq<byte>, l: nat, m: nat)
    requires |bits| == 17 && 1 <= l < m <= 17 && Index(bits, m) == Index(bits, l + 1)
    ensures First(bits, m) == ShiftLeft(First(bits, l) + bits[l], m - l)
    decreases m
  {
    if m == l + 1 {
      assert ShiftLeft(First(bits, l) + bits[l], 0) == First(bits, l) + bits[l];
    } else {
      IndexMono(bits, l + 1, m - 1);
      FirstAfterGap(bits, l, m - 1);
    }
  }

  // ---------------------------------------------------------------- Annex C

  lemma SizeMono(bits: seq<byte>, p: nat, q: nat)
    requires |bits| == 17 && p <= q < Total(bits)
    ensures SizeAt(bits, p) <= SizeAt(bits, q)
  {
    var r, s := SizeAt(bits, p), SizeAt(bits, q);
    if s < r {
      IndexMono(bits, s + 1, r);
    }
  }

  /** HUFFCODE of T.81 Annex C (figure C.2): the first code is zero, and each
      code is its predecessor plus one, shifted to the next length. */
  lemma CanonicalOrder(bits: seq<byte>, p: nat)
    requires |bits| == 17 && p < Total(bits)
    ensures p == 0 ==> CodeAt(bits, p) == 0
    ensures p > 0 ==>
      SizeAt(bits, p - 1) <= SizeAt(bits, p)
      && CodeAt(bits, p) == ShiftLeft(CodeAt(bits, p - 1) + 1, SizeAt(bits, p) - SizeAt(bits, p - 1))
  {
    hide SizeAt, First, Index;
    if p == 0 {
      assert Index(bits, SizeAt(bits, p)) == 0;
      FirstZero(bits, SizeAt(bits, p));
    } else {
      NextLength(bits, SizeAt(bits, p - 1));
      SizeMono(bits, p - 1, p);
      var r, s := SizeAt(bits, p - 1), SizeAt(bits, p);
      if r < s {
        IndexMono(bits, r + 1, s);
        assert p == Index(bits, r + 1) == Index(bits, s);
        FirstAfterGap(bits, r, s);
      }
    }
  }

  lemma {:induction false} KraftAt(bits: seq<byte>, l: nat)
    requires |bits| == 17 && Kraft(bits) && 1 <= l <= 16
    ensures First(bits, l) + bits[l] <= Pow2(l)
    decreases 16 - l
  {
    if l < 16 {
      KraftAt(bits, l + 1);
    }
  }

  /** If the longest codes fit, Kraft's inequality holds. */
  lemma {:induction false} KraftFrom(bits: seq<byte>, l: nat)
    requires |bits| == 17 && 1 <= l <= 16 && Index(bits, l + 1) == Total(bits)
    requires First(bits, l) + bits[l] <= Pow2(l)
    ensures Kraft(bits)
    decreases 16 - l
  {
    if l < 16 {
      IndexMono(bits, l + 2, 17);
      KraftFrom(bits, l + 1);
    }
  }

  /** Every code fits in its length exactly when Kraft's inequality holds. */
  lemma CodesFitIffKraft(bits: seq<byte>)
    requires |bits| == 17
    ensures Kraft(bits) <==> forall p :: 0 <= p < Total(bits) ==> CodeAt(bits, p) < Pow2(SizeAt(bits, p))
  {
    if Kraft(bits) {
      forall p | 0 <= p < Total(bits)
        ensures CodeAt(bits, p) < Pow2(SizeAt(bits, p))
      {
        KraftAt(bits, SizeAt(bits, p));
      }
    } else if Total(bits) == 0 {
      IndexMono(bits, 16, 17);
      FirstZero(bits, 16);
    } else {
      var p := Total(bits) - 1;
      var s := SizeAt(bits, p);
      IndexMono(bits, s + 1, 17);
      if CodeAt(bits, p) < Pow2(s) {
        KraftFrom(bits, s);
      }
    }
  }

  // ------------------------------------------------- the generated tables

  /** The 256-entry table that stores xs[p] for symbol val[p], p < n. */
  function Scatter(val: seq<byte>, xs: seq<int>, n: nat): (t: seq<int>)
    requires n <= |val| && n <= |xs|
    ensures |t| == 256
  {
    if n == 0 then seq(256, _ => 0) else Scatter(val, xs, n - 1)[val[n - 1] := xs[n - 1]]
  }

  function Codes(bits: seq<byte>): (cs: seq<nat>)
    requires |bits| == 17
    ensures |cs| == Total(bits)
  {
    seq(Total(bits), p requires 0 <= p < Total(bits) => CodeAt(bits, p))
  }

  function Sizes(bits: seq<byte>): (cs: seq<nat>)
    requires |bits| == 17
    ensures |cs| == Total(bits)
  {
    seq(Total(bits), p requires 0 <= p < Total(bits) => SizeAt(bits, p))
  }

  function CodeTable(h: Spec): (t: seq<int>)
    requires WellSized(h)
    ensures |t| == 256
  {
    Scatter(h.val, Codes(h.bits), Total(h.bits))
  }

  function SizeTable(h: Spec): (t: seq<int>)
    requires WellSized(h)
    ensures |t| == 256
  {
    Scatter(h.val, Sizes(h.bits), Total(h.bits))
  }

  /** The entry of a symbol comes from its last position in val. */
  lemma {:induction false} ScatterAt(val: seq<byte>, xs: seq<int>, n: nat, p: nat)
    requires p < n <= |val| && n <= |xs|
    requires forall q :: p < q < n ==> val[q] != val[p]
    ensures Scatter(val, xs, n)[val[p]] == xs[p]
  {
    if p < n - 1 {
      ScatterAt(val, xs, n - 1, p);
    }
  }

  lemma {:induction false} ScatterElsewhere(val: seq<byte>, xs: seq<int>, n: nat, sym: byte)
    requires n <= |val| && n <= |xs| && sym !in val[..n]
    ensures Scatter(val, xs, n)[sym] == 0
  {
    if n > 0 {
      assert val[n - 1] in val[..n];
      assert forall x :: x in val[..n - 1] ==> x in val[..n];
      ScatterElsewhere(val, xs, n - 1, sym);
    }
  }

  lemma {:induction false} LastPosition(val: seq<byte>, n: nat, sym: byte) returns (p: nat)
    requires n <= |val| && sym in val[..n]
    ensures p < n && val[p] == sym && forall q :: p < q < n ==> val[q] != sym
  {
    if val[n - 1] == sym {
      p := n - 1;
    } else {
      p := LastPosition(val, n - 1, sym);
    }
  }

  predicate HasCode(h: Spec, sym: byte)
    requires WellSized(h)
  {
    sym in h.val[..Total(h.bits)]
  }

  /** A symbol has a code of nonzero length exactly when the list names it, and
      then its table entries are the canonical code at a position of it. */
  lemma TableEntry(h: Spec, sym: byte)
    requires WellSized(h)
    ensures SizeTable(h)[sym] != 0 <==> HasCode(h, sym)
    ensures HasCode(h, sym) ==> exists p ::
      0 <= p < Total(h.bits) && h.val[p] == sym
      && SizeTable(h)[sym] == SizeAt(h.bits, p) && CodeTable(h)[sym] == CodeAt(h.bits, p)
  {
    var n := Total(h.bits);
    if HasCode(h, sym) {
      var p := LastPosition(h.val, n, sym);
      ScatterAt(h.val, Codes(h.bits), n, p);
      ScatterAt(h.val, Sizes(h.bits), n, p);
    } else {
      ScatterElsewhere(h.val, Sizes(h.bits), n, sym);
    }
  }

  /** With distinct symbols, every listed code reaches the tables. */
  lemma DistinctEntries(h: Spec, p: nat)
    requires WellSized(h) && p < Total(h.bits)
    requires forall q, r :: 0 <= q < r < Total(h.bits) ==> h.val[q] != h.val[r]
    ensures CodeTable(h)[h.val[p]] == CodeAt(h.bits, p)
    ensures SizeTable(h)[h.val[p]] == SizeAt(h.bits, p)
  {
    ScatterAt(h.val, Codes(h.bits), Total(h.bits), p);
    ScatterAt(h.val, Sizes(h.bits), Total(h.bits), p);
  }

  /** compute_huffman_table. No Kraft condition is needed for it to terminate,
      to stay inside its tables, or for its 32-bit code counter not to wrap. */
  method ComputeHuffmanTable(codes: array<uint32>, codeSizes: array<byte>, ghost h: Spec, bits: seq<byte>, val: seq<byte>)
    requires h == Spec(bits, val) && WellSized(h)
    requires codes.Length == 256 && codeSizes.Length == 256
    modifies codes, codeSizes
    ensures codes[..] == CodeTable(h) && codeSizes[..] == SizeTable(h)
  {
    hide SizeAt, CodeAt, Index, First;
    var huffSize := new byte[257];
    var huffCode := new uint32[257];
    var p := FillSizes(huffSize, bits);
    huffSize[p] := 0;
    var lastP := p;
    FillCodes(huffCode, huffSize[..], bits, lastP);

    forall i | 0 <= i < 256 { codes[i] := 0; }
    forall i | 0 <= i < 256 { codeSizes[i] := 0; }
    assert codes[..] == Scatter(val, Codes(bits), 0);
    assert codeSizes[..] == Scatter(val, Sizes(bits), 0);
    for q := 0 to lastP
      invariant codes[..] == Scatter(val, Codes(bits), q)
      invariant codeSizes[..] == Scatter(val, Sizes(bits), q)
      invariant forall k :: 0 <= k < lastP ==> huffSize[k] == SizeAt(bits, k) && huffCode[k] == CodeAt(bits, k)
    {
      codes[val[q]] := huffCode[q];
      codeSizes[val[q]] := huffSize[q];
    }
  }

  /** The first loop: one entry per code, by increasing length. */
  method FillSizes(huffSize: array<byte>, bits: seq<byte>) returns (p: nat)
    requires |bits| == 17 && Total(bits) <= 256 && huffSize.Length == 257
    modifies huffSize
    ensures p == Total(bits)
    ensures forall q :: 0 <= q < p ==> huffSize[q] == SizeAt(bits, q)
  {
    p := 0;
    for l := 1 to 17
      invariant p == Index(bits, l) <= Total(bits)
      invariant forall q :: 0 <= q < p ==> huffSize[q] == SizeAt(bits, q)
    {
      IndexMono(bits, l + 1, 17);
      for i := 0 to bits[l]
        invariant p == Index(bits, l) + i
        invariant forall q :: 0 <= q < p ==> huffSize[q] == SizeAt(bits, q)
      {
        SizeUnique(bits, p, l);
        huffSize[p] := l;
        p := p + 1;
      }
    }
  }

  /** The code loop, over the zero-terminated list of lengths. */
  method FillCodes(huffCode: array<uint32>, huffSize: seq<byte>, bits: seq<byte>, lastP: nat)
    requires |bits| == 17 && lastP == Total(bits) <= 256
    requires |huffSize| == 257 && huffCode.Length == 257
    requires forall q :: 0 <= q < lastP ==> huffSize[q] == SizeAt(bits, q)
    requires huffSize[lastP] == 0
    modifies huffCode
    ensures forall q :: 0 <= q < lastP ==> huffCode[q] == CodeAt(bits, q)
  {
    hide SizeAt, Index, First, Pow2;
    var code: uint32, si: int, p := 0, huffSize[0] as int, 0;
    if lastP > 0 {
      assert Index(bits, si) == 0;
      FirstZero(bits, si);
    }
    while huffSize[p] != 0
      invariant 0 <= p <= lastP
      invariant lastP > 0 ==> 1 <= si <= 17 && p == Index(bits, si) && code == First(bits, si)
      invariant forall q :: 0 <= q < p ==> huffCode[q] == CodeAt(bits, q)
      decreases 17 - si
    {
      assert First(bits, si) + bits[si] < 0x100_0000 by {
        FirstBound(bits, si);
        Pow2Mono(si, 16);
        Pow2Values();
      }
      NextLength(bits, si);
      IndexMono(bits, si + 1, 17);
      while huffSize[p] == si
        invariant Index(bits, si) <= p <= Index(bits, si + 1)
        invariant code == First(bits, si) + (p - Index(bits, si))
        invariant forall q :: 0 <= q < p ==> huffCode[q] == CodeAt(bits, q)
        decreases lastP - p
      {
        huffCode[p] := code;
        p := p + 1;
        code := code + 1;
      }
      if p < Index(bits, si + 1) {
        SizeUnique(bits, p, si);
        assert false;
      }
      assert ShiftLeft(code, 1) == 2 * ShiftLeft(code, 0);
      code := Shl32(code, 1);
      si := si + 1;
    }
  }

  // ------------------------------------------------------------- decoding

  /** DECODE of T.81 figure F.16: read one bit at a time until the bits read
      are a code of their length; l is the next length, code the bits so far. */
  function DecodeFrom(h: Spec, s: seq<bool>, l: nat, code: nat): Option<(byte, seq<bool>)>
    requires WellSized(h) && 1 <= l <= 17
    decreases 17 - l
  {
    if l == 17 || s == [] then None
    else
      var c := 2 * code + if s[0] then 1 else 0;
      if First(h.bits, l) <= c < First(h.bits, l) + h.bits[l] then
        IndexMono(h.bits, l + 1, 17);
        Some((h.val[Index(h.bits, l) + (c - First(h.bits, l))], s[1..]))
      else DecodeFrom(h, s[1..], l + 1, c)
  }

  function DecodeSymbol(h: Spec, s: seq<bool>): Option<(byte, seq<bool>)>
    requires WellSized(h)
  {
    DecodeFrom(h, s, 1, 0)
  }

  /** The code word at position p, as the encoder writes it. */
  function CodeWord(bits: seq<byte>, p: nat): seq<bool>
    requires |bits| == 17 && p < Total(bits)
  {
    ToBits(CodeAt(bits, p), SizeAt(bits, p))
  }

  /** A code of length m, cut to i bits, lies above all codes of length i. */
  lemma {:induction false} CutAbove(bits: seq<byte>, c: nat, i: nat, m: nat)
    requires |bits| == 17 && 1 <= i < m <= 17 && c >= First(bits, m)
    ensures ShiftRight(c, m - i) >= First(bits, i) + bits[i]
  {
    if m > i + 1 {
      CutAbove(bits, c / 2, i, m - 1);
    } else {
      assert ShiftRight(c / 2, 0) == c / 2;
    }
  }

  lemma DecodeStep(h: Spec, b: bool, t: seq<bool>, l: nat, code: nat)
    requires WellSized(h) && 1 <= l <= 16
    ensures
      var c := 2 * code + if b then 1 else 0;
      DecodeFrom(h, [b] + t, l, code)
      == if First(h.bits, l) <= c < First(h.bits, l) + h.bits[l] then
           IndexMono(h.bits, l + 1, 17);
           Some((h.val[Index(h.bits, l) + (c - First(h.bits, l))], t))
         else DecodeFrom(h, t, l + 1, c)
  {
    assert ([b] + t)[1..] == t;
  }

  /** Decoding code c of length size after the first i - 1 of its bits. */
  lemma {:induction false} DecodeCode(h: Spec, c: nat, size: nat, rest: seq<bool>, i: nat)
    requires WellSized(h) && 1 <= i <= size <= 16
    requires First(h.bits, size) <= c < First(h.bits, size) + h.bits[size]
    requires Index(h.bits, size) + (c - First(h.bits, size)) < Total(h.bits)
    ensures DecodeFrom(h, ToBits(c, size - i + 1) + rest, i, ShiftRight(c, size - i + 1))
         == Some((h.val[Index(h.bits, size) + (c - First(h.bits, size))], rest))
    decreases size - i
  {
    hide DecodeFrom, ToBits, First;
    var n := size - i + 1;
    var b, t := ShiftRight(c, n - 1) % 2 == 1, ToBits(c, n - 1) + rest;
    ToBitsHead(c, n);
    ShiftRightStep(c, n);
    assert ToBits(c, n) + rest == [b] + t;
    DecodeStep(h, b, t, i, ShiftRight(c, n));
    if i == size {
      assert t == rest;
    } else {
      CutAbove(h.bits, c, i, size);
      DecodeCode(h, c, size, rest, i + 1);
    }
  }

  /** Greedy decoding of a code word returns its symbol and the unread bits. */
  lemma DecodeWord(h: Spec, p: nat, rest: seq<bool>)
    requires WellSized(h) && Kraft(h.bits) && p < Total(h.bits)
    ensures DecodeSymbol(h, CodeWord(h.bits, p) + rest) == Some((h.val[p], rest))
  {
    CodesFitIffKraft(h.bits);
    hide SizeAt, First, Index, DecodeFrom, ShiftRight, Pow2;
    var c, s := CodeAt(h.bits, p), SizeAt(h.bits, p);
    NextLength(h.bits, s);
    DecodeCode(h, c, s, rest, 1);
    ShiftRightZero(c, s);
  }

  /** Canonical codes are prefix-free. */
  lemma PrefixFree(bits: seq<byte>, p: nat, q: nat)
    requires |bits| == 17 && Total(bits) <= 256 && Kraft(bits)
    requires p < Total(bits) && q < Total(bits) && p != q
    ensures !(CodeWord(bits, p) <= CodeWord(bits, q))
  {
    hide SizeAt, DecodeSymbol, CodeWord;
    if CodeWord(bits, p) <= CodeWord(bits, q) {
      var h := Spec(bits, seq(256, i => i));
      var t := CodeWord(bits, q)[|CodeWord(bits, p)|..];
      assert CodeWord(bits, p) + t == CodeWord(bits, q) + [];
      DecodeWord(h, p, t);
      DecodeWord(h, q, []);
      assert false;
    }
  }
}
