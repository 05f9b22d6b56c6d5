/** Quantisation (jpge.cpp: load_quantized_coefficients, compute_quant_table)
    and the static tables that encoders share (jpg_open). */
module Quant {
  import opened Words
  import opened Huffman
  import opened Entropy
  import opened BlockCoding
  import opened StandardTables

  type cell = x: int | 1 <= x < 64 witness 1
  type step = x: int | 1 <= x <= 0xFF witness 1

  /** s_zag without its first entry, in four rows: the zigzag order of the AC
      coefficients. */
  const ZAG_0: seq<cell> := [1, 8, 16, 9, 2, 3, 10, 17, 24, 32, 25, 18, 11, 4, 5, 12]
  const ZAG_1: seq<cell> := [19, 26, 33, 40, 48, 41, 34, 27, 20, 13, 6, 7, 14, 21, 28, 35]
  const ZAG_2: seq<cell> := [42, 49, 56, 57, 50, 43, 36, 29, 22, 15, 23, 30, 37, 44, 51, 58]
  const ZAG_3: seq<cell> := [59, 52, 45, 38, 31, 39, 46, 53, 60, 61, 54, 47, 55, 62, 63]

  /** s_zag: the block position of the i-th coefficient in zigzag order. */
  function Zag(i: nat): (z: nat)
    requires i < 64
    ensures z < 64 && (i == 0 <==> z == 0)
  {
    if i == 0 then 0
    else if i < 17 then ZAG_0[i - 1]
    else if i < 33 then ZAG_1[i - 17]
    else if i < 49 then ZAG_2[i - 33]
    else ZAG_3[i - 49]
  }

  /** The cell after z in the zigzag of T.81 figure 5: up and to the right on even
      diagonals, down and to the left on odd ones, along the edges between. */
  function ZagNext(z: nat): int {
    var row, column := z / 8, z % 8;
    if (row + column) % 2 == 0 then
      if column == 7 then z + 8 else if row == 0 then z + 1 else z - 7
    else
      if row == 7 then z + 1 else if column == 0 then z + 8 else z + 7
  }

  lemma ZagRow0(i: nat)
    requires 1 <= i < 17
    ensures Zag(i) == ZagNext(Zag(i - 1))
  {
    var row := ZAG_0;
    assert row[0] == 1 && row[1] == 8 && row[2] == 16 && row[3] == 9 && row[4] == 2 && row[5] == 3 && row[6] == 10 && row[7] == 17;
    assert row[8] == 24 && row[9] == 32 && row[10] == 25 && row[11] == 18 && row[12] == 11 && row[13] == 4 && row[14] == 5 && row[15] == 12;
  }

  lemma ZagRow1(i: nat)
    requires 17 <= i < 33
    ensures Zag(i) == ZagNext(Zag(i - 1))
  {
    var row := ZAG_1;
    assert ZAG_0[15] == 12;
    assert row[0] == 19 && row[1] == 26 && row[2] == 33 && row[3] == 40 && row[4] == 48 && row[5] == 41 && row[6] == 34 && row[7] == 27;
    assert row[8] == 20 && row[9] == 13 && row[10] == 6 && row[11] == 7 && row[12] == 14 && row[13] == 21 && row[14] == 28 && row[15] == 35;
  }

  lemma ZagRow2(i: nat)
    requires 33 <= i < 49
    ensures Zag(i) == ZagNext(Zag(i - 1))
  {
    var row := ZAG_2;
    assert ZAG_1[15] == 35;
    assert row[0] == 42 && row[1] == 49 && row[2] == 56 && row[3] == 57 && row[4] == 50 && row[5] == 43 && row[6] == 36 && row[7] == 29;
    assert row[8] == 22 && row[9] == 15 && row[10] == 23 && row[11] == 30 && row[12] == 37 && row[13] == 44 && row[14] == 51 && row[15] == 58;
  }

  lemma ZagRow3(i: nat)
    requires 49 <= i < 64
    ensures Zag(i) == ZagNext(Zag(i - 1))
  {
    var row := ZAG_3;
    assert ZAG_2[15] == 58;
    assert row[0] == 59 && row[1] == 52 && row[2] == 45 && row[3] == 38 && row[4] == 31 && row[5] == 39 && row[6] == 46 && row[7] == 53;
    assert row[8] == 60 && row[9] == 61 && row[10] == 54 && row[11] == 47 && row[12] == 55 && row[13] == 62 && row[14] == 63;
  }

  /** The table is that zigzag. */
  lemma ZagIsZigzag(i: nat)
    requires 1 <= i < 64
    ensures Zag(0) == 0 && Zag(i) == ZagNext(Zag(i - 1))
  {
    hide ZagNext;
    if i < 17 {
      ZagRow0(i);
    } else if i < 33 {
      ZagRow1(i);
    } else if i < 49 {
      ZagRow2(i);
    } else {
      ZagRow3(i);
    }
  }

  /** The position in the zigzag order of the cells of row r of a block. */
  function UnzagRow(r: nat): (u: seq<int>)
    requires r < 8
    ensures |u| == 8
  {
    match r
    case 0 => [0, 1, 5, 6, 14, 15, 27, 28]
    case 1 => [2, 4, 7, 13, 16, 26, 29, 42]
    case 2 => [3, 8, 12, 17, 25, 30, 41, 43]
    case 3 => [9, 11, 18, 24, 31, 40, 44, 53]
    case 4 => [10, 19, 23, 32, 39, 45, 52, 54]
    case 5 => [20, 22, 33, 38, 46, 51, 55, 60]
    case 6 => [21, 34, 37, 47, 50, 56, 59, 61]
    case 7 => [35, 36, 48, 49, 57, 58, 62, 63]
  }

  function Unzag(z: nat): (i: nat)
    requires z < 64
    ensures i < 64
  {
    var i := UnzagRow(z / 8)[z % 8];
    if 0 <= i < 64 then i else 0
  }

  lemma UnzagRow0(z: nat)
    requires 0 <= z < 8
    ensures Zag(Unzag(z)) == z
  {
    var u := UnzagRow(0);
    assert u[0] == 0 && u[1] == 1 && u[2] == 5 && u[3] == 6;
    assert u[4] == 14 && u[5] == 15 && u[6] == 27 && u[7] == 28;
    assert Zag(0) == 0 && Zag(1) == 1 && Zag(5) == 2 && Zag(6) == 3;
    assert Zag(14) == 4 && Zag(15) == 5 && Zag(27) == 6 && Zag(28) == 7;
  }

  lemma UnzagRow1(z: nat)
    requires 8 <= z < 16
    ensures Zag(Unzag(z)) == z
  {
    var u := UnzagRow(1);
    assert u[0] == 2 && u[1] == 4 && u[2] == 7 && u[3] == 13;
    assert u[4] == 16 && u[5] == 26 && u[6] == 29 && u[7] == 42;
    assert Zag(2) == 8 && Zag(4) == 9 && Zag(7) == 10 && Zag(13) == 11;
    assert Zag(16) == 12 && Zag(26) == 13 && Zag(29) == 14 && Zag(42) == 15;
  }

  lemma UnzagRow2(z: nat)
    requires 16 <= z < 24
    ensures Zag(Unzag(z)) == z
  {
    var u := UnzagRow(2);
    assert u[0] == 3 && u[1] == 8 && u[2] == 12 && u[3] == 17;
    assert u[4] == 25 && u[5] == 30 && u[6] == 41 && u[7] == 43;
    assert Zag(3) == 16 && Zag(8) == 17 && Zag(12) == 18 && Zag(17) == 19;
    assert Zag(25) == 20 && Zag(30) == 21 && Zag(41) == 22 && Zag(43) == 23;
  }

  lemma UnzagRow3(z: nat)
    requires 24 <= z < 32
    ensures Zag(Unzag(z)) == z
  {
    var u := UnzagRow(3);
    assert u[0] == 9 && u[1] == 11 && u[2] == 18 && u[3] == 24;
    assert u[4] == 31 && u[5] == 40 && u[6] == 44 && u[7] == 53;
    assert Zag(9) == 24 && Zag(11) == 25 && Zag(18) == 26 && Zag(24) == 27;
    assert Zag(31) == 28 && Zag(40) == 29 && Zag(44) == 30 && Zag(53) == 31;
  }

  lemma UnzagRow4(z: nat)
    requires 32 <= z < 40
    ensures Zag(Unzag(z)) == z
  {
    var u := UnzagRow(4);
    assert u[0] == 10 && u[1] == 19 && u[2] == 23 && u[3] == 32;
    assert u[4] == 39 && u[5] == 45 && u[6] == 52 && u[7] == 54;
    assert Zag(10) == 32 && Zag(19) == 33 && Zag(23) == 34 && Zag(32) == 35;
    assert Zag(39) == 36 && Zag(45) == 37 && Zag(52) == 38 && Zag(54) == 39;
  }

  lemma UnzagRow5(z: nat)
    requires 40 <= z < 48
    ensures Zag(Unzag(z)) == z
  {
    var u := UnzagRow(5);
    assert u[0] == 20 && u[1] == 22 && u[2] == 33 && u[3] == 38;
    assert u[4] == 46 && u[5] == 51 && u[6] == 55 && u[7] == 60;
    assert Zag(20) == 40 && Zag(22) == 41 && Zag(33) == 42 && Zag(38) == 43;
    assert Zag(46) == 44 && Zag(51) == 45 && Zag(55) == 46 && Zag(60) == 47;
  }

  lemma UnzagRow6(z: nat)
    requires 48 <= z < 56
    ensures Zag(Unzag(z)) == z
  {
    var u := UnzagRow(6);
    assert u[0] == 21 && u[1] == 34 && u[2] == 37 && u[3] == 47;
    assert u[4] == 50 && u[5] == 56 && u[6] == 59 && u[7] == 61;
    assert Zag(21) == 48 && Zag(34) == 49 && Zag(37) == 50 && Zag(47) == 51;
    assert Zag(50) == 52 && Zag(56) == 53 && Zag(59) == 54 && Zag(61) == 55;
  }

  lemma UnzagRow7(z: nat)
    requires 56 <= z < 64
    ensures Zag(Unzag(z)) == z
  {
    var u := UnzagRow(7);
    assert u[0] == 35 && u[1] == 36 && u[2] == 48 && u[3] == 49;
    assert u[4] == 57 && u[5] == 58 && u[6] == 62 && u[7] == 63;
    assert Zag(35) == 56 && Zag(36) == 57 && Zag(48) == 58 && Zag(49) == 59;
    assert Zag(57) == 60 && Zag(58) == 61 && Zag(62) == 62 && Zag(63) == 63;
  }

  /** Every cell is in the zigzag. */
  lemma ZagHasAll(z: nat)
    requires z < 64
    ensures Zag(Unzag(z)) == z
  {
    hide Zag, Unzag;
    match z / 8
    case 0 => UnzagRow0(z);
    case 1 => UnzagRow1(z);
    case 2 => UnzagRow2(z);
    case 3 => UnzagRow3(z);
    case 4 => UnzagRow4(z);
    case 5 => UnzagRow5(z);
    case 6 => UnzagRow6(z);
    case 7 => UnzagRow7(z);
  }

  const LUM_QUANT_0: seq<step> := [16, 11, 12, 14, 12, 10, 16, 14, 13, 14, 18, 17, 16, 19, 24, 40]
  const LUM_QUANT_1: seq<step> := [26, 24, 22, 22, 24, 49, 35, 37, 29, 40, 58, 51, 61, 60, 57, 51]
  const LUM_QUANT_2: seq<step> := [56, 55, 64, 72, 92, 78, 64, 68, 87, 69, 55, 56, 80, 109, 81, 87]
  const LUM_QUANT_3: seq<step> := [95, 98, 103, 104, 103, 62, 77, 113, 121, 112, 100, 120, 92, 101, 103, 99]
  const STD_LUM_QUANT: seq<step> := LUM_QUANT_0 + LUM_QUANT_1 + LUM_QUANT_2 + LUM_QUANT_3

  const CHROMA_QUANT_0: seq<step> := [17, 18, 18, 24, 21, 24, 47, 26, 26, 47, 99, 66, 56, 66, 99, 99]
  const CHROMA_QUANT_1: seq<step> := [99, 99, 99, 99, 99, 99, 99, 99, 99, 99, 99, 99, 99, 99, 99, 99]
  const CHROMA_QUANT_2: seq<step> := [99, 99, 99, 99, 99, 99, 99, 99, 99, 99, 99, 99, 99, 99, 99, 99]
  const CHROMA_QUANT_3: seq<step> := [99, 99, 99, 99, 99, 99, 99, 99, 99, 99, 99, 99, 99, 99, 99, 99]
  const STD_CHROMA_QUANT: seq<step> := CHROMA_QUANT_0 + CHROMA_QUANT_1 + CHROMA_QUANT_2 + CHROMA_QUANT_3

  // --------------------------------------------------------- the quantiser

  /** One coefficient, as load_quantized_coefficients computes it. */
  function Quantise(c: int, q: int): int
    requires q >= 1
  {
    if c < 0 then
      if -c + q / 2 < q then 0 else -((-c + q / 2) / q)
    else
      if c + q / 2 < q then 0 else (c + q / 2) / q
  }

  /** n is c / q rounded to the nearest integer, halves away from zero. */
  ghost predicate NearestAway(n: int, c: int, q: int) {
    var d := q * n - c;
    -q <= 2 * d <= q && (2 * d == q ==> c > 0) && (2 * d == -q ==> c < 0)
  }

  lemma QuantiseIs(c: int, q: int)
    requires q >= 1
    ensures Quantise(c, q) == if c < 0 then -((-c + q / 2) / q) else (c + q / 2) / q
  {
    var x := Abs(c) + q / 2;
    if x < q {
      DivModUnique(x, q, 0, x);
    }
  }

  /** Rounding half up, p being the multiple of q that it gives for a. */
  lemma HalfUp(a: nat, q: int, p: int)
    requires q >= 1 && p <= a + q / 2 < p + q && (a == 0 ==> p == 0)
    ensures -q < 2 * (p - a) <= q && (2 * (p - a) == q ==> a > 0)
  {
  }

  /** The quantiser rounds to nearest: the error is at most half a step. */
  lemma QuantiseNearest(c: int, q: int)
    requires q >= 1
    ensures NearestAway(Quantise(c, q), c, q)
  {
    hide Quantise;
    QuantiseIs(c, q);
    var a := Abs(c);
    var d := (a + q / 2) / q;
    QuotientBounds(a + q / 2, q);
    if a == 0 {
      DivModUnique(q / 2, q, 0, q / 2);
    }
    HalfUp(a, q, q * d);
    MulNegate(q, d);
  }

  /** No other value rounds to nearest. */
  lemma NearestIsUnique(n: int, m: int, c: int, q: int)
    requires q >= 1 && NearestAway(n, c, q) && NearestAway(m, c, q)
    ensures n == m
  {
    NearestOrder(n, m, c, c, q);
    NearestOrder(m, n, c, c, q);
  }

  lemma NearestOrder(n: int, m: int, c: int, d: int, q: int)
    requires q >= 1 && NearestAway(n, c, q) && NearestAway(m, d, q) && c <= d
    ensures n <= m
  {
    assert q * (m + 1) == q * m + q;
    assert q * n <= q * (m + 1);
    if n > m {
      MulMono(q, m + 1, n);
    }
  }

  /** The quantiser is odd, keeps the order, and never grows a magnitude. */
  lemma QuantiseShape(c: int, d: int, q: int)
    requires q >= 1 && c <= d
    ensures Quantise(-c, q) == -Quantise(c, q)
    ensures Quantise(c, q) <= Quantise(d, q)
    ensures Abs(Quantise(c, q)) <= Abs(c)
  {
    hide Quantise;
    QuantiseNearest(c, q);
    QuantiseNearest(d, q);
    NearestOrder(Quantise(c, q), Quantise(d, q), c, d, q);
    QuantiseOdd(c, q);
    QuantiseSmall(c, q);
  }

  lemma QuantiseOdd(c: int, q: int)
    requires q >= 1
    ensures Quantise(-c, q) == -Quantise(c, q)
  {
  }

  lemma QuantiseSmall(c: int, q: int)
    requires q >= 1
    ensures Abs(Quantise(c, q)) <= Abs(c)
  {
    var a := Abs(c);
    var x := a + q / 2;
    QuotientBounds(x, q);
    MulMono(a, 1, q);
    assert q * (a + 1) == a * q + q;
    MulCancel(q, x / q, a + 1);
  }

  /** The block of quantised coefficients, in zigzag order. */
  function QuantiseBlock(f: seq<int>, q: seq<int>): (c: seq<int>)
    requires |f| == 64 && |q| == 64 && forall i :: 0 <= i < 64 ==> q[i] >= 1
    ensures |c| == 64
  {
    seq(64, i requires 0 <= i < 64 => Quantise(f[Zag(i)], q[i]))
  }

  /** The range of the transform is codable after any quantisation. */
  lemma QuantisedCodable(f: seq<int>, q: seq<int>)
    requires |f| == 64 && |q| == 64 && forall i :: 0 <= i < 64 ==> q[i] >= 1
    requires -1024 <= f[0] <= 1016 && forall n :: 1 <= n < 64 ==> -1020 <= f[n] <= 1020
    ensures Codable(QuantiseBlock(f, q))
    ensures -1024 <= QuantiseBlock(f, q)[0] <= 1023
  {
    hide Quantise;
    forall i | 0 <= i < 64
      ensures i == 0 ==> -1024 <= QuantiseBlock(f, q)[i] <= 1023
      ensures i != 0 ==> -1020 <= QuantiseBlock(f, q)[i] <= 1020
    {
      QuantiseSmall(f[Zag(i)], q[i]);
      QuantiseNearest(f[Zag(i)], q[i]);
      if f[Zag(i)] >= 0 {
        QuantiseSign(f[Zag(i)], q[i]);
      }
    }
  }

  lemma QuantiseSign(c: int, q: int)
    requires q >= 1 && c >= 0
    ensures 0 <= Quantise(c, q) <= c
  {
    QuantiseSmall(c, q);
    QuotientBounds(c + q / 2, q);
  }

  /** load_quantized_coefficients. */
  method LoadQuantizedCoefficients(samples: array<int32>, coefs: array<int16>, q: array<int32>)
    requires samples.Length == 64 && coefs.Length == 64 && q.Length == 64
    requires forall i :: 0 <= i < 64 ==> 1 <= q[i] <= 0xFF
    requires forall i :: 0 <= i < 64 ==> -1024 <= samples[i] <= 1023
    modifies coefs
    ensures samples[..] == old(samples[..]) && q[..] == old(q[..])
    ensures coefs[..] == QuantiseBlock(samples[..], q[..])
  {
    ghost var s, qs := samples[..], q[..];
    for i := 0 to 64
      invariant samples[..] == s && q[..] == qs
      invariant forall k :: 0 <= k < i ==> coefs[k] == QuantiseBlock(s, qs)[k]
    {
      var j := samples[Zag(i)];
      var d := q[i];
      QuantiseSmall(s[Zag(i)], d);
      if j < 0 {
        j := -j + d / 2;
        if j < d {
          coefs[i] := 0;
        } else {
          coefs[i] := -(j / d);
        }
      } else {
        j := j + d / 2;
        if j < d {
          coefs[i] := 0;
        } else {
          coefs[i] := j / d;
        }
      }
    }
    assert coefs[..] == QuantiseBlock(s, qs);
  }

  // ------------------------------------------------- quality and the tables

  /** The percentage by which the standard tables are scaled. */
  function Percent(quality: int): int
    requires 1 <= quality <= 100
  {
    if quality < 50 then 5000 / quality else 200 - quality * 2
  }

  function Step(std: int, quality: int): (q: int)
    requires 1 <= quality <= 100 && 1 <= std <= 0xFF
    ensures 1 <= q <= 0xFF
  {
    var j := (std * Percent(quality) + 50) / 100;
    if j < 1 then 1 else if j > 0xFF then 0xFF else j
  }

  function QuantTable(std: seq<step>, quality: int): (t: seq<int>)
    requires |std| == 64 && 1 <= quality <= 100
    ensures |t| == 64 && forall i :: 0 <= i < 64 ==> 1 <= t[i] <= 0xFF
  {
    seq(64, i requires 0 <= i < 64 => Step(std[i], quality))
  }

  lemma DivAntitone(x: int, p: int, q: int)
    requires x >= 0 && 1 <= p <= q
    ensures 0 <= x / q <= x / p
  {
    QuotientBounds(x, p);
    QuotientBounds(x, q);
    MulMono(x / q, p, q);
    assert p * (x / p + 1) == p * (x / p) + p;
    MulCancel(p, x / q, x / p + 1);
  }

  lemma PercentMono(p: int, q: int)
    requires 1 <= p <= q <= 100
    ensures 0 <= Percent(q) <= Percent(p) <= 5000
  {
    DivAntitone(5000, p, q);
    DivAntitone(5000, 1, p);
    if p < 50 {
      DivAntitone(5000, p, 50);
    }
  }

  /** A higher quality never has a coarser step. */
  lemma StepMono(std: int, p: int, q: int)
    requires 1 <= p <= q <= 100 && 1 <= std <= 0xFF
    ensures Step(std, q) <= Step(std, p)
  {
    hide Percent;
    PercentMono(p, q);
    MulMono(std, Percent(q), Percent(p));
  }

  lemma ScaledBound(std: int, quality: int)
    requires 1 <= quality <= 100 && 1 <= std <= 0xFF
    ensures 0 <= std * Percent(quality) <= 0xFF * 5000
  {
    hide Percent;
    PercentMono(quality, quality);
    MulMono(std, 0, Percent(quality));
    MulMono(std, Percent(quality), 5000);
  }

  /** Row r of table K.1 of T.81. */
  function K1Row(r: nat): (k: seq<int>)
    requires r < 8
    ensures |k| == 8
  {
    match r
    case 0 => [16, 11, 10, 16, 24, 40, 51, 61]
    case 1 => [12, 12, 14, 19, 26, 58, 60, 55]
    case 2 => [14, 13, 16, 24, 40, 57, 69, 56]
    case 3 => [14, 17, 22, 29, 51, 87, 80, 62]
    case 4 => [18, 22, 37, 56, 68, 109, 103, 77]
    case 5 => [24, 35, 55, 64, 81, 104, 113, 92]
    case 6 => [49, 64, 78, 87, 103, 121, 120, 101]
    case 7 => [72, 92, 95, 98, 112, 100, 103, 99]
  }

  /** Row r of table K.2. */
  function K2Row(r: nat): (k: seq<int>)
    requires r < 8
    ensures |k| == 8
  {
    match r
    case 0 => [17, 18, 24, 47, 99, 99, 99, 99]
    case 1 => [18, 21, 26, 66, 99, 99, 99, 99]
    case 2 => [24, 26, 56, 99, 99, 99, 99, 99]
    case 3 => [47, 66, 99, 99, 99, 99, 99, 99]
    case _ => [99, 99, 99, 99, 99, 99, 99, 99]
  }

  /** Step lum of luma and chroma of chroma stand at cell z of the tables. */
  predicate StandardAt(lum: int, chroma: int, z: nat)
    requires z < 64
  {
    lum == K1Row(z / 8)[z % 8] && chroma == K2Row(z / 8)[z % 8]
  }

  lemma FourRows<T>(a: seq<T>, b: seq<T>, c: seq<T>, d: seq<T>, i: nat)
    requires |a| == 16 && |b| == 16 && |c| == 16 && |d| == 16 && i < 64
    ensures (a + b + c + d)[i]
         == if i < 16 then a[i] else if i < 32 then b[i - 16] else if i < 48 then c[i - 32] else d[i - 48]
  {
  }

  lemma StandardPart0(i: nat)
    requires 0 <= i < 8
    ensures StandardAt(LUM_QUANT_0[i - 0], CHROMA_QUANT_0[i - 0], Zag(i))
  {
    var lum, chroma := LUM_QUANT_0, CHROMA_QUANT_0;
    assert lum[0] == 16 && chroma[0] == 17 && lum[1] == 11 && chroma[1] == 18 && lum[2] == 12 && chroma[2] == 18 && lum[3] == 14 && chroma[3] == 24;
    assert lum[4] == 12 && chroma[4] == 21 && lum[5] == 10 && chroma[5] == 24 && lum[6] == 16 && chroma[6] == 47 && lum[7] == 14 && chroma[7] == 26;
  }

  lemma StandardPart1(i: nat)
    requires 8 <= i < 16
    ensures StandardAt(LUM_QUANT_0[i - 0], CHROMA_QUANT_0[i - 0], Zag(i))
  {
    var lum, chroma := LUM_QUANT_0, CHROMA_QUANT_0;
    assert lum[8] == 13 && chroma[8] == 26 && lum[9] == 14 && chroma[9] == 47 && lum[10] == 18 && chroma[10] == 99 && lum[11] == 17 && chroma[11] == 66;
    assert lum[12] == 16 && chroma[12] == 56 && lum[13] == 19 && chroma[13] == 66 && lum[14] == 24 && chroma[14] == 99 && lum[15] == 40 && chroma[15] == 99;
  }

  lemma StandardPart2(i: nat)
    requires 16 <= i < 24
    ensures StandardAt(LUM_QUANT_1[i - 16], CHROMA_QUANT_1[i - 16], Zag(i))
  {
    var lum, chroma := LUM_QUANT_1, CHROMA_QUANT_1;
    assert lum[0] == 26 && chroma[0] == 99 && lum[1] == 24 && chroma[1] == 99 && lum[2] == 22 && chroma[2] == 99 && lum[3] == 22 && chroma[3] == 99;
    assert lum[4] == 24 && chroma[4] == 99 && lum[5] == 49 && chroma[5] == 99 && lum[6] == 35 && chroma[6] == 99 && lum[7] == 37 && chroma[7] == 99;
  }

  lemma StandardPart3(i: nat)
    requires 24 <= i < 32
    ensures StandardAt(LUM_QUANT_1[i - 16], CHROMA_QUANT_1[i - 16], Zag(i))
  {
    var lum, chroma := LUM_QUANT_1, CHROMA_QUANT_1;
    assert lum[8] == 29 && chroma[8] == 99 && lum[9] == 40 && chroma[9] == 99 && lum[10] == 58 && chroma[10] == 99 && lum[11] == 51 && chroma[11] == 99;
    assert lum[12] == 61 && chroma[12] == 99 && lum[13] == 60 && chroma[13] == 99 && lum[14] == 57 && chroma[14] == 99 && lum[15] == 51 && chroma[15] == 99;
  }

  lemma StandardPart4(i: nat)
    requires 32 <= i < 40
    ensures StandardAt(LUM_QUANT_2[i - 32], CHROMA_QUANT_2[i - 32], Zag(i))
  {
    var lum, chroma := LUM_QUANT_2, CHROMA_QUANT_2;
    assert lum[0] == 56 && chroma[0] == 99 && lum[1] == 55 && chroma[1] == 99 && lum[2] == 64 && chroma[2] == 99 && lum[3] == 72 && chroma[3] == 99;
    assert lum[4] == 92 && chroma[4] == 99 && lum[5] == 78 && chroma[5] == 99 && lum[6] == 64 && chroma[6] == 99 && lum[7] == 68 && chroma[7] == 99;
  }

  lemma StandardPart5(i: nat)
    requires 40 <= i < 48
    ensures StandardAt(LUM_QUANT_2[i - 32], CHROMA_QUANT_2[i - 32], Zag(i))
  {
    var lum, chroma := LUM_QUANT_2, CHROMA_QUANT_2;
    assert lum[8] == 87 && chroma[8] == 99 && lum[9] == 69 && chroma[9] == 99 && lum[10] == 55 && chroma[10] == 99 && lum[11] == 56 && chroma[11] == 99;
    assert lum[12] == 80 && chroma[12] == 99 && lum[13] == 109 && chroma[13] == 99 && lum[14] == 81 && chroma[14] == 99 && lum[15] == 87 && chroma[15] == 99;
  }

  lemma StandardPart6(i: nat)
    requires 48 <= i < 56
    ensures StandardAt(LUM_QUANT_3[i - 48], CHROMA_QUANT_3[i - 48], Zag(i))
  {
    var lum, chroma := LUM_QUANT_3, CHROMA_QUANT_3;
    assert lum[0] == 95 && chroma[0] == 99 && lum[1] == 98 && chroma[1] == 99 && lum[2] == 103 && chroma[2] == 99 && lum[3] == 104 && chroma[3] == 99;
    assert lum[4] == 103 && chroma[4] == 99 && lum[5] == 62 && chroma[5] == 99 && lum[6] == 77 && chroma[6] == 99 && lum[7] == 113 && chroma[7] == 99;
  }

  lemma StandardPart7(i: nat)
    requires 56 <= i < 64
    ensures StandardAt(LUM_QUANT_3[i - 48], CHROMA_QUANT_3[i - 48], Zag(i))
  {
    var lum, chroma := LUM_QUANT_3, CHROMA_QUANT_3;
    assert lum[8] == 121 && chroma[8] == 99 && lum[9] == 112 && chroma[9] == 99 && lum[10] == 100 && chroma[10] == 99 && lum[11] == 120 && chroma[11] == 99;
    assert lum[12] == 92 && chroma[12] == 99 && lum[13] == 101 && chroma[13] == 99 && lum[14] == 103 && chroma[14] == 99 && lum[15] == 99 && chroma[15] == 99;
  }

  /** The tables of the source are those of the standard, in zigzag order. */
  lemma TablesAreStandard(i: nat)
    requires i < 64
    ensures STD_LUM_QUANT[i] == K1Row(Zag(i) / 8)[Zag(i) % 8] && STD_CHROMA_QUANT[i] == K2Row(Zag(i) / 8)[Zag(i) % 8]
  {
    hide K1Row, K2Row, Zag;
    FourRows(LUM_QUANT_0, LUM_QUANT_1, LUM_QUANT_2, LUM_QUANT_3, i);
    FourRows(CHROMA_QUANT_0, CHROMA_QUANT_1, CHROMA_QUANT_2, CHROMA_QUANT_3, i);
    if i < 8 {
      StandardPart0(i);
    } else if i < 16 {
      StandardPart1(i);
    } else if i < 24 {
      StandardPart2(i);
    } else if i < 32 {
      StandardPart3(i);
    } else if i < 40 {
      StandardPart4(i);
    } else if i < 48 {
      StandardPart5(i);
    } else if i < 56 {
      StandardPart6(i);
    } else {
      StandardPart7(i);
    }
  }

  /** Quality 50 is the standard table, quality 100 has steps of one only. */
  lemma QualityMarks(std: int)
    requires 1 <= std <= 0xFF
    ensures Step(std, 50) == std && Step(std, 100) == 1
  {
  }

  /** Between: a step that is not cut to 1..255 is the standard one times 50 over
      the quality, or times 2 less a fiftieth of the quality, to the nearest; a
      percentage that is no integer is rounded down first. */
  lemma StepScales(std: int, quality: int)
    requires 1 <= std <= 0xFF && 1 <= quality <= 100 && 1 < Step(std, quality) < 0xFF
    ensures quality < 50 ==>
      quality * (100 * Step(std, quality) - 50) <= 5000 * std < quality * (100 * Step(std, quality) + 50) + std * quality
    ensures quality >= 50 ==> -50 < 100 * Step(std, quality) - std * (200 - 2 * quality) <= 50
  {
    var p, q := Percent(quality), Step(std, quality);
    var x := std * p + 50;
    ScaledBound(std, quality);
    assert 100 * q <= x < 100 * q + 100;
    if quality < 50 {
      QuotientBounds(5000, quality);
      ScaleDown(std, quality, p, 100 * q);
    }
  }

  lemma ScaleDown(std: int, quality: int, p: int, y: int)
    requires std >= 1 && quality >= 1 && quality * p <= 5000 < quality * p + quality
    requires y <= std * p + 50 < y + 100
    ensures quality * (y - 50) <= 5000 * std < quality * (y + 50) + std * quality
  {
    var sp := std * p;
    assert std * (quality * p) == quality * sp;
    MulMono(std, quality * p, 5000);
    MulMono(quality, y - 50, sp);
    assert std * (quality * p + quality) == quality * sp + std * quality;
    MulMono(std, 5001, quality * p + quality);
    MulMono(quality, sp + 1, y + 50);
    assert quality * (sp + 1) == quality * sp + quality;
  }

  /** A step is cut exactly when the scaled one leaves the range. */
  lemma StepIsCut(std: int, quality: int)
    requires 1 <= std <= 0xFF && 1 <= quality <= 100
    ensures Step(std, quality) == 1 <==> std * Percent(quality) < 150
    ensures Step(std, quality) == 0xFF <==> std * Percent(quality) >= 25_450
  {
    ScaledBound(std, quality);
  }

  /** compute_quant_table. */
  method ComputeQuantTable(dst: array<int32>, std: seq<step>, quality: int)
    requires dst.Length == 64 && |std| == 64 && 1 <= quality <= 100
    modifies dst
    ensures dst[..] == QuantTable(std, quality)
  {
    var q := if quality < 50 then 5000 / quality else 200 - quality * 2;
    assert q == Percent(quality);
    for i := 0 to 64
      invariant forall k :: 0 <= k < i ==> dst[k] == QuantTable(std, quality)[k]
    {
      hide Percent;
      ScaledBound(std[i], quality);
      var j: int32 := std[i] * q + 50;
      j := j / 100;
      dst[i] := if j < 1 then 1 else if j > 0xFF then 0xFF else j;
    }
    assert dst[..] == QuantTable(std, quality);
  }

  /** The file statics of jpge.cpp, computed on demand and kept between images. */
  class Statics {
    var lastQuality: int
    const quantLum: array<int32>
    const quantChroma: array<int32>
    var huffInitialized: bool
    var dcLum: HuffTable
    var acLum: HuffTable
    var dcChroma: HuffTable
    var acChroma: HuffTable

    /** Whatever is marked as computed is what would be computed now. */
    ghost predicate Valid()
      reads this, quantLum, quantChroma
    {
      && quantLum.Length == 64 && quantChroma.Length == 64 && quantLum != quantChroma
      && 0 <= lastQuality <= 100
      && (lastQuality != 0 ==>
        quantLum[..] == QuantTable(STD_LUM_QUANT, lastQuality)
        && quantChroma[..] == QuantTable(STD_CHROMA_QUANT, lastQuality))
      && (huffInitialized ==> HuffReady())
    }

    ghost predicate HuffReady()
      reads this
    {
      && Generated(dcLum, DC_LUM) && Generated(acLum, AC_LUM)
      && Generated(dcChroma, DC_CHROMA) && Generated(acChroma, AC_CHROMA)
    }

    constructor ()
      ensures Valid() && fresh(quantLum) && fresh(quantChroma)
    {
      lastQuality := 0;
      quantLum := new int32[64];
      quantChroma := new int32[64];
      huffInitialized := false;
      var none := HuffTable([], []);
      dcLum, acLum, dcChroma, acChroma := none, none, none, none;
    }

    /** The table part of jpg_open: after any earlier images, the tables are
        those of the requested quality. */
    method Prepare(quality: int)
      requires Valid() && 1 <= quality <= 100
      modifies this, quantLum, quantChroma
      ensures Valid() && lastQuality == quality && huffInitialized
      ensures quantLum[..] == QuantTable(STD_LUM_QUANT, quality)
      ensures quantChroma[..] == QuantTable(STD_CHROMA_QUANT, quality)
      ensures HuffReady()
    {
      hide QuantTable, Generated, WellSized;
      if lastQuality != quality {
        lastQuality := quality;
        ComputeQuantTable(quantLum, STD_LUM_QUANT, quality);
        ComputeQuantTable(quantChroma, STD_CHROMA_QUANT, quality);
      }
      if !huffInitialized {
        huffInitialized := true;
        StandardWellSized();
        dcLum := Generate(DC_LUM);
        acLum := Generate(AC_LUM);
        dcChroma := Generate(DC_CHROMA);
        acChroma := Generate(AC_CHROMA);
      }
    }
  }

  method Generate(h: Spec) returns (t: HuffTable)
    requires WellSized(h)
    ensures Generated(t, h)
  {
    var codes := new uint32[256];
    var sizes := new byte[256];
    ComputeHuffmanTable(codes, sizes, h, h.bits, h.val);
    t := HuffTable(codes[..], sizes[..]);
  }
}
