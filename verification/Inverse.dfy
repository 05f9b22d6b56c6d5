/** The inverse transform of T.81 section A.3.3, in integers, and the proof that it
    takes the coefficients of the encoder back to the samples. */
module Inverse {
  import opened Words
  import opened Dct

  // ------------------------------------------------------------- cosines

  /** 2^13 times the square root of 2 times cos(n pi / 16), to the nearest. */
  function QuarterWave(n: nat): (r: nat)
    requires n <= 8
  {
    match n
    case 0 => 11585
    case 1 => 11363
    case 2 => 10703
    case 3 => 9633
    case 4 => 8192
    case 5 => 6436
    case 6 => 4433
    case 7 => 2260
    case 8 => 0
  }

  function Wave(n: nat): int {
    var m := n % 32;
    if m <= 8 then QuarterWave(m) else if m <= 16 then 0 - QuarterWave(16 - m)
    else if m <= 24 then 0 - QuarterWave(m - 16) else QuarterWave(32 - m)
  }

  /** These are cosines: they fall from the square root of 2 to 0, and satisfy
      2 cos(x)^2 - 1 = cos(2 x), up to the rounding. */
  lemma WaveIsCosine(n: nat)
    requires n <= 8
    ensures
      var one := 0x2000;
      && -3 * one <= Wave(0) * Wave(0) - 2 * one * one <= 3 * one
      && -2 * one * one <= Wave(0) * (Wave(n) * Wave(n) - one * one) - one * one * Wave(2 * n) <= 2 * one * one
      && Wave(8) == 0 && (n < 8 ==> Wave(n) > Wave(n + 1))
  {
    hide Wave;
    Waves0();
    Waves1();
    Waves2();
  }

  /** 2^13 times the basis function u at sample i, C(u) included. */
  function Basis(u: nat, i: nat): int
    requires u < 8 && i < 8
  {
    if u == 0 then 0x2000 else Wave((2 * i + 1) * u)
  }

  function Unit(i: nat): (s: seq<int>)
    requires i < 8
    ensures |s| == 8
  {
    seq(8, j => if j == i then 1 else 0)
  }

  /** Row u of the transform at the scale of 2^13. */
  function Scaled(u: nat, s: seq<int>): int
    requires u < 8 && |s| == 8
  {
    if u == 0 || u == 4 then 0x2000 * Dot(u, s) else Dot(u, s)
  }

  /** The matrix of the encoder is that of the cosines, up to one unit of 2^-13. */
  lemma MatrixIsCosine(u: nat, i: nat)
    requires u < 8 && i < 8
    ensures -1 <= Scaled(u, Unit(i)) - Basis(u, i) <= 1
  {
    match i
    case 0 => MatrixColumn0(u);
    case 1 => MatrixColumn1(u);
    case 2 => MatrixColumn2(u);
    case 3 => MatrixColumn3(u);
    case 4 => MatrixColumn4(u);
    case 5 => MatrixColumn5(u);
    case 6 => MatrixColumn6(u);
    case 7 => MatrixColumn7(u);
  }

  lemma WaveAt(n: nat, q: nat, m: nat)
    requires n == 32 * q + m && m < 32
    ensures Wave(n) == Wave(m)
  {
    DivModUnique(n, 32, q, m);
    DivModUnique(m, 32, 0, m);
  }

  lemma Waves0()
    ensures Wave(0) == 11585 && Wave(1) == 11363 && Wave(2) == 10703 && Wave(3) == 9633
    ensures Wave(4) == 8192 && Wave(5) == 6436 && Wave(6) == 4433 && Wave(7) == 2260
  {
  }

  lemma Waves1()
    ensures Wave(8) == 0 && Wave(9) == -2260 && Wave(10) == -4433 && Wave(11) == -6436
    ensures Wave(12) == -8192 && Wave(13) == -9633 && Wave(14) == -10703 && Wave(15) == -11363
  {
  }

  lemma Waves2()
    ensures Wave(16) == -11585 && Wave(17) == -11363 && Wave(18) == -10703 && Wave(19) == -9633
    ensures Wave(20) == -8192 && Wave(21) == -6436 && Wave(22) == -4433 && Wave(23) == -2260
  {
  }

  lemma Waves3()
    ensures Wave(24) == 0 && Wave(25) == 2260 && Wave(26) == 4433 && Wave(27) == 6436
    ensures Wave(28) == 8192 && Wave(29) == 9633 && Wave(30) == 10703 && Wave(31) == 11363
  {
  }

  lemma BasisAt0()
    ensures Basis(0, 0) == 8192 && Basis(1, 0) == 11363 && Basis(2, 0) == 10703 && Basis(3, 0) == 9633
    ensures Basis(4, 0) == 8192 && Basis(5, 0) == 6436 && Basis(6, 0) == 4433 && Basis(7, 0) == 2260
  {
    hide Wave;
    Waves0();
    Waves1();
    Waves2();
    Waves3();
  }

  lemma BasisAt1()
    ensures Basis(0, 1) == 8192 && Basis(1, 1) == 9633 && Basis(2, 1) == 4433 && Basis(3, 1) == -2260
    ensures Basis(4, 1) == -8192 && Basis(5, 1) == -11363 && Basis(6, 1) == -10703 && Basis(7, 1) == -6436
  {
    hide Wave;
    Waves0();
    Waves1();
    Waves2();
    Waves3();
  }

  lemma BasisAt2()
    ensures Basis(0, 2) == 8192 && Basis(1, 2) == 6436 && Basis(2, 2) == -4433 && Basis(3, 2) == -11363
    ensures Basis(4, 2) == -8192 && Basis(5, 2) == 2260 && Basis(6, 2) == 10703 && Basis(7, 2) == 9633
  {
    hide Wave;
    Waves0();
    Waves1();
    Waves2();
    Waves3();
    WaveAt(35, 1, 3);
  }

  lemma BasisAt3()
    ensures Basis(0, 3) == 8192 && Basis(1, 3) == 2260 && Basis(2, 3) == -10703 && Basis(3, 3) == -6436
    ensures Basis(4, 3) == 8192 && Basis(5, 3) == 9633 && Basis(6, 3) == -4433 && Basis(7, 3) == -11363
  {
    hide Wave;
    Waves0();
    Waves1();
    Waves2();
    Waves3();
    WaveAt(35, 1, 3);
    WaveAt(42, 1, 10);
    WaveAt(49, 1, 17);
  }

  lemma BasisAt4()
    ensures Basis(0, 4) == 8192 && Basis(1, 4) == -2260 && Basis(2, 4) == -10703 && Basis(3, 4) == 6436
    ensures Basis(4, 4) == 8192 && Basis(5, 4) == -9633 && Basis(6, 4) == -4433 && Basis(7, 4) == 11363
  {
    hide Wave;
    Waves0();
    Waves1();
    Waves2();
    Waves3();
    WaveAt(36, 1, 4);
    WaveAt(45, 1, 13);
    WaveAt(54, 1, 22);
    WaveAt(63, 1, 31);
  }

  lemma BasisAt5()
    ensures Basis(0, 5) == 8192 && Basis(1, 5) == -6436 && Basis(2, 5) == -4433 && Basis(3, 5) == 11363
    ensures Basis(4, 5) == -8192 && Basis(5, 5) == -2260 && Basis(6, 5) == 10703 && Basis(7, 5) == -9633
  {
    hide Wave;
    Waves0();
    Waves1();
    Waves2();
    Waves3();
    WaveAt(33, 1, 1);
    WaveAt(44, 1, 12);
    WaveAt(55, 1, 23);
    WaveAt(66, 2, 2);
    WaveAt(77, 2, 13);
  }

  lemma BasisAt6()
    ensures Basis(0, 6) == 8192 && Basis(1, 6) == -9633 && Basis(2, 6) == 4433 && Basis(3, 6) == 2260
    ensures Basis(4, 6) == -8192 && Basis(5, 6) == 11363 && Basis(6, 6) == -10703 && Basis(7, 6) == 6436
  {
    hide Wave;
    Waves0();
    Waves1();
    Waves2();
    Waves3();
    WaveAt(39, 1, 7);
    WaveAt(52, 1, 20);
    WaveAt(65, 2, 1);
    WaveAt(78, 2, 14);
    WaveAt(91, 2, 27);
  }

  lemma BasisAt7()
    ensures Basis(0, 7) == 8192 && Basis(1, 7) == -11363 && Basis(2, 7) == 10703 && Basis(3, 7) == -9633
    ensures Basis(4, 7) == 8192 && Basis(5, 7) == -6436 && Basis(6, 7) == 4433 && Basis(7, 7) == -2260
  {
    hide Wave;
    Waves0();
    Waves1();
    Waves2();
    Waves3();
    WaveAt(45, 1, 13);
    WaveAt(60, 1, 28);
    WaveAt(75, 2, 11);
    WaveAt(90, 2, 26);
    WaveAt(105, 3, 9);
  }

  lemma MatrixColumn0(u: nat)
    requires u < 8
    ensures -1 <= Scaled(u, Unit(0)) - Basis(u, 0) <= 1
  {
    hide Basis, Wave;
    BasisAt0();
    var s := [1, 0, 0, 0, 0, 0, 0, 0];
    assert Unit(0) == s;
    assert s[0] == 1 && s[1] == 0 && s[2] == 0 && s[3] == 0 && s[4] == 0 && s[5] == 0 && s[6] == 0 && s[7] == 0;
  }

  lemma MatrixColumn1(u: nat)
    requires u < 8
    ensures -1 <= Scaled(u, Unit(1)) - Basis(u, 1) <= 1
  {
    hide Basis, Wave;
    BasisAt1();
    var s := [0, 1, 0, 0, 0, 0, 0, 0];
    assert Unit(1) == s;
    assert s[0] == 0 && s[1] == 1 && s[2] == 0 && s[3] == 0 && s[4] == 0 && s[5] == 0 && s[6] == 0 && s[7] == 0;
  }

  lemma MatrixColumn2(u: nat)
    requires u < 8
    ensures -1 <= Scaled(u, Unit(2)) - Basis(u, 2) <= 1
  {
    hide Basis, Wave;
    BasisAt2();
    var s := [0, 0, 1, 0, 0, 0, 0, 0];
    assert Unit(2) == s;
    assert s[0] == 0 && s[1] == 0 && s[2] == 1 && s[3] == 0 && s[4] == 0 && s[5] == 0 && s[6] == 0 && s[7] == 0;
  }

  lemma MatrixColumn3(u: nat)
    requires u < 8
    ensures -1 <= Scaled(u, Unit(3)) - Basis(u, 3) <= 1
  {
    hide Basis, Wave;
    BasisAt3();
    var s := [0, 0, 0, 1, 0, 0, 0, 0];
    assert Unit(3) == s;
    assert s[0] == 0 && s[1] == 0 && s[2] == 0 && s[3] == 1 && s[4] == 0 && s[5] == 0 && s[6] == 0 && s[7] == 0;
  }

  lemma MatrixColumn4(u: nat)
    requires u < 8
    ensures -1 <= Scaled(u, Unit(4)) - Basis(u, 4) <= 1
  {
    hide Basis, Wave;
    BasisAt4();
    var s := [0, 0, 0, 0, 1, 0, 0, 0];
    assert Unit(4) == s;
    assert s[0] == 0 && s[1] == 0 && s[2] == 0 && s[3] == 0 && s[4] == 1 && s[5] == 0 && s[6] == 0 && s[7] == 0;
  }

  lemma MatrixColumn5(u: nat)
    requires u < 8
    ensures -1 <= Scaled(u, Unit(5)) - Basis(u, 5) <= 1
  {
    hide Basis, Wave;
    BasisAt5();
    var s := [0, 0, 0, 0, 0, 1, 0, 0];
    assert Unit(5) == s;
    assert s[0] == 0 && s[1] == 0 && s[2] == 0 && s[3] == 0 && s[4] == 0 && s[5] == 1 && s[6] == 0 && s[7] == 0;
  }

  lemma MatrixColumn6(u: nat)
    requires u < 8
    ensures -1 <= Scaled(u, Unit(6)) - Basis(u, 6) <= 1
  {
    hide Basis, Wave;
    BasisAt6();
    var s := [0, 0, 0, 0, 0, 0, 1, 0];
    assert Unit(6) == s;
    assert s[0] == 0 && s[1] == 0 && s[2] == 0 && s[3] == 0 && s[4] == 0 && s[5] == 0 && s[6] == 1 && s[7] == 0;
  }

  lemma MatrixColumn7(u: nat)
    requires u < 8
    ensures -1 <= Scaled(u, Unit(7)) - Basis(u, 7) <= 1
  {
    hide Basis, Wave;
    BasisAt7();
    var s := [0, 0, 0, 0, 0, 0, 0, 1];
    assert Unit(7) == s;
    assert s[0] == 0 && s[1] == 0 && s[2] == 0 && s[3] == 0 && s[4] == 0 && s[5] == 0 && s[6] == 0 && s[7] == 1;
  }

  // ------------------------------------------------------ one dimension

  /** The inverse transform of one row or column, at sample i. */
  function Back(i: nat, f: seq<int>): int
    requires i < 8 && |f| == 8
  {
    Basis(0, i) * f[0] + Basis(1, i) * f[1] + Basis(2, i) * f[2] + Basis(3, i) * f[3]
    + Basis(4, i) * f[4] + Basis(5, i) * f[5] + Basis(6, i) * f[6] + Basis(7, i) * f[7]
  }

  function AllScaled(s: seq<int>): (d: seq<int>)
    requires |s| == 8
    ensures |d| == 8
  {
    [Scaled(0, s), Scaled(1, s), Scaled(2, s), Scaled(3, s), Scaled(4, s), Scaled(5, s), Scaled(6, s), Scaled(7, s)]
  }

  lemma OrthogonalAt0(s: seq<int>, m: int)
    requires |s| == 8 && Within(s, -m, m)
    ensures -140_000 * m <= Back(0, AllScaled(s)) - 0x2000_0000 * s[0] <= 140_000 * m
  {
    hide Basis;
    BasisAt0();
    assert Back(0, AllScaled(s)) - 0x2000_0000 * s[0]
        == 1104 * s[0] + 23207 * s[1] + 20294 * s[2] + 12030 * s[3] + 12030 * s[4] - 11428 * s[5] - 32073 * s[6] - 25164 * s[7];
  }

  lemma OrthogonalAt1(s: seq<int>, m: int)
    requires |s| == 8 && Within(s, -m, m)
    ensures -140_000 * m <= Back(1, AllScaled(s)) - 0x2000_0000 * s[1] <= 140_000 * m
  {
    hide Basis;
    BasisAt1();
    assert Back(1, AllScaled(s)) - 0x2000_0000 * s[1]
        == 208 * s[0] - 8252 * s[1] - 2663 * s[2] - 11571 * s[3] + 11571 * s[4] + 5317 * s[5] + 5598 * s[6] - 208 * s[7];
  }

  lemma OrthogonalAt2(s: seq<int>, m: int)
    requires |s| == 8 && Within(s, -m, m)
    ensures -140_000 * m <= Back(2, AllScaled(s)) - 0x2000_0000 * s[2] <= 140_000 * m
  {
    hide Basis;
    BasisAt2();
    assert Back(2, AllScaled(s)) - 0x2000_0000 * s[2]
        == -9311 * s[0] - 7776 * s[1] + 2704 * s[2] - 11571 * s[3] + 11571 * s[4] - 5358 * s[5] + 10430 * s[6] + 9311 * s[7];
  }

  lemma OrthogonalAt3(s: seq<int>, m: int)
    requires |s| == 8 && Within(s, -m, m)
    ensures -140_000 * m <= Back(3, AllScaled(s)) - 0x2000_0000 * s[3] <= 140_000 * m
  {
    hide Basis;
    BasisAt3();
    assert Back(3, AllScaled(s)) - 0x2000_0000 * s[3]
        == 21663 * s[0] - 3941 * s[1] - 10547 * s[2] - 5332 * s[3] - 18728 * s[4] + 1681 * s[5] + 12807 * s[6] + 2397 * s[7];
  }

  lemma OrthogonalAt4(s: seq<int>, m: int)
    requires |s| == 8 && Within(s, -m, m)
    ensures -140_000 * m <= Back(4, AllScaled(s)) - 0x2000_0000 * s[4] <= 140_000 * m
  {
    hide Basis;
    BasisAt4();
    assert Back(4, AllScaled(s)) - 0x2000_0000 * s[4]
        == 2397 * s[0] + 12807 * s[1] + 1681 * s[2] - 18728 * s[3] - 5332 * s[4] - 10547 * s[5] - 3941 * s[6] + 21663 * s[7];
  }

  lemma OrthogonalAt5(s: seq<int>, m: int)
    requires |s| == 8 && Within(s, -m, m)
    ensures -140_000 * m <= Back(5, AllScaled(s)) - 0x2000_0000 * s[5] <= 140_000 * m
  {
    hide Basis;
    BasisAt5();
    assert Back(5, AllScaled(s)) - 0x2000_0000 * s[5]
        == 9311 * s[0] + 10430 * s[1] - 5358 * s[2] + 11571 * s[3] - 11571 * s[4] + 2704 * s[5] - 7776 * s[6] - 9311 * s[7];
  }

  lemma OrthogonalAt6(s: seq<int>, m: int)
    requires |s| == 8 && Within(s, -m, m)
    ensures -140_000 * m <= Back(6, AllScaled(s)) - 0x2000_0000 * s[6] <= 140_000 * m
  {
    hide Basis;
    BasisAt6();
    assert Back(6, AllScaled(s)) - 0x2000_0000 * s[6]
        == -208 * s[0] + 5598 * s[1] + 5317 * s[2] + 11571 * s[3] - 11571 * s[4] - 2663 * s[5] - 8252 * s[6] + 208 * s[7];
  }

  lemma OrthogonalAt7(s: seq<int>, m: int)
    requires |s| == 8 && Within(s, -m, m)
    ensures -140_000 * m <= Back(7, AllScaled(s)) - 0x2000_0000 * s[7] <= 140_000 * m
  {
    hide Basis;
    BasisAt7();
    assert Back(7, AllScaled(s)) - 0x2000_0000 * s[7]
        == -25164 * s[0] - 32073 * s[1] - 11428 * s[2] + 12030 * s[3] + 12030 * s[4] + 20294 * s[5] + 23207 * s[6] + 1104 * s[7];
  }

  /** Forth and back is 2^29 times the identity, up to the rounding of the matrix. */
  lemma Orthogonal(i: nat, s: seq<int>, m: int)
    requires i < 8 && |s| == 8 && Within(s, -m, m)
    ensures -140_000 * m <= Back(i, AllScaled(s)) - 0x2000_0000 * s[i] <= 140_000 * m
  {
    hide Back, AllScaled, Within;
    match i
    case 0 => OrthogonalAt0(s, m);
    case 1 => OrthogonalAt1(s, m);
    case 2 => OrthogonalAt2(s, m);
    case 3 => OrthogonalAt3(s, m);
    case 4 => OrthogonalAt4(s, m);
    case 5 => OrthogonalAt5(s, m);
    case 6 => OrthogonalAt6(s, m);
    case 7 => OrthogonalAt7(s, m);
  }

  /** The sum of the magnitudes of the basis functions at a sample. */
  const WEIGHT := 61_212

  lemma BackBoundAt0(e: seq<int>, m: int)
    requires |e| == 8 && Within(e, -m, m)
    ensures -WEIGHT * m <= Back(0, e) <= WEIGHT * m
  {
    hide Basis;
    BasisAt0();
  }

  lemma BackBoundAt1(e: seq<int>, m: int)
    requires |e| == 8 && Within(e, -m, m)
    ensures -WEIGHT * m <= Back(1, e) <= WEIGHT * m
  {
    hide Basis;
    BasisAt1();
  }

  lemma BackBoundAt2(e: seq<int>, m: int)
    requires |e| == 8 && Within(e, -m, m)
    ensures -WEIGHT * m <= Back(2, e) <= WEIGHT * m
  {
    hide Basis;
    BasisAt2();
  }

  lemma BackBoundAt3(e: seq<int>, m: int)
    requires |e| == 8 && Within(e, -m, m)
    ensures -WEIGHT * m <= Back(3, e) <= WEIGHT * m
  {
    hide Basis;
    BasisAt3();
  }

  lemma BackBoundAt4(e: seq<int>, m: int)
    requires |e| == 8 && Within(e, -m, m)
    ensures -WEIGHT * m <= Back(4, e) <= WEIGHT * m
  {
    hide Basis;
    BasisAt4();
  }

  lemma BackBoundAt5(e: seq<int>, m: int)
    requires |e| == 8 && Within(e, -m, m)
    ensures -WEIGHT * m <= Back(5, e) <= WEIGHT * m
  {
    hide Basis;
    BasisAt5();
  }

  lemma BackBoundAt6(e: seq<int>, m: int)
    requires |e| == 8 && Within(e, -m, m)
    ensures -WEIGHT * m <= Back(6, e) <= WEIGHT * m
  {
    hide Basis;
    BasisAt6();
  }

  lemma BackBoundAt7(e: seq<int>, m: int)
    requires |e| == 8 && Within(e, -m, m)
    ensures -WEIGHT * m <= Back(7, e) <= WEIGHT * m
  {
    hide Basis;
    BasisAt7();
  }

  lemma BackBound(i: nat, e: seq<int>, m: int)
    requires i < 8 && |e| == 8 && Within(e, -m, m)
    ensures -WEIGHT * m <= Back(i, e) <= WEIGHT * m
  {
    hide Back, Within;
    match i
    case 0 => BackBoundAt0(e, m);
    case 1 => BackBoundAt1(e, m);
    case 2 => BackBoundAt2(e, m);
    case 3 => BackBoundAt3(e, m);
    case 4 => BackBoundAt4(e, m);
    case 5 => BackBoundAt5(e, m);
    case 6 => BackBoundAt6(e, m);
    case 7 => BackBoundAt7(e, m);
  }

  lemma MulSplit(a: int, k: int, f: int, d: int, e: int)
    requires k * f == d + e
    ensures k * (a * f) == a * d + a * e
  {
    assert k * (a * f) == a * (k * f);
  }

  /** The inverse transform is linear. */
  lemma BackLinear(i: nat, k: int, f: seq<int>, d: seq<int>, e: seq<int>)
    requires i < 8 && |f| == 8 && |d| == 8 && |e| == 8
    requires forall u :: 0 <= u < 8 ==> k * f[u] == d[u] + e[u]
    ensures k * Back(i, f) == Back(i, d) + Back(i, e)
  {
    hide Basis;
    MulSplit(Basis(0, i), k, f[0], d[0], e[0]);
    MulSplit(Basis(1, i), k, f[1], d[1], e[1]);
    MulSplit(Basis(2, i), k, f[2], d[2], e[2]);
    MulSplit(Basis(3, i), k, f[3], d[3], e[3]);
    MulSplit(Basis(4, i), k, f[4], d[4], e[4]);
    MulSplit(Basis(5, i), k, f[5], d[5], e[5]);
    MulSplit(Basis(6, i), k, f[6], d[6], e[6]);
    MulSplit(Basis(7, i), k, f[7], d[7], e[7]);
    EightFold(k, Basis(0, i) * f[0], Basis(1, i) * f[1], Basis(2, i) * f[2], Basis(3, i) * f[3],
              Basis(4, i) * f[4], Basis(5, i) * f[5], Basis(6, i) * f[6], Basis(7, i) * f[7]);
  }

  lemma EightFold(k: int, a: int, b: int, c: int, d: int, e: int, f: int, g: int, h: int)
    ensures k * (a + b + c + d + e + f + g + h) == k * a + k * b + k * c + k * d + k * e + k * f + k * g + k * h
  {
  }

  /** What rounding adds to the column pass, at the scale of 2^18. */
  lemma ColumnRounding(s: seq<int>, k: nat)
    requires |s| == 8 && k < 8
    ensures -0x2_0000 <= 0x4_0000 * ColumnOut(s, k) - Scaled(k, s) <= 0x2_0000
  {
    hide Dot;
  }

  lemma RowRounding(s: seq<int>, k: nat)
    requires |s| == 8 && k < 8
    ensures -0x400 <= 0x800 * RowOut(s, k) - Scaled(k, s) <= 0x400
  {
    hide Dot;
  }

  function Columned(s: seq<int>): (f: seq<int>)
    requires |s| == 8
    ensures |f| == 8
  {
    seq(8, k requires 0 <= k < 8 => ColumnOut(s, k))
  }

  function Rowed(s: seq<int>): (f: seq<int>)
    requires |s| == 8
    ensures |f| == 8
  {
    seq(8, k requires 0 <= k < 8 => RowOut(s, k))
  }

  lemma AllScaledAt(s: seq<int>, k: nat)
    requires |s| == 8 && k < 8
    ensures AllScaled(s)[k] == Scaled(k, s)
  {
    hide Scaled;
  }

  /** A column comes back, scaled by 2^11, within 16 pixel values. */
  lemma ColumnBack(s: seq<int>, i: nat)
    requires |s| == 8 && i < 8 && Within(s, -4096, 4096)
    ensures -32_794 <= Back(i, Columned(s)) - 0x800 * s[i] <= 32_794
  {
    hide Back, ColumnOut, AllScaled, Scaled;
    var d := AllScaled(s);
    var e := seq(8, k requires 0 <= k < 8 => 0x4_0000 * ColumnOut(s, k) - d[k]);
    forall k | 0 <= k < 8
      ensures -0x2_0000 <= e[k] <= 0x2_0000
    {
      AllScaledAt(s, k);
      ColumnRounding(s, k);
    }
    Orthogonal(i, s, 4096);
    BackBound(i, e, 0x2_0000);
    BackLinear(i, 0x4_0000, Columned(s), d, e);
  }

  /** A row of samples comes back, scaled by 2^18. */
  lemma RowBack(s: seq<int>, i: nat)
    requires |s| == 8 && i < 8 && Within(s, -128, 127)
    ensures -39_358 <= Back(i, Rowed(s)) - 0x4_0000 * s[i] <= 39_358
  {
    hide Back, RowOut, AllScaled, Scaled;
    var d := AllScaled(s);
    var e := seq(8, k requires 0 <= k < 8 => 0x800 * RowOut(s, k) - d[k]);
    forall k | 0 <= k < 8
      ensures -0x400 <= e[k] <= 0x400
    {
      AllScaledAt(s, k);
      RowRounding(s, k);
    }
    Orthogonal(i, s, 128);
    BackBound(i, e, 0x400);
    BackLinear(i, 0x800, Rowed(s), d, e);
  }

  // ----------------------------------------------------- two dimensions

  /** The columns of a block of coefficients, transformed back at row r. */
  function RowOfColumns(f: seq<int>, r: nat): (z: seq<int>)
    requires |f| == 64 && r < 8
    ensures |z| == 8
  {
    seq(8, v requires 0 <= v < 8 => Back(r, Column(f, v)))
  }

  /** Sample n of the block of coefficients f, at the scale of 2^29: the double
      sum of T.81 section A.3.3. */
  function Sample29(f: seq<int>, n: nat): int
    requires |f| == 64 && n < 64
  {
    Back(n % 8, RowOfColumns(f, n / 8))
  }

  const ONE := 0x2000_0000

  lemma ColumnOfPass(m: seq<int>, v: nat)
    requires |m| == 64 && v < 8
    ensures Column(ColumnPass(m), v) == Columned(Column(m, v))
  {
    hide ColumnOut;
    var p := ColumnPass(m);
    ColumnEntry(m, 0, v);
    ColumnEntry(m, 1, v);
    ColumnEntry(m, 2, v);
    ColumnEntry(m, 3, v);
    ColumnEntry(m, 4, v);
    ColumnEntry(m, 5, v);
    ColumnEntry(m, 6, v);
    ColumnEntry(m, 7, v);
  }

  lemma ColumnEntry(m: seq<int>, u: nat, v: nat)
    requires |m| == 64 && u < 8 && v < 8
    ensures ColumnPass(m)[8 * u + v] == ColumnOut(Column(m, v), u)
  {
    hide ColumnOut, Column;
    ColumnPassAt(m, 8 * u + v);
  }

  lemma ColumnAt(m: seq<int>, v: nat, r: nat)
    requires |m| == 64 && v < 8 && r < 8
    ensures Column(m, v)[r] == m[8 * r + v]
  {
  }

  /** The inverse transform of the coefficients of a block is within 4 of every
      sample. */
  lemma InverseRecovers(b: seq<int>, n: nat)
    requires |b| == 64 && Within(b, -128, 127) && n < 64
    ensures -4 * ONE <= Sample29(Dct2D(b), n) - ONE * b[n] <= 4 * ONE
  {
    hide Back, RowPass, ColumnPass, RowOut, ColumnOut, Column;
    var m, r, c := RowPass(b), n / 8, n % 8;
    var y := Rowed(Row(b, r));
    var z := RowOfColumns(Dct2D(b), r);
    RowPassRange(b);
    var e := seq(8, v requires 0 <= v < 8 => z[v] - 0x800 * y[v]);
    forall v | 0 <= v < 8
      ensures -32_794 <= e[v] <= 32_794
    {
      ColumnOfPass(m, v);
      ColumnRange4096(m, v);
      ColumnBack(Column(m, v), r);
      ColumnAt(m, v, r);
      RowPassAt(b, 8 * r + v);
    }
    RowBack(Row(b, r), c);
    BackBound(c, e, 32_794);
    var y' := seq(8, v requires 0 <= v < 8 => 0x800 * y[v]);
    ScaleBack(c, y);
    BackLinear(c, 1, z, y', e);
  }

  lemma ScaleBack(i: nat, y: seq<int>)
    requires i < 8 && |y| == 8
    ensures Back(i, seq(8, v requires 0 <= v < 8 => 0x800 * y[v])) == 0x800 * Back(i, y)
  {
    hide Back;
    var y' := seq(8, v requires 0 <= v < 8 => 0x800 * y[v]);
    var zeros := seq(8, v => 0);
    BackBound(i, zeros, 0);
    BackLinear(i, 0x800, y, y', zeros);
  }

  lemma ColumnRange4096(m: seq<int>, v: nat)
    requires RowScaled(m) && v < 8
    ensures Within(Column(m, v), -4096, 4096)
  {
    ColumnWithin(m, v);
  }

  /** Coefficients that differ by at most half of m give samples that differ by
      at most three and a half times m. */
  lemma InverseNear(f: seq<int>, g: seq<int>, m: nat, n: nat)
    requires |f| == 64 && |g| == 64 && n < 64
    requires forall z :: 0 <= z < 64 ==> -(m as int) <= 2 * (f[z] - g[z]) <= m
    ensures -7 * m * ONE <= 2 * (Sample29(f, n) - Sample29(g, n)) <= 7 * m * ONE
  {
    hide Back, Column;
    var r, c := n / 8, n % 8;
    var y, z := RowOfColumns(f, r), RowOfColumns(g, r);
    var e := seq(8, v requires 0 <= v < 8 => 2 * y[v] - 2 * z[v]);
    forall v | 0 <= v < 8
      ensures -(WEIGHT * m) <= e[v] <= WEIGHT * m
    {
      ColumnsNear(f, g, m, v, r);
    }
    var z' := seq(8, v requires 0 <= v < 8 => 2 * z[v]);
    DoubleBack(c, z);
    BackLinear(c, 2, y, z', e);
    BackBound(c, e, WEIGHT * m);
  }

  lemma ColumnsNear(f: seq<int>, g: seq<int>, m: nat, v: nat, r: nat)
    requires |f| == 64 && |g| == 64 && v < 8 && r < 8
    requires forall z :: 0 <= z < 64 ==> -(m as int) <= 2 * (f[z] - g[z]) <= m
    ensures -(WEIGHT * m) <= 2 * Back(r, Column(f, v)) - 2 * Back(r, Column(g, v)) <= WEIGHT * m
  {
    hide Back, Column;
    var x, y := Column(f, v), Column(g, v);
    var e := seq(8, u requires 0 <= u < 8 => 2 * x[u] - 2 * y[u]);
    forall u | 0 <= u < 8
      ensures -(m as int) <= e[u] <= m
    {
      ColumnAt(f, v, u);
      ColumnAt(g, v, u);
    }
    var y' := seq(8, u requires 0 <= u < 8 => 2 * y[u]);
    DoubleBack(r, y);
    BackLinear(r, 2, x, y', e);
    BackBound(r, e, m);
  }

  lemma DoubleBack(i: nat, y: seq<int>)
    requires i < 8 && |y| == 8
    ensures Back(i, seq(8, v requires 0 <= v < 8 => 2 * y[v])) == 2 * Back(i, y)
  {
    hide Back;
    var y' := seq(8, v requires 0 <= v < 8 => 2 * y[v]);
    var zeros := seq(8, v => 0);
    BackBound(i, zeros, 0);
    BackLinear(i, 2, y, y', zeros);
  }
}
