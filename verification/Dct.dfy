/** The fixed-point forward DCT of jpge.cpp (DCT1D, DCT2D): the factored
    network against an explicit integer matrix, with every 16-bit multiplier
    operand and every 32-bit intermediate value shown to be in range. */
module Dct {
  import opened Words

  /** Row k of the 8x8 integer transform, applied to s. Rows other than 0 and 4
      are scaled by 2^13. */
  function Dot(k: nat, s: seq<int>): int
    requires k < 8 && |s| == 8
  {
    match k
    case 0 => s[0] + s[1] + s[2] + s[3] + s[4] + s[5] + s[6] + s[7]
    case 1 => 11363 * s[0] + 9633 * s[1] + 6437 * s[2] + 2260 * s[3] - 2260 * s[4] - 6437 * s[5] - 9633 * s[6] - 11363 * s[7]
    case 2 => 10703 * s[0] + 4433 * s[1] - 4433 * s[2] - 10703 * s[3] - 10703 * s[4] - 4433 * s[5] + 4433 * s[6] + 10703 * s[7]
    case 3 => 9633 * s[0] - 2259 * s[1] - 11362 * s[2] - 6436 * s[3] + 6436 * s[4] + 11362 * s[5] + 2259 * s[6] - 9633 * s[7]
    case 4 => s[0] - s[1] - s[2] + s[3] + s[4] - s[5] - s[6] + s[7]
    case 5 => 6437 * s[0] - 11362 * s[1] + 2261 * s[2] + 9633 * s[3] - 9633 * s[4] - 2261 * s[5] + 11362 * s[6] - 6437 * s[7]
    case 6 => 4433 * s[0] - 10704 * s[1] + 10704 * s[2] - 4433 * s[3] - 4433 * s[4] + 10704 * s[5] - 10704 * s[6] + 4433 * s[7]
    case 7 => 2260 * s[0] - 6436 * s[1] + 9633 * s[2] - 11363 * s[3] + 11363 * s[4] - 9633 * s[5] + 6436 * s[6] - 2260 * s[7]
  }

  /** DCT_DESCALE(x, n): division by 2^n, rounding half up. */
  function Descale(x: int, n: nat): int
    requires n == 5 || n == 11 || n == 18
  {
    match n
    case 5 => (x + 0x10) / 0x20
    case 11 => (x + 0x400) / 0x800
    case 18 => (x + 0x2_0000) / 0x4_0000
  }

  predicate Within(s: seq<int>, lo: int, hi: int) {
    forall i :: 0 <= i < |s| ==> lo <= s[i] <= hi
  }

  /** DCT_MUL: the first factor is cut to 16 bits. */
  method DctMul(v: int32, c: int) returns (r: int32)
    requires -32640 <= v <= 32640 && -0x7000 <= c <= 0x7000
    ensures r == v * c
  {
    assert ToInt16(v) == v;
    MulBound(v, c, 32640, 0x7000);
    r := ToInt16(v) * c;
  }

  /** DCT1D on eight values whose spread is at most 8160. */
  method Dct1D(s0: int32, s1: int32, s2: int32, s3: int32, s4: int32, s5: int32, s6: int32, s7: int32,
               ghost lo: int, ghost hi: int)
    returns (r: seq<int32>)
    requires -4096 <= lo <= hi <= 4096 && hi - lo <= 8160
    requires Within([s0, s1, s2, s3, s4, s5, s6, s7], lo, hi)
    ensures |r| == 8 && forall k :: 0 <= k < 8 ==> r[k] == Dot(k, [s0, s1, s2, s3, s4, s5, s6, s7])
  {
    hide Dot, EvenDot, OddDot, Within;
    InputRange(s0, s1, s2, s3, s4, s5, s6, s7, lo, hi);
    var e0, e2, e4, e6 := EvenPart(s0 + s7, s1 + s6, s2 + s5, s3 + s4, lo, hi);
    var o1, o3, o5, o7 := OddPart(s0 - s7, s1 - s6, s2 - s5, s3 - s4);
    EvenDots(s0, s1, s2, s3, s4, s5, s6, s7);
    OddDots(s0, s1, s2, s3, s4, s5, s6, s7);
    r := [e0, o1, e2, o3, e4, o5, e6, o7];
  }

  lemma InputRange(s0: int, s1: int, s2: int, s3: int, s4: int, s5: int, s6: int, s7: int, lo: int, hi: int)
    requires Within([s0, s1, s2, s3, s4, s5, s6, s7], lo, hi) && hi - lo <= 8160
    ensures lo <= s0 <= hi && lo <= s1 <= hi && lo <= s2 <= hi && lo <= s3 <= hi
    ensures lo <= s4 <= hi && lo <= s5 <= hi && lo <= s6 <= hi && lo <= s7 <= hi
    ensures Within([s0 + s7, s1 + s6, s2 + s5, s3 + s4], 2 * lo, 2 * hi)
    ensures Within([s0 - s7, s1 - s6, s2 - s5, s3 - s4], -8160, 8160)
  {
    var s := [s0, s1, s2, s3, s4, s5, s6, s7];
    assert s[0] == s0 && s[1] == s1 && s[2] == s2 && s[3] == s3;
    assert s[4] == s4 && s[5] == s5 && s[6] == s6 && s[7] == s7;
  }

  /** An even row on the sums of opposite samples, an odd one on their differences. */
  function EvenDot(k: nat, t0: int, t1: int, t2: int, t3: int): int
    requires k == 0 || k == 2 || k == 4 || k == 6
  {
    match k
    case 0 => t0 + t1 + t2 + t3
    case 2 => 10703 * t0 + 4433 * t1 - 4433 * t2 - 10703 * t3
    case 4 => t0 - t1 - t2 + t3
    case 6 => 4433 * t0 - 10704 * t1 + 10704 * t2 - 4433 * t3
  }

  function OddDot(k: nat, d7: int, d6: int, d5: int, d4: int): int
    requires k == 1 || k == 3 || k == 5 || k == 7
  {
    match k
    case 1 => 11363 * d7 + 9633 * d6 + 6437 * d5 + 2260 * d4
    case 3 => 9633 * d7 - 2259 * d6 - 11362 * d5 - 6436 * d4
    case 5 => 6437 * d7 - 11362 * d6 + 2261 * d5 + 9633 * d4
    case 7 => 2260 * d7 - 6436 * d6 + 9633 * d5 - 11363 * d4
  }

  /** The even rows depend on the sums of opposite samples only. */
  lemma EvenDots(s0: int, s1: int, s2: int, s3: int, s4: int, s5: int, s6: int, s7: int)
    ensures
      var s, t0, t1, t2, t3 := [s0, s1, s2, s3, s4, s5, s6, s7], s0 + s7, s1 + s6, s2 + s5, s3 + s4;
      && Dot(0, s) == EvenDot(0, t0, t1, t2, t3) && Dot(2, s) == EvenDot(2, t0, t1, t2, t3)
      && Dot(4, s) == EvenDot(4, t0, t1, t2, t3) && Dot(6, s) == EvenDot(6, t0, t1, t2, t3)
  {
  }

  /** The odd rows depend on their differences. */
  lemma OddDots(s0: int, s1: int, s2: int, s3: int, s4: int, s5: int, s6: int, s7: int)
    ensures
      var s, d7, d6, d5, d4 := [s0, s1, s2, s3, s4, s5, s6, s7], s0 - s7, s1 - s6, s2 - s5, s3 - s4;
      && Dot(1, s) == OddDot(1, d7, d6, d5, d4) && Dot(3, s) == OddDot(3, d7, d6, d5, d4)
      && Dot(5, s) == OddDot(5, d7, d6, d5, d4) && Dot(7, s) == OddDot(7, d7, d6, d5, d4)
  {
  }

  method EvenPart(t0: int32, t1: int32, t2: int32, t3: int32, ghost lo: int, ghost hi: int)
    returns (s0: int32, s2: int32, s4: int32, s6: int32)
    requires -4096 <= lo <= hi <= 4096 && hi - lo <= 8160
    requires Within([t0, t1, t2, t3], 2 * lo, 2 * hi)
    ensures s0 == EvenDot(0, t0, t1, t2, t3) && s2 == EvenDot(2, t0, t1, t2, t3)
    ensures s4 == EvenDot(4, t0, t1, t2, t3) && s6 == EvenDot(6, t0, t1, t2, t3)
  {
    ghost var t := [t0, t1, t2, t3];
    assert t[0] == t0 && t[1] == t1 && t[2] == t2 && t[3] == t3;
    assert forall i :: 0 <= i < 4 ==> 2 * lo <= t[i] <= 2 * hi;
    var t10: int32, t13: int32, t11: int32, t12: int32 := t0 + t3, t0 - t3, t1 + t2, t1 - t2;
    var u1: int32 := DctMul(t12 + t13, 4433);
    var m2 := DctMul(t13, 6270);
    var m6 := DctMul(t12, -15137);
    s2 := u1 + m2;
    s6 := u1 + m6;
    s0 := t10 + t11;
    s4 := t10 - t11;
  }

  method OddPart(d7: int32, d6: int32, d5: int32, d4: int32)
    returns (s1: int32, s3: int32, s5: int32, s7: int32)
    requires Within([d7, d6, d5, d4], -8160, 8160)
    ensures s1 == OddDot(1, d7, d6, d5, d4) && s3 == OddDot(3, d7, d6, d5, d4)
    ensures s5 == OddDot(5, d7, d6, d5, d4) && s7 == OddDot(7, d7, d6, d5, d4)
  {
    ghost var d := [d7, d6, d5, d4];
    assert d[0] == d7 && d[1] == d6 && d[2] == d5 && d[3] == d4;
    assert forall i :: 0 <= i < 4 ==> -8160 <= d[i] <= 8160;
    var t4, t5, t6, t7 := d4, d5, d6, d7;
    var u1: int32 := t4 + t7;
    var u2: int32, u3: int32, u4: int32 := t5 + t6, t4 + t6, t5 + t7;
    var z5 := DctMul(u3 + u4, 9633);
    t4 := DctMul(t4, 2446);
    t5 := DctMul(t5, 16819);
    t6 := DctMul(t6, 25172);
    t7 := DctMul(t7, 12299);
    u1 := DctMul(u1, -7373);
    u2 := DctMul(u2, -20995);
    u3 := DctMul(u3, -16069);
    u4 := DctMul(u4, -3196);
    u3 := u3 + z5;
    u4 := u4 + z5;
    var p1: int32, p3: int32, p5: int32, p7: int32 := t7 + u1, t6 + u2, t5 + u2, t4 + u1;
    s1 := p1 + u4;
    s3 := p3 + u3;
    s5 := p5 + u4;
    s7 := p7 + u3;
  }

  // --------------------------------------------------- the two-dimensional form

  function Row(b: seq<int>, r: nat): seq<int>
    requires |b| == 64 && r < 8
  {
    b[8 * r..8 * r + 8]
  }

  function Column(b: seq<int>, c: nat): (s: seq<int>)
    requires |b| == 64 && c < 8
    ensures |s| == 8
  {
    [b[c], b[8 + c], b[16 + c], b[24 + c], b[32 + c], b[40 + c], b[48 + c], b[56 + c]]
  }

  /** Coefficient k of a row: scaled by 4, one rounding. */
  function RowOut(s: seq<int>, k: nat): int
    requires |s| == 8 && k < 8
  {
    if k == 0 || k == 4 then 4 * Dot(k, s) else Descale(Dot(k, s), 11)
  }

  /** Coefficient k of a column: the scale 4 * 8 is removed, one rounding. */
  function ColumnOut(s: seq<int>, k: nat): int
    requires |s| == 8 && k < 8
  {
    if k == 0 || k == 4 then Descale(Dot(k, s), 5) else Descale(Dot(k, s), 18)
  }

  function RowPass(b: seq<int>): (m: seq<int>)
    requires |b| == 64
    ensures |m| == 64
  {
    seq(64, n requires 0 <= n < 64 => RowOut(Row(b, n / 8), n % 8))
  }

  function ColumnPass(m: seq<int>): (f: seq<int>)
    requires |m| == 64
    ensures |f| == 64
  {
    seq(64, n requires 0 <= n < 64 => ColumnOut(Column(m, n % 8), n / 8))
  }

  /** Rows, then columns. */
  function Dct2D(b: seq<int>): (f: seq<int>)
    requires |b| == 64
    ensures |f| == 64
  {
    ColumnPass(RowPass(b))
  }

  // ------------------------------------------------------------------ ranges

  /** The range of the row pass, for samples of 8 bits. */
  lemma RowRange(s: seq<int>, k: nat)
    requires |s| == 8 && k < 8 && Within(s, -128, 127)
    ensures k == 0 ==> -4096 <= RowOut(s, k) <= 4064
    ensures k != 0 ==> -4080 <= RowOut(s, k) <= 4080
    ensures -8_000_000 <= Dot(k, s) <= 8_000_000
  {
    if k % 2 == 0 {
      EvenRange(s, k);
    } else {
      OddRange(s, k);
    }
    hide Within, Dot;
  }

  lemma EvenRange(s: seq<int>, k: nat)
    requires |s| == 8 && (k == 0 || k == 2 || k == 4 || k == 6) && Within(s, -128, 127)
    ensures k == 0 ==> -1024 <= Dot(k, s) <= 1016
    ensures k == 4 ==> -1020 <= Dot(k, s) <= 1020
    ensures k == 2 || k == 6 ==> -8_000_000 <= Dot(k, s) <= 8_000_000
  {
    assert forall i :: 0 <= i < 8 ==> -128 <= s[i] <= 127;
  }

  lemma OddRange(s: seq<int>, k: nat)
    requires |s| == 8 && (k == 1 || k == 3 || k == 5 || k == 7) && Within(s, -128, 127)
    ensures -8_000_000 <= Dot(k, s) <= 8_000_000
  {
    assert forall i :: 0 <= i < 8 ==> -128 <= s[i] <= 127;
  }

  lemma DotRange(s: seq<int>, k: nat, lo: int, hi: int)
    requires |s| == 8 && k < 8 && Within(s, lo, hi) && -4096 <= lo <= hi <= 4080 && hi - lo <= 8160
    ensures k == 0 ==> 8 * lo <= Dot(k, s) <= 8 * hi
    ensures k == 4 ==> 4 * (lo - hi) <= Dot(k, s) <= 4 * (hi - lo)
    ensures -250_000_000 <= Dot(k, s) <= 250_000_000
  {
    assert forall i :: 0 <= i < 8 ==> lo <= s[i] <= hi;
  }

  /** The range of the column pass. */
  lemma ColumnRange(s: seq<int>, k: nat, lo: int, hi: int)
    requires |s| == 8 && k < 8 && Within(s, lo, hi)
    requires (lo == -4096 && hi == 4064) || (lo == -4080 && hi == 4080)
    ensures k == 0 && lo == -4096 ==> -1024 <= ColumnOut(s, k) <= 1016
    ensures k != 0 || lo == -4080 ==> -1020 <= ColumnOut(s, k) <= 1020
    ensures -250_000_000 <= Dot(k, s) <= 250_000_000
  {
    hide Dot, Within;
    DotRange(s, k, lo, hi);
  }

  /** After the row pass, the first column is 4 times the row sums. */
  predicate RowScaled(m: seq<int>) {
    |m| == 64 && forall n :: 0 <= n < 64 ==>
      if n % 8 == 0 then -4096 <= m[n] <= 4064 else -4080 <= m[n] <= 4080
  }

  lemma RowPassRange(b: seq<int>)
    requires |b| == 64 && Within(b, -128, 127)
    ensures RowScaled(RowPass(b))
  {
    forall n | 0 <= n < 64
      ensures if n % 8 == 0 then -4096 <= RowPass(b)[n] <= 4064 else -4080 <= RowPass(b)[n] <= 4080
    {
      RowRange(Row(b, n / 8), n % 8);
    }
  }

  lemma ColumnWithin(m: seq<int>, c: nat)
    requires RowScaled(m) && c < 8
    ensures Within(Column(m, c), if c == 0 then -4096 else -4080, if c == 0 then 4064 else 4080)
  {
  }

  /** For every block of 8-bit samples, the DC coefficient lies in -1024..1016
      and every AC coefficient in -1020..1020. */
  lemma CoefficientRange(b: seq<int>, n: nat)
    requires |b| == 64 && Within(b, -128, 127) && n < 64
    ensures n == 0 ==> -1024 <= Dct2D(b)[n] <= 1016
    ensures n != 0 ==> -1020 <= Dct2D(b)[n] <= 1020
  {
    RowPassRange(b);
    var m, c := RowPass(b), n % 8;
    ColumnWithin(m, c);
    if c == 0 {
      ColumnRange(Column(m, c), n / 8, -4096, 4064);
    } else {
      ColumnRange(Column(m, c), n / 8, -4080, 4080);
    }
  }

  /** A block whose r-th row is constantly v[r]. */
  function Stripes(v: seq<int>): (b: seq<int>)
    requires |v| == 8
    ensures |b| == 64
  {
    seq(64, n requires 0 <= n < 64 => v[n / 8])
  }

  lemma StripesRow(v: seq<int>, r: nat)
    requires |v| == 8 && r < 8
    ensures RowPass(Stripes(v))[8 * r] == 32 * v[r]
  {
    hide RowPass, Stripes, RowOut;
    RowPassAt(Stripes(v), 8 * r);
    var s := Row(Stripes(v), r);
    StripesConstant(v, r);
    RowOutIs(s, 0);
  }

  lemma StripesConstant(v: seq<int>, r: nat)
    requires |v| == 8 && r < 8
    ensures forall i :: 0 <= i < 8 ==> Row(Stripes(v), r)[i] == v[r]
  {
  }

  lemma RowPassAt(b: seq<int>, n: nat)
    requires |b| == 64 && n < 64
    ensures RowPass(b)[n] == RowOut(Row(b, n / 8), n % 8)
  {
    hide RowOut, Row;
  }

  lemma ColumnPassAt(m: seq<int>, n: nat)
    requires |m| == 64 && n < 64
    ensures ColumnPass(m)[n] == ColumnOut(Column(m, n % 8), n / 8)
  {
    hide ColumnOut, Column;
  }

  lemma StripesColumn(v: seq<int>)
    requires |v| == 8
    ensures Column(RowPass(Stripes(v)), 0) == seq(8, r requires 0 <= r < 8 => 32 * v[r])
  {
    hide RowPass;
    StripesRow(v, 0);
    StripesRow(v, 1);
    StripesRow(v, 2);
    StripesRow(v, 3);
    StripesRow(v, 4);
    StripesRow(v, 5);
    StripesRow(v, 6);
    StripesRow(v, 7);
  }

  lemma FlatDc(v: int)
    ensures Dct2D(Stripes(seq(8, _ => v)))[0] == 8 * v
  {
    hide RowPass;
    StripesColumn(seq(8, _ => v));
  }

  lemma StripedAc(a: int, b: int)
    ensures Dct2D(Stripes([a, b, b, a, a, b, b, a]))[32] == 4 * (a - b)
  {
    hide RowPass;
    StripesColumn([a, b, b, a, a, b, b, a]);
  }

  /** Some block of 8-bit samples has this coefficient. */
  ghost predicate Reached(n: nat, c: int)
    requires n < 64
  {
    exists b: seq<int> :: |b| == 64 && Within(b, -128, 127) && Dct2D(b)[n] == c
  }

  lemma StripesWithin(v: seq<int>)
    requires |v| == 8 && Within(v, -128, 127)
    ensures Within(Stripes(v), -128, 127)
  {
  }

  /** All four bounds are reached: by a black and a white block for DC, by two
      striped ones for AC. */
  lemma RangeIsTight()
    ensures Reached(0, -1024) && Reached(0, 1016) && Reached(32, -1020) && Reached(32, 1020)
  {
    hide Dct2D, Stripes;
    FlatDc(-128);
    StripesWithin(seq(8, _ => -128));
    FlatDc(127);
    StripesWithin(seq(8, _ => 127));
    StripedAc(-128, 127);
    StripesWithin([-128, 127, 127, -128, -128, 127, 127, -128]);
    StripedAc(127, -128);
    StripesWithin([127, -128, -128, 127, 127, -128, -128, 127]);
  }

  // --------------------------------------------------------------- in place

  /** One iteration of the row loop. */
  method TransformRow(p: array<int32>, r: nat)
    requires p.Length == 64 && r < 8 && Within(Row(p[..], r), -128, 127)
    modifies p
    ensures forall n :: 8 * r <= n < 8 * r + 8 ==> p[n] == RowOut(Row(old(p[..]), r), n - 8 * r)
    ensures forall n :: 0 <= n < 8 * r || 8 * r + 8 <= n < 64 ==> p[n] == old(p[n])
  {
    hide Dot, RowOut;
    ghost var s := Row(p[..], r);
    assert s == [p[8 * r], p[8 * r + 1], p[8 * r + 2], p[8 * r + 3], p[8 * r + 4], p[8 * r + 5], p[8 * r + 6], p[8 * r + 7]];
    var d := Dct1D(p[8 * r], p[8 * r + 1], p[8 * r + 2], p[8 * r + 3],
                   p[8 * r + 4], p[8 * r + 5], p[8 * r + 6], p[8 * r + 7], -128, 127);
    for k := 0 to 8
      invariant forall n :: 8 * r <= n < 8 * r + k ==> p[n] == RowOut(s, n - 8 * r)
      invariant forall n :: 0 <= n < 8 * r || 8 * r + k <= n < 64 ==> p[n] == old(p[n])
    {
      RowRange(s, k);
      var v := ScaleRow(d[k], k);
      RowOutIs(s, k);
      p[8 * r + k] := v;
    }
  }

  lemma RowOutIs(s: seq<int>, k: nat)
    requires |s| == 8 && k < 8
    ensures RowOut(s, k) == if k == 0 || k == 4 then 4 * Dot(k, s) else Descale(Dot(k, s), 11)
  {
  }

  method ScaleRow(x: int32, k: nat) returns (r: int32)
    requires -8_000_000 <= x <= 8_000_000
    ensures r == if k == 0 || k == 4 then 4 * x else Descale(x, 11)
  {
    if k == 0 || k == 4 {
      r := 4 * x;
    } else {
      var sum: int32 := x + 0x400;
      r := sum / 0x800;
    }
  }

  method ScaleColumn(x: int32, k: nat) returns (r: int32)
    requires -250_000_000 <= x <= 250_000_000
    ensures r == Descale(x, if k == 0 || k == 4 then 5 else 18)
  {
    if k == 0 || k == 4 {
      var sum: int32 := x + 0x10;
      r := sum / 0x20;
    } else {
      var sum: int32 := x + 0x2_0000;
      r := sum / 0x4_0000;
    }
  }

  /** One iteration of the column loop. */
  method TransformColumn(p: array<int32>, c: nat, ghost lo: int, ghost hi: int)
    requires p.Length == 64 && c < 8 && Within(Column(p[..], c), lo, hi)
    requires (lo == -4096 && hi == 4064) || (lo == -4080 && hi == 4080)
    modifies p
    ensures forall k :: 0 <= k < 8 ==> p[8 * k + c] == ColumnOut(Column(old(p[..]), c), k)
    ensures forall n :: 0 <= n < 64 && n % 8 != c ==> p[n] == old(p[n])
  {
    hide Dot;
    ghost var s := Column(p[..], c);
    var d := Dct1D(p[c], p[8 + c], p[16 + c], p[24 + c], p[32 + c], p[40 + c], p[48 + c], p[56 + c], lo, hi);
    for k := 0 to 8
      invariant forall j :: 0 <= j < k ==> p[8 * j + c] == ColumnOut(s, j)
      invariant forall n :: 0 <= n < 64 && n % 8 != c ==> p[n] == old(p[n])
    {
      ColumnRange(s, k, lo, hi);
      var v := ScaleColumn(d[k], k);
      p[8 * k + c] := v;
    }
  }

  /** The first r rows are done. */
  ghost predicate RowsDone(q: seq<int>, b: seq<int>, r: nat) {
    |q| == |b| == 64 && forall n :: 0 <= n < 64 ==> q[n] == if n / 8 < r then RowPass(b)[n] else b[n]
  }

  lemma RowsStep(q: seq<int>, q': seq<int>, b: seq<int>, r: nat)
    requires RowsDone(q, b, r) && r < 8 && |q'| == 64
    requires forall n :: 8 * r <= n < 8 * r + 8 ==> q'[n] == RowOut(Row(q, r), n - 8 * r)
    requires forall n :: 0 <= n < 8 * r || 8 * r + 8 <= n < 64 ==> q'[n] == q[n]
    ensures RowsDone(q', b, r + 1)
  {
    hide RowOut;
    assert Row(q, r) == Row(b, r);
  }

  /** The first c columns are done. */
  ghost predicate ColumnsDone(q: seq<int>, m: seq<int>, c: nat) {
    |q| == |m| == 64 && forall n :: 0 <= n < 64 ==> q[n] == if n % 8 < c then ColumnPass(m)[n] else m[n]
  }

  lemma ColumnsStep(q: seq<int>, q': seq<int>, m: seq<int>, c: nat)
    requires ColumnsDone(q, m, c) && c < 8 && |q'| == 64
    requires forall k :: 0 <= k < 8 ==> q'[8 * k + c] == ColumnOut(Column(q, c), k)
    requires forall n :: 0 <= n < 64 && n % 8 != c ==> q'[n] == q[n]
    ensures ColumnsDone(q', m, c + 1)
  {
    hide ColumnOut, ColumnPass, Column;
    ColumnsLeft(q, m, c);
    forall n | 0 <= n < 64
      ensures q'[n] == if n % 8 < c + 1 then ColumnPass(m)[n] else m[n]
    {
      if n % 8 == c {
        var k := n / 8;
        assert n == 8 * k + c;
        ColumnPassAt(m, n);
      }
    }
  }

  lemma RowsLeft(q: seq<int>, b: seq<int>, r: nat)
    requires RowsDone(q, b, r) && r < 8
    ensures Row(q, r) == Row(b, r)
  {
  }

  lemma ColumnsLeft(q: seq<int>, m: seq<int>, c: nat)
    requires ColumnsDone(q, m, c) && c < 8
    ensures Column(q, c) == Column(m, c)
  {
    hide ColumnPass;
  }

  /** DCT2D. */
  method Transform(p: array<int32>)
    requires p.Length == 64 && Within(p[..], -128, 127)
    modifies p
    ensures p[..] == Dct2D(old(p[..]))
  {
    hide RowOut, ColumnOut, RowsDone, ColumnsDone, RowPass, ColumnPass, Column, Row;
    ghost var b := p[..];
    DoneBounds(b, b);
    for r := 0 to 8
      invariant RowsDone(p[..], b, r)
    {
      ghost var q := p[..];
      RowsLeft(q, b, r);
      RowWithin(b, r);
      TransformRow(p, r);
      RowsStep(q, p[..], b, r);
    }
    ghost var m := RowPass(b);
    DoneBounds(p[..], b);
    RowPassRange(b);
    DoneBounds(m, m);
    for c := 0 to 8
      invariant ColumnsDone(p[..], m, c)
    {
      ghost var q := p[..];
      ColumnsLeft(q, m, c);
      ColumnWithin(m, c);
      TransformColumn(p, c, if c == 0 then -4096 else -4080, if c == 0 then 4064 else 4080);
      ColumnsStep(q, p[..], m, c);
    }
    DoneBounds(p[..], m);
  }

  lemma RowWithin(b: seq<int>, r: nat)
    requires |b| == 64 && r < 8 && Within(b, -128, 127)
    ensures Within(Row(b, r), -128, 127)
  {
  }

  lemma DoneBounds(q: seq<int>, b: seq<int>)
    requires |q| == |b| == 64
    ensures RowsDone(q, b, 0) <==> q == b
    ensures RowsDone(q, b, 8) <==> q == RowPass(b)
    ensures ColumnsDone(q, b, 0) <==> q == b
    ensures ColumnsDone(q, b, 8) <==> q == ColumnPass(b)
  {
    hide RowPass, ColumnPass;
  }
}
