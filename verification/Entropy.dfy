/** The sequential Huffman coding of quantised blocks: what the encoder writes
    (jpge.cpp, code_coefficients_pass_two) and the decoder of T.81 section F.2.2,
    which returns exactly the coefficients. */
module Entropy {
  import opened Words
  import opened Bits
  import opened Huffman

  // ------------------------------------------------------------- symbols

  /** The bits of one symbol, as the generated tables give them. */
  function Symbol(h: Spec, sym: byte): seq<bool>
    requires WellSized(h)
  {
    var size := SizeTable(h)[sym];
    ToBits(if CodeTable(h)[sym] >= 0 then CodeTable(h)[sym] else 0, if size >= 0 then size else 0)
  }

  lemma SymbolDecodes(h: Spec, sym: byte, rest: seq<bool>)
    requires Valid(h) && HasCode(h, sym)
    ensures DecodeSymbol(h, Symbol(h, sym) + rest) == Some((sym, rest))
    ensures 0 <= CodeTable(h)[sym] < Pow2(|Symbol(h, sym)|)
    ensures 1 <= |Symbol(h, sym)| == SizeTable(h)[sym] <= 16
  {
    TableEntry(h, sym);
    var p :| 0 <= p < Total(h.bits) && h.val[p] == sym
             && SizeTable(h)[sym] == SizeAt(h.bits, p) && CodeTable(h)[sym] == CodeAt(h.bits, p);
    DecodeWord(h, p, rest);
    CodesFitIffKraft(h.bits);
  }

  // ---------------------------------------------------------- magnitudes

  function Abs(v: int): nat { if v < 0 then -v else v }

  /** The bit length of v. */
  function NBits(v: nat): nat {
    if v == 0 then 0 else 1 + NBits(v / 2)
  }

  /** The low-order bits of v, or of v - 1 when v is negative. */
  function MagnitudeBits(v: int): nat {
    (if v < 0 then v - 1 else v) % Pow2(NBits(Abs(v)))
  }

  function Magnitude(v: int): (b: seq<bool>)
    ensures |b| == NBits(Abs(v))
  {
    ToBits(MagnitudeBits(v), NBits(Abs(v)))
  }

  /** EXTEND of T.81 figure F.12. */
  function Extend(v: nat, t: nat): int {
    if t > 0 && v < Pow2(t - 1) then v + 1 - Pow2(t) else v
  }

  lemma {:induction false} NBitsBounds(v: nat)
    ensures v < Pow2(NBits(v))
    ensures v > 0 ==> NBits(v) > 0 && Pow2(NBits(v) - 1) <= v
  {
    if v > 0 {
      NBitsBounds(v / 2);
    }
  }

  lemma {:induction false} NBitsMax(v: nat, n: nat)
    requires v < Pow2(n)
    ensures NBits(v) <= n
  {
    if v > 0 {
      NBitsMax(v / 2, n - 1);
    }
  }

  lemma ModOnce(x: int, m: int)
    requires m > 0 && -m <= x < m
    ensures x % m == if x < 0 then x + m else x
  {
    if x < 0 {
      assert (x + m) % m == x + m;
    }
  }

  /** RECEIVE followed by EXTEND undoes the magnitude bits. */
  lemma MagnitudeExtends(v: int)
    ensures Extend(Value(Magnitude(v)), NBits(Abs(v))) == v
    ensures MagnitudeBits(v) < Pow2(NBits(Abs(v)))
  {
    var n := NBits(Abs(v));
    NBitsBounds(Abs(v));
    var p := Pow2(n);
    if v < 0 {
      ModOnce(v - 1, p);
      assert p == 2 * Pow2(n - 1);
    } else {
      ModOnce(v, p);
    }
    ValueToBits(MagnitudeBits(v), n);
  }

  // ------------------------------------------------------------ encoding

  /** Huffman specifications of one component class. */
  datatype Coder = Coder(dc: Spec, ac: Spec)

  /** The AC symbol for a zero run r and a magnitude category s. */
  function RunSize(r: nat, s: nat): byte
    requires r < 16 && s < 16
  {
    16 * r + s
  }

  ghost predicate CoversDc(h: Spec) {
    Valid(h) && forall s :: 0 <= s <= 11 ==> HasCode(h, s)
  }

  ghost predicate CoversAc(h: Spec) {
    && Valid(h)
    && HasCode(h, 0x00) && HasCode(h, 0xF0)
    && forall r, s :: 0 <= r < 16 && 1 <= s <= 10 ==> HasCode(h, RunSize(r, s))
  }

  ghost predicate Covers(k: Coder) {
    CoversDc(k.dc) && CoversAc(k.ac)
  }

  /** A block whose AC coefficients have a magnitude category of at most 10. */
  predicate Codable(c: seq<int>) {
    |c| == 64 && forall i :: 1 <= i < 64 ==> -1023 <= c[i] <= 1023
  }

  predicate CodableDiff(d: int) {
    -2047 <= d <= 2047
  }

  lemma SmallCategory(v: int)
    ensures -1023 <= v <= 1023 ==> NBits(Abs(v)) <= 10
    ensures -2047 <= v <= 2047 ==> NBits(Abs(v)) <= 11
    ensures v != 0 ==> NBits(Abs(v)) >= 1
  {
    Pow2Values();
    assert Pow2(11) == 2 * Pow2(10);
    if -1023 <= v <= 1023 {
      NBitsMax(Abs(v), 10);
    } else if -2047 <= v <= 2047 {
      NBitsMax(Abs(v), 11);
    }
  }

  function EncodeDc(h: Spec, diff: int): seq<bool>
    requires WellSized(h) && CodableDiff(diff)
  {
    SmallCategory(diff);
    Symbol(h, NBits(Abs(diff))) + Magnitude(diff)
  }

  /** n symbols of sixteen zeros (ZRL). */
  function Zrl(h: Spec, n: nat): seq<bool>
    requires WellSized(h)
  {
    if n == 0 then [] else Symbol(h, 0xF0) + Zrl(h, n - 1)
  }

  /** The AC coefficients from position i on, after a run of zeros. */
  function EncodeAc(h: Spec, c: seq<int>, i: nat, run: nat): seq<bool>
    requires WellSized(h) && Codable(c) && 1 <= i <= 64
    decreases 64 - i
  {
    if i == 64 then
      if run > 0 then Symbol(h, 0x00) else []
    else if c[i] == 0 then
      EncodeAc(h, c, i + 1, run + 1)
    else
      SmallCategory(c[i]);
      Zrl(h, run / 16) + Symbol(h, RunSize(run % 16, NBits(Abs(c[i])))) + Magnitude(c[i])
      + EncodeAc(h, c, i + 1, 0)
  }

  predicate WellSizedCoder(k: Coder) {
    WellSized(k.dc) && WellSized(k.ac)
  }

  function EncodeBlock(k: Coder, pred: int, c: seq<int>): seq<bool>
    requires WellSizedCoder(k) && Codable(c) && CodableDiff(c[0] - pred)
  {
    EncodeDc(k.dc, c[0] - pred) + EncodeAc(k.ac, c, 1, 0)
  }

  // ------------------------------------------------------------ decoding

  function Zeros(n: nat): (z: seq<int>)
    ensures |z| == n
  {
    seq(n, _ => 0)
  }

  /** RECEIVE of T.81 figure F.17. */
  function Receive(s: seq<bool>, n: nat): Option<(nat, seq<bool>)> {
    if |s| < n then None else Some((Value(s[..n]), s[n..]))
  }

  /** The difference of T.81 section F.2.2.1. */
  function DecodeDc(h: Spec, s: seq<bool>): Option<(int, seq<bool>)>
    requires WellSized(h)
  {
    match DecodeSymbol(h, s)
    case None => None
    case Some((t, s1)) =>
      match Receive(s1, t)
      case None => None
      case Some((v, s2)) => Some((Extend(v, t), s2))
  }

  /** The coefficients at positions k to 63 (T.81 figure F.13). */
  function DecodeAc(h: Spec, s: seq<bool>, k: nat): Option<(seq<int>, seq<bool>)>
    requires WellSized(h) && 1 <= k <= 64
    decreases 64 - k
  {
    if k == 64 then Some(([], s))
    else
      match DecodeSymbol(h, s)
      case None => None
      case Some((rs, s1)) =>
        var r, t := rs / 16, rs % 16;
        if t == 0 then
          if r != 15 then Some((Zeros(64 - k), s1))
          else if k + 16 > 64 then None
          else Prepend(Zeros(16), DecodeAc(h, s1, k + 16))
        else if k + r >= 64 then None
        else
          match Receive(s1, t)
          case None => None
          case Some((v, s2)) => Prepend(Zeros(r) + [Extend(v, t)], DecodeAc(h, s2, k + r + 1))
  }

  function Prepend(a: seq<int>, o: Option<(seq<int>, seq<bool>)>): Option<(seq<int>, seq<bool>)> {
    match o
    case None => None
    case Some((b, s)) => Some((a + b, s))
  }

  function DecodeBlock(k: Coder, pred: int, s: seq<bool>): Option<(seq<int>, seq<bool>)>
    requires WellSizedCoder(k)
  {
    match DecodeDc(k.dc, s)
    case None => None
    case Some((d, s1)) => Prepend([pred + d], DecodeAc(k.ac, s1, 1))
  }

  // ---------------------------------------------------------- round trip

  lemma ReceiveMagnitude(v: int, rest: seq<bool>)
    ensures Receive(Magnitude(v) + rest, NBits(Abs(v))) == Some((Value(Magnitude(v)), rest))
  {
    var m := Magnitude(v);
    assert (m + rest)[..|m|] == m;
    assert (m + rest)[|m|..] == rest;
  }

  lemma DcRoundTrip(h: Spec, diff: int, rest: seq<bool>)
    requires CoversDc(h) && CodableDiff(diff)
    ensures DecodeDc(h, EncodeDc(h, diff) + rest) == Some((diff, rest))
  {
    SmallCategory(diff);
    var n := NBits(Abs(diff));
    var tail := Magnitude(diff) + rest;
    assert EncodeDc(h, diff) + rest == Symbol(h, n) + tail;
    SymbolDecodes(h, n, tail);
    ReceiveMagnitude(diff, rest);
    MagnitudeExtends(diff);
  }

  lemma OneZrlDecodes(h: Spec, t: seq<bool>, k: nat, vs: seq<int>, rest: seq<bool>)
    requires CoversAc(h) && 1 <= k && k + 16 <= 63 && DecodeAc(h, t, k + 16) == Some((vs, rest))
    ensures DecodeAc(h, Symbol(h, 0xF0) + t, k) == Some((Zeros(16) + vs, rest))
  {
    hide DecodeSymbol, Symbol, Zeros;
    SymbolDecodes(h, 0xF0, t);
  }

  lemma ZerosAppend(m: nat, n: nat, vs: seq<int>)
    ensures Zeros(m) + (Zeros(n) + vs) == Zeros(m + n) + vs
  {
  }

  lemma {:induction false} ZrlDecodes(h: Spec, n: nat, t: seq<bool>, k: nat, vs: seq<int>, rest: seq<bool>)
    requires CoversAc(h) && 1 <= k && k + 16 * n <= 63
    requires DecodeAc(h, t, k + 16 * n) == Some((vs, rest))
    ensures DecodeAc(h, Zrl(h, n) + t, k) == Some((Zeros(16 * n) + vs, rest))
  {
    hide DecodeAc, Symbol;
    if n == 0 {
      assert Zrl(h, 0) + t == t && Zeros(0) + vs == vs;
    } else {
      ZrlDecodes(h, n - 1, t, k + 16, vs, rest);
      assert Zrl(h, n) + t == Symbol(h, 0xF0) + (Zrl(h, n - 1) + t);
      OneZrlDecodes(h, Zrl(h, n - 1) + t, k, Zeros(16 * (n - 1)) + vs, rest);
      ZerosAppend(16, 16 * (n - 1), vs);
    }
  }

  /** One nonzero coefficient v after fewer than sixteen zeros. */
  lemma CoefficientDecodes(h: Spec, r: nat, v: int, t: seq<bool>, k: nat, vs: seq<int>, rest: seq<bool>)
    requires CoversAc(h) && r < 16 && v != 0 && -1023 <= v <= 1023 && 1 <= k && k + r <= 63
    requires DecodeAc(h, t, k + r + 1) == Some((vs, rest))
    ensures NBits(Abs(v)) < 16
    ensures DecodeAc(h, Symbol(h, RunSize(r, NBits(Abs(v)))) + (Magnitude(v) + t), k)
         == Some((Zeros(r) + [v] + vs, rest))
  {
    hide DecodeSymbol, Symbol, Magnitude, Extend, Value;
    SmallCategory(v);
    var n := NBits(Abs(v));
    var rs := RunSize(r, n);
    SymbolDecodes(h, rs, Magnitude(v) + t);
    assert rs / 16 == r && rs % 16 == n;
    ReceiveMagnitude(v, t);
    MagnitudeExtends(v);
  }

  /** The code of a coefficient: ZRLs, the symbol and the magnitude, in this order. */
  lemma AcSplits(h: Spec, c: seq<int>, i: nat, run: nat, rest: seq<bool>)
    requires CoversAc(h) && Codable(c) && 1 <= i < 64 && c[i] != 0
    ensures NBits(Abs(c[i])) < 16
    ensures EncodeAc(h, c, i, run) + rest
         == Zrl(h, run / 16) + (Symbol(h, RunSize(run % 16, NBits(Abs(c[i]))))
                                + (Magnitude(c[i]) + (EncodeAc(h, c, i + 1, 0) + rest)))
  {
    hide Symbol, Magnitude, NBits, Zrl;
    SmallCategory(c[i]);
  }

  lemma RunSplits(c: seq<int>, i: nat, run: nat)
    requires i < |c| && run <= i
    requires forall j :: i - run <= j < i ==> c[j] == 0
    ensures c[i - run..] == Zeros(16 * (run / 16)) + (Zeros(run % 16) + [c[i]] + c[i + 1..])
  {
  }

  /** One nonzero coefficient after any number of zeros. */
  lemma RunDecodes(h: Spec, c: seq<int>, i: nat, run: nat, rest: seq<bool>)
    requires CoversAc(h) && Codable(c) && 1 <= i < 64 && run < i && c[i] != 0
    requires forall j :: i - run <= j < i ==> c[j] == 0
    requires DecodeAc(h, EncodeAc(h, c, i + 1, 0) + rest, i + 1) == Some((c[i + 1..], rest))
    ensures DecodeAc(h, EncodeAc(h, c, i, run) + rest, i - run) == Some((c[i - run..], rest))
  {
    hide EncodeAc, DecodeAc, Symbol, Magnitude, NBits, Zrl, RunSize, Zeros;
    var n, r, v := run / 16, run % 16, c[i];
    var tail := EncodeAc(h, c, i + 1, 0) + rest;
    AcSplits(h, c, i, run, rest);
    RunSplits(c, i, run);
    CoefficientDecodes(h, r, v, tail, i - r, c[i + 1..], rest);
    ZrlDecodes(h, n, Symbol(h, RunSize(r, NBits(Abs(v)))) + (Magnitude(v) + tail), i - run,
               Zeros(r) + [v] + c[i + 1..], rest);
  }

  /** The end of the block, with or without EOB. */
  lemma EndDecodes(h: Spec, c: seq<int>, run: nat, rest: seq<bool>)
    requires CoversAc(h) && Codable(c) && run < 64
    requires forall j :: 64 - run <= j < 64 ==> c[j] == 0
    ensures DecodeAc(h, EncodeAc(h, c, 64, run) + rest, 64 - run) == Some((c[64 - run..], rest))
  {
    hide DecodeSymbol, Symbol;
    if run > 0 {
      SymbolDecodes(h, 0x00, rest);
      assert c[64 - run..] == Zeros(run);
    } else {
      assert [] + rest == rest && c[64..] == [];
    }
  }

  lemma {:induction false} AcRoundTrip(h: Spec, c: seq<int>, i: nat, run: nat, rest: seq<bool>)
    requires CoversAc(h) && Codable(c) && 1 <= i <= 64 && run < i
    requires forall j :: i - run <= j < i ==> c[j] == 0
    ensures DecodeAc(h, EncodeAc(h, c, i, run) + rest, i - run) == Some((c[i - run..], rest))
    decreases 64 - i
  {
    hide DecodeSymbol, Symbol, Magnitude, NBits, Zrl, RunSize, Extend, Receive;
    if i == 64 {
      EndDecodes(h, c, run, rest);
    } else if c[i] == 0 {
      AcRoundTrip(h, c, i + 1, run + 1, rest);
    } else {
      AcRoundTrip(h, c, i + 1, 0, rest);
      RunDecodes(h, c, i, run, rest);
    }
  }

  /** Decoding a coded block returns its 64 coefficients and the unread bits. */
  lemma BlockRoundTrip(k: Coder, pred: int, c: seq<int>, rest: seq<bool>)
    requires Covers(k) && Codable(c) && CodableDiff(c[0] - pred)
    ensures DecodeBlock(k, pred, EncodeBlock(k, pred, c) + rest) == Some((c, rest))
  {
    hide EncodeDc, DecodeDc, EncodeAc, DecodeAc;
    var ac := EncodeAc(k.ac, c, 1, 0);
    assert EncodeBlock(k, pred, c) + rest == EncodeDc(k.dc, c[0] - pred) + (ac + rest);
    DcRoundTrip(k.dc, c[0] - pred, ac + rest);
    AcRoundTrip(k.ac, c, 1, 0, rest);
    assert c == [c[0]] + c[1..];
  }
}
