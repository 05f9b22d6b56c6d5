/** Bit strings, most significant bit first, and their numeric values. */
module Bits {
  import opened Words

  /** The n low-order bits of v. */
  function ToBits(v: nat, n: nat): (b: seq<bool>)
    ensures |b| == n
  {
    if n == 0 then [] else ToBits(v / 2, n - 1) + [v % 2 == 1]
  }

  function Value(b: seq<bool>): nat {
    if b == [] then 0
    else 2 * Value(b[..|b| - 1]) + if b[|b| - 1] then 1 else 0
  }

  lemma {:induction false} ValueToBits(v: nat, n: nat)
    requires v < Pow2(n)
    ensures Value(ToBits(v, n)) == v
  {
    if n > 0 {
      ValueToBits(v / 2, n - 1);
      var b := ToBits(v, n);
      assert b[..|b| - 1] == ToBits(v / 2, n - 1);
    }
  }

  lemma {:induction false} ToBitsValue(b: seq<bool>)
    ensures Value(b) < Pow2(|b|)
    ensures ToBits(Value(b), |b|) == b
  {
    if b != [] {
      ToBitsValue(b[..|b| - 1]);
      assert b == b[..|b| - 1] + [b[|b| - 1]];
    }
  }

  /** The first bit of the field is bit n - 1 of v; bits above it do not matter. */
  lemma {:induction false} ToBitsHead(v: nat, n: nat)
    requires n > 0
    ensures ToBits(v, n) == [ShiftRight(v, n - 1) % 2 == 1] + ToBits(v, n - 1)
  {
    if n > 1 {
      ToBitsHead(v / 2, n - 1);
    } else {
      assert ToBits(v / 2, 0) == [];
    }
  }

  /** Appending an n-bit field. */
  lemma {:induction false} ToBitsAppend(v: nat, w: nat, m: nat, n: nat)
    requires w < Pow2(n)
    ensures ToBits(ShiftLeft(v, n) + w, m + n) == ToBits(v, m) + ToBits(w, n)
  {
    if n == 0 {
      assert ToBits(v, m) + [] == ToBits(v, m);
    } else {
      var x := ShiftLeft(v, n) + w;
      assert x / 2 == ShiftLeft(v, n - 1) + w / 2 && x % 2 == w % 2;
      ToBitsAppend(v, w / 2, m, n - 1);
    }
  }
}
