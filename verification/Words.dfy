/** Machine words of the sources, written over the mathematical integers.
    A value that the C code keeps in a narrow type has one of the subset types
    below, so that "nothing is truncated and nothing overflows" is an obligation
    of every assignment. Conversions that may lose information are functions. */
module Words {

  type byte = x: int | 0 <= x < 0x100
  type int16 = x: int | -0x8000 <= x < 0x8000
  type int32 = x: int | -0x8000_0000 <= x < 0x8000_0000
  type uint32 = x: int | 0 <= x < 0x1_0000_0000

  datatype Option<+T> = None | Some(value: T)

  /** The cast of a wider signed integer to int16 (two's complement). */
  function ToInt16(x: int): (r: int16)
    ensures -0x8000 <= x < 0x8000 ==> r == x
  {
    var m := x % 0x1_0000;
    if m < 0x8000 then m else m - 0x1_0000
  }

  function Pow2(n: nat): (p: nat)
    ensures p > 0
  {
    if n == 0 then 1 else 2 * Pow2(n - 1)
  }

  lemma {:induction false} Pow2Mono(a: nat, b: nat)
    requires a <= b
    ensures Pow2(a) <= Pow2(b)
  {
    if a < b {
      Pow2Mono(a, b - 1);
    }
  }

  lemma Pow2Values()
    ensures Pow2(7) == 128 && Pow2(8) == 256 && Pow2(11) == 2048 && Pow2(16) == 0x1_0000 && Pow2(24) == 0x100_0000
  {
    assert Pow2(3) == 8;
    assert Pow2(6) == 64;
    assert Pow2(9) == 512;
    assert Pow2(12) == 4096;
    assert Pow2(15) == 0x8000;
    assert Pow2(18) == 0x4_0000;
    assert Pow2(21) == 0x20_0000;
  }

  /** x << n and x >> n on unbounded naturals. */
  function ShiftLeft(x: nat, n: nat): nat {
    if n == 0 then x else 2 * ShiftLeft(x, n - 1)
  }

  function ShiftRight(x: nat, n: nat): nat {
    if n == 0 then x else ShiftRight(x / 2, n - 1)
  }

  /** x << n on a uint32: bits shifted out at the top are lost. */
  function Shl32(x: uint32, n: nat): uint32 {
    ShiftLeft(x, n) % 0x1_0000_0000
  }

  lemma {:induction false} ShiftLeftAdd(x: nat, m: nat, n: nat)
    ensures ShiftLeft(x, m + n) == ShiftLeft(ShiftLeft(x, m), n)
  {
    if n > 0 {
      ShiftLeftAdd(x, m, n - 1);
    }
  }

  lemma {:induction false} ShiftLeftMono(x: nat, y: nat, n: nat)
    requires x <= y
    ensures ShiftLeft(x, n) <= ShiftLeft(y, n)
  {
    if n > 0 {
      ShiftLeftMono(x, y, n - 1);
    }
  }

  lemma {:induction false} ShiftLeftBound(x: nat, m: nat, n: nat)
    requires x < Pow2(m)
    ensures ShiftLeft(x, n) < Pow2(m + n)
  {
    if n > 0 {
      ShiftLeftBound(x, m, n - 1);
      assert Pow2(m + n) == 2 * Pow2(m + n - 1);
    }
  }

  lemma {:induction false} ShiftRightStep(x: nat, n: nat)
    requires n > 0
    ensures ShiftRight(x, n) == ShiftRight(x, n - 1) / 2
  {
    if n > 1 {
      ShiftRightStep(x / 2, n - 1);
    }
  }

  lemma {:induction false} ShiftRightZero(x: nat, n: nat)
    requires x < Pow2(n)
    ensures ShiftRight(x, n) == 0
  {
    if n > 0 {
      ShiftRightZero(x / 2, n - 1);
    }
  }

  /** Bitwise or of two naturals. */
  function Or(a: nat, b: nat): nat {
    if a == 0 && b == 0 then 0
    else (if a % 2 == 1 || b % 2 == 1 then 1 else 0) + 2 * Or(a / 2, b / 2)
  }

  /** Or is addition when the operands do not overlap. */
  lemma {:induction false} OrDisjoint(a: nat, b: nat, k: nat)
    requires b < Pow2(k)
    ensures Or(ShiftLeft(a, k), b) == ShiftLeft(a, k) + b
  {
    if k == 0 {
      OrZero(a);
    } else {
      OrDisjoint(a, b / 2, k - 1);
    }
  }

  lemma {:induction false} OrZero(a: nat)
    ensures Or(a, 0) == a
  {
    if a != 0 {
      OrZero(a / 2);
    }
  }

  lemma MultipleAtLeast(m: nat, k: nat)
    requires k > 0
    ensures m * k >= m
  {
    assert m * k == m + m * (k - 1);
  }

  lemma MulMono(a: int, x: int, y: int)
    requires a >= 0 && x <= y
    ensures a * x <= a * y
  {
    assert a * y == a * x + a * (y - x);
  }

  lemma MulCancel(a: int, x: int, y: int)
    requires a >= 0 && a * x < a * y
    ensures x < y
  {
    if y <= x {
      MulMono(a, y, x);
    }
  }

  lemma MulNegate(x: int, y: int)
    ensures (-x) * y == -(x * y) && x * (-y) == -(x * y)
  {
  }

  /** A product of bounded factors. */
  lemma MulBound(x: int, y: int, a: int, b: int)
    requires -a <= x <= a && -b <= y <= b
    ensures -(a * b) <= x * y <= a * b
  {
    if x < 0 {
      MulBoundRight(-x, y, a, b);
      MulNegate(x, y);
    } else {
      MulBoundRight(x, y, a, b);
    }
  }

  lemma MulBoundRight(x: int, y: int, a: int, b: int)
    requires 0 <= x <= a && -b <= y <= b
    ensures -(a * b) <= x * y <= a * b
  {
    MulMono(x, y, b);
    MulMono(x, -b, y);
    MulNegate(x, b);
    MulMono(b, x, a);
  }

  lemma QuotientBounds(x: int, q: int)
    requires x >= 0 && q >= 1
    ensures x / q >= 0 && q * (x / q) <= x < q * (x / q) + q
  {
    assert x == q * (x / q) + x % q;
    if x / q < 0 {
      MulMono(q, x / q, -1);
    }
  }

  lemma DivModUnique(x: int, m: nat, q: int, r: int)
    requires m > 0 && x == m * q + r && 0 <= r < m
    ensures x / m == q && x % m == r
  {
    var q', r' := x / m, x % m;
    assert x == m * q' + r';
    if q > q' {
      MultipleAtLeast(m, q - q');
    } else if q < q' {
      MultipleAtLeast(m, q' - q);
    }
  }

  function Max(a: int, b: int): int {
    if a > b then a else b
  }

  function Min(a: int, b: int): int { if a <= b then a else b }
}
