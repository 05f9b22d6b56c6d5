/** Bytes of an entropy-coded segment: bits grouped into bytes, byte stuffing
    (T.81 section F.1.2.3) and the inverse of both. */
module Packer {
  import opened Words
  import opened Bits

  /** The complete bytes of a bit string. */
  function PackBytes(s: seq<bool>): seq<byte>
    decreases |s|
  {
    if |s| < 8 then []
    else
      ToBitsValue(s[..8]);
      Pow2Values();
      [Value(s[..8])] + PackBytes(s[8..])
  }

  /** The bits that do not fill a byte. */
  function Rest(s: seq<bool>): (r: seq<bool>)
    ensures |r| < 8
    decreases |s|
  {
    if |s| < 8 then s else Rest(s[8..])
  }

  function UnpackBytes(b: seq<byte>): seq<bool> {
    if b == [] then [] else ToBits(b[0], 8) + UnpackBytes(b[1..])
  }

  lemma {:induction false} PackSplits(s: seq<bool>)
    ensures UnpackBytes(PackBytes(s)) + Rest(s) == s
    decreases |s|
  {
    if |s| >= 8 {
      PackSplits(s[8..]);
      ToBitsValue(s[..8]);
      assert s == s[..8] + s[8..];
    }
  }

  /** Packing may stop and go on later with the incomplete byte. */
  lemma {:induction false} PackAppend(a: seq<bool>, b: seq<bool>)
    ensures PackBytes(a + b) == PackBytes(a) + PackBytes(Rest(a) + b)
    ensures Rest(a + b) == Rest(Rest(a) + b)
    decreases |a|
  {
    if |a| >= 8 {
      PackAppend(a[8..], b);
      assert (a + b)[..8] == a[..8] && (a + b)[8..] == a[8..] + b;
    }
  }

  function StuffByte(x: byte): seq<byte> {
    if x == 0xFF then [0xFF, 0] else [x]
  }

  /** A zero byte follows every 0xFF. */
  function Stuff(b: seq<byte>): seq<byte> {
    if b == [] then [] else StuffByte(b[0]) + Stuff(b[1..])
  }

  lemma {:induction false} StuffAppend(a: seq<byte>, b: seq<byte>)
    ensures Stuff(a + b) == Stuff(a) + Stuff(b)
  {
    hide StuffByte;
    if a == [] {
      assert a + b == b;
    } else {
      StuffAppend(a[1..], b);
      assert (a + b)[1..] == a[1..] + b;
    }
  }

  /** Reads entropy-coded bytes up to the first marker; returns them without
      the stuffed zeros, and the bytes from the marker on. */
  function Unstuff(b: seq<byte>): (seq<byte>, seq<byte>) {
    if b == [] then ([], [])
    else if b[0] != 0xFF then
      var (e, rest) := Unstuff(b[1..]); ([b[0]] + e, rest)
    else if |b| >= 2 && b[1] == 0 then
      var (e, rest) := Unstuff(b[2..]); ([0xFF] + e, rest)
    else ([], b)
  }

  /** Unstuffing a stuffed segment stops exactly at the marker after it. */
  lemma {:induction false} UnstuffStuff(b: seq<byte>, rest: seq<byte>)
    requires rest != [] ==> rest[0] == 0xFF && (|rest| == 1 || rest[1] != 0)
    ensures Unstuff(Stuff(b) + rest) == (b, rest)
  {
    if b == [] {
      assert Stuff(b) + rest == rest;
    } else {
      var t := Stuff(b[1..]) + rest;
      UnstuffStuff(b[1..], rest);
      assert b == [b[0]] + b[1..];
      assert Stuff(b) + rest == StuffByte(b[0]) + t;
      UnstuffStep(b[0], t);
    }
  }

  lemma UnstuffStep(x: byte, t: seq<byte>)
    ensures Unstuff(StuffByte(x) + t) == ([x] + Unstuff(t).0, Unstuff(t).1)
  {
    if x == 0xFF {
      assert (StuffByte(x) + t)[2..] == t;
    } else {
      assert (StuffByte(x) + t)[1..] == t;
    }
  }

  /** No marker can appear inside stuffed data. */
  lemma {:induction false} StuffHidesMarkers(b: seq<byte>, i: nat)
    requires i < |Stuff(b)| && Stuff(b)[i] == 0xFF
    ensures i + 1 < |Stuff(b)| && Stuff(b)[i + 1] == 0
  {
    var n := if b[0] == 0xFF then 2 else 1;
    if i >= n {
      assert Stuff(b)[i] == Stuff(b[1..])[i - n];
      StuffHidesMarkers(b[1..], i - n);
    }
  }

  // ------------------------------------------------------------- padding

  function Ones(n: nat): (b: seq<bool>)
    ensures |b| == n
  {
    seq(n, _ => true)
  }

  /** The number of bits missing to a byte boundary. */
  function PadCount(n: nat): (k: nat)
    ensures k < 8 && (n + k) % 8 == 0
  {
    (8 - n % 8) % 8
  }

  lemma PadIsFlushed(n: nat)
    ensures (n + 7) - (n + 7) % 8 == n + PadCount(n)
  {
  }

  /** After seven one bits every bit of s is inside a complete byte, and the
      last byte is filled with ones; the bits not written are all ones. */
  lemma PaddingFlushes(s: seq<bool>)
    ensures UnpackBytes(PackBytes(s + Ones(7))) == s + Ones(PadCount(|s|))
  {
    hide PackBytes, Rest, UnpackBytes, PadCount;
    var t := s + Ones(7);
    PackSplits(t);
    RestLength(t);
    PadIsFlushed(|s|);
    var u := UnpackBytes(PackBytes(t));
    assert |u| + |Rest(t)| == |t|;
    OnesPrefix(u, Rest(t), s, PadCount(|s|));
  }

  lemma OnesPrefix(u: seq<bool>, r: seq<bool>, s: seq<bool>, k: nat)
    requires u + r == s + Ones(7) && |u| == |s| + k && k < 8
    ensures u == s + Ones(k)
  {
    assert u == (s + Ones(7))[..|u|];
    assert Ones(7)[..k] == Ones(k);
  }

  lemma {:induction false} RestLength(s: seq<bool>)
    ensures |Rest(s)| == |s| % 8
    decreases |s|
  {
    if |s| >= 8 {
      RestLength(s[8..]);
    }
  }
}
