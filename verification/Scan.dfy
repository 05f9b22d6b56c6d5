/** A scan: the blocks of all components in order, each DC coefficient coded
    as the difference to the previous block of its component. */
module Scan {
  import opened Words
  import opened Entropy

  /** comp is 0 for luma, 1 and 2 for chroma; coefs are in zigzag order. */
  datatype Block = Block(comp: int, coefs: seq<int>)

  /** The coders of luma and chroma. */
  datatype Coders = Coders(luma: Coder, chroma: Coder)

  function CoderOf(k: Coders, comp: int): Coder {
    if comp == 0 then k.luma else k.chroma
  }

  ghost predicate CoversAll(k: Coders) {
    Covers(k.luma) && Covers(k.chroma)
  }

  predicate WellSizedCoders(k: Coders) {
    WellSizedCoder(k.luma) && WellSizedCoder(k.chroma)
  }

  /** What the transform and the quantiser deliver. */
  predicate CodableBlock(b: Block) {
    0 <= b.comp < 3 && Codable(b.coefs) && -1024 <= b.coefs[0] <= 1023
  }

  predicate CodableBlocks(bs: seq<Block>) {
    forall i :: 0 <= i < |bs| ==> CodableBlock(bs[i])
  }

  /** The last DC value of each component. */
  predicate ValidPreds(preds: seq<int>) {
    |preds| == 3 && forall i :: 0 <= i < 3 ==> -1024 <= preds[i] <= 1023
  }

  function NextPreds(preds: seq<int>, b: Block): (p: seq<int>)
    requires ValidPreds(preds) && CodableBlock(b)
    ensures ValidPreds(p)
  {
    preds[b.comp := b.coefs[0]]
  }

  function EncodeBlocks(k: Coders, preds: seq<int>, bs: seq<Block>): seq<bool>
    requires WellSizedCoders(k) && ValidPreds(preds) && CodableBlocks(bs)
    decreases bs
  {
    if bs == [] then []
    else
      EncodeBlock(CoderOf(k, bs[0].comp), preds[bs[0].comp], bs[0].coefs)
      + EncodeBlocks(k, NextPreds(preds, bs[0]), bs[1..])
  }

  function PredsAfter(preds: seq<int>, bs: seq<Block>): (p: seq<int>)
    requires ValidPreds(preds) && CodableBlocks(bs)
    ensures ValidPreds(p)
    decreases bs
  {
    if bs == [] then preds else PredsAfter(NextPreds(preds, bs[0]), bs[1..])
  }

  lemma {:induction false} EncodeAppend(k: Coders, preds: seq<int>, bs: seq<Block>, b: Block)
    requires WellSizedCoders(k) && ValidPreds(preds) && CodableBlocks(bs) && CodableBlock(b)
    ensures CodableBlocks(bs + [b])
    ensures EncodeBlocks(k, preds, bs + [b])
         == EncodeBlocks(k, preds, bs) + EncodeBlock(CoderOf(k, b.comp), PredsAfter(preds, bs)[b.comp], b.coefs)
    ensures PredsAfter(preds, bs + [b]) == PredsAfter(preds, bs)[b.comp := b.coefs[0]]
    decreases bs
  {
    hide EncodeBlock;
    if bs == [] {
      assert [b][1..] == [];
    } else {
      EncodeAppend(k, NextPreds(preds, bs[0]), bs[1..], b);
      assert (bs + [b])[1..] == bs[1..] + [b];
    }
  }

  /** Decode one block per entry of comps (T.81 section F.2.1.3). */
  function DecodeBlocks(k: Coders, preds: seq<int>, comps: seq<int>, s: seq<bool>): Option<(seq<Block>, seq<bool>)>
    requires WellSizedCoders(k) && |preds| == 3 && forall i :: 0 <= i < |comps| ==> 0 <= comps[i] < 3
    decreases comps
  {
    if comps == [] then Some(([], s))
    else
      var c := comps[0];
      match DecodeBlock(CoderOf(k, c), preds[c], s)
      case None => None
      case Some((coefs, s1)) =>
        if coefs == [] then None
        else
          match DecodeBlocks(k, preds[c := coefs[0]], comps[1..], s1)
          case None => None
          case Some((bs, s2)) => Some(([Block(c, coefs)] + bs, s2))
  }

  function Comps(bs: seq<Block>): (cs: seq<int>)
    ensures |cs| == |bs|
    ensures CodableBlocks(bs) ==> forall i :: 0 <= i < |cs| ==> 0 <= cs[i] < 3
  {
    seq(|bs|, i requires 0 <= i < |bs| => bs[i].comp)
  }

  /** The scan decoder recovers every block, whatever bits follow. */
  lemma {:induction false} ScanRoundTrip(k: Coders, preds: seq<int>, bs: seq<Block>, rest: seq<bool>)
    requires WellSizedCoders(k) && CoversAll(k) && ValidPreds(preds) && CodableBlocks(bs)
    ensures DecodeBlocks(k, preds, Comps(bs), EncodeBlocks(k, preds, bs) + rest) == Some((bs, rest))
    decreases bs
  {
    hide EncodeBlock, DecodeBlock, CoversAll, Covers;
    if bs == [] {
      assert [] + rest == rest;
    } else {
      var b := bs[0];
      var tail := EncodeBlocks(k, NextPreds(preds, b), bs[1..]);
      CoversEach(k, b.comp);
      BlockRoundTrip(CoderOf(k, b.comp), preds[b.comp], b.coefs, tail + rest);
      ScanRoundTrip(k, NextPreds(preds, b), bs[1..], rest);
      assert Comps(bs)[1..] == Comps(bs[1..]);
      assert [Block(b.comp, b.coefs)] + bs[1..] == bs;
      assert EncodeBlocks(k, preds, bs) + rest
          == EncodeBlock(CoderOf(k, b.comp), preds[b.comp], b.coefs) + (tail + rest);
    }
  }

  lemma CoversEach(k: Coders, comp: int)
    requires CoversAll(k)
    ensures Covers(CoderOf(k, comp)) && WellSizedCoders(k)
  {
  }
}
