/** The sequential parts of cam_hal.c: the scans for JPEG markers, the choice of
    a free frame, and cam_take with its recursion. */
module CamTake {
  import opened Words
  import opened Markers

  /** cam_verify_jpeg_soi. At the last offsets the comparison reads two bytes
      beyond length; beyond stands for what memory holds there. */
  method VerifyJpegSoi(buf: seq<byte>, beyond: seq<byte>) returns (offset: int)
    requires |beyond| == 2
    ensures -1 <= offset < |buf|
    ensures offset >= 0 ==> SoiAt(buf + beyond, offset) && forall i :: 0 <= i < offset ==> !SoiAt(buf + beyond, i)
    ensures offset == -1 ==> forall i :: 0 <= i < |buf| ==> !SoiAt(buf + beyond, i)
    // the answer that the capture task acts on
    ensures offset == 0 <==> StartsWithSoi(buf, SoiAt(buf + beyond, 0))
  {
    ghost var memory := buf + beyond;
    for i := 0 to |buf|
      invariant forall k :: 0 <= k < i ==> !SoiAt(memory, k)
    {
      var second := if i + 1 < |buf| then buf[i + 1] else beyond[i + 1 - |buf|];
      var third := if i + 2 < |buf| then buf[i + 2] else beyond[i + 2 - |buf|];
      if buf[i] == 0xFF && second == 0xD8 && third == 0xFF {
        return i;
      }
    }
    offset := -1;
  }

  /** The last marker that cam_take accepts: one at offset zero does not count. */
  ghost predicate LastEoi(buf: seq<byte>, offset: int) {
    offset >= 1 && EoiAt(buf, offset) && forall i :: i > offset ==> !EoiAt(buf, i)
  }

  ghost predicate NoEoi(buf: seq<byte>) {
    forall i :: i >= 1 ==> !EoiAt(buf, i)
  }

  /** cam_verify_jpeg_eoi: the last marker, but not one at offset zero. */
  method VerifyJpegEoi(buf: seq<byte>) returns (offset: int)
    ensures if offset == -1 then NoEoi(buf) else 1 <= offset <= |buf| - 2 && LastEoi(buf, offset)
  {
    var dptr := |buf| - 2;
    while dptr > 0
      invariant dptr <= |buf| - 2
      invariant forall i :: i > dptr ==> !EoiAt(buf, i)
      decreases dptr
    {
      if buf[dptr] == 0xFF && buf[dptr + 1] == 0xD9 {
        return dptr;
      }
      dptr := dptr - 1;
    }
    offset := -1;
  }

  /** cam_get_next_frame. */
  method GetNextFrame(en: array<bool>, framePos: nat) returns (pos: nat, ok: bool)
    requires framePos < en.Length
    ensures pos < en.Length
    ensures ok <==> exists x :: 0 <= x < en.Length && en[x]
    ensures ok ==> en[pos]
    ensures !ok || en[framePos] ==> pos == framePos
    ensures ok && !en[framePos] ==> forall x :: 0 <= x < pos ==> !en[x]
  {
    pos := framePos;
    if en[framePos] {
      return pos, true;
    }
    for x := 0 to en.Length
      invariant forall k :: 0 <= k < x ==> !en[k]
    {
      if en[x] {
        return x, true;
      }
    }
    ok := false;
  }

  /** Where a returned JPEG frame is cut: after the last marker. */
  ghost predicate CutAfterEoi(whole: seq<byte>, cut: seq<byte>) {
    3 <= |cut| <= |whole| && cut == whole[..|cut|] && LastEoi(whole, |cut| - 2)
  }

  /** The time that the first n of left attempts take. */
  function Elapsed(spent: nat -> nat, left: nat, n: nat): nat
    requires n <= left
  {
    if n == 0 then 0 else spent(left - 1) + Elapsed(spent, left - 1, n - 1)
  }

  /** What cam_take makes of the queue q: the frames in back were given back, r is
      returned, and rest stays queued. */
  ghost predicate Outcome(q: seq<nat>, data: seq<seq<byte>>, jpeg: bool, timeout: nat, spent: nat -> nat,
                          r: Option<nat>, back: seq<nat>, rest: seq<nat>) {
    && q == back + (if r.Some? then [r.value] else []) + rest
    && (forall f :: f in back ==> jpeg && f < |data| && NoEoi(data[f]))
    && (r.Some? && jpeg ==> r.value < |data| && !NoEoi(data[r.value]))
    // a missing frame means an empty queue, or that time has run out
    && (r.None? ==> rest == [] || (back != [] && Elapsed(spent, |q|, |back|) >= timeout))
    // a further attempt is made only while there is time
    && (forall n :: 1 <= n < |back| + (if r.Some? then 1 else 0) ==> Elapsed(spent, |q|, n) < timeout)
  }

  /** There is no other outcome. */
  lemma OutcomeIsUnique(q: seq<nat>, data: seq<seq<byte>>, jpeg: bool, timeout: nat, spent: nat -> nat,
                        r: Option<nat>, back: seq<nat>, rest: seq<nat>, r': Option<nat>, back': seq<nat>, rest': seq<nat>)
    requires Outcome(q, data, jpeg, timeout, spent, r, back, rest)
    requires Outcome(q, data, jpeg, timeout, spent, r', back', rest')
    ensures r == r' && back == back' && rest == rest'
  {
    NoLongerBack(q, data, jpeg, timeout, spent, r, back, rest, r', back', rest');
    NoLongerBack(q, data, jpeg, timeout, spent, r', back', rest', r, back, rest);
    assert back == q[..|back|] && back' == q[..|back'|];
    assert r.Some? ==> rest == q[|back| + 1..] && r.value == q[|back|];
    assert r'.Some? ==> rest' == q[|back'| + 1..] && r'.value == q[|back'|];
    assert r.None? ==> rest == q[|back|..];
    assert r'.None? ==> rest' == q[|back'|..];
  }

  /** Why no further frame was given back. */
  lemma Stops(q: seq<nat>, data: seq<seq<byte>>, jpeg: bool, timeout: nat, spent: nat -> nat,
              r: Option<nat>, back: seq<nat>, rest: seq<nat>)
    requires Outcome(q, data, jpeg, timeout, spent, r, back, rest)
    ensures
      var k := |back|;
      || k == |q|
      || (k < |q| && (jpeg ==> q[k] < |data| && !NoEoi(data[q[k]])))
      || (1 <= k <= |q| && Elapsed(spent, |q|, k) >= timeout)
  {
  }

  /** What allowed the frame at position k to be given back. */
  lemma Passes(q: seq<nat>, data: seq<seq<byte>>, jpeg: bool, timeout: nat, spent: nat -> nat,
               r: Option<nat>, back: seq<nat>, rest: seq<nat>, k: nat)
    requires Outcome(q, data, jpeg, timeout, spent, r, back, rest) && k < |back|
    ensures k < |q| && jpeg && q[k] < |data| && NoEoi(data[q[k]])
    ensures 1 <= k ==> Elapsed(spent, |q|, k) < timeout
  {
    assert back[k] in back && back[k] == q[k];
  }

  lemma NoLongerBack(q: seq<nat>, data: seq<seq<byte>>, jpeg: bool, timeout: nat, spent: nat -> nat,
                     r: Option<nat>, back: seq<nat>, rest: seq<nat>, r': Option<nat>, back': seq<nat>, rest': seq<nat>)
    requires Outcome(q, data, jpeg, timeout, spent, r, back, rest)
    requires Outcome(q, data, jpeg, timeout, spent, r', back', rest')
    ensures |back'| <= |back|
  {
    Stops(q, data, jpeg, timeout, spent, r, back, rest);
    if |back'| > |back| {
      hide Outcome, NoEoi;
      Passes(q, data, jpeg, timeout, spent, r', back', rest', |back|);
    }
  }

  /** With time left, the frame returned is the first one with an end marker. */
  lemma FirstMarkedIsTaken(q: seq<nat>, data: seq<seq<byte>>, timeout: nat, spent: nat -> nat,
                           r: Option<nat>, back: seq<nat>, rest: seq<nat>, i: nat)
    requires Outcome(q, data, true, timeout, spent, r, back, rest)
    requires i < |q| && q[i] < |data| && !NoEoi(data[q[i]]) && (i == 0 || Elapsed(spent, |q|, i) < timeout)
    requires forall j :: 0 <= j < i ==> q[j] < |data| && NoEoi(data[q[j]])
    ensures r == Some(q[i]) && back == q[..i] && rest == q[i + 1..]
  {
    hide NoEoi;
    assert q == q[..i] + [q[i]] + q[i + 1..];
    assert forall f :: f in q[..i] ==> f < |data| && NoEoi(data[f]);
    forall n | 1 <= n < i + 1
      ensures Elapsed(spent, |q|, n) < timeout
    {
      ElapsedGrows(spent, |q|, n, i);
    }
    OutcomeIsUnique(q, data, true, timeout, spent, r, back, rest, Some(q[i]), q[..i], q[i + 1..]);
  }

  lemma {:induction false} ElapsedGrows(spent: nat -> nat, left: nat, m: nat, n: nat)
    requires m <= n <= left
    ensures Elapsed(spent, left, m) <= Elapsed(spent, left, n)
  {
    if m > 0 {
      ElapsedGrows(spent, left - 1, m - 1, n - 1);
    }
  }

  lemma NothingQueued(data: seq<seq<byte>>, jpeg: bool, timeout: nat, spent: nat -> nat)
    ensures Outcome([], data, jpeg, timeout, spent, None, [], [])
  {
  }

  lemma FirstReturned(q: seq<nat>, data: seq<seq<byte>>, jpeg: bool, timeout: nat, spent: nat -> nat)
    requires q != [] && (jpeg ==> q[0] < |data| && !NoEoi(data[q[0]]))
    ensures Outcome(q, data, jpeg, timeout, spent, Some(q[0]), [], q[1..])
  {
  }

  lemma OutOfTime(q: seq<nat>, data: seq<seq<byte>>, timeout: nat, spent: nat -> nat)
    requires q != [] && q[0] < |data| && NoEoi(data[q[0]]) && spent(|q| - 1) >= timeout
    ensures Outcome(q, data, true, timeout, spent, None, [q[0]], q[1..])
  {
    assert Elapsed(spent, |q|, 1) == spent(|q| - 1) + Elapsed(spent, |q| - 1, 0);
  }

  /** One more frame without end marker in front. */
  lemma OneMoreBack(q: seq<nat>, data: seq<seq<byte>>, timeout: nat, spent: nat -> nat,
                    r: Option<nat>, back: seq<nat>, rest: seq<nat>)
    requires q != [] && q[0] < |data| && NoEoi(data[q[0]]) && spent(|q| - 1) < timeout
    requires Outcome(q[1..], data, true, timeout - spent(|q| - 1), spent, r, back, rest)
    ensures Outcome(q, data, true, timeout, spent, r, [q[0]] + back, rest)
  {
    hide NoEoi;
    var all := [q[0]] + back;
    assert q == all + (if r.Some? then [r.value] else []) + rest;
    forall n | 1 <= n < |all| + (if r.Some? then 1 else 0)
      ensures Elapsed(spent, |q|, n) < timeout
    {
      assert Elapsed(spent, |q|, n) == spent(|q| - 1) + Elapsed(spent, |q| - 1, n - 1);
      assert n > 1 ==> Elapsed(spent, |q[1..]|, n - 1) < timeout - spent(|q| - 1);
    }
    assert Elapsed(spent, |q|, |all|) == spent(|q| - 1) + Elapsed(spent, |q| - 1, |back|);
  }

  /** The frames and the queue as one consumer sees them; data[f] is the part
      of frame f below fb.len. */
  class CamObj {
    const jpegMode: bool
    const data: array<seq<byte>>
    const en: array<bool>
    var queue: seq<nat>
    /** The calls of cam_give so far. */
    ghost var given: seq<nat>

    ghost predicate Valid()
      reads this
    {
      && data.Length == en.Length
      && (forall i :: 0 <= i < |queue| ==> queue[i] < data.Length)
      && forall i, j :: 0 <= i < j < |queue| ==> queue[i] != queue[j]
    }

    constructor (jpegMode: bool, frameCnt: nat)
      ensures Valid() && this.jpegMode == jpegMode && data.Length == frameCnt && queue == [] && given == []
      ensures fresh(data) && fresh(en) && forall f :: 0 <= f < frameCnt ==> en[f]
    {
      this.jpegMode := jpegMode;
      data := new seq<byte>[frameCnt](_ => []);
      en := new bool[frameCnt](_ => true);
      queue := [];
      given := [];
    }

    /** cam_give; the frame is found by its address. */
    method CamGive(f: nat)
      requires Valid() && f < en.Length
      modifies en, this`given
      ensures en[..] == old(en[..])[f := true] && given == old(given) + [f]
    {
      for x := 0 to en.Length
        invariant x <= f && en[..] == old(en[..])
      {
        if x == f {
          en[x] := true;
          break;
        }
      }
      given := given + [f];
    }

    /** cam_take on the frames that arrive in time. spent(i) is the time that
        the attempt with i frames left takes; back lists what was given back. */
    method Take(timeout: nat, spent: nat -> nat) returns (r: Option<nat>, ghost back: seq<nat>)
      requires Valid()
      modifies this`queue, this`given, data, en
      ensures Valid() && Outcome(old(queue), old(data[..]), jpegMode, timeout, spent, r, back, queue)
      // every frame given back was given back exactly once, and no other
      ensures given == old(given) + back
      ensures forall f :: 0 <= f < en.Length ==> en[f] == (old(en[f]) || f in back)
      // what is returned, and what stays as it was
      ensures r.Some? ==> r.value < data.Length
      ensures r.Some? && jpegMode ==> CutAfterEoi(old(data[r.value]), data[r.value])
      ensures r.Some? && !jpegMode ==> data[r.value] == old(data[r.value])
      ensures forall f :: 0 <= f < data.Length && r != Some(f) ==> data[f] == old(data[f])
      decreases |queue|
    {
      hide LastEoi, NoEoi, Outcome, Elapsed;
      if queue == [] {
        NothingQueued(data[..], jpegMode, timeout, spent);
        return None, [];
      }
      ghost var q := queue;
      var f := queue[0];
      queue := queue[1..];
      if !jpegMode {
        FirstReturned(q, data[..], false, timeout, spent);
        return Some(f), [];
      }
      var offset := VerifyJpegEoi(data[f]);
      if offset >= 0 {
        MarkedHasEoi(data[f], offset);
        FirstReturned(q, data[..], true, timeout, spent);
        data[f] := data[f][..offset + 2];
        return Some(f), [];
      }
      var left := |queue|;
      CamGive(f);
      if spent(left) >= timeout {
        OutOfTime(q, data[..], timeout, spent);
        return None, [f];
      }
      r, back := Take(timeout - spent(left), spent);
      OneMoreBack(q, old(data[..]), timeout, spent, r, back, queue);
      back := [f] + back;
    }
  }

  lemma MarkedHasEoi(buf: seq<byte>, offset: int)
    requires LastEoi(buf, offset)
    ensures !NoEoi(buf)
  {
  }
}
