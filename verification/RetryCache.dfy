/** The retry cache of failed uploads (cache.c) and the handler that fills and
    drains it (http_uploader_service.c). */
module RetryCache {
  import opened Words

  /** cache_entry_t: a buffer of fixed size, of which len bytes count. */
  datatype Entry = Entry(data: seq<byte>, len: nat)

  lemma NextOnRing(x: nat, n: nat)
    requires x < n
    ensures (x + 1) % n == if x + 1 == n then 0 else x + 1
  {
    if x + 1 == n {
      DivModUnique(x + 1, n, 1, 0);
    } else {
      DivModUnique(x + 1, n, 0, x + 1);
    }
  }

  /** The next slot of a ring. */
  function Next(x: nat, n: nat): (r: nat)
    requires x < n
    ensures r == if x + 1 == n then 0 else x + 1
  {
    NextOnRing(x, n);
    (x + 1) % n
  }

  /** memcpy to the front of a buffer. */
  function CopyIn(data: seq<byte>, src: seq<byte>): (r: seq<byte>)
    requires |src| <= |data|
    ensures |r| == |data| && r[..|src|] == src && r[|src|..] == data[|src|..]
  {
    src + data[|src|..]
  }

  /** What is kept of a string: cut below the item size, then terminated. */
  function Stored(json: seq<byte>, itemSize: nat): seq<byte>
    requires itemSize > 0
  {
    json[..Min(|json|, itemSize - 1)] + [0]
  }

  /** The C string at the front of a buffer. */
  function CString(data: seq<byte>): seq<byte> {
    if data == [] || data[0] == 0 then [] else [data[0]] + CString(data[1..])
  }

  lemma {:induction false} CStringEnds(s: seq<byte>, t: seq<byte>)
    requires 0 !in s
    ensures CString(s + [0] + t) == s
  {
    if s != [] {
      CStringEnds(s[1..], t);
      assert (s + [0] + t)[1..] == s[1..] + [0] + t;
    }
  }

  /** The sender reads the string back unchanged if and only if it is shorter
      than an item; a longer one has lost its end. */
  lemma StringSurvives(json: seq<byte>, itemSize: nat, stale: seq<byte>)
    requires 0 !in json && itemSize > 0
    ensures CString(Stored(json, itemSize) + stale) == json[..Min(|json|, itemSize - 1)]
    ensures CString(Stored(json, itemSize) + stale) == json <==> |json| < itemSize
  {
    CStringEnds(json[..Min(|json|, itemSize - 1)], stale);
  }

  /** The stored form of a C string: a zero at its end and nowhere before. */
  predicate IsCString(entry: seq<byte>) {
    entry != [] && entry[|entry| - 1] == 0 && 0 !in entry[..|entry| - 1]
  }

  lemma StoredIsCString(json: seq<byte>, itemSize: nat)
    requires 0 !in json && itemSize > 0
    ensures IsCString(Stored(json, itemSize))
  {
    Terminated(json[..Min(|json|, itemSize - 1)]);
  }

  /** What a sender is handed for an entry: the sender of strings reads up to
      the first zero, rest being what memory holds behind the entry; the sender
      of pictures is told the length. */
  function Handed(entry: seq<byte>, rest: seq<byte>, asString: bool): seq<byte> {
    if asString then CString(entry + rest) else entry
  }

  /** The sender of strings is handed the whole entry, up to the zero at its end,
      if and only if the entry is a C string. */
  lemma HandedWholeIff(entry: seq<byte>, rest: seq<byte>)
    ensures Handed(entry, rest, true) + [0] == entry <==> IsCString(entry)
  {
    CStringIs(entry + rest);
    Terminated(CString(entry + rest));
    if IsCString(entry) {
      var front := entry[..|entry| - 1];
      assert entry + rest == front + [0] + rest;
      CStringEnds(front, rest);
    }
  }

  lemma Terminated(s: seq<byte>)
    requires 0 !in s
    ensures IsCString(s + [0])
  {
    assert (s + [0])[..|s|] == s;
  }

  lemma {:induction false} CStringIs(data: seq<byte>)
    ensures 0 !in CString(data)
  {
    if data != [] && data[0] != 0 {
      CStringIs(data[1..]);
    }
  }

  /** A picture at the front of the cache reaches the sender of strings as its
      first four bytes. */
  lemma PictureHandedAsString(rest: seq<byte>)
    ensures Handed([0xFF, 0xD8, 0xFF, 0xE0, 0x00, 0x10, 0x4A, 0x46], rest, true) == [0xFF, 0xD8, 0xFF, 0xE0]
  {
    var tail := [0x10, 0x4A, 0x46] + rest;
    assert [0xFF, 0xD8, 0xFF, 0xE0, 0x00, 0x10, 0x4A, 0x46] + rest == [0xFF, 0xD8, 0xFF, 0xE0] + [0] + tail;
    CStringEnds([0xFF, 0xD8, 0xFF, 0xE0], tail);
  }

  /** The static variables of cache.c. */
  class Cache {
    const maxItems: nat
    const itemSize: nat
    const cacheBuf: array<Entry>
    var head: nat
    var tail: nat
    var count: nat
    /** Every entry accepted, and every entry dropped after a successful send. */
    ghost var pushed: seq<seq<byte>>
    ghost var popped: seq<seq<byte>>

    /** The slot of the i-th oldest entry. */
    ghost function Slot(i: nat): nat
      reads this
    {
      if head + i < maxItems then head + i else head + i - maxItems
    }

    ghost predicate Shape()
      reads this, cacheBuf
    {
      && 1 <= maxItems && 1 <= itemSize && cacheBuf.Length == maxItems
      && head < maxItems && tail < maxItems && count <= maxItems
      && tail == Slot(count)
      && forall i :: 0 <= i < maxItems ==> |cacheBuf[i].data| == itemSize && cacheBuf[i].len <= itemSize
    }

    /** The bounded queue that the ring stands for. */
    ghost function Contents(): (c: seq<seq<byte>>)
      requires Shape()
      reads this, cacheBuf
      ensures |c| == count
    {
      seq(count, i requires 0 <= i < count && Shape() reads this, cacheBuf =>
        cacheBuf[Slot(i)].data[..cacheBuf[Slot(i)].len])
    }

    /** First in, first out: what was accepted is what was dropped, then the
        contents, byte for byte. */
    ghost predicate Valid()
      reads this, cacheBuf
    {
      Shape() && pushed == popped + Contents()
    }

    constructor (maxItems: nat, itemSize: nat)
      requires 1 <= maxItems && 1 <= itemSize
      ensures Valid() && this.maxItems == maxItems && this.itemSize == itemSize
      ensures Contents() == [] && pushed == [] && popped == [] && fresh(cacheBuf)
    {
      this.maxItems := maxItems;
      this.itemSize := itemSize;
      head, tail, count := 0, 0, 0;
      pushed, popped := [], [];
      cacheBuf := new Entry[maxItems](_ => Entry(seq(itemSize, _ => 0), 0));
    }

    lemma TailOnRing()
      requires Shape()
      ensures tail == (head + count) % maxItems
    {
      if head + count < maxItems {
        DivModUnique(head + count, maxItems, 0, head + count);
      } else {
        DivModUnique(head + count, maxItems, 1, head + count - maxItems);
      }
    }

    /** The entry is in place at the tail: count it. */
    method Advance(ghost entry: seq<byte>)
      requires Shape() && count < maxItems && cacheBuf[tail].data[..cacheBuf[tail].len] == entry
      requires pushed == popped + Contents()
      modifies this`tail, this`count, this`pushed
      ensures Valid() && Contents() == old(Contents()) + [entry] && pushed == old(pushed) + [entry]
    {
      hide Next;
      tail := Next(tail, maxItems);
      count := count + 1;
      pushed := pushed + [entry];
      assert Contents() == old(Contents()) + [entry];
      assert popped + (old(Contents()) + [entry]) == (popped + old(Contents())) + [entry];
    }

    /** Writing the slot at the tail of a ring that is not full. */
    method Put(src: seq<byte>)
      requires Shape() && count < maxItems && |src| <= itemSize
      modifies cacheBuf
      ensures Shape() && Contents() == old(Contents())
      ensures cacheBuf[tail].data[..cacheBuf[tail].len] == src
    {
      var e := cacheBuf[tail];
      cacheBuf[tail] := Entry(CopyIn(e.data, src), |src|);
      forall i | 0 <= i < count
        ensures Slot(i) != tail
      {
      }
      assert Contents() == old(Contents());
    }

    /** cache_push of a C string. */
    method Push(json: seq<byte>) returns (ok: bool)
      requires Valid() && 0 !in json
      modifies this, cacheBuf
      ensures Valid() && popped == old(popped) && ok == (old(count) < maxItems)
      ensures Contents() == old(Contents()) + if ok then [Stored(json, itemSize)] else []
    {
      if count == maxItems {
        return false;
      }
      var len := Min(|json|, itemSize - 1);
      Put(json[..len] + [0]);
      Advance(Stored(json, itemSize));
      ok := true;
    }

    /** cache_push_blob. */
    method PushBlob(buf: seq<byte>) returns (ok: bool)
      requires Valid()
      modifies this, cacheBuf
      ensures Valid() && popped == old(popped) && ok == (old(count) < maxItems && |buf| <= itemSize)
      ensures Contents() == old(Contents()) + if ok then [buf] else []
    {
      if count == maxItems {
        return false;
      }
      if |buf| > itemSize {
        return false;
      }
      Put(buf);
      Advance(buf);
      ok := true;
    }

    /** What follows the oldest entry in its slot. */
    ghost function Behind(): seq<byte>
      requires Shape()
      reads this, cacheBuf
    {
      cacheBuf[head].data[cacheBuf[head].len..]
    }

    /** cache_flush_once_with_sender, or its variant for binary data: sent is what
        the sender returns, and handed what it is handed. beyond stands for what
        memory holds behind the slot, where a string may run on. */
    method FlushOnce(asString: bool, hasSender: bool, sent: bool, beyond: seq<byte>)
      returns (ok: bool, handed: Option<seq<byte>>)
      requires Valid()
      modifies this`head, this`count, this`popped
      ensures Valid() && pushed == old(pushed)
      ensures handed == if old(count) > 0 && hasSender
                        then Some(Handed(old(Contents())[0], old(Behind()) + beyond, asString)) else None
      ensures ok == (old(count) > 0 && hasSender && sent)
      ensures Contents() == if ok then old(Contents())[1..] else old(Contents())
      ensures !ok ==> head == old(head) && count == old(count)
    {
      handed := None;
      if count == 0 || !hasSender {
        return false, None;
      }
      var e := cacheBuf[head];
      assert e.data + beyond == Contents()[0] + (Behind() + beyond);
      handed := Some(if asString then CString(e.data + beyond) else e.data[..e.len]);
      ok := sent;
      if ok {
        DropOldest();
      }
    }

    method DropOldest()
      requires Valid() && count > 0
      modifies this`head, this`count, this`popped
      ensures Valid() && Contents() == old(Contents())[1..]
    {
      ghost var before := Contents();
      OldestFirst(pushed, popped, before);
      StepHead();
      popped := popped + [before[0]];
    }

    /** The head moves to the next slot. */
    method StepHead()
      requires Shape() && count > 0
      modifies this`head, this`count
      ensures Shape() && Contents() == old(Contents())[1..]
    {
      hide Next;
      head := Next(head, maxItems);
      count := count - 1;
      forall i | 0 <= i < count
        ensures Slot(i) == old(Slot(i + 1))
      {
      }
      assert Contents() == old(Contents())[1..];
    }
  }

  lemma OldestFirst(pushed: seq<seq<byte>>, popped: seq<seq<byte>>, contents: seq<seq<byte>>)
    requires pushed == popped + contents && contents != []
    ensures pushed == (popped + [contents[0]]) + contents[1..]
  {
  }

  // ------------------------------------------------------------ the handler

  /** What reaches the HTTP sink: a picture, or no usable one, or a C string. */
  datatype Message = Jpeg(frame: Option<seq<byte>>) | Json(text: seq<byte>)

  predicate Empty(m: Message) {
    match m
    case Jpeg(f) => f.None? || f.value == []
    case Json(text) => text == []
  }

  /** The bytes that a message carries. */
  function Payload(m: Message): seq<byte> {
    match m
    case Jpeg(f) => if f.Some? then f.value else []
    case Json(text) => text
  }

  lemma EmptyIff(m: Message)
    ensures Empty(m) <==> |Payload(m)| == 0
  {
  }

  /** What the cache keeps of a message, if it has room. */
  function Entries(m: Message, itemSize: nat, room: bool): seq<seq<byte>>
    requires itemSize > 0
  {
    if Empty(m) || !room then []
    else
      match m
      case Jpeg(f) => if |f.value| <= itemSize then [f.value] else []
      case Json(text) => [Stored(text, itemSize)]
  }

  /** One flush of a queue. */
  function Flushed(c: seq<seq<byte>>, sent: bool): seq<seq<byte>> {
    if c != [] && sent then c[1..] else c
  }

  /** http_uploader_service.c; the counters say what became of the messages. */
  class Uploader {
    const cache: Cache
    ghost var nonEmpty: nat
    ghost var direct: nat
    ghost var rejected: nat

    /** Every non-empty message was sent at once, was cached or was rejected. */
    ghost predicate Valid()
      reads this, cache, cache.cacheBuf
    {
      cache.Valid() && nonEmpty == direct + |cache.pushed| + rejected
    }

    /** So each of them was sent directly, or was cached and dropped after a send
        that reported success, or is still cached, or was rejected by a push. */
    lemma Conservation()
      requires Valid()
      ensures nonEmpty == direct + |cache.popped| + cache.count + rejected
    {
      assert |cache.pushed| == |cache.popped| + |cache.Contents()|;
    }

    constructor (cache: Cache)
      requires cache.Valid() && cache.pushed == []
      ensures Valid() && this.cache == cache && nonEmpty == 0
    {
      this.cache := cache;
      nonEmpty, direct, rejected := 0, 0, 0;
    }

    /** The switch of http_sink_handler; posted is what the post returns. */
    method Upload(m: Message, wifiOk: bool, posted: bool) returns (ok: bool)
      requires Valid() && (m.Json? ==> 0 !in m.text)
      modifies this, cache, cache.cacheBuf
      ensures Valid() && ok == (!Empty(m) && wifiOk && posted)
      ensures nonEmpty == old(nonEmpty) + (if Empty(m) then 0 else 1) && direct == old(direct) + (if ok then 1 else 0)
      ensures cache.Contents() == old(cache.Contents())
        + if ok then [] else Entries(m, cache.itemSize, old(cache.count) < cache.maxItems)
      ensures cache.popped == old(cache.popped)
    {
      hide Cache.Contents, Cache.Slot, Stored;
      ok := false;
      assert cache.Contents() + [] == cache.Contents();
      if Empty(m) {
        return;
      }
      if wifiOk {
        ok := posted;
      }
      var stored := false;
      if !ok {
        match m {
          case Jpeg(f) => stored := cache.PushBlob(f.value);
          case Json(text) => stored := cache.Push(text);
        }
      }
      nonEmpty := nonEmpty + 1;
      direct := direct + if ok then 1 else 0;
      rejected := rejected + if ok || stored then 0 else 1;
    }

    /** http_sink_handler; sent1 and sent2 are what the two flushes report, first
        that of strings, then that of pictures. What they are handed is returned. */
    method Handle(m: Message, wifiOk: bool, posted: bool, sent1: bool, sent2: bool, beyond: seq<byte>)
      returns (ok: bool, string1: Option<seq<byte>>, picture2: Option<seq<byte>>, ghost behind: seq<byte>)
      requires Valid() && (m.Json? ==> 0 !in m.text)
      modifies this, cache, cache.cacheBuf
      ensures Valid() && ok == (!Empty(m) && wifiOk && posted)
      ensures nonEmpty == old(nonEmpty) + (if Empty(m) then 0 else 1) && direct == old(direct) + (if ok then 1 else 0)
      ensures
        var c := old(cache.Contents()) + if ok then [] else Entries(m, cache.itemSize, old(cache.count) < cache.maxItems);
        && cache.Contents() == (if wifiOk then Flushed(Flushed(c, sent1), sent2) else c)
        && string1 == (if wifiOk && c != [] then Some(Handed(c[0], behind + beyond, true)) else None)
        && picture2 == (if wifiOk && Flushed(c, sent1) != [] then Some(Flushed(c, sent1)[0]) else None)
    {
      hide Cache.Contents, Cache.Slot, Cache.Behind, Stored, CString;
      ok := Upload(m, wifiOk, posted);
      string1, picture2, behind := None, None, cache.Behind();
      if wifiOk {
        var _, s := cache.FlushOnce(true, true, sent1, beyond);
        var _, p := cache.FlushOnce(false, true, sent2, beyond);
        string1, picture2 := s, p;
      }
    }
  }
}
