/** The rolling-quota store of uploaded pictures (file_store.c): the running
    total, the purge of the oldest files, and saving a file. */
module FileStore {
  import opened Words

  const MAX_BYTES := 200 * 1024 * 1024

  /** A regular file of the store directory. */
  datatype File = File(name: string, mtime: int, size: nat)

  function Sum(fs: seq<File>): nat {
    if fs == [] then 0 else fs[0].size + Sum(fs[1..])
  }

  predicate Distinct(fs: seq<File>) {
    forall i, j :: 0 <= i < j < |fs| ==> fs[i].name != fs[j].name
  }

  predicate Named(fs: seq<File>, name: string) {
    exists i :: 0 <= i < |fs| && fs[i].name == name
  }

  /** The size of the file of that name, zero if there is none. */
  function SizeOf(fs: seq<File>, name: string): nat {
    if fs == [] then 0 else if fs[0].name == name then fs[0].size else SizeOf(fs[1..], name)
  }

  /** unlink. */
  function Remove(fs: seq<File>, name: string): seq<File> {
    if fs == [] then [] else if fs[0].name == name then fs[1..] else [fs[0]] + Remove(fs[1..], name)
  }

  lemma {:induction false} RemoveSum(fs: seq<File>, name: string)
    ensures Sum(Remove(fs, name)) + SizeOf(fs, name) == Sum(fs)
  {
    if fs != [] {
      RemoveSum(fs[1..], name);
    }
  }

  lemma {:induction false} RemoveMembers(fs: seq<File>, name: string)
    requires Distinct(fs)
    ensures Distinct(Remove(fs, name))
    ensures forall f :: f in Remove(fs, name) <==> f in fs && f.name != name
  {
    if fs != [] {
      RemoveMembers(fs[1..], name);
      assert fs == [fs[0]] + fs[1..];
      if fs[0].name != name {
        DistinctFront(fs[0], Remove(fs[1..], name));
      } else {
        assert forall f :: f in fs[1..] ==> f.name != name;
      }
    }
  }

  lemma DistinctFront(f: File, fs: seq<File>)
    requires Distinct(fs) && forall g :: g in fs ==> g.name != f.name
    ensures Distinct([f] + fs)
  {
  }

  /** Several calls of unlink. */
  function RemoveAll(fs: seq<File>, gone: seq<File>): seq<File>
    decreases gone
  {
    if gone == [] then fs else RemoveAll(Remove(fs, gone[0].name), gone[1..])
  }

  lemma {:induction false} RemoveOneMore(fs: seq<File>, gone: seq<File>, f: File)
    ensures RemoveAll(fs, gone + [f]) == Remove(RemoveAll(fs, gone), f.name)
    decreases gone
  {
    if gone == [] {
      assert [f][1..] == [];
    } else {
      RemoveOneMore(Remove(fs, gone[0].name), gone[1..], f);
      assert (gone + [f])[1..] == gone[1..] + [f];
    }
  }

  /** What is left are the files of other names. */
  lemma {:induction false} RemoveAllMembers(fs: seq<File>, gone: seq<File>)
    requires Distinct(fs)
    ensures Distinct(RemoveAll(fs, gone))
    ensures forall f :: f in RemoveAll(fs, gone) <==> f in fs && !Named(gone, f.name)
    decreases gone
  {
    if gone != [] {
      RemoveMembers(fs, gone[0].name);
      RemoveAllMembers(Remove(fs, gone[0].name), gone[1..]);
      forall name: string
        ensures Named(gone, name) <==> gone[0].name == name || Named(gone[1..], name)
      {
        NamedSplit(gone, name);
      }
    }
  }

  lemma NamedSplit(fs: seq<File>, name: string)
    requires fs != []
    ensures Named(fs, name) <==> fs[0].name == name || Named(fs[1..], name)
  {
    if i :| 0 <= i < |fs| && fs[i].name == name {
      if i > 0 {
        assert fs[1..][i - 1].name == name;
      }
    }
  }

  /** A name that no file has. */
  lemma {:induction false} FreshSize(fs: seq<File>, name: string)
    requires !Named(fs, name)
    ensures SizeOf(fs, name) == 0
  {
    if fs != [] {
      NamedSplit(fs, name);
      FreshSize(fs[1..], name);
    }
  }

  lemma {:induction false} SizeOfMember(fs: seq<File>, f: File)
    requires Distinct(fs) && f in fs
    ensures SizeOf(fs, f.name) == f.size
  {
    if fs[0] != f {
      SizeOfMember(fs[1..], f);
    }
  }

  lemma {:induction false} SumAppend(a: seq<File>, b: seq<File>)
    ensures Sum(a + b) == Sum(a) + Sum(b)
  {
    if a == [] {
      assert a + b == b;
    } else {
      SumAppend(a[1..], b);
      assert (a + b)[1..] == a[1..] + b;
    }
  }

  // ------------------------------------------------------------------ order

  /** The difference of two times, returned as an int. */
  function Compare(a: File, b: File): int {
    (a.mtime - b.mtime + 0x8000_0000) % 0x1_0000_0000 - 0x8000_0000
  }

  /** The files of the directory, each once, in any order. */
  ghost predicate Listing(fs: seq<File>, order: seq<File>) {
    Distinct(order) && forall f :: f in order <==> f in fs
  }

  /** A listing whose every pair is in the order of the comparison. */
  ghost predicate SortedListing(fs: seq<File>, order: seq<File>) {
    Listing(fs, order) && forall i, j :: 0 <= i < j < |order| ==> Compare(order[i], order[j]) <= 0
  }

  function Distance(a: File, b: File): (d: nat)
    ensures d == a.mtime - b.mtime || d == b.mtime - a.mtime
  {
    if a.mtime < b.mtime then b.mtime - a.mtime else a.mtime - b.mtime
  }

  /** The two times are equal, or their distance modulo 2^32 is below 2^31. */
  predicate Comparable(a: File, b: File) {
    a.mtime == b.mtime || 1 <= Distance(a, b) % 0x1_0000_0000 < 0x8000_0000
  }

  lemma CompareAtDistance(a: File, b: File)
    requires a.mtime >= b.mtime
    ensures
      var r := (a.mtime - b.mtime) % 0x1_0000_0000;
      && Compare(a, b) == (if r < 0x8000_0000 then r else r - 0x1_0000_0000)
      && Compare(b, a) == (if r <= 0x8000_0000 then -r else 0x1_0000_0000 - r)
  {
  }

  /** The comparison is that of the times, both ways round, if and only if the
      files are comparable. */
  lemma CompareIsAge(a: File, b: File)
    ensures (Compare(a, b) < 0 <==> a.mtime < b.mtime) && (Compare(b, a) < 0 <==> b.mtime < a.mtime)
       <==> Comparable(a, b)
  {
    hide Compare;
    if a.mtime >= b.mtime {
      CompareAtDistance(a, b);
    } else {
      CompareAtDistance(b, a);
    }
  }

  ghost predicate AllComparable(fs: seq<File>) {
    forall f, g :: f in fs && g in fs ==> Comparable(f, g)
  }

  lemma SortedIsOldestFirst(fs: seq<File>, order: seq<File>, i: nat, j: nat)
    requires SortedListing(fs, order) && AllComparable(fs) && i <= j < |order|
    ensures order[i].mtime <= order[j].mtime
  {
    hide Compare;
    var a, b := order[i], order[j];
    assert a in order && b in order && Comparable(a, b);
    if a.mtime > b.mtime {
      assert Compare(a, b) <= 0;
      CompareAtDistance(a, b);
    }
  }

  // ------------------------------------------------------------------ purge

  predicate Fits(total: nat, need: nat) {
    total + need <= MAX_BYTES
  }

  /** The files that the purge deletes; those in locked cannot be deleted. */
  function Victims(order: seq<File>, total: int, need: nat, locked: set<string>): seq<File> {
    if order == [] || total + need <= MAX_BYTES then []
    else if order[0].name in locked then Victims(order[1..], total, need, locked)
    else [order[0]] + Victims(order[1..], total - order[0].size, need, locked)
  }

  function Purged(opens: bool, order: seq<File>, total: int, need: nat, locked: set<string>): seq<File> {
    if opens then Victims(order, total, need, locked) else []
  }

  lemma PurgedIs(order: seq<File>, total: int, need: nat)
    ensures Purged(true, order, total, need, {}) == Victims(order, total, need, {})
  {
  }

  /** The shortest prefix of the listing that makes room, all of it if none does. */
  predicate ShortestPrefix(order: seq<File>, total: int, need: nat, k: nat) {
    && k <= |order|
    && (k == |order| || total - Sum(order[..k]) + need <= MAX_BYTES)
    && forall j :: 0 <= j < k ==> total - Sum(order[..j]) + need > MAX_BYTES
  }

  lemma {:induction false} VictimsArePrefix(order: seq<File>, total: int, need: nat)
    ensures
      var v := Victims(order, total, need, {});
      |v| <= |order| && v == order[..|v|] && ShortestPrefix(order, total, need, |v|)
  {
    if order != [] && total + need > MAX_BYTES {
      VictimsArePrefix(order[1..], total - order[0].size, need);
      var v := Victims(order[1..], total - order[0].size, need, {});
      assert order[..|v| + 1] == [order[0]] + order[1..][..|v|];
      forall j | 0 <= j <= |v| + 1 && j <= |order|
        ensures Sum(order[..j]) == if j == 0 then 0 else order[0].size + Sum(order[1..][..j - 1])
      {
        if j > 0 {
          assert order[..j] == [order[0]] + order[1..][..j - 1];
        }
      }
      forall j | 0 <= j < |v| + 1
        ensures total - Sum(order[..j]) + need > MAX_BYTES
      {
        if j > 0 {
          assert total - order[0].size - Sum(order[1..][..j - 1]) + need > MAX_BYTES;
        }
      }
    } else {
      assert order[..0] == [];
    }
  }

  /** The files that can be deleted. */
  function Unlocked(fs: seq<File>, locked: set<string>): seq<File> {
    if fs == [] then []
    else if fs[0].name in locked then Unlocked(fs[1..], locked)
    else [fs[0]] + Unlocked(fs[1..], locked)
  }

  /** The shortest prefix of the listing whose deletable files make room. */
  predicate ShortestSweep(order: seq<File>, total: int, need: nat, locked: set<string>, k: nat) {
    && k <= |order|
    && (k == |order| || total - Sum(Unlocked(order[..k], locked)) + need <= MAX_BYTES)
    && forall j :: 0 <= j < k ==> total - Sum(Unlocked(order[..j], locked)) + need > MAX_BYTES
  }

  /** Whatever cannot be deleted is stepped over. */
  lemma {:induction false} VictimsAreSwept(order: seq<File>, total: int, need: nat, locked: set<string>) returns (k: nat)
    ensures k <= |order| && Victims(order, total, need, locked) == Unlocked(order[..k], locked)
    ensures ShortestSweep(order, total, need, locked, k)
  {
    if order == [] || total + need <= MAX_BYTES {
      k := 0;
      assert order[..0] == [];
    } else {
      var gone := if order[0].name in locked then 0 else order[0].size;
      var k' := VictimsAreSwept(order[1..], total - gone, need, locked);
      k := k' + 1;
      forall j | 0 <= j <= k
        ensures Unlocked(order[..j], locked)
             == if j == 0 || order[0].name in locked then Unlocked(if j == 0 then [] else order[1..][..j - 1], locked)
                else [order[0]] + Unlocked(order[1..][..j - 1], locked)
      {
        SweepFront(order, locked, j);
      }
      forall j | 0 <= j < k
        ensures total - Sum(Unlocked(order[..j], locked)) + need > MAX_BYTES
      {
        if j > 0 {
          assert total - gone - Sum(Unlocked(order[1..][..j - 1], locked)) + need > MAX_BYTES;
        }
      }
    }
  }

  lemma SweepFront(order: seq<File>, locked: set<string>, j: nat)
    requires order != [] && j <= |order|
    ensures Unlocked(order[..j], locked)
         == if j == 0 || order[0].name in locked then Unlocked(if j == 0 then [] else order[1..][..j - 1], locked)
            else [order[0]] + Unlocked(order[1..][..j - 1], locked)
  {
    if j == 0 {
      assert order[..0] == [];
    } else {
      assert order[..j] == [order[0]] + order[1..][..j - 1];
    }
  }

  /** No file that stays is older than one that goes, when all are comparable. */
  lemma PurgesOldest(fs: seq<File>, order: seq<File>, total: int, need: nat, gone: File, kept: File)
    requires SortedListing(fs, order) && AllComparable(fs)
    requires gone in Victims(order, total, need, {}) && kept in fs && kept !in Victims(order, total, need, {})
    ensures gone.mtime <= kept.mtime
  {
    VictimsArePrefix(order, total, need);
    var v := Victims(order, total, need, {});
    assert kept in order;
    var i :| 0 <= i < |v| && v[i] == gone;
    var j :| 0 <= j < |order| && order[j] == kept;
    assert v[i] == order[i];
    assert forall k :: 0 <= k < |v| ==> order[k] == v[k] && v[k] in v;
    assert j >= |v|;
    SortedIsOldestFirst(fs, order, i, j);
  }

  lemma FirstVictim(order: seq<File>, total: int, need: nat)
    requires order != [] && total + need > MAX_BYTES
    ensures Victims(order, total, need, {}) != [] && Victims(order, total, need, {})[0] == order[0]
  {
  }

  lemma TwoOfThree(order: seq<File>, a: File, b: File)
    requires |order| >= 3 && forall k :: 0 <= k < |order| ==> order[k] == a || order[k] == b
    ensures !Distinct(order)
  {
    assert order[0] == order[1] || order[0] == order[2] || order[1] == order[2];
  }

  lemma ListingsOfTwo(a: File, b: File, order: seq<File>)
    requires a.name != b.name
    ensures Listing([a, b], order) <==> order == [a, b] || order == [b, a]
  {
    var fs := [a, b];
    assert fs[0] in fs && fs[1] in fs;
    if Listing(fs, order) {
      assert a in order && b in order;
      assert forall k :: 0 <= k < |order| ==> order[k] in order && order[k] in fs;
      if |order| >= 3 {
        TwoOfThree(order, a, b);
      }
    }
    assert [b, a][0] in [b, a] && [b, a][1] in [b, a];
  }

  lemma SortedOfTwo(a: File, b: File)
    requires a.name != b.name
    ensures SortedListing([a, b], [b, a]) <==> Compare(b, a) <= 0
    ensures SortedListing([a, b], [a, b]) <==> Compare(a, b) <= 0
  {
    hide Compare;
    ListingsOfTwo(a, b, [a, b]);
    ListingsOfTwo(a, b, [b, a]);
    var ab, ba := [a, b], [b, a];
    assert ab[0] == a && ab[1] == b && ba[0] == b && ba[1] == a;
  }

  /** A purge of two files deletes the older one first, however the listing was
      sorted, if and only if the two are comparable. */
  lemma OlderGoesFirstIff(older: File, newer: File, total: int, need: nat)
    requires older.name != newer.name && older.mtime < newer.mtime && total + need > MAX_BYTES
    ensures
      (forall order :: SortedListing([older, newer], order) ==>
        Victims(order, total, need, {}) != [] && Victims(order, total, need, {})[0] == older)
      <==> Comparable(older, newer)
  {
    hide Compare, Victims;
    CompareAtDistance(newer, older);
    var good, bad := [older, newer], [newer, older];
    SortedOfTwo(older, newer);
    FirstVictim(bad, total, need);
    forall order | SortedListing([older, newer], order)
      ensures order == good || order == bad
      ensures Victims(order, total, need, {}) != [] && Victims(order, total, need, {})[0] == order[0]
    {
      ListingsOfTwo(older, newer, order);
      FirstVictim(order, total, need);
    }
  }

  /** Two uploads more than 68 years apart by their times: the newer is deleted. */
  lemma NewerIsPurged()
    ensures
      var older, newer := File("a", 0, 1000), File("b", 0x8000_0001, 1000);
      forall order :: SortedListing([older, newer], order) ==> Victims(order, 2000, MAX_BYTES - 1000, {}) == [newer]
  {
    var older, newer := File("a", 0, 1000), File("b", 0x8000_0001, 1000);
    forall order | SortedListing([older, newer], order)
      ensures Victims(order, 2000, MAX_BYTES - 1000, {}) == [newer]
    {
      ListingsOfTwo(older, newer, order);
      SortedOfTwo(older, newer);
      assert order == [newer, older] && order[1..] == [older];
    }
  }

  lemma SomeMember(a: seq<File>, b: seq<File>)
    requires forall f :: f in a ==> f in b
    ensures a != [] ==> b != []
  {
    if a != [] {
      assert a[0] in a;
    }
  }

  /** A listing has the same sum as the directory. */
  lemma {:induction false} ListingSum(fs: seq<File>, order: seq<File>)
    requires Distinct(fs) && Listing(fs, order)
    ensures Sum(order) == Sum(fs)
    decreases order
  {
    SomeMember(fs, order);
    if order != [] {
      var e := order[0];
      assert e in order;
      RemoveMembers(fs, e.name);
      RemoveSum(fs, e.name);
      SizeOfMember(fs, e);
      var t := Remove(fs, e.name);
      forall f
        ensures f in order[1..] <==> f in t
      {
        assert f in order <==> f == e || f in order[1..];
        if f in order[1..] {
          var k :| 0 <= k < |order[1..]| && order[1..][k] == f;
          assert order[k + 1] == f;
        }
        if f in fs && f.name == e.name {
          SameName(fs, e, f);
        }
      }
      ListingSum(t, order[1..]);
    }
  }

  lemma SameName(fs: seq<File>, e: File, f: File)
    requires Distinct(fs) && e in fs && f in fs && e.name == f.name
    ensures e == f
  {
  }

  /** When every file can be deleted, there is room after the purge if and only
      if the need is within the quota, less what is counted for no file. */
  lemma PurgeMakesRoom(fs: seq<File>, order: seq<File>, total: int, drift: nat, need: nat)
    requires Distinct(fs) && Listing(fs, order) && total == Sum(fs) + drift
    ensures
      var v := Victims(order, total, need, {});
      && (total - Sum(v) + need <= MAX_BYTES <==> drift + need <= MAX_BYTES)
      && Sum(v) <= Sum(fs)
  {
    hide Sum, Distinct, Victims;
    var v := Victims(order, total, need, {});
    ListingSum(fs, order);
    VictimsArePrefix(order, total, need);
    hide Listing;
    assert order == order[..|v|] + order[|v|..];
    SumAppend(order[..|v|], order[|v|..]);
    if |v| == |order| {
      EmptySum(order[|v|..]);
    }
  }

  lemma EmptySum(fs: seq<File>)
    requires |fs| == 0
    ensures Sum(fs) == 0
  {
  }

  lemma WriteDistinct(fs: seq<File>, f: File)
    requires Distinct(fs)
    ensures Distinct(Remove(fs, f.name)) && Distinct(Remove(fs, f.name) + [f])
  {
    RemoveMembers(fs, f.name);
    var t := Remove(fs, f.name);
    assert forall i :: 0 <= i < |t| ==> t[i] in t;
  }

  /** A write keeps the files of other names, and adds the new one. */
  lemma AfterWriteHolds(fs: seq<File>, name: string, opening: bool, new_: seq<File>, f: File)
    requires Distinct(fs)
    ensures f in AfterWrite(fs, name, opening, new_)
       <==> (f in fs && (opening ==> f.name != name)) || (opening && f in new_)
  {
    RemoveMembers(fs, name);
  }

  /** The names of the directory decide what a write overwrites. */
  lemma {:induction false} OverwritesIff(fs: seq<File>, name: string)
    requires Distinct(fs)
    ensures SizeOf(fs, name) > 0 <==> exists f :: f in fs && f.name == name && f.size > 0
  {
    if fs != [] {
      OverwritesIff(fs[1..], name);
      assert fs == [fs[0]] + fs[1..];
      if fs[0].name == name {
        assert forall f :: f in fs[1..] ==> f.name != name;
        assert fs[0] in fs;
      } else if f :| f in fs && f.name == name && f.size > 0 {
        assert f in fs[1..];
      }
    }
  }

  /** Writing a file leaves the total right if and only if it was right, and no
      nonempty file of that name is overwritten. */
  lemma TotalStaysRightIff(kept: seq<File>, drift: nat, name: string, opening: bool, new_: seq<File>)
    requires Distinct(kept) && (!opening ==> new_ == [])
    ensures Sum(kept) + drift + Sum(new_) == Sum(AfterWrite(kept, name, opening, new_))
       <==> drift == 0 && (opening ==> !exists f :: f in kept && f.name == name && f.size > 0)
  {
    RemoveSum(kept, name);
    OverwritesIff(kept, name);
    SumAppend(Remove(kept, name), new_);
  }

  /** One file of 1000 bytes, and 500 bytes saved under the same name: the store
      holds 500 bytes and counts 1500. */
  lemma ReusedNameOvercounts()
    ensures
      var kept := RemoveAll([File("a", 0, 1000)], Purged(true, [File("a", 0, 1000)], 1000, 500, {}));
      var files := AfterWrite(kept, "a", true, [File("a", 9, 500)]);
      files == [File("a", 9, 500)] && Sum(files) == 500 && Sum(kept) + 500 == 1500
  {
    var f := File("a", 0, 1000);
    assert Victims([f], 1000, 500, {}) == [];
    assert RemoveAll([f], []) == [f];
    assert Remove([f], "a") == [] && [f][1..] == [];
    assert Sum([f]) == 1000 + Sum([f][1..]);
    assert [] + [File("a", 9, 500)] == [File("a", 9, 500)] && [File("a", 9, 500)][1..] == [];
  }

  /** A new name leaves the total right, whatever was purged before. */
  lemma FreshNameKeepsTotal(fs: seq<File>, gone: seq<File>, name: string)
    requires Distinct(fs) && !Named(fs, name)
    ensures SizeOf(RemoveAll(fs, gone), name) == 0
  {
    RemoveAllMembers(fs, gone);
    var t := RemoveAll(fs, gone);
    forall i | 0 <= i < |t|
      ensures t[i].name != name
    {
      assert t[i] in t && t[i] in fs;
    }
    FreshSize(t, name);
  }

  // ------------------------------------------------------------- the store

  /** s_total and the directory it counts. */
  class Store {
    var files: seq<File>
    var total: int
    /** Bytes that are still counted although their file was overwritten. */
    ghost var drift: nat

    ghost predicate Valid()
      reads this
    {
      Distinct(files) && total == Sum(files) + drift
    }

    constructor (files: seq<File>)
      requires Distinct(files)
      ensures this.files == files && total == 0
    {
      this.files := files;
      total := 0;
      drift := 0;
    }

    /** scan_total, of a directory that can be listed. */
    method ScanTotal()
      requires Distinct(files)
      modifies this`total, this`drift
      ensures Valid() && drift == 0
    {
      var sum := 0;
      for i := 0 to |files|
        invariant sum == Sum(files[..i])
      {
        sum := sum + files[i].size;
        SumAppend(files[..i], [files[i]]);
        assert files[..i + 1] == files[..i] + [files[i]];
      }
      assert files[..|files|] == files;
      total := sum;
      drift := 0;
    }

    /** purge_if_needed. opens says whether opendir succeeds, order is the
        listing as qsort leaves it, sorted or not. */
    method PurgeIfNeeded(need: nat, opens: bool, order: seq<File>, locked: set<string>)
      requires Valid() && Listing(files, order)
      modifies this`files, this`total
      ensures Valid()
      ensures files == RemoveAll(old(files), Purged(opens, order, old(total), need, locked))
      ensures total == old(total) - Sum(Purged(opens, order, old(total), need, locked))
    {
      hide Remove, RemoveAll, Sum, SizeOf, Victims, Listing, Distinct, StillThere;
      NothingRemoved(files);
      if total + need <= MAX_BYTES || !opens {
        if opens {
          VictimsEnd(order, total, need, locked, []);
        }
        return;
      }
      ListingFacts(files, order);
      ghost var done: seq<File> := [];
      var i := 0;
      VictimsStart(order, total, need, locked);
      while i < |order| && total + need > MAX_BYTES
        invariant i <= |order| && Distinct(files) && total == Sum(files) + drift == old(total) - Sum(done)
        invariant Victims(order, old(total), need, locked) == done + Victims(order[i..], total, need, locked)
        invariant files == RemoveAll(old(files), done)
        invariant StillThere(order, i, files)
      {
        VictimsStep(order, i, total, need, locked, done);
        NextThere(order, i, files);
        if order[i].name !in locked {
          Unlinked(old(files), files, done, order, i);
          files := Remove(files, order[i].name);
          total := total - order[i].size;
          done := done + [order[i]];
        }
        i := i + 1;
      }
      VictimsEnd(order[i..], total, need, locked, done);
    }

    /** The part of file_store_save after the purge. */
    method WriteFile(file: File, len: nat, canOpen: bool) returns (ok: bool)
      requires Valid()
      modifies this
      ensures Valid()
      ensures ok <==> canOpen && file.size == len
      ensures files == AfterWrite(old(files), file.name, canOpen, if ok then [file] else [])
      ensures total == old(total) + (if ok then len else 0)
      ensures drift == old(drift) + (if canOpen then SizeOf(old(files), file.name) else 0)
    {
      hide Remove, SizeOf, Distinct, Sum;
      if !canOpen {
        return false;
      }
      RemoveSum(files, file.name);
      WriteDistinct(files, file);
      drift := drift + SizeOf(files, file.name);
      files := Remove(files, file.name) + [file];
      if file.size != len {
        files := files[..|files| - 1];
        return false;
      }
      SumOneMore(files[..|files| - 1], file);
      total := total + file.size;
      ok := true;
    }

    /** file_store_save. name and mtime are those of the new file; canOpen and
        written are what fopen and fwrite report. A file of the same name is
        overwritten, and stays in the total. */
    method Save(buf: Option<seq<byte>>, opens: bool, order: seq<File>, locked: set<string>,
                name: string, mtime: int, canOpen: bool, written: nat)
      returns (ok: bool)
      requires Valid() && Listing(files, order)
      modifies this
      ensures Valid()
      ensures ok <==> Length(buf) > 0 && canOpen && written == Length(buf)
      ensures Length(buf) == 0 ==> files == old(files) && total == old(total) && drift == old(drift)
      ensures
        var kept := RemoveAll(old(files), Purged(opens, order, old(total), Length(buf), locked));
        Length(buf) > 0 ==>
          && files == AfterWrite(kept, name, canOpen, if ok then [File(name, mtime, written)] else [])
          && total == Sum(kept) + old(drift) + (if ok then written else 0)
          && drift == old(drift) + (if canOpen then SizeOf(kept, name) else 0)
          // the total is right again only if nothing nonempty was overwritten
          && (total == Sum(files) <==> old(drift) == 0 && (!canOpen || SizeOf(kept, name) == 0))
      ensures ok && opens && locked == {} ==> (total <= MAX_BYTES <==> old(drift) + Length(buf) <= MAX_BYTES)
    {
      if buf.None? || buf.value == [] {
        return false;
      }
      hide Remove, RemoveAll, SizeOf, Purged, Victims, Listing, Distinct, Sum, AfterWrite;
      if opens && locked == {} {
        PurgeMakesRoom(files, order, total, drift, Length(buf));
        PurgedIs(order, total, Length(buf));
      }
      PurgeIfNeeded(Length(buf), opens, order, locked);
      ok := WriteFile(File(name, mtime, written), Length(buf), canOpen);
    }
  }

  function Length(buf: Option<seq<byte>>): nat {
    if buf.Some? then |buf.value| else 0
  }

  /** fopen for writing removes what had the name; the new file comes last. */
  function AfterWrite(fs: seq<File>, name: string, opening: bool, new_: seq<File>): seq<File> {
    if opening then Remove(fs, name) + new_ else fs
  }

  /** The rest of the listing is in the directory. */
  predicate StillThere(order: seq<File>, i: nat, fs: seq<File>) {
    forall j :: i <= j < |order| ==> order[j] in fs
  }

  lemma NextThere(order: seq<File>, i: nat, fs: seq<File>)
    requires StillThere(order, i, fs)
    ensures StillThere(order, i + 1, fs)
  {
  }

  lemma VictimsStart(order: seq<File>, total: int, need: nat, locked: set<string>)
    ensures Victims(order, total, need, locked) == [] + Victims(order[0..], total, need, locked)
  {
    assert order[0..] == order;
  }

  lemma VictimsStep(order: seq<File>, i: nat, total: int, need: nat, locked: set<string>, done: seq<File>)
    requires i < |order| && total + need > MAX_BYTES
    ensures done + Victims(order[i..], total, need, locked)
         == if order[i].name in locked then done + Victims(order[i + 1..], total, need, locked)
            else (done + [order[i]]) + Victims(order[i + 1..], total - order[i].size, need, locked)
  {
    assert order[i..][1..] == order[i + 1..];
    var later := Victims(order[i + 1..], total - order[i].size, need, locked);
    assert done + ([order[i]] + later) == (done + [order[i]]) + later;
  }

  lemma VictimsEnd(order: seq<File>, total: int, need: nat, locked: set<string>, done: seq<File>)
    requires order == [] || total + need <= MAX_BYTES
    ensures done + Victims(order, total, need, locked) == done
    ensures Victims(order, total, need, locked) == []
  {
  }

  lemma ListingFacts(fs: seq<File>, order: seq<File>)
    requires Listing(fs, order)
    ensures Distinct(order) && StillThere(order, 0, fs)
  {
    assert forall j :: 0 <= j < |order| ==> order[j] in order;
  }

  lemma SumOneMore(fs: seq<File>, f: File)
    ensures Sum(fs + [f]) == Sum(fs) + f.size
  {
    SumAppend(fs, [f]);
  }

  lemma NothingRemoved(fs: seq<File>)
    ensures RemoveAll(fs, []) == fs && Sum([]) == 0
  {
  }

  /** One more file of the listing is unlinked. */
  lemma Unlinked(before: seq<File>, fs: seq<File>, done: seq<File>, order: seq<File>, i: nat)
    requires i < |order| && Distinct(order) && Distinct(fs) && fs == RemoveAll(before, done)
    requires StillThere(order, i, fs)
    ensures
      var t := Remove(fs, order[i].name);
      && Distinct(t) && t == RemoveAll(before, done + [order[i]])
      && Sum(t) == Sum(fs) - order[i].size && Sum(done + [order[i]]) == Sum(done) + order[i].size
      && StillThere(order, i + 1, t)
  {
    RemoveMembers(fs, order[i].name);
    RemoveOneMore(before, done, order[i]);
    RemoveSum(fs, order[i].name);
    SizeOfMember(fs, order[i]);
    SumAppend(done, [order[i]]);
  }
}
