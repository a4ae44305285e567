/** Point reads (DBImpl::Get in db/db_impl.cc, Version::Get in db/version_set.cc, MemTable::Get in db/memtable.cc). */
module ReadPath {
  import opened InternalKeys
  import opened Views
  import opened Lsm
  import opened Picking
  import opened LsmRuns

  /** `hit` is the newest entry of `c` that a reader of `u` at `s` may see, if there is one. */
  ghost predicate Best(c: iset<Entry>, u: UserKey, s: nat, hit: Option<Entry>) {
    match hit
    case None => forall x :: x in c ==> !Visible(x, u, s)
    case Some(e) => IsNewest(c, u, s, e)
  }

  ghost predicate NewerSet(a: iset<Entry>, b: iset<Entry>) {
    forall e, x :: e in a && x in b && e.u == x.u ==> e.seqno > x.seqno
  }

  /** A hit in the newer part settles the search; a miss leaves it to the older part. */
  lemma BestUnion(a: iset<Entry>, b: iset<Entry>, u: UserKey, s: nat, hitA: Option<Entry>, hitB: Option<Entry>)
    requires NewerSet(a, b) && Best(a, u, s, hitA) && (hitA.None? ==> Best(b, u, s, hitB))
    ensures Best(a + b, u, s, if hitA.Some? then hitA else hitB)
  {
  }

  ghost function OfFiles(fs: seq<File>): iset<Entry> {
    iset e | InFiles(fs, e)
  }

  /** Seeks to the lookup key and checks the user key of the entry found there. */
  method SeekAndCheck(es: seq<Entry>, u: UserKey, s: SequenceNumber) returns (hit: Option<Entry>)
    requires Sorted(es)
    ensures Best(Of(es), u, s, hit)
    ensures hit.Some? ==> hit.value in es
  {
    var i := 0;
    while i < |es| && KeyLess(KeyOf(es[i]), SeekKey(u, s))
      invariant 0 <= i <= |es|
      invariant forall k :: 0 <= k < i ==> KeyLess(KeyOf(es[k]), SeekKey(u, s))
    {
      i := i + 1;
    }
    assert forall k :: i < k < |es| ==> Precedes(es[i], es[k]);
    if i < |es| && es[i].u == u {
      hit := Some(es[i]);
    } else {
      hit := None;
    }
  }

  // ---------------------------------------------------------------------------------------------------------
  // Level 0
  // ---------------------------------------------------------------------------------------------------------

  ghost predicate NewestFirst(fs: seq<File>) {
    forall i, j :: 0 <= i < j < |fs| ==> fs[i].number >= fs[j].number
  }

  method InsertNewest(fs: seq<File>, f: File) returns (r: seq<File>)
    requires NewestFirst(fs)
    ensures NewestFirst(r) && multiset(r) == multiset(fs) + multiset{f}
  {
    hide Sorted;
    var k := 0;
    while k < |fs| && fs[k].number >= f.number
      invariant 0 <= k <= |fs| && forall p :: 0 <= p < k ==> fs[p].number >= f.number
    {
      k := k + 1;
    }
    r := fs[..k] + [f] + fs[k..];
    assert fs == fs[..k] + fs[k..];
  }

  method SortNewestFirst(fs: seq<File>) returns (r: seq<File>)
    ensures NewestFirst(r) && multiset(r) == multiset(fs)
  {
    hide Sorted, NewestFirst;
    assert NewestFirst([]) by { NothingToSort(); }
    r := [];
    var i := 0;
    while i < |fs|
      invariant 0 <= i <= |fs| && NewestFirst(r) && multiset(r) == multiset(fs[..i])
    {
      r := InsertNewest(r, fs[i]);
      assert fs[..i + 1] == fs[..i] + [fs[i]];
      i := i + 1;
    }
    assert fs[..|fs|] == fs;
  }

  lemma NothingToSort()
    ensures NewestFirst([])
  {
  }

  lemma SameMembers(a: seq<File>, b: seq<File>)
    requires multiset(a) == multiset(b)
    ensures forall f :: f in a <==> f in b
  {
    forall f ensures f in a <==> f in b {
      assert f in a <==> f in multiset(a);
      assert f in b <==> f in multiset(b);
    }
  }

  /** The files of level 0 whose range holds the key, newest first, until one has an entry. */
  method GetLevel0(files: seq<File>, u: UserKey, s: SequenceNumber) returns (hit: Option<Entry>)
    requires NumberOrdered(files) && forall f, g :: f in files && g in files && f.number == g.number ==> f == g
    ensures Best(OfFiles(files), u, s, hit)
  {
    hide Sorted, NumberOrdered;
    var tmp := [];
    var i := 0;
    while i < |files|
      invariant 0 <= i <= |files|
      invariant forall f :: f in tmp <==> f in files[..i] && First(f).u <= u <= Last(f).u
    {
      if u >= First(files[i]).u && u <= Last(files[i]).u {
        tmp := tmp + [files[i]];
      }
      i := i + 1;
    }
    assert files[..i] == files;
    var sorted := SortNewestFirst(tmp);
    SameMembers(sorted, tmp);
    hit := None;
    i := 0;
    while i < |sorted|
      invariant 0 <= i <= |sorted| && hit.None?
      invariant forall k :: 0 <= k < i ==> Best(Of(sorted[k].entries), u, s, None)
    {
      hit := SeekAndCheck(sorted[i].entries, u, s);
      if hit.Some? {
        Level0Hit(files, sorted, i, u, s, hit.value);
        return;
      }
      i := i + 1;
    }
    Level0Miss(files, sorted, u, s);
  }

  ghost predicate Candidates(files: seq<File>, sorted: seq<File>, u: UserKey) {
    forall f :: f in sorted <==> f in files && First(f).u <= u <= Last(f).u
  }

  lemma Level0Hit(files: seq<File>, sorted: seq<File>, i: nat, u: UserKey, s: nat, e: Entry)
    requires NumberOrdered(files) && (forall f, g :: f in files && g in files && f.number == g.number ==> f == g)
    requires Candidates(files, sorted, u) && NewestFirst(sorted) && i < |sorted|
    requires IsNewest(Of(sorted[i].entries), u, s, e)
    requires forall k :: 0 <= k < i ==> Best(Of(sorted[k].entries), u, s, None)
    ensures IsNewest(OfFiles(files), u, s, e)
  {
    hide Sorted;
    var f := sorted[i];
    assert f in sorted && InFiles(files, e);
    forall x | InFiles(files, x) && Visible(x, u, s)
      ensures x.seqno <= e.seqno
    {
      var g :| g in files && x in g.entries;
      WithinFile(g, x);
      assert g in sorted;
      var k :| 0 <= k < |sorted| && sorted[k] == g;
      assert x in Of(sorted[k].entries);
      assert i <= k;
      assert f.number > g.number ==> FileNewer(f, g);
    }
  }

  lemma Level0Miss(files: seq<File>, sorted: seq<File>, u: UserKey, s: nat)
    requires Candidates(files, sorted, u)
    requires forall k :: 0 <= k < |sorted| ==> Best(Of(sorted[k].entries), u, s, None)
    ensures Best(OfFiles(files), u, s, None)
  {
    hide Sorted;
    forall x | InFiles(files, x)
      ensures !Visible(x, u, s)
    {
      var g :| g in files && x in g.entries;
      WithinFile(g, x);
      if x.u == u {
        assert g in sorted;
        var k :| 0 <= k < |sorted| && sorted[k] == g;
        assert x in Of(sorted[k].entries);
      }
    }
  }

  // ---------------------------------------------------------------------------------------------------------
  // Deeper levels
  // ---------------------------------------------------------------------------------------------------------

  /** In a sorted level one file decides: the first whose largest key is not below the lookup key. */
  method GetSortedLevel(files: seq<File>, u: UserKey, s: SequenceNumber) returns (hit: Option<Entry>)
    requires LevelSorted(files)
    ensures Best(OfFiles(files), u, s, hit)
  {
    hide Sorted, LevelSorted;
    hit := None;
    var index := FindFile(files, SeekKey(u, s));
    if index < |files| && First(files[index]).u <= u {
      hit := SeekAndCheck(files[index].entries, u, s);
    }
    LevelDecided(files, index, u, s, hit);
  }

  lemma LevelDecided(files: seq<File>, index: nat, u: UserKey, s: SequenceNumber, hit: Option<Entry>)
    requires LevelSorted(files) && index <= |files|
    requires forall i :: 0 <= i < index ==> KeyLess(Largest(files[i]), SeekKey(u, s))
    requires index < |files| ==> !KeyLess(Largest(files[index]), SeekKey(u, s))
    requires index < |files| && First(files[index]).u <= u ==> Best(Of(files[index].entries), u, s, hit)
    requires !(index < |files| && First(files[index]).u <= u) ==> hit == None
    ensures Best(OfFiles(files), u, s, hit)
  {
    hide Sorted;
    if hit.Some? {
      assert files[index] in files && InFiles(files, hit.value);
    }
    forall x | InFiles(files, x) && Visible(x, u, s)
      ensures hit.Some? && x.seqno <= hit.value.seqno
    {
      VisibleInLevel(files, index, u, s, hit, x);
    }
  }

  lemma VisibleInLevel(files: seq<File>, index: nat, u: UserKey, s: SequenceNumber, hit: Option<Entry>, x: Entry)
    requires LevelSorted(files) && index <= |files|
    requires forall i :: 0 <= i < index ==> KeyLess(Largest(files[i]), SeekKey(u, s))
    requires index < |files| ==> !KeyLess(Largest(files[index]), SeekKey(u, s))
    requires index < |files| && First(files[index]).u <= u ==> Best(Of(files[index].entries), u, s, hit)
    requires InFiles(files, x) && Visible(x, u, s)
    ensures index < |files| && First(files[index]).u <= u && hit.Some? && x.seqno <= hit.value.seqno
  {
    hide Sorted;
    var g :| g in files && x in g.entries;
    var j :| 0 <= j < |files| && files[j] == g;
    WithinFile(g, x);
    assert index <= j;
    var f := files[index];
    WithinFile(f, First(f));
    assert index < j ==> Precedes(Last(f), First(g));
    if index == j {
      assert x in Of(f.entries);
    } else {
      assert Last(f) in f.entries;
      assert Last(f) in Of(f.entries) && Visible(Last(f), u, s);
    }
  }

  // ---------------------------------------------------------------------------------------------------------
  // The whole search
  // ---------------------------------------------------------------------------------------------------------

  lemma HitAtLevel(v: Version, level: nat, u: UserKey, s: nat, e: Entry)
    requires LevelsOrdered(v) && level < NUM_LEVELS && IsNewest(OfFiles(v[level]), u, s, e)
    requires forall l :: 0 <= l < level ==> Best(OfFiles(v[l]), u, s, None)
    ensures IsNewest(Entries(v), u, s, e)
  {
    hide InFiles;
    forall x | x in Entries(v) && Visible(x, u, s)
      ensures x.seqno <= e.seqno
    {
      var l :| 0 <= l < NUM_LEVELS && InFiles(v[l], x);
      assert x in OfFiles(v[l]);
      if l > level {
        assert LevelNewer(v[level], v[l]);
      }
    }
  }

  /** Level 0 first, then one file per level, stopping at the first hit. */
  method VersionGet(v: Version, u: UserKey, s: SequenceNumber) returns (hit: Option<Entry>)
    requires VersionInv(v)
    ensures Best(Entries(v), u, s, hit)
  {
    hide LevelSorted, LevelsOrdered, NumberOrdered, InFiles, Sorted;
    hit := GetLevel0(v[0], u, s);
    if hit.Some? {
      HitAtLevel(v, 0, u, s, hit.value);
      return;
    }
    var level := 1;
    while level < NUM_LEVELS
      invariant 1 <= level <= NUM_LEVELS
      invariant forall l :: 0 <= l < level ==> Best(OfFiles(v[l]), u, s, None)
    {
      hit := GetSortedLevel(v[level], u, s);
      if hit.Some? {
        HitAtLevel(v, level, u, s, hit.value);
        return;
      }
      level := level + 1;
    }
    hit := None;
    assert forall l :: 0 <= l < NUM_LEVELS ==> Best(OfFiles(v[l]), u, s, None);
    forall x | InVersion(v, x)
      ensures !Visible(x, u, s)
    {
      var l :| 0 <= l < NUM_LEVELS && InFiles(v[l], x);
      assert x in OfFiles(v[l]);
    }
  }

  /** Memtable, immutable memtable, then files, stopping at the first hit: the value read is that of the newest entry
      of the whole database not above the snapshot. */
  method Get(db: Db, u: UserKey, s: SequenceNumber) returns (r: Option<string>)
    requires DbInv(db)
    ensures r == View(Contents(db), u, s)
  {
    hide Sorted, VersionInv, JobInv, InVersion, Best;
    var hit := SeekAndCheck(db.mem, u, s);
    ghost var immEntries := if db.imm.Some? then Of(db.imm.value) else iset{};
    ghost var older := immEntries + Entries(db.v);
    assert Contents(db) == Of(db.mem) + older;
    if hit.Some? {
      BestUnion(Of(db.mem), older, u, s, hit, None);
    } else {
      ghost var memHit := hit;
      if db.imm.Some? {
        hit := SeekAndCheck(db.imm.value, u, s);
      }
      assert Best(immEntries, u, s, hit) by { if db.imm.None? { BestOfNothing(u, s); } }
      if hit.Some? {
        BestUnion(immEntries, Entries(db.v), u, s, hit, None);
      } else {
        ghost var immHit := hit;
        hit := VersionGet(db.v, u, s);
        BestUnion(immEntries, Entries(db.v), u, s, immHit, hit);
      }
      BestUnion(Of(db.mem), older, u, s, memHit, hit);
    }
    ContentsUnique(db);
    BestIsView(Contents(db), u, s, hit);
    r := if hit.Some? then Payload(hit.value) else None;
  }

  lemma BestOfNothing(u: UserKey, s: nat)
    ensures Best(iset{}, u, s, None)
  {
  }

  lemma BestIsView(c: iset<Entry>, u: UserKey, s: nat, hit: Option<Entry>)
    requires UniqueSeqs(c) && Best(c, u, s, hit)
    ensures View(c, u, s) == if hit.Some? then Payload(hit.value) else None
  {
    if hit.Some? {
      ViewIsNewest(c, u, s, hit.value);
    } else {
      NothingVisible(c, u, s);
    }
  }
}
