/** Tables, levels and versions of the log-structured merge tree, and the invariant its readers rely on
    (db/version_set.h, db/version_set.cc, db/version_edit.h). */
module Lsm {
  import opened InternalKeys
  import opened Views

  const NUM_LEVELS: nat := 7

  datatype FileData = FileData(number: nat, size: nat, entries: seq<Entry>)

  /** A table file: its entries are non-empty and sorted. Its smallest and largest keys are those of its first
      and last entry, as the builders record them. */
  type File = f: FileData | f.entries != [] && Sorted(f.entries)
    witness FileData(0, 0, [Entry(0, 0, Deletion)])

  type Version = v: seq<seq<File>> | |v| == NUM_LEVELS
    witness [[], [], [], [], [], [], []]

  function First(f: File): Entry {
    f.entries[0]
  }

  function Last(f: File): Entry {
    f.entries[|f.entries| - 1]
  }

  function Smallest(f: File): InternalKey {
    KeyOf(First(f))
  }

  function Largest(f: File): InternalKey {
    KeyOf(Last(f))
  }

  ghost predicate InFiles(fs: seq<File>, e: Entry) {
    exists f :: f in fs && e in f.entries
  }

  ghost predicate InVersion(v: Version, e: Entry) {
    exists l :: 0 <= l < NUM_LEVELS && InFiles(v[l], e)
  }

  ghost function Entries(v: Version): iset<Entry> {
    iset e | InVersion(v, e)
  }

  /** The entries of a file lie between its smallest and its largest key. */
  lemma WithinFile(f: File, e: Entry)
    requires e in f.entries
    ensures First(f).u <= e.u <= Last(f).u
    ensures e == First(f) || Precedes(First(f), e)
    ensures e == Last(f) || Precedes(e, Last(f))
  {
    var i :| 0 <= i < |f.entries| && f.entries[i] == e;
  }

  /** By smallest key, ties broken by file number. */
  predicate FileLess(f: File, g: File) {
    KeyLess(Smallest(f), Smallest(g)) || (Smallest(f) == Smallest(g) && f.number < g.number)
  }

  ghost predicate StrictlyOrdered(fs: seq<File>) {
    forall i, j :: 0 <= i < j < |fs| ==> FileLess(fs[i], fs[j])
  }

  /** Files of a level above 0 follow each other without overlap. */
  ghost predicate LevelSorted(fs: seq<File>) {
    forall i, j :: 0 <= i < j < |fs| ==> Precedes(Last(fs[i]), First(fs[j]))
  }

  /** Every entry of `newer` is newer than every entry of `older` for the same user key. */
  ghost predicate LevelNewer(newer: seq<File>, older: seq<File>) {
    forall e, x :: InFiles(newer, e) && InFiles(older, x) && e.u == x.u ==> e.seqno > x.seqno
  }

  ghost predicate FileNewer(f: File, g: File) {
    forall e, x :: e in f.entries && x in g.entries && e.u == x.u ==> e.seqno > x.seqno
  }

  /** In level 0 a larger file number means newer data. */
  ghost predicate NumberOrdered(fs: seq<File>) {
    forall f, g :: f in fs && g in fs && f.number > g.number ==> FileNewer(f, g)
  }

  /** No file number occurs twice in a version. */
  ghost predicate NumbersUnique(v: Version) {
    forall l, m, f, g :: 0 <= l < NUM_LEVELS && 0 <= m < NUM_LEVELS && f in v[l] && g in v[m] && f.number == g.number
      ==> l == m && f == g
  }

  ghost predicate LevelsOrdered(v: Version) {
    forall l, m :: 0 <= l < m < NUM_LEVELS ==> LevelNewer(v[l], v[m])
  }

  ghost predicate VersionInv(v: Version) {
    && (forall l :: 1 <= l < NUM_LEVELS ==> LevelSorted(v[l]))
    && LevelsOrdered(v)
    && StrictlyOrdered(v[0])
    && NumberOrdered(v[0])
    && NumbersUnique(v)
  }

  lemma SortedIsOrdered(fs: seq<File>)
    requires LevelSorted(fs)
    ensures StrictlyOrdered(fs)
  {
    hide Sorted;
    forall i, j | 0 <= i < j < |fs|
      ensures FileLess(fs[i], fs[j])
    {
      assert Precedes(Last(fs[i]), First(fs[j]));
      WithinFile(fs[i], First(fs[i]));
    }
  }

  /** One of two files lies wholly before the other. */
  ghost predicate Apart(f: File, g: File) {
    Precedes(Last(f), First(g)) || Precedes(Last(g), First(f))
  }

  lemma OrderedApartIsSorted(fs: seq<File>)
    requires StrictlyOrdered(fs) && forall f, g :: f in fs && g in fs && f != g ==> Apart(f, g)
    ensures LevelSorted(fs)
  {
    hide Sorted;
    forall i, j | 0 <= i < j < |fs|
      ensures Precedes(Last(fs[i]), First(fs[j]))
    {
      assert FileLess(fs[i], fs[j]);
      assert Apart(fs[i], fs[j]);
      WithinFile(fs[i], First(fs[i]));
      WithinFile(fs[j], First(fs[j]));
    }
  }

  lemma SortedApart(fs: seq<File>, f: File, g: File)
    requires LevelSorted(fs) && f in fs && g in fs && f != g
    ensures Apart(f, g)
  {
    hide Sorted;
    var i :| 0 <= i < |fs| && fs[i] == f;
    var j :| 0 <= j < |fs| && fs[j] == g;
    assert i < j ==> Precedes(Last(fs[i]), First(fs[j]));
    assert j < i ==> Precedes(Last(fs[j]), First(fs[i]));
  }

  lemma FileUnique(f: File, e: Entry, x: Entry)
    requires e in f.entries && x in f.entries && e.u == x.u && e.seqno == x.seqno
    ensures e == x
  {
    var p :| 0 <= p < |f.entries| && f.entries[p] == e;
    var q :| 0 <= q < |f.entries| && f.entries[q] == x;
  }

  lemma SortedLevelUnique(fs: seq<File>, e: Entry, x: Entry)
    requires LevelSorted(fs) && InFiles(fs, e) && InFiles(fs, x)
    requires e.u == x.u && e.seqno == x.seqno
    ensures e == x
  {
    hide Sorted;
    var f :| f in fs && e in f.entries;
    var g :| g in fs && x in g.entries;
    var i :| 0 <= i < |fs| && fs[i] == f;
    var j :| 0 <= j < |fs| && fs[j] == g;
    WithinFile(f, e);
    WithinFile(g, x);
    if i == j {
      FileUnique(f, e, x);
    }
  }

  lemma Level0Unique(v: Version, e: Entry, x: Entry)
    requires NumberOrdered(v[0]) && NumbersUnique(v) && InFiles(v[0], e) && InFiles(v[0], x)
    requires e.u == x.u && e.seqno == x.seqno
    ensures e == x
  {
    var f :| f in v[0] && e in f.entries;
    var g :| g in v[0] && x in g.entries;
    assert f.number > g.number ==> FileNewer(f, g);
    assert g.number > f.number ==> FileNewer(g, f);
    assert f.number == g.number ==> f == g;
    if f == g {
      FileUnique(f, e, x);
    }
  }

  lemma VersionUniquePair(v: Version, l: nat, e: Entry, m: nat, x: Entry)
    requires VersionInv(v) && l <= m < NUM_LEVELS && InFiles(v[l], e) && InFiles(v[m], x)
    requires e.u == x.u && e.seqno == x.seqno
    ensures e == x
  {
    assert l < m ==> LevelNewer(v[l], v[m]);
    if l == m == 0 {
      Level0Unique(v, e, x);
    } else if l == m {
      SortedLevelUnique(v[l], e, x);
    }
  }

  /** The level order makes sequence numbers unique over the whole version. */
  lemma VersionUnique(v: Version)
    requires VersionInv(v)
    ensures UniqueSeqs(Entries(v))
  {
    hide VersionInv;
    forall e, x | e in Entries(v) && x in Entries(v) && e.u == x.u && e.seqno == x.seqno
      ensures e == x
    {
      var l :| 0 <= l < NUM_LEVELS && InFiles(v[l], e);
      var m :| 0 <= m < NUM_LEVELS && InFiles(v[m], x);
      if l <= m {
        VersionUniquePair(v, l, e, m, x);
      } else {
        VersionUniquePair(v, m, x, l, e);
      }
    }
  }

  // ---------------------------------------------------------------------------------------------------------
  // Ranges of user keys
  // ---------------------------------------------------------------------------------------------------------

  /** The user-key range of `f` meets [lo, hi]; an absent bound is infinite. */
  predicate Overlaps(f: File, lo: Option<UserKey>, hi: Option<UserKey>) {
    && (lo.Some? ==> lo.value <= Last(f).u)
    && (hi.Some? ==> First(f).u <= hi.value)
  }

  /** The user-key ranges of `f` and [a, b] are disjoint. */
  predicate Avoids(f: File, a: UserKey, b: UserKey) {
    b < First(f).u || Last(f).u < a
  }
}
