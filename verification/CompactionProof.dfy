/** What installing a compaction does to the invariant and to the views of the database. */
module CompactionProof {
  import opened InternalKeys
  import opened Views
  import opened Lsm
  import opened Picking
  import opened Compactions

  /** Level `l` of `v'` is level `l` of `v` without `removed` and with `added`. */
  ghost predicate Changed(v: Version, v': Version, l: nat, removed: seq<File>, added: seq<File>)
    requires l < NUM_LEVELS
  {
    StrictlyOrdered(v'[l]) && forall f :: f in v'[l] <==> (f in v[l] && f !in removed) || f in added
  }

  /** The inputs have left the version and the outputs have joined the next level. */
  ghost predicate Replaced(v: Version, c: Inputs, outputs: seq<File>, v': Version)
    requires c.level + 1 < NUM_LEVELS
  {
    && Changed(v, v', c.level, c.in0, [])
    && Changed(v, v', c.level + 1, c.in1, outputs)
    && forall l :: 0 <= l < NUM_LEVELS && l != c.level && l != c.level + 1 ==> v'[l] == v[l]
  }

  /** The merged input of a compaction: every entry of the input files, in order. */
  ghost predicate Merged(c: Inputs, input: seq<Entry>) {
    Sorted(input) && forall e :: e in input <==> InFiles(c.in0, e) || InFiles(c.in1, e)
  }

  /** The outputs are what the compaction loop leaves of the merged input. */
  ghost predicate Produced(c: Inputs, input: seq<Entry>, snap: SequenceNumber, base: Version, outputs: seq<File>) {
    Merged(c, input) && Flatten(outputs) == Kept(input, |input|, snap, base, c.level)
  }

  /** A file below the output level is either one the compaction looked at or shares no user key with its inputs. */
  ghost predicate DeeperKnown(v: Version, c: Inputs, base: Version) {
    forall l, f :: c.level + 2 <= l < NUM_LEVELS && f in v[l] && f !in base[l] ==> AvoidsInputs(f, c)
  }

  ghost predicate AvoidsInputs(f: File, c: Inputs) {
    forall g :: g in c.in0 || g in c.in1 ==> Avoids(g, First(f).u, Last(f).u)
  }

  /** A compaction of inputs `c`, chosen in `base`, may be installed in `v`. */
  ghost predicate JobOk(v: Version, c: Inputs, base: Version) {
    Picked(v, c) && DeeperKnown(v, c, base)
  }

  // ---------------------------------------------------------------------------------------------------------
  // Entries of the outputs
  // ---------------------------------------------------------------------------------------------------------

  lemma {:induction false} FlattenMembers(fs: seq<File>)
    ensures forall e :: e in Flatten(fs) <==> InFiles(fs, e)
  {
    hide Sorted;
    if fs != [] {
      var n := |fs| - 1;
      FlattenMembers(fs[..n]);
      assert fs == fs[..n] + [fs[n]];
      forall e
        ensures e in Flatten(fs) <==> InFiles(fs, e)
      {
        if e in fs[n].entries {
          assert fs[n] in fs;
        } else if InFiles(fs[..n], e) {
          var f :| f in fs[..n] && e in f.entries;
          assert f in fs;
        }
      }
    }
  }

  /** Cutting a sorted sequence into files gives a sorted level. */
  lemma {:induction false} FlattenSorted(fs: seq<File>)
    requires Sorted(Flatten(fs))
    ensures LevelSorted(fs)
  {
    if fs != [] {
      var n := |fs| - 1;
      var head := Flatten(fs[..n]);
      assert Sorted(head) by {
        forall i, j | 0 <= i < j < |head| ensures Precedes(head[i], head[j]) {
          assert Flatten(fs)[i] == head[i] && Flatten(fs)[j] == head[j];
        }
      }
      FlattenSorted(fs[..n]);
      FlattenMembers(fs[..n]);
      forall i | 0 <= i < n
        ensures Precedes(Last(fs[i]), First(fs[n]))
      {
        assert fs[i] == fs[..n][i] && InFiles(fs[..n], Last(fs[i]));
        var k :| 0 <= k < |head| && head[k] == Last(fs[i]);
        assert Flatten(fs)[k] == head[k] && Flatten(fs)[|head|] == First(fs[n]);
      }
      forall i, j | 0 <= i < j < |fs|
        ensures Precedes(Last(fs[i]), First(fs[j]))
      {
        assert j < n ==> fs[i] == fs[..n][i] && fs[j] == fs[..n][j];
      }
    }
  }

  lemma OutputEntry(c: Inputs, input: seq<Entry>, snap: SequenceNumber, base: Version, outputs: seq<File>, e: Entry)
    requires Produced(c, input, snap, base, outputs) && InFiles(outputs, e)
    ensures InFiles(c.in0, e) || InFiles(c.in1, e)
    ensures exists i :: 0 <= i < |input| && input[i] == e && !Dropped(input, i, snap, base, c.level)
  {
    hide Sorted, Dropped;
    FlattenMembers(outputs);
    KeptMembers(input, |input|, snap, base, c.level);
  }

  /** The outputs are sorted files made of input entries. */
  ghost predicate FromInputs(c: Inputs, outputs: seq<File>) {
    LevelSorted(outputs) && forall e :: InFiles(outputs, e) ==> InFiles(c.in0, e) || InFiles(c.in1, e)
  }

  lemma OutputsFromInputs(c: Inputs, input: seq<Entry>, snap: SequenceNumber, base: Version, outputs: seq<File>)
    requires Produced(c, input, snap, base, outputs)
    ensures FromInputs(c, outputs)
  {
    assert LevelSorted(outputs) by {
      KeptMembers(input, |input|, snap, base, c.level);
      FlattenSorted(outputs);
    }
    hide Sorted, LevelSorted, Produced;
    forall e | InFiles(outputs, e)
      ensures InFiles(c.in0, e) || InFiles(c.in1, e)
    {
      OutputEntry(c, input, snap, base, outputs, e);
    }
  }

  // ---------------------------------------------------------------------------------------------------------
  // The invariant
  // ---------------------------------------------------------------------------------------------------------

  /** An input entry relative to the entries of a level outside the compaction. */
  lemma InputNewerThanDeeper(v: Version, c: Inputs, m: nat, e: Entry, x: Entry)
    requires LevelsOrdered(v) && Picked(v, c) && c.level + 2 <= m < NUM_LEVELS
    requires InFiles(c.in0, e) || InFiles(c.in1, e)
    requires InFiles(v[m], x) && e.u == x.u
    ensures e.seqno > x.seqno
  {
    hide Sorted, OlderClosed, TakesOverlap;
    assert LevelNewer(v[c.level], v[m]) && LevelNewer(v[c.level + 1], v[m]);
    assert InFiles(c.in0, e) ==> InFiles(v[c.level], e);
    assert InFiles(c.in1, e) ==> InFiles(v[c.level + 1], e);
  }

  lemma ShallowerNewerThanInput(v: Version, c: Inputs, f: File, l: nat, e: Entry, x: Entry)
    requires LevelsOrdered(v) && Picked(v, c) && l <= c.level
    requires f in v[l] && e in f.entries && (l == c.level ==> f !in c.in0)
    requires InFiles(c.in0, x) || InFiles(c.in1, x)
    requires e.u == x.u
    ensures e.seqno > x.seqno
  {
    hide Sorted, TakesOverlap;
    assert LevelNewer(v[l], v[c.level + 1]);
    assert l < c.level ==> LevelNewer(v[l], v[c.level]);
    assert InFiles(c.in0, x) ==> InFiles(v[c.level], x);
    assert InFiles(c.in1, x) ==> InFiles(v[c.level + 1], x);
    assert InFiles(v[l], e);
  }

  lemma ReplacedLevelsOrdered(v: Version, c: Inputs, outputs: seq<File>, v': Version)
    requires c.level + 1 < NUM_LEVELS && LevelsOrdered(v) && Picked(v, c)
    requires FromInputs(c, outputs) && Replaced(v, c, outputs, v')
    ensures LevelsOrdered(v')
  {
    hide Sorted, Picked, FromInputs, LevelsOrdered;
    forall l, m, e, x | 0 <= l < m < NUM_LEVELS && InFiles(v'[l], e) && InFiles(v'[m], x) && e.u == x.u
      ensures e.seqno > x.seqno
    {
      ReplacedPair(v, c, outputs, v', l, m, e, x);
    }
    OrderedFromPairs(v');
  }

  lemma OrderedFromPairs(v: Version)
    requires forall l, m, e, x :: 0 <= l < m < NUM_LEVELS && InFiles(v[l], e) && InFiles(v[m], x) && e.u == x.u ==>
      e.seqno > x.seqno
    ensures LevelsOrdered(v)
  {
  }

  lemma ReplacedPair(v: Version, c: Inputs, outputs: seq<File>, v': Version, l: nat, m: nat, e: Entry, x: Entry)
    requires LevelsOrdered(v) && c.level + 1 < NUM_LEVELS && Picked(v, c) && FromInputs(c, outputs)
      && Replaced(v, c, outputs, v')
    requires l < m < NUM_LEVELS && InFiles(v'[l], e) && InFiles(v'[m], x) && e.u == x.u
    ensures e.seqno > x.seqno
  {
    hide Sorted, Picked, StrictlyOrdered, LevelSorted;
    var f :| f in v'[l] && e in f.entries;
    var g :| g in v'[m] && x in g.entries;
    assert LevelNewer(v[l], v[m]);
    if g in outputs && m == c.level + 1 {
      assert InFiles(outputs, x);
      ShallowerNewerThanInput(v, c, f, l, e, x);
    } else if f in outputs && l == c.level + 1 {
      assert InFiles(outputs, e);
      assert InFiles(v[m], x);
      InputNewerThanDeeper(v, c, m, e, x);
    } else {
      assert InFiles(v[l], e) && InFiles(v[m], x);
    }
  }

  /** The numbers of the outputs are new to the version and differ from each other. */
  ghost predicate FreshNumbers(v: Version, outputs: seq<File>) {
    && (forall l, f, o :: 0 <= l < NUM_LEVELS && f in v[l] && o in outputs ==> f.number != o.number)
    && (forall o, p :: o in outputs && p in outputs && o.number == p.number ==> o == p)
  }

  lemma ReplacedNumbers(v: Version, c: Inputs, outputs: seq<File>, v': Version)
    requires c.level + 1 < NUM_LEVELS && NumbersUnique(v) && FreshNumbers(v, outputs) && Replaced(v, c, outputs, v')
    ensures NumbersUnique(v')
  {
    hide Sorted, StrictlyOrdered;
    forall l, m, f, g | 0 <= l < NUM_LEVELS && 0 <= m < NUM_LEVELS && f in v'[l] && g in v'[m] && f.number == g.number
      ensures l == m && f == g
    {
      assert (l == c.level + 1 && f in outputs) || f in v[l];
      assert (m == c.level + 1 && g in outputs) || g in v[m];
    }
  }

  /** A file of level+1 that is not an input lies wholly before or wholly after every input entry. */
  lemma LeftOutSide(v: Version, c: Inputs, f: File)
    requires Picked(v, c) && LevelSorted(v[c.level + 1]) && f in v[c.level + 1] && f !in c.in1
    ensures Last(f).u < c.smallest.u || c.largest.u < First(f).u
    ensures Last(f).u < c.smallest.u ==> forall e :: InFiles(c.in0, e) || InFiles(c.in1, e) ==> Precedes(Last(f), e)
    ensures c.largest.u < First(f).u ==> forall e :: InFiles(c.in0, e) || InFiles(c.in1, e) ==> Precedes(e, First(f))
    ensures forall e, x :: InFiles(c.in0, e) && x in f.entries ==> e.u != x.u
  {
    hide Sorted, LevelSorted, OlderClosed, IsSmallest, IsLargest;
    assert !Overlaps(f, Some(c.smallest.u), Some(c.largest.u));
    WithinFile(f, First(f));
    forall e | InFiles(c.in0, e)
      ensures c.smallest.u <= e.u <= c.largest.u
    {
      InputRange(c, e);
    }
    forall e | InFiles(c.in1, e)
      ensures Last(f).u < c.smallest.u ==> Precedes(Last(f), e)
      ensures c.largest.u < First(f).u ==> Precedes(e, First(f))
    {
      LeftOutSide1(v, c, f, e);
    }
    forall x | x in f.entries
      ensures First(f).u <= x.u <= Last(f).u
    {
      WithinFile(f, x);
    }
  }

  lemma InputRange(c: Inputs, e: Entry)
    requires IsSmallest(c.in0, c.smallest) && IsLargest(c.in0, c.largest) && InFiles(c.in0, e)
    ensures c.smallest.u <= e.u <= c.largest.u
  {
    hide Sorted;
    var g :| g in c.in0 && e in g.entries;
    WithinFile(g, e);
  }

  lemma LeftOutSide1(v: Version, c: Inputs, f: File, e: Entry)
    requires c.level + 1 < NUM_LEVELS && LevelSorted(v[c.level + 1]) && f in v[c.level + 1] && f !in c.in1
      && InFiles(c.in1, e)
    requires Subset(c.in1, v[c.level + 1]) && TakesOverlap(v[c.level + 1], c.in1, c.smallest, c.largest)
    ensures Last(f).u < c.smallest.u ==> Precedes(Last(f), e)
    ensures c.largest.u < First(f).u ==> Precedes(e, First(f))
  {
    hide Sorted, LevelSorted;
    var g :| g in c.in1 && e in g.entries;
    WithinFile(g, e);
    WithinFile(f, First(f));
    assert Overlaps(g, Some(c.smallest.u), Some(c.largest.u));
    SortedApart(v[c.level + 1], f, g);
  }

  lemma LeftOutApart(v: Version, c: Inputs, outputs: seq<File>, f: File, o: File)
    requires Picked(v, c) && LevelSorted(v[c.level + 1]) && FromInputs(c, outputs)
    requires f in v[c.level + 1] && f !in c.in1 && o in outputs
    ensures Apart(f, o)
  {
    hide Sorted, LevelSorted, OlderClosed, TakesOverlap, IsSmallest, IsLargest;
    LeftOutSide(v, c, f);
    assert InFiles(outputs, First(o)) && InFiles(outputs, Last(o));
  }

  lemma ReplacedNextSorted(v: Version, c: Inputs, outputs: seq<File>, v': Version)
    requires Picked(v, c) && LevelSorted(v[c.level + 1]) && FromInputs(c, outputs) && Replaced(v, c, outputs, v')
    ensures LevelSorted(v'[c.level + 1])
  {
    hide Sorted, LevelSorted, OlderClosed, TakesOverlap, Apart, StrictlyOrdered;
    var n := c.level + 1;
    forall f, g | f in v'[n] && g in v'[n] && f != g
      ensures Apart(f, g)
    {
      ApartSymmetric(f, g);
      if f in outputs && g in outputs {
        SortedApart(outputs, f, g);
      } else if f in outputs {
        LeftOutApart(v, c, outputs, g, f);
      } else if g in outputs {
        LeftOutApart(v, c, outputs, f, g);
      } else {
        SortedApart(v[n], f, g);
      }
    }
    OrderedApartIsSorted(v'[n]);
  }

  lemma ApartSymmetric(f: File, g: File)
    ensures Apart(f, g) <==> Apart(g, f)
  {
  }

  lemma SubsetSorted(fs: seq<File>, gs: seq<File>)
    requires LevelSorted(fs) && StrictlyOrdered(gs) && forall f :: f in gs ==> f in fs
    ensures LevelSorted(gs)
  {
    hide Sorted, LevelSorted, StrictlyOrdered, Apart;
    forall f, g | f in gs && g in gs && f != g
      ensures Apart(f, g)
    {
      SortedApart(fs, f, g);
    }
    OrderedApartIsSorted(gs);
  }

  lemma ReplacedSorted(v: Version, c: Inputs, outputs: seq<File>, v': Version)
    requires VersionInv(v) && Picked(v, c) && FromInputs(c, outputs) && Replaced(v, c, outputs, v')
    ensures forall l :: 1 <= l < NUM_LEVELS ==> LevelSorted(v'[l])
  {
    hide Sorted, LevelSorted, FromInputs, StrictlyOrdered, NumbersUnique, NumberOrdered, LevelsOrdered;
    ReplacedNextSorted(v, c, outputs, v');
    if c.level > 0 {
      SubsetSorted(v[c.level], v'[c.level]);
    }
  }

  /** Moving entries from the inputs to files of the next level keeps the invariant, whatever is dropped. */
  lemma ReplacedKeepsInv(v: Version, c: Inputs, outputs: seq<File>, v': Version)
    requires VersionInv(v) && Picked(v, c) && FromInputs(c, outputs) && Replaced(v, c, outputs, v') && NumbersUnique(v')
    ensures VersionInv(v')
  {
    hide Sorted, LevelSorted, FromInputs, StrictlyOrdered, FileNewer, LevelNewer, OlderClosed, TakesOverlap,
         NumbersUnique;
    ReplacedSorted(v, c, outputs, v');
    ReplacedLevelsOrdered(v, c, outputs, v');
    assert forall f :: f in v'[0] ==> f in v[0];
    assert StrictlyOrdered(v'[0]);
  }

  /** Installing a compaction keeps the invariant of the version. */
  lemma CompactionKeepsInv(v: Version, c: Inputs, input: seq<Entry>, snap: SequenceNumber, base: Version,
                           outputs: seq<File>, v': Version)
    requires VersionInv(v) && Picked(v, c) && Produced(c, input, snap, base, outputs) && Replaced(v, c, outputs, v')
    requires FreshNumbers(v, outputs)
    ensures VersionInv(v')
  {
    hide Sorted, LevelSorted, Produced, StrictlyOrdered, FileNewer, LevelNewer, OlderClosed, TakesOverlap, FreshNumbers,
         FromInputs, LevelsOrdered, NumberOrdered;
    OutputsFromInputs(c, input, snap, base, outputs);
    ReplacedNumbers(v, c, outputs, v');
    ReplacedKeepsInv(v, c, outputs, v');
  }

  // ---------------------------------------------------------------------------------------------------------
  // Views
  // ---------------------------------------------------------------------------------------------------------

  /** What a reader can see besides the files: the memtables. They are newer than every file. */
  ghost predicate Above(extra: iset<Entry>, v: Version) {
    && UniqueSeqs(extra + Entries(v))
    && forall e, x :: e in extra && InVersion(v, x) && e.u == x.u ==> e.seqno > x.seqno
  }

  /** Where an entry that the compaction leaves in place can be. */
  lemma UntouchedEntry(v: Version, c: Inputs, outputs: seq<File>, v': Version, x: Entry) returns (l: nat, f: File)
    requires c.level + 1 < NUM_LEVELS && Replaced(v, c, outputs, v') && InVersion(v', x) && !InFiles(outputs, x)
    ensures l < NUM_LEVELS && f in v[l] && f in v'[l] && x in f.entries
    ensures l == c.level ==> f !in c.in0
    ensures l == c.level + 1 ==> f !in c.in1
  {
    hide Sorted, StrictlyOrdered;
    l :| 0 <= l < NUM_LEVELS && InFiles(v'[l], x);
    f :| f in v'[l] && x in f.entries;
  }

  lemma EntriesOfReplaced(v: Version, c: Inputs, input: seq<Entry>, snap: SequenceNumber, base: Version,
                          outputs: seq<File>, v': Version)
    requires c.level + 1 < NUM_LEVELS && Picked(v, c) && Produced(c, input, snap, base, outputs)
      && Replaced(v, c, outputs, v')
    ensures Entries(v') <= Entries(v)
    ensures forall e :: InVersion(v, e) && !InVersion(v', e) ==> e in input && !InFiles(outputs, e)
  {
    hide Sorted, StrictlyOrdered, OlderClosed, TakesOverlap, Dropped;
    forall e | InVersion(v', e)
      ensures InVersion(v, e)
    {
      if InFiles(outputs, e) {
        OutputEntry(c, input, snap, base, outputs, e);
        assert InFiles(v[c.level], e) || InFiles(v[c.level + 1], e);
      } else {
        var l, f := UntouchedEntry(v, c, outputs, v', e);
        assert InFiles(v[l], e);
      }
    }
    forall e | InVersion(v, e) && !InVersion(v', e)
      ensures e in input && !InFiles(outputs, e)
    {
      var l :| 0 <= l < NUM_LEVELS && InFiles(v[l], e);
      var f :| f in v[l] && e in f.entries;
      assert !InFiles(v'[l], e);
      assert f !in v'[l];
      assert !InFiles(v'[c.level + 1], e);
    }
  }

  lemma LaterIsHidden(input: seq<Entry>, i: nat, j: nat, snap: SequenceNumber)
    requires Sorted(input) && i < j < |input| && input[i].u == input[j].u && input[i].seqno <= snap
    ensures Hidden(input, j, snap)
  {
    assert i < j - 1 ==> Precedes(input[i], input[j - 1]);
    assert Precedes(input[j - 1], input[j]);
  }

  /** Once an entry is visible to every reader, no older entry of its user key reaches the outputs. */
  lemma OlderInputDropped(c: Inputs, input: seq<Entry>, snap: SequenceNumber, base: Version, outputs: seq<File>, i: nat,
                          x: Entry)
    requires Produced(c, input, snap, base, outputs) && i < |input| && input[i].seqno <= snap
    requires InFiles(outputs, x) && x.u == input[i].u
    ensures x.seqno >= input[i].seqno
  {
    OutputEntry(c, input, snap, base, outputs, x);
    var j :| 0 <= j < |input| && input[j] == x && !Dropped(input, j, snap, base, c.level);
    assert j < i ==> Precedes(input[j], input[i]);
    if i < j {
      LaterIsHidden(input, i, j, snap);
    }
  }

  /** What is left below an obsolete tombstone can only be in a file of level+1 that the compaction left out. */
  lemma OlderIsLeftOut(v: Version, c: Inputs, input: seq<Entry>, snap: SequenceNumber, base: Version,
                       outputs: seq<File>, v': Version, i: nat, x: Entry) returns (f: File)
    requires c.level + 1 < NUM_LEVELS && LevelsOrdered(v) && JobOk(v, c, base)
    requires Produced(c, input, snap, base, outputs) && Replaced(v, c, outputs, v')
    requires i < |input| && Obsolete(input, i, snap, base, c.level)
    requires InVersion(v', x) && x.u == input[i].u && x.seqno < input[i].seqno
    ensures f in v[c.level + 1] && f in v'[c.level + 1] && f !in c.in1 && x in f.entries
  {
    hide Sorted, StrictlyOrdered, OlderClosed, TakesOverlap, LevelsOrdered, Changed, IsSmallest, IsLargest,
         BaseLevelFor, Hidden, Kept;
    var e := input[i];
    assert InFiles(c.in0, e) || InFiles(c.in1, e);
    if InFiles(outputs, x) {
      OlderInputDropped(c, input, snap, base, outputs, i, x);
    }
    hide Produced, Replaced;
    var l;
    l, f := UntouchedEntry(v, c, outputs, v', x);
    if l <= c.level {
      ShallowerNewerThanInput(v, c, f, l, x, e);
    } else if l >= c.level + 2 {
      DeeperHasNothing(v, c, base, l, f, x, e);
    }
  }

  lemma DeeperHasNothing(v: Version, c: Inputs, base: Version, l: nat, f: File, x: Entry, e: Entry)
    requires DeeperKnown(v, c, base) && BaseLevelFor(base, c.level, e.u) && (InFiles(c.in0, e) || InFiles(c.in1, e))
    requires c.level + 2 <= l < NUM_LEVELS && f in v[l] && x in f.entries
    ensures x.u != e.u
  {
    hide Sorted;
    WithinFile(f, x);
    if f in base[l] {
      assert !Covers(f, e.u);
    } else {
      var g :| (g in c.in0 || g in c.in1) && e in g.entries;
      WithinFile(g, e);
      assert AvoidsInputs(f, c);
    }
  }

  lemma DroppedIndex(c: Inputs, input: seq<Entry>, snap: SequenceNumber, base: Version, outputs: seq<File>, e: Entry)
    returns (i: nat)
    requires Produced(c, input, snap, base, outputs) && e in input && !InFiles(outputs, e)
    ensures i < |input| && input[i] == e && Dropped(input, i, snap, base, c.level)
  {
    hide Sorted, Dropped;
    FlattenMembers(outputs);
    KeptMembers(input, |input|, snap, base, c.level);
    i :| 0 <= i < |input| && input[i] == e;
  }

  /** A value that a dropped tombstone used to cover shows again: the newest entry below the tombstone, in a file of
      level+1 that the compaction left out, is a value, and nothing newer covers it for a reader at `s`. */
  ghost predicate Resurfaces(v: Version, c: Inputs, extra: iset<Entry>, input: seq<Entry>, snap: SequenceNumber,
                             base: Version, s: nat, i: nat, x: Entry)
    requires c.level + 1 < NUM_LEVELS
  {
    && i < |input| && Obsolete(input, i, snap, base, c.level)
    && LeftOutBelow(v, c, input[i], x) && x.kind.Put?
    && (forall y :: LeftOutBelow(v, c, input[i], y) ==> y.seqno <= x.seqno)
    && (forall y :: (y in extra || InVersion(v, y)) && y.u == x.u && y.seqno <= s ==> y.seqno <= input[i].seqno)
  }

  /** `x` is an older entry of the same user key in a file of level+1 that is not an input. */
  ghost predicate LeftOutBelow(v: Version, c: Inputs, e: Entry, x: Entry)
    requires c.level + 1 < NUM_LEVELS
  {
    x.u == e.u && x.seqno < e.seqno && exists f :: f in v[c.level + 1] && f !in c.in1 && x in f.entries
  }

  /** Some value of user key `u` resurfaces for a reader at `s`. */
  ghost predicate ComesBack(v: Version, c: Inputs, extra: iset<Entry>, input: seq<Entry>, snap: SequenceNumber,
                            base: Version, u: UserKey, s: nat)
    requires c.level + 1 < NUM_LEVELS
  {
    exists i: nat, x :: Resurfaces(v, c, extra, input, snap, base, s, i, x) && x.u == u
  }

  /** If a view of a key at or above the oldest snapshot changes, a value of that key resurfaces. */
  lemma ViewChangeResurfaces(v: Version, c: Inputs, extra: iset<Entry>, input: seq<Entry>, snap: SequenceNumber,
                             base: Version, outputs: seq<File>, v': Version, u: UserKey, s: nat)
    requires c.level + 1 < NUM_LEVELS && LevelsOrdered(v) && JobOk(v, c, base) && Above(extra, v)
    requires Produced(c, input, snap, base, outputs) && Replaced(v, c, outputs, v')
    requires snap <= s && View(extra + Entries(v), u, s) != View(extra + Entries(v'), u, s)
    ensures ComesBack(v, c, extra, input, snap, base, u, s)
  {
    hide Sorted, Produced, Replaced, LevelsOrdered, Picked, DeeperKnown, Hidden, BaseLevelFor;
    var all, kept := extra + Entries(v), extra + Entries(v');
    EntriesOfReplaced(v, c, input, snap, base, outputs, v');
    var found, e := ViewCases(all, u, s);
    var found', x := ViewCases(kept, u, s);
    assert found' ==> x in all;
    if found {
      assert e in kept ==> IsNewest(kept, u, s, e);
      var i := DroppedIndex(c, input, snap, base, outputs, e);
      if Hidden(input, i, snap) {
        HiddenNotNewest(v, c, input, snap, base, outputs, all, u, s, i);
      }
      assert Obsolete(input, i, snap, base, c.level) && found';
      TombstoneResurfaces(v, c, extra, input, snap, base, outputs, v', u, s, i, x);
    }
  }

  lemma HiddenNotNewest(v: Version, c: Inputs, input: seq<Entry>, snap: SequenceNumber, base: Version,
                        outputs: seq<File>, all: iset<Entry>, u: UserKey, s: nat, i: nat)
    requires Produced(c, input, snap, base, outputs) && Picked(v, c) && Entries(v) <= all && i < |input| && snap <= s
    requires Hidden(input, i, snap)
    ensures !IsNewest(all, u, s, input[i])
  {
    hide OlderClosed, TakesOverlap, IsSmallest, IsLargest;
    assert Precedes(input[i - 1], input[i]);
    var h := input[i - 1];
    assert h in input;
    assert InFiles(v[c.level], h) || InFiles(v[c.level + 1], h);
    assert h in Entries(v);
  }

  lemma TombstoneResurfaces(v: Version, c: Inputs, extra: iset<Entry>, input: seq<Entry>, snap: SequenceNumber,
                            base: Version, outputs: seq<File>, v': Version, u: UserKey, s: nat, i: nat, x: Entry)
    requires c.level + 1 < NUM_LEVELS && LevelsOrdered(v) && JobOk(v, c, base) && Above(extra, v)
    requires Produced(c, input, snap, base, outputs) && Replaced(v, c, outputs, v') && snap <= s
      && Entries(v') <= Entries(v)
    requires i < |input| && Obsolete(input, i, snap, base, c.level) && IsNewest(extra + Entries(v), u, s, input[i])
    requires input[i] !in extra + Entries(v')
    requires IsNewest(extra + Entries(v'), u, s, x) && Payload(x) != None
    ensures Resurfaces(v, c, extra, input, snap, base, s, i, x)
  {
    hide Sorted, Produced, Replaced, LevelsOrdered, Picked, DeeperKnown, BaseLevelFor;
    var e := input[i];
    assert x.u == e.u && x.seqno < e.seqno by {
      assert x in extra + Entries(v);
      assert x != e;
    }
    assert e in Entries(v) by { InputInVersion(v, c, input, snap, base, outputs, i); }
    assert x !in extra;
    var f := OlderIsLeftOut(v, c, input, snap, base, outputs, v', i, x);
    forall y | LeftOutBelow(v, c, e, y)
      ensures y.seqno <= x.seqno
    {
      LeftOutStays(v, c, outputs, v', e, y);
    }
  }

  lemma InputInVersion(v: Version, c: Inputs, input: seq<Entry>, snap: SequenceNumber, base: Version,
                       outputs: seq<File>, i: nat)
    requires Picked(v, c) && Produced(c, input, snap, base, outputs) && i < |input|
    ensures InVersion(v, input[i])
  {
    hide Sorted, OlderClosed, TakesOverlap, IsSmallest, IsLargest;
    var e := input[i];
    assert e in input;
    assert InFiles(v[c.level], e) || InFiles(v[c.level + 1], e);
  }

  lemma LeftOutStays(v: Version, c: Inputs, outputs: seq<File>, v': Version, e: Entry, y: Entry)
    requires c.level + 1 < NUM_LEVELS && Replaced(v, c, outputs, v') && LeftOutBelow(v, c, e, y)
    ensures InVersion(v', y) && y.u == e.u && y.seqno < e.seqno
  {
    hide Sorted, StrictlyOrdered;
    var f :| f in v[c.level + 1] && f !in c.in1 && y in f.entries;
    assert InFiles(v'[c.level + 1], y);
  }

  /** If a value resurfaces for a reader, the reader sees it where it saw nothing. */
  lemma ResurfacingChangesView(v: Version, c: Inputs, extra: iset<Entry>, input: seq<Entry>, snap: SequenceNumber,
                               base: Version, outputs: seq<File>, v': Version, s: nat, i: nat, x: Entry)
    requires c.level + 1 < NUM_LEVELS && VersionInv(v) && JobOk(v, c, base) && Above(extra, v)
    requires Produced(c, input, snap, base, outputs) && Replaced(v, c, outputs, v')
    requires snap <= s && Resurfaces(v, c, extra, input, snap, base, s, i, x)
    ensures View(extra + Entries(v), x.u, s) == None && View(extra + Entries(v'), x.u, s) == Some(x.kind.value)
  {
    hide Sorted, Produced, Replaced, VersionInv, JobOk, BaseLevelFor, LeftOutBelow, InVersion, LevelsOrdered, Picked;
    var all, kept := extra + Entries(v), extra + Entries(v');
    assert LevelsOrdered(v) && Picked(v, c) by { Unpack(v, c, base); }
    EntriesOfReplaced(v, c, input, snap, base, outputs, v');
    var e := input[i];
    InputInVersion(v, c, input, snap, base, outputs, i);
    assert x.u == e.u && x.seqno < e.seqno && InVersion(v', x) by { LeftOutStays(v, c, outputs, v', e, x); }
    assert IsNewest(all, e.u, s, e);
    assert e !in kept by { TombstoneGone(v, c, extra, input, snap, base, outputs, v', i); }
    forall y | y in kept && y.u == x.u && y.seqno < e.seqno
      ensures y.seqno <= x.seqno
    {
      assert y !in extra;
      OlderBelow(v, c, input, snap, base, outputs, v', i, y);
    }
    RemovedTombstone(all, kept, x.u, s, e, x);
  }

  lemma Unpack(v: Version, c: Inputs, base: Version)
    requires VersionInv(v) && JobOk(v, c, base)
    ensures LevelsOrdered(v) && Picked(v, c)
  {
  }

  lemma OlderBelow(v: Version, c: Inputs, input: seq<Entry>, snap: SequenceNumber, base: Version, outputs: seq<File>,
                   v': Version, i: nat, y: Entry)
    requires c.level + 1 < NUM_LEVELS && LevelsOrdered(v) && JobOk(v, c, base)
    requires Produced(c, input, snap, base, outputs) && Replaced(v, c, outputs, v')
    requires i < |input| && Obsolete(input, i, snap, base, c.level)
    requires InVersion(v', y) && y.u == input[i].u && y.seqno < input[i].seqno
    ensures LeftOutBelow(v, c, input[i], y)
  {
    hide Sorted, Produced, Replaced, LevelsOrdered, JobOk, Obsolete;
    var f := OlderIsLeftOut(v, c, input, snap, base, outputs, v', i, y);
  }

  /** An obsolete tombstone is nowhere left in the database. */
  lemma TombstoneGone(v: Version, c: Inputs, extra: iset<Entry>, input: seq<Entry>, snap: SequenceNumber, base: Version,
                      outputs: seq<File>, v': Version, i: nat)
    requires c.level + 1 < NUM_LEVELS && VersionInv(v) && JobOk(v, c, base) && Above(extra, v)
    requires Produced(c, input, snap, base, outputs) && Replaced(v, c, outputs, v')
    requires i < |input| && Obsolete(input, i, snap, base, c.level)
    ensures input[i] !in extra + Entries(v')
  {
    hide Sorted, Replaced, LevelsOrdered, NumberOrdered, NumbersUnique, LevelSorted, StrictlyOrdered, Picked,
         BaseLevelFor, DeeperKnown;
    var e := input[i];
    InputInVersion(v, c, input, snap, base, outputs, i);
    assert e in input;
    if InVersion(v', e) {
      if InFiles(outputs, e) {
        DroppedNotOutput(c, input, snap, base, outputs, i);
      }
      var l, f := UntouchedEntry(v, c, outputs, v', e);
      NotShared(v, c, base, l, f, e);
    }
  }

  lemma DroppedNotOutput(c: Inputs, input: seq<Entry>, snap: SequenceNumber, base: Version, outputs: seq<File>, i: nat)
    requires Produced(c, input, snap, base, outputs) && i < |input| && Dropped(input, i, snap, base, c.level)
    ensures !InFiles(outputs, input[i])
  {
    hide Dropped;
    if InFiles(outputs, input[i]) {
      OutputEntry(c, input, snap, base, outputs, input[i]);
      var j :| 0 <= j < |input| && input[j] == input[i] && !Dropped(input, j, snap, base, c.level);
      SortedDistinct(input, i, j);
    }
  }

  lemma SortedDistinct(es: seq<Entry>, i: nat, j: nat)
    requires Sorted(es) && i < |es| && j < |es| && es[i] == es[j]
    ensures i == j
  {
  }

  lemma NotShared(v: Version, c: Inputs, base: Version, l: nat, f: File, e: Entry)
    requires VersionInv(v) && Picked(v, c) && DeeperKnown(v, c, base) && BaseLevelFor(base, c.level, e.u)
    requires InFiles(c.in0, e) || InFiles(c.in1, e)
    requires l < NUM_LEVELS && f in v[l] && (l == c.level ==> f !in c.in0) && (l == c.level + 1 ==> f !in c.in1)
    ensures e !in f.entries
  {
    hide Sorted, LevelsOrdered, NumberOrdered, NumbersUnique, LevelSorted, StrictlyOrdered, DeeperKnown, BaseLevelFor,
         OlderClosed, TakesOverlap, IsSmallest, IsLargest;
    if e in f.entries {
      if l <= c.level {
        ShallowerNewerThanInput(v, c, f, l, e, e);
      } else if l >= c.level + 2 {
        DeeperHasNothing(v, c, base, l, f, e, e);
      } else if InFiles(c.in0, e) {
        LeftOutSide(v, c, f);
      } else {
        var g :| g in c.in1 && e in g.entries;
        SortedApart(v[l], f, g);
        WithinFile(f, e);
        WithinFile(g, e);
      }
    }
  }

  /** The view of a key at or above the oldest snapshot survives the compaction exactly when no covered value of that
      key resurfaces there; otherwise a value is seen where there was none. */
  lemma CompactionPreservesViews(v: Version, c: Inputs, extra: iset<Entry>, input: seq<Entry>, snap: SequenceNumber,
                                 base: Version, outputs: seq<File>, v': Version, u: UserKey, s: nat)
    requires c.level + 1 < NUM_LEVELS && VersionInv(v) && JobOk(v, c, base) && Above(extra, v) && snap <= s
    requires Produced(c, input, snap, base, outputs) && Replaced(v, c, outputs, v')
    ensures View(extra + Entries(v), u, s) == View(extra + Entries(v'), u, s)
            <==> !ComesBack(v, c, extra, input, snap, base, u, s)
    ensures ComesBack(v, c, extra, input, snap, base, u, s) ==>
      View(extra + Entries(v), u, s) == None && View(extra + Entries(v'), u, s) != None
  {
    hide Sorted, Produced, Replaced, VersionInv, JobOk, Above, Resurfaces, View;
    if ComesBack(v, c, extra, input, snap, base, u, s) {
      var i: nat, x :| Resurfaces(v, c, extra, input, snap, base, s, i, x) && x.u == u;
      ResurfacingChangesView(v, c, extra, input, snap, base, outputs, v', s, i, x);
    } else if View(extra + Entries(v), u, s) != View(extra + Entries(v'), u, s) {
      assert LevelsOrdered(v) by { Unpack(v, c, base); }
      ViewChangeResurfaces(v, c, extra, input, snap, base, outputs, v', u, s);
    }
  }
}
