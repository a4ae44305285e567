/** The version edits of flushes, moves and compactions, and what the input choice does not protect against. */
module CompactionInstall {
  import opened InternalKeys
  import opened Lsm
  import opened Picking
  import opened Compactions
  import opened CompactionProof
  import opened VersionBuilder

  // ---------------------------------------------------------------------------------------------------------
  // Edits
  // ---------------------------------------------------------------------------------------------------------

  /** Logging an edit changes a level exactly by the files it removes and adds. */
  lemma EditChanges(v: Version, edit: Edit, v': Version, l: nat, removed: seq<File>, added: seq<File>)
    requires l < NUM_LEVELS
    requires forall f :: f in v[l] ==> (f in removed <==> (l, f.number) in edit.deleted)
    requires forall f :: f in added <==> (l, f) in edit.added
    requires forall f, g :: f in added && g in added && f.number == g.number ==> f == g
    requires forall f, g :: f in v[l] && g in added ==> f.number != g.number
    ensures SavedLevel(v[l], ApplyTo(NO_CHANGE, edit, l), v'[l]) <==> Changed(v, v', l, removed, added)
  {
    hide Sorted, StrictlyOrdered, InsertAll;
    var news := AddedAt(edit.added, l);
    AddedAtMembers(edit.added, l);
    assert StrictlyOrdered([]) by { OrderedEmpty(); }
    InsertAllMembers([], news);
    var ls := ApplyTo(NO_CHANGE, edit, l);
    forall f | f in v[l]
      ensures f.number in ls.deleted <==> f in removed
    {
      assert f.number !in NumbersOf(news);
    }
    forall f | f in added
      ensures f.number !in ls.deleted
    {
      assert f in news && f.number in NumbersOf(news);
    }
  }

  function Removals(level: nat, files: seq<File>): seq<(nat, nat)> {
    seq(|files|, i requires 0 <= i < |files| => (level, files[i].number))
  }

  function Additions(level: nat, files: seq<File>): seq<(nat, File)> {
    seq(|files|, i requires 0 <= i < |files| => (level, files[i]))
  }

  /** The edit that installs the results of a compaction. */
  function CompactionEdit(c: Inputs, outputs: seq<File>): Edit {
    Edit(Removals(c.level, c.in0) + Removals(c.level + 1, c.in1), Additions(c.level + 1, outputs))
  }

  lemma RemovalsMembers(level: nat, files: seq<File>, l: nat, n: nat)
    ensures (l, n) in Removals(level, files) <==> l == level && exists f :: f in files && f.number == n
  {
    hide Sorted;
    var r := Removals(level, files);
    if (l, n) in r {
      var i :| 0 <= i < |r| && r[i] == (l, n);
      assert files[i] in files;
    }
    if l == level && exists f :: f in files && f.number == n {
      var f :| f in files && f.number == n;
      var i :| 0 <= i < |files| && files[i] == f;
      assert r[i] == (l, n);
    }
  }

  lemma AdditionsMembers(level: nat, files: seq<File>, l: nat, f: File)
    ensures (l, f) in Additions(level, files) <==> l == level && f in files
  {
    hide Sorted;
    var r := Additions(level, files);
    if (l, f) in r {
      var i :| 0 <= i < |r| && r[i] == (l, f);
    }
    if l == level && f in files {
      var i :| 0 <= i < |files| && files[i] == f;
      assert r[i] == (l, f);
    }
  }

  /** Whether a compaction edit removes a file of the version: exactly the inputs are removed. */
  lemma EditRemoves(v: Version, c: Inputs, outputs: seq<File>, l: nat, f: File)
    requires NumbersUnique(v) && c.level + 1 < NUM_LEVELS && Subset(c.in0, v[c.level]) && Subset(c.in1, v[c.level + 1])
    requires l < NUM_LEVELS && f in v[l]
    ensures (l, f.number) in CompactionEdit(c, outputs).deleted
            <==> (l == c.level && f in c.in0) || (l == c.level + 1 && f in c.in1)
  {
    hide Sorted;
    RemovalsMembers(c.level, c.in0, l, f.number);
    RemovalsMembers(c.level + 1, c.in1, l, f.number);
    assert forall g :: g in c.in0 && g.number == f.number ==> g in v[c.level];
    assert forall g :: g in c.in1 && g.number == f.number ==> g in v[c.level + 1];
  }

  /** Logging the edit of a compaction replaces its inputs by its outputs. */
  lemma InstalledIsReplaced(v: Version, c: Inputs, outputs: seq<File>, v': Version)
    requires VersionInv(v) && c.level + 1 < NUM_LEVELS && Subset(c.in0, v[c.level]) && Subset(c.in1, v[c.level + 1])
    requires FreshNumbers(v, outputs) && Installed(v, CompactionEdit(c, outputs), v')
    ensures Replaced(v, c, outputs, v')
  {
    hide Sorted, LevelSorted, StrictlyOrdered, LevelsOrdered, NumberOrdered, Changed, CompactionEdit, SavedLevel,
         ApplyTo;
    var edit := CompactionEdit(c, outputs);
    forall l, f | 0 <= l < NUM_LEVELS && f in v[l]
      ensures (l, f.number) in edit.deleted <==> (l == c.level && f in c.in0) || (l == c.level + 1 && f in c.in1)
    {
      EditRemoves(v, c, outputs, l, f);
    }
    forall l, f
      ensures (l, f) in edit.added <==> l == c.level + 1 && f in outputs
    {
      EditAdds(c, outputs, l, f);
    }
    EditChanges(v, edit, v', c.level, c.in0, []);
    EditChanges(v, edit, v', c.level + 1, c.in1, outputs);
    forall l | 0 <= l < NUM_LEVELS && l != c.level && l != c.level + 1
      ensures v'[l] == v[l]
    {
      if l > 0 {
        SortedIsOrdered(v[l]);
      }
      EditChanges(v, edit, v', l, [], []);
      SameFiles(v, v', l);
    }
  }

  /** The other way round: replacing the inputs by the outputs is what logging the edit does. */
  lemma ReplacedIsInstalled(v: Version, c: Inputs, outputs: seq<File>, v': Version)
    requires VersionInv(v) && c.level + 1 < NUM_LEVELS && Subset(c.in0, v[c.level]) && Subset(c.in1, v[c.level + 1])
    requires forall f, g :: f in outputs && g in outputs && f.number == g.number ==> f == g
    requires forall f, g :: f in v[c.level + 1] && g in outputs ==> f.number != g.number
    requires Replaced(v, c, outputs, v')
    ensures Installed(v, CompactionEdit(c, outputs), v')
  {
    hide Sorted, LevelSorted, StrictlyOrdered, LevelsOrdered, NumberOrdered, Changed, CompactionEdit, SavedLevel,
         ApplyTo;
    var edit := CompactionEdit(c, outputs);
    forall l, f | 0 <= l < NUM_LEVELS && f in v[l]
      ensures (l, f.number) in edit.deleted <==> (l == c.level && f in c.in0) || (l == c.level + 1 && f in c.in1)
    {
      EditRemoves(v, c, outputs, l, f);
    }
    forall l, f
      ensures (l, f) in edit.added <==> l == c.level + 1 && f in outputs
    {
      EditAdds(c, outputs, l, f);
    }
    EditChanges(v, edit, v', c.level, c.in0, []);
    EditChanges(v, edit, v', c.level + 1, c.in1, outputs);
    forall l | 0 <= l < NUM_LEVELS && l != c.level && l != c.level + 1
      ensures SavedLevel(v[l], ApplyTo(NO_CHANGE, edit, l), v'[l])
    {
      if l > 0 {
        SortedIsOrdered(v[l]);
      }
      EditChanges(v, edit, v', l, [], []);
      NothingChanged(v, v', l);
    }
  }

  lemma NothingChanged(v: Version, v': Version, l: nat)
    requires l < NUM_LEVELS && StrictlyOrdered(v[l]) && v'[l] == v[l]
    ensures Changed(v, v', l, [], [])
  {
    hide Sorted, StrictlyOrdered;
  }

  lemma EditAdds(c: Inputs, outputs: seq<File>, l: nat, f: File)
    ensures (l, f) in CompactionEdit(c, outputs).added <==> l == c.level + 1 && f in outputs
  {
    AdditionsMembers(c.level + 1, outputs, l, f);
  }

  lemma SameFiles(v: Version, v': Version, l: nat)
    requires l < NUM_LEVELS && Changed(v, v', l, [], []) && StrictlyOrdered(v[l])
    ensures v'[l] == v[l]
  {
    hide Sorted;
    OrderedUnique(v'[l], v[l]);
  }

  // ---------------------------------------------------------------------------------------------------------
  // Level+1 is not closed under boundary files
  // ---------------------------------------------------------------------------------------------------------

  /** If no left-out file of level+1 starts with a user key that an input of level+1 ends with, no covered value
      can resurface. */
  lemma BoundaryClosedIsSafe(v: Version, c: Inputs, extra: iset<Entry>, input: seq<Entry>, snap: SequenceNumber,
                             base: Version, s: nat, i: nat, x: Entry)
    requires VersionInv(v) && Picked(v, c) && Merged(c, input)
    requires forall f, g :: f in v[c.level + 1] && f !in c.in1 && g in c.in1 ==> First(f).u != Last(g).u
    ensures !Resurfaces(v, c, extra, input, snap, base, s, i, x)
  {
    hide Sorted, LevelSorted, LevelsOrdered, NumberOrdered, NumbersUnique, StrictlyOrdered, OlderClosed, TakesOverlap,
         IsSmallest, IsLargest, BaseLevelFor;
    if i < |input| && LeftOutBelow(v, c, input[i], x) {
      var e := input[i];
      assert e in input;
      var f :| f in v[c.level + 1] && f !in c.in1 && x in f.entries;
      if InFiles(c.in0, e) {
        LeftOutSide(v, c, f);
      } else {
        var g :| g in c.in1 && e in g.entries;
        SortedApart(v[c.level + 1], f, g);
        WithinFile(f, x);
        WithinFile(g, e);
      }
    }
  }
}
