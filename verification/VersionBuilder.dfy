/** Applying version edits (VersionSet::Builder in db/version_set.cc). */
module VersionBuilder {
  import opened InternalKeys
  import opened Lsm

  /** Files to remove, by level and number, and files to add. */
  datatype Edit = Edit(deleted: seq<(nat, nat)>, added: seq<(nat, File)>)

  /** What an edit, or several, do to one level. */
  datatype LevelState = LevelState(deleted: set<nat>, added: seq<File>)

  const NO_CHANGE := LevelState({}, [])

  /** Insertion into the ordered set of added files; an equivalent file already present wins. */
  function InsertFile(fs: seq<File>, f: File): seq<File> {
    if fs == [] then [f]
    else if FileLess(f, fs[0]) then [f] + fs
    else if FileLess(fs[0], f) then [fs[0]] + InsertFile(fs[1..], f)
    else fs
  }

  ghost predicate Equivalent(f: File, g: File) {
    Smallest(f) == Smallest(g) && f.number == g.number
  }

  /** `f` has no equivalent in `fs`. */
  ghost predicate Unmatched(fs: seq<File>, f: File) {
    forall h :: h in fs ==> !Equivalent(f, h)
  }

  lemma {:induction false} InsertFileOrdered(fs: seq<File>, f: File)
    requires StrictlyOrdered(fs)
    ensures StrictlyOrdered(InsertFile(fs, f))
    ensures forall g :: g in InsertFile(fs, f) <==> g in fs || (g == f && Unmatched(fs, f))
  {
    hide Sorted;
    if fs == [] {
    } else if FileLess(f, fs[0]) {
    } else if FileLess(fs[0], f) {
      InsertFileOrdered(fs[1..], f);
      assert Unmatched(fs, f) <==> Unmatched(fs[1..], f);
      forall g | g in fs[1..]
        ensures FileLess(fs[0], g)
      {
      }
    } else {
      assert Equivalent(f, fs[0]);
    }
  }

  /** The files an edit adds at level `l`, in the order given. */
  function AddedAt(added: seq<(nat, File)>, l: nat): seq<File> {
    if added == [] then
      []
    else
      var n := |added| - 1;
      AddedAt(added[..n], l) + (if added[n].0 == l then [added[n].1] else [])
  }

  function NumbersAt(deleted: seq<(nat, nat)>, l: nat): set<nat> {
    set p | p in deleted && p.0 == l :: p.1
  }

  function NumbersOf(fs: seq<File>): set<nat> {
    set f | f in fs :: f.number
  }

  function InsertAll(fs: seq<File>, more: seq<File>): seq<File> {
    if more == [] then fs else InsertFile(InsertAll(fs, more[..|more| - 1]), more[|more| - 1])
  }

  /** One edit on top of the changes collected so far: deletions first, then additions, which cancel deletions. */
  function ApplyTo(ls: LevelState, edit: Edit, l: nat): LevelState {
    AddFiles(LevelState(ls.deleted + NumbersAt(edit.deleted, l), ls.added), AddedAt(edit.added, l))
  }

  function AddFiles(ls: LevelState, news: seq<File>): LevelState {
    LevelState(ls.deleted - NumbersOf(news), InsertAll(ls.added, news))
  }

  lemma AddFilesStep(ls: LevelState, news: seq<File>, f: File)
    ensures AddFiles(ls, news + [f])
         == LevelState(AddFiles(ls, news).deleted - {f.number}, InsertFile(AddFiles(ls, news).added, f))
  {
    assert (news + [f])[..|news|] == news;
  }

  ghost predicate KeptFile(base: seq<File>, ls: LevelState, f: File) {
    (f in base || f in ls.added) && f.number !in ls.deleted
  }

  /** `r` is the level that results from the changes `ls` to `base`. */
  ghost predicate SavedLevel(base: seq<File>, ls: LevelState, r: seq<File>) {
    StrictlyOrdered(r) && forall f :: f in r <==> KeptFile(base, ls, f)
  }

  /** No file that stays shares its number with an added one. */
  ghost predicate NoClash(base: seq<File>, ls: LevelState) {
    forall f, g :: f in base && g in ls.added && f.number == g.number ==> f.number in ls.deleted
  }

  class Builder {
    const base: Version
    var levels: seq<LevelState>

    ghost predicate Valid()
      reads this
    {
      |levels| == NUM_LEVELS && forall l :: 0 <= l < NUM_LEVELS ==> StrictlyOrdered(levels[l].added)
    }

    constructor (base: Version)
      ensures Valid() && this.base == base
      ensures forall l :: 0 <= l < NUM_LEVELS ==> levels[l] == NO_CHANGE
    {
      this.base := base;
      levels := seq(NUM_LEVELS, _ => NO_CHANGE);
    }

    method Apply(edit: Edit)
      requires Valid()
      requires forall p :: p in edit.deleted ==> p.0 < NUM_LEVELS
      requires forall p :: p in edit.added ==> p.0 < NUM_LEVELS
      modifies this
      ensures Valid()
      ensures forall l :: 0 <= l < NUM_LEVELS ==> levels[l] == ApplyTo(old(levels)[l], edit, l)
    {
      hide Sorted, StrictlyOrdered, AddFiles, AddedAt;
      var i := 0;
      while i < |edit.deleted|
        invariant 0 <= i <= |edit.deleted| && Valid()
        invariant forall l :: 0 <= l < NUM_LEVELS ==>
          levels[l] == LevelState(old(levels)[l].deleted + NumbersAt(edit.deleted[..i], l), old(levels)[l].added)
      {
        var (level, number) := edit.deleted[i];
        levels := levels[level := levels[level].(deleted := levels[level].deleted + {number})];
        assert edit.deleted[..i + 1] == edit.deleted[..i] + [(level, number)];
        i := i + 1;
      }
      assert edit.deleted[..i] == edit.deleted;
      AddNothing(levels);
      ghost var afterDeletes := levels;
      i := 0;
      while i < |edit.added|
        invariant 0 <= i <= |edit.added| && Valid()
        invariant forall l :: 0 <= l < NUM_LEVELS ==>
          levels[l] == AddFiles(afterDeletes[l], AddedAt(edit.added[..i], l))
      {
        var (level, f) := edit.added[i];
        InsertFileOrdered(levels[level].added, f);
        AddFilesStep(afterDeletes[level], AddedAt(edit.added[..i], level), f);
        levels := levels[level := LevelState(levels[level].deleted - {f.number}, InsertFile(levels[level].added, f))];
        AddedAtStep(edit.added, i);
        i := i + 1;
      }
      assert edit.added[..i] == edit.added;
    }

    /** Merges the remaining files of the base with the added ones, level by level. */
    method SaveTo() returns (v: Version)
      requires Valid()
      requires forall l :: 0 <= l < NUM_LEVELS ==> StrictlyOrdered(base[l]) && NoClash(base[l], levels[l])
      ensures forall l :: 0 <= l < NUM_LEVELS ==> SavedLevel(base[l], levels[l], v[l])
    {
      hide Sorted, StrictlyOrdered, NoClash;
      var out: seq<seq<File>> := [];
      var l := 0;
      while l < NUM_LEVELS
        invariant 0 <= l <= NUM_LEVELS && |out| == l
        invariant forall k :: 0 <= k < l ==> SavedLevel(base[k], levels[k], out[k])
      {
        var r := SaveLevel(base[l], levels[l]);
        out := out + [r];
        l := l + 1;
      }
      v := out;
    }
  }

  lemma AddNothing(levels: seq<LevelState>)
    ensures forall l, added: seq<(nat, File)> :: 0 <= l < |levels| && added == [] ==>
      AddFiles(levels[l], AddedAt(added, l)) == levels[l]
  {
  }

  lemma AddedAtStep(added: seq<(nat, File)>, i: nat)
    requires i < |added|
    ensures AddedAt(added[..i + 1], added[i].0) == AddedAt(added[..i], added[i].0) + [added[i].1]
    ensures forall l :: l != added[i].0 ==> AddedAt(added[..i + 1], l) == AddedAt(added[..i], l)
  {
    assert added[..i + 1][..i] == added[..i];
  }

  /** What has been merged of the first `b` base files and the first `i` added ones. */
  ghost predicate Merging(base: seq<File>, ls: LevelState, r: seq<File>, b: nat, i: nat)
    requires b <= |base| && i <= |ls.added|
  {
    && StrictlyOrdered(r)
    && (forall f :: f in r <==> (f in base[..b] || f in ls.added[..i]) && f.number !in ls.deleted)
    && (forall f, k :: f in r && b <= k < |base| && base[k].number !in ls.deleted ==> FileLess(f, base[k]))
    && (forall f, k :: f in r && i <= k < |ls.added| ==> FileLess(f, ls.added[k]))
  }

  lemma TakeBase(base: seq<File>, ls: LevelState, r: seq<File>, b: nat, i: nat)
    requires StrictlyOrdered(base) && StrictlyOrdered(ls.added) && NoClash(base, ls)
    requires b < |base| && i <= |ls.added| && Merging(base, ls, r, b, i)
      && (i < |ls.added| ==> !FileLess(ls.added[i], base[b]))
    ensures Merging(base, ls, if base[b].number in ls.deleted then r else r + [base[b]], b + 1, i)
  {
    hide Sorted;
    assert base[..b + 1] == base[..b] + [base[b]];
  }

  lemma TakeAdded(base: seq<File>, ls: LevelState, r: seq<File>, b: nat, i: nat)
    requires StrictlyOrdered(base) && StrictlyOrdered(ls.added)
    requires b <= |base| && i < |ls.added| && Merging(base, ls, r, b, i)
      && (b < |base| ==> FileLess(ls.added[i], base[b]))
    ensures Merging(base, ls, if ls.added[i].number in ls.deleted then r else r + [ls.added[i]], b, i + 1)
  {
    hide Sorted;
    assert ls.added[..i + 1] == ls.added[..i] + [ls.added[i]];
  }

  method SaveLevel(base: seq<File>, ls: LevelState) returns (r: seq<File>)
    requires StrictlyOrdered(base) && StrictlyOrdered(ls.added) && NoClash(base, ls)
    ensures SavedLevel(base, ls, r)
  {
    hide Sorted, StrictlyOrdered, NoClash, FileLess;
    r := [];
    var b, i := 0, 0;
    assert Merging(base, ls, r, b, i) by { OrderedEmpty(); }
    while i < |ls.added|
      invariant 0 <= i <= |ls.added| && 0 <= b <= |base| && Merging(base, ls, r, b, i)
    {
      var f := ls.added[i];
      while b < |base| && !FileLess(f, base[b])
        invariant 0 <= b <= |base| && Merging(base, ls, r, b, i)
      {
        TakeBase(base, ls, r, b, i);
        if base[b].number !in ls.deleted {
          r := r + [base[b]];
        }
        b := b + 1;
      }
      TakeAdded(base, ls, r, b, i);
      if f.number !in ls.deleted {
        r := r + [f];
      }
      i := i + 1;
    }
    while b < |base|
      invariant 0 <= b <= |base| && Merging(base, ls, r, b, i)
    {
      TakeBase(base, ls, r, b, i);
      if base[b].number !in ls.deleted {
        r := r + [base[b]];
      }
      b := b + 1;
    }
    assert base[..b] == base && ls.added[..i] == ls.added;
  }

  // ---------------------------------------------------------------------------------------------------------
  // Replaying a manifest
  // ---------------------------------------------------------------------------------------------------------

  const EMPTY_VERSION: Version := [[], [], [], [], [], [], []]

  /** One edit applied to a live version, as when it is logged. */
  ghost predicate Installed(v: Version, edit: Edit, v': Version) {
    forall l :: 0 <= l < NUM_LEVELS ==> SavedLevel(v[l], ApplyTo(NO_CHANGE, edit, l), v'[l])
  }

  /** The versions the edits lead through, one by one, from the empty version. */
  ghost predicate Live(edits: seq<Edit>, vs: seq<Version>) {
    && |vs| == |edits| + 1 && vs[0] == EMPTY_VERSION
    && forall k :: 0 <= k < |edits| ==> Installed(vs[k], edits[k], vs[k + 1])
  }

  /** The changes one builder collects from all edits. */
  function Collected(edits: seq<Edit>, l: nat): LevelState {
    if edits == [] then NO_CHANGE else ApplyTo(Collected(edits[..|edits| - 1], l), edits[|edits| - 1], l)
  }

  lemma {:induction false} AddedAtMembers(added: seq<(nat, File)>, l: nat)
    ensures forall f :: f in AddedAt(added, l) <==> (l, f) in added
  {
    if added != [] {
      var n := |added| - 1;
      AddedAtMembers(added[..n], l);
      assert added == added[..n] + [added[n]];
    }
  }

  lemma {:induction false} InsertAllMembers(fs: seq<File>, more: seq<File>)
    requires StrictlyOrdered(fs)
    requires forall f, g :: (f in fs || f in more) && (g in fs || g in more) && f.number == g.number ==> f == g
    ensures StrictlyOrdered(InsertAll(fs, more))
    ensures forall f :: f in InsertAll(fs, more) <==> f in fs || f in more
  {
    hide Sorted, StrictlyOrdered;
    if more != [] {
      var n := |more| - 1;
      assert more == more[..n] + [more[n]];
      InsertAllMembers(fs, more[..n]);
      InsertFileOrdered(InsertAll(fs, more[..n]), more[n]);
    }
  }

  lemma OrderedEmpty()
    ensures StrictlyOrdered([])
  {
  }

  lemma {:induction false} OrderedUnique(a: seq<File>, b: seq<File>)
    requires StrictlyOrdered(a) && StrictlyOrdered(b) && forall f :: f in a <==> f in b
    ensures a == b
  {
    hide Sorted;
    assert a != [] ==> a[0] in b;
    assert b != [] ==> b[0] in a;
    if a != [] && b != [] {
      assert a[0] == b[0];
      forall f | f in a[1..] ensures f in b[1..] { assert f in b && f != b[0]; }
      forall f | f in b[1..] ensures f in a[1..] { assert f in a && f != a[0]; }
      OrderedUnique(a[1..], b[1..]);
    }
  }

  // ---------------------------------------------------------------------------------------------------------
  // When replaying gives the live version
  // ---------------------------------------------------------------------------------------------------------

  /** The files one edit puts into a level: of equivalent ones, the first. */
  function News(edit: Edit, l: nat): seq<File> {
    InsertAll([], AddedAt(edit.added, l))
  }

  function NewNumbers(edit: Edit, l: nat): set<nat> {
    NumbersOf(AddedAt(edit.added, l))
  }

  /** The edit deletes number `n` at the level and does not add it. */
  ghost predicate Drops(edit: Edit, l: nat, n: nat) {
    n in NumbersAt(edit.deleted, l) && n !in NewNumbers(edit, l)
  }

  /** No edit from `k` on adds number `n`. */
  ghost predicate NotAddedFrom(edits: seq<Edit>, l: nat, n: nat, k: nat) {
    forall j :: k <= j < |edits| ==> n !in NewNumbers(edits[j], l)
  }

  ghost predicate NotDroppedFrom(edits: seq<Edit>, l: nat, n: nat, k: nat) {
    forall j :: k <= j < |edits| ==> !Drops(edits[j], l, n)
  }

  /** The last edit that touches number `n` at the level drops it. */
  ghost predicate Gone(edits: seq<Edit>, l: nat, n: nat) {
    exists k :: 0 <= k < |edits| && Drops(edits[k], l, n) && NotAddedFrom(edits, l, n, k + 1)
  }

  ghost predicate AddsAt(edits: seq<Edit>, l: nat, k: nat, f: File) {
    k < |edits| && f in News(edits[k], l)
  }

  /** No edit before `k` adds a file with the smallest key and number of `f`. */
  ghost predicate NewKind(edits: seq<Edit>, l: nat, k: nat, f: File) {
    forall j :: 0 <= j < k && j < |edits| ==> Unmatched(News(edits[j], l), f)
  }

  /** `f` was the first file with its smallest key and number to be added to the level. */
  ghost predicate FirstOfKind(edits: seq<Edit>, l: nat, f: File) {
    exists k: nat :: AddsAt(edits, l, k, f) && NewKind(edits, l, k, f)
  }

  /** `f` was added and not dropped since. */
  ghost predicate Stays(edits: seq<Edit>, l: nat, f: File) {
    exists k: nat :: AddsAt(edits, l, k, f) && NotDroppedFrom(edits, l, f.number, k + 1)
  }

  /** Edit `k` is the last one to add `f`. */
  ghost predicate LastAdded(edits: seq<Edit>, l: nat, k: nat, f: File) {
    AddsAt(edits, l, k, f) && forall j: nat :: k < j ==> !AddsAt(edits, l, j, f)
  }

  /** If the number of a file is dropped after the last addition of the file, it is dropped for good. */
  ghost predicate Replayable(edits: seq<Edit>, l: nat) {
    forall f, k: nat, j: nat ::
      FirstOfKind(edits, l, f) && LastAdded(edits, l, k, f) && k < j < |edits| && Drops(edits[j], l, f.number) ==>
        Gone(edits, l, f.number)
  }

  lemma {:induction false} InsertAllOrdered(fs: seq<File>, more: seq<File>)
    requires StrictlyOrdered(fs)
    ensures StrictlyOrdered(InsertAll(fs, more))
    ensures forall f :: f in fs ==> f in InsertAll(fs, more)
    ensures forall f :: f in InsertAll(fs, more) ==> f in fs || f in more
    ensures forall f :: f in more ==> !Unmatched(InsertAll(fs, more), f)
  {
    hide Sorted, StrictlyOrdered;
    if more != [] {
      var n := |more| - 1;
      assert more == more[..n] + [more[n]];
      InsertAllOrdered(fs, more[..n]);
      InsertFileOrdered(InsertAll(fs, more[..n]), more[n]);
    }
  }

  /** Inserting into a set that is not empty: what is new there, and has no equivalent. */
  lemma {:induction false} InsertAllFrom(fs: seq<File>, more: seq<File>)
    requires StrictlyOrdered(fs)
    ensures forall f :: f in InsertAll(fs, more) <==> f in fs || (f in InsertAll([], more) && Unmatched(fs, f))
  {
    hide Sorted, StrictlyOrdered;
    if more != [] {
      var n := |more| - 1;
      var x, y, g := InsertAll(fs, more[..n]), InsertAll([], more[..n]), more[n];
      OrderedEmpty();
      InsertAllFrom(fs, more[..n]);
      InsertAllOrdered(fs, more[..n]);
      InsertAllOrdered([], more[..n]);
      InsertFileOrdered(x, g);
      InsertFileOrdered(y, g);
      if Unmatched(fs, g) {
        assert Unmatched(x, g) <==> Unmatched(y, g);
      }
    }
  }

  lemma NewsOf(edit: Edit, l: nat)
    ensures StrictlyOrdered(News(edit, l)) && forall f :: f in News(edit, l) ==> f.number in NewNumbers(edit, l)
    ensures ApplyTo(NO_CHANGE, edit, l) == LevelState(NumbersAt(edit.deleted, l) - NewNumbers(edit, l), News(edit, l))
  {
    hide Sorted, StrictlyOrdered;
    OrderedEmpty();
    InsertAllOrdered([], AddedAt(edit.added, l));
  }

  /** The files of a live level are those that were added and not dropped since. */
  lemma {:induction false} LiveMembers(edits: seq<Edit>, vs: seq<Version>, l: nat)
    requires Live(edits, vs) && l < NUM_LEVELS
    ensures StrictlyOrdered(vs[|edits|][l])
    ensures forall f :: f in vs[|edits|][l] <==> Stays(edits, l, f)
  {
    hide Sorted, StrictlyOrdered, ApplyTo, News, NewNumbers;
    if edits == [] {
      OrderedEmpty();
    } else {
      var n := |edits| - 1;
      var before, e := edits[..n], edits[n];
      LiveMembers(before, vs[..n + 1], l);
      NewsOf(e, l);
      assert Installed(vs[n], e, vs[n + 1]);
      forall f
        ensures Stays(edits, l, f) <==> (Stays(before, l, f) || f in News(e, l)) && !Drops(e, l, f.number)
      {
        StaysStep(before, e, l, f);
        assert before + [e] == edits;
      }
    }
  }

  lemma StaysStep(before: seq<Edit>, e: Edit, l: nat, f: File)
    ensures Stays(before + [e], l, f) <==> (Stays(before, l, f) || f in News(e, l)) && !Drops(e, l, f.number)
  {
    hide News, NewNumbers, Drops;
    var edits, n := before + [e], |before|;
    NewsOf(e, l);
    if Stays(edits, l, f) {
      var k: nat :| AddsAt(edits, l, k, f) && NotDroppedFrom(edits, l, f.number, k + 1);
      if k < n {
        forall j | k + 1 <= j < n ensures !Drops(before[j], l, f.number) { assert before[j] == edits[j]; }
        assert AddsAt(before, l, k, f) && NotDroppedFrom(before, l, f.number, k + 1);
        assert !Drops(edits[n], l, f.number);
      } else {
        assert !Drops(e, l, f.number) by { AddedNotDropped(e, l, f); }
      }
    }
    if Stays(before, l, f) && !Drops(e, l, f.number) {
      var k: nat :| AddsAt(before, l, k, f) && NotDroppedFrom(before, l, f.number, k + 1);
      assert AddsAt(edits, l, k, f) && NotDroppedFrom(edits, l, f.number, k + 1);
    }
    if f in News(e, l) {
      assert AddsAt(edits, l, n, f) && NotDroppedFrom(edits, l, f.number, n + 1);
    }
  }

  lemma AddedNotDropped(e: Edit, l: nat, f: File)
    requires f in News(e, l)
    ensures !Drops(e, l, f.number)
  {
    hide News, NewNumbers;
    NewsOf(e, l);
  }

  /** The numbers collected as deleted are those that were dropped for good. */
  lemma {:induction false} CollectedDeleted(edits: seq<Edit>, l: nat, n: nat)
    ensures n in Collected(edits, l).deleted <==> Gone(edits, l, n)
  {
    hide NumbersAt, InsertAll;
    if edits != [] {
      var m := |edits| - 1;
      var before, e := edits[..m], edits[m];
      CollectedDeleted(before, l, n);
      assert edits == before + [e];
      if Gone(before, l, n) && n !in NewNumbers(e, l) {
        var k :| 0 <= k < |before| && Drops(before[k], l, n) && NotAddedFrom(before, l, n, k + 1);
        assert Drops(edits[k], l, n) && NotAddedFrom(edits, l, n, k + 1);
      }
      if Drops(e, l, n) {
        assert Drops(edits[m], l, n) && NotAddedFrom(edits, l, n, m + 1);
      }
      if Gone(edits, l, n) && !Drops(e, l, n) {
        var k :| 0 <= k < |edits| && Drops(edits[k], l, n) && NotAddedFrom(edits, l, n, k + 1);
        assert Drops(before[k], l, n) && NotAddedFrom(before, l, n, k + 1);
        assert n !in NewNumbers(edits[m], l);
      }
    }
  }

  /** The files collected as added are the first of their kind. */
  lemma {:induction false} CollectedAdded(edits: seq<Edit>, l: nat)
    ensures StrictlyOrdered(Collected(edits, l).added)
    ensures forall f :: f in Collected(edits, l).added <==> FirstOfKind(edits, l, f)
    ensures forall f :: Unmatched(Collected(edits, l).added, f) <==> NewKind(edits, l, |edits|, f)
  {
    hide Sorted, StrictlyOrdered, NumbersAt, InsertAll, News, Unmatched;
    if edits == [] {
      OrderedEmpty();
      NothingMatches();
    } else {
      var n := |edits| - 1;
      var before, e := edits[..n], edits[n];
      var fs := Collected(before, l).added;
      CollectedAdded(before, l);
      OrderedEmpty();
      var more := AddedAt(e.added, l);
      InsertAllOrdered(fs, more);
      assert forall f :: f in InsertAll(fs, more) <==> f in fs || (f in News(e, l) && Unmatched(fs, f)) by {
        InsertAllFrom(fs, more);
        NewsIs(e, l);
      }
      assert Collected(edits, l).added == InsertAll(fs, more);
      assert before + [e] == edits;
      forall f
        ensures FirstOfKind(edits, l, f) <==> FirstOfKind(before, l, f) || (f in News(e, l) && NewKind(before, l, n, f))
        ensures NewKind(edits, l, n + 1, f) <==> NewKind(before, l, n, f) && Unmatched(News(e, l), f)
        ensures Unmatched(InsertAll(fs, more), f) <==> Unmatched(fs, f) && Unmatched(News(e, l), f)
      {
        KindStep(before, e, l, f);
        MatchStep(fs, InsertAll(fs, more), News(e, l), f);
      }
    }
  }

  lemma NewsIs(edit: Edit, l: nat)
    ensures News(edit, l) == InsertAll([], AddedAt(edit.added, l))
  {
    hide InsertAll, AddedAt;
  }

  lemma NothingMatches()
    ensures forall f :: Unmatched([], f)
  {
  }

  lemma MatchStep(fs: seq<File>, all: seq<File>, news: seq<File>, f: File)
    requires forall g :: g in all <==> g in fs || (g in news && Unmatched(fs, g))
    ensures Unmatched(all, f) <==> Unmatched(fs, f) && Unmatched(news, f)
  {
    hide Sorted;
    forall h | h in news && Equivalent(f, h)
      ensures !Unmatched(all, f)
    {
      assert Unmatched(fs, h) <==> Unmatched(fs, f);
    }
  }

  lemma KindStep(before: seq<Edit>, e: Edit, l: nat, f: File)
    ensures var edits, n := before + [e], |before|;
      && (FirstOfKind(edits, l, f) <==> FirstOfKind(before, l, f) || (f in News(e, l) && NewKind(before, l, n, f)))
      && (NewKind(edits, l, n + 1, f) <==> NewKind(before, l, n, f) && Unmatched(News(e, l), f))
  {
    hide News, Unmatched;
    var edits, n := before + [e], |before|;
    assert edits[..n] == before;
    forall k: nat | k <= n
      ensures NewKind(edits, l, k, f) <==> NewKind(before, l, k, f)
    {
      assert forall j :: 0 <= j < k ==> edits[j] == before[j];
    }
    if FirstOfKind(before, l, f) {
      var k: nat :| AddsAt(before, l, k, f) && NewKind(before, l, k, f);
      assert AddsAt(edits, l, k, f) && NewKind(edits, l, k, f);
    }
    if f in News(e, l) && NewKind(before, l, n, f) {
      assert AddsAt(edits, l, n, f) && NewKind(edits, l, n, f);
    }
    if FirstOfKind(edits, l, f) {
      var k: nat :| AddsAt(edits, l, k, f) && NewKind(edits, l, k, f);
      assert k < n ==> AddsAt(before, l, k, f) && NewKind(before, l, k, f);
    }
    assert edits[n] == e;
  }

  lemma {:induction false} FindLastAdded(edits: seq<Edit>, l: nat, k: nat, f: File) returns (i: nat)
    requires AddsAt(edits, l, k, f)
    ensures LastAdded(edits, l, i, f)
    decreases |edits| - k
  {
    hide News;
    if j: nat :| k < j && AddsAt(edits, l, j, f) {
      i := FindLastAdded(edits, l, j, f);
    } else {
      i := k;
    }
  }

  lemma StaysNotGone(edits: seq<Edit>, l: nat, f: File)
    requires Stays(edits, l, f)
    ensures !Gone(edits, l, f.number)
  {
    hide News, NewNumbers;
    var i: nat :| AddsAt(edits, l, i, f) && NotDroppedFrom(edits, l, f.number, i + 1);
    NewsOf(edits[i], l);
  }

  lemma FirstStays(edits: seq<Edit>, l: nat, f: File)
    requires Replayable(edits, l) && FirstOfKind(edits, l, f) && !Gone(edits, l, f.number)
    ensures Stays(edits, l, f)
  {
    hide News, NewNumbers, Drops, NewKind, Gone;
    var k: nat :| AddsAt(edits, l, k, f) && NewKind(edits, l, k, f);
    var i := FindLastAdded(edits, l, k, f);
    assert NotDroppedFrom(edits, l, f.number, i + 1);
  }

  /** Collecting all edits gives the live level exactly when no file is dropped and its number then given to another
      without the file being added again. */
  lemma ReplayExact(edits: seq<Edit>, vs: seq<Version>, l: nat)
    requires Live(edits, vs) && l < NUM_LEVELS
    ensures SavedLevel([], Collected(edits, l), vs[|edits|][l]) <==> Replayable(edits, l)
  {
    hide Sorted, StrictlyOrdered, Collected, News, NewNumbers, Drops, Stays, FirstOfKind, Gone, Unmatched;
    var live := vs[|edits|][l];
    LiveMembers(edits, vs, l);
    hide Live;
    CollectedAdded(edits, l);
    forall n ensures n in Collected(edits, l).deleted <==> Gone(edits, l, n) { CollectedDeleted(edits, l, n); }
    if Replayable(edits, l) {
      forall f
        ensures f in live <==> KeptFile([], Collected(edits, l), f)
      {
        if Stays(edits, l, f) {
          StaysNotGone(edits, l, f);
          StaysFirst(edits, l, live, f);
        } else if FirstOfKind(edits, l, f) && !Gone(edits, l, f.number) {
          FirstStays(edits, l, f);
        }
      }
    }
    if SavedLevel([], Collected(edits, l), live) {
      forall f, k: nat, j: nat | FirstOfKind(edits, l, f) && LastAdded(edits, l, k, f) && k < j < |edits|
        && Drops(edits[j], l, f.number)
        ensures Gone(edits, l, f.number)
      {
        NotStaying(edits, l, k, j, f);
        assert !KeptFile([], Collected(edits, l), f);
      }
    }
  }

  lemma NotStaying(edits: seq<Edit>, l: nat, k: nat, j: nat, f: File)
    requires LastAdded(edits, l, k, f) && k < j < |edits| && Drops(edits[j], l, f.number)
    ensures !Stays(edits, l, f)
  {
    hide News, Drops;
  }

  /** A live file was the first of its kind: the first one would be live too. */
  lemma StaysFirst(edits: seq<Edit>, l: nat, live: seq<File>, f: File)
    requires Replayable(edits, l) && Stays(edits, l, f) && StrictlyOrdered(live)
    requires forall g :: g in live <==> Stays(edits, l, g)
    ensures FirstOfKind(edits, l, f)
  {
    hide Sorted, News, NewNumbers, Drops, Gone, Replayable, Collected, NewKind, Stays, FirstOfKind, StrictlyOrdered;
    CollectedAdded(edits, l);
    assert !Unmatched(Collected(edits, l).added, f) by { StaysMatched(edits, l, f); }
    var h :| h in Collected(edits, l).added && Equivalent(f, h);
    StaysNotGone(edits, l, f);
    FirstStays(edits, l, h);
    OneOfKind(live, f, h);
  }

  lemma StaysMatched(edits: seq<Edit>, l: nat, f: File)
    requires Stays(edits, l, f)
    ensures !NewKind(edits, l, |edits|, f)
  {
    hide News;
    var k: nat :| AddsAt(edits, l, k, f) && NotDroppedFrom(edits, l, f.number, k + 1);
    assert Equivalent(f, f);
  }

  lemma OneOfKind(fs: seq<File>, f: File, h: File)
    requires StrictlyOrdered(fs) && f in fs && h in fs && Equivalent(f, h)
    ensures f == h
  {
    hide Sorted;
  }

  /** Recovery applies every edit of the manifest to one builder; the version it saves is the live one exactly when
      every level can be replayed. */
  method Recover(edits: seq<Edit>, ghost vs: seq<Version>) returns (v: Version)
    requires |vs| == |edits| + 1 && Live(edits, vs)
    requires forall e, p :: e in edits && p in e.deleted ==> p.0 < NUM_LEVELS
    requires forall e, p :: e in edits && p in e.added ==> p.0 < NUM_LEVELS
    ensures forall l :: 0 <= l < NUM_LEVELS ==> SavedLevel([], Collected(edits, l), v[l])
    ensures forall l :: 0 <= l < NUM_LEVELS ==> (v[l] == vs[|edits|][l] <==> Replayable(edits, l))
  {
    hide Sorted, StrictlyOrdered, SavedLevel, ApplyTo, Live, Replayable;
    var builder := new Builder(EMPTY_VERSION);
    var i := 0;
    while i < |edits|
      invariant 0 <= i <= |edits| && builder.Valid() && builder.base == EMPTY_VERSION
      invariant forall l :: 0 <= l < NUM_LEVELS ==> builder.levels[l] == Collected(edits[..i], l)
    {
      assert edits[i] in edits;
      builder.Apply(edits[i]);
      assert edits[..i + 1][..i] == edits[..i];
      i := i + 1;
    }
    assert edits[..i] == edits;
    OrderedEmpty();
    v := builder.SaveTo();
    forall l | 0 <= l < NUM_LEVELS
      ensures SavedLevel([], Collected(edits, l), v[l]) && (v[l] == vs[|edits|][l] <==> Replayable(edits, l))
    {
      ReplayLevel(edits, vs, l, v[l]);
    }
  }

  lemma ReplayLevel(edits: seq<Edit>, vs: seq<Version>, l: nat, r: seq<File>)
    requires Live(edits, vs) && l < NUM_LEVELS && SavedLevel([], Collected(edits, l), r)
    ensures |vs| == |edits| + 1 && (r == vs[|edits|][l] <==> Replayable(edits, l))
  {
    hide Sorted, StrictlyOrdered, Replayable, KeptFile;
    ReplayExact(edits, vs, l);
    if Replayable(edits, l) {
      OrderedUnique(r, vs[|edits|][l]);
    }
  }

  /** A number that was dropped from the level is not added to it again. */
  ghost predicate NeverReadded(edits: seq<Edit>, l: nat) {
    forall k, n :: 0 <= k < |edits| && Drops(edits[k], l, n) ==> NotAddedFrom(edits, l, n, k + 1)
  }

  /** A file number stands for one file: numbers are never handed out twice and tables never change. */
  ghost predicate NumbersIdentify(edits: seq<Edit>, l: nat) {
    forall e, e', f, g ::
      e in edits && e' in edits && (l, f) in e.added && (l, g) in e'.added && f.number == g.number ==> f == g
  }

  lemma NeverReaddedReplays(edits: seq<Edit>, l: nat)
    requires NeverReadded(edits, l)
    ensures Replayable(edits, l)
  {
    hide News, NewNumbers, Drops, FirstOfKind, LastAdded;
  }

  lemma IdentityReplays(edits: seq<Edit>, l: nat)
    requires NumbersIdentify(edits, l)
    ensures Replayable(edits, l)
  {
    hide NumbersIdentify, News, NewNumbers, Drops, FirstOfKind;
    forall f, k: nat, j: nat | LastAdded(edits, l, k, f) && k < j < |edits| && Drops(edits[j], l, f.number)
      ensures Gone(edits, l, f.number)
    {
      forall m | j + 1 <= m < |edits|
        ensures f.number !in NewNumbers(edits[m], l)
      {
        if f.number in NewNumbers(edits[m], l) {
          SameFileAgain(edits, l, k, m, f);
        }
      }
      assert NotAddedFrom(edits, l, f.number, j + 1);
    }
  }

  lemma SameFileAgain(edits: seq<Edit>, l: nat, k: nat, m: nat, f: File)
    requires NumbersIdentify(edits, l) && AddsAt(edits, l, k, f) && m < |edits| && f.number in NewNumbers(edits[m], l)
    ensures AddsAt(edits, l, m, f)
  {
    hide Sorted, StrictlyOrdered;
    var more := AddedAt(edits[m].added, l);
    OrderedEmpty();
    AddedAtMembers(edits[k].added, l);
    AddedAtMembers(edits[m].added, l);
    InsertAllOrdered([], AddedAt(edits[k].added, l));
    InsertAllOrdered([], more);
    var g :| g in more && g.number == f.number;
    assert f == g;
    var h :| h in InsertAll([], more) && Equivalent(f, h);
    assert h == f;
  }

  lemma InsertOne(fs: seq<File>, f: File)
    ensures InsertAll(fs, [f]) == InsertFile(fs, f)
  {
    assert [f][..0] == [];
  }

  function OneFile(f: File): Version {
    [[], [f], [], [], [], [], []]
  }

  function AddEdit(f: File): Edit { Edit([], [(1, f)]) }

  function RemoveEdit(number: nat): Edit { Edit([(1, number)], []) }

  lemma ApplyAdd(ls: LevelState, f: File, l: nat)
    ensures ApplyTo(ls, AddEdit(f), l) == if l == 1 then LevelState(ls.deleted - {f.number}, InsertFile(ls.added, f))
      else ls
  {
    var added := [(1, f)];
    assert added[..0] == [] && AddEdit(f).added == added;
    assert AddedAt(added, l) == if l == 1 then [f] else [];
    assert NumbersAt([], l) == {};
    InsertOne(ls.added, f);
  }

  lemma ApplyRemove(ls: LevelState, number: nat, l: nat)
    ensures ApplyTo(ls, RemoveEdit(number), l) == if l == 1 then LevelState(ls.deleted + {number}, ls.added) else ls
  {
    assert AddedAt(RemoveEdit(number).added, l) == [];
  }

  lemma InstallOne(f: File)
    ensures Installed(EMPTY_VERSION, AddEdit(f), OneFile(f))
      && Installed(OneFile(f), RemoveEdit(f.number), EMPTY_VERSION)
  {
    hide Sorted, ApplyTo;
    forall l | 0 <= l < NUM_LEVELS
      ensures SavedLevel(EMPTY_VERSION[l], ApplyTo(NO_CHANGE, AddEdit(f), l), OneFile(f)[l])
      ensures SavedLevel(OneFile(f)[l], ApplyTo(NO_CHANGE, RemoveEdit(f.number), l), EMPTY_VERSION[l])
    {
      ApplyAdd(NO_CHANGE, f, l);
      ApplyRemove(NO_CHANGE, f.number, l);
    }
  }

  /** When a number is given to a second file after a deletion, the collected changes bring the first file back. */
  lemma ReplayNeedsIdentity()
    ensures exists edits, vs, f: File :: Live(edits, vs) && f !in vs[|edits|][1] && KeptFile([], Collected(edits, 1), f)
  {
    var f: File := FileData(5, 1, [Entry(1, 1, Deletion)]);
    var g: File := FileData(5, 1, [Entry(2, 2, Deletion)]);
    ReplayBringsBack(f, g);
  }

  lemma ReplayBringsBack(f: File, g: File)
    requires f.number == g.number && FileLess(f, g)
    ensures exists edits, vs :: Live(edits, vs) && f !in vs[|edits|][1] && KeptFile([], Collected(edits, 1), f)
  {
    hide Sorted, Installed, ApplyTo;
    InstallOne(f);
    InstallOne(g);
    var e1, e2, e3 := AddEdit(f), RemoveEdit(f.number), AddEdit(g);
    var edits, vs := [e1, e2, e3], [EMPTY_VERSION, OneFile(f), EMPTY_VERSION, OneFile(g)];
    assert Live(edits, vs);
    ThreeEdits(f, g);
    assert f in Collected(edits, 1).added;
  }

  lemma ThreeEdits(f: File, g: File)
    requires f.number == g.number && FileLess(f, g)
    ensures Collected([AddEdit(f), RemoveEdit(f.number), AddEdit(g)], 1) == LevelState({}, [f, g])
  {
    hide Sorted, ApplyTo, AddEdit, RemoveEdit, InsertFile, Collected;
    var e1, e2, e3 := AddEdit(f), RemoveEdit(f.number), AddEdit(g);
    CollectedStep([], e1);
    CollectedStep([e1], e2);
    CollectedStep([e1, e2], e3);
    assert [] + [e1] == [e1] && [e1] + [e2] == [e1, e2] && [e1, e2] + [e3] == [e1, e2, e3];
    Inserted(f, g);
    ApplyAdd(NO_CHANGE, f, 1);
    assert Collected([e1], 1) == LevelState({}, [f]);
    ApplyRemove(LevelState({}, [f]), f.number, 1);
    assert Collected([e1, e2], 1) == LevelState({f.number}, [f]);
    ApplyAdd(LevelState({f.number}, [f]), g, 1);
  }

  lemma Inserted(f: File, g: File)
    requires FileLess(f, g)
    ensures InsertFile([], f) == [f] && InsertFile([f], g) == [f, g]
  {
    hide Sorted;
    assert [f][1..] == [];
  }

  lemma CollectedStep(edits: seq<Edit>, e: Edit)
    ensures Collected(edits + [e], 1) == ApplyTo(Collected(edits, 1), e, 1)
    ensures Collected([], 1) == NO_CHANGE
  {
    hide ApplyTo;
    assert (edits + [e])[..|edits|] == edits;
  }
}
