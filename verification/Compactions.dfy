/** The compaction loop (Compaction in db/version_set.cc, DoCompactionWork in db/db_impl.cc). */
module Compactions {
  import opened InternalKeys
  import opened Views
  import opened Lsm
  import opened Picking

  // ---------------------------------------------------------------------------------------------------------
  // Which entries are dropped
  // ---------------------------------------------------------------------------------------------------------

  predicate Covers(f: File, u: UserKey) {
    First(f).u <= u <= Last(f).u
  }

  /** No file below the output level of a compaction of `level` can hold `u`. */
  ghost predicate BaseLevelFor(base: Version, level: nat, u: UserKey) {
    forall l, f :: level + 2 <= l < NUM_LEVELS && f in base[l] ==> !Covers(f, u)
  }

  /** Rule (A): the entry before has the same user key and is visible to every reader. */
  predicate Hidden(input: seq<Entry>, i: nat, snap: SequenceNumber)
    requires i < |input|
  {
    i > 0 && input[i - 1].u == input[i].u && input[i - 1].seqno <= snap
  }

  /** A deletion visible to every reader, with nothing below it. */
  ghost predicate Obsolete(input: seq<Entry>, i: nat, snap: SequenceNumber, base: Version, level: nat)
    requires i < |input|
  {
    input[i].kind.Deletion? && input[i].seqno <= snap && BaseLevelFor(base, level, input[i].u)
  }

  ghost predicate Dropped(input: seq<Entry>, i: nat, snap: SequenceNumber, base: Version, level: nat)
    requires i < |input|
  {
    Hidden(input, i, snap) || Obsolete(input, i, snap, base, level)
  }

  /** What is left of the first `n` entries of the merged input. */
  ghost function Kept(input: seq<Entry>, n: nat, snap: SequenceNumber, base: Version, level: nat): seq<Entry>
    requires n <= |input|
  {
    if n == 0 then
      []
    else
      Kept(input, n - 1, snap, base, level) + (if Dropped(input, n - 1, snap, base, level) then [] else [input[n - 1]])
  }

  lemma {:induction false} KeptMembers(input: seq<Entry>, n: nat, snap: SequenceNumber, base: Version, level: nat)
    requires n <= |input| && Sorted(input)
    ensures forall e :: e in Kept(input, n, snap, base, level)
                        <==> exists i :: 0 <= i < n && input[i] == e && !Dropped(input, i, snap, base, level)
    ensures Sorted(Kept(input, n, snap, base, level))
  {
    hide Dropped;
    if n > 0 {
      KeptMembers(input, n - 1, snap, base, level);
      var kept := Kept(input, n - 1, snap, base, level);
      forall e | e in kept
        ensures Precedes(e, input[n - 1])
      {
      }
      SortedSnoc(kept, input[n - 1]);
    }
  }

  /** No more is kept than has to be: of the entries of a key that every reader sees only the newest, and of these no
      deletion unless a deeper file may hold the key. */
  lemma KeptIsMinimal(input: seq<Entry>, snap: SequenceNumber, base: Version, level: nat, e: Entry, x: Entry)
    requires Sorted(input) && e in Kept(input, |input|, snap, base, level)
      && x in Kept(input, |input|, snap, base, level)
    ensures e.u == x.u && x.seqno < e.seqno ==> e.seqno > snap
    ensures e.kind.Deletion? && e.seqno <= snap ==>
      exists l, f :: level + 2 <= l < NUM_LEVELS && f in base[l] && First(f).u <= e.u <= Last(f).u
  {
    hide Kept;
    KeptMembers(input, |input|, snap, base, level);
    var i :| 0 <= i < |input| && input[i] == e && !Dropped(input, i, snap, base, level);
    var j :| 0 <= j < |input| && input[j] == x && !Dropped(input, j, snap, base, level);
    if e.u == x.u && x.seqno < e.seqno {
      assert i < j;
      assert input[j - 1].u == x.u && input[j - 1].seqno <= e.seqno by {
        assert i < j - 1 ==> Precedes(input[i], input[j - 1]);
        assert Precedes(input[j - 1], input[j]);
      }
    }
  }

  lemma SortedSnoc(es: seq<Entry>, e: Entry)
    requires Sorted(es) && forall x :: x in es ==> Precedes(x, e)
    ensures Sorted(es + [e])
  {
  }

  function Flatten(fs: seq<File>): seq<Entry> {
    if fs == [] then [] else Flatten(fs[..|fs| - 1]) + fs[|fs| - 1].entries
  }

  // ---------------------------------------------------------------------------------------------------------
  // Where outputs end
  // ---------------------------------------------------------------------------------------------------------

  /** How many of the grandparents, from the front, end before the key. */
  function Passed(grandparents: seq<File>, key: InternalKey): (n: nat)
    ensures n <= |grandparents|
  {
    if grandparents == [] || !KeyLess(Largest(grandparents[0]), key) then 0 else 1 + Passed(grandparents[1..], key)
  }

  /** The bytes of the grandparents that are passed between entry `i` and entry `j` of the input. */
  function BytesPassed(grandparents: seq<File>, input: seq<Entry>, i: nat, j: nat): nat
    requires i < |input| && j < |input|
  {
    var p, q := Passed(grandparents, KeyOf(input[i])), Passed(grandparents, KeyOf(input[j]));
    if p <= q then TotalFileSize(grandparents[p..q]) else 0
  }

  /** The last entry, up to entry `i`, before which an output has to end because more than `limit` bytes of grandparents
      were passed since the one before it; the first entry if there is none. */
  function LastStop(grandparents: seq<File>, input: seq<Entry>, limit: nat, i: nat): (r: nat)
    requires i < |input|
    ensures r <= i
  {
    if i == 0 then 0
    else
      var before := LastStop(grandparents, input, limit, i - 1);
      if BytesPassed(grandparents, input, before, i) > limit then i else before
  }

  /** An output has to end before entry `i`. */
  predicate IsStop(grandparents: seq<File>, input: seq<Entry>, limit: nat, i: nat) {
    0 < i < |input| && LastStop(grandparents, input, limit, i) == i
  }

  ghost predicate Straddles(f: File, e: Entry) {
    Precedes(First(f), e) && !Precedes(Last(f), e)
  }

  /** The entries end before `e`, and what begins with `next` does not. */
  ghost predicate Between(f: File, e: Entry, next: Entry) {
    Precedes(Last(f), e) && !Precedes(next, e)
  }

  /** No part of the entries that could have been an output was large enough. */
  ghost predicate Unfinished(es: seq<Entry>, fileSize: seq<Entry> -> nat, maxOutput: nat, n: nat)
    requires n <= |es|
  {
    forall m :: 0 < m <= n ==> fileSize(es[..m]) < maxOutput
  }

  /** The output ended where it did because of its size, or because of a stop before `next`. */
  ghost predicate EndedRightly(f: File, next: Entry, grandparents: seq<File>, input: seq<Entry>,
                               fileSize: seq<Entry> -> nat, maxOutput: nat, limit: nat)
  {
    || fileSize(f.entries) >= maxOutput
    || exists i: nat :: IsStop(grandparents, input, limit, i) && Between(f, input[i], next)
  }

  /** One output: it has its size, became large enough with its last entry at the earliest, and no stop is inside it. */
  ghost predicate GoodOutput(f: File, grandparents: seq<File>, input: seq<Entry>, fileSize: seq<Entry> -> nat,
                             maxOutput: nat, limit: nat)
  {
    && f.size == fileSize(f.entries) && Unfinished(f.entries, fileSize, maxOutput, |f.entries| - 1)
    && forall i: nat :: IsStop(grandparents, input, limit, i) ==> !Straddles(f, input[i])
  }

  ghost predicate WellCut(outputs: seq<File>, grandparents: seq<File>, input: seq<Entry>, fileSize: seq<Entry> -> nat,
                          maxOutput: nat, limit: nat)
  {
    && (forall k :: 0 <= k < |outputs| ==> GoodOutput(outputs[k], grandparents, input, fileSize, maxOutput, limit))
    && forall k :: 0 < k < |outputs| ==>
      EndedRightly(outputs[k - 1], First(outputs[k]), grandparents, input, fileSize, maxOutput, limit)
  }

  lemma {:induction false} PassedIs(grandparents: seq<File>, key: InternalKey, p: nat)
    requires p <= |grandparents| && forall i :: 0 <= i < p ==> KeyLess(Largest(grandparents[i]), key)
    requires p < |grandparents| ==> !KeyLess(Largest(grandparents[p]), key)
    ensures Passed(grandparents, key) == p
  {
    hide Sorted;
    if p > 0 {
      PassedIs(grandparents[1..], key, p - 1);
    }
  }

  lemma {:induction false} PassedLess(grandparents: seq<File>, key: InternalKey, i: nat)
    requires i < Passed(grandparents, key)
    ensures KeyLess(Largest(grandparents[i]), key)
  {
    hide Sorted;
    if i > 0 {
      PassedLess(grandparents[1..], key, i - 1);
    }
  }

  /** A cursor that was right for a key and goes on for a later key is right for that one. */
  lemma CursorIs(grandparents: seq<File>, key: InternalKey, key': InternalKey, p: nat)
    requires Passed(grandparents, key) <= p <= |grandparents| && (key == key' || KeyLess(key, key'))
    requires forall i :: Passed(grandparents, key) <= i < p ==> KeyLess(Largest(grandparents[i]), key')
    requires p < |grandparents| ==> !KeyLess(Largest(grandparents[p]), key')
    ensures Passed(grandparents, key') == p
  {
    hide Sorted;
    forall i | 0 <= i < p
      ensures KeyLess(Largest(grandparents[i]), key')
    {
      if i < Passed(grandparents, key) {
        PassedLess(grandparents, key, i);
      }
    }
    PassedIs(grandparents, key', p);
  }

  lemma {:induction false} TotalConcat(a: seq<File>, b: seq<File>)
    ensures TotalFileSize(a + b) == TotalFileSize(a) + TotalFileSize(b)
  {
    hide Sorted;
    if a == [] {
      assert a + b == b;
    } else {
      TotalConcat(a[1..], b);
      assert (a + b)[1..] == a[1..] + b;
    }
  }

  lemma {:induction false} PassedMonotone(grandparents: seq<File>, key: InternalKey, key': InternalKey)
    requires KeyLess(key, key')
    ensures Passed(grandparents, key) <= Passed(grandparents, key')
  {
    hide Sorted;
    if grandparents != [] && KeyLess(Largest(grandparents[0]), key) {
      PassedMonotone(grandparents[1..], key, key');
    }
  }

  lemma KeysIncrease(input: seq<Entry>, i: nat, j: nat)
    requires Sorted(input) && i <= j < |input|
    ensures i < j ==> KeyLess(KeyOf(input[i]), KeyOf(input[j])) && Precedes(input[i], input[j])
  {
  }

  /** Bytes passed up to an entry and on to a later one add up. */
  lemma BytesAdd(grandparents: seq<File>, input: seq<Entry>, i: nat, j: nat, k: nat)
    requires Sorted(input) && i <= j <= k < |input|
    ensures BytesPassed(grandparents, input, i, k)
         == BytesPassed(grandparents, input, i, j) + BytesPassed(grandparents, input, j, k)
    ensures Passed(grandparents, KeyOf(input[i])) <= Passed(grandparents, KeyOf(input[j]))
  {
    hide Sorted, TotalFileSize, Passed, KeyOf;
    KeysIncrease(input, i, j);
    KeysIncrease(input, j, k);
    var a, b, c := Passed(grandparents, KeyOf(input[i])), Passed(grandparents, KeyOf(input[j])),
      Passed(grandparents, KeyOf(input[k]));
    if i < j { PassedMonotone(grandparents, KeyOf(input[i]), KeyOf(input[j])); }
    if j < k { PassedMonotone(grandparents, KeyOf(input[j]), KeyOf(input[k])); }
    assert grandparents[a..b] + grandparents[b..c] == grandparents[a..c];
    TotalConcat(grandparents[a..b], grandparents[b..c]);
  }

  lemma BytesNone(grandparents: seq<File>, input: seq<Entry>, i: nat)
    requires i < |input|
    ensures BytesPassed(grandparents, input, i, i) == 0
  {
    hide Sorted, Passed;
    var p := Passed(grandparents, KeyOf(input[i]));
    assert grandparents[p..p] == [];
  }

  // ---------------------------------------------------------------------------------------------------------
  // The running compaction
  // ---------------------------------------------------------------------------------------------------------

  class Compaction {
    const inputs: Inputs
    const base: Version
    var levelPtrs: seq<nat>
    var grandparentIndex: nat
    var seenKey: bool
    var overlappedBytes: nat

    constructor (inputs: Inputs, base: Version)
      requires inputs.level + 1 < NUM_LEVELS && forall l :: 1 <= l < NUM_LEVELS ==> LevelSorted(base[l])
      ensures Valid() && this.inputs == inputs && this.base == base
      ensures forall u :: CursorBefore(u)
      ensures grandparentIndex == 0 && !seenKey && overlappedBytes == 0
    {
      this.inputs, this.base := inputs, base;
      levelPtrs := seq(NUM_LEVELS, _ => 0);
      grandparentIndex, seenKey, overlappedBytes := 0, false, 0;
    }

    ghost predicate Valid()
      reads this
    {
      && inputs.level + 1 < NUM_LEVELS
      && |levelPtrs| == NUM_LEVELS
      && (forall l :: 0 <= l < NUM_LEVELS ==> levelPtrs[l] <= |base[l]|)
      && (forall l :: 1 <= l < NUM_LEVELS ==> LevelSorted(base[l]))
      && grandparentIndex <= |inputs.grandparents|
    }

    /** Every file the cursors have passed ends before `u`. */
    ghost predicate CursorBefore(u: UserKey)
      requires Valid()
      reads this
    {
      forall l, i :: 0 <= l < NUM_LEVELS && 0 <= i < levelPtrs[l] ==> Last(base[l][i]).u < u
    }

    /** The grandparent cursor after the first `n` entries: how far it is, and the bytes passed since the last stop. */
    ghost predicate StopState(input: seq<Entry>, limit: nat, n: nat)
      requires n <= |input|
      reads this
    {
      if n == 0 then grandparentIndex == 0 && !seenKey && overlappedBytes == 0
      else
        && grandparentIndex == Passed(inputs.grandparents, KeyOf(input[n - 1])) && seenKey
        && overlappedBytes
           == BytesPassed(inputs.grandparents, input, LastStop(inputs.grandparents, input, limit, n - 1), n - 1)
    }

    /** For user keys asked in increasing order, the cursors that only move forward answer like a full scan. */
    method IsBaseLevelForKey(u: UserKey) returns (r: bool)
      requires Valid() && CursorBefore(u)
      modifies this`levelPtrs
      ensures Valid() && forall w :: u <= w ==> CursorBefore(w)
      ensures r <==> BaseLevelFor(base, inputs.level, u)
    {
      hide Sorted, LevelSorted;
      var lvl := inputs.level + 2;
      while lvl < NUM_LEVELS
        invariant inputs.level + 2 <= lvl && Valid() && CursorBefore(u)
        invariant forall l, f :: inputs.level + 2 <= l < lvl && l < NUM_LEVELS && f in base[l] ==> !Covers(f, u)
        decreases NUM_LEVELS - lvl
      {
        var files := base[lvl];
        while levelPtrs[lvl] < |files|
          invariant Valid() && CursorBefore(u)
          decreases |files| - levelPtrs[lvl]
        {
          var f := files[levelPtrs[lvl]];
          if u <= Last(f).u {
            if u >= First(f).u {
              assert f in base[lvl] && Covers(f, u);
              return false;
            }
            break;
          }
          levelPtrs := levelPtrs[lvl := levelPtrs[lvl] + 1];
        }
        NoneCovers(files, levelPtrs[lvl], u);
        lvl := lvl + 1;
      }
      r := true;
    }

    /** Advances past the grandparents that end before `key` and counts their bytes; a full count ends the output. */
    method ShouldStopBefore(key: InternalKey, overlapLimit: nat) returns (r: bool)
      requires Valid()
      modifies this`grandparentIndex, this`seenKey, this`overlappedBytes
      ensures Valid() && old(grandparentIndex) <= grandparentIndex
      ensures forall u :: old(CursorBefore(u)) ==> CursorBefore(u)
      ensures forall i :: old(grandparentIndex) <= i < grandparentIndex ==>
        KeyLess(Largest(inputs.grandparents[i]), key)
      ensures grandparentIndex < |inputs.grandparents| ==> !KeyLess(Largest(inputs.grandparents[grandparentIndex]), key)
      ensures var passed := if old(seenKey)
        then TotalFileSize(inputs.grandparents[old(grandparentIndex)..grandparentIndex]) else 0;
              r == (old(overlappedBytes) + passed > overlapLimit) &&
              overlappedBytes == if r then 0 else old(overlappedBytes) + passed
      ensures seenKey
    {
      hide Sorted, LevelSorted;
      ghost var start := grandparentIndex;
      while grandparentIndex < |inputs.grandparents| && KeyLess(Largest(inputs.grandparents[grandparentIndex]), key)
        invariant Valid() && start <= grandparentIndex
        invariant seenKey == old(seenKey)
        invariant forall i :: start <= i < grandparentIndex ==> KeyLess(Largest(inputs.grandparents[i]), key)
        invariant overlappedBytes == old(overlappedBytes)
          + (if seenKey then TotalFileSize(inputs.grandparents[start..grandparentIndex]) else 0)
        decreases |inputs.grandparents| - grandparentIndex
      {
        if seenKey {
          overlappedBytes := overlappedBytes + inputs.grandparents[grandparentIndex].size;
          TotalOneMore(inputs.grandparents[start..grandparentIndex], inputs.grandparents[grandparentIndex]);
          assert inputs.grandparents[start..grandparentIndex + 1]
              == inputs.grandparents[start..grandparentIndex] + [inputs.grandparents[grandparentIndex]];
        }
        grandparentIndex := grandparentIndex + 1;
      }
      seenKey := true;
      r := overlappedBytes > overlapLimit;
      if r {
        overlappedBytes := 0;
      }
    }

    /** The answer for the next entry is whether an output has to end before it. */
    method StopBefore(input: seq<Entry>, i: nat, overlapLimit: nat) returns (stop: bool)
      requires Valid() && Sorted(input) && i < |input| && StopState(input, overlapLimit, i)
      modifies this`grandparentIndex, this`seenKey, this`overlappedBytes
      ensures Valid() && StopState(input, overlapLimit, i + 1)
      ensures forall u :: old(CursorBefore(u)) ==> CursorBefore(u)
      ensures stop == IsStop(inputs.grandparents, input, overlapLimit, i)
    {
      hide Sorted, LevelSorted, Passed, TotalFileSize, KeyOf;
      var gp := inputs.grandparents;
      ghost var index, seen := grandparentIndex, seenKey;
      stop := ShouldStopBefore(KeyOf(input[i]), overlapLimit);
      assert grandparentIndex == Passed(gp, KeyOf(input[i])) by {
        if i == 0 {
          PassedIs(gp, KeyOf(input[0]), grandparentIndex);
        } else {
          KeysIncrease(input, i - 1, i);
          CursorIs(gp, KeyOf(input[i - 1]), KeyOf(input[i]), grandparentIndex);
        }
      }
      if i == 0 {
        BytesNone(gp, input, 0);
      } else {
        var last := LastStop(gp, input, overlapLimit, i - 1);
        BytesAdd(gp, input, last, i - 1, i);
        BytesNone(gp, input, i);
        BytesAdd(gp, input, i - 1, i, i);
      }
    }

    /** Merges the inputs into output files. An output ends when it is large enough, and before a stop. */
    method DoCompactionWork(input: seq<Entry>, snap: SequenceNumber, firstNumber: nat, fileSize: seq<Entry> -> nat,
                            maxOutput: nat, overlapLimit: nat)
      returns (outputs: seq<File>)
      requires Valid() && (forall u :: CursorBefore(u)) && Sorted(input) && snap < MAX_SEQUENCE
      requires grandparentIndex == 0 && !seenKey && overlappedBytes == 0
      modifies this
      ensures Flatten(outputs) == Kept(input, |input|, snap, base, inputs.level)
      ensures forall k :: 0 <= k < |outputs| ==> outputs[k].number == firstNumber + k
      ensures WellCut(outputs, inputs.grandparents, input, fileSize, maxOutput, overlapLimit)
    {
      hide Sorted, BaseLevelFor, Valid, CursorBefore, Flatten, Kept, Cutting, Dropped, IsStop, Passed,
           BytesPassed, LastStop, KeyOf;
      outputs := [];
      assert Flatten(outputs) == [] && Kept(input, 0, snap, base, inputs.level) == [] by {
        NothingYet(input, snap, base, inputs.level);
      }
      var builder: seq<Entry> := [];
      var currentUserKey: Option<UserKey> := None;
      var lastSequenceForKey: SequenceNumber := MAX_SEQUENCE;
      var i := 0;
      assert StopState(input, overlapLimit, 0) by { StartState(input, overlapLimit); }
      ghost var gp := inputs.grandparents;
      StartCutting(gp, input, fileSize, maxOutput, overlapLimit);
      while i < |input|
        invariant 0 <= i <= |input| && Valid() && StopState(input, overlapLimit, i)
        invariant forall u :: (i > 0 ==> input[i - 1].u <= u) ==> CursorBefore(u)
        invariant i > 0 ==> currentUserKey == Some(input[i - 1].u) && lastSequenceForKey == input[i - 1].seqno
        invariant i == 0 ==> currentUserKey == None
        invariant Flatten(outputs) + builder == Kept(input, i, snap, base, inputs.level)
        invariant forall k :: 0 <= k < |outputs| ==> outputs[k].number == firstNumber + k
        invariant Cutting(outputs, builder, i, gp, input, fileSize, maxOutput, overlapLimit)
      {
        var e := input[i];
        if i > 0 {
          SortedKeys(input, i - 1, i);
        }
        var stop := StopBefore(input, i, overlapLimit);
        if stop && builder != [] {
          ghost var before := outputs;
          outputs := FinishOutput(outputs, builder, input, i, snap, firstNumber, fileSize);
          StoppedHere(before, builder, outputs, i, gp, input, fileSize, maxOutput, overlapLimit);
          builder := [];
        }
        if currentUserKey.None? || currentUserKey.value != e.u {
          currentUserKey := Some(e.u);
          lastSequenceForKey := MAX_SEQUENCE;
        }
        var drop := DropEntry(e, lastSequenceForKey, snap);
        assert drop <==> Dropped(input, i, snap, base, inputs.level) by {
          DropRule(input, i, snap, base, inputs.level);
        }
        KeptStep(input, i, snap, base, inputs.level, Flatten(outputs), builder);
        lastSequenceForKey := e.seqno;
        ghost var was := builder;
        if !drop {
          builder := builder + [e];
        }
        i := i + 1;
        if !drop && fileSize(builder) >= maxOutput {
          ghost var before := outputs;
          outputs := FinishOutput(outputs, builder, input, i, snap, firstNumber, fileSize);
          LargeEnough(before, was, outputs, i - 1, gp, input, fileSize, maxOutput, overlapLimit);
          builder := [];
        } else {
          GoingOn(outputs, was, i - 1, drop, gp, input, fileSize, maxOutput, overlapLimit);
        }
      }
      if builder != [] {
        ghost var before := outputs;
        outputs := FinishOutput(outputs, builder, input, i, snap, firstNumber, fileSize);
        AtTheEnd(before, builder, outputs, gp, input, fileSize, maxOutput, overlapLimit);
      } else {
        NothingLeft(outputs, gp, input, fileSize, maxOutput, overlapLimit);
      }
    }

    lemma StartState(input: seq<Entry>, limit: nat)
      requires grandparentIndex == 0 && !seenKey && overlappedBytes == 0
      ensures StopState(input, limit, 0)
    {
    }

    /** The two drop rules, given the sequence number of the entry before it for the same user key. */
    method DropEntry(e: Entry, lastSequenceForKey: SequenceNumber, snap: SequenceNumber) returns (drop: bool)
      requires Valid() && CursorBefore(e.u)
      modifies this`levelPtrs
      ensures Valid() && forall w :: e.u <= w ==> CursorBefore(w)
      ensures drop <==> lastSequenceForKey <= snap
                        || (e.kind.Deletion? && e.seqno <= snap && BaseLevelFor(base, inputs.level, e.u))
    {
      drop := false;
      if lastSequenceForKey <= snap {
        drop := true;
      } else if e.kind.Deletion? && e.seqno <= snap {
        drop := IsBaseLevelForKey(e.u);
      }
    }

    method FinishOutput(outputs: seq<File>, builder: seq<Entry>, ghost input: seq<Entry>, ghost i: nat,
                        ghost snap: SequenceNumber, firstNumber: nat, fileSize: seq<Entry> -> nat)
      returns (r: seq<File>)
      requires builder != [] && i <= |input| && Sorted(input)
      requires Flatten(outputs) + builder == Kept(input, i, snap, base, inputs.level)
      ensures Flatten(r) == Kept(input, i, snap, base, inputs.level)
      ensures |r| == |outputs| + 1 && r[..|outputs|] == outputs && r[|outputs|].number == firstNumber + |outputs|
      ensures r[|outputs|].entries == builder && r[|outputs|].size == fileSize(builder)
    {
      KeptMembers(input, i, snap, base, inputs.level);
      SortedSuffix(Flatten(outputs), builder);
      var f: File := FileData(firstNumber + |outputs|, fileSize(builder), builder);
      r := outputs + [f];
      assert r[..|outputs|] == outputs;
    }
  }

  /** The state of the cut after the first `i` entries: `outputs` are finished, and `builder` is being filled. */
  ghost predicate Cutting(outputs: seq<File>, builder: seq<Entry>, i: nat, gp: seq<File>, input: seq<Entry>,
                          fileSize: seq<Entry> -> nat, maxOutput: nat, limit: nat)
  {
    && i <= |input| && WellCut(outputs, gp, input, fileSize, maxOutput, limit)
    && Unfinished(builder, fileSize, maxOutput, |builder|)
    && (forall e :: e in builder ==> e in input[..i])
    && (forall j: nat, e :: j < i && IsStop(gp, input, limit, j) && e in builder ==> !Precedes(e, input[j]))
    && (outputs != [] ==> Pending(outputs[|outputs| - 1], builder, i, gp, input, fileSize, maxOutput, limit))
  }

  /** The last output has ended rightly, whatever entry from `i` on may follow. */
  ghost predicate Pending(f: File, builder: seq<Entry>, i: nat, gp: seq<File>, input: seq<Entry>,
                          fileSize: seq<Entry> -> nat, maxOutput: nat, limit: nat)
  {
    if builder != [] then EndedRightly(f, builder[0], gp, input, fileSize, maxOutput, limit)
    else forall j :: i <= j < |input| ==> EndedRightly(f, input[j], gp, input, fileSize, maxOutput, limit)
  }

  lemma StartCutting(gp: seq<File>, input: seq<Entry>, fileSize: seq<Entry> -> nat, maxOutput: nat, limit: nat)
    ensures Cutting([], [], 0, gp, input, fileSize, maxOutput, limit)
  {
    hide Sorted, IsStop;
  }

  /** A finished output is a good one. */
  lemma FinishedGood(f: File, builder: seq<Entry>, i: nat, gp: seq<File>, input: seq<Entry>,
                     fileSize: seq<Entry> -> nat, maxOutput: nat, limit: nat)
    requires Sorted(input) && i <= |input| && f.entries == builder && f.size == fileSize(builder)
    requires Unfinished(builder, fileSize, maxOutput, |builder| - 1) && forall e :: e in builder ==> e in input[..i]
    requires forall j: nat, e :: j < i && IsStop(gp, input, limit, j) && e in builder ==> !Precedes(e, input[j])
    ensures GoodOutput(f, gp, input, fileSize, maxOutput, limit)
  {
    hide Sorted, LastStop;
    assert First(f) in builder && Last(f) in builder;
    var q :| 0 <= q < i && input[q] == Last(f);
    forall j: nat | IsStop(gp, input, limit, j)
      ensures !Straddles(f, input[j])
    {
      StopInRange(gp, input, limit, j);
      if i <= j {
        KeysIncrease(input, q, j);
      }
    }
  }

  lemma StopInRange(gp: seq<File>, input: seq<Entry>, limit: nat, j: nat)
    requires IsStop(gp, input, limit, j)
    ensures 0 < j < |input|
  {
  }

  lemma MoreCut(outputs: seq<File>, builder: seq<Entry>, more: seq<File>, gp: seq<File>, input: seq<Entry>,
                fileSize: seq<Entry> -> nat, maxOutput: nat, limit: nat)
    requires WellCut(outputs, gp, input, fileSize, maxOutput, limit)
    requires |more| == |outputs| + 1 && more[..|outputs|] == outputs
    requires GoodOutput(more[|outputs|], gp, input, fileSize, maxOutput, limit)
    requires outputs != [] ==> EndedRightly(outputs[|outputs| - 1], First(more[|outputs|]), gp, input, fileSize,
                                            maxOutput, limit)
    ensures WellCut(more, gp, input, fileSize, maxOutput, limit)
  {
    hide Sorted, GoodOutput, EndedRightly;
    forall k | 0 <= k < |outputs|
      ensures more[k] == outputs[k]
    {
      assert more[..|outputs|][k] == outputs[k];
    }
  }

  lemma StoppedHere(outputs: seq<File>, builder: seq<Entry>, more: seq<File>, i: nat, gp: seq<File>, input: seq<Entry>,
                    fileSize: seq<Entry> -> nat, maxOutput: nat, limit: nat)
    requires Sorted(input) && Cutting(outputs, builder, i, gp, input, fileSize, maxOutput, limit) && builder != []
    requires IsStop(gp, input, limit, i) && |more| == |outputs| + 1 && more[..|outputs|] == outputs
    requires more[|outputs|].entries == builder && more[|outputs|].size == fileSize(builder)
    ensures Cutting(more, [], i, gp, input, fileSize, maxOutput, limit)
  {
    hide Sorted, IsStop, WellCut, EndedRightly;
    var f := more[|outputs|];
    FinishedGood(f, builder, i, gp, input, fileSize, maxOutput, limit);
    MoreCut(outputs, builder, more, gp, input, fileSize, maxOutput, limit);
    StopInRange(gp, input, limit, i);
    assert Last(f) in builder;
    var q :| 0 <= q < i && input[q] == Last(f);
    KeysIncrease(input, q, i);
    forall j | i <= j < |input|
      ensures EndedRightly(f, input[j], gp, input, fileSize, maxOutput, limit)
    {
      NotBefore(input, i, j);
      EndedByStop(f, input[j], gp, input, fileSize, maxOutput, limit, i);
    }
  }

  lemma NotBefore(input: seq<Entry>, i: nat, j: nat)
    requires Sorted(input) && i <= j < |input|
    ensures !Precedes(input[j], input[i])
  {
  }

  lemma EndedByStop(f: File, next: Entry, gp: seq<File>, input: seq<Entry>, fileSize: seq<Entry> -> nat, maxOutput: nat,
                    limit: nat, i: nat)
    requires IsStop(gp, input, limit, i) && i < |input| && Between(f, input[i], next)
    ensures EndedRightly(f, next, gp, input, fileSize, maxOutput, limit)
  {
    hide Sorted, IsStop;
  }

  lemma LargeEnough(outputs: seq<File>, was: seq<Entry>, more: seq<File>, i: nat, gp: seq<File>, input: seq<Entry>,
                    fileSize: seq<Entry> -> nat, maxOutput: nat, limit: nat)
    requires Sorted(input) && Cutting(outputs, was, i, gp, input, fileSize, maxOutput, limit) && i < |input|
    requires IsStop(gp, input, limit, i) ==> was == []
    requires |more| == |outputs| + 1 && more[..|outputs|] == outputs
    requires more[|outputs|].entries == was + [input[i]] && more[|outputs|].size == fileSize(was + [input[i]])
    requires fileSize(was + [input[i]]) >= maxOutput
    ensures Cutting(more, [], i + 1, gp, input, fileSize, maxOutput, limit)
  {
    hide Sorted, IsStop, WellCut;
    var builder, f := was + [input[i]], more[|outputs|];
    Extended(outputs, was, i, gp, input, fileSize, maxOutput, limit);
    assert Unfinished(builder, fileSize, maxOutput, |builder| - 1) by {
      assert forall m :: 0 < m <= |was| ==> builder[..m] == was[..m];
    }
    FinishedGood(f, builder, i + 1, gp, input, fileSize, maxOutput, limit);
    MoreCut(outputs, builder, more, gp, input, fileSize, maxOutput, limit);
  }

  /** What one more entry in the builder keeps. */
  lemma Extended(outputs: seq<File>, was: seq<Entry>, i: nat, gp: seq<File>, input: seq<Entry>,
                 fileSize: seq<Entry> -> nat, maxOutput: nat, limit: nat)
    requires Sorted(input) && Cutting(outputs, was, i, gp, input, fileSize, maxOutput, limit) && i < |input|
    requires IsStop(gp, input, limit, i) ==> was == []
    ensures var builder := was + [input[i]];
      && (forall e :: e in builder ==> e in input[..i + 1])
      && (forall j: nat, e :: j < i + 1 && IsStop(gp, input, limit, j) && e in builder ==> !Precedes(e, input[j]))
      && (outputs != [] ==>
          EndedRightly(outputs[|outputs| - 1], builder[0], gp, input, fileSize, maxOutput, limit))
  {
    hide Sorted, IsStop, WellCut, EndedRightly, Unfinished;
    var builder := was + [input[i]];
    assert input[..i + 1] == input[..i] + [input[i]];
    forall j: nat, e | j < i + 1 && IsStop(gp, input, limit, j) && e in builder
      ensures !Precedes(e, input[j])
    {
      if e == input[i] {
        NotBefore(input, j, i);
      }
    }
  }

  lemma GoingOn(outputs: seq<File>, was: seq<Entry>, i: nat, drop: bool, gp: seq<File>, input: seq<Entry>,
                fileSize: seq<Entry> -> nat, maxOutput: nat, limit: nat)
    requires Sorted(input) && Cutting(outputs, was, i, gp, input, fileSize, maxOutput, limit) && i < |input|
    requires IsStop(gp, input, limit, i) ==> was == []
    requires !drop ==> fileSize(was + [input[i]]) < maxOutput
    ensures Cutting(outputs, if drop then was else was + [input[i]], i + 1, gp, input, fileSize, maxOutput, limit)
  {
    hide Sorted, IsStop, WellCut, EndedRightly;
    Extended(outputs, was, i, gp, input, fileSize, maxOutput, limit);
    assert input[..i + 1] == input[..i] + [input[i]];
    if !drop {
      var builder := was + [input[i]];
      assert builder[..|builder|] == builder;
      assert forall m :: 0 < m <= |was| ==> builder[..m] == was[..m];
    }
  }

  lemma AtTheEnd(outputs: seq<File>, builder: seq<Entry>, more: seq<File>, gp: seq<File>, input: seq<Entry>,
                 fileSize: seq<Entry> -> nat, maxOutput: nat, limit: nat)
    requires Sorted(input) && Cutting(outputs, builder, |input|, gp, input, fileSize, maxOutput, limit) && builder != []
    requires |more| == |outputs| + 1 && more[..|outputs|] == outputs
    requires more[|outputs|].entries == builder && more[|outputs|].size == fileSize(builder)
    ensures WellCut(more, gp, input, fileSize, maxOutput, limit)
  {
    hide Sorted, IsStop, WellCut, EndedRightly;
    FinishedGood(more[|outputs|], builder, |input|, gp, input, fileSize, maxOutput, limit);
    MoreCut(outputs, builder, more, gp, input, fileSize, maxOutput, limit);
  }

  lemma NothingLeft(outputs: seq<File>, gp: seq<File>, input: seq<Entry>, fileSize: seq<Entry> -> nat, maxOutput: nat,
                    limit: nat)
    requires Cutting(outputs, [], |input|, gp, input, fileSize, maxOutput, limit)
    ensures WellCut(outputs, gp, input, fileSize, maxOutput, limit)
  {
    hide Sorted, WellCut;
  }

  /** The drop rules, as the loop tests them. */
  lemma DropRule(input: seq<Entry>, i: nat, snap: SequenceNumber, base: Version, level: nat)
    requires i < |input| && snap < MAX_SEQUENCE
    ensures Dropped(input, i, snap, base, level) <==>
      || (i > 0 && input[i - 1].u == input[i].u && input[i - 1].seqno <= snap)
      || (input[i].kind.Deletion? && input[i].seqno <= snap && BaseLevelFor(base, level, input[i].u))
  {
  }

  lemma NothingYet(input: seq<Entry>, snap: SequenceNumber, base: Version, level: nat)
    ensures Flatten([]) == [] && Kept(input, 0, snap, base, level) == []
  {
  }

  lemma KeptStep(input: seq<Entry>, i: nat, snap: SequenceNumber, base: Version, level: nat, done: seq<Entry>,
                 builder: seq<Entry>)
    requires i < |input| && done + builder == Kept(input, i, snap, base, level)
    ensures Kept(input, i + 1, snap, base, level)
         == done + (if Dropped(input, i, snap, base, level) then builder else builder + [input[i]])
  {
    assert done + (builder + [input[i]]) == (done + builder) + [input[i]];
  }

  lemma SortedKeys(es: seq<Entry>, i: nat, j: nat)
    requires Sorted(es) && i < j < |es|
    ensures es[i].u <= es[j].u
  {
  }

  lemma SortedSuffix(a: seq<Entry>, b: seq<Entry>)
    requires Sorted(a + b)
    ensures Sorted(b)
  {
    forall i, j | 0 <= i < j < |b|
      ensures Precedes(b[i], b[j])
    {
      assert (a + b)[|a| + i] == b[i] && (a + b)[|a| + j] == b[j];
    }
  }

  /** Once the cursor stands at a file that does not cover `u`, no file of the level does. */
  lemma NoneCovers(files: seq<File>, p: nat, u: UserKey)
    requires LevelSorted(files) && p <= |files|
    requires forall i :: 0 <= i < p ==> Last(files[i]).u < u
    requires p < |files| ==> u <= Last(files[p]).u && u < First(files[p]).u
    ensures forall f :: f in files ==> !Covers(f, u)
  {
    hide Sorted;
    forall i | 0 <= i < |files|
      ensures !Covers(files[i], u)
    {
      if p < i {
        WithinFile(files[p], First(files[p]));
        assert Precedes(Last(files[p]), First(files[i]));
      }
    }
  }
}
