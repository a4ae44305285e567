/** Choosing the inputs of a compaction and the level of a flushed memtable (db/version_set.cc). */
module Picking {
  import opened InternalKeys
  import opened Views
  import opened Lsm

  // ---------------------------------------------------------------------------------------------------------
  // Searching a level
  // ---------------------------------------------------------------------------------------------------------

  lemma LargestIncreases(files: seq<File>, i: nat, j: nat)
    requires LevelSorted(files) && i < j < |files|
    ensures KeyLess(Largest(files[i]), Largest(files[j]))
  {
    assert Precedes(Last(files[i]), First(files[j]));
    WithinFile(files[j], Last(files[j]));
  }

  /** Index of the first file whose largest key is not below `key`. */
  method FindFile(files: seq<File>, key: InternalKey) returns (right: nat)
    requires LevelSorted(files)
    ensures right <= |files|
    ensures forall i :: 0 <= i < right ==> KeyLess(Largest(files[i]), key)
    ensures forall i :: right <= i < |files| ==> !KeyLess(Largest(files[i]), key)
  {
    var left := 0;
    right := |files|;
    while left < right
      invariant 0 <= left <= right <= |files|
      invariant forall i :: 0 <= i < left ==> KeyLess(Largest(files[i]), key)
      invariant forall i :: right <= i < |files| ==> !KeyLess(Largest(files[i]), key)
    {
      var mid := (left + right) / 2;
      forall i | 0 <= i < mid
        ensures KeyLess(Largest(files[i]), Largest(files[mid]))
      {
        LargestIncreases(files, i, mid);
      }
      forall i | mid < i < |files|
        ensures KeyLess(Largest(files[mid]), Largest(files[i]))
      {
        LargestIncreases(files, mid, i);
      }
      if KeyLess(Largest(files[mid]), key) {
        left := mid + 1;
      } else {
        right := mid;
      }
    }
  }

  predicate AfterFile(userKey: Option<UserKey>, f: File) {
    userKey.Some? && userKey.value > Last(f).u
  }

  predicate BeforeFile(userKey: Option<UserKey>, f: File) {
    userKey.Some? && userKey.value < First(f).u
  }

  /** Both the scan of level 0 and the binary search of a sorted level decide whether some file overlaps. */
  method SomeFileOverlapsRange(disjointSorted: bool, files: seq<File>, lo: Option<UserKey>, hi: Option<UserKey>)
    returns (r: bool)
    requires disjointSorted ==> LevelSorted(files)
    ensures r <==> exists f :: f in files && Overlaps(f, lo, hi)
  {
    if !disjointSorted {
      var i := 0;
      while i < |files|
        invariant 0 <= i <= |files|
        invariant forall k :: 0 <= k < i ==> !Overlaps(files[k], lo, hi)
      {
        if !AfterFile(lo, files[i]) && !BeforeFile(hi, files[i]) {
          assert Overlaps(files[i], lo, hi);
          return true;
        }
        i := i + 1;
      }
      return false;
    }
    var index := 0;
    if lo.Some? {
      index := FindFile(files, SeekKey(lo.value, MAX_SEQUENCE));
      assert forall i :: 0 <= i < index ==> Last(files[i]).u < lo.value;
      assert forall i :: index <= i < |files| ==> Last(files[i]).u >= lo.value;
    }
    if index >= |files| {
      return false;
    }
    r := !BeforeFile(hi, files[index]);
    if r {
      assert Overlaps(files[index], lo, hi);
    } else {
      forall i | index < i < |files|
        ensures First(files[index]).u <= First(files[i]).u
      {
        assert Precedes(Last(files[index]), First(files[i]));
        WithinFile(files[index], First(files[index]));
      }
    }
  }

  // ---------------------------------------------------------------------------------------------------------
  // Files that overlap a range
  // ---------------------------------------------------------------------------------------------------------

  /** The files overlapping [lo, hi], in the order of the level. */
  function OverlapSet(files: seq<File>, lo: Option<UserKey>, hi: Option<UserKey>): seq<File> {
    if files == [] then
      []
    else
      var n := |files| - 1;
      OverlapSet(files[..n], lo, hi) + (if Overlaps(files[n], lo, hi) then [files[n]] else [])
  }

  lemma {:induction false} OverlapSetMembers(files: seq<File>, lo: Option<UserKey>, hi: Option<UserKey>)
    ensures forall f :: f in OverlapSet(files, lo, hi) <==> f in files && Overlaps(f, lo, hi)
  {
    if files != [] {
      var n := |files| - 1;
      OverlapSetMembers(files[..n], lo, hi);
      assert files == files[..n] + [files[n]];
    }
  }

  ghost predicate Inside(f: File, lo: Option<UserKey>, hi: Option<UserKey>) {
    && (lo.Some? ==> lo.value <= First(f).u)
    && (hi.Some? ==> Last(f).u <= hi.value)
  }

  /** No file straddles an end of the range. */
  ghost predicate Closed(files: seq<File>, lo: Option<UserKey>, hi: Option<UserKey>) {
    forall f :: f in files && Overlaps(f, lo, hi) ==> Inside(f, lo, hi)
  }

  /** The range [a, b] contains the range [lo, hi]. */
  ghost predicate Contains(a: Option<UserKey>, b: Option<UserKey>, lo: Option<UserKey>, hi: Option<UserKey>) {
    && (a.Some? ==> lo.Some? && a.value <= lo.value)
    && (b.Some? ==> hi.Some? && hi.value <= b.value)
  }

  /** [lo, hi] is inside every closed range that contains the request [lo0, hi0]. */
  ghost predicate Least(files: seq<File>, lo0: Option<UserKey>, hi0: Option<UserKey>, lo: Option<UserKey>,
                        hi: Option<UserKey>)
  {
    forall a, b :: Contains(a, b, lo0, hi0) && Closed(files, a, b) ==> Contains(a, b, lo, hi)
  }

  ghost predicate AvoidsAll(files: seq<File>, a: UserKey, b: UserKey) {
    forall f :: f in files ==> Avoids(f, a, b)
  }

  ghost predicate AvoidsOverlapping(files: seq<File>, lo: Option<UserKey>, hi: Option<UserKey>, a: UserKey, b: UserKey)
  {
    forall f :: f in files && Overlaps(f, lo, hi) ==> Avoids(f, a, b)
  }

  /** Together with `around`, the files overlapping [lo, hi] leave no gap in it: a range of user keys avoiding all
      of them lies outside [lo, hi]. */
  ghost predicate NoGap(files: seq<File>, around: seq<File>, lo: Option<UserKey>, hi: Option<UserKey>) {
    forall a, b :: a <= b && AvoidsAll(around, a, b) && AvoidsOverlapping(files, lo, hi, a, b)
      ==> (lo.Some? && b < lo.value) || (hi.Some? && hi.value < a)
  }

  lemma LeastStep(files: seq<File>, lo0: Option<UserKey>, hi0: Option<UserKey>, lo: Option<UserKey>,
                  hi: Option<UserKey>, f: File, lo': Option<UserKey>, hi': Option<UserKey>)
    requires Least(files, lo0, hi0, lo, hi) && f in files && Overlaps(f, lo, hi)
    requires (lo' == lo || (lo.Some? && lo' == Some(First(f).u))) && (hi' == hi || (hi.Some? && hi' == Some(Last(f).u)))
    ensures Least(files, lo0, hi0, lo', hi')
  {
    forall a, b | Contains(a, b, lo0, hi0) && Closed(files, a, b)
      ensures Contains(a, b, lo', hi')
    {
      assert Contains(a, b, lo, hi);
      assert Overlaps(f, a, b);
      assert Inside(f, a, b);
    }
  }

  lemma NoGapStep(files: seq<File>, around: seq<File>, lo: Option<UserKey>, hi: Option<UserKey>, f: File,
                  lo': Option<UserKey>, hi': Option<UserKey>)
    requires NoGap(files, around, lo, hi) && f in files && Overlaps(f, lo, hi)
    requires lo' == lo || (lo.Some? && lo' == Some(First(f).u) && First(f).u <= lo.value)
    requires hi' == hi || (hi.Some? && hi' == Some(Last(f).u) && hi.value <= Last(f).u)
    ensures NoGap(files, around, lo', hi')
  {
    forall a, b | a <= b && AvoidsAll(around, a, b) && AvoidsOverlapping(files, lo', hi', a, b)
      ensures (lo'.Some? && b < lo'.value) || (hi'.Some? && hi'.value < a)
    {
      WithinFile(f, First(f));
      forall g | g in files && Overlaps(g, lo, hi)
        ensures Avoids(g, a, b)
      {
        assert Overlaps(g, lo', hi');
      }
      assert AvoidsOverlapping(files, lo, hi, a, b);
      assert Avoids(f, a, b);
    }
  }

  function UserOf(k: Option<InternalKey>): Option<UserKey> {
    if k.Some? then Some(k.value.u) else None
  }

  ghost function StartsBefore(files: seq<File>, lo: Option<UserKey>): set<nat> {
    set j | 0 <= j < |files| && lo.Some? && First(files[j]).u < lo.value
  }

  ghost function EndsAfter(files: seq<File>, hi: Option<UserKey>): set<nat> {
    set j | 0 <= j < |files| && hi.Some? && Last(files[j]).u > hi.value
  }

  /** All files of a level overlapping [begin, end]. In level 0 the range grows to the least closed range around
      the request, restarting the scan each time; above level 0 the range is the request. */
  method GetOverlappingInputs(level: nat, files: seq<File>, begin: Option<InternalKey>, end: Option<InternalKey>,
                              ghost around: seq<File>)
    returns (inputs: seq<File>, ghost lo: Option<UserKey>, ghost hi: Option<UserKey>)
    ensures inputs == OverlapSet(files, lo, hi)
    ensures level > 0 ==> lo == UserOf(begin) && hi == UserOf(end)
    ensures Contains(lo, hi, UserOf(begin), UserOf(end))
    ensures level == 0 ==> Closed(files, lo, hi) && Least(files, UserOf(begin), UserOf(end), lo, hi)
    ensures NoGap(files, around, UserOf(begin), UserOf(end)) ==> NoGap(files, around, lo, hi)
  {
    hide Sorted, NoGap, Least, Contains, OverlapSet, StartsBefore, EndsAfter;
    var userBegin, userEnd := UserOf(begin), UserOf(end);
    RangeStart(files, userBegin, userEnd);
    inputs := [];
    var i := 0;
    while i < |files|
      invariant 0 <= i <= |files|
      invariant inputs == OverlapSet(files[..i], userBegin, userEnd)
      invariant level > 0 ==> userBegin == UserOf(begin) && userEnd == UserOf(end)
      invariant Contains(userBegin, userEnd, UserOf(begin), UserOf(end))
      invariant level == 0 ==>
        forall j :: 0 <= j < i && Overlaps(files[j], userBegin, userEnd) ==> Inside(files[j], userBegin, userEnd)
      invariant Least(files, UserOf(begin), UserOf(end), userBegin, userEnd)
      invariant NoGap(files, around, UserOf(begin), UserOf(end)) ==> NoGap(files, around, userBegin, userEnd)
      decreases StartsBefore(files, userBegin), EndsAfter(files, userEnd), |files| - i
    {
      var f := files[i];
      OverlapSetStep(files, i, userBegin, userEnd);
      ghost var lo0, hi0 := userBegin, userEnd;
      i := i + 1;
      if userBegin.Some? && Last(f).u < userBegin.value {
      } else if userEnd.Some? && First(f).u > userEnd.value {
      } else {
        inputs := inputs + [f];
        if level == 0 {
          if userBegin.Some? && First(f).u < userBegin.value {
            userBegin := Some(First(f).u);
            inputs := [];
            i := 0;
            Extend(files, around, UserOf(begin), UserOf(end), lo0, hi0, f, userBegin, userEnd);
          } else if userEnd.Some? && Last(f).u > userEnd.value {
            userEnd := Some(Last(f).u);
            inputs := [];
            i := 0;
            Extend(files, around, UserOf(begin), UserOf(end), lo0, hi0, f, userBegin, userEnd);
          }
        }
      }
    }
    assert files[..|files|] == files;
    lo, hi := userBegin, userEnd;
  }

  lemma RangeStart(files: seq<File>, lo: Option<UserKey>, hi: Option<UserKey>)
    ensures OverlapSet([], lo, hi) == [] && Contains(lo, hi, lo, hi) && Least(files, lo, hi, lo, hi)
  {
  }

  lemma OverlapSetStep(files: seq<File>, i: nat, lo: Option<UserKey>, hi: Option<UserKey>)
    requires i < |files|
    ensures OverlapSet(files[..i + 1], lo, hi) == if Overlaps(files[i], lo, hi)
      then OverlapSet(files[..i], lo, hi) + [files[i]] else OverlapSet(files[..i], lo, hi)
  {
    assert files[..i + 1][..i] == files[..i];
  }

  /** Growing the range to take in a file that straddles one of its ends. */
  lemma Extend(files: seq<File>, around: seq<File>, lo0: Option<UserKey>, hi0: Option<UserKey>, lo: Option<UserKey>,
               hi: Option<UserKey>, f: File, lo': Option<UserKey>, hi': Option<UserKey>)
    requires Least(files, lo0, hi0, lo, hi) && Contains(lo, hi, lo0, hi0) && f in files && Overlaps(f, lo, hi)
    requires (lo' == Some(First(f).u) && lo.Some? && First(f).u < lo.value && hi' == hi)
          || (hi' == Some(Last(f).u) && hi.Some? && hi.value < Last(f).u && lo' == lo)
    ensures Least(files, lo0, hi0, lo', hi') && Contains(lo', hi', lo0, hi0)
    ensures NoGap(files, around, lo, hi) ==> NoGap(files, around, lo', hi')
    ensures OverlapSet([], lo', hi') == []
    ensures StartsBefore(files, lo') < StartsBefore(files, lo)
         || (StartsBefore(files, lo') == StartsBefore(files, lo) && EndsAfter(files, hi') < EndsAfter(files, hi))
  {
    hide Sorted, NoGap, Least;
    LeastStep(files, lo0, hi0, lo, hi, f, lo', hi');
    if NoGap(files, around, lo, hi) {
      NoGapStep(files, around, lo, hi, f, lo', hi');
    }
    var i :| 0 <= i < |files| && files[i] == f;
    if lo' != lo {
      assert i in StartsBefore(files, lo) && i !in StartsBefore(files, lo');
    } else {
      assert i in EndsAfter(files, hi) && i !in EndsAfter(files, hi');
    }
  }

  // ---------------------------------------------------------------------------------------------------------
  // Boundary files
  // ---------------------------------------------------------------------------------------------------------

  ghost predicate IsLargest(files: seq<File>, key: InternalKey) {
    && (exists f :: f in files && Largest(f) == key)
    && (forall f :: f in files ==> !KeyLess(key, Largest(f)))
  }

  ghost predicate IsSmallest(files: seq<File>, key: InternalKey) {
    && (exists f :: f in files && Smallest(f) == key)
    && (forall f :: f in files ==> !KeyLess(Smallest(f), key))
  }

  /** The smallest and the largest key of a set of files. */
  method GetRange(inputs: seq<File>) returns (smallest: InternalKey, largest: InternalKey)
    requires inputs != []
    ensures IsSmallest(inputs, smallest) && IsLargest(inputs, largest)
  {
    smallest, largest := Smallest(inputs[0]), Largest(inputs[0]);
    var i := 1;
    while i < |inputs|
      invariant 1 <= i <= |inputs|
      invariant exists k :: 0 <= k < i && Smallest(inputs[k]) == smallest
      invariant exists k :: 0 <= k < i && Largest(inputs[k]) == largest
      invariant forall k :: 0 <= k < i ==>
        !KeyLess(Smallest(inputs[k]), smallest) && !KeyLess(largest, Largest(inputs[k]))
    {
      if KeyLess(Smallest(inputs[i]), smallest) {
        smallest := Smallest(inputs[i]);
      }
      if KeyLess(largest, Largest(inputs[i])) {
        largest := Largest(inputs[i]);
      }
      i := i + 1;
    }
  }

  /** `f` starts after `key` with the same user key, so that it holds older entries of that user key. */
  predicate IsBoundary(f: File, key: InternalKey) {
    KeyLess(key, Smallest(f)) && First(f).u == key.u
  }

  method FindSmallestBoundaryFile(files: seq<File>, largestKey: InternalKey) returns (r: Option<File>)
    ensures r.None? ==> forall f :: f in files ==> !IsBoundary(f, largestKey)
    ensures r.Some? ==> r.value in files && IsBoundary(r.value, largestKey)
    ensures r.Some? ==> forall f :: f in files && IsBoundary(f, largestKey) ==> !KeyLess(Smallest(f), Smallest(r.value))
  {
    r := None;
    var i := 0;
    while i < |files|
      invariant 0 <= i <= |files|
      invariant r.None? ==> forall k :: 0 <= k < i ==> !IsBoundary(files[k], largestKey)
      invariant r.Some? ==> r.value in files && IsBoundary(r.value, largestKey)
      invariant r.Some? ==>
        forall k :: 0 <= k < i && IsBoundary(files[k], largestKey) ==> !KeyLess(Smallest(files[k]), Smallest(r.value))
    {
      var f := files[i];
      if IsBoundary(f, largestKey) && (r.None? || KeyLess(Smallest(f), Smallest(r.value))) {
        r := Some(f);
      }
      i := i + 1;
    }
  }

  ghost predicate Subset(chosen: seq<File>, files: seq<File>) {
    forall f :: f in chosen ==> f in files
  }

  /** Every file of the level between two chosen files is chosen. */
  ghost predicate Contiguous(files: seq<File>, chosen: seq<File>) {
    forall i, j, k :: 0 <= i < j < k < |files| && files[i] in chosen && files[k] in chosen ==> files[j] in chosen
  }

  /** No gap between the user-key ranges of the files: a range that avoids all of them lies on one side. */
  ghost predicate Connected(files: seq<File>) {
    forall a, b :: a <= b && AvoidsAll(files, a, b) ==> AllAfter(files, b) || AllBefore(files, a)
  }

  ghost predicate AllAfter(files: seq<File>, b: UserKey) {
    forall f :: f in files ==> b < First(f).u
  }

  ghost predicate AllBefore(files: seq<File>, a: UserKey) {
    forall f :: f in files ==> Last(f).u < a
  }

  /** A connected set stays connected when every added file meets the span from `p` to `q`. */
  lemma ConnectedExtend(files: seq<File>, p: File, q: File, more: seq<File>)
    requires Connected(files) && p in files && q in files && Subset(files, more)
    requires forall f :: f in more ==> First(p).u <= Last(f).u && First(f).u <= Last(q).u
    ensures Connected(more)
  {
    hide Sorted;
    forall a, b | a <= b && AvoidsAll(more, a, b)
      ensures AllAfter(more, b) || AllBefore(more, a)
    {
      assert AvoidsAll(files, a, b);
      assert p in more && q in more;
      if AllAfter(files, b) {
        assert b < First(p).u;
      } else {
        assert Last(q).u < a;
      }
    }
  }

  lemma BoundaryIndex(files: seq<File>, m: nat, b: nat, x: nat)
    requires LevelSorted(files) && m < |files| && b < |files| && m < x < |files|
    requires IsBoundary(files[b], Largest(files[m]))
    requires forall f :: f in files && IsBoundary(f, Largest(files[m])) ==> !KeyLess(Smallest(f), Smallest(files[b]))
    ensures m < b <= x
  {
    WithinFile(files[m], First(files[m]));
    assert b < m ==> Precedes(Last(files[b]), First(files[m]));
    WithinFile(files[b], First(files[b]));
    if x < b {
      assert Precedes(Last(files[m]), First(files[x]));
      assert Precedes(Last(files[x]), First(files[b]));
      WithinFile(files[x], First(files[x]));
      assert IsBoundary(files[x], Largest(files[m]));
    }
  }

  lemma SameIndex(files: seq<File>, i: nat, j: nat)
    requires LevelSorted(files) && i < |files| && j < |files| && files[i] == files[j]
    ensures i == j
  {
    if i < j {
      LargestIncreases(files, i, j);
    } else if j < i {
      LargestIncreases(files, j, i);
    }
  }

  lemma LastChosen(files: seq<File>, chosen: seq<File>, m: nat, k: nat)
    requires LevelSorted(files) && m < |files| && k < |files| && files[k] in chosen
    requires IsLargest(chosen, Largest(files[m]))
    ensures k <= m
  {
    if m < k {
      LargestIncreases(files, m, k);
    }
  }

  lemma BoundaryContiguous(files: seq<File>, chosen: seq<File>, m: nat, b: nat)
    requires LevelSorted(files) && Contiguous(files, chosen) && m < |files| && b < |files|
    requires files[m] in chosen && IsLargest(chosen, Largest(files[m])) && IsBoundary(files[b], Largest(files[m]))
    requires forall f :: f in files && IsBoundary(f, Largest(files[m])) ==> !KeyLess(Smallest(f), Smallest(files[b]))
    ensures Contiguous(files, chosen + [files[b]])
  {
    var more := chosen + [files[b]];
    forall i, j, k | 0 <= i < j < k < |files| && files[i] in more && files[k] in more
      ensures files[j] in more
    {
      if m < j {
        BoundaryIndex(files, m, b, j);
        if files[k] in chosen {
          LastChosen(files, chosen, m, k);
        } else {
          SameIndex(files, b, k);
        }
      } else if m != j {
        assert files[i] in chosen by {
          if files[i] == files[b] {
            LargestIncreases(files, i, m);
            WithinFile(files[b], First(files[b]));
          }
        }
        assert files[j] in chosen;
      }
    }
  }

  ghost function StartsAfter(files: seq<File>, key: InternalKey): set<nat> {
    set j | 0 <= j < |files| && KeyLess(key, Smallest(files[j]))
  }

  lemma AddBoundary(files: seq<File>, chosen: seq<File>, key: InternalKey, b: File)
    requires Subset(chosen, files) && IsLargest(chosen, key) && b in files && IsBoundary(b, key)
    requires forall f :: f in files && IsBoundary(f, key) ==> !KeyLess(Smallest(f), Smallest(b))
    ensures IsLargest(chosen + [b], Largest(b)) && Subset(chosen + [b], files)
    ensures StartsAfter(files, Largest(b)) < StartsAfter(files, key)
    ensures LevelSorted(files) && Contiguous(files, chosen) ==> Contiguous(files, chosen + [b])
  {
    hide Sorted, LevelSorted, Contiguous;
    var i :| 0 <= i < |files| && files[i] == b;
    FewerStarts(files, key, b, i);
    NewLargest(chosen, key, b);
    if LevelSorted(files) && Contiguous(files, chosen) {
      var f :| f in chosen && Largest(f) == key;
      var m :| 0 <= m < |files| && files[m] == f;
      BoundaryContiguous(files, chosen, m, i);
    }
  }

  lemma FewerStarts(files: seq<File>, key: InternalKey, b: File, i: nat)
    requires i < |files| && files[i] == b && IsBoundary(b, key)
    ensures StartsAfter(files, Largest(b)) < StartsAfter(files, key)
  {
    hide Sorted;
    WithinFile(b, First(b));
    assert i in StartsAfter(files, key) && i !in StartsAfter(files, Largest(b));
  }

  lemma NewLargest(chosen: seq<File>, key: InternalKey, b: File)
    requires IsLargest(chosen, key) && IsBoundary(b, key)
    ensures IsLargest(chosen + [b], Largest(b))
  {
    hide Sorted;
    WithinFile(b, First(b));
    assert b in chosen + [b];
  }

  /** A file with the least and a file with the greatest user key. */
  lemma {:induction false} SpanOf(files: seq<File>) returns (p: File, q: File)
    requires files != []
    ensures p in files && q in files
    ensures forall f :: f in files ==> First(p).u <= First(f).u && Last(f).u <= Last(q).u
  {
    p, q := files[0], files[0];
    for i := 1 to |files|
      invariant p in files && q in files
      invariant forall k :: 0 <= k < i ==> First(p).u <= First(files[k]).u && Last(files[k]).u <= Last(q).u
    {
      if First(files[i]).u < First(p).u {
        p := files[i];
      }
      if Last(files[i]).u > Last(q).u {
        q := files[i];
      }
    }
  }

  lemma AddBoundaryConnected(chosen: seq<File>, key: InternalKey, b: File, around: seq<File>)
    requires IsLargest(chosen, key) && IsBoundary(b, key) && Connected(around + chosen)
    ensures Connected(around + (chosen + [b]))
  {
    hide Sorted;
    var m :| m in chosen && Largest(m) == key;
    assert m in around + chosen;
    ghost var p, q := SpanOf(around + chosen);
    assert Last(m).u <= Last(q).u && First(p).u <= First(m).u;
    WithinFile(m, First(m));
    WithinFile(b, First(b));
    forall f | f in around + (chosen + [b])
      ensures First(p).u <= Last(f).u && First(f).u <= Last(q).u
    {
      if f != b {
        assert f in around + chosen;
        WithinFile(f, First(f));
      }
    }
    ConnectedExtend(around + chosen, p, q, around + (chosen + [b]));
  }

  /** Extends the chosen files until no file of the level continues the largest chosen user key. */
  method AddBoundaryInputs(files: seq<File>, compactionFiles: seq<File>, ghost around: seq<File>)
    returns (r: seq<File>, ghost key: InternalKey)
    requires Subset(compactionFiles, files)
    ensures compactionFiles == [] ==> r == []
    ensures compactionFiles <= r && Subset(r, files)
    ensures r != [] ==> IsLargest(r, key) && forall f :: f in files ==> !IsBoundary(f, key)
    ensures LevelSorted(files) && Contiguous(files, compactionFiles) ==> Contiguous(files, r)
    ensures Connected(around + compactionFiles) ==> Connected(around + r)
    ensures r == compactionFiles || exists k, f :: IsLargest(compactionFiles, k) && f in files && IsBoundary(f, k)
  {
    r := compactionFiles;
    key := InternalKey(0, 0);
    if compactionFiles == [] {
      return;
    }
    var _, largestKey := GetRange(compactionFiles);
    ghost var key0 := largestKey;
    var continueSearching := true;
    while continueSearching
      invariant compactionFiles <= r && Subset(r, files)
      invariant IsLargest(r, largestKey)
      invariant r == compactionFiles || exists f :: f in files && IsBoundary(f, key0)
      invariant !continueSearching ==> forall f :: f in files ==> !IsBoundary(f, largestKey)
      invariant LevelSorted(files) && Contiguous(files, compactionFiles) ==> Contiguous(files, r)
      invariant Connected(around + compactionFiles) ==> Connected(around + r)
      invariant r == compactionFiles ==> largestKey == key0
      decreases StartsAfter(files, largestKey), continueSearching
    {
      hide LevelSorted, Contiguous, Connected;
      var b := FindSmallestBoundaryFile(files, largestKey);
      if b.Some? {
        AddBoundary(files, r, largestKey, b.value);
        if Connected(around + r) {
          AddBoundaryConnected(r, largestKey, b.value, around);
        }
        r := r + [b.value];
        largestKey := Largest(b.value);
      } else {
        continueSearching := false;
      }
    }
    key := largestKey;
  }

  // ---------------------------------------------------------------------------------------------------------
  // The inputs of a compaction
  // ---------------------------------------------------------------------------------------------------------

  /** A file that is not chosen holds, for a chosen user key, only entries newer than the chosen ones. */
  ghost predicate OlderClosed(files: seq<File>, chosen: seq<File>) {
    forall f, x, e :: f in files && f !in chosen && x in f.entries && InFiles(chosen, e) && x.u == e.u
      ==> x.seqno > e.seqno
  }

  /** How a set of files of one level comes about: in level 0 as all files of a closed range, above it as a run
      of neighbours. */
  ghost predicate Gathered(level: nat, files: seq<File>, chosen: seq<File>, lo: Option<UserKey>, hi: Option<UserKey>) {
    && Subset(chosen, files)
    && (level == 0 ==> Closed(files, lo, hi) && forall f :: f in files ==> (f in chosen <==> Overlaps(f, lo, hi)))
    && (level > 0 ==> LevelSorted(files) && Contiguous(files, chosen))
  }

  lemma OlderClosedPair(files: seq<File>, chosen: seq<File>, m: nat, i: nat, x: Entry, j: nat, e: Entry)
    requires LevelSorted(files) && Contiguous(files, chosen) && m < |files| && i < |files| && j < |files|
    requires files[m] in chosen && IsLargest(chosen, Largest(files[m]))
      && !(m < i && IsBoundary(files[i], Largest(files[m])))
    requires files[i] !in chosen && files[j] in chosen && x in files[i].entries && e in files[j].entries && x.u == e.u
    ensures x.seqno > e.seqno
  {
    hide Sorted;
    WithinFile(files[i], x);
    WithinFile(files[j], e);
    if i < j {
      assert Precedes(Last(files[i]), First(files[j]));
    } else {
      LaterApart(files, chosen, m, i, j, x, e);
    }
  }

  /** A file after every chosen one that is no boundary file shares no user key with them. */
  lemma LaterApart(files: seq<File>, chosen: seq<File>, m: nat, i: nat, j: nat, x: Entry, e: Entry)
    requires LevelSorted(files) && Contiguous(files, chosen) && m < |files| && j <= i < |files|
    requires files[m] in chosen && IsLargest(chosen, Largest(files[m]))
      && !(m < i && IsBoundary(files[i], Largest(files[m])))
    requires files[i] !in chosen && files[j] in chosen && x in files[i].entries && e in files[j].entries
    ensures x.u != e.u
  {
    hide Sorted;
    WithinFile(files[i], x);
    WithinFile(files[j], e);
    LastChosen(files, chosen, m, j);
    assert j != i && i != m;
    assert m < i;
    assert Precedes(Last(files[m]), First(files[i]));
    assert j < m ==> Precedes(Last(files[j]), First(files[m]));
    WithinFile(files[m], First(files[m]));
  }

  lemma OlderClosedSorted(files: seq<File>, chosen: seq<File>, key: InternalKey)
    requires LevelSorted(files) && Subset(chosen, files) && Contiguous(files, chosen) && IsLargest(chosen, key)
    requires forall f :: f in files ==> !IsBoundary(f, key)
    ensures OlderClosed(files, chosen)
  {
    hide Sorted, LevelSorted, Contiguous;
    var top :| top in chosen && Largest(top) == key;
    var m :| 0 <= m < |files| && files[m] == top;
    forall f, x, e | f in files && f !in chosen && x in f.entries && InFiles(chosen, e) && x.u == e.u
      ensures x.seqno > e.seqno
    {
      var g :| g in chosen && e in g.entries;
      var i :| 0 <= i < |files| && files[i] == f;
      var j :| 0 <= j < |files| && files[j] == g;
      OlderClosedPair(files, chosen, m, i, x, j, e);
    }
  }

  lemma OlderClosedLevel0(files: seq<File>, chosen: seq<File>, lo: Option<UserKey>, hi: Option<UserKey>)
    requires Gathered(0, files, chosen, lo, hi)
    ensures OlderClosed(files, chosen)
    ensures forall k, f :: IsLargest(chosen, k) && f in files ==> !IsBoundary(f, k)
  {
    hide Sorted;
    forall f, x, e | f in files && f !in chosen && x in f.entries && InFiles(chosen, e)
      ensures x.u != e.u
    {
      var g :| g in chosen && e in g.entries;
      assert Inside(g, lo, hi);
      WithinFile(f, x);
      WithinFile(g, e);
      assert x.u == e.u ==> Overlaps(f, lo, hi);
    }
    forall k, f | IsLargest(chosen, k) && f in files
      ensures !IsBoundary(f, k)
    {
      var g :| g in chosen && Largest(g) == k;
      assert Inside(g, lo, hi);
      WithinFile(f, First(f));
      WithinFile(g, First(g));
      assert IsBoundary(f, k) ==> Overlaps(f, lo, hi);
    }
  }

  /** No file of the level continues the largest user key of the chosen ones. */
  ghost predicate NoBoundary(files: seq<File>, chosen: seq<File>) {
    forall k, f :: IsLargest(chosen, k) && f in files ==> !IsBoundary(f, k)
  }

  /** Closing a gathered set under boundary files leaves nothing older behind. */
  method CloseInputs(level: nat, files: seq<File>, chosen: seq<File>, ghost lo: Option<UserKey>,
                     ghost hi: Option<UserKey>, ghost around: seq<File>)
    returns (r: seq<File>)
    requires chosen != [] && Gathered(level, files, chosen, lo, hi)
    ensures chosen <= r && Subset(r, files) && OlderClosed(files, r)
    ensures Connected(around + chosen) ==> Connected(around + r)
    ensures NoBoundary(files, chosen) ==> r == chosen
  {
    hide Sorted, LevelSorted, Contiguous, Connected, OlderClosed;
    ghost var key;
    r, key := AddBoundaryInputs(files, chosen, around);
    if level == 0 {
      OlderClosedLevel0(files, chosen, lo, hi);
      assert r == chosen;
    } else {
      OlderClosedSorted(files, r, key);
    }
  }

  lemma OverlapContiguous(files: seq<File>, lo: Option<UserKey>, hi: Option<UserKey>)
    requires LevelSorted(files)
    ensures Contiguous(files, OverlapSet(files, lo, hi))
  {
    hide Sorted;
    OverlapSetMembers(files, lo, hi);
    forall i, j, k | 0 <= i < j < k < |files| && Overlaps(files[i], lo, hi) && Overlaps(files[k], lo, hi)
      ensures Overlaps(files[j], lo, hi)
    {
      assert Precedes(Last(files[i]), First(files[j])) && Precedes(Last(files[j]), First(files[k]));
      WithinFile(files[j], First(files[j]));
    }
  }

  lemma SingleContiguous(files: seq<File>, f: File)
    requires LevelSorted(files) && f in files
    ensures Contiguous(files, [f])
  {
    forall i, k | 0 <= i < k < |files| && files[i] == f
      ensures files[k] != f
    {
      LargestIncreases(files, i, k);
    }
  }

  // ---------------------------------------------------------------------------------------------------------

  /** A compaction of `in0` from `level` with `in1` from the next level. */
  datatype Inputs = Inputs(level: nat, in0: seq<File>, in1: seq<File>, smallest: InternalKey, largest: InternalKey,
                           grandparents: seq<File>)

  ghost predicate TakesOverlap(files: seq<File>, chosen: seq<File>, smallest: InternalKey, largest: InternalKey) {
    forall f :: f in files ==> (f in chosen <==> Overlaps(f, Some(smallest.u), Some(largest.u)))
  }

  /** What the choice of inputs guarantees to the compaction that follows. */
  ghost predicate Picked(v: Version, c: Inputs) {
    && c.level + 1 < NUM_LEVELS
    && c.in0 != [] && Subset(c.in0, v[c.level]) && Subset(c.in1, v[c.level + 1])
    && IsSmallest(c.in0, c.smallest) && IsLargest(c.in0, c.largest)
    && OlderClosed(v[c.level], c.in0)
    && TakesOverlap(v[c.level + 1], c.in1, c.smallest, c.largest)
  }

  function TotalFileSize(files: seq<File>): nat {
    if files == [] then 0 else files[0].size + TotalFileSize(files[1..])
  }

  /** Files meeting the span of a connected set extend it to a connected set. */
  lemma ConnectedByRange(files: seq<File>, smallest: InternalKey, largest: InternalKey, more: seq<File>, all: seq<File>)
    requires Connected(files) && IsSmallest(files, smallest) && IsLargest(files, largest) && Subset(files, all)
    requires forall f :: f in more ==> Overlaps(f, Some(smallest.u), Some(largest.u))
    requires forall f :: f in all ==> f in files || f in more
    ensures Connected(all)
  {
    hide Sorted, Connected;
    var p :| p in files && Smallest(p) == smallest;
    var q :| q in files && Largest(q) == largest;
    forall f | f in all
      ensures First(p).u <= Last(f).u && First(f).u <= Last(q).u
    {
      WithinFile(f, First(f));
    }
    ConnectedExtend(files, p, q, all);
  }

  /** The files of level+1 that a set of chosen files drags in. */
  method NextLevelInputs(v: Version, level: nat, in0: seq<File>)
    returns (in1: seq<File>, smallest: InternalKey, largest: InternalKey)
    requires level + 1 < NUM_LEVELS && in0 != []
    ensures IsSmallest(in0, smallest) && IsLargest(in0, largest) && Subset(in1, v[level + 1])
    ensures TakesOverlap(v[level + 1], in1, smallest, largest)
    ensures in1 == OverlapSet(v[level + 1], Some(smallest.u), Some(largest.u))
    ensures Connected(in0) ==> Connected(in0 + in1)
  {
    hide Sorted, Connected, NoGap, Least, Closed;
    smallest, largest := GetRange(in0);
    ghost var lo, hi;
    in1, lo, hi := GetOverlappingInputs(level + 1, v[level + 1], Some(smallest), Some(largest), []);
    OverlapSetMembers(v[level + 1], lo, hi);
    if Connected(in0) {
      ConnectedByRange(in0, smallest, largest, in1, in0 + in1);
    }
  }

  lemma NoGapOfConnected(files: seq<File>, around: seq<File>, start: InternalKey, limit: InternalKey)
    requires Connected(around) && IsSmallest(around, start) && IsLargest(around, limit)
    ensures NoGap(files, around, Some(start.u), Some(limit.u))
  {
    hide Sorted;
    var p :| p in around && Smallest(p) == start;
    var q :| q in around && Largest(q) == limit;
    forall a, b | a <= b && AvoidsAll(around, a, b)
      ensures b < start.u || limit.u < a
    {
      assert AllAfter(around, b) || AllBefore(around, a);
    }
  }

  lemma ConnectedOfNoGap(files: seq<File>, around: seq<File>, lo: Option<UserKey>, hi: Option<UserKey>,
                         chosen: seq<File>)
    requires NoGap(files, around, lo, hi) && Closed(files, lo, hi)
    requires forall f :: f in chosen <==> f in files && Overlaps(f, lo, hi)
    requires forall f :: f in around ==> Inside(f, lo, hi)
    ensures Connected(around + chosen)
  {
    hide Sorted;
    forall a, b | a <= b && AvoidsAll(around + chosen, a, b)
      ensures AllAfter(around + chosen, b) || AllBefore(around + chosen, a)
    {
      assert AvoidsAll(around, a, b) by {
        forall f | f in around ensures Avoids(f, a, b) { assert f in around + chosen; }
      }
      assert AvoidsOverlapping(files, lo, hi, a, b) by {
        forall f | f in files && Overlaps(f, lo, hi) ensures Avoids(f, a, b) { assert f in around + chosen; }
      }
      forall f | f in around + chosen ensures Inside(f, lo, hi) {}
      forall f | f in around + chosen ensures First(f).u <= Last(f).u { WithinFile(f, First(f)); }
    }
  }

  /** All files of `level` meeting the range of a connected set, connected with it. */
  method GatherRange(v: Version, level: nat, around: seq<File>, start: InternalKey, limit: InternalKey)
    returns (r: seq<File>, ghost lo: Option<UserKey>, ghost hi: Option<UserKey>)
    requires level < NUM_LEVELS && (level > 0 ==> LevelSorted(v[level]))
    requires IsSmallest(around, start) && IsLargest(around, limit)
    ensures Gathered(level, v[level], r, lo, hi)
    ensures level > 0 ==> r == OverlapSet(v[level], Some(start.u), Some(limit.u))
    ensures forall f :: f in v[level] && f in around ==> f in r
    ensures Connected(around) ==> Connected(around + r)
  {
    hide Sorted, Connected, LevelSorted, Contiguous, NoGap, Least;
    r, lo, hi := GetOverlappingInputs(level, v[level], Some(start), Some(limit), around);
    OverlapSetMembers(v[level], lo, hi);
    forall f | f in around
      ensures Inside(f, lo, hi) && Overlaps(f, lo, hi)
    {
      WithinFile(f, First(f));
    }
    if level > 0 {
      OverlapContiguous(v[level], lo, hi);
    }
    if Connected(around) {
      if level == 0 {
        NoGapOfConnected(v[0], around, start, limit);
        ConnectedOfNoGap(v[0], around, lo, hi, r);
      } else {
        ConnectedByRange(around, start, limit, r, around + r);
      }
    }
  }

  lemma ExpansionConnected(next: seq<File>, in0: seq<File>, in1: seq<File>, smallest: InternalKey, largest: InternalKey,
                           expanded0: seq<File>, expanded1: seq<File>, newStart: InternalKey, newLimit: InternalKey)
    requires Subset(in0, expanded0) && Subset(in1, next) && Subset(expanded1, next)
    requires IsSmallest(in0, smallest) && IsLargest(in0, largest)
    requires IsSmallest(expanded0, newStart) && IsLargest(expanded0, newLimit)
    requires TakesOverlap(next, in1, smallest, largest) && TakesOverlap(next, expanded1, newStart, newLimit)
    requires Connected((in0 + in1) + expanded0)
    ensures Connected(expanded0 + expanded1)
  {
    hide Sorted, Connected;
    var all := (in0 + in1) + expanded0;
    assert Subset(in1, expanded1) by {
      StillTaken(next, in0, in1, smallest, largest, expanded0, expanded1, newStart, newLimit);
    }
    var lo, hi := SpanOf(all);
    assert Subset(all, expanded0 + expanded1);
    forall f | f in expanded0 + expanded1
      ensures First(lo).u <= Last(f).u && First(f).u <= Last(hi).u
    {
      if f in expanded0 {
        WithinFile(f, First(f));
        assert f in all;
      } else {
        TakenInSpan(next, expanded0, expanded1, newStart, newLimit, all, lo, hi, f);
      }
    }
    hide TakesOverlap, IsSmallest, IsLargest;
    ConnectedExtend(all, lo, hi, expanded0 + expanded1);
  }

  /** A wider range takes what the narrower one took. */
  lemma StillTaken(next: seq<File>, in0: seq<File>, in1: seq<File>, smallest: InternalKey, largest: InternalKey,
                   expanded0: seq<File>, expanded1: seq<File>, newStart: InternalKey, newLimit: InternalKey)
    requires Subset(in0, expanded0) && Subset(in1, next)
    requires IsSmallest(in0, smallest) && IsLargest(in0, largest) && IsSmallest(expanded0, newStart)
      && IsLargest(expanded0, newLimit)
    requires TakesOverlap(next, in1, smallest, largest) && TakesOverlap(next, expanded1, newStart, newLimit)
    ensures Subset(in1, expanded1)
  {
    hide Sorted;
    var p :| p in in0 && Smallest(p) == smallest;
    var q :| q in in0 && Largest(q) == largest;
    assert newStart.u <= smallest.u && largest.u <= newLimit.u;
  }

  lemma TakenInSpan(next: seq<File>, expanded0: seq<File>, expanded1: seq<File>, newStart: InternalKey,
                    newLimit: InternalKey, all: seq<File>, lo: File, hi: File, f: File)
    requires IsSmallest(expanded0, newStart) && IsLargest(expanded0, newLimit)
      && TakesOverlap(next, expanded1, newStart, newLimit)
    requires Subset(expanded0, all) && Subset(expanded1, next) && f in expanded1
    requires forall g :: g in all ==> First(lo).u <= First(g).u && Last(g).u <= Last(hi).u
    ensures First(lo).u <= Last(f).u && First(f).u <= Last(hi).u
  {
    hide Sorted;
    var p :| p in expanded0 && Smallest(p) == newStart;
    var q :| q in expanded0 && Largest(q) == newLimit;
    assert p in all && q in all && f in next;
  }

  /** Taking all the files instead of `in0` takes more of them, few enough bytes, and no more files of the next level.
      */
  ghost predicate Grows(next: seq<File>, all: seq<File>, in0: seq<File>, in1: seq<File>, expandLimit: nat) {
    && |all| > |in0| && TotalFileSize(in1) + TotalFileSize(all) < expandLimit
    && exists a, b :: IsSmallest(all, a) && IsLargest(all, b) && |OverlapSet(next, Some(a.u), Some(b.u))| == |in1|
  }

  lemma SameRange(files: seq<File>, a: InternalKey, b: InternalKey)
    requires IsSmallest(files, a) && IsLargest(files, b)
    ensures forall c :: IsSmallest(files, c) ==> c == a
    ensures forall c :: IsLargest(files, c) ==> c == b
  {
    hide Sorted;
  }

  /** Grows the files of `level` when that adds no file of level+1 and stays under the byte limit. */
  method TryExpand(v: Version, level: nat, in0: seq<File>, in1: seq<File>, smallest: InternalKey, largest: InternalKey,
                   start: InternalKey, limit: InternalKey, expandLimit: nat)
    returns (out0: seq<File>, out1: seq<File>, newStart: InternalKey, newLimit: InternalKey)
    requires level + 1 < NUM_LEVELS && (level > 0 ==> LevelSorted(v[level]))
    requires in0 != [] && Subset(in0, v[level]) && Subset(in1, v[level + 1]) && OlderClosed(v[level], in0)
    requires IsSmallest(in0, smallest) && IsLargest(in0, largest) && TakesOverlap(v[level + 1], in1, smallest, largest)
    requires IsSmallest(in0 + in1, start) && IsLargest(in0 + in1, limit)
    ensures out0 != [] && Subset(in0, out0) && Subset(out0, v[level]) && Subset(out1, v[level + 1])
      && OlderClosed(v[level], out0)
    ensures IsSmallest(out0, newStart) && IsLargest(out0, newLimit)
      && TakesOverlap(v[level + 1], out1, newStart, newLimit)
    ensures Connected(in0 + in1) ==> Connected(out0 + out1)
    ensures var all := OverlapSet(v[level], Some(start.u), Some(limit.u));
      level > 0 && NoBoundary(v[level], all) ==>
        out0 == if Grows(v[level + 1], all, in0, in1, expandLimit) then all else in0
  {
    hide Sorted, Connected, Gathered, OlderClosed, IsSmallest, IsLargest, TakesOverlap, LevelSorted, NoBoundary,
         OverlapSet, TotalFileSize;
    out0, out1, newStart, newLimit := in0, in1, smallest, largest;
    var gathered, lo, hi := GatherRange(v, level, in0 + in1, start, limit);
    assert in0[0] in in0 + in1 && in0[0] in v[level];
    var expanded0 := CloseInputs(level, v[level], gathered, lo, hi, in0 + in1);
    assert Subset(in0, expanded0) by {
      forall f | f in in0 ensures f in expanded0 { assert f in in0 + in1 && f in v[level]; }
    }
    if |expanded0| > |in0| && TotalFileSize(in1) + TotalFileSize(expanded0) < expandLimit {
      var expanded1, start1, limit1 := NextLevelInputs(v, level, expanded0);
      SameRange(expanded0, start1, limit1);
      if |expanded1| == |in1| {
        if Connected(in0 + in1) {
          ExpansionConnected(v[level + 1], in0, in1, smallest, largest, expanded0, expanded1, start1, limit1);
        }
        out0, out1, newStart, newLimit := expanded0, expanded1, start1, limit1;
      }
    }
  }

  /** Computes the files of level+1, tries to grow the files of `level` without growing level+1, and collects the
      grandparents. `expandLimit` is the byte limit on an expanded compaction. */
  method SetupOtherInputs(v: Version, level: nat, chosen: seq<File>, expandLimit: nat,
                          ghost lo: Option<UserKey>, ghost hi: Option<UserKey>)
    returns (c: Inputs)
    requires level + 1 < NUM_LEVELS && (level > 0 ==> LevelSorted(v[level]))
    requires chosen != [] && Gathered(level, v[level], chosen, lo, hi)
    ensures Picked(v, c) && c.level == level && Subset(chosen, c.in0)
    ensures Connected(chosen) ==> Connected(c.in0 + c.in1)
    ensures ChosenFrom(v, level, chosen, expandLimit, c.in0, c.in1) && HasGrandparents(v, c)
  {
    hide Sorted, Connected, Gathered, OlderClosed, IsSmallest, IsLargest, TakesOverlap, LevelSorted, NoGap, Least,
         Closed, NoBoundary, Grows, OverlapSet;
    var in0, in1, smallest, largest := FirstInputs(v, level, chosen, lo, hi);
    SameRange(in0, smallest, largest);
    var start, limit := GetRange(in0 + in1);
    SameRange(in0 + in1, start, limit);
    if in1 != [] {
      ghost var first := in0;
      in0, in1, smallest, largest := TryExpand(v, level, in0, in1, smallest, largest, start, limit, expandLimit);
      SubsetOf(chosen, first, in0);
      start, limit := GetRange(in0 + in1);
      SameRange(in0 + in1, start, limit);
    }
    var grandparents := Grandparents(v, level, start, limit);
    c := Inputs(level, in0, in1, smallest, largest, grandparents);
  }

  /** Where boundary files play no part, above level 0: the chosen files with those of level+1 in their range, grown to
      all files in the range of both exactly if that is possible. */
  ghost predicate ChosenFrom(v: Version, level: nat, chosen: seq<File>, expandLimit: nat, in0: seq<File>,
                             in1: seq<File>)
    requires level + 1 < NUM_LEVELS
  {
    level > 0 && NoBoundary(v[level], chosen) ==>
      forall a, b :: IsSmallest(chosen, a) && IsLargest(chosen, b) ==>
        GrownFrom(v[level], v[level + 1], chosen, OverlapSet(v[level + 1], Some(a.u), Some(b.u)), expandLimit, in0, in1)
  }

  ghost predicate GrownFrom(files: seq<File>, next: seq<File>, chosen: seq<File>, overlap: seq<File>, expandLimit: nat,
                            in0: seq<File>, in1: seq<File>)
  {
    if overlap == [] then in0 == chosen && in1 == []
    else
      forall a, b :: IsSmallest(chosen + overlap, a) && IsLargest(chosen + overlap, b) ==>
        var all := OverlapSet(files, Some(a.u), Some(b.u));
        NoBoundary(files, all) ==> in0 == if Grows(next, all, chosen, overlap, expandLimit) then all else chosen
  }

  /** The grandparents are the files two levels down in the range of all inputs. */
  ghost predicate HasGrandparents(v: Version, c: Inputs) {
    if c.level + 2 < NUM_LEVELS then
      forall a, b :: IsSmallest(c.in0 + c.in1, a) && IsLargest(c.in0 + c.in1, b) ==>
        c.grandparents == OverlapSet(v[c.level + 2], Some(a.u), Some(b.u))
    else c.grandparents == []
  }

  lemma SubsetOf(a: seq<File>, b: seq<File>, c: seq<File>)
    requires Subset(a, b) && Subset(b, c)
    ensures Subset(a, c)
  {
    hide Sorted;
  }

  /** The chosen files with their boundary files, and the files of level+1 that overlap them. */
  method FirstInputs(v: Version, level: nat, chosen: seq<File>, ghost lo: Option<UserKey>, ghost hi: Option<UserKey>)
    returns (in0: seq<File>, in1: seq<File>, smallest: InternalKey, largest: InternalKey)
    requires level + 1 < NUM_LEVELS && chosen != [] && Gathered(level, v[level], chosen, lo, hi)
    ensures in0 != [] && Subset(chosen, in0) && Subset(in0, v[level]) && Subset(in1, v[level + 1])
      && OlderClosed(v[level], in0)
    ensures IsSmallest(in0, smallest) && IsLargest(in0, largest) && TakesOverlap(v[level + 1], in1, smallest, largest)
    ensures Connected(chosen) ==> Connected(in0 + in1)
    ensures NoBoundary(v[level], chosen) ==> in0 == chosen
    ensures in1 == OverlapSet(v[level + 1], Some(smallest.u), Some(largest.u))
  {
    hide Sorted, Connected, Gathered, OlderClosed, IsSmallest, IsLargest, TakesOverlap, NoBoundary, OverlapSet;
    in0 := CloseInputs(level, v[level], chosen, lo, hi, []);
    assert [] + chosen == chosen && [] + in0 == in0;
    in1, smallest, largest := NextLevelInputs(v, level, in0);
  }

  method Grandparents(v: Version, level: nat, start: InternalKey, limit: InternalKey) returns (grandparents: seq<File>)
    ensures level + 2 < NUM_LEVELS ==> grandparents == OverlapSet(v[level + 2], Some(start.u), Some(limit.u))
    ensures level + 2 >= NUM_LEVELS ==> grandparents == []
  {
    hide Sorted, NoGap, Least, Closed, OverlapSet, Contains;
    grandparents := [];
    if level + 2 < NUM_LEVELS {
      ghost var lo, hi;
      grandparents, lo, hi := GetOverlappingInputs(level + 2, v[level + 2], Some(start), Some(limit), []);
    }
  }

  /** Inputs around a file chosen by size or by seeks. They leave no gap, so that a memtable flushed meanwhile
      cannot land between them. */
  method PickCompaction(v: Version, level: nat, picked: File, expandLimit: nat) returns (c: Inputs)
    requires level + 1 < NUM_LEVELS && picked in v[level] && (level > 0 ==> LevelSorted(v[level]))
    ensures Picked(v, c) && c.level == level && picked in c.in0
    ensures Connected(c.in0 + c.in1)
    ensures ChosenFrom(v, level, [picked], expandLimit, c.in0, c.in1) && HasGrandparents(v, c)
  {
    hide Sorted, Connected, LevelSorted, NoGap, Least, Closed, Contiguous, HasGrandparents;
    var chosen := [picked];
    ghost var lo: Option<UserKey>, hi: Option<UserKey> := None, None;
    assert Connected(chosen) by { SingleConnected(picked); }
    if level == 0 {
      var smallest, largest := GetRange(chosen);
      ghost var around := chosen;
      chosen, lo, hi := GatherRange(v, 0, chosen, smallest, largest);
      SameMembersConnected(around + chosen, chosen);
    } else {
      SingleContiguous(v[level], picked);
    }
    c := SetupOtherInputs(v, level, chosen, expandLimit, lo, hi);
  }

  lemma SingleConnected(f: File)
    ensures Connected([f])
  {
    forall a, b | a <= b && AvoidsAll([f], a, b)
      ensures AllAfter([f], b) || AllBefore([f], a)
    {
      assert f in [f];
    }
  }

  lemma SameMembersConnected(files: seq<File>, same: seq<File>)
    requires Connected(files) && forall f :: f in files <==> f in same
    ensures Connected(same)
  {
    forall a, b | a <= b && AvoidsAll(same, a, b)
      ensures AllAfter(same, b) || AllBefore(same, a)
    {
      assert AvoidsAll(files, a, b);
    }
  }

  /** Inputs of a manual compaction of [begin, end], cut short above level 0 once they reach `sizeLimit` bytes. */
  method CompactRange(v: Version, level: nat, begin: Option<InternalKey>, end: Option<InternalKey>, sizeLimit: nat,
                      expandLimit: nat)
    returns (r: Option<Inputs>)
    requires level + 1 < NUM_LEVELS && (level > 0 ==> LevelSorted(v[level]))
    ensures r.None? ==> forall f :: f in v[level] ==> !Overlaps(f, UserOf(begin), UserOf(end))
    ensures r.Some? ==> Picked(v, r.value) && r.value.level == level && HasGrandparents(v, r.value)
    ensures r.Some? && level > 0 ==>
      forall n: nat :: ShortestAbove(OverlapSet(v[level], UserOf(begin), UserOf(end)), sizeLimit, n) ==>
        var chosen := OverlapSet(v[level], UserOf(begin), UserOf(end))[..n];
        Subset(chosen, r.value.in0) && ChosenFrom(v, level, chosen, expandLimit, r.value.in0, r.value.in1)
  {
    hide Sorted, Connected, LevelSorted, NoGap, Least, Picked, HasGrandparents, ChosenFrom, Contiguous, OverlapSet;
    var inputs, lo, hi := GetOverlappingInputs(level, v[level], begin, end, []);
    OverlapSetMembers(v[level], lo, hi);
    if inputs == [] {
      return None;
    }
    if level > 0 {
      OverlapContiguous(v[level], lo, hi);
      var n := CutBySize(inputs, sizeLimit);
      OverlapPrefix(v[level], lo, hi, n);
      OnlyCut(inputs, sizeLimit, n);
      inputs := inputs[..n];
    }
    var c := SetupOtherInputs(v, level, inputs, expandLimit, lo, hi);
    r := Some(c);
  }

  /** The first `n` files are the fewest that reach the limit, or all of them. */
  ghost predicate ShortestAbove(files: seq<File>, limit: nat, n: nat) {
    && 0 < n <= |files| && (n < |files| ==> TotalFileSize(files[..n]) >= limit)
    && forall m :: 0 < m < n ==> TotalFileSize(files[..m]) < limit
  }

  lemma OnlyCut(files: seq<File>, limit: nat, n: nat)
    requires ShortestAbove(files, limit, n)
    ensures forall m: nat :: ShortestAbove(files, limit, m) ==> m == n
  {
    hide Sorted, TotalFileSize;
  }

  method CutBySize(files: seq<File>, limit: nat) returns (n: nat)
    requires files != []
    ensures ShortestAbove(files, limit, n)
  {
    hide Sorted, TotalFileSize;
    var total := 0;
    n := 0;
    assert TotalFileSize(files[..0]) == 0 by { NoFiles(); }
    while n < |files|
      invariant 0 <= n <= |files| && total == TotalFileSize(files[..n])
      invariant forall m :: 0 < m <= n ==> TotalFileSize(files[..m]) < limit
    {
      total := total + files[n].size;
      TotalOneMore(files[..n], files[n]);
      assert files[..n + 1] == files[..n] + [files[n]];
      n := n + 1;
      if total >= limit {
        return;
      }
    }
  }

  lemma NoFiles()
    ensures TotalFileSize([]) == 0
  {
  }

  lemma {:induction false} TotalOneMore(fs: seq<File>, f: File)
    ensures TotalFileSize(fs + [f]) == TotalFileSize(fs) + f.size
  {
    if fs != [] {
      TotalOneMore(fs[1..], f);
      assert (fs + [f])[1..] == fs[1..] + [f];
    } else {
      assert fs + [f] == [f] && [f][1..] == [];
    }
  }

  lemma {:induction false} OverlapPrefixSource(files: seq<File>, lo: Option<UserKey>, hi: Option<UserKey>, n: nat)
    returns (m: nat)
    requires n <= |OverlapSet(files, lo, hi)|
    ensures m <= |files| && OverlapSet(files, lo, hi)[..n] == OverlapSet(files[..m], lo, hi)
  {
    m := |files|;
    if n == |OverlapSet(files, lo, hi)| {
      assert files[..m] == files;
    } else {
      var shorter := files[..|files| - 1];
      m := OverlapPrefixSource(shorter, lo, hi, n);
      assert shorter[..m] == files[..m];
    }
  }

  /** Cutting an ordered run of neighbours short leaves a run of neighbours. */
  lemma OverlapPrefix(files: seq<File>, lo: Option<UserKey>, hi: Option<UserKey>, n: nat)
    requires LevelSorted(files) && n <= |OverlapSet(files, lo, hi)|
    ensures Contiguous(files, OverlapSet(files, lo, hi)[..n])
  {
    hide Sorted, LevelSorted, Overlaps;
    var m := OverlapPrefixSource(files, lo, hi, n);
    var chosen := OverlapSet(files[..m], lo, hi);
    OverlapSetMembers(files[..m], lo, hi);
    OverlapSetMembers(files, lo, hi);
    OverlapContiguous(files, lo, hi);
    forall i, j, k | 0 <= i < j < k < |files| && files[i] in chosen && files[k] in chosen
      ensures files[j] in chosen
    {
      var k' :| 0 <= k' < m && files[..m][k'] == files[k];
      SameIndex(files, k, k');
      assert files[j] in OverlapSet(files, lo, hi);
      assert files[..m][j] == files[j];
    }
  }

  // ---------------------------------------------------------------------------------------------------------
  // The level of a flushed memtable
  // ---------------------------------------------------------------------------------------------------------

  /** Deepest level to which a flushed memtable is pushed. */
  const MAX_MEM_COMPACT_LEVEL: nat := 2

  /** A table over [a, b] may be placed at `level`: it overlaps nothing in the levels it passes. */
  ghost predicate FlushLevel(v: Version, a: UserKey, b: UserKey, level: nat) {
    level <= MAX_MEM_COMPACT_LEVEL && (level > 0 ==> forall l :: 0 <= l <= level ==> AvoidsAll(v[l], a, b))
  }

  /** The deepest such level, except that a table overlapping too many grandparent bytes stays higher. */
  method PickLevelForMemTableOutput(v: Version, smallest: UserKey, largest: UserKey, overlapLimit: nat)
    returns (level: nat)
    requires smallest <= largest && forall l :: 1 <= l < NUM_LEVELS ==> LevelSorted(v[l])
    ensures FlushLevel(v, smallest, largest, level)
    ensures level == 0 ==> !AvoidsAll(v[0], smallest, largest) || !AvoidsAll(v[1], smallest, largest)
                           || TotalFileSize(OverlapSet(v[2], Some(smallest), Some(largest))) > overlapLimit
    ensures level == 1 ==> !AvoidsAll(v[2], smallest, largest)
                           || TotalFileSize(OverlapSet(v[3], Some(smallest), Some(largest))) > overlapLimit
    ensures level <= 2
    ensures level >= 1 ==> TotalFileSize(OverlapSet(v[2], Some(smallest), Some(largest))) <= overlapLimit
    ensures level == 2 ==> TotalFileSize(OverlapSet(v[3], Some(smallest), Some(largest))) <= overlapLimit
  {
    hide Sorted, LevelSorted, NoGap, Least, Closed, TotalFileSize;
    level := 0;
    var overlap := SomeFileOverlapsRange(false, v[0], Some(smallest), Some(largest));
    if !overlap {
      assert AvoidsAll(v[0], smallest, largest);
      while level < MAX_MEM_COMPACT_LEVEL
        invariant 0 <= level <= MAX_MEM_COMPACT_LEVEL
        invariant forall l :: 0 <= l <= level ==> AvoidsAll(v[l], smallest, largest)
        invariant forall l :: 2 <= l <= level + 1 ==>
          TotalFileSize(OverlapSet(v[l], Some(smallest), Some(largest))) <= overlapLimit
      {
        var o := SomeFileOverlapsRange(true, v[level + 1], Some(smallest), Some(largest));
        if o {
          break;
        }
        assert AvoidsAll(v[level + 1], smallest, largest);
        if level + 2 < NUM_LEVELS {
          var overlaps, lo, hi := GetOverlappingInputs(level + 2, v[level + 2], Some(SeekKey(smallest, MAX_SEQUENCE)),
                                                       Some(InternalKey(largest, 0)), []);
          if TotalFileSize(overlaps) > overlapLimit {
            break;
          }
        }
        level := level + 1;
      }
    }
  }
}
