/** The iterator over one snapshot of the database, in both directions (db/db_iter.cc). */
module SnapshotIterators {
  import opened InternalKeys
  import opened Views
  import opened MergingIterators

  /** Entry r is what a reader at `s` sees of its user key: the newest entry not above `s`, and not a deletion. */
  ghost predicate Live(merged: seq<Entry>, s: nat, r: int) {
    && 0 <= r < |merged| && merged[r].seqno <= s && merged[r].kind.Put?
    && forall k :: 0 <= k < r && merged[k].u == merged[r].u ==> merged[k].seqno > s
  }

  /** The live entries are the snapshot: one per user key that has a value, with that value, in key order. */
  lemma LiveIsView(merged: seq<Entry>, s: nat, u: UserKey)
    requires Sorted(merged)
    ensures View(Of(merged), u, s).Some? <==> exists r :: Live(merged, s, r) && merged[r].u == u
    ensures forall r :: Live(merged, s, r) && merged[r].u == u ==> View(Of(merged), u, s) == Some(merged[r].kind.value)
    ensures forall r, q :: Live(merged, s, r) && Live(merged, s, q) ==> (r < q <==> merged[r].u < merged[q].u)
  {
    var c := Of(merged);
    assert UniqueSeqs(c);
    forall r | Live(merged, s, r) && merged[r].u == u
      ensures IsNewest(c, u, s, merged[r]) && View(c, u, s) == Some(merged[r].kind.value)
    {
      assert IsNewest(c, u, s, merged[r]);
      ViewIsNewest(c, u, s, merged[r]);
    }
    var found, e := ViewCases(c, u, s);
    if found && e.kind.Put? {
      var r :| 0 <= r < |merged| && merged[r] == e;
      forall k | 0 <= k < r && merged[k].u == u
        ensures merged[k].seqno > s
      {
        assert Precedes(merged[k], merged[r]) && merged[k] in c;
      }
      assert Live(merged, s, r);
    }
    forall r, q | Live(merged, s, r) && Live(merged, s, q) && r < q
      ensures merged[r].u < merged[q].u
    {
      assert Precedes(merged[r], merged[q]);
    }
  }

  /** Scanning forward from q0, everything of an older, visible user key is to be skipped. */
  ghost predicate Covered(merged: seq<Entry>, s: nat, q: nat, skipping: bool, skip: UserKey) {
    && (forall k, j :: 0 <= k < q <= j < |merged| && merged[k].u == merged[j].u && merged[k].seqno <= s
          ==> skipping && merged[j].u <= skip)
    && (skipping ==> forall j :: q <= j < |merged| && merged[j].seqno <= s ==> merged[j].u >= skip)
  }

  /** A live entry at or after q0 that the scan is asked for. */
  ghost predicate Wanted(merged: seq<Entry>, s: nat, q0: nat, skipping: bool, skip: UserKey, r: int) {
    q0 <= r && Live(merged, s, r) && !(skipping && merged[r].u <= skip)
  }

  /** The inner iterator stands behind the live entry `cur`, with nothing visible in between. */
  ghost predicate Behind(merged: seq<Entry>, s: nat, cur: nat, at: nat)
    requires cur < |merged|
  {
    var q: int := if at >= |merged| then -1 else at;
    && q < cur && (q >= 0 ==> merged[q].u < merged[cur].u)
    && forall k :: q < k < cur ==> merged[k].seqno > s
  }

  class DBIter {
    const iter: MergingIterator
    const sequence: SequenceNumber
    var forward: bool
    var valid: bool
    var savedKey: UserKey
    var savedValue: string
    ghost var cur: nat

    ghost predicate Inv()
      reads this, iter
    {
      && iter.Valid()
      && (valid ==> Live(iter.merged, sequence, cur)
                    && (forward ==> iter.at == cur)
                    && (!forward ==> savedKey == iter.merged[cur].u && iter.merged[cur].kind == Put(savedValue)
                                     && Behind(iter.merged, sequence, cur, iter.at)))
    }

    constructor (iter: MergingIterator, sequence: SequenceNumber)
      requires iter.Valid()
      ensures Inv() && !valid && this.iter == iter && this.sequence == sequence
    {
      this.iter, this.sequence := iter, sequence;
      forward, valid, savedKey, savedValue, cur := true, false, 0, "", 0;
    }

    /** What the caller sees is the live entry the iterator stands on. */
    function Key(): (u: UserKey)
      requires Inv() && valid
      reads this, iter
      ensures u == iter.merged[cur].u
    {
      if forward then iter.Current().u else savedKey
    }

    function Value(): (x: string)
      requires Inv() && valid
      reads this, iter
      ensures Put(x) == iter.merged[cur].kind
    {
      if forward then iter.Current().kind.value else savedValue
    }

    method FindNextUserEntry(skipping: bool, skip: UserKey)
      requires iter.Valid() && iter.HasEntry() && forward && Covered(iter.merged, sequence, iter.at, skipping, skip)
      modifies this, iter
      ensures Inv() && forward
      ensures valid ==> Wanted(iter.merged, sequence, old(iter.at), skipping, skip, cur)
      ensures forall r :: Wanted(iter.merged, sequence, old(iter.at), skipping, skip, r) ==> valid && cur <= r
    {
      hide MergeOf, Sorted;
      var skipping', skip' := skipping, skip;
      ghost var q0 := iter.at;
      while iter.HasEntry()
        invariant iter.Valid() && q0 <= iter.at && forward
        invariant Covered(iter.merged, sequence, iter.at, skipping', skip')
        invariant forall r :: Wanted(iter.merged, sequence, q0, skipping, skip, r) ==>
          iter.at <= r && !(skipping' && iter.merged[r].u <= skip')
        invariant skipping ==> skipping' && skip <= skip'
        decreases |iter.merged| - iter.at
      {
        var e := iter.Current();
        ScanStep(iter.children, iter.merged, sequence, iter.at, skipping', skip');
        if e.seqno <= sequence {
          match e.kind
          case Deletion =>
            skip' := e.u;
            skipping' := true;
          case Put(_) =>
            if skipping' && e.u <= skip' {
            } else {
              valid := true;
              cur := iter.at;
              return;
            }
        }
        iter.Next();
      }
      valid := false;
    }

    /** Moves to the least live entry after the current one. */
    method Next()
      requires Inv() && valid
      modifies this, iter
      ensures Inv()
      ensures valid ==> old(cur) < cur && Live(iter.merged, sequence, cur)
      ensures forall r :: old(cur) < r && Live(iter.merged, sequence, r) ==> valid && cur <= r
    {
      hide MergeOf, Sorted, Covered, Wanted, Live, Behind;
      ghost var c0 := cur;
      LiveInRange(iter.merged, sequence, cur);
      if !forward {
        forward := true;
        BehindFacts(iter.children, iter.merged, sequence, cur, iter.at);
        if !iter.HasEntry() {
          iter.SeekToFirst();
        } else {
          iter.Next();
        }
      } else {
        savedKey := iter.Current().u;
        iter.Next();
      }
      if !iter.HasEntry() {
        valid := false;
        NoneAfter(iter.merged, sequence);
        return;
      }
      AfterCurrent(iter.children, iter.merged, sequence, c0, iter.at);
      ghost var q := iter.at;
      FindNextUserEntry(true, savedKey);
      WantedIsLater(iter.children, iter.merged, sequence, c0, q);
    }

    method Seek(target: UserKey)
      requires Inv()
      modifies this, iter
      ensures Inv()
      ensures valid ==> target <= iter.merged[cur].u && Live(iter.merged, sequence, cur)
      ensures forall r :: Live(iter.merged, sequence, r) && target <= iter.merged[r].u ==> valid && cur <= r
    {
      hide MergeOf, Sorted, Covered, Wanted, Live;
      forward := true;
      iter.Seek(SeekKey(target, sequence));
      SoughtFacts(iter.children, iter.merged, sequence, target, iter.at);
      ghost var q := iter.at;
      if iter.HasEntry() {
        var skip := savedKey;
        FindNextUserEntry(false, skip);
        assert forall r :: Live(iter.merged, sequence, r) && target <= iter.merged[r].u ==>
          Wanted(iter.merged, sequence, q, false, skip, r);
      } else {
        valid := false;
      }
    }

    /** Finds the greatest live entry at or before the inner position. */
    method FindPrevUserEntry()
      requires iter.Valid() && !forward
      modifies this, iter
      ensures Inv()
      ensures valid ==> !forward && cur <= old(iter.at) < |iter.merged| && Live(iter.merged, sequence, cur)
      ensures old(iter.at) < |iter.merged| ==>
        forall r :: Live(iter.merged, sequence, r) && r <= old(iter.at) ==> valid && r <= cur
    {
      hide MergeOf, Sorted, Scanned, Live, Behind;
      var deleted := true;
      valid := false;
      if iter.HasEntry() {
        ghost var q0 := iter.at;
        ghost var m: int := q0 + 1;
        NothingScanned(iter.merged, sequence, q0);
        while iter.HasEntry()
          invariant iter.Valid() && !valid && !forward
          invariant Scanned(iter.merged, sequence, if iter.at < |iter.merged| then iter.at else -1, q0, m)
          invariant 0 <= m <= q0 + 1 <= |iter.merged|
          invariant deleted <==> m == q0 + 1 || iter.merged[m].kind.Deletion?
          invariant !deleted ==> savedKey == iter.merged[m].u && iter.merged[m].kind == Put(savedValue)
          decreases if iter.at < |iter.merged| then iter.at + 1 else 0
        {
          var e := iter.Current();
          ScannedStep(iter.children, iter.merged, sequence, iter.at, q0, m);
          if e.seqno <= sequence {
            if !deleted && e.u < savedKey {
              cur := m;
              break;
            }
            m := iter.at;
            match e.kind
            case Deletion => deleted := true;
            case Put(x) =>
              deleted := false;
              savedKey, savedValue := e.u, x;
          }
          iter.Prev();
        }
        ScannedResult(iter.merged, sequence, if iter.at < |iter.merged| then iter.at else -1, q0, m, deleted);
        if !deleted {
          cur := m;
        }
      }
      if deleted {
        valid := false;
        forward := true;
      } else {
        valid := true;
      }
    }

    /** Moves to the greatest live entry before the current one. */
    method Prev()
      requires Inv() && valid
      modifies this, iter
      ensures Inv()
      ensures valid ==> cur < old(cur) && Live(iter.merged, sequence, cur)
      ensures forall r :: Live(iter.merged, sequence, r) && r < old(cur) ==> valid && r <= cur
    {
      hide MergeOf, Sorted, Live, Behind;
      ghost var c0 := cur;
      LiveInRange(iter.merged, sequence, cur);
      if forward {
        savedKey := iter.Current().u;
        iter.Prev();
        while iter.HasEntry() && iter.Current().u >= savedKey
          invariant iter.Valid() && savedKey == iter.merged[c0].u && valid && forward
          invariant iter.at < |iter.merged| ==>
            iter.at < c0 && forall k :: iter.at < k < c0 ==> iter.merged[k].u == iter.merged[c0].u
          invariant iter.at == |iter.merged| ==> forall k :: 0 <= k < c0 ==> iter.merged[k].u == iter.merged[c0].u
          decreases if iter.at < |iter.merged| then iter.at + 1 else 0
        {
          SameKeyBefore(iter.children, iter.merged, iter.at, c0);
          iter.Prev();
        }
        SameKeyNotLive(iter.merged, sequence, c0);
        if !iter.HasEntry() {
          valid := false;
          return;
        }
        forward := false;
      } else {
        BehindNotLive(iter.merged, sequence, c0, iter.at);
      }
      FindPrevUserEntry();
    }

    method SeekToLast()
      requires Inv()
      modifies this, iter
      ensures Inv()
      ensures valid ==> Live(iter.merged, sequence, cur)
      ensures forall r :: Live(iter.merged, sequence, r) ==> valid && r <= cur
    {
      hide MergeOf, Sorted;
      forward := false;
      iter.SeekToLast();
      FindPrevUserEntry();
    }

    method SeekToFirst()
      requires Inv()
      modifies this, iter
      ensures Inv()
      ensures valid ==> Live(iter.merged, sequence, cur)
      ensures forall r :: Live(iter.merged, sequence, r) ==> valid && cur <= r
    {
      hide MergeOf, Sorted;
      forward := true;
      iter.SeekToFirst();
      if iter.HasEntry() {
        var skip := savedKey;
        FindNextUserEntry(false, skip);
        assert forall r :: Live(iter.merged, sequence, r) ==> Wanted(iter.merged, sequence, 0, false, skip, r);
      } else {
        valid := false;
      }
    }
  }

  /** While scanning backwards over (q, q0], m is the first visible entry seen so far, or q0 + 1 if there is none. */
  ghost predicate Scanned(merged: seq<Entry>, s: nat, q: int, q0: int, m: int) {
    && -1 <= q <= q0 < |merged| && q < m <= q0 + 1
    && (forall k :: q < k < m ==> merged[k].seqno > s)
    && (m <= q0 ==> merged[m].seqno <= s)
    && (forall j :: q < j <= q0 && Live(merged, s, j) ==> j == m)
  }

  lemma ScannedStep(children: seq<seq<Entry>>, merged: seq<Entry>, s: nat, q: int, q0: int, m: int)
    requires MergeOf(children, merged) && q >= 0 && Scanned(merged, s, q, q0, m)
    ensures merged[q].seqno > s ==> Scanned(merged, s, q - 1, q0, m)
    ensures merged[q].seqno <= s && (m > q0 || merged[m].kind.Deletion? || merged[q].u == merged[m].u) ==>
      Scanned(merged, s, q - 1, q0, q)
    ensures merged[q].seqno <= s && m <= q0 && merged[m].kind.Put? && merged[q].u < merged[m].u
            ==> Live(merged, s, m) && Behind(merged, s, m, q)
    ensures m <= q0 ==> merged[q].u <= merged[m].u
  {
    assert Sorted(merged);
    assert m <= q0 ==> Precedes(merged[q], merged[m]);
    forall k | 0 <= k < q
      ensures merged[k].u <= merged[q].u
    {
      assert Precedes(merged[k], merged[q]);
    }
  }

  lemma ScannedEnd(merged: seq<Entry>, s: nat, q0: int, m: int)
    requires Scanned(merged, s, -1, q0, m) && m <= q0 && merged[m].kind.Put?
    ensures Live(merged, s, m) && Behind(merged, s, m, |merged|)
  {
  }

  lemma LiveInRange(merged: seq<Entry>, s: nat, r: int)
    requires Live(merged, s, r)
    ensures 0 <= r < |merged|
  {
  }

  lemma NothingScanned(merged: seq<Entry>, s: nat, q0: nat)
    requires q0 < |merged|
    ensures Scanned(merged, s, q0, q0, q0 + 1)
  {
  }

  lemma ScannedResult(merged: seq<Entry>, s: nat, q: int, q0: int, m: int, deleted: bool)
    requires Scanned(merged, s, q, q0, m) && (deleted <==> m == q0 + 1 || merged[m].kind.Deletion?)
    requires q == -1 || (Live(merged, s, m) && !deleted)
    ensures forall r :: Live(merged, s, r) && r <= q0 ==> !deleted && r <= m
    ensures !deleted ==> 0 <= m <= q0 && Live(merged, s, m) && (q == -1 ==> Behind(merged, s, m, |merged|))
  {
    if q == -1 && !deleted {
      ScannedEnd(merged, s, q0, m);
    }
  }

  lemma SameKeyBefore(children: seq<seq<Entry>>, merged: seq<Entry>, q: nat, c: nat)
    requires MergeOf(children, merged) && q < c < |merged| && merged[q].u >= merged[c].u
    ensures merged[q].u == merged[c].u
  {
    assert Sorted(merged);
    assert Precedes(merged[q], merged[c]);
  }

  /** Of one user key only one entry is live. */
  lemma SameKeyNotLive(merged: seq<Entry>, s: nat, c: int)
    requires Live(merged, s, c)
    ensures forall r :: Live(merged, s, r) && r < c ==> merged[r].u != merged[c].u
    ensures forall r :: Live(merged, s, r) ==> 0 <= r < |merged|
  {
  }

  lemma BehindNotLive(merged: seq<Entry>, s: nat, c: nat, at: nat)
    requires Live(merged, s, c) && Behind(merged, s, c, at)
    ensures forall r :: Live(merged, s, r) && r < c ==> at < |merged| && r <= at
    ensures at < |merged| ==> at < c
  {
  }

  lemma NoneAfter(merged: seq<Entry>, s: nat)
    ensures forall r :: r >= |merged| ==> !Live(merged, s, r)
  {
  }

  lemma BehindFacts(children: seq<seq<Entry>>, merged: seq<Entry>, s: nat, cur: nat, at: nat)
    requires MergeOf(children, merged) && Live(merged, s, cur) && at <= |merged| && Behind(merged, s, cur, at)
    ensures at < |merged| ==> at < cur
    ensures |merged| > 0
    ensures var q := if at == |merged| then 0 else at + 1;
            q <= cur < |merged| && Covered(merged, s, q, true, merged[cur].u)
  {
    assert Sorted(merged);
    var q := if at == |merged| then 0 else at + 1;
    forall k, j | 0 <= k < q <= j < |merged| && merged[k].u == merged[j].u
      ensures merged[j].u <= merged[cur].u
    {
      assert k < at ==> Precedes(merged[k], merged[at]);
    }
    forall j | q <= j < |merged| && merged[j].seqno <= s
      ensures merged[j].u >= merged[cur].u
    {
      assert cur < j ==> Precedes(merged[cur], merged[j]);
    }
  }

  lemma AfterCurrent(children: seq<seq<Entry>>, merged: seq<Entry>, s: nat, cur: nat, q: nat)
    requires MergeOf(children, merged) && Live(merged, s, cur)
      && (q == cur + 1 || Covered(merged, s, q, true, merged[cur].u))
    ensures Covered(merged, s, q, true, merged[cur].u)
  {
    assert Sorted(merged);
    if q == cur + 1 {
      forall k, j | 0 <= k < q <= j < |merged| && merged[k].u == merged[j].u
        ensures merged[j].u <= merged[cur].u
      {
        assert k < cur ==> Precedes(merged[k], merged[cur]);
        assert Precedes(merged[cur], merged[j]);
      }
      forall j | q <= j < |merged|
        ensures merged[j].u >= merged[cur].u
      {
        assert Precedes(merged[cur], merged[j]);
      }
    }
  }

  lemma WantedIsLater(children: seq<seq<Entry>>, merged: seq<Entry>, s: nat, cur: nat, q: nat)
    requires MergeOf(children, merged) && Live(merged, s, cur) && q <= cur + 1
    ensures forall r :: Wanted(merged, s, q, true, merged[cur].u, r) <==> cur < r && Live(merged, s, r)
    ensures forall r :: Wanted(merged, s, q, true, merged[cur].u, r) ==> Live(merged, s, r)
  {
    assert Sorted(merged);
    forall r | Live(merged, s, r)
      ensures cur < r <==> merged[r].u > merged[cur].u
    {
      assert cur < r ==> Precedes(merged[cur], merged[r]);
      assert r < cur ==> Precedes(merged[r], merged[cur]);
    }
  }

  lemma SoughtFacts(children: seq<seq<Entry>>, merged: seq<Entry>, s: SequenceNumber, target: UserKey, q: nat)
    requires MergeOf(children, merged) && q <= |merged|
    requires forall r :: 0 <= r < q ==> KeyLess(KeyOf(merged[r]), SeekKey(target, s))
    requires forall r :: q <= r < |merged| ==> !KeyLess(KeyOf(merged[r]), SeekKey(target, s))
    ensures forall skip :: Covered(merged, s, q, false, skip)
    ensures forall skip, r :: Wanted(merged, s, q, false, skip, r) <==> Live(merged, s, r) && target <= merged[r].u
    ensures forall r :: Live(merged, s, r) ==> 0 <= r < |merged|
    ensures forall skip, r :: Wanted(merged, s, q, false, skip, r) ==> Live(merged, s, r)
    ensures q == |merged| ==> forall r :: Live(merged, s, r) ==> merged[r].u < target
  {
    assert Sorted(merged);
    forall r | 0 <= r < |merged|
      ensures r < q <==> merged[r].u < target || (merged[r].u == target && merged[r].seqno > s)
    {
    }
  }

  /** One entry further: what the scan has passed stays covered, under the skip key the entry leaves behind. */
  lemma ScanStep(children: seq<seq<Entry>>, merged: seq<Entry>, s: nat, q: nat, skipping: bool, skip: UserKey)
    requires MergeOf(children, merged) && q < |merged| && Covered(merged, s, q, skipping, skip)
    ensures merged[q].seqno > s ==> Covered(merged, s, q + 1, skipping, skip)
    ensures merged[q].seqno <= s && merged[q].kind.Deletion? ==> Covered(merged, s, q + 1, true, merged[q].u)
    ensures merged[q].seqno <= s && merged[q].kind.Deletion? ==>
      forall r :: q < r && Live(merged, s, r) ==> merged[r].u > merged[q].u
    ensures merged[q].seqno <= s && skipping && merged[q].u <= skip ==> Covered(merged, s, q + 1, skipping, skip)
    ensures merged[q].seqno <= s && merged[q].kind.Put? && !(skipping && merged[q].u <= skip) ==> Live(merged, s, q)
    ensures merged[q].seqno <= s && skipping ==> skip <= merged[q].u
  {
    assert Sorted(merged);
    forall j | q < j < |merged|
      ensures merged[q].u <= merged[j].u
    {
      assert Precedes(merged[q], merged[j]);
    }
  }
}
