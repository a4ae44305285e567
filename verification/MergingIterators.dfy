/** The merging iterator over sorted children (table/merger.cc). */
module MergingIterators {
  import opened InternalKeys

  /** `merged` lists the entries of all children in order, each held by exactly one child. */
  ghost predicate MergeOf(children: seq<seq<Entry>>, merged: seq<Entry>) {
    && Sorted(merged)
    && (forall i :: 0 <= i < |children| ==> Sorted(children[i]))
    && (forall e :: e in merged <==> exists i :: 0 <= i < |children| && e in children[i])
    && (forall i, j, e :: 0 <= i < |children| && 0 <= j < |children| && e in children[i] && e in children[j] ==> i == j)
  }

  lemma RankUnique(merged: seq<Entry>, r: nat, q: nat)
    requires Sorted(merged) && r < |merged| && q < |merged| && merged[r] == merged[q]
    ensures r == q
  {
  }

  /** Position of an entry in the merged order. */
  ghost function Rank(merged: seq<Entry>, e: Entry): (r: nat)
    requires e in merged
    ensures r < |merged| && merged[r] == e
  {
    var r :| 0 <= r < |merged| && merged[r] == e;
    r
  }

  lemma RankOrder(merged: seq<Entry>, a: Entry, b: Entry)
    requires Sorted(merged) && a in merged && b in merged
    ensures Rank(merged, a) < Rank(merged, b) <==> Precedes(a, b)
    ensures Rank(merged, a) < Rank(merged, b) <==> KeyLess(KeyOf(a), KeyOf(b))
    ensures Rank(merged, a) == Rank(merged, b) <==> a == b
  {
    var r, q := Rank(merged, a), Rank(merged, b);
    assert r < q ==> Precedes(merged[r], merged[q]);
    assert q < r ==> Precedes(merged[q], merged[r]);
  }

  /** Rank of the k-th entry of child i. */
  ghost function ChildRank(children: seq<seq<Entry>>, merged: seq<Entry>, i: nat, k: nat): (r: nat)
    requires MergeOf(children, merged) && i < |children| && k < |children[i]|
    ensures r < |merged| && merged[r] == children[i][k]
  {
    Rank(merged, children[i][k])
  }

  lemma ChildRankMonotone(children: seq<seq<Entry>>, merged: seq<Entry>, i: nat, k: nat, l: nat)
    requires MergeOf(children, merged) && i < |children| && k < l < |children[i]|
    ensures ChildRank(children, merged, i, k) < ChildRank(children, merged, i, l)
  {
    assert Precedes(children[i][k], children[i][l]);
    RankOrder(merged, children[i][k], children[i][l]);
  }

  /** Every rank belongs to exactly one child entry. */
  lemma RankOwner(children: seq<seq<Entry>>, merged: seq<Entry>, q: nat) returns (i: nat, k: nat)
    requires MergeOf(children, merged) && q < |merged|
    ensures i < |children| && k < |children[i]| && ChildRank(children, merged, i, k) == q
    ensures forall j, l :: 0 <= j < |children| && 0 <= l < |children[j]| && ChildRank(children, merged, j, l) == q ==>
      j == i
  {
    var e := merged[q];
    assert e in merged;
    i :| 0 <= i < |children| && e in children[i];
    k :| 0 <= k < |children[i]| && children[i][k] == e;
    RankUnique(merged, q, Rank(merged, e));
    forall j, l | 0 <= j < |children| && 0 <= l < |children[j]| && ChildRank(children, merged, j, l) == q
      ensures j == i
    {
      assert children[j][l] == e && e in children[j];
    }
  }

  /** All of child i before its position has rank below q, the rest does not. */
  ghost predicate FrontAt(children: seq<seq<Entry>>, merged: seq<Entry>, i: nat, p: nat, q: nat)
    requires MergeOf(children, merged) && i < |children|
  {
    p <= |children[i]| && forall k :: 0 <= k < |children[i]| ==> (k < p <==> ChildRank(children, merged, i, k) < q)
  }

  /** Child i stands at its last entry of rank below q, or is invalid if it has none. */
  ghost predicate BackAt(children: seq<seq<Entry>>, merged: seq<Entry>, i: nat, p: nat, q: nat)
    requires MergeOf(children, merged) && i < |children|
  {
    && p <= |children[i]|
    && (p < |children[i]| ==>
        forall k :: 0 <= k < |children[i]| ==> (k <= p <==> ChildRank(children, merged, i, k) < q))
    && (p == |children[i]| ==> forall k :: 0 <= k < |children[i]| ==> ChildRank(children, merged, i, k) >= q)
  }

  class MergingIterator {
    const children: seq<seq<Entry>>
    ghost const merged: seq<Entry>
    var pos: seq<nat>
    var current: int
    var forward: bool
    /** Position in the merged order; |merged| when invalid. */
    ghost var at: nat

    ghost predicate Valid()
      reads this
    {
      && MergeOf(children, merged)
      && |pos| == |children|
      && at <= |merged|
      && -1 <= current < |children|
      && (current == -1 <==> at == |merged|)
      && (at < |merged| ==>
          pos[current] < |children[current]| && ChildRank(children, merged, current, pos[current]) == at)
      && (at < |merged| && forward ==> forall i :: 0 <= i < |children| ==> FrontAt(children, merged, i, pos[i], at))
      && (at < |merged| && !forward ==>
          forall i :: 0 <= i < |children| && i != current ==> BackAt(children, merged, i, pos[i], at))
    }

    constructor (children: seq<seq<Entry>>, ghost merged: seq<Entry>)
      requires MergeOf(children, merged)
      ensures Valid() && at == |merged| && this.children == children && this.merged == merged
    {
      this.children, this.merged := children, merged;
      pos := seq(|children|, i requires 0 <= i < |children| => |children[i]|);
      current, forward, at := -1, true, |merged|;
    }

    predicate HasEntry()
      reads this
    {
      current >= 0
    }

    /** The entry the iterator stands on. */
    function Current(): (e: Entry)
      requires Valid() && HasEntry()
      reads this
      ensures e == merged[at]
    {
      children[current][pos[current]]
    }

    /** Chooses the child with the smallest key. */
    method FindSmallest(ghost q: nat)
      requires MergeOf(children, merged) && |pos| == |children| && q <= |merged|
      requires forall i :: 0 <= i < |children| ==> FrontAt(children, merged, i, pos[i], q)
      modifies this`current, this`at
      ensures at == q && -1 <= current < |children| && (current == -1 <==> q == |merged|)
      ensures q < |merged| ==>
        pos[current] < |children[current]| && ChildRank(children, merged, current, pos[current]) == q
    {
      hide MergeOf;
      var smallest := -1;
      var i := 0;
      while i < |children|
        invariant 0 <= i <= |children| && -1 <= smallest < i
        invariant smallest == -1 ==> forall j :: 0 <= j < i ==> pos[j] == |children[j]|
        invariant smallest >= 0 ==> pos[smallest] < |children[smallest]|
        invariant smallest >= 0 ==> forall j :: 0 <= j < i && pos[j] < |children[j]| ==>
          ChildRank(children, merged, smallest, pos[smallest]) <= ChildRank(children, merged, j, pos[j])
      {
        if pos[i] < |children[i]| {
          if smallest == -1 {
            smallest := i;
          } else {
            CompareRanks(children, merged, i, pos[i], smallest, pos[smallest]);
            if KeyLess(KeyOf(children[i][pos[i]]), KeyOf(children[smallest][pos[smallest]])) {
              smallest := i;
            }
          }
        }
        i := i + 1;
      }
      current := smallest;
      at := q;
      SmallestIsNext(children, merged, pos, smallest, q);
    }

    /** Chooses the child with the largest key, looking from the last child down. */
    method FindLargest(ghost q: nat)
      requires MergeOf(children, merged) && |pos| == |children| && q <= |merged|
      requires forall i :: 0 <= i < |children| ==> BackAt(children, merged, i, pos[i], q)
      modifies this`current, this`at
      ensures at == (if q == 0 then |merged| else q - 1) && -1 <= current < |children| && (current == -1 <==> q == 0)
      ensures q > 0 ==>
        pos[current] < |children[current]| && ChildRank(children, merged, current, pos[current]) == q - 1
    {
      hide MergeOf;
      var largest := -1;
      var i := |children| - 1;
      while i >= 0
        invariant -1 <= i < |children| && (largest == -1 || i < largest < |children|)
        invariant largest == -1 ==> forall j :: i < j < |children| ==> pos[j] == |children[j]|
        invariant largest >= 0 ==> pos[largest] < |children[largest]|
        invariant largest >= 0 ==> forall j :: i < j < |children| && pos[j] < |children[j]| ==>
          ChildRank(children, merged, j, pos[j]) <= ChildRank(children, merged, largest, pos[largest])
      {
        if pos[i] < |children[i]| {
          if largest == -1 {
            largest := i;
          } else {
            CompareRanks(children, merged, largest, pos[largest], i, pos[i]);
            if KeyLess(KeyOf(children[largest][pos[largest]]), KeyOf(children[i][pos[i]])) {
              largest := i;
            }
          }
        }
        i := i - 1;
      }
      current := largest;
      at := if q == 0 then |merged| else q - 1;
      LargestIsPrevious(children, merged, pos, largest, q);
    }

    method SeekToFirst()
      requires Valid()
      modifies this
      ensures Valid() && at == 0
    {
      hide MergeOf;
      var i := 0;
      while i < |children|
        invariant 0 <= i <= |children| && |pos| == |children|
        invariant forall j :: 0 <= j < i ==> pos[j] == 0
      {
        pos := pos[i := 0];
        i := i + 1;
      }
      FindSmallest(0);
      forward := true;
    }

    method SeekToLast()
      requires Valid()
      modifies this
      ensures Valid() && at == if |merged| == 0 then 0 else |merged| - 1
    {
      hide MergeOf;
      var i := 0;
      while i < |children|
        invariant 0 <= i <= |children| && |pos| == |children|
        invariant forall j :: 0 <= j < i ==> BackAt(children, merged, j, pos[j], |merged|)
      {
        pos := pos[i := if |children[i]| == 0 then 0 else |children[i]| - 1];
        i := i + 1;
      }
      FindLargest(|merged|);
      forward := false;
      if |merged| > 0 {
        BackShift(children, merged, pos, current, |merged|);
      }
    }

    /** First entry not below the target. */
    method Seek(target: InternalKey)
      requires Valid()
      modifies this
      ensures Valid()
      ensures forall r :: 0 <= r < at ==> KeyLess(KeyOf(merged[r]), target)
      ensures forall r :: at <= r < |merged| ==> !KeyLess(KeyOf(merged[r]), target)
    {
      hide MergeOf;
      ghost var q := LowerRank(children, merged, target);
      var i := 0;
      while i < |children|
        invariant 0 <= i <= |children| && |pos| == |children|
        invariant forall j :: 0 <= j < i ==> FrontAt(children, merged, j, pos[j], q)
      {
        var p := SeekChild(children[i], target);
        ChildFront(children, merged, i, p, target, q);
        pos := pos[i := p];
        i := i + 1;
      }
      FindSmallest(q);
      forward := true;
    }

    method Next()
      requires Valid() && HasEntry()
      modifies this
      ensures Valid() && at == old(at) + 1
    {
      hide MergeOf;
      ghost var q := at;
      ChildrenSorted(children, merged);
      if !forward {
        var i := 0;
        while i < |children|
          invariant 0 <= i <= |children| && |pos| == |children| && pos[current] == old(pos)[current]
          invariant forall j :: 0 <= j < i && j != current ==> FrontAt(children, merged, j, pos[j], q)
          modifies this`pos
        {
          if i != current {
            var key := KeyOf(children[current][pos[current]]);
            var p := SeekChild(children[i], key);
            ChildFrontAtEntry(children, merged, i, p, current, pos[current]);
            if p < |children[i]| && KeyOf(children[i][p]) == key {
              p := p + 1;
            }
            pos := pos[i := p];
          }
          i := i + 1;
        }
        forward := true;
      }
      ghost var before := pos;
      pos := pos[current := pos[current] + 1];
      FrontShift(children, merged, before, current, q, pos);
      FindSmallest(q + 1);
    }

    method Prev()
      requires Valid() && HasEntry()
      modifies this
      ensures Valid() && at == if old(at) == 0 then |merged| else old(at) - 1
    {
      hide MergeOf;
      ghost var q := at;
      ChildrenSorted(children, merged);
      if forward {
        var i := 0;
        while i < |children|
          invariant 0 <= i <= |children| && |pos| == |children| && pos[current] == old(pos)[current]
          invariant forall j :: 0 <= j < i && j != current ==> BackAt(children, merged, j, pos[j], q)
          modifies this`pos
        {
          if i != current {
            var p := SeekChild(children[i], KeyOf(children[current][pos[current]]));
            ChildFrontAtEntry(children, merged, i, p, current, pos[current]);
            if p < |children[i]| {
              p := if p == 0 then |children[i]| else p - 1;
            } else {
              p := if |children[i]| == 0 then 0 else |children[i]| - 1;
            }
            pos := pos[i := p];
          }
          i := i + 1;
        }
        forward := false;
      }
      ghost var before := pos;
      pos := pos[current := if pos[current] == 0 then |children[current]| else pos[current] - 1];
      BackStep(children, merged, before, current, q, pos);
      FindLargest(q);
      if q > 0 {
        BackShift(children, merged, pos, current, q);
      }
    }
  }

  /** Seek of a child iterator: the first entry not below the target. */
  method SeekChild(es: seq<Entry>, target: InternalKey) returns (p: nat)
    requires Sorted(es)
    ensures p <= |es|
    ensures forall k :: 0 <= k < |es| ==> (k < p <==> KeyLess(KeyOf(es[k]), target))
  {
    p := 0;
    while p < |es| && KeyLess(KeyOf(es[p]), target)
      invariant 0 <= p <= |es|
      invariant forall k :: 0 <= k < p ==> KeyLess(KeyOf(es[k]), target)
    {
      p := p + 1;
    }
    forall k | p <= k < |es|
      ensures !KeyLess(KeyOf(es[k]), target)
    {
      assert p < k ==> Precedes(es[p], es[k]);
    }
  }

  lemma {:induction false} LowerRankFrom(merged: seq<Entry>, target: InternalKey, n: nat) returns (q: nat)
    requires Sorted(merged) && n <= |merged| && forall r :: 0 <= r < n ==> KeyLess(KeyOf(merged[r]), target)
    ensures q <= |merged| && forall r :: 0 <= r < |merged| ==> (r < q <==> KeyLess(KeyOf(merged[r]), target))
    decreases |merged| - n
  {
    if n < |merged| && KeyLess(KeyOf(merged[n]), target) {
      q := LowerRankFrom(merged, target, n + 1);
    } else {
      q := n;
      forall r | n < r < |merged|
        ensures !KeyLess(KeyOf(merged[r]), target)
      {
        assert Precedes(merged[n], merged[r]);
      }
    }
  }

  lemma LowerRank(children: seq<seq<Entry>>, merged: seq<Entry>, target: InternalKey) returns (q: nat)
    requires MergeOf(children, merged)
    ensures q <= |merged| && forall r :: 0 <= r < |merged| ==> (r < q <==> KeyLess(KeyOf(merged[r]), target))
    ensures forall i :: 0 <= i < |children| ==> Sorted(children[i])
  {
    q := LowerRankFrom(merged, target, 0);
  }

  lemma ChildFront(children: seq<seq<Entry>>, merged: seq<Entry>, i: nat, p: nat, target: InternalKey, q: nat)
    requires MergeOf(children, merged) && i < |children| && p <= |children[i]|
    requires forall k :: 0 <= k < |children[i]| ==> (k < p <==> KeyLess(KeyOf(children[i][k]), target))
    requires forall r :: 0 <= r < |merged| ==> (r < q <==> KeyLess(KeyOf(merged[r]), target))
    ensures FrontAt(children, merged, i, p, q)
  {
    hide MergeOf, Sorted;
    forall k | 0 <= k < |children[i]|
      ensures k < p <==> ChildRank(children, merged, i, k) < q
    {
      assert merged[ChildRank(children, merged, i, k)] == children[i][k];
    }
  }

  /** A child sought to the key of another child's entry stands at that entry's rank, and not on the entry. */
  lemma ChildFrontAtEntry(children: seq<seq<Entry>>, merged: seq<Entry>, i: nat, p: nat, c: nat, k: nat)
    requires MergeOf(children, merged) && i < |children| && c < |children| && i != c && k < |children[c]|
      && p <= |children[i]|
    requires forall l :: 0 <= l < |children[i]| ==> (l < p <==> KeyLess(KeyOf(children[i][l]), KeyOf(children[c][k])))
    ensures FrontAt(children, merged, i, p, ChildRank(children, merged, c, k))
    ensures BackAt(children, merged, i, if p == 0 then |children[i]| else p - 1, ChildRank(children, merged, c, k))
    ensures p < |children[i]| ==> KeyOf(children[i][p]) != KeyOf(children[c][k])
    ensures forall j :: 0 <= j < |children| ==> Sorted(children[j])
  {
    forall l | 0 <= l < |children[i]|
      ensures l < p <==> ChildRank(children, merged, i, l) < ChildRank(children, merged, c, k)
    {
      CompareRanks(children, merged, i, l, c, k);
    }
    if p < |children[i]| {
      assert children[i][p] in children[i] && children[c][k] in children[c];
      RankOrder(merged, children[i][p], children[c][k]);
    }
  }

  /** Stepping the current child forward moves all children to the next rank. */
  lemma FrontShift(children: seq<seq<Entry>>, merged: seq<Entry>, before: seq<nat>, current: nat, q: nat, pos: seq<nat>)
    requires MergeOf(children, merged) && |before| == |children| && current < |children|
    requires before[current] < |children[current]| && ChildRank(children, merged, current, before[current]) == q
    requires forall i :: 0 <= i < |children| && i != current ==> FrontAt(children, merged, i, before[i], q)
    requires pos == before[current := before[current] + 1]
    ensures forall i :: 0 <= i < |children| ==> FrontAt(children, merged, i, pos[i], q + 1)
  {
    hide MergeOf;
    var c, k0 := RankOwner(children, merged, q);
    OwnRanks(children, merged, current, before[current]);
    forall i | 0 <= i < |children|
      ensures FrontAt(children, merged, i, pos[i], q + 1)
    {
      assert i != current ==> FrontAt(children, merged, i, before[i], q);
    }
  }

  lemma ChildrenSorted(children: seq<seq<Entry>>, merged: seq<Entry>)
    requires MergeOf(children, merged)
    ensures forall i :: 0 <= i < |children| ==> Sorted(children[i])
  {
  }

  lemma OwnRanks(children: seq<seq<Entry>>, merged: seq<Entry>, i: nat, p: nat)
    requires MergeOf(children, merged) && i < |children| && p < |children[i]|
    ensures forall k :: 0 <= k < p ==> ChildRank(children, merged, i, k) < ChildRank(children, merged, i, p)
    ensures forall k :: p < k < |children[i]| ==> ChildRank(children, merged, i, k) > ChildRank(children, merged, i, p)
  {
    hide MergeOf;
    forall k | 0 <= k < p ensures ChildRank(children, merged, i, k) < ChildRank(children, merged, i, p) {
      ChildRankMonotone(children, merged, i, k, p);
    }
    forall k | p < k < |children[i]| ensures ChildRank(children, merged, i, k) > ChildRank(children, merged, i, p) {
      ChildRankMonotone(children, merged, i, p, k);
    }
  }

  lemma BackStep(children: seq<seq<Entry>>, merged: seq<Entry>, before: seq<nat>, current: nat, q: nat, pos: seq<nat>)
    requires MergeOf(children, merged) && |before| == |children| && current < |children|
    requires before[current] < |children[current]| && ChildRank(children, merged, current, before[current]) == q
    requires forall i :: 0 <= i < |children| && i != current ==> BackAt(children, merged, i, before[i], q)
    requires pos == before[current := if before[current] == 0 then |children[current]| else before[current] - 1]
    ensures forall i :: 0 <= i < |children| ==> BackAt(children, merged, i, pos[i], q)
  {
    hide MergeOf;
    OwnRanks(children, merged, current, before[current]);
  }

  lemma CompareRanks(children: seq<seq<Entry>>, merged: seq<Entry>, i: nat, k: nat, j: nat, l: nat)
    requires MergeOf(children, merged) && i < |children| && k < |children[i]| && j < |children| && l < |children[j]|
    ensures KeyLess(KeyOf(children[i][k]), KeyOf(children[j][l]))
            <==> ChildRank(children, merged, i, k) < ChildRank(children, merged, j, l)
  {
    assert children[i][k] in merged && children[j][l] in merged;
    RankOrder(merged, children[i][k], children[j][l]);
  }

  lemma SmallestIsNext(children: seq<seq<Entry>>, merged: seq<Entry>, pos: seq<nat>, smallest: int, q: nat)
    requires MergeOf(children, merged) && |pos| == |children| && q <= |merged| && -1 <= smallest < |children|
    requires forall i :: 0 <= i < |children| ==> FrontAt(children, merged, i, pos[i], q)
    requires smallest == -1 ==> forall j :: 0 <= j < |children| ==> pos[j] == |children[j]|
    requires smallest >= 0 ==>
      pos[smallest] < |children[smallest]| && forall j :: 0 <= j < |children| && pos[j] < |children[j]| ==>
          ChildRank(children, merged, smallest, pos[smallest]) <= ChildRank(children, merged, j, pos[j])
    ensures smallest == -1 <==> q == |merged|
    ensures smallest >= 0 ==> ChildRank(children, merged, smallest, pos[smallest]) == q
  {
    hide MergeOf;
    if q < |merged| {
      var i, k := RankOwner(children, merged, q);
      assert FrontAt(children, merged, i, pos[i], q);
      assert pos[i] <= k;
      if pos[i] < k {
        ChildRankMonotone(children, merged, i, pos[i], k);
      }
      assert pos[i] < |children[i]| && ChildRank(children, merged, i, pos[i]) <= q;
    }
    if smallest >= 0 {
      assert FrontAt(children, merged, smallest, pos[smallest], q);
      assert ChildRank(children, merged, smallest, pos[smallest]) >= q;
    }
  }

  lemma LargestIsPrevious(children: seq<seq<Entry>>, merged: seq<Entry>, pos: seq<nat>, largest: int, q: nat)
    requires MergeOf(children, merged) && |pos| == |children| && q <= |merged| && -1 <= largest < |children|
    requires forall i :: 0 <= i < |children| ==> BackAt(children, merged, i, pos[i], q)
    requires largest == -1 ==> forall j :: 0 <= j < |children| ==> pos[j] == |children[j]|
    requires largest >= 0 ==>
      pos[largest] < |children[largest]| && forall j :: 0 <= j < |children| && pos[j] < |children[j]| ==>
          ChildRank(children, merged, j, pos[j]) <= ChildRank(children, merged, largest, pos[largest])
    ensures largest == -1 <==> q == 0
    ensures largest >= 0 ==> ChildRank(children, merged, largest, pos[largest]) == q - 1
  {
    hide MergeOf;
    if q > 0 {
      var i, k := RankOwner(children, merged, q - 1);
      assert BackAt(children, merged, i, pos[i], q);
      assert pos[i] < |children[i]| && k <= pos[i];
      if k < pos[i] {
        ChildRankMonotone(children, merged, i, k, pos[i]);
      }
    }
    if largest >= 0 {
      assert BackAt(children, merged, largest, pos[largest], q);
    }
  }

  /** Children standing before rank q, other than the one at q-1, stand before q-1. */
  lemma BackShift(children: seq<seq<Entry>>, merged: seq<Entry>, pos: seq<nat>, current: int, q: nat)
    requires MergeOf(children, merged) && |pos| == |children| && 0 < q <= |merged| && 0 <= current < |children|
    requires forall i :: 0 <= i < |children| ==> BackAt(children, merged, i, pos[i], q)
    requires pos[current] < |children[current]| && ChildRank(children, merged, current, pos[current]) == q - 1
    ensures forall i :: 0 <= i < |children| && i != current ==> BackAt(children, merged, i, pos[i], q - 1)
  {
    hide MergeOf;
    var c, k := RankOwner(children, merged, q - 1);
    forall i | 0 <= i < |children| && i != current
      ensures BackAt(children, merged, i, pos[i], q - 1)
    {
      assert BackAt(children, merged, i, pos[i], q);
    }
  }
}
