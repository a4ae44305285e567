/** Blocks of prefix-compressed entries with restart points, and their builder (table/block_builder.cc). */
module BlockFormat {
  import opened Coding

  datatype Pair = Pair(key: seq<Octet>, value: seq<Octet>)

  // ---------------------------------------------------------------------------------------------------------
  // Entries
  // ---------------------------------------------------------------------------------------------------------

  function CommonPrefix(a: seq<Octet>, b: seq<Octet>): (r: nat)
    ensures r <= |a| && r <= |b| && a[..r] == b[..r]
    ensures r < |a| && r < |b| ==> a[r] != b[r]
  {
    if a == [] || b == [] || a[0] != b[0] then 0 else
      var r := CommonPrefix(a[1..], b[1..]);
      assert a[..r + 1] == [a[0]] + a[1..][..r];
      assert b[..r + 1] == [b[0]] + b[1..][..r];
      r + 1
  }

  /** How many entries since the last restart, after `n` entries. */
  function Counter(interval: nat, n: nat): nat {
    if n == 0 then 0 else if Counter(interval, n - 1) < interval then Counter(interval, n - 1) + 1 else 1
  }

  /** The counter goes round the interval. */
  lemma {:induction false} CounterIs(interval: nat, n: nat)
    requires interval >= 1 && n >= 1
    ensures Counter(interval, n) == (n - 1) % interval + 1
  {
    if n > 1 {
      CounterIs(interval, n - 1);
      NextInRound(n - 2, interval);
    }
  }

  lemma NextInRound(a: nat, m: nat)
    requires m >= 1
    ensures (a + 1) % m == if a % m + 1 < m then a % m + 1 else 0
  {
    var q, r := a / m, a % m;
    assert a + 1 == m * q + (r + 1);
    if r + 1 < m {
      QuotientIs(a + 1, m, q, r + 1);
    } else {
      assert a + 1 == m * (q + 1);
      QuotientIs(a + 1, m, q + 1, 0);
    }
  }

  /** Restart points lie at the multiples of the interval. */
  lemma RestartsAtMultiples(interval: nat, i: nat)
    requires interval >= 1
    ensures Restarts(interval, i) <==> i % interval == 0
  {
    if i > 0 {
      CounterIs(interval, i);
      NextInRound(i - 1, interval);
    }
  }

  /** Entry `i` is stored whole. */
  predicate Restarts(interval: nat, i: nat) {
    i == 0 || Counter(interval, i) >= interval
  }

  function Shared(es: seq<Pair>, interval: nat, i: nat): (r: nat)
    requires i < |es|
    ensures r <= |es[i].key|
  {
    if Restarts(interval, i) then 0 else CommonPrefix(es[i - 1].key, es[i].key)
  }

  function EntryHeader(shared: nat, rest: nat, value: nat): seq<Octet> {
    Varint(shared % LIMIT32) + (Varint(rest % LIMIT32) + Varint(value % LIMIT32))
  }

  function EntryBytes(e: Pair, shared: nat): seq<Octet>
    requires shared <= |e.key|
  {
    EntryHeader(shared, |e.key| - shared, |e.value|) + (e.key[shared..] + e.value)
  }

  /** The bytes of the first `n` entries. */
  function Data(es: seq<Pair>, interval: nat, n: nat): seq<Octet>
    requires n <= |es|
  {
    if n == 0 then [] else Data(es, interval, n - 1) + EntryBytes(es[n - 1], Shared(es, interval, n - 1))
  }

  function Offset(es: seq<Pair>, interval: nat, n: nat): nat
    requires n <= |es|
  {
    |Data(es, interval, n)|
  }

  /** The entries at which restart points lie. */
  function RestartEntries(interval: nat, n: nat): (r: seq<nat>)
    ensures r != [] && r[0] == 0
    ensures forall k :: 0 <= k < |r| ==> Restarts(interval, r[k]) && (r[k] < n || r[k] == 0)
    ensures forall i, j :: 0 <= i < j < |r| ==> r[i] < r[j]
  {
    if n <= 1 then [0]
    else if Restarts(interval, n - 1) then RestartEntries(interval, n - 1) + [n - 1]
    else RestartEntries(interval, n - 1)
  }

  /** Every entry that is a restart point is in the list. */
  lemma {:induction false} EveryRestart(interval: nat, n: nat, i: nat)
    requires i < n && Restarts(interval, i)
    ensures i in RestartEntries(interval, n)
  {
    hide Restarts;
    if n > 1 && i < n - 1 {
      EveryRestart(interval, n - 1, i);
    }
  }

  function RestartOffsets(es: seq<Pair>, interval: nat, n: nat): (r: seq<nat>)
    requires n <= |es|
    ensures |r| == |RestartEntries(interval, n)|
  {
    var starts := RestartEntries(interval, n);
    seq(|starts|, k requires 0 <= k < |starts| => Offset(es, interval, starts[k]))
  }

  function FixedAll(ns: seq<nat>): (r: seq<Octet>)
    ensures |r| == 4 * |ns|
  {
    if ns == [] then [] else FixedAll(ns[..|ns| - 1]) + Fixed(ns[|ns| - 1] % LIMIT32, 4)
  }

  lemma {:induction false} FixedAllAt(ns: seq<nat>, k: nat)
    requires k < |ns|
    ensures FixedAll(ns)[4 * k..4 * k + 4] == Fixed(ns[k] % LIMIT32, 4)
  {
    hide Fixed;
    var n := |ns| - 1;
    if k < n {
      FixedAllAt(ns[..n], k);
      assert FixedAll(ns)[4 * k..4 * k + 4] == FixedAll(ns[..n])[4 * k..4 * k + 4];
    }
  }

  /** The finished block. */
  function BlockBytes(es: seq<Pair>, interval: nat): seq<Octet> {
    var starts := RestartOffsets(es, interval, |es|);
    Data(es, interval, |es|) + FixedAll(starts) + Fixed(|starts| % LIMIT32, 4)
  }

  // ---------------------------------------------------------------------------------------------------------
  // Prefixes of the data
  // ---------------------------------------------------------------------------------------------------------

  lemma {:induction false} SameData(es: seq<Pair>, more: seq<Pair>, interval: nat, n: nat)
    requires n <= |es|
    ensures Data(es + more, interval, n) == Data(es, interval, n)
  {
    hide EntryBytes;
    if n > 0 {
      SameData(es, more, interval, n - 1);
      assert Shared(es + more, interval, n - 1) == Shared(es, interval, n - 1);
    }
  }

  lemma {:induction false} DataPrefix(es: seq<Pair>, interval: nat, m: nat, n: nat)
    requires m <= n <= |es|
    ensures Offset(es, interval, m) <= Offset(es, interval, n)
    ensures Data(es, interval, n)[..Offset(es, interval, m)] == Data(es, interval, m)
    ensures m < n ==> Offset(es, interval, m) < Offset(es, interval, n)
    decreases n
  {
    hide EntryBytes, Shared;
    if m < n {
      DataPrefix(es, interval, m, n - 1);
      EntryNonEmpty(es[n - 1], Shared(es, interval, n - 1));
    }
  }

  lemma EntryNonEmpty(e: Pair, shared: nat)
    requires shared <= |e.key|
    ensures |EntryBytes(e, shared)| >= 3
  {
    hide Varint;
  }

  /** What follows the first `i` entries starts with entry `i`. */
  lemma EntryAt(es: seq<Pair>, interval: nat, i: nat)
    requires i < |es|
    ensures Offset(es, interval, i) <= Offset(es, interval, i + 1) <= Offset(es, interval, |es|)
    ensures Data(es, interval, |es|)[Offset(es, interval, i)..Offset(es, interval, i + 1)]
      == EntryBytes(es[i], Shared(es, interval, i))
  {
    hide EntryBytes, Shared;
    DataPrefix(es, interval, i + 1, |es|);
    assert Data(es, interval, i + 1) == Data(es, interval, i) + EntryBytes(es[i], Shared(es, interval, i));
    var all, o, p := Data(es, interval, |es|), Offset(es, interval, i), Offset(es, interval, i + 1);
    assert all[o..p] == all[..p][o..];
  }

  // ---------------------------------------------------------------------------------------------------------
  // The builder
  // ---------------------------------------------------------------------------------------------------------

  class BlockBuilder {
    const interval: nat
    var buffer: seq<Octet>
    var restarts: seq<nat>
    var counter: nat
    var lastKey: seq<Octet>
    var finished: bool
    /** What was added since the builder was reset. */
    ghost var added: seq<Pair>

    ghost predicate Valid()
      reads this
    {
      && interval >= 1
      && restarts == RestartOffsets(added, interval, |added|)
      && counter == Counter(interval, |added|)
      && lastKey == (if added == [] then [] else added[|added| - 1].key)
      && buffer == if finished then BlockBytes(added, interval) else Data(added, interval, |added|)
    }

    constructor (interval: nat)
      requires interval >= 1
      ensures Valid() && this.interval == interval && added == [] && !finished
    {
      this.interval := interval;
      buffer, restarts, counter, lastKey, finished, added := [], [0], 0, [], false, [];
    }

    method Reset()
      requires interval >= 1
      modifies this
      ensures Valid() && added == [] && !finished
    {
      buffer, restarts, counter, lastKey, finished, added := [], [0], 0, [], false, [];
    }

    /** The source also asks for increasing keys; the layout does not depend on that. */
    method Add(key: seq<Octet>, value: seq<Octet>)
      requires Valid() && !finished
      modifies this
      ensures Valid() && !finished && added == old(added) + [Pair(key, value)]
    {
      hide EntryBytes, EntryHeader, Data, RestartOffsets, Shared, BlockBytes, Counter, CommonPrefix, Offset;
      ghost var was, e, n := added, Pair(key, value), |added|;
      var shared := 0;
      if counter < interval {
        shared := SharedLength(lastKey, key);
      } else {
        restarts := restarts + [|buffer|];
        counter := 0;
      }
      Added(was, interval, e);
      assert Offset(was, interval, n) == |buffer| by { OffsetIs(was, interval, n); }
      assert shared == Shared(was + [e], interval, n) by { FirstShared(was, interval, e); }
      AppendEntry(key, value, shared);
      KeyParts(lastKey, key, shared);
      lastKey := lastKey[..shared] + key[shared..];
      CounterStep(interval, n);
      counter := counter + 1;
      added := added + [e];
    }

    method AppendEntry(key: seq<Octet>, value: seq<Octet>, shared: nat)
      requires shared <= |key|
      modifies this`buffer
      ensures buffer == old(buffer) + EntryBytes(Pair(key, value), shared)
    {
      hide EntryBytes, EntryHeader;
      BytesParts(buffer, Pair(key, value), shared);
      buffer := buffer + EntryHeader(shared, |key| - shared, |value|);
      buffer := buffer + key[shared..];
      buffer := buffer + value;
    }

    method IsEmpty() returns (r: bool)
      requires Valid() && !finished
      ensures r <==> added == []
    {
      hide EntryBytes;
      if added != [] {
        EntryNonEmpty(added[|added| - 1], Shared(added, interval, |added| - 1));
      }
      r := buffer == [];
    }

    method CurrentSizeEstimate() returns (n: nat)
      requires Valid()
      ensures !finished ==> n == |Data(added, interval, |added|)| + 4 * |RestartOffsets(added, interval, |added|)| + 4
    {
      n := |buffer| + 4 * |restarts| + 4;
    }

    method Finish() returns (block: seq<Octet>)
      requires Valid() && !finished
      modifies this
      ensures Valid() && finished && added == old(added) && block == BlockBytes(added, interval)
    {
      hide Data, RestartOffsets;
      for i := 0 to |restarts|
        modifies this`buffer
        invariant buffer == old(buffer) + FixedAll(restarts[..i])
      {
        assert restarts[..i + 1][..i] == restarts[..i];
        buffer := buffer + Fixed(restarts[i] % LIMIT32, 4);
      }
      assert restarts[..|restarts|] == restarts;
      buffer := buffer + Fixed(|restarts| % LIMIT32, 4);
      finished := true;
      block := buffer;
    }
  }

  lemma OffsetIs(es: seq<Pair>, interval: nat, n: nat)
    requires n <= |es|
    ensures Offset(es, interval, n) == |Data(es, interval, n)|
  {
  }

  lemma KeyParts(last: seq<Octet>, key: seq<Octet>, shared: nat)
    requires shared <= |last| && shared <= |key| && last[..shared] == key[..shared]
    ensures last[..shared] + key[shared..] == key
  {
    assert key[..shared] + key[shared..] == key;
  }

  lemma CounterStep(interval: nat, n: nat)
    ensures Counter(interval, n + 1) == (if Counter(interval, n) < interval then Counter(interval, n) else 0) + 1
  {
  }

  lemma PrefixUnique(a: seq<Octet>, b: seq<Octet>, k: nat)
    requires k <= |a| && k <= |b| && a[..k] == b[..k] && (k < |a| && k < |b| ==> a[k] != b[k])
    ensures k == CommonPrefix(a, b)
  {
    var r := CommonPrefix(a, b);
    if k < r {
      AgreeAt(a, b, r, k);
    } else if r < k {
      AgreeAt(a, b, k, r);
    }
  }

  lemma AgreeAt(a: seq<Octet>, b: seq<Octet>, r: nat, k: nat)
    requires k < r <= |a| && r <= |b| && a[..r] == b[..r]
    ensures a[k] == b[k]
  {
    assert a[..r][k] == b[..r][k];
  }

  method SharedLength(a: seq<Octet>, b: seq<Octet>) returns (shared: nat)
    ensures shared == CommonPrefix(a, b)
    ensures shared <= |a| && shared <= |b| && a[..shared] == b[..shared]
  {
    hide CommonPrefix;
    var least := if |a| < |b| then |a| else |b|;
    shared := 0;
    while shared < least && a[shared] == b[shared]
      invariant 0 <= shared <= least && a[..shared] == b[..shared]
    {
      shared := shared + 1;
    }
    PrefixUnique(a, b, shared);
  }

  lemma BytesParts(buffer: seq<Octet>, e: Pair, shared: nat)
    requires shared <= |e.key|
    ensures buffer + EntryHeader(shared, |e.key| - shared, |e.value|) + e.key[shared..] + e.value
      == buffer + EntryBytes(e, shared)
  {
    hide EntryHeader;
  }

  lemma FirstShared(es: seq<Pair>, interval: nat, e: Pair)
    ensures var lastKey := if es == [] then [] else es[|es| - 1].key;
      Shared(es + [e], interval, |es|) == if Counter(interval, |es|) < interval then CommonPrefix(lastKey, e.key) else 0
  {
  }

  /** What adding one entry does to the data, the restart points and the counter. */
  lemma Added(es: seq<Pair>, interval: nat, e: Pair)
    requires interval >= 1
    ensures var all, n := es + [e], |es|;
      && Data(all, interval, n + 1) == Data(es, interval, n) + EntryBytes(e, Shared(all, interval, n))
      && RestartOffsets(all, interval, n + 1)
         == RestartOffsets(es, interval, n) + (if Counter(interval, n) < interval then []
                                               else [Offset(es, interval, n)])
  {
    hide EntryBytes, Shared, Data;
    var all, n := es + [e], |es|;
    assert Data(all, interval, n) == Data(es, interval, n) by { SameData(es, [e], interval, n); }
    assert Data(all, interval, n + 1) == Data(all, interval, n) + EntryBytes(e, Shared(all, interval, n)) by {
      DataStep(all, interval, n);
    }
    var starts, starts' := RestartEntries(interval, n), RestartEntries(interval, n + 1);
    assert starts' == starts + (if Counter(interval, n) < interval then [] else [n]);
    forall k | 0 <= k < |starts|
      ensures Offset(all, interval, starts[k]) == Offset(es, interval, starts[k])
    {
      SameData(es, [e], interval, starts[k]);
    }
    assert RestartOffsets(all, interval, n + 1)
      == RestartOffsets(es, interval, n) + (if Counter(interval, n) < interval then [] else [Offset(es, interval, n)]);
  }

  lemma DataStep(es: seq<Pair>, interval: nat, n: nat)
    requires n < |es|
    ensures Data(es, interval, n + 1) == Data(es, interval, n) + EntryBytes(es[n], Shared(es, interval, n))
  {
  }
}
