/** The filter block of a table: one filter for every 2 KB of file offsets (table/filter_block.cc). */
module FilterBlocks {
  import opened Coding
  import opened BlockFormat
  import opened BlockExample
  import opened Comparators
  import opened Bloom

  const BASE_LG: Octet := 11
  const BASE: nat := 2048

  function Joined(ss: seq<seq<Octet>>): seq<Octet> {
    if ss == [] then [] else Joined(ss[..|ss| - 1]) + ss[|ss| - 1]
  }

  lemma JoinedOne(ss: seq<seq<Octet>>, s: seq<Octet>)
    ensures Joined(ss + [s]) == Joined(ss) + s
  {
    assert (ss + [s])[..|ss|] == ss;
  }

  /** Where each string starts in the joined one. */
  function Starts(ss: seq<seq<Octet>>): (r: seq<nat>)
    ensures |r| == |ss|
  {
    seq(|ss|, i requires 0 <= i < |ss| => |Joined(ss[..i])|)
  }

  lemma StartsOne(ss: seq<seq<Octet>>, s: seq<Octet>)
    ensures Starts(ss + [s]) == Starts(ss) + [|Joined(ss)|]
  {
    hide Joined;
    forall i | 0 <= i < |ss|
      ensures (ss + [s])[..i] == ss[..i]
    {
    }
    assert (ss + [s])[..|ss|] == ss;
  }

  /** Each string is found between its start and the next, the last one before the end. */
  lemma {:induction false} PartAt(ss: seq<seq<Octet>>, i: nat)
    requires i < |ss|
    ensures var next := if i + 1 < |ss| then Starts(ss)[i + 1] else |Joined(ss)|;
      Starts(ss)[i] <= next <= |Joined(ss)| && Joined(ss)[Starts(ss)[i]..next] == ss[i]
  {
    var n := |ss| - 1;
    if i < n {
      PartAt(ss[..n], i);
      assert ss[..n][..i] == ss[..i] && ss[..n][..i + 1] == ss[..i + 1];
      var next := if i + 1 < n then Starts(ss[..n])[i + 1] else |Joined(ss[..n])|;
      assert Starts(ss)[i] == Starts(ss[..n])[i];
      assert Starts(ss)[i + 1] == next;
      assert Joined(ss)[Starts(ss)[i]..next] == Joined(ss[..n])[Starts(ss)[i]..next];
    } else {
      assert ss[..i] == ss[..n];
    }
  }

  /** A filter that says yes to every key it was made for; without keys there is no filter. */
  ghost predicate Covers(hash: Hash, filter: seq<Octet>, group: seq<seq<Octet>>) {
    if group == [] then filter == [] else forall k :: k in group ==> Matches(hash, User(k), filter)
  }

  /** How many keys the groups hold together. */
  function KeyCount(groups: seq<seq<seq<Octet>>>): nat {
    if groups == [] then 0 else KeyCount(groups[..|groups| - 1]) + |groups[|groups| - 1]|
  }

  lemma KeyCountOne(groups: seq<seq<seq<Octet>>>, g: seq<seq<Octet>>)
    ensures KeyCount(groups + [g]) == KeyCount(groups) + |g|
  {
    assert (groups + [g])[..|groups|] == groups;
  }

  /** Each filter is as long as its number of keys asks for. */
  ghost predicate Lengths(parts: seq<seq<Octet>>, groups: seq<seq<seq<Octet>>>, bitsPerKey: nat) {
    |parts| == |groups| && forall i :: 0 <= i < |parts| ==> |parts[i]| == FilterLength(|groups[i]|, bitsPerKey)
  }

  /** The filters, their offsets, where the offsets start, and the logarithm of the base. */
  function FilterBytes(parts: seq<seq<Octet>>): seq<Octet> {
    Joined(parts) + FixedAll(Starts(parts)) + (Fixed(|Joined(parts)| % LIMIT32, 4) + [BASE_LG])
  }

  /** A filter block with one filter of one byte, byte by byte: the filter, its offset, where the offsets start, and the
      logarithm of 2048. */
  lemma OneFilterBytes(b: Octet)
    ensures FilterBytes([[b]]) == [b, 0, 0, 0, 0, 1, 0, 0, 0, 11]
  {
    var parts := [[b]];
    assert parts[..0] == [];
    assert Joined(parts) == Joined(parts[..0]) + [b];
    assert Starts(parts) == [0];
    RestartLiteral();
    hide FixedAll, Fixed, Joined, Starts;
  }

  class FilterBlockBuilder {
    const hash: Hash
    const bitsPerKey: nat
    const k: nat
    var keys: seq<Octet>
    var start: seq<nat>
    var result: seq<Octet>
    var filterOffsets: seq<nat>
    /** The keys not in a filter yet, the filters so far, and the keys of each. */
    ghost var pending: seq<seq<Octet>>
    ghost var parts: seq<seq<Octet>>
    ghost var groups: seq<seq<seq<Octet>>>

    ghost predicate Valid()
      reads this
    {
      && 1 <= k <= 30
      && keys == Joined(pending) && start == Starts(pending)
      && result == Joined(parts) && filterOffsets == Starts(parts)
      && |groups| == |parts| && (forall i :: 0 <= i < |parts| ==> Covers(hash, parts[i], groups[i]))
      && Lengths(parts, groups, bitsPerKey)
    }

    constructor (hash: Hash, bitsPerKey: nat, k: nat)
      requires 1 <= k <= 30
      ensures Valid() && pending == [] && parts == [] && groups == []
      ensures this.hash == hash && this.bitsPerKey == bitsPerKey
    {
      this.hash, this.bitsPerKey, this.k := hash, bitsPerKey, k;
      keys, start, result, filterOffsets := [], [], [], [];
      pending, parts, groups := [], [], [];
    }

    method AddKey(key: seq<Octet>)
      requires Valid()
      modifies this
      ensures Valid() && pending == old(pending) + [key] && parts == old(parts) && groups == old(groups)
    {
      hide Joined, Starts;
      JoinedOne(pending, key);
      StartsOne(pending, key);
      start := start + [|keys|];
      keys := keys + key;
      pending := pending + [key];
    }

    /** The keys back from their flattened form. */
    method PendingKeys() returns (r: seq<seq<Octet>>)
      requires Valid()
      ensures |r| == |pending| && forall i :: 0 <= i < |r| ==> r[i] == User(pending[i])
    {
      hide Joined, Covers;
      r := [];
      for i := 0 to |start|
        invariant |r| == i && forall j :: 0 <= j < i ==> r[j] == User(pending[j])
      {
        PartAt(pending, i);
        var next := if i + 1 < |start| then start[i + 1] else |keys|;
        r := r + [User(keys[start[i]..next])];
      }
    }

    method GenerateFilter()
      requires Valid()
      modifies this
      ensures Valid() && pending == [] && groups == old(groups) + [old(pending)] && parts[..|old(parts)|] == old(parts)
    {
      hide Joined, Starts, Matches, FilterLength;
      NoLength(bitsPerKey);
      var filter := [];
      if |start| != 0 {
        var tmp := PendingKeys();
        filter := CreateFilter(hash, tmp, bitsPerKey, k);
        assert forall x :: x in pending ==> Matches(hash, User(x), filter) by {
          forall x | x in pending ensures Matches(hash, User(x), filter) {
            var i :| 0 <= i < |pending| && pending[i] == x;
            assert tmp[i] == User(x);
          }
        }
      }
      JoinedOne(parts, filter);
      StartsOne(parts, filter);
      filterOffsets := filterOffsets + [|result|];
      result := result + filter;
      parts, groups := parts + [filter], groups + [pending];
      keys, start, pending := [], [], [];
      JoinedNone();
    }

    /** From here on keys belong to blocks at or after this offset. */
    method StartBlock(blockOffset: nat)
      requires Valid() && |groups| <= blockOffset / BASE
      modifies this
      ensures Valid() && |old(groups)| <= |groups| == blockOffset / BASE
      ensures KeyCount(groups) + |pending| == KeyCount(old(groups)) + |old(pending)|
      ensures |old(groups)| == |groups| ==> pending == old(pending) && groups == old(groups)
      ensures |old(groups)| < |groups| ==>
        pending == [] && groups[..|old(groups)|] == old(groups) && groups[|old(groups)|] == old(pending)
    {
      hide Joined, Starts, Covers, KeyCount, Lengths;
      var index := blockOffset / BASE;
      while index > |filterOffsets|
        invariant Valid() && |parts| <= index
        invariant KeyCount(groups) + |pending| == KeyCount(old(groups)) + |old(pending)|
        invariant |old(groups)| <= |groups|
        invariant |old(groups)| == |groups| ==> pending == old(pending) && groups == old(groups)
        invariant |old(groups)| < |groups| ==>
          pending == [] && groups[..|old(groups)|] == old(groups) && groups[|old(groups)|] == old(pending)
        decreases index - |filterOffsets|
      {
        KeyCountOne(groups, pending);
        GenerateFilter();
      }
    }

    method Finish() returns (contents: seq<Octet>)
      requires Valid()
      modifies this
      ensures |parts| == |groups| && contents == FilterBytes(parts) && Lengths(parts, groups, bitsPerKey)
      ensures KeyCount(groups) == KeyCount(old(groups)) + |old(pending)|
      ensures forall i :: 0 <= i < |parts| ==> Covers(hash, parts[i], groups[i])
      ensures if old(pending) == [] then groups == old(groups) else groups == old(groups) + [old(pending)]
    {
      hide Joined, Starts, Covers, KeyCount, Lengths;
      if start != [] {
        KeyCountOne(groups, pending);
        GenerateFilter();
      }
      var arrayOffset := |result|;
      for i := 0 to |filterOffsets|
        modifies this`result
        invariant result == Joined(parts) + FixedAll(filterOffsets[..i])
      {
        assert filterOffsets[..i + 1][..i] == filterOffsets[..i];
        result := result + Fixed(filterOffsets[i] % LIMIT32, 4);
      }
      assert filterOffsets[..|filterOffsets|] == filterOffsets;
      result := result + Fixed(arrayOffset % LIMIT32, 4);
      result := result + [BASE_LG];
      contents := result;
    }
  }

  lemma NoLength(bitsPerKey: nat)
    ensures FilterLength(0, bitsPerKey) == 0
  {
  }

  lemma JoinedNone()
    ensures Joined([]) == [] && Starts([]) == []
  {
  }

  // ---------------------------------------------------------------------------------------------------------
  // Reading
  // ---------------------------------------------------------------------------------------------------------

  function Word32(contents: seq<Octet>, p: nat): nat
    requires p + 4 <= |contents|
  {
    Number(contents[p..p + 4])
  }

  /** The layout, read back: the last word is where the offsets start, and the word after the last offset is the end of
      the last filter. */
  lemma LayoutRead(parts: seq<seq<Octet>>, i: nat)
    requires |FilterBytes(parts)| < LIMIT32 && i <= |parts|
    ensures var c, data := FilterBytes(parts), Joined(parts);
      && |c| == |data| + 4 * |parts| + 5 && c[|c| - 1] == BASE_LG && c[..|data|] == data
      && Word32(c, |data| + 4 * i) == (if i < |parts| then Starts(parts)[i] else |data|)
  {
    hide Joined, Fixed, Number, FixedAll, Starts, Word32;
    var c, data, ns := FilterBytes(parts), Joined(parts), Starts(parts);
    Outline(c, data, FixedAll(ns), Fixed(|data| % LIMIT32, 4));
    WordsRead(c, parts, i);
  }

  lemma Outline(c: seq<Octet>, data: seq<Octet>, table: seq<Octet>, word: seq<Octet>)
    requires c == data + table + (word + [BASE_LG])
    ensures |c| == |data| + |table| + |word| + 1 && c[|c| - 1] == BASE_LG && c[..|data|] == data
  {
  }

  lemma WordsRead(c: seq<Octet>, parts: seq<seq<Octet>>, i: nat)
    requires c == FilterBytes(parts) && i <= |parts| && |c| == |Joined(parts)| + 4 * |parts| + 5 < LIMIT32
    ensures Word32(c, |Joined(parts)| + 4 * i) == (if i < |parts| then Starts(parts)[i] else |Joined(parts)|)
  {
    hide Joined, Fixed, Number, FixedAll, Starts, Word32;
    var data, ns := Joined(parts), Starts(parts);
    var word := Fixed(|data| % LIMIT32, 4);
    if i < |parts| {
      assert ns[i] < LIMIT32 by { PartAt(parts, i); }
      OffsetRead(c, data, ns, word + [BASE_LG], i);
    } else {
      SmallModulo(|data|, LIMIT32);
      EndRead(c, data, FixedAll(ns), word);
    }
  }

  lemma Middle(c: seq<Octet>, data: seq<Octet>, table: seq<Octet>, rest: seq<Octet>, a: nat, b: nat)
    requires c == data + table + rest && a <= b <= |table|
    ensures c[|data| + a..|data| + b] == table[a..b]
  {
    forall i | a <= i < b
      ensures c[|data| + i] == table[i]
    {
    }
  }

  lemma OffsetBytes(ns: seq<nat>, i: nat)
    requires i < |ns| && ns[i] < LIMIT32
    ensures FixedAll(ns)[4 * i..4 * i + 4] == Fixed(ns[i], 4)
  {
    hide Fixed, FixedAll;
    FixedAllAt(ns, i);
    SmallModulo(ns[i], LIMIT32);
  }

  lemma OffsetRead(c: seq<Octet>, data: seq<Octet>, ns: seq<nat>, rest: seq<Octet>, i: nat)
    requires c == data + FixedAll(ns) + rest && i < |ns| && ns[i] < LIMIT32
    ensures Word32(c, |data| + 4 * i) == ns[i]
  {
    hide Fixed, Number, FixedAll, Word32;
    OffsetBytes(ns, i);
    WordRead(c, data, FixedAll(ns), rest, i, ns[i]);
  }

  lemma WordRead(c: seq<Octet>, data: seq<Octet>, table: seq<Octet>, rest: seq<Octet>, i: nat, n: nat)
    requires c == data + table + rest && 4 * i + 4 <= |table| && n < LIMIT32 && table[4 * i..4 * i + 4] == Fixed(n, 4)
    ensures Word32(c, |data| + 4 * i) == n
  {
    hide Fixed, Number;
    FixedRoundTrips(n);
    Middle(c, data, table, rest, 4 * i, 4 * i + 4);
  }

  lemma EndRead(c: seq<Octet>, data: seq<Octet>, table: seq<Octet>, word: seq<Octet>)
    requires |data| < LIMIT32 && word == Fixed(|data|, 4) && c == data + table + (word + [BASE_LG])
    ensures Word32(c, |data| + |table|) == |data|
  {
    hide Fixed, Number;
    FixedRoundTrips(|data|);
    assert c == (data + table) + word + [BASE_LG];
    Middle(c, data + table, word, [BASE_LG], 0, 4);
    assert word[0..4] == word;
  }

  /** Where the array of offsets starts, as the last word says. */
  ghost function OffsetsFrom(contents: seq<Octet>): nat
    requires |contents| >= 5
  {
    Word32(contents, |contents| - 5)
  }

  /** Which filter is the block's, by the base in the last byte. */
  ghost function IndexOf(contents: seq<Octet>, blockOffset: nat): nat
    requires |contents| >= 5
  {
    Quotient(blockOffset, Pow2(contents[|contents| - 1]))
  }

  ghost function Quotient(n: nat, d: nat): nat
    requires d > 0
  {
    n / d
  }

  /** The contents, whoever made them, have offsets for the block: the array of offsets starts inside, and is long
      enough for the index that the base gives. */
  ghost predicate NamesFilter(contents: seq<Octet>, blockOffset: nat)
    requires |contents| >= 5
  {
    OffsetsFrom(contents) + 4 * IndexOf(contents, blockOffset) + 4 <= |contents| - 5
  }

  /** From where to where the filter of the block goes. */
  ghost function FilterAt(contents: seq<Octet>, blockOffset: nat): (nat, nat)
    requires |contents| >= 5 && NamesFilter(contents, blockOffset)
  {
    var p := OffsetsFrom(contents) + 4 * IndexOf(contents, blockOffset);
    (Word32(contents, p), Word32(contents, p + 4))
  }

  /** Short contents and missing offsets count as matches, and so do offsets that are out of order. */
  ghost predicate Answers(hash: Hash, contents: seq<Octet>, blockOffset: nat, key: seq<Octet>, r: bool) {
    if |contents| < 5 || !NamesFilter(contents, blockOffset) then r
    else
      var at := FilterAt(contents, blockOffset);
      if at.0 <= at.1 <= OffsetsFrom(contents) then r == Matches(hash, User(key), contents[at.0..at.1])
      else r == (at.0 != at.1)
  }

  /** Errors count as matches; a block built from `parts` answers with the filter of the offset. */
  method FilterMayMatch(hash: Hash, contents: seq<Octet>, blockOffset: nat, key: seq<Octet>,
                        ghost parts: seq<seq<Octet>>) returns (r: bool)
    ensures Answers(hash, contents, blockOffset, key, r)
    ensures contents == FilterBytes(parts) && |contents| < LIMIT32 ==>
      var i := blockOffset / BASE;
      r == (i < |parts| ==> Matches(hash, User(key), parts[i]))
  {
    hide FilterBytes, Answers;
    r := ReadFilter(hash, contents, blockOffset, key);
    if contents == FilterBytes(parts) && |contents| < LIMIT32 {
      BuiltAnswers(hash, contents, blockOffset, key, parts, r);
    }
  }

  method ReadFilter(hash: Hash, contents: seq<Octet>, blockOffset: nat, key: seq<Octet>) returns (r: bool)
    ensures Answers(hash, contents, blockOffset, key, r)
  {
    hide Matches, Word32, Pow2, User;
    var n := |contents|;
    if n < 5 {
      return true;
    }
    var lastWord := Word32(contents, n - 5);
    if lastWord > n - 5 {
      return true;
    }
    var num := (n - 5 - lastWord) / 4;
    var index := blockOffset / Pow2(contents[n - 1]);
    if index < num {
      var start := Word32(contents, lastWord + index * 4);
      var limit := Word32(contents, lastWord + index * 4 + 4);
      if start <= limit && limit <= lastWord {
        r := KeyMayMatch(hash, User(key), contents[start..limit]);
        return;
      } else if start == limit {
        return false;
      }
    }
    return true;
  }

  lemma BuiltAnswers(hash: Hash, contents: seq<Octet>, blockOffset: nat, key: seq<Octet>, parts: seq<seq<Octet>>,
                     r: bool)
    requires Answers(hash, contents, blockOffset, key, r) && contents == FilterBytes(parts) && |contents| < LIMIT32
    ensures var i := blockOffset / BASE; r == (i < |parts| ==> Matches(hash, User(key), parts[i]))
  {
    hide FilterBytes, Matches, Starts, Joined, Word32, Pow2, User;
    LayoutRead(parts, |parts|);
    Pow2Of11();
    var i := blockOffset / BASE;
    if i < |parts| {
      PartRead(contents, parts, i);
    }
  }

  lemma PartRead(contents: seq<Octet>, parts: seq<seq<Octet>>, i: nat)
    requires contents == FilterBytes(parts) && |contents| < LIMIT32 && i < |parts|
    ensures var p := |Joined(parts)| + 4 * i;
      && p + 8 <= |contents|
      && Word32(contents, p) <= Word32(contents, p + 4) <= |Joined(parts)|
      && contents[Word32(contents, p)..Word32(contents, p + 4)] == parts[i]
  {
    hide FilterBytes, Joined, Starts, Word32;
    LayoutRead(parts, i);
    LayoutRead(parts, i + 1);
    PartAt(parts, i);
    var data, a, b := Joined(parts), Word32(contents, |Joined(parts)| + 4 * i),
      Word32(contents, |Joined(parts)| + 4 * i + 4);
    Middle(contents, [], data, contents[|data|..], a, b) by {
      assert contents == contents[..|data|] + contents[|data|..];
      assert [] + data + contents[|data|..] == data + contents[|data|..];
    }
  }

  lemma Pow2Of11()
    ensures Pow2(11) == 2048
  {
    assert Pow2(4) == 16;
    Pow2Add(4, 4);
    Pow2Add(3, 8);
  }
}
