/** Bloom filters (util/bloom.cc). The hash function is a parameter: nothing here depends on which one it is. */
module Bloom {
  import opened Coding

  type Hash = seq<Octet> -> nat

  // ---------------------------------------------------------------------------------------------------------
  // Bits of bytes
  // ---------------------------------------------------------------------------------------------------------

  function Weight(i: nat): nat {
    if i == 0 then 1 else if i == 1 then 2 else if i == 2 then 4 else if i == 3 then 8
    else if i == 4 then 16 else if i == 5 then 32 else if i == 6 then 64 else 128
  }

  predicate Bit(b: Octet, i: nat) {
    (b / Weight(i)) % 2 == 1
  }

  function SetBit(b: Octet, i: nat): Octet
    requires i < 8
  {
    if Bit(b, i) then b else BitFree(b, i); b + Weight(i)
  }

  lemma BitFree(b: Octet, i: nat)
    requires i < 8 && !Bit(b, i)
    ensures b + Weight(i) < 256
  {
  }

  /** Setting one bit sets that bit and no other. */
  lemma SetBitSets(b: Octet, i: nat, j: nat)
    requires i < 8 && j < 8
    ensures Bit(SetBit(b, i), j) <==> j == i || Bit(b, j)
  {
    hide Weight;
    WeightPositive(j);
    if !Bit(b, i) {
      BitFree(b, i);
      if j <= i {
        AddedBelow(b, i, j);
      } else {
        Above(b, i, j);
      }
    }
  }

  lemma AddedBelow(b: nat, i: nat, j: nat)
    requires j <= i < 8
    ensures Weight(j) > 0 && ((b + Weight(i)) / Weight(j)) % 2
      == (if j < i then (b / Weight(j)) % 2 else (b / Weight(j) + 1) % 2)
  {
    hide Weight;
    WeightPositive(j);
    Below(b, i, j);
    if j < i {
      Doubles(i - j - 1);
      Parity(b / Weight(j), Weight(i - j - 1));
    } else {
      Doubles(0);
    }
  }

  lemma WeightPositive(i: nat)
    ensures Weight(i) > 0
  {
  }

  lemma Parity(x: nat, t: nat)
    ensures (x + 2 * t) % 2 == x % 2
  {
  }

  lemma Doubles(i: nat)
    requires i < 7
    ensures Weight(i + 1) == 2 * Weight(i) && Weight(0) == 1
  {
  }

  lemma Halve(b: nat, i: nat)
    requires i < 7
    ensures b / Weight(i + 1) == b / Weight(i) / 2
  {
  }

  lemma {:induction false} Below(b: nat, i: nat, j: nat)
    requires j <= i < 8
    ensures (b + Weight(i)) / Weight(j) == b / Weight(j) + Weight(i - j)
  {
    hide Weight;
    if j == 0 {
      Doubles(0);
    } else {
      Below(b, i, j - 1);
      Halve(b + Weight(i), j - 1);
      Halve(b, j - 1);
      Doubles(i - j);
    }
  }

  lemma {:induction false} Above(b: nat, i: nat, j: nat)
    requires i < j < 8 && (b / Weight(i)) % 2 == 0
    ensures (b + Weight(i)) / Weight(j) == b / Weight(j)
  {
    hide Weight;
    Halve(b + Weight(i), j - 1);
    Halve(b, j - 1);
    if j == i + 1 {
      Below(b, i, i);
      Doubles(0);
    } else {
      Above(b, i, j - 1);
    }
  }

  // ---------------------------------------------------------------------------------------------------------
  // Bit arrays
  // ---------------------------------------------------------------------------------------------------------

  predicate HasBit(a: seq<Octet>, pos: nat)
    requires pos < 8 * |a|
  {
    Bit(a[pos / 8], pos % 8)
  }

  function WithBit(a: seq<Octet>, pos: nat): (r: seq<Octet>)
    requires pos < 8 * |a|
    ensures |r| == |a|
  {
    a[pos / 8 := SetBit(a[pos / 8], pos % 8)]
  }

  lemma WithBitSets(a: seq<Octet>, pos: nat, q: nat)
    requires pos < 8 * |a| && q < 8 * |a|
    ensures HasBit(WithBit(a, pos), q) <==> q == pos || HasBit(a, q)
  {
    hide Bit, SetBit;
    if q / 8 == pos / 8 {
      SetBitSets(a[pos / 8], pos % 8, q % 8);
    }
  }

  // ---------------------------------------------------------------------------------------------------------
  // Filters
  // ---------------------------------------------------------------------------------------------------------

  /** Rotated right by 17 bits. */
  function Delta(h: nat): nat {
    h / 0x2_0000 + (h % 0x2_0000) * 0x8000
  }

  /** The high 15 bits become the low ones, and the low 17 bits the high ones. */
  lemma DeltaRotates(h: nat)
    requires h < 0x1_0000_0000
    ensures Delta(h) < 0x1_0000_0000 && Delta(h) % 0x8000 == h / 0x2_0000 && Delta(h) / 0x8000 == h % 0x2_0000
  {
  }

  /** The hash value of probe `j`, in 32 bits. */
  function Probe(h: nat, j: nat): nat {
    if j == 0 then h % LIMIT32 else (Probe(h, j - 1) + Delta(h % LIMIT32)) % LIMIT32
  }

  /** Probes are equally far apart. */
  lemma {:induction false} ProbeIs(h: nat, j: nat)
    requires h < 0x1_0000_0000
    ensures Probe(h, j) == (h + j * Delta(h)) % 0x1_0000_0000
  {
    hide Delta;
    if j > 0 {
      ProbeIs(h, j - 1);
      var d := Delta(h);
      assert h + j * d == (h + (j - 1) * d) + d by { assert j * d == (j - 1) * d + d; }
      AddModulo(h + (j - 1) * d, d, 0x1_0000_0000);
    }
  }

  lemma AddModulo(a: nat, b: nat, m: nat)
    requires m > 0
    ensures (a % m + b) % m == (a + b) % m
  {
    var q := a / m;
    assert a + b == (a % m + b) + m * q;
    SameModulo(a % m + b, q, m);
  }

  lemma {:induction false} SameModulo(a: nat, q: nat, m: nat)
    requires m > 0
    ensures (a + m * q) % m == a % m
  {
    if q > 0 {
      SameModulo(a, q - 1, m);
      assert a + m * q == (a + m * (q - 1)) + m;
      OneMore(a + m * (q - 1), m);
    }
  }

  lemma OneMore(a: nat, m: nat)
    requires m > 0
    ensures (a + m) % m == a % m
  {
    var q, r := a / m, a % m;
    assert a + m == m * (q + 1) + r;
    QuotientIs(a + m, m, q + 1, r);
  }

  ghost predicate AllProbes(a: seq<Octet>, h: nat, k: nat)
    requires a != []
  {
    forall j :: 0 <= j < k ==> HasBit(a, Probe(h, j) % (8 * |a|))
  }

  /** What a filter says of a key. */
  ghost predicate Matches(hash: Hash, key: seq<Octet>, filter: seq<Octet>) {
    && |filter| >= 2
    && (filter[|filter| - 1] > 30 || AllProbes(filter[..|filter| - 1], hash(key), filter[|filter| - 1]))
  }

  /** Some probe of some of the first `n` keys falls on `pos`. */
  ghost predicate Hit(hash: Hash, keys: seq<seq<Octet>>, n: nat, k: nat, bits: nat, pos: nat)
    requires n <= |keys| && bits > 0
  {
    exists i, j :: HitBy(hash, keys, n, k, bits, pos, i, j)
  }

  ghost predicate HitBy(hash: Hash, keys: seq<seq<Octet>>, n: nat, k: nat, bits: nat, pos: nat, i: int, j: int)
    requires n <= |keys| && bits > 0
  {
    0 <= i < n && 0 <= j < k && Probe(hash(keys[i]), j) % bits == pos
  }

  ghost predicate ProbeHits(hash: Hash, key: seq<Octet>, k: nat, bits: nat, pos: nat, q: int)
    requires bits > 0
  {
    0 <= q < k && Probe(hash(key), q) % bits == pos
  }

  /** Some of the first `k` probes of the key falls on `pos`. */
  ghost predicate KeyHits(hash: Hash, key: seq<Octet>, k: nat, bits: nat, pos: nat)
    requires bits > 0
  {
    exists q :: ProbeHits(hash, key, k, bits, pos, q)
  }

  /** Each of the first `k` probes of `x` falls where some probe of some key falls. */
  ghost predicate ProbesHit(hash: Hash, x: seq<Octet>, keys: seq<seq<Octet>>, k: nat, bits: nat)
    requires bits > 0
  {
    forall j :: 0 <= j < k ==> Hit(hash, keys, |keys|, k, bits, Probe(hash(x), j) % bits)
  }

  /** How many bytes the filter of `n` keys takes; without keys there is none. */
  function FilterLength(n: nat, bitsPerKey: nat): nat {
    if n == 0 then 0
    else
      var bits := n * bitsPerKey;
      ((if bits < 64 then 64 else bits) + 7) / 8 + 1
  }

  /** The filter holds exactly the bits that the keys' probes fall on, so that every key matches. */
  method CreateFilter(hash: Hash, keys: seq<seq<Octet>>, bitsPerKey: nat, k: nat) returns (filter: seq<Octet>)
    requires 1 <= k <= 30
    ensures |filter| >= 2 && filter[|filter| - 1] == k
    ensures keys != [] ==> |filter| == FilterLength(|keys|, bitsPerKey)
    ensures forall i :: 0 <= i < |keys| ==> Matches(hash, keys[i], filter)
    ensures var a := filter[..|filter| - 1];
      forall pos :: 0 <= pos < 8 * |a| ==> (HasBit(a, pos) <==> Hit(hash, keys, |keys|, k, 8 * |a|, pos))
    ensures forall x :: Matches(hash, x, filter) <==> ProbesHit(hash, x, keys, k, 8 * (|filter| - 1))
  {
    hide Probe, HasBit, WithBit, Delta;
    var bits := |keys| * bitsPerKey;
    if bits < 64 {
      bits := 64;
    }
    var bytes := (bits + 7) / 8;
    bits := bytes * 8;
    var a: seq<Octet> := seq(bytes, _ => 0);
    NoBits(a);
    for i := 0 to |keys|
      invariant |a| == bytes
      invariant forall pos :: 0 <= pos < bits ==> (HasBit(a, pos) <==> Hit(hash, keys, i, k, bits, pos))
    {
      a := AddKey(hash, keys, i, k, a);
    }
    filter := a + [k];
    assert filter[..|filter| - 1] == a;
    forall i | 0 <= i < |keys|
      ensures Matches(hash, keys[i], filter)
    {
      forall j | 0 <= j < k
        ensures HasBit(a, Probe(hash(keys[i]), j) % bits)
      {
        assert HitBy(hash, keys, |keys|, k, bits, Probe(hash(keys[i]), j) % bits, i, j);
      }
    }
  }

  lemma NoBits(a: seq<Octet>)
    requires forall i :: 0 <= i < |a| ==> a[i] == 0
    ensures forall pos :: 0 <= pos < 8 * |a| ==> !HasBit(a, pos)
  {
  }

  /** The probes of one more key. */
  method AddKey(hash: Hash, keys: seq<seq<Octet>>, i: nat, k: nat, before: seq<Octet>) returns (a: seq<Octet>)
    requires i < |keys| && before != []
    requires forall pos :: 0 <= pos < 8 * |before| ==>
      (HasBit(before, pos) <==> Hit(hash, keys, i, k, 8 * |before|, pos))
    ensures |a| == |before|
    ensures forall pos :: 0 <= pos < 8 * |a| ==> (HasBit(a, pos) <==> Hit(hash, keys, i + 1, k, 8 * |a|, pos))
  {
    hide HasBit, WithBit, Delta, KeyHits;
    var h := hash(keys[i]) % LIMIT32;
    NoProbe(hash, keys[i], 8 * |before|);
    var delta := Delta(h);
    ghost var bits := 8 * |before|;
    a := before;
    for j := 0 to k
      invariant |a| == |before| && h == Probe(hash(keys[i]), j)
      invariant forall pos :: 0 <= pos < bits ==>
        (HasBit(a, pos) <==> HasBit(before, pos) || KeyHits(hash, keys[i], j, bits, pos))
    {
      var bitpos := h % (8 * |a|);
      forall pos | 0 <= pos < bits
        ensures HasBit(WithBit(a, bitpos), pos) <==> HasBit(before, pos) || KeyHits(hash, keys[i], j + 1, bits, pos)
      {
        WithBitSets(a, bitpos, pos);
        ProbeStep(hash, keys[i], j, bits, pos);
      }
      a := WithBit(a, bitpos);
      h := (h + delta) % LIMIT32;
    }
    hide Probe;
    forall pos | 0 <= pos < bits
      ensures HasBit(a, pos) <==> Hit(hash, keys, i + 1, k, bits, pos)
    {
      OneMoreKey(hash, keys, i, k, bits, pos);
    }
  }

  lemma NoProbe(hash: Hash, key: seq<Octet>, bits: nat)
    requires bits > 0
    ensures forall pos :: 0 <= pos < bits ==> !KeyHits(hash, key, 0, bits, pos)
  {
  }

  /** One more probe. */
  lemma ProbeStep(hash: Hash, key: seq<Octet>, j: nat, bits: nat, pos: nat)
    requires bits > 0
    ensures KeyHits(hash, key, j + 1, bits, pos) <==>
      pos == Probe(hash(key), j) % bits || KeyHits(hash, key, j, bits, pos)
  {
    hide Probe;
    var n := j + 1;
    if pos == Probe(hash(key), j) % bits {
      assert ProbeHits(hash, key, n, bits, pos, j);
    }
    if q :| ProbeHits(hash, key, j, bits, pos, q) {
      assert ProbeHits(hash, key, n, bits, pos, q);
    }
    if KeyHits(hash, key, n, bits, pos) {
      var q :| ProbeHits(hash, key, n, bits, pos, q);
      assert q < j ==> ProbeHits(hash, key, j, bits, pos, q);
    }
  }

  lemma OneMoreKey(hash: Hash, keys: seq<seq<Octet>>, i: nat, k: nat, bits: nat, pos: nat)
    requires i < |keys| && bits > 0
    ensures Hit(hash, keys, i + 1, k, bits, pos)
      <==> Hit(hash, keys, i, k, bits, pos) || KeyHits(hash, keys[i], k, bits, pos)
  {
    hide Probe;
    var n := i + 1;
    if x, q :| HitBy(hash, keys, i, k, bits, pos, x, q) {
      assert HitBy(hash, keys, n, k, bits, pos, x, q);
    }
    if q :| ProbeHits(hash, keys[i], k, bits, pos, q) {
      assert HitBy(hash, keys, n, k, bits, pos, i, q);
    }
    if Hit(hash, keys, n, k, bits, pos) {
      var x, q :| HitBy(hash, keys, n, k, bits, pos, x, q);
      if x < i {
        assert HitBy(hash, keys, i, k, bits, pos, x, q);
      } else {
        assert ProbeHits(hash, keys[i], k, bits, pos, q);
      }
    }
  }

  method KeyMayMatch(hash: Hash, key: seq<Octet>, filter: seq<Octet>) returns (r: bool)
    ensures r == Matches(hash, key, filter)
  {
    hide HasBit, Delta;
    if |filter| < 2 {
      return false;
    }
    var a := filter[..|filter| - 1];
    var k := filter[|filter| - 1];
    if k > 30 {
      return true;
    }
    var h := hash(key) % LIMIT32;
    var delta := Delta(h);
    for j := 0 to k
      invariant h == Probe(hash(key), j)
      invariant AllProbes(a, hash(key), j)
    {
      if !HasBit(a, h % (8 * |a|)) {
        return false;
      }
      h := (h + delta) % LIMIT32;
    }
    return true;
  }
}
