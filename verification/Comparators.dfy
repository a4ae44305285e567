/** Comparing and shortening keys (util/comparator.cc, db/dbformat.cc). */
module Comparators {
  import opened InternalKeys
  import opened Coding
  import opened BlockFormat

  // ---------------------------------------------------------------------------------------------------------
  // Bytewise
  // ---------------------------------------------------------------------------------------------------------

  predicate ByteLess(a: seq<Octet>, b: seq<Octet>) {
    if b == [] then false else if a == [] then true else if a[0] != b[0] then a[0] < b[0] else ByteLess(a[1..], b[1..])
  }

  lemma {:induction false} ByteTransitive(a: seq<Octet>, b: seq<Octet>, c: seq<Octet>)
    requires ByteLess(a, b) && ByteLess(b, c)
    ensures ByteLess(a, c)
  {
    if a != [] && a[0] == b[0] == c[0] {
      ByteTransitive(a[1..], b[1..], c[1..]);
    }
  }

  lemma {:induction false} ByteIrreflexive(a: seq<Octet>)
    ensures !ByteLess(a, a)
  {
    if a != [] {
      ByteIrreflexive(a[1..]);
    }
  }

  lemma {:induction false} ByteTotal(a: seq<Octet>, b: seq<Octet>)
    ensures a == b || ByteLess(a, b) || ByteLess(b, a)
  {
    if a != [] && b != [] && a[0] == b[0] {
      ByteTotal(a[1..], b[1..]);
      assert a == [a[0]] + a[1..] && b == [b[0]] + b[1..];
    }
  }

  /** The first difference decides. */
  lemma {:induction false} Differ(a: seq<Octet>, b: seq<Octet>, d: nat)
    requires d < |a| && d < |b| && a[..d] == b[..d] && a[d] < b[d]
    ensures ByteLess(a, b)
  {
    if d > 0 {
      assert a[..d][0] == b[..d][0];
      assert a[1..][..d - 1] == a[..d][1..] && b[1..][..d - 1] == b[..d][1..];
      Differ(a[1..], b[1..], d - 1);
    }
  }

  /** The first byte that differs can be raised and stay below the limit's. */
  predicate Raisable(start: seq<Octet>, limit: seq<Octet>) {
    var d := CommonPrefix(start, limit);
    d < |start| && d < |limit| && (start[d] as int) + 1 < limit[d]
  }

  /** A key in [start, limit) that is no longer than `start`; it changes exactly where one byte can be raised. */
  method FindShortestSeparator(start: seq<Octet>, limit: seq<Octet>) returns (r: seq<Octet>)
    ensures |r| <= |start| && (r != start <==> Raisable(start, limit))
    ensures var d := CommonPrefix(start, limit);
      r != start ==> |r| == d + 1 && r[..d] == start[..d] && r[d] == start[d] + 1
    ensures r == start || (ByteLess(start, r) && ByteLess(r, limit))
  {
    var d := SharedLength(start, limit);
    r := start;
    if d < |start| && d < |limit| {
      var diff := start[d];
      if diff < 0xff && diff + 1 < limit[d] {
        r := start[..d] + [diff + 1];
        assert r[..d] == start[..d];
        Differ(start, r, d);
        Differ(r, limit, d);
      }
    }
  }

  /** A key at or above `key` that is no longer; only a run of 0xff bytes stays as it is. */
  method FindShortSuccessor(key: seq<Octet>) returns (r: seq<Octet>)
    ensures |r| <= |key| && (r == key || ByteLess(key, r))
    ensures r == key <==> forall i :: 0 <= i < |key| ==> key[i] == 0xff
    ensures r != key ==> r != [] && r[|r| - 1] == (key[|r| - 1] as int) + 1 && r[..|r| - 1] == key[..|r| - 1]
    ensures r != key ==> forall i :: 0 <= i < |r| - 1 ==> key[i] == 0xff
  {
    for i := 0 to |key|
      invariant forall k :: 0 <= k < i ==> key[k] == 0xff
    {
      if key[i] != 0xff {
        r := key[..i] + [key[i] + 1];
        assert r[..i] == key[..i];
        Differ(key, r, i);
        return;
      }
    }
    r := key;
  }

  // ---------------------------------------------------------------------------------------------------------
  // Internal keys as bytes: the user key and eight bytes of tag
  // ---------------------------------------------------------------------------------------------------------

  const MAX_TAG: nat := 256 * MAX_SEQUENCE + TYPE_FOR_SEEK

  function User(k: seq<Octet>): seq<Octet> {
    if |k| >= 8 then k[..|k| - 8] else []
  }

  function Tag(k: seq<Octet>): nat {
    if |k| >= 8 then Number(k[|k| - 8..]) else 0
  }

  predicate InternalLess(a: seq<Octet>, b: seq<Octet>) {
    ByteLess(User(a), User(b)) || (User(a) == User(b) && Tag(a) > Tag(b))
  }

  lemma InternalTransitive(a: seq<Octet>, b: seq<Octet>, c: seq<Octet>)
    requires InternalLess(a, b) && InternalLess(b, c)
    ensures InternalLess(a, c)
  {
    hide User, Tag;
    if ByteLess(User(a), User(b)) && ByteLess(User(b), User(c)) {
      ByteTransitive(User(a), User(b), User(c));
    }
  }

  function MakeKey(user: seq<Octet>, tag: nat): seq<Octet> {
    user + Fixed(tag, 8)
  }

  lemma KeyParts(user: seq<Octet>, tag: nat)
    requires tag < LIMIT64
    ensures User(MakeKey(user, tag)) == user && Tag(MakeKey(user, tag)) == tag
  {
    hide Fixed, Number;
    var k := MakeKey(user, tag);
    assert k[..|k| - 8] == user && k[|k| - 8..] == Fixed(tag, 8);
    FixedRoundTrips(tag);
  }

  /** Between a key and the next, in the internal order: either the first key itself, or one whose user key lies
      strictly between theirs. */
  ghost predicate Separates(start: seq<Octet>, r: seq<Octet>, limit: seq<Octet>) {
    r == start || (ByteLess(User(start), User(r)) && ByteLess(User(r), User(limit)))
  }

  method FindInternalSeparator(start: seq<Octet>, limit: seq<Octet>) returns (r: seq<Octet>)
    ensures Separates(start, r, limit) && (r != start ==> |r| < |start| && Tag(r) == 0xffff_ffff_ffff_ff01)
    ensures var d := CommonPrefix(User(start), User(limit));
      && (r != start <==> Raisable(User(start), User(limit)) && d + 1 < |User(start)|)
      && (r != start ==> |User(r)| == d + 1)
  {
    hide User;
    var tmp := FindShortestSeparator(User(start), User(limit));
    if |tmp| < |User(start)| && ByteLess(User(start), tmp) {
      KeyParts(tmp, MAX_TAG);
      UserLength(start);
      ByteIrreflexive(User(start));
      r := MakeKey(tmp, MAX_TAG);
    } else {
      r := start;
    }
  }

  lemma UserLength(k: seq<Octet>)
    ensures User(k) != [] ==> |k| == |User(k)| + 8
  {
  }

  method FindInternalSuccessor(key: seq<Octet>) returns (r: seq<Octet>)
    ensures r == key || (ByteLess(User(key), User(r)) && |r| < |key| && Tag(r) == 0xffff_ffff_ffff_ff01)
    ensures r != key <==> exists i :: 0 <= i < |User(key)| - 1 && User(key)[i] != 0xff
  {
    hide User;
    var tmp := FindShortSuccessor(User(key));
    if |tmp| < |User(key)| && ByteLess(User(key), tmp) {
      KeyParts(tmp, MAX_TAG);
      UserLength(key);
      r := MakeKey(tmp, MAX_TAG);
    } else {
      r := key;
    }
  }
}
