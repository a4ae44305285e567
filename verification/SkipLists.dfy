/** The skip list under the memtable (db/skiplist.h): one writer links nodes level by level while readers search. */
module SkipLists {

  type Key = int

  const MAX_HEIGHT: nat := 12
  const HEAD: nat := 0
  const NULL: int := -1

  /** Nodes are arena indices, index 0 the head. `next[n]` has one link per level of node `n`; `linked[n]` tells on how
      many levels, from the bottom up, other nodes can reach it. */
  datatype List = List(keys: seq<Key>, next: seq<seq<int>>, maxHeight: nat, linked: seq<nat>)

  ghost predicate Shape(s: List) {
    && 0 < |s.keys| == |s.next| == |s.linked|
    && 1 <= s.maxHeight <= MAX_HEIGHT
    && |s.next[HEAD]| == s.linked[HEAD] == MAX_HEIGHT
    && forall n :: 0 < n < |s.keys| ==> s.linked[n] <= |s.next[n]| <= MAX_HEIGHT && s.linked[n] <= s.maxHeight
  }

  /** Node `n` is on the list of level `i`. */
  ghost predicate Member(s: List, n: int, i: int) {
    0 <= n < |s.keys| && |s.linked| == |s.keys| && 0 <= i < s.linked[n]
  }

  /** A real node on level `i`, not the head. */
  ghost predicate Item(s: List, n: int, i: int) {
    n != HEAD && Member(s, n, i)
  }

  /** Node `b` comes after node `a`, which may be the head. */
  ghost predicate After(s: List, a: nat, b: nat)
    requires a < |s.keys| && b < |s.keys|
  {
    a == HEAD || s.keys[a] < s.keys[b]
  }

  /** `m` is the nearest node after `n` on level `i`. */
  ghost predicate Successor(s: List, n: nat, i: nat, m: int)
    requires n < |s.keys|
  {
    && (m != NULL ==> Item(s, m, i) && After(s, n, m))
    && forall b :: Item(s, b, i) && After(s, n, b) ==> m != NULL && s.keys[m] <= s.keys[b]
  }

  /** Every level is a sorted list of exactly the nodes linked there, and each level's nodes are on the level below. */
  ghost predicate Inv(s: List) {
    && Shape(s)
    && (forall a, b :: Item(s, a, 0) && Item(s, b, 0) && s.keys[a] == s.keys[b] ==> a == b)
    && forall n, i :: Member(s, n, i) ==> Successor(s, n, i, s.next[n][i])
  }

  /** `m` is the first node of the bottom level whose key is not below `key`. */
  ghost predicate FirstNotBelow(s: List, key: Key, m: int) {
    && (m != NULL ==> Item(s, m, 0) && key <= s.keys[m])
    && forall b :: Item(s, b, 0) && key <= s.keys[b] ==> m != NULL && s.keys[m] <= s.keys[b]
  }

  /** `x` is the head, or a node of level `i` below `key`. */
  ghost predicate Before(s: List, key: Key, x: nat, i: nat) {
    Member(s, x, i) && (x == HEAD || s.keys[x] < key)
  }

  // ---------------------------------------------------------------------------------------------------------
  // The writer's stores
  // ---------------------------------------------------------------------------------------------------------

  function Raise(s: List, height: nat): List {
    s.(maxHeight := height)
  }

  /** A new node, not reachable yet. */
  function Allocate(s: List, key: Key, height: nat): List {
    s.(keys := s.keys + [key], next := s.next + [seq(height, _ => NULL)], linked := s.linked + [0])
  }

  /** The link of a node on a level where nothing reaches it yet. */
  function Prepare(s: List, x: nat, i: nat, q: int): List
    requires x < |s.next| && i < |s.next[x]|
  {
    s.(next := s.next[x := s.next[x][i := q]])
  }

  /** The store that makes `x` reachable on level `i`, from `p`. */
  function Publish(s: List, p: nat, x: nat, i: nat): List
    requires p < |s.next| && i < |s.next[p]| && x < |s.linked|
  {
    s.(next := s.next[p := s.next[p][i := x]], linked := s.linked[x := i + 1])
  }

  lemma RaiseKeeps(s: List, height: nat)
    requires Inv(s) && s.maxHeight <= height <= MAX_HEIGHT
    ensures Inv(Raise(s, height))
  {
    var t := Raise(s, height);
    assert forall n, i :: Item(t, n, i) <==> Item(s, n, i);
    forall n, i | Member(t, n, i)
      ensures Successor(t, n, i, t.next[n][i])
    {
      assert Member(s, n, i) && Successor(s, n, i, s.next[n][i]);
    }
  }

  lemma AllocateKeeps(s: List, key: Key, height: nat)
    requires Inv(s) && height <= MAX_HEIGHT
    ensures Inv(Allocate(s, key, height))
  {
    var t := Allocate(s, key, height);
    assert forall n, i :: Member(t, n, i) <==> Member(s, n, i);
    forall n, i | Member(t, n, i)
      ensures Successor(t, n, i, t.next[n][i])
    {
      assert Member(s, n, i) && Successor(s, n, i, s.next[n][i]);
      forall b | Item(t, b, i) && After(t, n, b)
        ensures t.next[n][i] != NULL && t.keys[t.next[n][i]] <= t.keys[b]
      {
        assert Item(s, b, i) && After(s, n, b);
      }
    }
  }

  lemma PrepareKeeps(s: List, x: nat, i: nat, q: int)
    requires Inv(s) && HEAD < x < |s.keys| && s.linked[x] <= i < |s.next[x]|
    ensures Inv(Prepare(s, x, i, q))
  {
    var t := Prepare(s, x, i, q);
    assert forall n, j :: Member(t, n, j) <==> Member(s, n, j);
    forall n, j | Member(t, n, j)
      ensures Successor(t, n, j, t.next[n][j])
    {
      assert Member(s, n, j) && Successor(s, n, j, s.next[n][j]);
      assert t.next[n][j] == s.next[n][j];
      forall b | Item(t, b, j) && After(t, n, b)
        ensures t.next[n][j] != NULL && t.keys[t.next[n][j]] <= t.keys[b]
      {
        assert Item(s, b, j) && After(s, n, b);
      }
    }
  }

  /** Where a node goes: after `p`, whose successor is beyond it, on a level all of whose lower levels have it. */
  ghost predicate Fits(s: List, p: nat, x: nat, i: nat) {
    && HEAD < x < |s.keys| && Shape(s) && Before(s, s.keys[x], p, i)
    && s.linked[x] == i < |s.next[x]| && i < s.maxHeight
    && s.next[x][i] == s.next[p][i]
    && (forall b :: Item(s, b, i) && After(s, p, b) ==> s.keys[x] < s.keys[b])
    && (forall b :: Item(s, b, 0) && s.keys[b] == s.keys[x] ==> b == x)
  }

  lemma PublishKeeps(s: List, p: nat, x: nat, i: nat)
    requires Inv(s) && Fits(s, p, x, i)
    ensures Inv(Publish(s, p, x, i))
  {
    var t := Publish(s, p, x, i);
    assert forall n, j :: Member(t, n, j) <==> Member(s, n, j) || (n == x && j == i);
    forall n, j | Member(t, n, j)
      ensures Successor(t, n, j, t.next[n][j])
    {
      PublishSuccessor(s, p, x, i, t, n, j);
    }
  }

  lemma PublishSuccessor(s: List, p: nat, x: nat, i: nat, t: List, n: nat, j: nat)
    requires Inv(s) && Fits(s, p, x, i) && t == Publish(s, p, x, i) && Member(t, n, j)
    requires forall n, j :: Member(t, n, j) <==> Member(s, n, j) || (n == x && j == i)
    ensures Successor(t, n, j, t.next[n][j])
  {
    var q := s.next[p][i];
    assert Successor(s, p, i, q);
    if j == i && n == p {
      assert Item(t, x, i);
      forall b | Item(t, b, i) && After(t, p, b)
        ensures t.keys[x] <= t.keys[b]
      {
        assert b == x || Item(s, b, i);
      }
    } else if j == i && n == x {
      forall b | Item(t, b, i) && After(t, x, b)
        ensures q != NULL && t.keys[q] <= t.keys[b]
      {
        assert Item(s, b, i) && After(s, p, b);
      }
    } else {
      OtherSuccessor(s, p, x, i, t, n, j);
    }
  }

  lemma OtherSuccessor(s: List, p: nat, x: nat, i: nat, t: List, n: nat, j: nat)
    requires Inv(s) && Fits(s, p, x, i) && t == Publish(s, p, x, i) && Member(s, n, j) && !(j == i && n == p)
    requires forall n, j :: Member(t, n, j) <==> Member(s, n, j) || (n == x && j == i)
    ensures Successor(t, n, j, t.next[n][j])
  {
    var m := s.next[n][j];
    assert Successor(s, n, j, m) && t.next[n][j] == m;
    forall b | Item(t, b, j) && After(t, n, b)
      ensures m != NULL && t.keys[m] <= t.keys[b]
    {
      if j == i && b == x {
        NotBetween(s, p, x, i, n);
      } else {
        assert Item(s, b, j) && After(s, n, b);
      }
    }
  }

  /** A node other than `p` that is before `x` has its successor before `x` too. */
  lemma NotBetween(s: List, p: nat, x: nat, i: nat, n: nat)
    requires Inv(s) && Fits(s, p, x, i) && Member(s, n, i) && n != p && After(s, n, x)
    ensures s.next[n][i] != NULL && s.keys[s.next[n][i]] <= s.keys[x]
  {
    assert Successor(s, n, i, s.next[n][i]);
    if p == HEAD {
      assert Item(s, n, i) && After(s, p, n);
    } else {
      assert Item(s, p, i);
      assert n != HEAD ==> Item(s, n, i) && Item(s, n, 0) && Item(s, p, 0);
      assert After(s, n, p);
    }
  }

  // ---------------------------------------------------------------------------------------------------------
  // Searching
  // ---------------------------------------------------------------------------------------------------------

  /** The nodes of level `i` a search has still to pass. */
  ghost function Ahead(s: List, x: nat, i: nat): set<int>
    requires x < |s.keys|
  {
    set b | 0 <= b < |s.keys| && Item(s, b, i) && After(s, x, b)
  }

  lemma AheadShrinks(s: List, x: nat, i: nat, m: nat)
    requires x < |s.keys| && Item(s, m, i) && After(s, x, m)
    ensures |Ahead(s, m, i)| < |Ahead(s, x, i)|
  {
    assert Ahead(s, m, i) <= Ahead(s, x, i);
    assert m in Ahead(s, x, i) && m !in Ahead(s, m, i);
    ProperSubset(Ahead(s, m, i), Ahead(s, x, i), m);
  }

  lemma ProperSubset(a: set<int>, b: set<int>, m: int)
    requires a <= b && m in b && m !in a
    ensures |a| < |b|
  {
    var c := b - a;
    assert b == a + c && m in c;
  }

  /** On the bottom level, the successor of the last node below the key is the answer. */
  lemma BottomAnswer(s: List, key: Key, x: nat)
    requires Inv(s) && Before(s, key, x, 0)
    requires s.next[x][0] == NULL || key <= s.keys[s.next[x][0]]
    ensures FirstNotBelow(s, key, s.next[x][0])
  {
    var m := s.next[x][0];
    assert Successor(s, x, 0, m);
    forall b | Item(s, b, 0) && key <= s.keys[b]
      ensures m != NULL && s.keys[m] <= s.keys[b]
    {
      assert After(s, x, b);
    }
  }

  /** `prev` is the last node of the level below the key. */
  ghost predicate LastBelow(s: List, key: Key, p: nat, i: nat) {
    Before(s, key, p, i) && forall b :: Item(s, b, i) && After(s, p, b) ==> key <= s.keys[b]
  }

  lemma StopHere(s: List, key: Key, x: nat, i: nat)
    requires Inv(s) && Before(s, key, x, i) && (s.next[x][i] == NULL || key <= s.keys[s.next[x][i]])
    ensures LastBelow(s, key, x, i)
  {
    assert Successor(s, x, i, s.next[x][i]);
  }

  /** Going on to a successor below the key. */
  lemma GoOn(s: List, key: Key, x: nat, i: nat)
    requires Inv(s) && Before(s, key, x, i) && s.next[x][i] != NULL && s.keys[s.next[x][i]] < key
    ensures Before(s, key, s.next[x][i], i) && |Ahead(s, s.next[x][i], i)| < |Ahead(s, x, i)|
  {
    assert Successor(s, x, i, s.next[x][i]);
    AheadShrinks(s, x, i, s.next[x][i]);
  }

  lemma LinkInRange(s: List, x: nat, i: nat)
    requires Inv(s) && Member(s, x, i)
    ensures i < |s.next[x]| && (s.next[x][i] == NULL || 0 < s.next[x][i] < |s.keys|)
  {
    assert Successor(s, x, i, s.next[x][i]);
  }

  class SkipList {
    var keys: seq<Key>
    var next: seq<seq<int>>
    var maxHeight: nat
    ghost var linked: seq<nat>

    ghost function State(): List
      reads this
    {
      List(keys, next, maxHeight, linked)
    }

    constructor ()
      ensures Inv(State()) && maxHeight == 1 && |next[HEAD]| == 12 && forall n :: !Item(State(), n, 0)
    {
      keys := [0];
      next := [seq(MAX_HEIGHT, _ => NULL)];
      maxHeight := 1;
      linked := [MAX_HEIGHT];
    }

    /** The search, with the last node below the key on each level. */
    method FindGreaterOrEqual(key: Key) returns (m: int, prev: seq<nat>)
      requires Inv(State())
      ensures FirstNotBelow(State(), key, m)
      ensures |prev| == maxHeight && forall i :: 0 <= i < maxHeight ==> LastBelow(State(), key, prev[i], i)
    {
      hide Inv, Before, FirstNotBelow, LastBelow, Successor, After, Item;
      ghost var s := State();
      StartSearch(s, key);
      prev := seq(maxHeight, _ => HEAD);
      var x: nat, level: nat := HEAD, maxHeight - 1;
      while true
        invariant State() == s && |prev| == maxHeight && 0 <= level < maxHeight && x < |keys|
          && Before(s, key, x, level)
        invariant forall i :: level < i < maxHeight ==> LastBelow(s, key, prev[i], i)
        decreases level, |Ahead(s, x, level)|
      {
        BeforeMember(s, key, x, level);
        LinkInRange(s, x, level);
        var n := next[x][level];
        if n != NULL && keys[n] < key {
          GoOn(s, key, x, level);
          x := n;
        } else {
          StopHere(s, key, x, level);
          prev := prev[level := x];
          if level == 0 {
            BottomAnswer(s, key, x);
            return n, prev;
          }
          Down(s, key, x, level);
          level := level - 1;
        }
      }
    }

    /** The last node below the key, or the head. */
    method FindLessThan(key: Key) returns (x: nat)
      requires Inv(State())
      ensures LastBelow(State(), key, x, 0)
    {
      hide Inv, Before, LastBelow, Successor, After, Item;
      ghost var s := State();
      StartSearch(s, key);
      x := HEAD;
      var level := maxHeight - 1;
      while true
        invariant State() == s && 0 <= level < maxHeight && x < |keys| && Before(s, key, x, level)
        decreases level, |Ahead(s, x, level)|
      {
        BeforeMember(s, key, x, level);
        LinkInRange(s, x, level);
        var n := next[x][level];
        if n == NULL || keys[n] >= key {
          StopHere(s, key, x, level);
          if level == 0 {
            return;
          }
          Down(s, key, x, level);
          level := level - 1;
        } else {
          GoOn(s, key, x, level);
          x := n;
        }
      }
    }

    /** The last node of the list, or the head of an empty one. */
    method FindLast() returns (x: nat)
      requires Inv(State())
      ensures Member(State(), x, 0)
      ensures forall b :: Item(State(), b, 0) ==> x != HEAD && keys[b] <= keys[x]
    {
      hide Inv, Successor, After, Item;
      ghost var s := State();
      StartSearch(s, 0);
      x := HEAD;
      var level := maxHeight - 1;
      while true
        invariant State() == s && 0 <= level < maxHeight && x < |keys| && Member(s, x, level)
        decreases level, |Ahead(s, x, level)|
      {
        LinkInRange(s, x, level);
        var n := next[x][level];
        if n == NULL {
          if level == 0 {
            NothingAfter(s, x);
            return;
          }
          level := level - 1;
        } else {
          Follow(s, x, level);
          x := n;
        }
      }
    }

    method Contains(key: Key) returns (found: bool)
      requires Inv(State())
      ensures found <==> exists n :: Item(State(), n, 0) && keys[n] == key
    {
      var m, prev := FindGreaterOrEqual(key);
      found := m != NULL && keys[m] == key;
    }

    /** The two stores for one level, with the list between them. */
    method LinkLevel(prev: seq<nat>, x: nat, i: nat, height: nat) returns (ghost q: int, ghost mid: List)
      requires Inv(State()) && Inserting(State(), prev, x, i, height) && i < height
      modifies this`next, this`linked
      ensures Inv(State()) && Inserting(State(), prev, x, i + 1, height)
      ensures forall n, j :: Item(State(), n, j) <==> old(Item(State(), n, j)) || (n == x && j == i)
      ensures i < |prev| && Stores(old(State()), PrepareStep(x, i, q), mid)
      ensures Stores(mid, PublishStep(prev[i], x, i), State())
    {
      hide Inv, LastBelow, Inserting, Fits, Item, Shape;
      ghost var s := State();
      NextPlace(s, prev, x, i, height);
      var after := next[prev[i]][i];
      q := after;
      next := next[x := next[x][i := after]];
      PrepareKeeps(s, x, i, q);
      mid := State();
      assert mid == Prepare(s, x, i, q);
      Prepared(s, prev, x, i, height, q);
      PublishKeeps(mid, prev[i], x, i);
      Published(mid, prev, x, i, height);
      next := next[prev[i] := next[prev[i]][i := x]];
      linked := linked[x := i + 1];
      assert State() == Publish(mid, prev[i], x, i);
    }

    /**
     * Afterwards the key is in the list, on as many levels as its height, and nothing else changed; the list went
     * through single stores, beside which readers may search.
     */
    method Insert(key: Key, height: nat) returns (ghost steps: seq<WriterStep>, ghost lists: seq<List>)
      requires Inv(State()) && 1 <= height <= MAX_HEIGHT
      requires forall n :: Item(State(), n, 0) ==> keys[n] != key
      modifies this
      ensures Inv(State()) && keys == old(keys) + [key]
      ensures forall n, i :: Item(State(), n, i) <==> old(Item(State(), n, i)) || (n == |old(keys)| && 0 <= i < height)
      ensures Trace(old(State()), steps, lists, State())
    {
      hide Inv, LastBelow, Inserting, Member, FirstNotBelow, Fits;
      ghost var s0 := State();
      steps, lists := [], [s0];
      assert Shape(s0) by { StartSearch(s0, key); }
      var m, prev := FindGreaterOrEqual(key);
      if height > maxHeight {
        prev := prev + seq(height - maxHeight, _ => HEAD);
        RaiseKeeps(s0, height);
        Raised(s0, key, height, prev);
        maxHeight := height;
        steps, lists := TraceStep(s0, steps, lists, s0, RaiseStep(height), State());
      }
      ghost var s1 := State();
      var x := |keys|;
      AllocateKeeps(s1, key, height);
      Allocated(s1, key, height, prev);
      keys := keys + [key];
      next := next + [seq(height, _ => NULL)];
      linked := linked + [0];
      assert State() == Allocate(s1, key, height);
      steps, lists := TraceStep(s0, steps, lists, s1, AllocateStep(key, height), State());
      var i := 0;
      while i < height
        invariant 0 <= i <= height && Inv(State()) && keys == old(keys) + [key] && maxHeight == s1.maxHeight
        invariant Inserting(State(), prev, x, i, height) && Trace(s0, steps, lists, State())
        invariant forall n, j :: Item(State(), n, j) <==> old(Item(State(), n, j)) || (n == x && 0 <= j < i)
      {
        ghost var s := State();
        ghost var q, mid := LinkLevel(prev, x, i, height);
        steps, lists := TraceStep(s0, steps, lists, s, PrepareStep(x, i, q), mid);
        steps, lists := TraceStep(s0, steps, lists, mid, PublishStep(prev[i], x, i), State());
        i := i + 1;
      }
    }
  }

  lemma StartSearch(s: List, key: Key)
    requires Inv(s)
    ensures Shape(s) && Before(s, key, HEAD, s.maxHeight - 1)
  {
  }

  lemma BeforeMember(s: List, key: Key, x: nat, i: nat)
    requires Before(s, key, x, i)
    ensures Member(s, x, i)
  {
  }

  lemma Down(s: List, key: Key, x: nat, i: nat)
    requires Before(s, key, x, i) && 0 < i
    ensures Before(s, key, x, i - 1)
  {
  }

  lemma Follow(s: List, x: nat, i: nat)
    requires Inv(s) && Member(s, x, i) && s.next[x][i] != NULL
    ensures Member(s, s.next[x][i], i) && |Ahead(s, s.next[x][i], i)| < |Ahead(s, x, i)|
  {
    assert Successor(s, x, i, s.next[x][i]);
    AheadShrinks(s, x, i, s.next[x][i]);
  }

  lemma NothingAfter(s: List, x: nat)
    requires Inv(s) && Member(s, x, 0) && s.next[x][0] == NULL
    ensures forall b :: Item(s, b, 0) ==> x != HEAD && s.keys[b] <= s.keys[x]
  {
    assert Successor(s, x, 0, NULL);
    forall b | Item(s, b, 0)
      ensures !After(s, x, b)
    {
    }
  }

  /** The state of an insertion with `i` levels published. */
  ghost predicate Inserting(s: List, prev: seq<nat>, x: nat, i: nat, height: nat) {
    && Shape(s) && HEAD < x < |s.keys| && s.linked[x] == i <= height <= s.maxHeight <= |prev| && |s.next[x]| == height
    && (forall j :: i <= j < height ==> LastBelow(s, s.keys[x], prev[j], j))
    && (forall b :: Item(s, b, 0) && s.keys[b] == s.keys[x] ==> b == x)
  }

  lemma Raised(s: List, key: Key, height: nat, prev: seq<nat>)
    requires Inv(s) && s.maxHeight < height <= MAX_HEIGHT && |prev| == height
    requires forall i :: 0 <= i < s.maxHeight ==> LastBelow(s, key, prev[i], i)
    requires forall i :: s.maxHeight <= i < height ==> prev[i] == HEAD
    ensures forall i :: 0 <= i < height ==> LastBelow(Raise(s, height), key, prev[i], i)
    ensures forall n, i :: Item(Raise(s, height), n, i) <==> Item(s, n, i)
  {
    hide Successor;
    assert Shape(s);
    hide Inv;
    forall i | 0 <= i < height
      ensures LastBelow(Raise(s, height), key, prev[i], i)
    {
      RaisedLevel(s, key, height, prev[i], i);
    }
  }

  lemma RaisedLevel(s: List, key: Key, height: nat, p: nat, i: nat)
    requires Shape(s) && i < height <= MAX_HEIGHT && (i < s.maxHeight ==> LastBelow(s, key, p, i))
    requires s.maxHeight <= i ==> p == HEAD
    ensures LastBelow(Raise(s, height), key, p, i)
  {
    var t := Raise(s, height);
    assert forall b :: Item(t, b, i) ==> Item(s, b, i) && i < s.maxHeight;
  }

  lemma Allocated(s: List, key: Key, height: nat, prev: seq<nat>)
    requires Inv(s) && height <= s.maxHeight <= |prev|
    requires forall i :: 0 <= i < s.maxHeight ==> LastBelow(s, key, prev[i], i)
    requires forall n :: Item(s, n, 0) ==> s.keys[n] != key
    ensures Inserting(Allocate(s, key, height), prev, |s.keys|, 0, height)
    ensures forall n, i :: Item(Allocate(s, key, height), n, i) <==> Item(s, n, i)
  {
    var t := Allocate(s, key, height);
    assert forall n, i :: Item(t, n, i) <==> Item(s, n, i);
    forall j | 0 <= j < height
      ensures LastBelow(t, key, prev[j], j)
    {
      assert LastBelow(s, key, prev[j], j);
    }
  }

  lemma NextPlace(s: List, prev: seq<nat>, x: nat, i: nat, height: nat)
    requires Inserting(s, prev, x, i, height) && i < height
    ensures i < |prev| && prev[i] < |s.keys| == |s.next| && i < |s.next[prev[i]]| && prev[i] != x
    ensures x < |s.keys| == |s.next| == |s.linked| && i < |s.next[x]| && s.linked[x] == i && HEAD < x
  {
    assert LastBelow(s, s.keys[x], prev[i], i);
  }

  lemma Prepared(s: List, prev: seq<nat>, x: nat, i: nat, height: nat, q: int)
    requires Inv(s) && Inserting(s, prev, x, i, height) && i < height && prev[i] < |s.next| && i < |s.next[prev[i]]|
      && q == s.next[prev[i]][i]
    ensures var t := Prepare(s, x, i, q);
      && Fits(t, prev[i], x, i) && Inserting(t, prev, x, i, height)
      && forall n, j :: Item(t, n, j) <==> Item(s, n, j)
  {
    var t := Prepare(s, x, i, q);
    assert forall n, j :: Item(t, n, j) <==> Item(s, n, j);
    NextPlace(s, prev, x, i, height);
    forall j | i <= j < height
      ensures LastBelow(t, t.keys[x], prev[j], j)
    {
      assert LastBelow(s, s.keys[x], prev[j], j);
    }
    Beyond(t, prev[i], x, i);
  }

  lemma Beyond(t: List, p: nat, x: nat, i: nat)
    requires HEAD < x < |t.keys| && Shape(t) && LastBelow(t, t.keys[x], p, i) && t.linked[x] == i
    requires forall b :: Item(t, b, 0) && t.keys[b] == t.keys[x] ==> b == x
    ensures forall b :: Item(t, b, i) && After(t, p, b) ==> t.keys[x] < t.keys[b]
  {
    forall b | Item(t, b, i) && After(t, p, b)
      ensures t.keys[x] < t.keys[b]
    {
      assert Item(t, b, 0);
    }
  }

  lemma Published(t: List, prev: seq<nat>, x: nat, i: nat, height: nat)
    requires Inserting(t, prev, x, i, height) && i < height && Fits(t, prev[i], x, i)
    ensures var r := Publish(t, prev[i], x, i);
      && Inserting(r, prev, x, i + 1, height)
      && forall n, j :: Item(r, n, j) <==> Item(t, n, j) || (n == x && j == i)
  {
    var r := Publish(t, prev[i], x, i);
    assert forall n, j :: Item(r, n, j) <==> Item(t, n, j) || (n == x && j == i);
    forall j | i + 1 <= j < height
      ensures LastBelow(r, r.keys[x], prev[j], j)
    {
      assert LastBelow(t, t.keys[x], prev[j], j);
    }
  }

  // ---------------------------------------------------------------------------------------------------------
  // A reader beside the writer
  // ---------------------------------------------------------------------------------------------------------

  datatype WriterStep =
    | RaiseStep(height: nat)
    | AllocateStep(key: Key, height: nat)
    | PrepareStep(x: nat, level: nat, q: int)
    | PublishStep(p: nat, x: nat, level: nat)

  /** One store of the writer. */
  ghost predicate Stores(s: List, step: WriterStep, t: List) {
    match step
    case RaiseStep(height) => s.maxHeight <= height <= MAX_HEIGHT && t == Raise(s, height)
    case AllocateStep(key, height) => height <= MAX_HEIGHT && t == Allocate(s, key, height)
    case PrepareStep(x, i, q) =>
      HEAD < x < |s.keys| == |s.next| == |s.linked| && s.linked[x] <= i < |s.next[x]| && t == Prepare(s, x, i, q)
    case PublishStep(p, x, i) => Fits(s, p, x, i) && t == Publish(s, p, x, i)
  }

  /** The writer's stores lead from `s` to `t`, one by one. */
  ghost predicate Trace(s: List, steps: seq<WriterStep>, lists: seq<List>, t: List) {
    && |lists| == |steps| + 1 && lists[0] == s && lists[|steps|] == t
    && forall k :: 0 <= k < |steps| ==> Stores(lists[k], steps[k], lists[k + 1])
  }

  lemma TraceStep(s: List, steps: seq<WriterStep>, lists: seq<List>, t: List, step: WriterStep, t': List)
    returns (steps': seq<WriterStep>, lists': seq<List>)
    requires Trace(s, steps, lists, t) && Stores(t, step, t')
    ensures Trace(s, steps', lists', t')
  {
    hide Stores;
    steps', lists' := steps + [step], lists + [t'];
  }

  /** What a reader looks for: the first node not below a key, the last node below it, or the last node. */
  datatype Goal = NotBelow(key: Key) | LastUnder(key: Key) | TheLast

  /** The search goes on past a node with this key. */
  predicate Passes(goal: Goal, k: Key) {
    goal.TheLast? || k < goal.key
  }

  /** A search that stands at node `x` of level `level`, or has its answer. */
  datatype Search = Searching(x: nat, level: nat) | Found(m: int)

  /** The reader loads the height of the list. */
  ghost predicate Starts(s: List, r: Search) {
    s.maxHeight > 0 && r == Searching(HEAD, s.maxHeight - 1)
  }

  /** The reader loads one link and moves. */
  ghost predicate Moves(s: List, goal: Goal, r: Search, r': Search) {
    && r.Searching? && r.x < |s.next| && r.level < |s.next[r.x]|
    && var n := s.next[r.x][r.level];
    if 0 <= n < |s.keys| && Passes(goal, s.keys[n]) then r' == Searching(n, r.level)
    else if r.level == 0 then r' == Found(if goal.NotBelow? then n else r.x)
    else r' == Searching(r.x, r.level - 1)
  }

  ghost predicate OnTrack(s: List, goal: Goal, r: Search) {
    r.Searching? ==> Member(s, r.x, r.level) && (r.x == HEAD || Passes(goal, s.keys[r.x]))
  }

  /** `m` is what the reader looks for. */
  ghost predicate Answers(s: List, goal: Goal, m: int) {
    match goal
    case NotBelow(key) => FirstNotBelow(s, key, m)
    case LastUnder(key) => m >= 0 && LastBelow(s, key, m, 0)
    case TheLast => Member(s, m, 0) && forall b :: Item(s, b, 0) ==> m != HEAD && s.keys[b] <= s.keys[m]
  }

  /** No store takes a node off a level or changes a key. */
  lemma StoreKeeps(s: List, step: WriterStep, t: List)
    requires Inv(s) && Stores(s, step, t)
    ensures Inv(t) && |s.keys| <= |t.keys|
    ensures forall n, i :: Member(s, n, i) ==> Member(t, n, i) && t.keys[n] == s.keys[n]
  {
    hide Inv;
    match step
    case RaiseStep(height) => RaiseKeeps(s, height);
    case AllocateStep(key, height) => AllocateKeeps(s, key, height);
    case PrepareStep(x, i, q) => PrepareKeeps(s, x, i, q);
    case PublishStep(p, x, i) => PublishKeeps(s, p, x, i);
  }

  lemma MoveOnTrack(s: List, goal: Goal, r: Search, r': Search)
    requires Inv(s) && OnTrack(s, goal, r) && Moves(s, goal, r, r')
    ensures OnTrack(s, goal, r') && (r'.Found? ==> Answers(s, goal, r'.m))
  {
    hide Inv, Successor, FirstNotBelow, After, Item;
    LinkInRange(s, r.x, r.level);
    if r'.Found? {
      match goal
      case NotBelow(key) => BottomAnswer(s, key, r.x);
      case LastUnder(key) => StopHere(s, key, r.x, 0);
      case TheLast => NothingAfter(s, r.x);
    } else if s.next[r.x][r.level] != NULL {
      Follow(s, r.x, r.level);
    }
  }

  datatype Event = Store(step: WriterStep) | Load

  /** Stores of the writer and loads of one reader in any order. */
  ghost predicate Interleaving(goal: Goal, events: seq<Event>, lists: seq<List>, searches: seq<Search>) {
    && |lists| == |searches| == |events| + 1
    && Inv(lists[0]) && Starts(lists[0], searches[0])
    && forall k :: 0 <= k < |events| ==> Happens(goal, events[k], lists[k], searches[k], lists[k + 1], searches[k + 1])
  }

  ghost predicate Happens(goal: Goal, event: Event, s: List, r: Search, s': List, r': Search) {
    match event
    case Store(step) => Stores(s, step, s') && r' == r
    case Load => s' == s && Moves(s, goal, r, r')
  }

  lemma {:induction false} AlwaysOnTrack(goal: Goal, events: seq<Event>, lists: seq<List>, searches: seq<Search>,
                                         n: nat)
    requires Interleaving(goal, events, lists, searches) && n <= |events|
    ensures Inv(lists[n]) && OnTrack(lists[n], goal, searches[n])
    ensures forall b :: Item(lists[0], b, 0) ==> Item(lists[n], b, 0) && lists[n].keys[b] == lists[0].keys[b]
  {
    hide Inv, Stores, Moves, Answers, Member;
    if n == 0 {
      StartSearch(lists[0], 0);
    } else {
      AlwaysOnTrack(goal, events, lists, searches, n - 1);
      assert Happens(goal, events[n - 1], lists[n - 1], searches[n - 1], lists[n], searches[n]);
      match events[n - 1]
      case Store(step) => StoreKeeps(lists[n - 1], step, lists[n]);
      case Load => MoveOnTrack(lists[n - 1], goal, searches[n - 1], searches[n]);
    }
  }

  /**
   * Whatever the writer stores meanwhile, a search ends with what it looks for in the list as it is at the reader's
   * last load, and so passes over no node that was in the list when the search began.
   */
  lemma SearchIsAtomic(goal: Goal, events: seq<Event>, lists: seq<List>, searches: seq<Search>, n: nat)
    requires Interleaving(goal, events, lists, searches) && n < |events| && events[n].Load? && searches[n + 1].Found?
    ensures Answers(lists[n], goal, searches[n + 1].m)
    ensures var m := searches[n + 1].m;
      forall b :: Item(lists[0], b, 0) ==>
        if goal.NotBelow? then goal.key <= lists[0].keys[b] ==> m != NULL && lists[n].keys[m] <= lists[0].keys[b]
        else Passes(goal, lists[0].keys[b]) ==> m != HEAD && lists[0].keys[b] <= lists[n].keys[m]
  {
    hide Inv, Stores, Moves, Member;
    AlwaysOnTrack(goal, events, lists, searches, n);
    assert Happens(goal, events[n], lists[n], searches[n], lists[n + 1], searches[n + 1]);
    MoveOnTrack(lists[n], goal, searches[n], searches[n + 1]);
  }
}
