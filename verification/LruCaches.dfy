/** One shard of the reference-counted LRU cache (util/cache.cc). */
module LruCaches {
  import opened Views
  import opened Coding
  import opened HandleTables

  /** An entry. Its references are those of clients, and one of the cache while it is in the cache. */
  datatype Node = Node(key: seq<Octet>, hash: nat, charge: nat, refs: nat, inCache: bool)

  /** The entries not freed yet, the two lists, oldest first, the total charge, and the calls of deleters so far. */
  datatype Core = Core(nodes: map<nat, Node>, lru: seq<nat>, inUse: seq<nat>, usage: int, freed: seq<nat>)

  // ---------------------------------------------------------------------------------------------------------
  // Lists
  // ---------------------------------------------------------------------------------------------------------

  function Without(s: seq<nat>, id: nat): seq<nat> {
    if s == [] then [] else if s[0] == id then s[1..] else [s[0]] + Without(s[1..], id)
  }

  ghost predicate NoDuplicates(s: seq<nat>) {
    forall i, j :: 0 <= i < j < |s| ==> s[i] != s[j]
  }

  function ChargeOf(nodes: map<nat, Node>, id: nat): nat {
    if id in nodes then nodes[id].charge else 0
  }

  function Total(nodes: map<nat, Node>, s: seq<nat>): nat {
    if s == [] then 0 else ChargeOf(nodes, s[0]) + Total(nodes, s[1..])
  }

  lemma {:induction false} WithoutFacts(nodes: map<nat, Node>, s: seq<nat>, id: nat)
    requires NoDuplicates(s)
    ensures NoDuplicates(Without(s, id)) && forall x :: x in Without(s, id) <==> x in s && x != id
    ensures Total(nodes, Without(s, id)) == Total(nodes, s) - (if id in s then ChargeOf(nodes, id) else 0)
  {
    if s != [] {
      assert NoDuplicates(s[1..]);
      WithoutFacts(nodes, s[1..], id);
      assert s[0] !in s[1..];
      assert forall x :: x in s <==> x == s[0] || x in s[1..];
    }
  }

  lemma {:induction false} AppendFacts(nodes: map<nat, Node>, s: seq<nat>, id: nat)
    requires NoDuplicates(s) && id !in s
    ensures NoDuplicates(s + [id]) && Total(nodes, s + [id]) == Total(nodes, s) + ChargeOf(nodes, id)
  {
    if s == [] {
      assert s + [id] == [id];
    } else {
      assert (s + [id])[1..] == s[1..] + [id];
      assert NoDuplicates(s[1..]);
      AppendFacts(nodes, s[1..], id);
    }
  }

  lemma {:induction false} SameTotal(nodes: map<nat, Node>, nodes': map<nat, Node>, s: seq<nat>)
    requires forall x :: x in s ==> ChargeOf(nodes', x) == ChargeOf(nodes, x)
    ensures Total(nodes', s) == Total(nodes, s)
  {
    if s != [] {
      SameTotal(nodes, nodes', s[1..]);
    }
  }

  // ---------------------------------------------------------------------------------------------------------
  // What the operations do
  // ---------------------------------------------------------------------------------------------------------

  function WithRefs(c: Core, e: nat, refs: nat): Core
    requires e in c.nodes
  {
    c.(nodes := c.nodes[e := c.nodes[e].(refs := refs)])
  }

  function RefCore(c: Core, e: nat): Core
    requires e in c.nodes
  {
    var n := c.nodes[e];
    var d := if n.refs == 1 && n.inCache then c.(lru := Without(c.lru, e), inUse := c.inUse + [e]) else c;
    WithRefs(d, e, n.refs + 1)
  }

  function UnrefCore(c: Core, e: nat): Core
    requires e in c.nodes && c.nodes[e].refs > 0
  {
    var n := c.nodes[e];
    if n.refs == 1 then
      c.(nodes := c.nodes - {e}, freed := c.freed + [e])
    else if n.inCache && n.refs == 2 then
      WithRefs(c.(inUse := Without(c.inUse, e), lru := c.lru + [e]), e, 1)
    else
      WithRefs(c, e, n.refs - 1)
  }

  /** The entry leaves the cache; its table entry is gone already. */
  function EraseCore(c: Core, e: nat): Core
    requires e in c.nodes && c.nodes[e].refs > 0
  {
    var n := c.nodes[e];
    UnrefCore(c.(nodes := c.nodes[e := n.(inCache := false)], lru := Without(c.lru, e), inUse := Without(c.inUse, e),
                 usage := c.usage - n.charge), e)
  }

  function AddCore(c: Core, e: nat, n: Node): Core {
    if n.inCache then c.(nodes := c.nodes[e := n], inUse := c.inUse + [e], usage := c.usage + n.charge)
    else c.(nodes := c.nodes[e := n])
  }

  // ---------------------------------------------------------------------------------------------------------
  // The invariant
  // ---------------------------------------------------------------------------------------------------------

  /** The count of an entry is the references clients hold, and the cache's own. */
  ghost predicate Counted(nodes: map<nat, Node>, held: multiset<nat>) {
    && (forall id :: id in nodes ==>
        nodes[id].refs == held[id] + (if nodes[id].inCache then 1 else 0) && nodes[id].refs > 0)
    && (forall id :: id in held ==> id in nodes)
  }

  /** Entries in the cache are on the LRU list without clients and on the other list with some; no other entry is on a
      list. */
  ghost predicate OnLists(nodes: map<nat, Node>, lru: seq<nat>, inUse: seq<nat>) {
    && NoDuplicates(lru) && NoDuplicates(inUse)
    && (forall id :: id in lru <==> id in nodes && nodes[id].inCache && nodes[id].refs == 1)
    && (forall id :: id in inUse <==> id in nodes && nodes[id].inCache && nodes[id].refs != 1)
  }

  /** The table has the entries in the cache, `out` excepted. */
  ghost predicate InTable(nodes: map<nat, Node>, handles: set<Handle>, out: set<nat>) {
    && (forall h :: h in handles ==>
        h.id in nodes && nodes[h.id].inCache && Same(h, nodes[h.id].key, nodes[h.id].hash) && h.id !in out)
    && (forall id :: id in nodes && nodes[id].inCache && id !in out ==>
        Handle(id, nodes[id].key, nodes[id].hash) in handles)
  }

  /** Deleters ran once each, on entries that are gone. */
  ghost predicate Freed(nodes: map<nat, Node>, freed: seq<nat>, nextId: nat) {
    && NoDuplicates(freed) && (forall id :: id in freed ==> id !in nodes && id < nextId)
    && (forall id :: id in nodes ==> id < nextId)
  }

  ghost predicate Inv(c: Core, held: multiset<nat>, handles: set<Handle>, out: set<nat>, nextId: nat) {
    && Counted(c.nodes, held) && OnLists(c.nodes, c.lru, c.inUse) && InTable(c.nodes, handles, out)
    && c.usage == Total(c.nodes, c.lru) + Total(c.nodes, c.inUse)
    && Freed(c.nodes, c.freed, nextId)
  }

  lemma RefKeeps(c: Core, held: multiset<nat>, handles: set<Handle>, out: set<nat>, nextId: nat, e: nat)
    requires Inv(c, held, handles, out, nextId) && e in c.nodes
    ensures Inv(RefCore(c, e), held + multiset{e}, handles, out, nextId)
  {
    hide Total, Without, NoDuplicates;
    var d := RefCore(c, e);
    WithoutFacts(c.nodes, c.lru, e);
    if c.nodes[e].refs == 1 && c.nodes[e].inCache {
      AppendFacts(c.nodes, c.inUse, e);
    }
    SameTotal(c.nodes, d.nodes, d.lru);
    SameTotal(c.nodes, d.nodes, d.inUse);
  }

  lemma UnrefKeeps(c: Core, held: multiset<nat>, handles: set<Handle>, out: set<nat>, nextId: nat, e: nat)
    requires Inv(c, held, handles, out, nextId) && e in held
    ensures c.nodes[e].refs > 0 && Inv(UnrefCore(c, e), held - multiset{e}, handles, out, nextId)
  {
    hide Total, OnLists, InTable, Freed;
    assert c.nodes[e].refs > 0 && (c.nodes[e].inCache ==> c.nodes[e].refs >= 2);
    hide Counted;
    assert Counted(UnrefCore(c, e).nodes, held - multiset{e}) by { UnrefCounted(c, held, e); }
    UnrefTable(c, handles, out, e);
    UnrefLists(c, e);
    UnrefFreed(c, nextId, e);
  }

  lemma UnrefCounted(c: Core, held: multiset<nat>, e: nat)
    requires Counted(c.nodes, held) && e in held
    ensures Counted(UnrefCore(c, e).nodes, held - multiset{e})
  {
  }

  lemma UnrefTable(c: Core, handles: set<Handle>, out: set<nat>, e: nat)
    requires InTable(c.nodes, handles, out) && e in c.nodes && c.nodes[e].refs > 0
      && (c.nodes[e].inCache ==> c.nodes[e].refs >= 2)
    ensures InTable(UnrefCore(c, e).nodes, handles, out)
  {
  }

  lemma UnrefFreed(c: Core, nextId: nat, e: nat)
    requires Freed(c.nodes, c.freed, nextId) && e in c.nodes && c.nodes[e].refs > 0
    ensures Freed(UnrefCore(c, e).nodes, UnrefCore(c, e).freed, nextId)
  {
    hide NoDuplicates;
    if c.nodes[e].refs == 1 {
      NewFreed(c.nodes, c.freed, nextId, e);
    }
  }

  lemma UnrefLists(c: Core, e: nat)
    requires OnLists(c.nodes, c.lru, c.inUse) && e in c.nodes && c.nodes[e].refs > 0
      && (c.nodes[e].inCache ==> c.nodes[e].refs >= 2)
    ensures var d := UnrefCore(c, e);
      && OnLists(d.nodes, d.lru, d.inUse)
      && Total(d.nodes, d.lru) + Total(d.nodes, d.inUse) == Total(c.nodes, c.lru) + Total(c.nodes, c.inUse)
  {
    hide Total, Without, NoDuplicates;
    var d := UnrefCore(c, e);
    WithoutFacts(c.nodes, c.inUse, e);
    if c.nodes[e].inCache && c.nodes[e].refs == 2 {
      AppendFacts(c.nodes, c.lru, e);
    }
    SameTotal(c.nodes, d.nodes, d.lru);
    SameTotal(c.nodes, d.nodes, d.inUse);
  }

  lemma NewFreed(nodes: map<nat, Node>, freed: seq<nat>, nextId: nat, e: nat)
    requires Freed(nodes, freed, nextId) && e in nodes
    ensures Freed(nodes - {e}, freed + [e], nextId)
  {
  }

  /** Taking an entry out of the cache, with its table entry gone. */
  lemma EraseKeeps(c: Core, held: multiset<nat>, handles: set<Handle>, nextId: nat, e: nat)
    requires Inv(c, held, handles, {e}, nextId) && e in c.nodes && c.nodes[e].inCache
    ensures c.nodes[e].refs > 0 && Inv(EraseCore(c, e), held, handles, {}, nextId)
  {
    hide Total, OnLists, InTable, Freed;
    assert c.nodes[e].refs > 0;
    hide Counted;
    assert Counted(EraseCore(c, e).nodes, held) by { EraseCounted(c, held, e); }
    assert InTable(EraseCore(c, e).nodes, handles, {}) by { EraseTable(c, handles, e); }
    EraseLists(c, e);
    assert Freed(EraseCore(c, e).nodes, EraseCore(c, e).freed, nextId) by { EraseFreed(c, nextId, e); }
  }

  lemma EraseCounted(c: Core, held: multiset<nat>, e: nat)
    requires Counted(c.nodes, held) && e in c.nodes && c.nodes[e].inCache && c.nodes[e].refs > 0
    ensures Counted(EraseCore(c, e).nodes, held)
  {
  }

  lemma EraseTable(c: Core, handles: set<Handle>, e: nat)
    requires InTable(c.nodes, handles, {e}) && e in c.nodes && c.nodes[e].inCache && c.nodes[e].refs > 0
    ensures InTable(EraseCore(c, e).nodes, handles, {})
  {
  }

  lemma EraseFreed(c: Core, nextId: nat, e: nat)
    requires Freed(c.nodes, c.freed, nextId) && e in c.nodes && c.nodes[e].refs > 0
    ensures Freed(EraseCore(c, e).nodes, EraseCore(c, e).freed, nextId)
  {
    hide NoDuplicates;
    if c.nodes[e].refs == 1 {
      NewFreed(c.nodes, c.freed, nextId, e);
    }
  }

  lemma EraseLists(c: Core, e: nat)
    requires OnLists(c.nodes, c.lru, c.inUse) && e in c.nodes && c.nodes[e].inCache && c.nodes[e].refs > 0
    requires c.usage == Total(c.nodes, c.lru) + Total(c.nodes, c.inUse)
    ensures var d := EraseCore(c, e);
      && OnLists(d.nodes, d.lru, d.inUse) && d.usage == Total(d.nodes, d.lru) + Total(d.nodes, d.inUse)
      && d.lru == Without(c.lru, e) && d.inUse == Without(c.inUse, e)
  {
    hide Total, Without, NoDuplicates;
    var d := EraseCore(c, e);
    WithoutFacts(c.nodes, c.lru, e);
    WithoutFacts(c.nodes, c.inUse, e);
    SameTotal(c.nodes, d.nodes, d.lru);
    SameTotal(c.nodes, d.nodes, d.inUse);
  }

  /** A new entry, held by the client that inserts it and, unless caching is off, by the cache. */
  lemma AddKeeps(c: Core, held: multiset<nat>, handles: set<Handle>, nextId: nat, n: Node)
    requires Inv(c, held, handles, {}, nextId) && n.refs == (if n.inCache then 2 else 1)
    ensures Inv(AddCore(c, nextId, n), held + multiset{nextId}, handles, if n.inCache then {nextId} else {}, nextId + 1)
  {
    hide Total, OnLists;
    AddLists(c, nextId, n);
    hide NoDuplicates;
  }

  lemma AddLists(c: Core, id: nat, n: Node)
    requires OnLists(c.nodes, c.lru, c.inUse) && id !in c.nodes && n.refs == (if n.inCache then 2 else 1)
    requires c.usage == Total(c.nodes, c.lru) + Total(c.nodes, c.inUse)
    ensures var d := AddCore(c, id, n);
      OnLists(d.nodes, d.lru, d.inUse) && d.usage == Total(d.nodes, d.lru) + Total(d.nodes, d.inUse)
  {
    hide Total, NoDuplicates;
    var d := AddCore(c, id, n);
    if n.inCache {
      AppendFacts(d.nodes, c.inUse, id);
    }
    SameTotal(c.nodes, d.nodes, c.lru);
    SameTotal(c.nodes, d.nodes, c.inUse);
  }

  /** The table takes the new entry and gives up the old one with its key. */
  lemma TableSwapped(nodes: map<nat, Node>, handles: set<Handle>, e: nat, h: Handle, old': Option<Handle>,
                     handles': set<Handle>)
    requires InTable(nodes, handles, {e}) && e in nodes && nodes[e].inCache
      && h == Handle(e, nodes[e].key, nodes[e].hash)
    requires old'.Some? ==> old'.value in handles && handles' == handles - {old'.value} + {h}
    requires old'.None? ==> handles' == handles + {h}
    ensures InTable(nodes, handles', if old'.Some? then {old'.value.id} else {})
  {
  }

  lemma TableDropped(nodes: map<nat, Node>, handles: set<Handle>, h: Handle)
    requires InTable(nodes, handles, {}) && h in handles
    ensures InTable(nodes, handles - {h}, {h.id})
  {
  }

  // ---------------------------------------------------------------------------------------------------------
  // The cache
  // ---------------------------------------------------------------------------------------------------------

  class LRUCache {
    const capacity: nat
    const table: HandleTable
    var nodes: map<nat, Node>
    var lru: seq<nat>
    var inUse: seq<nat>
    var usage: int
    var freed: seq<nat>
    var nextId: nat
    /** The references that clients hold. */
    ghost var held: multiset<nat>
    /** How many references were given back so far, and when the last one to each entry was. */
    ghost var clock: nat
    ghost var released: map<nat, nat>

    ghost function State(): Core
      reads this
    {
      Core(nodes, lru, inUse, usage, freed)
    }

    ghost predicate Valid()
      reads this, table
    {
      table.Valid() && Inv(State(), held, table.handles, {}, nextId) && OldestFirst(lru, released, clock)
    }

    constructor (capacity: nat)
      ensures Valid() && held == multiset{} && freed == [] && this.capacity == capacity && fresh(table)
      ensures lru == [] && released == map[]
    {
      this.capacity := capacity;
      table := new HandleTable();
      nodes, lru, inUse, usage, freed, nextId, held := map[], [], [], 0, [], 0, multiset{};
      clock, released := 0, map[];
    }

    method Ref(e: nat)
      requires e in nodes
      modifies this`nodes, this`lru, this`inUse
      ensures State() == RefCore(old(State()), e)
    {
      hide Without;
      if nodes[e].refs == 1 && nodes[e].inCache {
        lru := Without(lru, e);
        inUse := inUse + [e];
      }
      nodes := nodes[e := nodes[e].(refs := nodes[e].refs + 1)];
    }

    method Unref(e: nat)
      requires e in nodes && nodes[e].refs > 0
      modifies this`nodes, this`lru, this`inUse, this`freed
      ensures State() == UnrefCore(old(State()), e)
    {
      hide Without;
      nodes := nodes[e := nodes[e].(refs := nodes[e].refs - 1)];
      if nodes[e].refs == 0 {
        freed := freed + [e];
        nodes := nodes - {e};
        assert nodes == old(nodes) - {e};
      } else if nodes[e].inCache && nodes[e].refs == 1 {
        inUse := Without(inUse, e);
        lru := lru + [e];
      }
    }

    /** The rest of removing an entry that has left the table. */
    method FinishErase(h: Option<Handle>)
      requires h.Some? ==> h.value.id in nodes && nodes[h.value.id].inCache
      requires Inv(State(), held, table.handles, if h.Some? then {h.value.id} else {}, nextId)
      modifies this`nodes, this`lru, this`inUse, this`usage, this`freed
      ensures Inv(State(), held, table.handles, {}, nextId)
      ensures h.None? ==> State() == old(State())
      ensures h.Some? ==> lru == Without(old(lru), h.value.id) && inUse == Without(old(inUse), h.value.id)
      ensures h.Some? ==> usage == old(usage) - old(nodes)[h.value.id].charge
      ensures SameNodes(old(nodes), nodes, lru)
      ensures h.Some? ==> forall id :: id != h.value.id ==>
        (id in nodes <==> id in old(nodes)) && (id in nodes ==> nodes[id] == old(nodes[id]))
    {
      hide Inv, Without;
      if h.Some? {
        var e := h.value.id;
        EraseKeeps(State(), held, table.handles, nextId, e);
        lru, inUse := Without(lru, e), Without(inUse, e);
        usage := usage - nodes[e].charge;
        nodes := nodes[e := nodes[e].(inCache := false)];
        Unref(e);
      }
      LruNodes(State(), held, table.handles, nextId);
    }

    /** The entry of the key, with one more reference, or none if the key is not in the cache. */
    method Lookup(key: seq<Octet>, hash: nat) returns (e: Option<nat>)
      requires Valid()
      modifies this
      ensures Valid() && nextId == old(nextId) && table.handles == old(table.handles) && freed == old(freed)
        && usage == old(usage)
      ensures e.Some? ==> Handle(e.value, key, hash) in table.handles && held == old(held) + multiset{e.value}
      ensures e.None? ==> held == old(held) && forall h :: h in table.handles ==> !Same(h, key, hash)
      ensures released == old(released)
      ensures forall id :: id in lru <==> id in old(lru) && e != Some(id)
    {
      hide Inv, HandleTable.Valid, Without, OldestFirst;
      var h := table.Lookup(key, hash);
      e := None;
      if h.Some? {
        TableEntry(State(), held, table.handles, {}, nextId, h.value);
        RefKeeps(State(), held, table.handles, {}, nextId, h.value.id);
        LookedUp(State(), held, table.handles, nextId, h.value.id, released, clock);
        Ref(h.value.id);
        held := held + multiset{h.value.id};
        e := Some(h.value.id);
      }
    }

    /** A client gives a reference back. */
    method Release(e: nat)
      requires Valid() && e in held
      modifies this
      ensures Valid() && held == old(held) - multiset{e} && table.handles == old(table.handles) && nextId == old(nextId)
      ensures e in old(nodes)
      ensures freed == old(freed) + (if old(held)[e] == 1 && !old(nodes)[e].inCache then [e] else [])
      ensures released == old(released)[e := old(clock)] && clock == old(clock) + 1
      ensures lru == if old(held)[e] == 1 && old(nodes)[e].inCache then old(lru) + [e] else old(lru)
    {
      hide Inv, HandleTable.Valid, Without, OldestFirst;
      HeldEntry(State(), held, table.handles, {}, nextId, e);
      UnrefKeeps(State(), held, table.handles, {}, nextId, e);
      assert e !in lru by { StillHeld(State(), held, table.handles, nextId); }
      ReleasedNow(lru, released, clock, e);
      Unref(e);
      held := held - multiset{e};
      released, clock := released[e := clock], clock + 1;
    }

    method Erase(key: seq<Octet>, hash: nat)
      requires Valid()
      modifies this, table
      ensures Valid() && held == old(held) && nextId == old(nextId) && released == old(released)
      ensures forall h :: h in table.handles <==> h in old(table.handles) && !Same(h, key, hash)
    {
      hide Inv, Without, OldestFirst, HandleTable.Valid, SameNodes;
      ghost var handles := table.handles;
      assert OnePerKey(handles) by { TableOnePerKey(table); }
      var h := table.Remove(key, hash);
      if h.Some? {
        TableEntry(State(), held, handles, {}, nextId, h.value);
        Dropped(State(), held, handles, nextId, h.value);
        OrderWithout(lru, released, clock, h.value.id);
      }
      FinishErase(h);
    }

    /** The oldest entry without clients leaves the cache. */
    method EvictOldest()
      requires Valid() && lru != []
      modifies this, table
      ensures Valid() && held == old(held) && nextId == old(nextId) && lru == old(lru)[1..]
      ensures released == old(released) && clock == old(clock)
      ensures exists h :: h in old(table.handles) && h.id == old(lru)[0] && table.handles == old(table.handles) - {h}
      ensures old(lru)[0] in old(nodes) && usage == old(usage) - old(nodes)[old(lru)[0]].charge
      ensures SameNodes(old(nodes), nodes, lru)
    {
      hide Inv, OldestFirst;
      ghost var handles := table.handles;
      var e := lru[0];
      OrderWithout(lru, released, clock, e);
      OldestEntry(State(), held, handles, nextId);
      var h := table.Remove(nodes[e].key, nodes[e].hash);
      assert h == Some(Handle(e, nodes[e].key, nodes[e].hash)) by {
        assert Handle(e, nodes[e].key, nodes[e].hash) in handles;
      }
      Dropped(State(), held, handles, nextId, h.value);
      hide HandleTable.Valid;
      FinishErase(h);
    }

    method Prune()
      requires Valid()
      modifies this, table
      ensures Valid() && held == old(held) && lru == [] && released == old(released)
    {
      hide Inv, HandleTable.Valid, OldestFirst;
      while lru != []
        invariant Valid() && held == old(held) && released == old(released)
        decreases |lru|
      {
        EvictOldest();
      }
    }

    /** The new entry is in the cache under its key, unless caching is off; then entries without clients leave, until
        the total charge fits or none is left, those first whose last reference was given back first. */
    method Insert(key: seq<Octet>, hash: nat, charge: nat)
      returns (e: nat, ghost replaced: Option<nat>, ghost evicted: nat)
      requires Valid()
      modifies this, table
      ensures Valid() && e == old(nextId) && held == old(held) + multiset{e}
      ensures replaced.Some? ==> Handle(replaced.value, key, hash) in old(table.handles)
      ensures capacity > 0 && replaced.None? ==> forall h :: h in old(table.handles) ==> !Same(h, key, hash)
      ensures var rest := if replaced.Some? then Without(old(lru), replaced.value) else old(lru);
        evicted <= |rest| && lru == rest[evicted..] && (evicted > 0 ==>
          rest[evicted - 1] in old(nodes) && usage + old(nodes)[rest[evicted - 1]].charge > capacity)
      ensures forall h :: h in old(table.handles) && h.id in old(held) && !Same(h, key, hash) ==> h in table.handles
      ensures capacity > 0 ==> Handle(e, key, hash) in table.handles
      ensures capacity == 0 ==> forall h :: h in table.handles ==> h in old(table.handles)
      ensures forall h :: h in table.handles ==> h in old(table.handles) || h == Handle(e, key, hash)
      ensures usage <= capacity || lru == []
      ensures released == old(released)
      ensures forall x, y :: x in old(lru) && x !in lru && replaced != Some(x) && y in lru ==>
        x in released && y in released && released[x] < released[y]
    {
      hide Inv, HandleTable.Valid, Without, SameNodes, OldestFirst;
      e, replaced := AddEntry(key, hash, charge);
      ghost var rest := lru;
      evicted := MakeRoom(old(nodes));
      EvictedFirst(old(lru), rest, evicted, if replaced.Some? then {replaced.value} else {}, released, clock);
    }

    /** The new entry, in the table and on the list of those in use unless caching is off. */
    method AddEntry(key: seq<Octet>, hash: nat, charge: nat) returns (e: nat, ghost replaced: Option<nat>)
      requires Valid()
      modifies this, table
      ensures Valid() && e == old(nextId) && held == old(held) + multiset{e}
      ensures released == old(released) && clock == old(clock)
      ensures replaced.Some? ==> Handle(replaced.value, key, hash) in old(table.handles)
      ensures capacity > 0 && replaced.None? ==> forall h :: h in old(table.handles) ==> !Same(h, key, hash)
      ensures lru == if replaced.Some? then Without(old(lru), replaced.value) else old(lru)
      ensures forall id :: id in old(lru) && replaced != Some(id) ==> id in lru
      ensures forall h :: h in old(table.handles) && !Same(h, key, hash) ==> h in table.handles
      ensures capacity > 0 ==> Handle(e, key, hash) in table.handles
      ensures capacity == 0 ==> table.handles == old(table.handles)
      ensures forall h :: h in table.handles ==> h in old(table.handles) || h == Handle(e, key, hash)
      ensures SameNodes(old(nodes), nodes, lru)
    {
      hide Inv, HandleTable.Valid, Without, SameNodes, OldestFirst;
      e := nextId;
      NewNotOld(State(), held, table.handles, nextId);
      var n := Node(key, hash, charge, if capacity > 0 then 2 else 1, capacity > 0);
      AddKeeps(State(), held, table.handles, nextId, n);
      ghost var was := State();
      nodes := nodes[e := n];
      held := held + multiset{e};
      nextId := nextId + 1;
      if capacity > 0 {
        inUse := inUse + [e];
        usage := usage + charge;
        assert State() == AddCore(was, e, n);
        replaced := PutInTable(e, n);
        OldNodes(old(nodes), e, n, nodes, lru);
      } else {
        replaced := None;
        Unchanged(old(nodes), e, n, lru);
      }
    }

    /** Entries without clients leave, oldest first, until the charge fits; none leaves once it does. */
    method MakeRoom(ghost first: map<nat, Node>) returns (ghost evicted: nat)
      requires Valid() && SameNodes(first, nodes, lru)
      modifies this, table
      ensures released == old(released) && clock == old(clock)
      ensures Valid() && held == old(held) && evicted <= |old(lru)| && lru == old(lru)[evicted..]
      ensures evicted > 0 ==>
        old(lru)[evicted - 1] in first && usage + first[old(lru)[evicted - 1]].charge > capacity
      ensures usage <= capacity || lru == []
      ensures forall h :: h in table.handles ==> h in old(table.handles)
      ensures forall h :: h in old(table.handles) && h.id in held ==> h in table.handles
    {
      hide Inv, HandleTable.Valid, Without, SameNodes, OldestFirst;
      evicted := 0;
      while usage > capacity && lru != []
        invariant released == old(released) && clock == old(clock)
        invariant Valid() && held == old(held) && evicted <= |old(lru)| && lru == old(lru)[evicted..]
        invariant SameNodes(first, nodes, lru)
        invariant evicted > 0 ==>
          old(lru)[evicted - 1] in first && usage + first[old(lru)[evicted - 1]].charge > capacity
        invariant forall h :: h in table.handles ==> h in old(table.handles)
        invariant forall h :: h in old(table.handles) && h.id in held ==> h in table.handles
        decreases |lru|
      {
        StillHeld(State(), held, table.handles, nextId);
        assert lru[0] in lru;
        ghost var before, left := nodes, lru;
        EvictOldest();
        StillSame(first, before, nodes, left);
        evicted := evicted + 1;
      }
    }

    /** The table entry of a new node; the old entry with its key, if any, leaves the cache. */
    method PutInTable(e: nat, n: Node) returns (ghost replaced: Option<nat>)
      requires table.Valid() && e in nodes && nodes[e] == n && n.inCache
        && Inv(State(), held, table.handles, {e}, nextId) && OldestFirst(lru, released, clock)
      modifies this`nodes, this`lru, this`inUse, this`usage, this`freed, table
      ensures Valid() && Handle(e, n.key, n.hash) in table.handles
      ensures replaced.Some? ==>
        Handle(replaced.value, n.key, n.hash) in old(table.handles) && lru == Without(old(lru), replaced.value)
      ensures replaced.None? ==> lru == old(lru) && forall h :: h in old(table.handles) ==> !Same(h, n.key, n.hash)
      ensures SameNodes(old(nodes), nodes, lru) && forall id :: id in lru ==> id in old(lru)
      ensures forall id :: id in old(lru) && replaced != Some(id) ==> id in lru
      ensures forall h :: h in old(table.handles) && !Same(h, n.key, n.hash) ==> h in table.handles
      ensures forall h :: h in table.handles ==> h in old(table.handles) || h == Handle(e, n.key, n.hash)
    {
      hide Inv, Without, SameNodes, OldestFirst, HandleTable.Valid;
      ghost var handles := table.handles;
      var h := Handle(e, n.key, n.hash);
      var o := table.Insert(h);
      if o.Some? {
        TableEntry(State(), held, handles, {e}, nextId, o.value);
      }
      Swapped(State(), held, handles, nextId, e, h, o, table.handles);
      FinishErase(o);
      if o.Some? {
        WithoutSubset(old(lru), o.value.id);
        OrderWithout(old(lru), released, clock, o.value.id);
      }
      replaced := if o.Some? then Some(o.value.id) else None;
    }
  }

  lemma TableOnePerKey(table: HandleTable)
    requires table.Valid()
    ensures OnePerKey(table.handles)
  {
  }

  /** The list is in the order in which the last references to its entries were given back. */
  ghost predicate OldestFirst(lru: seq<nat>, released: map<nat, nat>, clock: nat) {
    && (forall i :: 0 <= i < |lru| ==> lru[i] in released && released[lru[i]] < clock)
    && forall i, j :: 0 <= i < j < |lru| ==> released[lru[i]] < released[lru[j]]
  }

  lemma ReleasedNow(lru: seq<nat>, released: map<nat, nat>, clock: nat, e: nat)
    requires OldestFirst(lru, released, clock) && e !in lru
    ensures OldestFirst(lru, released[e := clock], clock + 1) && OldestFirst(lru + [e], released[e := clock], clock + 1)
  {
    assert forall i :: 0 <= i < |lru| ==> lru[i] in lru;
  }

  lemma {:induction false} WithoutIndex(s: seq<nat>, e: nat, i: nat, j: nat) returns (p: nat, q: nat)
    requires i < j < |Without(s, e)|
    ensures p < q < |s| && s[p] == Without(s, e)[i] && s[q] == Without(s, e)[j]
  {
    if s[0] == e {
      p, q := i + 1, j + 1;
    } else if i == 0 {
      WithoutSubset(s[1..], e);
      assert Without(s, e)[j] in Without(s[1..], e);
      var k :| 0 <= k < |s[1..]| && s[1..][k] == Without(s, e)[j];
      p, q := 0, k + 1;
    } else {
      p, q := WithoutIndex(s[1..], e, i - 1, j - 1);
      p, q := p + 1, q + 1;
    }
  }

  lemma OrderWithout(lru: seq<nat>, released: map<nat, nat>, clock: nat, e: nat)
    requires OldestFirst(lru, released, clock)
    ensures OldestFirst(Without(lru, e), released, clock)
  {
    hide Without;
    var left := Without(lru, e);
    WithoutSubset(lru, e);
    forall i | 0 <= i < |left|
      ensures left[i] in released && released[left[i]] < clock
    {
      assert left[i] in left;
    }
    forall i, j | 0 <= i < j < |left|
      ensures released[left[i]] < released[left[j]]
    {
      var p, q := WithoutIndex(lru, e, i, j);
    }
  }

  /** What taking a reference does to the list: the entry leaves it, and the others keep their order. */
  lemma LookedUp(c: Core, held: multiset<nat>, handles: set<Handle>, nextId: nat, e: nat, released: map<nat, nat>,
                 clock: nat)
    requires Inv(c, held, handles, {}, nextId) && e in c.nodes && OldestFirst(c.lru, released, clock)
    requires c.nodes[e].inCache
    ensures OldestFirst(RefCore(c, e).lru, released, clock)
    ensures forall id :: id in RefCore(c, e).lru <==> id in c.lru && id != e
  {
    hide Total, Freed, InTable, Without, OldestFirst;
    OrderWithout(c.lru, released, clock, e);
    WithoutMembers(c.lru, e);
  }

  lemma {:induction false} WithoutMembers(s: seq<nat>, e: nat)
    requires NoDuplicates(s)
    ensures forall id :: id in Without(s, e) <==> id in s && id != e
  {
    if s != [] {
      assert s == [s[0]] + s[1..];
      WithoutMembers(s[1..], e);
      assert s[0] !in s[1..];
    }
  }

  /** Entries that left from the front were given back before those that stay. */
  lemma EvictedFirst(before: seq<nat>, rest: seq<nat>, evicted: nat, out: set<nat>, released: map<nat, nat>, clock: nat)
    requires OldestFirst(rest, released, clock) && evicted <= |rest|
    requires forall id :: id in before && id !in out ==> id in rest
    ensures forall x, y :: x in before && x !in rest[evicted..] && x !in out && y in rest[evicted..] ==>
      x in released && y in released && released[x] < released[y]
  {
    forall x, y | x in before && x !in rest[evicted..] && x !in out && y in rest[evicted..]
      ensures x in released && y in released && released[x] < released[y]
    {
      var i :| 0 <= i < |rest| && rest[i] == x;
      var j :| 0 <= j < |rest[evicted..]| && rest[evicted..][j] == y;
      assert rest[evicted + j] == y;
    }
  }

  /** The nodes on the list are what they were. */
  ghost predicate SameNodes(before: map<nat, Node>, after: map<nat, Node>, lru: seq<nat>) {
    forall id :: id in lru ==> id in before && id in after && after[id] == before[id]
  }

  lemma LruNodes(c: Core, held: multiset<nat>, handles: set<Handle>, nextId: nat)
    requires Inv(c, held, handles, {}, nextId)
    ensures forall id :: id in c.lru ==> id in c.nodes && c.nodes[id].inCache
  {
    hide Total, NoDuplicates, Freed, InTable;
  }

  lemma NewNotOld(c: Core, held: multiset<nat>, handles: set<Handle>, nextId: nat)
    requires Inv(c, held, handles, {}, nextId)
    ensures nextId !in c.nodes && forall id :: id in c.lru ==> id in c.nodes && id != nextId
  {
    hide Total, NoDuplicates, InTable;
  }

  lemma {:induction false} WithoutSubset(s: seq<nat>, e: nat)
    ensures forall id :: id in Without(s, e) ==> id in s
    ensures forall id :: id in s && id != e ==> id in Without(s, e)
  {
    if s != [] {
      WithoutSubset(s[1..], e);
    }
  }

  lemma Unchanged(before: map<nat, Node>, e: nat, n: Node, lru: seq<nat>)
    requires forall id :: id in lru ==> id in before && id != e
    ensures SameNodes(before, before[e := n], lru)
  {
  }

  lemma StillSame(first: map<nat, Node>, before: map<nat, Node>, after: map<nat, Node>, lru: seq<nat>)
    requires lru != [] && SameNodes(first, before, lru) && SameNodes(before, after, lru[1..])
    ensures SameNodes(first, after, lru[1..])
    ensures lru[0] in first && lru[0] in before && before[lru[0]] == first[lru[0]]
  {
    assert lru[0] in lru;
  }

  lemma OldNodes(before: map<nat, Node>, e: nat, n: Node, after: map<nat, Node>, lru: seq<nat>)
    requires SameNodes(before[e := n], after, lru) && e !in lru
    ensures SameNodes(before, after, lru)
  {
  }

  /** A handle of the table stands for an entry in the cache. */
  lemma TableEntry(c: Core, held: multiset<nat>, handles: set<Handle>, out: set<nat>, nextId: nat, h: Handle)
    requires Inv(c, held, handles, out, nextId) && h in handles
    ensures h.id in c.nodes && c.nodes[h.id].inCache && Same(h, c.nodes[h.id].key, c.nodes[h.id].hash) && h.id !in out
  {
    hide Total, NoDuplicates;
  }

  lemma HeldEntry(c: Core, held: multiset<nat>, handles: set<Handle>, out: set<nat>, nextId: nat, e: nat)
    requires Inv(c, held, handles, out, nextId) && e in held
    ensures e in c.nodes && c.nodes[e].refs > 0
    ensures c.nodes[e].refs == held[e] + (if c.nodes[e].inCache then 1 else 0)
  {
    hide Total, NoDuplicates, InTable, OnLists, Freed;
  }

  lemma Dropped(c: Core, held: multiset<nat>, handles: set<Handle>, nextId: nat, h: Handle)
    requires Inv(c, held, handles, {}, nextId) && h in handles
    ensures Inv(c, held, handles - {h}, {h.id}, nextId)
  {
    hide Total, NoDuplicates, InTable, OnLists, Freed, Counted;
    TableDropped(c.nodes, handles, h);
  }

  lemma Swapped(c: Core, held: multiset<nat>, handles: set<Handle>, nextId: nat, e: nat, h: Handle, o: Option<Handle>,
                handles': set<Handle>)
    requires Inv(c, held, handles, {e}, nextId) && e in c.nodes && c.nodes[e].inCache
      && h == Handle(e, c.nodes[e].key, c.nodes[e].hash)
    requires o.Some? ==> o.value in handles && handles' == handles - {o.value} + {h}
    requires o.None? ==> handles' == handles + {h}
    ensures Inv(c, held, handles', if o.Some? then {o.value.id} else {}, nextId)
  {
    hide Total, NoDuplicates, InTable, OnLists, Freed, Counted;
    TableSwapped(c.nodes, handles, e, h, o, handles');
  }

  lemma OldestEntry(c: Core, held: multiset<nat>, handles: set<Handle>, nextId: nat)
    requires Inv(c, held, handles, {}, nextId) && c.lru != []
    ensures var e := c.lru[0];
      && e in c.nodes && c.nodes[e].inCache && Handle(e, c.nodes[e].key, c.nodes[e].hash) in handles
      && Without(c.lru, e) == c.lru[1..]
  {
    hide Total, NoDuplicates, Freed;
    var e := c.lru[0];
    assert e in c.lru;
  }

  /** An entry that a client holds cannot be evicted. */
  lemma StillHeld(c: Core, held: multiset<nat>, handles: set<Handle>, nextId: nat)
    requires Inv(c, held, handles, {}, nextId)
    ensures forall e :: e in held ==> e !in c.lru
  {
    hide Total, NoDuplicates, Freed, InTable;
  }
}
