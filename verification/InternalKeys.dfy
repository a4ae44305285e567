/** Internal keys of the storage engine (db/dbformat.h, db/dbformat.cc).

    The engine looks at user keys only through the user comparator, and every run touches finitely many of
    them, so a user key is represented by its rank in the comparator's order. */
module InternalKeys {

  type UserKey = int

  /** Largest sequence number: eight bits of the 64-bit tag are kept for the value type. */
  const MAX_SEQUENCE: nat := 0xFF_FFFF_FFFF_FFFF

  type SequenceNumber = s: nat | s <= MAX_SEQUENCE

  /** Type that sorts first for a given user key and sequence number, used to build seek targets. */
  const TYPE_FOR_SEEK: nat := 1

  datatype Kind = Deletion | Put(value: string)

  datatype Entry = Entry(u: UserKey, seqno: SequenceNumber, kind: Kind)

  datatype InternalKey = InternalKey(u: UserKey, tag: nat)

  function Pack(seqno: nat, valueType: nat): nat {
    256 * seqno + valueType
  }

  function KeyOf(e: Entry): InternalKey {
    InternalKey(e.u, Pack(e.seqno, if e.kind.Put? then 1 else 0))
  }

  /** The key a reader seeks to in order to find the newest entry of `u` not above `seqno`. */
  function SeekKey(u: UserKey, seqno: nat): InternalKey {
    InternalKey(u, Pack(seqno, TYPE_FOR_SEEK))
  }

  /** Increasing user key, then decreasing tag. */
  predicate KeyLess(a: InternalKey, b: InternalKey) {
    a.u < b.u || (a.u == b.u && a.tag > b.tag)
  }

  /** The tag has the sequence number in its upper 56 bits and the type in its lower eight. */
  lemma KeyParts(e: Entry)
    ensures KeyOf(e).tag / 256 == e.seqno && KeyOf(e).tag % 256 == (if e.kind.Put? then 1 else 0)
    ensures KeyOf(e).tag < 0x1_0000_0000_0000_0000 && SeekKey(e.u, MAX_SEQUENCE).tag == 0xffff_ffff_ffff_ff01
  {
    DivMod(e.seqno, if e.kind.Put? then 1 else 0);
  }

  lemma DivMod(q: nat, r: nat)
    requires r < 256
    ensures (256 * q + r) / 256 == q && (256 * q + r) % 256 == r
  {
  }

  /** Of the entries of a user key, those at or behind the seek key are the ones not above its sequence number. */
  lemma SeekKeySplits(e: Entry, s: SequenceNumber)
    ensures !KeyLess(KeyOf(e), SeekKey(e.u, s)) <==> e.seqno <= s
  {
  }

  /** Increasing user key, then strictly decreasing sequence number: the order of two entries of a database,
      in which no sequence number is used twice. */
  predicate Precedes(a: Entry, b: Entry) {
    a.u < b.u || (a.u == b.u && a.seqno > b.seqno)
  }

  predicate Sorted(es: seq<Entry>) {
    forall i, j :: 0 <= i < j < |es| ==> Precedes(es[i], es[j])
  }
}

/** The logical content of a database: what a read at a sequence number sees. */
module Views {
  import opened InternalKeys

  datatype Option<+T> = None | Some(value: T)

  ghost function Of(es: seq<Entry>): iset<Entry> {
    iset e | e in es
  }

  ghost predicate Visible(e: Entry, u: UserKey, s: nat) {
    e.u == u && e.seqno <= s
  }

  ghost predicate IsNewest(c: iset<Entry>, u: UserKey, s: nat, e: Entry) {
    && e in c
    && Visible(e, u, s)
    && forall x :: x in c && Visible(x, u, s) ==> x.seqno <= e.seqno
  }

  /** No two entries of a user key carry the same sequence number. */
  ghost predicate UniqueSeqs(c: iset<Entry>) {
    forall a, b :: a in c && b in c && a.u == b.u && a.seqno == b.seqno ==> a == b
  }

  function Payload(e: Entry): Option<string> {
    match e.kind
    case Put(value) => Some(value)
    case Deletion => None
  }

  /** The value of `u` at sequence number `s`: that of the newest entry not above `s`, if it is not a deletion. */
  ghost function View(c: iset<Entry>, u: UserKey, s: nat): Option<string> {
    if exists e :: IsNewest(c, u, s, e) then
      var e :| IsNewest(c, u, s, e); Payload(e)
    else
      None
  }

  lemma ViewIsNewest(c: iset<Entry>, u: UserKey, s: nat, e: Entry)
    requires UniqueSeqs(c) && IsNewest(c, u, s, e)
    ensures View(c, u, s) == Payload(e)
  {
  }

  lemma {:induction false} NewestExists(c: iset<Entry>, u: UserKey, s: nat, e: Entry)
    requires e in c && Visible(e, u, s)
    ensures exists x :: IsNewest(c, u, s, x)
    decreases s - e.seqno
  {
    if x :| x in c && Visible(x, u, s) && x.seqno > e.seqno {
      NewestExists(c, u, s, x);
    } else {
      assert IsNewest(c, u, s, e);
    }
  }

  lemma NothingVisible(c: iset<Entry>, u: UserKey, s: nat)
    requires forall x :: x in c ==> !Visible(x, u, s)
    ensures View(c, u, s) == None
  {
  }

  /** Either nothing is visible, or some entry is the newest one and gives the view. */
  lemma ViewCases(c: iset<Entry>, u: UserKey, s: nat) returns (found: bool, e: Entry)
    requires UniqueSeqs(c)
    ensures !found ==> View(c, u, s) == None && forall x :: x in c ==> !Visible(x, u, s)
    ensures found ==> IsNewest(c, u, s, e) && View(c, u, s) == Payload(e)
  {
    e := Entry(u, 0, Deletion);
    if x :| x in c && Visible(x, u, s) {
      NewestExists(c, u, s, x);
      found := true;
      e :| IsNewest(c, u, s, e);
      ViewIsNewest(c, u, s, e);
    } else {
      found := false;
    }
  }

  /** Removing the newest entry, a deletion, brings the next older one to light. */
  lemma RemovedTombstone(all: iset<Entry>, kept: iset<Entry>, u: UserKey, s: nat, e: Entry, x: Entry)
    requires UniqueSeqs(all) && kept <= all && IsNewest(all, u, s, e) && e.kind.Deletion? && e !in kept
    requires x in kept && x.u == u && x.seqno < e.seqno
    requires forall y :: y in kept && y.u == u && y.seqno < e.seqno ==> y.seqno <= x.seqno
    ensures View(all, u, s) == None && View(kept, u, s) == Payload(x)
  {
    ViewIsNewest(all, u, s, e);
    assert IsNewest(kept, u, s, x);
    ViewIsNewest(kept, u, s, x);
  }
}
