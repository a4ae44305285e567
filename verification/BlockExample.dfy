/** A block, byte by byte (table/block_builder.cc). */
module BlockExample {
  import opened Coding
  import opened BlockFormat

  /** A block of two entries, byte by byte: each has the lengths of what it shares with the key before, of the rest of
      its key and of its value; then come the restart offsets and their number. */
  lemma TwoEntries()
    ensures BlockBytes([Pair([0x61], [0x78]), Pair([0x61, 0x62], [0x79])], 16)
         == [0, 1, 1, 0x61, 0x78, 1, 1, 1, 0x62, 0x79, 0, 0, 0, 0, 1, 0, 0, 0]
  {
    var es := [Pair([0x61], [0x78]), Pair([0x61, 0x62], [0x79])];
    assert Data(es, 16, 2) == [0, 1, 1, 0x61, 0x78, 1, 1, 1, 0x62, 0x79] by { TwoEntriesData(); }
    assert RestartOffsets(es, 16, 2) == [0] by { OneRestart(es); }
    hide Data, RestartOffsets, FixedAll, Fixed;
    RestartLiteral();
  }

  lemma OneRestart(es: seq<Pair>)
    requires |es| == 2
    ensures RestartOffsets(es, 16, 2) == [0]
  {
    assert Counter(16, 0) == 0 && Counter(16, 1) == 1;
    assert RestartEntries(16, 1) == [0] && RestartEntries(16, 2) == [0];
    assert Data(es, 16, 0) == [];
  }

  lemma TwoEntriesData()
    ensures Data([Pair([0x61], [0x78]), Pair([0x61, 0x62], [0x79])], 16, 2)
         == [0, 1, 1, 0x61, 0x78, 1, 1, 1, 0x62, 0x79]
  {
    var a, b := Pair([0x61], [0x78]), Pair([0x61, 0x62], [0x79]);
    var es := [a, b];
    assert Counter(16, 0) == 0 && Counter(16, 1) == 1;
    assert Shared(es, 16, 0) == 0;
    assert Shared(es, 16, 1) == 1 by { PrefixOne(); }
    assert EntryBytes(a, 0) == [0, 1, 1, 0x61, 0x78] && EntryBytes(b, 1) == [1, 1, 1, 0x62, 0x79] by {
      EntriesLiteral();
    }
    hide EntryBytes, Shared;
    assert Data(es, 16, 0) == [];
    assert Data(es, 16, 1) == Data(es, 16, 0) + EntryBytes(a, 0);
    assert Data(es, 16, 2) == Data(es, 16, 1) + EntryBytes(b, 1);
  }

  lemma PrefixOne()
    ensures CommonPrefix([0x61], [0x61, 0x62]) == 1
  {
  }

  lemma EntriesLiteral()
    ensures EntryBytes(Pair([0x61], [0x78]), 0) == [0, 1, 1, 0x61, 0x78]
    ensures EntryBytes(Pair([0x61, 0x62], [0x79]), 1) == [1, 1, 1, 0x62, 0x79]
  {
    assert Varint(0) == [0] && Varint(1) == [1];
    hide Varint;
  }

  lemma RestartLiteral()
    ensures FixedAll([0]) == [0, 0, 0, 0] && Fixed(1, 4) == [1, 0, 0, 0]
  {
    assert Fixed(0, 1) == [0];
    assert Fixed(0, 2) == [0, 0];
    assert Fixed(0, 3) == [0, 0, 0];
    assert Fixed(0, 4) == [0, 0, 0, 0];
    assert Fixed(1, 4) == [1] + Fixed(0, 3);
    var ns: seq<nat> := [0];
    assert ns[..0] == [];
    hide Fixed;
    assert FixedAll(ns) == FixedAll(ns[..0]) + Fixed(0, 4);
  }
}
