/** The writer queue: one writer logs and applies a group of batches for those behind it (db/db_impl.cc). */
module GroupCommit {
  import opened Views
  import opened Coding
  import opened WriteBatches

  /** A batch as its owner left it; `stamp` is whatever sequence number its header holds. */
  datatype Batch = Batch(stamp: nat, ops: seq<Op>)

  /** A write call; no batch means a request to switch memtables. */
  datatype Writer = Writer(id: nat, batch: Option<Batch>, sync: bool)

  ghost predicate GoodWriter(w: Writer) {
    w.batch.Some? ==> w.batch.value.stamp < LIMIT64 && GoodOps(w.batch.value.ops)
  }

  // ---------------------------------------------------------------------------------------------------------
  // Building a group
  // ---------------------------------------------------------------------------------------------------------

  function OpsOf(w: Writer): seq<Op> {
    if w.batch.Some? then w.batch.value.ops else []
  }

  function GroupOps(ws: seq<Writer>): seq<Op> {
    if ws == [] then [] else GroupOps(ws[..|ws| - 1]) + OpsOf(ws[|ws| - 1])
  }

  function ByteSize(w: Writer): nat {
    if w.batch.Some? then |Rep(w.batch.value.stamp, w.batch.value.ops)| else 0
  }

  function TotalSize(ws: seq<Writer>): nat {
    if ws == [] then 0 else TotalSize(ws[..|ws| - 1]) + ByteSize(ws[|ws| - 1])
  }

  function MaxSize(first: nat): nat {
    if first <= 0x2_0000 then first + 0x2_0000 else 0x10_0000
  }

  /** The writer at `k` may join the group of those before it. */
  predicate Joins(queue: seq<Writer>, k: nat)
    requires k < |queue|
  {
    && !(queue[k].sync && !queue[0].sync)
    && (queue[k].batch.Some? ==> TotalSize(queue[..k + 1]) <= MaxSize(ByteSize(queue[0])))
  }

  /** The group is the first `n` writers: each joins, and the next one does not. */
  ghost predicate IsGroup(queue: seq<Writer>, n: nat) {
    && 1 <= n <= |queue| && queue[0].batch.Some?
    && (forall k :: 1 <= k < n ==> Joins(queue, k))
    && (n < |queue| ==> !Joins(queue, n))
  }

  lemma {:induction false} BytesPerOp(ops: seq<Op>)
    ensures 2 * |ops| <= |OpsBytes(ops)|
  {
    hide Prefixed;
    if ops != [] {
      BytesPerOp(ops[1..]);
      PrefixedLength(ops[0].key);
    }
  }

  lemma PrefixedLength(s: seq<Octet>)
    ensures |Prefixed(s)| >= 1
  {
  }

  lemma {:induction false} GroupBounded(ws: seq<Writer>)
    requires forall w :: w in ws ==> GoodWriter(w)
    ensures 2 * |GroupOps(ws)| <= TotalSize(ws)
    ensures forall op :: op in GroupOps(ws) ==> GoodOp(op)
  {
    hide OpsBytes;
    if ws != [] {
      var n := |ws| - 1;
      GroupBounded(ws[..n]);
      assert GoodWriter(ws[n]);
      BytesPerOp(OpsOf(ws[n]));
    }
  }

  lemma GroupStep(queue: seq<Writer>, k: nat)
    requires k < |queue|
    ensures GroupOps(queue[..k + 1]) == GroupOps(queue[..k]) + OpsOf(queue[k])
    ensures TotalSize(queue[..k + 1]) == TotalSize(queue[..k]) + ByteSize(queue[k])
  {
    hide ByteSize;
    assert queue[..k + 1][..k] == queue[..k];
  }

  lemma FirstAlone(queue: seq<Writer>)
    requires queue != []
    ensures GroupOps(queue[..1]) == OpsOf(queue[0]) && TotalSize(queue[..1]) == ByteSize(queue[0])
  {
    hide ByteSize;
    GroupStep(queue, 0);
  }

  /** A small group has few operations. */
  lemma SmallGroupGood(ws: seq<Writer>)
    requires (forall w :: w in ws ==> GoodWriter(w)) && TotalSize(ws) <= 0x10_0000
    ensures GoodOps(GroupOps(ws))
  {
    hide TotalSize, GroupOps;
    GroupBounded(ws);
  }

  lemma MaxSizeBound(first: nat)
    ensures MaxSize(first) <= 0x10_0000
  {
  }

  /** Writers with batches of 128 KB or less let the group grow by another 128 KB, larger ones let it grow to 1 MB. */
  ghost predicate Within(queue: seq<Writer>, k: nat)
    requires k < |queue|
  {
    var first := ByteSize(queue[0]);
    TotalSize(queue[..k + 1]) <= if first <= 131072 then first + 131072 else 1048576
  }

  /** The writer at `j` asks for no sync that the first does not ask for, and its batch is not too much. */
  ghost predicate Fitting(queue: seq<Writer>, j: nat)
    requires j < |queue|
  {
    (queue[j].sync ==> queue[0].sync) && (queue[j].batch.Some? ==> Within(queue, j))
  }

  ghost predicate AllFitting(queue: seq<Writer>, k: nat)
    requires k <= |queue|
  {
    forall j :: 1 <= j < k ==> Fitting(queue, j)
  }

  /** Which writers are served together: all up to the first one that asks for a sync the first does not ask for, or
      whose batch is too much. */
  lemma GroupReaches(queue: seq<Writer>, n: nat, k: nat)
    requires IsGroup(queue, n) && 1 <= k <= |queue|
    ensures k <= n <==> AllFitting(queue, k)
  {
    hide TotalSize, ByteSize;
    forall j | 1 <= j < |queue|
      ensures Fitting(queue, j) <==> Joins(queue, j)
    {
    }
    hide Fitting, Joins;
  }

  lemma {:induction false} TotalGrows(queue: seq<Writer>, i: nat, j: nat)
    requires i <= j <= |queue|
    ensures TotalSize(queue[..i]) <= TotalSize(queue[..j])
    ensures (forall k :: i <= k < j ==> queue[k].batch.None?) ==> TotalSize(queue[..i]) == TotalSize(queue[..j])
    decreases j
  {
    if i < j {
      TotalGrows(queue, i, j - 1);
      GroupStep(queue, j - 1);
    }
  }

  /** Without a sync that the first does not ask for, a queue whose batches are not too much in all is served whole; in
      particular one of 128 KB. */
  lemma SmallQueueServedWhole(queue: seq<Writer>, n: nat)
    requires IsGroup(queue, n) && forall w :: w in queue ==> (w.sync ==> queue[0].sync)
    requires TotalSize(queue) <= 131072 || Within(queue, |queue| - 1)
    ensures n == |queue|
  {
    hide TotalSize, ByteSize;
    assert queue[..|queue|] == queue;
    TotalGrows(queue, 1, |queue|);
    FirstAlone(queue);
    var most := if ByteSize(queue[0]) <= 131072 then ByteSize(queue[0]) + 131072 else 1048576;
    assert TotalSize(queue) <= most;
    forall j | 1 <= j < |queue|
      ensures Fitting(queue, j)
    {
      assert queue[j] in queue;
      assert TotalSize(queue[..j + 1]) <= most by { TotalGrows(queue, j + 1, |queue|); }
    }
    hide Fitting;
    GroupReaches(queue, n, |queue|);
  }

  /** A group with more than one batch is never too much. */
  lemma {:induction false} GroupIsWithin(queue: seq<Writer>, n: nat, k: nat)
    requires IsGroup(queue, n) && k < n && exists j :: 1 <= j <= k && queue[j].batch.Some?
    ensures Within(queue, k)
  {
    hide TotalSize, ByteSize;
    assert k >= 1 && Joins(queue, k);
    if queue[k].batch.None? {
      var j :| 1 <= j <= k && queue[j].batch.Some?;
      assert 1 <= j <= k - 1;
      GroupIsWithin(queue, n, k - 1);
      TotalGrows(queue, k, k + 1);
    }
  }

  /** The batch of the group, as bytes: the operations of its writers in queue order. A second batch makes the group use
      the temporary batch instead of the first writer's own. */
  method BuildBatchGroup(queue: seq<Writer>) returns (result: seq<Octet>, n: nat, ghost stamp: nat)
    requires queue != [] && queue[0].batch.Some? && forall w :: w in queue ==> GoodWriter(w)
    ensures IsGroup(queue, n) && stamp < LIMIT64 && GoodOps(GroupOps(queue[..n]))
      && result == Rep(stamp, GroupOps(queue[..n]))
    ensures forall k :: 1 <= k <= |queue| ==> (k <= n <==> AllFitting(queue, k))
  {
    hide Rep, GoodOps, MaxSize, GroupOps, TotalSize, OpsOf;
    var first := queue[0].batch.value;
    var own := Rep(first.stamp, first.ops);
    var size := |own|;
    var max := MaxSize(size);
    var tmp := new WriteBatch();
    var shared := false;
    MaxSizeBound(size);
    FirstAlone(queue);
    assert GoodWriter(queue[0]);
    assert OpsOf(queue[0]) == first.ops by { SomeOps(queue[0]); }
    n := 1;
    while n < |queue|
      invariant 1 <= n <= |queue| && size == TotalSize(queue[..n])
      invariant forall k :: 1 <= k < n ==> Joins(queue, k)
      invariant fresh(tmp) && tmp.Valid() && GoodOps(GroupOps(queue[..n]))
      invariant if shared then tmp.Holds(0, GroupOps(queue[..n]))
        else tmp.Holds(0, []) && GroupOps(queue[..n]) == first.ops
    {
      GroupStep(queue, n);
      SomeOps(queue[n]);
      var w := queue[n];
      if w.sync && !queue[0].sync {
        break;
      }
      if w.batch.Some? {
        var rep := Rep(w.batch.value.stamp, w.batch.value.ops);
        size := size + |rep|;
        if size > max {
          break;
        }
        assert GoodOps(GroupOps(queue[..n + 1])) by { SmallGroupGood(queue[..n + 1]); }
        assert GoodWriter(w);
        if !shared {
          assert [] + first.ops == first.ops;
          tmp.Append(own);
          shared := true;
        }
        tmp.Append(rep);
      } else {
        assert GroupOps(queue[..n]) + [] == GroupOps(queue[..n]);
      }
      n := n + 1;
    }
    result, stamp := if shared then tmp.rep else own, if shared then 0 else first.stamp;
    forall k | 1 <= k <= |queue| ensures k <= n <==> AllFitting(queue, k) { GroupReaches(queue, n, k); }
  }

  lemma SomeOps(w: Writer)
    ensures OpsOf(w) == if w.batch.Some? then w.batch.value.ops else []
  {
  }

  // ---------------------------------------------------------------------------------------------------------
  // The queue as a state machine
  // ---------------------------------------------------------------------------------------------------------

  datatype Record = Record(first: nat, ops: seq<Op>)

  datatype Stage = Built | Logged | Synced | Applied | Failed

  /** Whether a writer leads: the first `n` writers form its group, whose sequence numbers start at `first`. */
  datatype Phase = Waiting | Leading(n: nat, first: nat, stage: Stage)

  /** A writer that has left the queue: whether it succeeded, and if a group was built for it, where its sequence
      numbers start and which log record is the group's. */
  datatype Done = Done(w: Writer, ok: bool, ranged: bool, first: nat, record: nat)

  datatype Queue = Queue(base: nat, arrived: seq<Writer>, queue: seq<Writer>, phase: Phase, lastSeq: nat,
                         log: seq<Record>, synced: nat, mem: seq<Stamped>, done: seq<Done>, broken: bool)

  datatype Step =
    | Arrive(w: Writer)
    | Refuse
    | SwitchOnly
    | Build(n: nat)
    | AddRecord
    | AddRecordFails
    | Sync
    | SyncFails
    | Insert
    | Publish

  /** What the writers of a group get when it is published. */
  function Results(ws: seq<Writer>, ok: bool, first: nat, record: nat): seq<Done> {
    if ws == [] then [] else
      var n := |ws| - 1;
      Results(ws[..n], ok, first, record) + [Done(ws[n], ok, true, first + |GroupOps(ws[..n])|, record)]
  }

  ghost predicate LeaderStep(s: Queue, step: Step, s': Queue) {
    && s.phase.Leading? && s.phase.n <= |s.queue| && s.queue != []
    && var n, first, stage := s.phase.n, s.phase.first, s.phase.stage;
    && var ops := GroupOps(s.queue[..n]);
    match step
    case AddRecord => stage.Built? && s' == s.(log := s.log + [Record(first, ops)], phase := Leading(n, first, Logged))
    case AddRecordFails => stage.Built? && s' == s.(phase := Leading(n, first, Failed))
    case Sync => stage.Logged? && s.queue[0].sync && s' == s.(synced := |s.log|, phase := Leading(n, first, Synced))
    case SyncFails => stage.Logged? && s.queue[0].sync && s' == s.(broken := true, phase := Leading(n, first, Failed))
    case Insert =>
      && (stage.Synced? || (stage.Logged? && !s.queue[0].sync))
      && s' == s.(mem := s.mem + Stamp(first, ops), phase := Leading(n, first, Applied))
    case Publish =>
      && (stage.Applied? || stage.Failed?)
      && var record := if |s.log| == 0 then 0 else |s.log| - 1;
      && s' == s.(lastSeq := s.lastSeq + |ops|, queue := s.queue[n..], phase := Waiting,
                  done := s.done + Results(s.queue[..n], stage.Applied?, first, record))
    case _ => false
  }

  /** The head of the queue, before it leads a group. */
  ghost predicate HeadStep(s: Queue, step: Step, s': Queue) {
    && s.phase.Waiting? && s.queue != []
    && match step
       case Refuse => s' == s.(queue := s.queue[1..], done := s.done + [Done(s.queue[0], false, false, 0, 0)])
       case SwitchOnly =>
         && s.queue[0].batch.None? && !s.broken
         && s' == s.(queue := s.queue[1..], done := s.done + [Done(s.queue[0], true, false, 0, 0)])
       case Build(n) => IsGroup(s.queue, n) && !s.broken && s' == s.(phase := Leading(n, s.lastSeq + 1, Built))
       case _ => false
  }

  ghost predicate Next(s: Queue, step: Step, s': Queue) {
    match step
    case Arrive(w) =>
      (forall x :: x in s.arrived ==> x.id != w.id) && s' == s.(arrived := s.arrived + [w], queue := s.queue + [w])
    case Refuse => HeadStep(s, step, s')
    case SwitchOnly => HeadStep(s, step, s')
    case Build(_) => HeadStep(s, step, s')
    case _ => LeaderStep(s, step, s')
  }

  // ---------------------------------------------------------------------------------------------------------
  // The invariant
  // ---------------------------------------------------------------------------------------------------------

  function WritersOf(done: seq<Done>): (r: seq<Writer>)
    ensures |r| == |done|
  {
    seq(|done|, i requires 0 <= i < |done| => done[i].w)
  }

  /** The last sequence number after these writers. */
  function SeqAfter(base: nat, done: seq<Done>): nat {
    if done == [] then base else
      var d := done[|done| - 1];
      SeqAfter(base, done[..|done| - 1]) + (if d.ranged then |OpsOf(d.w)| else 0)
  }

  function EntriesOf(d: Done): seq<Stamped> {
    if d.ok && d.ranged then Stamp(d.first, OpsOf(d.w)) else []
  }

  /** What the memtable got from these writers, one after the other. */
  function MemOf(done: seq<Done>): seq<Stamped> {
    if done == [] then [] else MemOf(done[..|done| - 1]) + EntriesOf(done[|done| - 1])
  }

  /** Each range starts right after those before it. */
  ghost predicate Consecutive(base: nat, done: seq<Done>) {
    forall i :: 0 <= i < |done| && done[i].ranged ==> done[i].first == SeqAfter(base, done[..i]) + 1
  }

  /** A writer that succeeded with a batch has it in the record of its group, synced if it asked for that. */
  ghost predicate InRecord(d: Done, log: seq<Record>, synced: nat) {
    && (d.ok && d.w.batch.Some? ==> d.ranged)
    && (d.ok && d.ranged ==>
      && d.record < |log|
      && var r := log[d.record];
      && r.first <= d.first && d.first - r.first + |OpsOf(d.w)| <= |r.ops|
      && r.ops[d.first - r.first..d.first - r.first + |OpsOf(d.w)|] == OpsOf(d.w)
      && (d.w.sync ==> d.record < synced))
  }

  ghost predicate LeaderInv(s: Queue) {
    s.phase.Leading? ==>
      && var n, first, stage := s.phase.n, s.phase.first, s.phase.stage;
      && 1 <= n <= |s.queue| && s.queue[0].batch.Some? && first == s.lastSeq + 1
      && (forall k :: 0 <= k < n && s.queue[k].sync ==> s.queue[0].sync)
      && (stage.Logged? || stage.Synced? || stage.Applied? ==>
          s.log != [] && s.log[|s.log| - 1] == Record(first, GroupOps(s.queue[..n])))
      && (stage.Synced? || (stage.Applied? && s.queue[0].sync) ==> s.synced == |s.log|)
  }

  ghost predicate Inv(s: Queue) {
    && WritersOf(s.done) + s.queue == s.arrived
    && (forall i, j :: 0 <= i < j < |s.arrived| ==> s.arrived[i].id != s.arrived[j].id)
    && s.lastSeq == SeqAfter(s.base, s.done) && Consecutive(s.base, s.done)
    && s.mem == MemOf(s.done) + (if s.phase.Leading? && s.phase.stage.Applied? && s.phase.n <= |s.queue|
                                 then Stamp(s.phase.first, GroupOps(s.queue[..s.phase.n])) else [])
    && s.synced <= |s.log|
    && (forall i :: 0 <= i < |s.done| ==> InRecord(s.done[i], s.log, s.synced))
    && LeaderInv(s)
  }

  lemma SeqAfterOne(base: nat, done: seq<Done>, d: Done)
    ensures SeqAfter(base, done + [d]) == SeqAfter(base, done) + (if d.ranged then |OpsOf(d.w)| else 0)
    ensures MemOf(done + [d]) == MemOf(done) + EntriesOf(d)
    ensures WritersOf(done + [d]) == WritersOf(done) + [d.w]
    ensures Consecutive(base, done) && (d.ranged ==> d.first == SeqAfter(base, done) + 1) ==>
      Consecutive(base, done + [d])
  {
    hide OpsOf, EntriesOf;
    assert (done + [d])[..|done|] == done;
    if Consecutive(base, done) && (d.ranged ==> d.first == SeqAfter(base, done) + 1) {
      forall i | 0 <= i < |done + [d]| && (done + [d])[i].ranged
        ensures (done + [d])[i].first == SeqAfter(base, (done + [d])[..i]) + 1
      {
        assert i < |done| ==> (done + [d])[..i] == done[..i];
      }
    }
  }

  lemma StampConcat(first: nat, a: seq<Op>, b: seq<Op>)
    ensures Stamp(first, a + b) == Stamp(first, a) + Stamp(first + |a|, b)
  {
  }

  /** Publishing a group gives each writer its part of the group's range, in queue order. */
  lemma {:induction false} ResultsFacts(base: nat, done: seq<Done>, ws: seq<Writer>, ok: bool, first: nat, record: nat)
    requires first == SeqAfter(base, done) + 1 && Consecutive(base, done)
    ensures var all := done + Results(ws, ok, first, record);
      && SeqAfter(base, all) == SeqAfter(base, done) + |GroupOps(ws)|
      && MemOf(all) == MemOf(done) + (if ok then Stamp(first, GroupOps(ws)) else [])
      && WritersOf(all) == WritersOf(done) + ws && Consecutive(base, all)
  {
    hide SeqAfter, MemOf, WritersOf, Consecutive, OpsOf, Stamp;
    var all := done + Results(ws, ok, first, record);
    if ws == [] {
      assert all == done;
      assert WritersOf(done) + ws == WritersOf(done);
      assert GroupOps(ws) == [] && Stamp(first, []) == [];
      assert MemOf(done) + [] == MemOf(done);
    } else {
      var n := |ws| - 1;
      ResultsFacts(base, done, ws[..n], ok, first, record);
      var before := GroupOps(ws[..n]);
      var d := Done(ws[n], ok, true, first + |before|, record);
      var prior := done + Results(ws[..n], ok, first, record);
      assert all == prior + [d];
      SeqAfterOne(base, prior, d);
      StampConcat(first, before, OpsOf(ws[n]));
      assert WritersOf(done) + ws[..n] + [ws[n]] == WritersOf(done) + ws;
      assert MemOf(all) == MemOf(done) + (if ok then Stamp(first, GroupOps(ws)) else []);
    }
  }

  /** The operations of a writer of the group are a part of the group's record. */
  lemma {:induction false} ResultsInRecord(ws: seq<Writer>, total: seq<Op>, ok: bool, first: nat, record: nat,
                                           log: seq<Record>, synced: nat)
    requires GroupOps(ws) <= total
    requires ok ==> record < |log| && log[record] == Record(first, total)
    requires ok && (exists w :: w in ws && w.sync) ==> record < synced
    ensures forall d :: d in Results(ws, ok, first, record) ==> InRecord(d, log, synced)
  {
    hide OpsOf;
    if ws != [] {
      var n := |ws| - 1;
      assert forall w :: w in ws[..n] ==> w in ws;
      ResultsInRecord(ws[..n], total, ok, first, record, log, synced);
      assert ws[n] in ws;
      var before := GroupOps(ws[..n]);
      assert total[|before|..|before| + |OpsOf(ws[n])|] == OpsOf(ws[n]) by {
        assert GroupOps(ws) == before + OpsOf(ws[n]);
        assert total[..|GroupOps(ws)|] == before + OpsOf(ws[n]);
      }
    }
  }

  lemma LongerLog(done: seq<Done>, log: seq<Record>, r: Record, synced: nat, synced': nat)
    requires synced <= synced' && forall i :: 0 <= i < |done| ==> InRecord(done[i], log, synced)
    ensures forall i :: 0 <= i < |done| ==> InRecord(done[i], log + [r], synced') && InRecord(done[i], log, synced')
  {
    hide OpsOf;
    forall i | 0 <= i < |done|
      ensures InRecord(done[i], log + [r], synced') && InRecord(done[i], log, synced')
    {
      assert InRecord(done[i], log, synced);
    }
  }

  lemma ArriveKeeps(s: Queue, w: Writer, s': Queue)
    requires Inv(s) && Next(s, Arrive(w), s')
    ensures Inv(s')
  {
    hide SeqAfter, MemOf, WritersOf, Consecutive, InRecord, GroupOps, Stamp;
    assert WritersOf(s.done) + (s.queue + [w]) == s.arrived + [w];
    if s.phase.Leading? {
      assert s'.queue[..s.phase.n] == s.queue[..s.phase.n];
    }
  }

  lemma HeadKeeps(s: Queue, step: Step, s': Queue)
    requires Inv(s) && HeadStep(s, step, s')
    ensures Inv(s')
  {
    hide SeqAfter, MemOf, WritersOf, Consecutive, GroupOps, Stamp, Joins;
    if step.Build? {
      assert forall k :: 1 <= k < step.n ==> Joins(s.queue, k);
      forall k | 0 <= k < step.n && s.queue[k].sync
        ensures s.queue[0].sync
      {
        if k > 0 {
          JoinsSync(s.queue, k);
        }
      }
    } else {
      var d := s'.done[|s.done|];
      SeqAfterOne(s.base, s.done, d);
      assert WritersOf(s.done) + [s.queue[0]] + s.queue[1..] == WritersOf(s.done) + s.queue;
      assert MemOf(s.done) + [] == MemOf(s.done);
      assert MemOf(s'.done) + [] == MemOf(s.done) + [];
    }
  }

  lemma JoinsSync(queue: seq<Writer>, k: nat)
    requires k < |queue| && Joins(queue, k)
    ensures queue[k].sync ==> queue[0].sync
  {
    hide TotalSize, MaxSize, ByteSize;
  }

  lemma PublishKeeps(s: Queue, s': Queue)
    requires Inv(s) && LeaderStep(s, Publish, s')
    ensures Inv(s')
  {
    hide SeqAfter, MemOf, WritersOf, Consecutive, GroupOps, Stamp, InRecord, Results;
    var n, first, ok := s.phase.n, s.phase.first, s.phase.stage.Applied?;
    var record := if |s.log| == 0 then 0 else |s.log| - 1;
    var ws := s.queue[..n];
    ResultsFacts(s.base, s.done, ws, ok, first, record);
    ResultsInRecord(ws, GroupOps(ws), ok, first, record, s.log, s.synced);
    assert WritersOf(s.done) + ws + s.queue[n..] == WritersOf(s.done) + s.queue;
    forall i | 0 <= i < |s'.done|
      ensures InRecord(s'.done[i], s'.log, s'.synced)
    {
      assert i < |s.done| ==> s'.done[i] == s.done[i];
      assert i >= |s.done| ==> s'.done[i] in Results(ws, ok, first, record);
    }
    assert s'.mem == MemOf(s'.done) + [];
  }

  lemma LeaderKeeps(s: Queue, step: Step, s': Queue)
    requires Inv(s) && LeaderStep(s, step, s')
    ensures Inv(s')
  {
    hide SeqAfter, MemOf, WritersOf, Consecutive, GroupOps, Stamp, InRecord, Results;
    assert MemOf(s.done) + [] == MemOf(s.done);
    match step
    case Publish => PublishKeeps(s, s');
    case AddRecord => LongerLog(s.done, s.log, s'.log[|s.log|], s.synced, s.synced);
    case Sync => LongerLog(s.done, s.log, Record(0, []), s.synced, |s.log|);
    case _ =>
  }

  ghost predicate Init(s: Queue) {
    s == Queue(s.base, [], [], Waiting, s.base, [], 0, [], [], false)
  }

  ghost predicate Run(states: seq<Queue>, steps: seq<Step>) {
    && |states| == |steps| + 1 && Init(states[0])
    && forall k :: 0 <= k < |steps| ==> Next(states[k], steps[k], states[k + 1])
  }

  lemma {:induction false} RunInv(states: seq<Queue>, steps: seq<Step>, k: nat)
    requires Run(states, steps) && k < |states|
    ensures Inv(states[k])
  {
    hide Inv, HeadStep, LeaderStep;
    if k == 0 {
      InitInv(states[0]);
    } else {
      RunInv(states, steps, k - 1);
      var s, step, s' := states[k - 1], steps[k - 1], states[k];
      assert Next(s, step, s');
      match step
      case Arrive(w) => ArriveKeeps(s, w, s');
      case Refuse => HeadKeeps(s, step, s');
      case SwitchOnly => HeadKeeps(s, step, s');
      case Build(_) => HeadKeeps(s, step, s');
      case _ => LeaderKeeps(s, step, s');
    }
  }

  lemma InitInv(s: Queue)
    requires Init(s)
    ensures Inv(s)
  {
  }

  // ---------------------------------------------------------------------------------------------------------
  // Theorems
  // ---------------------------------------------------------------------------------------------------------

  lemma {:induction false} SeqMonotone(base: nat, done: seq<Done>, i: nat, j: nat)
    requires i <= j <= |done|
    ensures SeqAfter(base, done[..i]) <= SeqAfter(base, done[..j])
    ensures i < j && done[i].ranged ==> SeqAfter(base, done[..i]) + |OpsOf(done[i].w)| <= SeqAfter(base, done[..j])
    decreases j
  {
    hide OpsOf;
    if i < j {
      assert done[..j][..j - 1] == done[..j - 1];
      SeqMonotone(base, done, i, j - 1);
    }
  }

  lemma {:induction false} MemPart(done: seq<Done>, i: nat, j: nat)
    requires i < j <= |done|
    ensures MemOf(done[..i]) + EntriesOf(done[i]) <= MemOf(done[..j])
    decreases j
  {
    hide EntriesOf;
    assert done[..j][..j - 1] == done[..j - 1];
    if i < j - 1 {
      MemPart(done, i, j - 1);
    }
  }

  /**
   * Every writer that arrived is served once, in the order of arrival; those whose group was built get disjoint ranges
   * of sequence numbers, each right after the one before; and what the memtable holds is exactly the batches of the
   * successful ones in that order, with those of the group being inserted last.
   */
  lemma ServedInOrder(states: seq<Queue>, steps: seq<Step>, k: nat, i: nat, j: nat)
    requires Run(states, steps) && k < |states| && i < j <= |states[k].done|
    ensures WritersOf(states[k].done) + states[k].queue == states[k].arrived
    ensures MemOf(states[k].done) <= states[k].mem
    ensures states[k].phase.Waiting? ==> states[k].mem == MemOf(states[k].done)
    ensures var d := states[k].done[i];
      && (d.ok && d.w.batch.Some? ==>
          var p := |MemOf(states[k].done[..i])|;
          && d.ranged && p + |OpsOf(d.w)| <= |states[k].mem|
          && states[k].mem[p..p + |OpsOf(d.w)|] == Stamp(d.first, OpsOf(d.w)))
      && (d.ranged && j < |states[k].done| && states[k].done[j].ranged ==>
          d.first + |OpsOf(d.w)| <= states[k].done[j].first)
  {
    hide OpsOf, Stamp, SeqAfter, MemOf, WritersOf, GroupOps, LeaderInv;
    RunInv(states, steps, k);
    var s := states[k];
    var d := s.done[i];
    assert MemOf(s.done) + [] == MemOf(s.done);
    MemPart(s.done, i, |s.done|);
    assert s.done[..|s.done|] == s.done;
    assert InRecord(d, s.log, s.synced);
    if d.ok && d.w.batch.Some? {
      var p := |MemOf(s.done[..i])|;
      assert MemOf(s.done[..i]) + Stamp(d.first, OpsOf(d.w)) <= s.mem;
      assert s.mem[p..p + |OpsOf(d.w)|] == Stamp(d.first, OpsOf(d.w));
    }
    SeqMonotone(s.base, s.done, i, j);
  }

  /** A writer that asked for a sync and succeeded has its batch in a log record that was synced. */
  lemma SyncedWhenAsked(states: seq<Queue>, steps: seq<Step>, k: nat, i: nat)
    requires Run(states, steps) && k < |states| && i < |states[k].done|
    requires states[k].done[i].ok && states[k].done[i].w.batch.Some? && states[k].done[i].w.sync
    ensures var s, d := states[k], states[k].done[i];
      && d.record < s.synced <= |s.log| && s.log[d.record].first <= d.first
      && d.first - s.log[d.record].first + |OpsOf(d.w)| <= |s.log[d.record].ops|
      && s.log[d.record].ops[d.first - s.log[d.record].first..d.first - s.log[d.record].first + |OpsOf(d.w)|]
        == OpsOf(d.w)
  {
    hide OpsOf, Stamp, SeqAfter, MemOf, WritersOf, GroupOps, LeaderInv, Consecutive;
    RunInv(states, steps, k);
    assert InRecord(states[k].done[i], states[k].log, states[k].synced);
  }

  /** The published sequence number lies inside no range: below the group at work, and at or above the end of every
      range already given out. */
  lemma NeverInsideAGroup(states: seq<Queue>, steps: seq<Step>, k: nat, i: nat)
    requires Run(states, steps) && k < |states|
    ensures states[k].phase.Leading? ==> states[k].lastSeq < states[k].phase.first
    ensures i < |states[k].done| && states[k].done[i].ranged ==>
      states[k].done[i].first + |OpsOf(states[k].done[i].w)| <= states[k].lastSeq + 1
  {
    hide OpsOf, Stamp, SeqAfter, MemOf, WritersOf, GroupOps, InRecord;
    RunInv(states, steps, k);
    var s := states[k];
    if i < |s.done| && s.done[i].ranged {
      SeqMonotone(s.base, s.done, i, |s.done|);
      assert s.done[..|s.done|] == s.done;
    }
  }
}
