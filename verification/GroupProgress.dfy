/** The writer queue never gets stuck: from every state of every run all writers can be served (db/db_impl.cc). */
module GroupProgress {
  import opened WriteBatches
  import opened GroupCommit

  ghost predicate Path(states: seq<Queue>, steps: seq<Step>) {
    |states| == |steps| + 1 && forall k :: 0 <= k < |steps| ==> Next(states[k], steps[k], states[k + 1])
  }

  lemma PathJoin(a: seq<Queue>, steps: seq<Step>, b: seq<Queue>, more: seq<Step>)
    requires Path(a, steps) && Path(b, more) && b[0] == a[|steps|]
    ensures Path(a + b[1..], steps + more) && (a + b[1..])[|steps + more|] == b[|more|]
  {
    hide Next;
    var c, all := a + b[1..], steps + more;
    forall k | 0 <= k < |all|
      ensures Next(c[k], all[k], c[k + 1])
    {
      if k < |steps| {
        assert Next(a[k], steps[k], a[k + 1]);
      } else {
        assert Next(b[k - |steps|], more[k - |steps|], b[k - |steps| + 1]);
      }
    }
  }

  /** There is always a group to lead. */
  lemma {:induction false} GroupExists(queue: seq<Writer>, k: nat) returns (n: nat)
    requires 1 <= k <= |queue| && queue[0].batch.Some? && forall j :: 1 <= j < k ==> Joins(queue, j)
    ensures IsGroup(queue, n)
    decreases |queue| - k
  {
    hide Joins;
    if k == |queue| || !Joins(queue, k) {
      n := k;
    } else {
      n := GroupExists(queue, k + 1);
    }
  }

  /** The first `n` writers leave the queue, all with the same outcome, and nobody leads. */
  ghost predicate Served(s: Queue, n: nat, ok: bool, s': Queue) {
    && 1 <= n <= |s.queue| && s'.queue == s.queue[n..] && s'.arrived == s.arrived && s'.phase.Waiting?
    && s'.broken == s.broken && s.done <= s'.done
    && var news := s'.done[|s.done|..];
    && |news| == n && forall i :: 0 <= i < n ==> news[i].w == s.queue[i] && news[i].ok == ok
  }

  lemma {:induction false} ResultsSame(ws: seq<Writer>, ok: bool, first: nat, record: nat)
    ensures var r := Results(ws, ok, first, record);
      |r| == |ws| && forall i :: 0 <= i < |ws| ==> r[i].w == ws[i] && r[i].ok == ok
  {
    hide GroupOps;
    if ws != [] {
      ResultsSame(ws[..|ws| - 1], ok, first, record);
    }
  }

  ghost predicate Leads(s: Queue) {
    s.phase.Leading? && 1 <= s.phase.n <= |s.queue|
  }

  function Rank(stage: Stage): nat {
    match stage
    case Built => 3
    case Logged => 2
    case Synced => 1
    case _ => 0
  }

  lemma PublishIsPossible(s: Queue) returns (s': Queue)
    requires Leads(s) && (s.phase.stage.Applied? || s.phase.stage.Failed?)
    ensures Next(s, Publish, s') && Served(s, s.phase.n, s.phase.stage.Applied?, s')
  {
    hide GroupOps, Results, Served;
    var n, first, ok := s.phase.n, s.phase.first, s.phase.stage.Applied?;
    var r := Results(s.queue[..n], ok, first, if |s.log| == 0 then 0 else |s.log| - 1);
    ResultsSame(s.queue[..n], ok, first, if |s.log| == 0 then 0 else |s.log| - 1);
    s' := s.(lastSeq := s.lastSeq + |GroupOps(s.queue[..n])|, queue := s.queue[n..], phase := Waiting, done :=
             s.done + r);
    ServedBy(s, n, ok, r, s');
  }

  lemma ServedBy(s: Queue, n: nat, ok: bool, r: seq<Done>, s': Queue)
    requires 1 <= n <= |s.queue| && |r| == n && forall i :: 0 <= i < n ==> r[i].w == s.queue[i] && r[i].ok == ok
    requires s'.queue == s.queue[n..] && s'.arrived == s.arrived && s'.phase.Waiting? && s'.broken == s.broken
    requires s'.done == s.done + r
    ensures Served(s, n, ok, s')
  {
    assert s'.done[|s.done|..] == r;
  }

  /** A leader can bring its group to an end. */
  lemma {:induction false} LeaderCanFinish(s: Queue) returns (states: seq<Queue>, steps: seq<Step>)
    requires Leads(s)
    ensures Path(states, steps) && states[0] == s
    ensures Served(s, s.phase.n, !s.phase.stage.Failed?, states[|steps|])
    decreases Rank(s.phase.stage), 0
  {
    hide GroupOps, Served;
    var n, first := s.phase.n, s.phase.first;
    var ops := GroupOps(s.queue[..n]);
    match s.phase.stage
    case Built =>
      var s1 := s.(log := s.log + [Record(first, ops)], phase := Leading(n, first, Logged));
      assert Next(s, AddRecord, s1);
      states, steps := StepAndFinish(s, AddRecord, s1);
    case Logged =>
      if s.queue[0].sync {
        var s1 := s.(synced := |s.log|, phase := Leading(n, first, Synced));
        assert Next(s, Sync, s1);
        states, steps := StepAndFinish(s, Sync, s1);
      } else {
        var s1 := s.(mem := s.mem + Stamp(first, ops), phase := Leading(n, first, Applied));
        assert Next(s, Insert, s1);
        states, steps := StepAndFinish(s, Insert, s1);
      }
    case Synced =>
      var s1 := s.(mem := s.mem + Stamp(first, ops), phase := Leading(n, first, Applied));
      assert Next(s, Insert, s1);
      states, steps := StepAndFinish(s, Insert, s1);
    case _ =>
      var s1 := PublishIsPossible(s);
      states, steps := [s, s1], [Publish];
  }

  lemma {:induction false} StepAndFinish(s: Queue, step: Step, s1: Queue)
    returns (states: seq<Queue>, steps: seq<Step>)
    requires Leads(s) && Leads(s1) && Next(s, step, s1) && !s.phase.stage.Failed? && !s1.phase.stage.Failed?
    requires s1.queue == s.queue && s1.arrived == s.arrived && s1.done == s.done && s1.broken == s.broken
    requires s1.phase.n == s.phase.n
    requires (s.phase.stage.Built? && s1.phase.stage.Logged?) || (s.phase.stage.Logged? && s1.phase.stage.Synced?)
      || ((s.phase.stage.Logged? || s.phase.stage.Synced?) && s1.phase.stage.Applied?)
    ensures Path(states, steps) && states[0] == s && Served(s, s.phase.n, true, states[|steps|])
    decreases Rank(s1.phase.stage), 1
  {
    hide Next;
    var p, t := LeaderCanFinish(s1);
    states, steps := [s] + p, [step] + t;
  }

  /** With nobody leading, somebody at the head can be served: with success unless the log is broken. */
  lemma HeadCanBeServed(s: Queue) returns (states: seq<Queue>, steps: seq<Step>, n: nat)
    requires s.phase.Waiting? && s.queue != []
    ensures Path(states, steps) && states[0] == s && Served(s, n, !s.broken, states[|steps|])
  {
    if s.broken {
      var s1 := s.(queue := s.queue[1..], done := s.done + [Done(s.queue[0], false, false, 0, 0)]);
      states, steps, n := [s, s1], [Refuse], 1;
    } else if s.queue[0].batch.None? {
      var s1 := s.(queue := s.queue[1..], done := s.done + [Done(s.queue[0], true, false, 0, 0)]);
      states, steps, n := [s, s1], [SwitchOnly], 1;
    } else {
      n := GroupExists(s.queue, 1);
      var s1 := s.(phase := Leading(n, s.lastSeq + 1, Built));
      assert Next(s, Build(n), s1);
      hide Next;
      var p, t := LeaderCanFinish(s1);
      states, steps := [s] + p, [Build(n)] + t;
    }
  }

  /** Everybody in the queue was served, in order, and with success from the writer at `from` on. */
  ghost predicate Drained(s: Queue, from: nat, ok: bool, s': Queue) {
    && s'.queue == [] && s'.arrived == s.arrived && s'.phase.Waiting?
    && s.done <= s'.done
    && var news := s'.done[|s.done|..];
    && |news| == |s.queue| && (forall i :: 0 <= i < |s.queue| ==> news[i].w == s.queue[i])
    && forall i :: from <= i < |s.queue| ==> news[i].ok == ok
  }

  lemma ServedThenDrained(s: Queue, n: nat, first: bool, s1: Queue, ok: bool, s2: Queue, from: nat)
    requires Served(s, n, first, s1) && Drained(s1, 0, ok, s2) && (from >= n || first == ok)
    ensures Drained(s, from, ok, s2)
  {
    var a, b := s1.done[|s.done|..], s2.done[|s1.done|..];
    assert s2.done == s1.done + b && s1.done == s.done + a;
    assert s2.done[|s.done|..] == a + b;
    assert s.queue == s.queue[..n] + s1.queue;
  }

  lemma {:induction false} WaitingCanDrain(s: Queue) returns (states: seq<Queue>, steps: seq<Step>)
    requires s.phase.Waiting?
    ensures Path(states, steps) && states[0] == s && Drained(s, 0, !s.broken, states[|steps|])
    decreases |s.queue|
  {
    hide Next;
    if s.queue == [] {
      states, steps := [s], [];
    } else {
      var p, t, n := HeadCanBeServed(s);
      var s1 := p[|t|];
      assert |s1.queue| < |s.queue|;
      var q, u := WaitingCanDrain(s1);
      PathJoin(p, t, q, u);
      states, steps := p + q[1..], t + u;
      ServedThenDrained(s, n, !s.broken, s1, !s.broken, q[|u|], 0);
    }
  }

  /** From every state of every run, everybody who waits can be served, in order of arrival: all with success if the log
      is not broken, but for the group whose log record already failed. */
  lemma QueueCanDrain(run: seq<Queue>, taken: seq<Step>, k: nat) returns (states: seq<Queue>, steps: seq<Step>)
    requires Run(run, taken) && k < |run|
    ensures Path(states, steps) && states[0] == run[k]
    ensures var s := run[k];
      var failed := if s.phase.Leading? && s.phase.stage.Failed? then s.phase.n else 0;
      Drained(s, if s.phase.Leading? && s.broken then s.phase.n else failed, !s.broken, states[|steps|])
  {
    hide Next, Inv, Drained;
    var s := run[k];
    RunInv(run, taken, k);
    if s.phase.Waiting? {
      states, steps := WaitingCanDrain(s);
    } else {
      assert Leads(s) by { LeaderInRange(s); }
      var p, t := LeaderCanFinish(s);
      var s1 := p[|t|];
      var q, u := WaitingCanDrain(s1);
      PathJoin(p, t, q, u);
      states, steps := p + q[1..], t + u;
      var from := if s.phase.stage.Failed? || s.broken then s.phase.n else 0;
      ServedThenDrained(s, s.phase.n, !s.phase.stage.Failed?, s1, !s.broken, q[|u|], from);
    }
  }

  lemma LeaderInRange(s: Queue)
    requires Inv(s) && s.phase.Leading?
    ensures Leads(s)
  {
    hide GroupOps, InRecord, MemOf, WritersOf, SeqAfter;
  }
}
