/** The asynchronous task log: a bounded channel, a batching worker and a
    transactional flush, as steps over a value. */
module LogModel {
  import opened Basics

  datatype Entry = Entry(
    workerId: string, wallet: string, task: string, success: bool, message: string, durationMs: nat, timestamp: int)

  datatype Row = Row(
    workerId: string, wallet: string, task: string, status: string, message: string, durationMs: int, timestamp: int)

  function ToRow(e: Entry): (r: Row) {
    Row(e.workerId, e.wallet, e.task, if e.success then "SUCCESS" else "FAILED", e.message,
        AsI64(e.durationMs), e.timestamp)
  }

  function ToRows(es: seq<Entry>): (r: seq<Row>)
    ensures |r| == |es| && forall i :: 0 <= i < |es| ==> r[i] == ToRow(es[i])
  {
    if es == [] then [] else [ToRow(es[0])] + ToRows(es[1..])
  }

  function FromRow(r: Row): (e: Entry) {
    Entry(r.workerId, r.wallet, r.task, r.status == "SUCCESS", r.message,
          if r.durationMs < 0 then (if r.durationMs + TWO_64 < 0 then 0 else r.durationMs + TWO_64) else r.durationMs,
          r.timestamp)
  }

  /** A stored row still says everything its entry said. */
  lemma RowRoundTrip(e: Entry)
    requires e.durationMs < TWO_64
    ensures FromRow(ToRow(e)) == e
    ensures var r := ToRow(e);
            && r.workerId == e.workerId && r.wallet == e.wallet && r.task == e.task && r.message == e.message
            && r.timestamp == e.timestamp && r.status == (if e.success then "SUCCESS" else "FAILED")
            && r.durationMs < TWO_63 && (r.durationMs == e.durationMs || r.durationMs + TWO_64 == e.durationMs)
  {
    assert "SUCCESS"[0] != "FAILED"[0];
  }

  /** A batch handed to flush_batch, and whether its transaction committed. */
  datatype Flush = Flush(batch: seq<Entry>, committed: bool)

  datatype Log = Log(
    capacity: nat,
    batchSize: nat,
    channel: seq<Entry>,
    closed: bool,
    batch: seq<Entry>,
    table: seq<Row>,
    handed: seq<Flush>,
    accepted: seq<Entry>,
    dropped: nat)

  function NewLog(capacity: nat, batchSize: nat): (r: Log) {
    Log(capacity, batchSize, [], false, [], [], [], [], 0)
  }

  datatype Event = Send(e: Entry) | Receive(commits: bool) | Tick(commits: bool) | Close

  /** Hand the batch over and clear it, whatever becomes of the transaction. */
  function FlushNow(s: Log, commits: bool): (r: Log) {
    s.(batch := [],
       handed := s.handed + [Flush(s.batch, commits)],
       table := if commits then s.table + ToRows(s.batch) else s.table)
  }

  function Step(s: Log, ev: Event): (r: Log) {
    match ev
    case Send(e) =>
      if s.closed then s
      else if |s.channel| < s.capacity then s.(channel := s.channel + [e], accepted := s.accepted + [e])
      else s.(dropped := s.dropped + 1)
    case Receive(commits) =>
      if s.channel == [] then s
      else
        var s' := s.(channel := s.channel[1..], batch := s.batch + [s.channel[0]]);
        if |s'.batch| >= s.batchSize then FlushNow(s', commits) else s'
    case Tick(commits) => if s.batch == [] then s else FlushNow(s, commits)
    case Close => s.(closed := true)
  }

  function Run(s: Log, evs: seq<Event>): (r: Log)
    decreases |evs|
  {
    if evs == [] then s else Run(Step(s, evs[0]), evs[1..])
  }

  function Handed(fs: seq<Flush>): (r: seq<Entry>) {
    if fs == [] then [] else Handed(fs[..|fs| - 1]) + fs[|fs| - 1].batch
  }

  function Committed(fs: seq<Flush>): (r: seq<Entry>) {
    if fs == [] then []
    else Committed(fs[..|fs| - 1]) + (if fs[|fs| - 1].committed then fs[|fs| - 1].batch else [])
  }

  function Largest(s: Log): (r: nat) {
    if s.batchSize == 0 then 1 else s.batchSize
  }

  /** Nothing accepted is lost, reordered or repeated on its way to flush_batch; the
      table is what committed; batches stay within bounds. */
  ghost predicate Consistent(s: Log) {
    && s.accepted == Handed(s.handed) + s.batch + s.channel
    && s.table == ToRows(Committed(s.handed))
    && |s.batch| < Largest(s)
    && |s.channel| <= s.capacity
    && forall i :: 0 <= i < |s.handed| ==> 0 < |s.handed[i].batch| <= Largest(s)
  }

  lemma ToRowsAppend(a: seq<Entry>, b: seq<Entry>)
    ensures ToRows(a + b) == ToRows(a) + ToRows(b)
  {
  }

  lemma OneMoreFlush(fs: seq<Flush>, f: Flush)
    ensures Handed(fs + [f]) == Handed(fs) + f.batch
    ensures Committed(fs + [f]) == Committed(fs) + (if f.committed then f.batch else [])
  {
    assert (fs + [f])[..|fs|] == fs;
  }

  /** A batch about to be handed over: as Consistent, but it may just have filled up. */
  ghost predicate ReadyToFlush(s: Log) {
    && s.accepted == Handed(s.handed) + s.batch + s.channel
    && s.table == ToRows(Committed(s.handed))
    && 0 < |s.batch| <= Largest(s)
    && |s.channel| <= s.capacity
    && forall i :: 0 <= i < |s.handed| ==> 0 < |s.handed[i].batch| <= Largest(s)
  }

  lemma NothingMore(es: seq<Entry>)
    ensures es + [] == es
  {
  }

  lemma FlushKeeps(s: Log, commits: bool)
    requires ReadyToFlush(s)
    ensures Consistent(FlushNow(s, commits))
  {
    var r, f := FlushNow(s, commits), Flush(s.batch, commits);
    OneMoreFlush(s.handed, f);
    NothingMore(Handed(s.handed) + s.batch);
    NothingMore(Committed(s.handed));
    if commits { ToRowsAppend(Committed(s.handed), s.batch); }
  }

  /** Moving the head of the channel to the end of the batch moves nothing past it. */
  lemma MoveHead(handed: seq<Entry>, batch: seq<Entry>, channel: seq<Entry>)
    requires channel != []
    ensures handed + batch + channel == handed + (batch + [channel[0]]) + channel[1..]
  {
    assert channel == [channel[0]] + channel[1..];
  }

  lemma ReceiveKeeps(s: Log, commits: bool)
    requires Consistent(s)
    ensures Consistent(Step(s, Receive(commits)))
  {
    if s.channel != [] {
      var s' := s.(channel := s.channel[1..], batch := s.batch + [s.channel[0]]);
      MoveHead(Handed(s.handed), s.batch, s.channel);
      assert ReadyToFlush(s');
      if |s'.batch| >= s.batchSize { FlushKeeps(s', commits); }
    }
  }

  lemma StepKeeps(s: Log, ev: Event)
    requires Consistent(s)
    ensures Consistent(Step(s, ev))
  {
    match ev
    case Send(e) =>
      if !s.closed && |s.channel| < s.capacity {
        assert s.accepted + [e] == Handed(s.handed) + s.batch + (s.channel + [e]);
      }
    case Receive(commits) => ReceiveKeeps(s, commits);
    case Tick(commits) => if s.batch != [] { FlushKeeps(s, commits); }
    case Close =>
  }

  lemma {:induction false} RunKeeps(s: Log, evs: seq<Event>)
    requires Consistent(s)
    ensures Consistent(Run(s, evs))
    decreases |evs|
  {
    if evs != [] {
      StepKeeps(s, evs[0]);
      RunKeeps(Step(s, evs[0]), evs[1..]);
    }
  }

  /** In every run: first in, first out and nothing lost between the sender and the
      flush; the table is exactly the batches that committed, in order; batches are
      never empty and never larger than max(1, batch_size). */
  lemma LogConservation(capacity: nat, batchSize: nat, evs: seq<Event>)
    ensures Consistent(Run(NewLog(capacity, batchSize), evs))
  {
    RunKeeps(NewLog(capacity, batchSize), evs);
  }

  lemma {:induction false} HandedOnce(fs: seq<Flush>, i: nat, j: nat, a: nat, b: nat) returns (x: nat, y: nat)
    requires i < j < |fs| && a < |fs[i].batch| && b < |fs[j].batch|
    ensures x < y < |Handed(fs)| && Handed(fs)[x] == fs[i].batch[a] && Handed(fs)[y] == fs[j].batch[b]
  {
    var front, last := fs[..|fs| - 1], fs[|fs| - 1].batch;
    if j == |fs| - 1 {
      x := HandedAt(front, i, a);
      y := |Handed(front)| + b;
    } else {
      x, y := HandedOnce(front, i, j, a, b);
    }
  }

  lemma {:induction false} HandedAt(fs: seq<Flush>, i: nat, a: nat) returns (x: nat)
    requires i < |fs| && a < |fs[i].batch|
    ensures x < |Handed(fs)| && Handed(fs)[x] == fs[i].batch[a]
  {
    var front := fs[..|fs| - 1];
    if i == |fs| - 1 {
      x := |Handed(front)| + a;
    } else {
      x := HandedAt(front, i, a);
    }
  }

  lemma SharedMeansRepeated(s: Log, i: nat, j: nat, e: Entry)
    requires Consistent(s) && i < j < |s.handed| && e in s.handed[i].batch && e in s.handed[j].batch
    ensures exists x, y :: 0 <= x < y < |s.accepted| && s.accepted[x] == s.accepted[y]
  {
    var a :| 0 <= a < |s.handed[i].batch| && s.handed[i].batch[a] == e;
    var b :| 0 <= b < |s.handed[j].batch| && s.handed[j].batch[b] == e;
    var x, y := HandedOnce(s.handed, i, j, a, b);
    assert s.accepted[x] == s.accepted[y];
  }

  /** Distinct entries are flushed at most once: no two flushes share one. */
  lemma FlushedAtMostOnce(capacity: nat, batchSize: nat, evs: seq<Event>, i: nat, j: nat, e: Entry)
    requires var s := Run(NewLog(capacity, batchSize), evs);
             && (forall x, y :: 0 <= x < y < |s.accepted| ==> s.accepted[x] != s.accepted[y])
             && i < j < |s.handed| && e in s.handed[i].batch
    ensures e !in Run(NewLog(capacity, batchSize), evs).handed[j].batch
  {
    LogConservation(capacity, batchSize, evs);
    var s := Run(NewLog(capacity, batchSize), evs);
    if e in s.handed[j].batch {
      SharedMeansRepeated(s, i, j, e);
      assert false;
    }
  }

  // ----- draining

  function Receives(n: nat): (r: seq<Event>) {
    if n == 0 then [] else [Receive(true)] + Receives(n - 1)
  }

  lemma {:induction false} ReceivesEmptyTheChannel(s: Log, n: nat)
    requires n == |s.channel|
    ensures Run(s, Receives(n) + [Tick(true)]).channel == [] && Run(s, Receives(n) + [Tick(true)]).batch == []
    decreases n
  {
    var evs := Receives(n) + [Tick(true)];
    if n == 0 {
      assert evs == [Tick(true)];
      assert evs[1..] == [];
    } else {
      assert evs[1..] == Receives(n - 1) + [Tick(true)];
      ReceivesEmptyTheChannel(Step(s, evs[0]), n - 1);
    }
  }

  /** Once the channel is closed and empty, one tick hands over all that is left,
      whether or not it commits; and from any state as many receives as there are
      waiting entries, then a tick, get there. */
  lemma LogDrains(capacity: nat, batchSize: nat, evs: seq<Event>, commits: bool)
    ensures var s := Run(NewLog(capacity, batchSize), evs);
            && (s.closed && s.channel == [] ==> Handed(Step(s, Tick(commits)).handed) == s.accepted)
            && (var d := Run(s, Receives(|s.channel|) + [Tick(true)]); Handed(d.handed) == d.accepted)
  {
    LogConservation(capacity, batchSize, evs);
    var s := Run(NewLog(capacity, batchSize), evs);
    StepKeeps(s, Tick(commits));
    ReceivesEmptyTheChannel(s, |s.channel|);
    RunKeeps(s, Receives(|s.channel|) + [Tick(true)]);
  }

  // ----- what is accepted

  /** The entries sent while the channel was open and had room, in order. */
  function Admitted(s: Log, evs: seq<Event>): (r: seq<Entry>)
    decreases |evs|
  {
    if evs == [] then []
    else
      (if evs[0].Send? && !s.closed && |s.channel| < s.capacity then [evs[0].e] else [])
      + Admitted(Step(s, evs[0]), evs[1..])
  }

  /** How often an entry was sent while the channel was open. */
  function SentOpen(s: Log, evs: seq<Event>): (r: nat)
    decreases |evs|
  {
    if evs == [] then 0
    else (if evs[0].Send? && !s.closed then 1 else 0) + SentOpen(Step(s, evs[0]), evs[1..])
  }

  /** No entry sent to the open channel finds it full. */
  predicate NeverFull(s: Log, evs: seq<Event>)
    decreases |evs|
  {
    evs == []
    || ((evs[0].Send? && !s.closed ==> |s.channel| < s.capacity) && NeverFull(Step(s, evs[0]), evs[1..]))
  }

  lemma StepAccepts(s: Log, ev: Event)
    ensures var r := Step(s, ev);
            && r.capacity == s.capacity
            && r.accepted == s.accepted + (if ev.Send? && !s.closed && |s.channel| < s.capacity then [ev.e] else [])
            && r.dropped == s.dropped + (if ev.Send? && !s.closed && |s.channel| >= s.capacity then 1 else 0)
            && (r.closed <==> s.closed || ev == Close)
  {
  }

  lemma {:induction false} RunAccepts(s: Log, evs: seq<Event>)
    ensures Run(s, evs).accepted == s.accepted + Admitted(s, evs)
    ensures |Admitted(s, evs)| + Run(s, evs).dropped == s.dropped + SentOpen(s, evs)
    decreases |evs|
  {
    if evs != [] {
      StepAccepts(s, evs[0]);
      RunAccepts(Step(s, evs[0]), evs[1..]);
    }
  }

  lemma {:induction false} RunDrops(s: Log, evs: seq<Event>)
    ensures Run(s, evs).dropped >= s.dropped
    ensures Run(s, evs).dropped == s.dropped <==> NeverFull(s, evs)
    ensures Run(s, evs).closed <==> s.closed || Close in evs
    decreases |evs|
  {
    if evs != [] {
      StepAccepts(s, evs[0]);
      RunDrops(Step(s, evs[0]), evs[1..]);
    }
  }

  /** In every run from a new log: accepted are exactly the entries sent while the channel
      was open and had room, in order; every entry sent to the open channel was accepted
      or counted as dropped; and none was dropped exactly if none found it full. */
  lemma LogAccepts(capacity: nat, batchSize: nat, evs: seq<Event>)
    ensures var s, r := NewLog(capacity, batchSize), Run(NewLog(capacity, batchSize), evs);
            && r.accepted == Admitted(s, evs)
            && |r.accepted| + r.dropped == SentOpen(s, evs)
            && (r.dropped == 0 <==> NeverFull(s, evs))
            && (r.closed <==> Close in evs)
  {
    RunAccepts(NewLog(capacity, batchSize), evs);
    RunDrops(NewLog(capacity, batchSize), evs);
    assert [] + Admitted(NewLog(capacity, batchSize), evs) == Admitted(NewLog(capacity, batchSize), evs);
  }

  // ----- when batches are flushed

  function Short(fs: seq<Flush>, size: nat): (r: nat) {
    if fs == [] then 0
    else Short(fs[..|fs| - 1], size) + (if |fs[|fs| - 1].batch| < size then 1 else 0)
  }

  function Ticks(evs: seq<Event>): (r: nat) {
    if evs == [] then 0 else (if evs[0].Tick? then 1 else 0) + Ticks(evs[1..])
  }

  lemma OneMoreShort(fs: seq<Flush>, f: Flush, size: nat)
    ensures Short(fs + [f], size) == Short(fs, size) + (if |f.batch| < size then 1 else 0)
  {
    assert (fs + [f])[..|fs|] == fs;
  }

  lemma StepShort(s: Log, ev: Event)
    requires Consistent(s)
    ensures Short(Step(s, ev).handed, Largest(s)) <= Short(s.handed, Largest(s)) + (if ev.Tick? then 1 else 0)
    ensures Step(s, ev).batchSize == s.batchSize
  {
    if ev.Tick? {
      OneMoreShort(s.handed, Flush(s.batch, ev.commits), Largest(s));
    } else if ev.Receive? && s.channel != [] {
      OneMoreShort(s.handed, Flush(s.batch + [s.channel[0]], ev.commits), Largest(s));
    }
  }

  /** A batch is flushed only when it is full or on a tick: no more short ones than ticks. */
  lemma {:induction false} ShortFlushesAreTicks(s: Log, evs: seq<Event>)
    requires Consistent(s)
    ensures Short(Run(s, evs).handed, Largest(s)) <= Short(s.handed, Largest(s)) + Ticks(evs)
    decreases |evs|
  {
    if evs != [] {
      StepKeeps(s, evs[0]);
      StepShort(s, evs[0]);
      ShortFlushesAreTicks(Step(s, evs[0]), evs[1..]);
    }
  }
}
