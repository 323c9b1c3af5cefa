/** The log as an object: queue_task_result, the worker's loop and flush_batch, with the
    database's failures as inputs. */
module LogWorker {
  import opened LogModel

  datatype SendResult = Queued | DroppedFull | ChannelClosed

  /** When the database fails during one flush: at `begin` (0), at the k-th insert (k),
      at `commit` (one past the last insert), or not at all (anything beyond). */
  type FailsAt = nat

  predicate Commits(batch: seq<Entry>, fails: FailsAt) {
    fails > |batch| + 1
  }

  /** What the select loop is woken by. */
  datatype Wake = Entered(fails: FailsAt) | Ticked(fails: FailsAt)

  method BuildRows(batch: seq<Entry>) returns (rows: seq<Row>)
    ensures rows == ToRows(batch)
  {
    rows := [];
    for i := 0 to |batch|
      invariant |rows| == i && forall k :: 0 <= k < i ==> rows[k] == ToRow(batch[k])
    {
      rows := rows + [ToRow(batch[i])];
    }
  }

  /** The inserts of one transaction, given up at the first that fails. */
  method InsertAll(rows: seq<Row>, fails: FailsAt) returns (tx: seq<Row>, ok: bool)
    requires fails > 0
    ensures ok <==> fails > |rows|
    ensures ok ==> tx == rows
  {
    tx := [];
    for i := 0 to |rows|
      invariant tx == rows[..i] && fails > i
    {
      if fails == i + 1 {
        return tx, false;
      }
      tx := tx + [rows[i]];
    }
    ok := true;
  }

  class Worker {
    const capacity: nat
    const batchSize: nat
    var channel: seq<Entry>
    var senderDropped: bool
    var batch: seq<Entry>
    var table: seq<Row>
    var queuedEntries: nat
    var droppedEntries: nat
    ghost var handed: seq<Flush>
    ghost var accepted: seq<Entry>

    ghost function View(): Log
      reads this
    {
      Log(capacity, batchSize, channel, senderDropped, batch, table, handed, accepted, droppedEntries)
    }

    ghost predicate Valid()
      reads this
    {
      Consistent(View()) && queuedEntries == |accepted|
    }

    constructor (capacity: nat, batchSize: nat)
      ensures Valid() && View() == NewLog(capacity, batchSize)
    {
      this.capacity, this.batchSize := capacity, batchSize;
      channel, senderDropped, batch, table := [], false, [], [];
      queuedEntries, droppedEntries := 0, 0;
      handed, accepted := [], [];
      new;
      LogConservation(capacity, batchSize, []);
    }

    method QueueTaskResult(e: Entry) returns (r: SendResult)
      requires Valid()
      modifies this
      ensures Valid() && View() == Step(old(View()), Send(e))
      ensures r.ChannelClosed? <==> old(senderDropped)
      ensures r.Queued? <==> !old(senderDropped) && |old(channel)| < capacity
      ensures r.DroppedFull? <==> !old(senderDropped) && |old(channel)| >= capacity
      ensures channel == old(channel) + (if r.Queued? then [e] else [])
      ensures accepted == old(accepted) + (if r.Queued? then [e] else [])
      ensures queuedEntries == old(queuedEntries) + (if r.Queued? then 1 else 0)
      ensures droppedEntries == old(droppedEntries) + (if r.DroppedFull? then 1 else 0)
    {
      StepKeeps(View(), Send(e));
      if senderDropped {
        return ChannelClosed;
      }
      if |channel| < capacity {
        channel := channel + [e];
        accepted := accepted + [e];
        queuedEntries := queuedEntries + 1;
        r := Queued;
      } else {
        droppedEntries := droppedEntries + 1;
        r := DroppedFull;
      }
    }

    method Shutdown()
      requires Valid()
      modifies this`senderDropped
      ensures Valid() && View() == Step(old(View()), Close)
    {
      StepKeeps(View(), Close);
      senderDropped := true;
    }

    /** One transaction: all rows of the batch or none. */
    method FlushBatch(fails: FailsAt) returns (ok: bool)
      requires batch != []
      modifies this`table
      ensures ok <==> Commits(batch, fails)
      ensures ok <==> fails > |batch| + 1
      ensures table == if ok then old(table) + ToRows(batch) else old(table)
    {
      var rows := BuildRows(batch);
      if fails == 0 {
        return false;
      }
      var tx, inserted := InsertAll(rows, fails);
      ok := inserted && fails != |rows| + 1;
      if ok {
        table := table + tx;
      }
    }

    method FlushAndClear(fails: FailsAt)
      requires batch != []
      modifies this`table, this`batch, this`handed
      ensures View() == FlushNow(old(View()), Commits(old(batch), fails))
    {
      var ok := FlushBatch(fails);
      handed := handed + [Flush(batch, ok)];
      batch := [];
    }

    method OnEntry(fails: FailsAt)
      requires Valid() && channel != []
      modifies this`channel, this`table, this`batch, this`handed
      ensures Valid() && View() == Step(old(View()), Receive(Commits(old(batch) + [old(channel)[0]], fails)))
    {
      StepKeeps(View(), Receive(Commits(batch + [channel[0]], fails)));
      var e := channel[0];
      channel := channel[1..];
      batch := batch + [e];
      if |batch| >= batchSize {
        FlushAndClear(fails);
      }
    }

    method OnTick(fails: FailsAt)
      requires Valid()
      modifies this`table, this`batch, this`handed
      ensures Valid() && View() == Step(old(View()), Tick(Commits(old(batch), fails)))
    {
      StepKeeps(View(), Tick(Commits(batch, fails)));
      if batch != [] {
        FlushAndClear(fails);
      }
    }

    /** The loop, for as long as the wake-ups last: whatever they are and however the
        flushes end, the accepted entries are still all there, in order. */
    method Loop(wakes: seq<Wake>)
      requires Valid()
      modifies this`channel, this`table, this`batch, this`handed
      ensures Valid()
      ensures accepted == old(accepted)
      ensures old(handed) <= handed && old(table) <= table
    {
      for i := 0 to |wakes|
        invariant Valid() && accepted == old(accepted)
        invariant old(handed) <= handed && old(table) <= table
      {
        match wakes[i] {
          case Entered(fails) => if channel != [] { OnEntry(fails); }
          case Ticked(fails) => OnTick(fails);
        }
      }
    }
  }
}
