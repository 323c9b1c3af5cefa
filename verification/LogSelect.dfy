/** The select loop of the flush worker: which arm a wake-up can take, and when the loop
    can end. */
module LogSelect {
  import opened LogModel

  /** An arm's pattern refuses some values or takes any. */
  datatype Pattern = Refutable | Irrefutable

  /** What an awaited operation answers: nothing yet, or a value, which a refutable
      pattern takes only if it is `Some`. */
  datatype Answer = NotYet | Value(some: bool)

  predicate Takes(p: Pattern, v: Answer) {
    v.Value? && (p.Irrefutable? || v.some)
  }

  predicate Refuses(p: Pattern, v: Answer) {
    v.Value? && !Takes(p, v)
  }

  /** The patterns of the two arms. */
  datatype Arms = Arms(entry: Pattern, tick: Pattern)

  /** `Some(entry) = recv()` and `_ = tick()`. */
  const WORKER := Arms(Refutable, Irrefutable)

  /** recv answers None once the channel is closed and empty. */
  function Received(s: Log): (r: Answer) {
    if s.channel != [] then Value(true) else if s.closed then Value(false) else NotYet
  }

  /** A tick answers with an instant, not with an option. */
  function Ticked(due: bool): (r: Answer) {
    if due then Value(false) else NotYet
  }

  datatype Worker = Running(log: Log) | Stopped(log: Log)

  /** A sender or the shutdown acts, or the worker wakes up and takes an arm. */
  datatype Move =
    | Outside(ev: Event)
    | EntryArm(commits: bool)
    | TickArm(due: bool, commits: bool)
    | ElseArm(due: bool, commits: bool)

  /** The else arm runs when every other arm has answered and refused the answer. */
  predicate Enabled(arms: Arms, w: Worker, m: Move) {
    match m
    case Outside(ev) => ev.Send? || ev.Close?
    case EntryArm(_) => w.Running? && Takes(arms.entry, Received(w.log))
    case TickArm(due, _) => w.Running? && Takes(arms.tick, Ticked(due))
    case ElseArm(due, _) => w.Running? && Refuses(arms.entry, Received(w.log)) && Refuses(arms.tick, Ticked(due))
  }

  /** What a move does to the log. After the loop the rest is flushed as on a tick. */
  function EventOf(m: Move): (r: Event) {
    match m
    case Outside(ev) => ev
    case EntryArm(commits) => Receive(commits)
    case TickArm(_, commits) => Tick(commits)
    case ElseArm(_, commits) => Tick(commits)
  }

  function Apply(w: Worker, m: Move): (r: Worker) {
    var log := Step(w.log, EventOf(m));
    if w.Stopped? || m.ElseArm? then Stopped(log) else Running(log)
  }

  predicate Moves(arms: Arms, w: Worker, ms: seq<Move>)
    decreases |ms|
  {
    ms == [] || (Enabled(arms, w, ms[0]) && Moves(arms, Apply(w, ms[0]), ms[1..]))
  }

  function Exec(w: Worker, ms: seq<Move>): (r: Worker)
    decreases |ms|
  {
    if ms == [] then w else Exec(Apply(w, ms[0]), ms[1..])
  }

  function Events(ms: seq<Move>): (r: seq<Event>) {
    if ms == [] then [] else [EventOf(ms[0])] + Events(ms[1..])
  }

  /** The worker's log is a run of the log model, so all that holds of those holds here. */
  lemma {:induction false} WorkerRefinesLog(w: Worker, ms: seq<Move>)
    ensures Exec(w, ms).log == Run(w.log, Events(ms))
    decreases |ms|
  {
    if ms != [] {
      WorkerRefinesLog(Apply(w, ms[0]), ms[1..]);
      assert Events(ms)[1..] == Events(ms[1..]);
    }
  }

  // ----- when the loop ends

  ghost predicate StopsBy(arms: Arms, capacity: nat, batchSize: nat, ms: seq<Move>) {
    var w := Running(NewLog(capacity, batchSize));
    Moves(arms, w, ms) && Exec(w, ms).Stopped?
  }

  lemma {:induction false} IrrefutableKeepsRunning(arms: Arms, w: Worker, ms: seq<Move>)
    requires arms.entry.Irrefutable? || arms.tick.Irrefutable?
    requires w.Running? && Moves(arms, w, ms)
    ensures Exec(w, ms).Running?
    decreases |ms|
  {
    if ms != [] {
      IrrefutableKeepsRunning(arms, Apply(w, ms[0]), ms[1..]);
    }
  }

  /** Some run ends the loop if and only if no arm is irrefutable. */
  lemma CanStopIffRefutable(arms: Arms, capacity: nat, batchSize: nat)
    ensures (exists ms :: StopsBy(arms, capacity, batchSize, ms)) <==> arms.entry.Refutable? && arms.tick.Refutable?
  {
    var w := Running(NewLog(capacity, batchSize));
    if arms.entry.Refutable? && arms.tick.Refutable? {
      var stop := ElseArm(true, true);
      var ms, closed := [Outside(Close), stop], Apply(w, Outside(Close));
      assert ms[1..] == [stop] && [stop][1..] == [];
      assert Enabled(arms, closed, stop) && Moves(arms, Apply(closed, stop), []);
      assert Exec(closed, [stop]) == Exec(Apply(closed, stop), []);
      assert Moves(arms, closed, [stop]) && Exec(closed, [stop]).Stopped?;
      assert StopsBy(arms, capacity, batchSize, ms);
    } else {
      forall ms | Moves(arms, w, ms) ensures Exec(w, ms).Running? {
        IrrefutableKeepsRunning(arms, w, ms);
      }
    }
  }

  /** The flush worker never stops, whatever is sent, whenever it is shut down; once the
      channel is closed and empty it wakes up for ticks only, for ever. */
  lemma WorkerNeverStops(capacity: nat, batchSize: nat, ms: seq<Move>)
    requires Moves(WORKER, Running(NewLog(capacity, batchSize)), ms)
    ensures var w := Exec(Running(NewLog(capacity, batchSize)), ms);
            && w.Running?
            && w.log == Run(NewLog(capacity, batchSize), Events(ms))
            && (w.log.closed && w.log.channel == [] ==>
                  forall m :: Enabled(WORKER, w, m) ==> m.Outside? || (m.TickArm? && m.due))
  {
    IrrefutableKeepsRunning(WORKER, Running(NewLog(capacity, batchSize)), ms);
    WorkerRefinesLog(Running(NewLog(capacity, batchSize)), ms);
  }

  /** The other kind of worker, which can stop, would have handed over every accepted
      entry by then. */
  lemma StoppedHasHandedAll(arms: Arms, capacity: nat, batchSize: nat, ms: seq<Move>)
    requires StopsBy(arms, capacity, batchSize, ms)
    ensures var log := Exec(Running(NewLog(capacity, batchSize)), ms).log; Handed(log.handed) == log.accepted
  {
    var w := Running(NewLog(capacity, batchSize));
    StoppedIsEmpty(arms, w, ms);
    WorkerRefinesLog(w, ms);
    LogConservation(capacity, batchSize, Events(ms));
  }

  ghost predicate EmptyIfStopped(w: Worker) {
    w.Stopped? ==> w.log.closed && w.log.channel == [] && w.log.batch == []
  }

  lemma {:induction false} StoppedIsEmpty(arms: Arms, w: Worker, ms: seq<Move>)
    requires EmptyIfStopped(w) && Moves(arms, w, ms)
    ensures EmptyIfStopped(Exec(w, ms))
    decreases |ms|
  {
    if ms != [] {
      StoppedIsEmpty(arms, Apply(w, ms[0]), ms[1..]);
    }
  }
}
