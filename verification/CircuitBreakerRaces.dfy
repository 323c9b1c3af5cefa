/** The circuit breaker shared by tasks, at the grain of its single atomic accesses. */
module CircuitBreakerRaces {
  import opened Basics
  import opened CircuitBreaker

  /** Where a call stands. Calling is about to load the state; SawOpen to look at the
      clock; Probing to store HALF_OPEN. Succeeded is about to load the state; Halfway
      to load the count; Closing to store CLOSED; Clearing to store 0; Adding to add 1.
      Failed is about to add 1; Stamping to store the time; Judging to compare and store
      OPEN. */
  datatype Pc =
    | Calling
    | SawOpen
    | Probing
    | Running
    | Succeeded
    | Halfway
    | Closing
    | Clearing
    | Adding
    | Failed
    | Stamping(failures: nat)
    | Judging(failures: nat)
    | Over

  datatype State = State(b: Breaker, tasks: seq<Pc>)

  /** The next access of task t, what the clock says, and how its operation ends. */
  datatype Move = Move(t: nat, now: nat, succeeds: bool)

  predicate CanMove(s: State, m: Move) {
    m.t < |s.tasks| && !s.tasks[m.t].Over?
  }

  /** What the access does to the breaker. */
  function Effect(c: Config, b: Breaker, pc: Pc, m: Move): (r: Breaker) {
    match pc
    case Probing => b.(mode := HalfOpen)
    case Closing => b.(mode := Closed)
    case Clearing => b.(count := 0)
    case Adding => b.(count := b.count + 1)
    case Failed => b.(count := b.count + 1)
    case Stamping(_) => b.(lastFailure := m.now)
    case Judging(failures) => if failures >= c.failureThreshold then b.(mode := Open) else b
    case _ => b
  }

  /** Where the task stands after it. */
  function Next(c: Config, b: Breaker, pc: Pc, m: Move): (r: Pc) {
    match pc
    case Calling => if b.mode == Open then SawOpen else Running
    case SawOpen => if Since(m.now, b.lastFailure) >= c.resetTimeoutMs then Probing else Over
    case Probing => Running
    case Running => if m.succeeds then Succeeded else Failed
    case Succeeded => if b.mode == HalfOpen then Halfway else Clearing
    case Halfway => if b.count >= c.successThreshold then Closing else Adding
    case Closing => Clearing
    case Failed => Stamping(b.count + 1)
    case Stamping(failures) => Judging(failures)
    case _ => Over
  }

  function Access(c: Config, s: State, m: Move): (r: State)
    requires CanMove(s, m)
  {
    State(Effect(c, s.b, s.tasks[m.t], m), s.tasks[m.t := Next(c, s.b, s.tasks[m.t], m)])
  }

  predicate Interleaves(c: Config, s: State, ms: seq<Move>)
    decreases |ms|
  {
    ms == [] || (CanMove(s, ms[0]) && Interleaves(c, Access(c, s, ms[0]), ms[1..]))
  }

  function After(c: Config, s: State, ms: seq<Move>): (r: State)
    requires Interleaves(c, s, ms)
    decreases |ms|
  {
    if ms == [] then s else After(c, Access(c, s, ms[0]), ms[1..])
  }

  lemma {:induction false} Joined(c: Config, s: State, x: seq<Move>, y: seq<Move>)
    requires Interleaves(c, s, x) && Interleaves(c, After(c, s, x), y)
    ensures Interleaves(c, s, x + y) && After(c, s, x + y) == After(c, After(c, s, x), y)
    decreases |x|
  {
    if x == [] {
      assert x + y == y;
    } else {
      Joined(c, Access(c, s, x[0]), x[1..], y);
      assert (x + y)[1..] == x[1..] + y;
    }
  }

  // ----- one call alone

  function Left(pc: Pc): (r: nat) {
    match pc
    case Calling => 10
    case SawOpen => 9
    case Probing => 8
    case Running => 7
    case Succeeded => 6
    case Halfway => 5
    case Closing => 4
    case Failed => 3
    case Stamping(_) => 2
    case Over => 0
    case _ => 1
  }

  /** What a task makes of the breaker when it goes on alone to its end. */
  function Finish(c: Config, b: Breaker, pc: Pc, call: Call): (r: Breaker)
    decreases Left(pc)
  {
    if pc.Over? then b
    else
      var m := Move(0, if pc.SawOpen? then call.now else call.done, call.succeeds);
      Finish(c, Effect(c, b, pc, m), Next(c, b, pc, m), call)
  }

  lemma OnLastAccess(c: Config, b: Breaker, call: Call)
    ensures Finish(c, b, Clearing, call) == b.(count := 0)
    ensures Finish(c, b, Adding, call) == b.(count := b.count + 1)
  {
    assert Finish(c, b.(count := 0), Over, call) == b.(count := 0);
    assert Finish(c, b.(count := b.count + 1), Over, call) == b.(count := b.count + 1);
  }

  lemma FinishSuccess(c: Config, b: Breaker, call: Call)
    ensures Finish(c, b, Succeeded, call) == OnSuccess(c, b)
  {
    if b.mode == HalfOpen {
      assert Finish(c, b, Succeeded, call) == Finish(c, b, Halfway, call);
      if b.count >= c.successThreshold {
        assert Finish(c, b, Halfway, call) == Finish(c, b, Closing, call);
        assert Finish(c, b, Closing, call) == Finish(c, b.(mode := Closed), Clearing, call);
        OnLastAccess(c, b.(mode := Closed), call);
      } else {
        assert Finish(c, b, Halfway, call) == Finish(c, b, Adding, call);
        OnLastAccess(c, b, call);
      }
    } else {
      assert Finish(c, b, Succeeded, call) == Finish(c, b, Clearing, call);
      OnLastAccess(c, b, call);
    }
  }

  lemma FinishFailure(c: Config, b: Breaker, call: Call)
    ensures Finish(c, b, Failed, call) == OnFailure(c, b, call.done)
  {
    var counted := b.(count := b.count + 1);
    var stamped := counted.(lastFailure := call.done);
    var judged := if b.count + 1 >= c.failureThreshold then stamped.(mode := Open) else stamped;
    assert Finish(c, b, Failed, call) == Finish(c, counted, Stamping(b.count + 1), call);
    assert Finish(c, counted, Stamping(b.count + 1), call) == Finish(c, stamped, Judging(b.count + 1), call);
    assert Finish(c, stamped, Judging(b.count + 1), call) == Finish(c, judged, Over, call) == judged;
  }

  lemma FinishRunning(c: Config, b: Breaker, call: Call)
    ensures Finish(c, b, Running, call) == if call.succeeds then OnSuccess(c, b) else OnFailure(c, b, call.done)
  {
    assert Finish(c, b, Running, call) == Finish(c, b, if call.succeeds then Succeeded else Failed, call);
    FinishSuccess(c, b, call);
    FinishFailure(c, b, call);
  }

  /** The accesses of a call that nobody interrupts make exactly one call of the
      sequential breaker. */
  lemma AloneIsSequential(c: Config, b: Breaker, call: Call)
    ensures Finish(c, b, Calling, call) == Execute(c, b, call)
  {
    FinishRunning(c, Entered(b), call);
    if b.mode == Open {
      assert Finish(c, b, Calling, call) == Finish(c, b, SawOpen, call);
      if Admits(c, b, call.now) {
        assert Finish(c, b, SawOpen, call) == Finish(c, b, Probing, call);
        assert Finish(c, b, Probing, call) == Finish(c, Entered(b), Running, call);
      } else {
        assert Finish(c, b, SawOpen, call) == Finish(c, b, Over, call) == b;
      }
    } else {
      assert Finish(c, b, Calling, call) == Finish(c, b, Running, call);
    }
  }

  // ----- when an open breaker keeps its count

  /** A breaker that is not closed has counted up to the threshold, so that a failure
      while half open opens it again. */
  predicate Armed(c: Config, b: Breaker) {
    b.mode != Closed ==> b.count >= c.failureThreshold
  }

  /** What the access must find: CLOSED to store 0 under, and the count to store OPEN or
      HALF_OPEN over. */
  predicate Calm(c: Config, s: State, m: Move)
    requires CanMove(s, m)
  {
    match s.tasks[m.t]
    case Clearing => s.b.mode == Closed
    case Probing => s.b.count >= c.failureThreshold
    case Judging(failures) => failures >= c.failureThreshold ==> s.b.count >= c.failureThreshold
    case _ => true
  }

  lemma AccessArmedIffCalm(c: Config, s: State, m: Move)
    requires c.failureThreshold >= 1 && CanMove(s, m) && Armed(c, s.b)
    ensures Armed(c, Access(c, s, m).b) <==> Calm(c, s, m)
  {
  }

  predicate AlwaysArmed(c: Config, s: State, ms: seq<Move>)
    requires Interleaves(c, s, ms)
    decreases |ms|
  {
    Armed(c, s.b) && (ms == [] || AlwaysArmed(c, Access(c, s, ms[0]), ms[1..]))
  }

  predicate AlwaysCalm(c: Config, s: State, ms: seq<Move>)
    requires Interleaves(c, s, ms)
    decreases |ms|
  {
    ms == [] || (Calm(c, s, ms[0]) && AlwaysCalm(c, Access(c, s, ms[0]), ms[1..]))
  }

  /** In every interleaving of single accesses. */
  lemma {:induction false} AlwaysArmedIffCalm(c: Config, s: State, ms: seq<Move>)
    requires c.failureThreshold >= 1 && Armed(c, s.b) && Interleaves(c, s, ms)
    ensures AlwaysArmed(c, s, ms) <==> AlwaysCalm(c, s, ms)
    decreases |ms|
  {
    if ms != [] {
      AccessArmedIffCalm(c, s, ms[0]);
      if Calm(c, s, ms[0]) {
        AlwaysArmedIffCalm(c, Access(c, s, ms[0]), ms[1..]);
      }
    }
  }

  // ----- how many calls it takes to disarm a new breaker

  function New(n: nat): (r: State) {
    State(NEW_BREAKER, seq(n, _ => Calling))
  }

  /** A task that may still change the count. */
  predicate MayCount(pc: Pc) {
    !pc.Stamping? && !pc.Judging? && !pc.Over?
  }

  function Counting(tasks: seq<Pc>): (r: nat) {
    if tasks == [] then 0 else (if MayCount(tasks[0]) then 1 else 0) + Counting(tasks[1..])
  }

  lemma {:induction false} CountingAfter(tasks: seq<Pc>, t: nat, pc: Pc)
    requires t < |tasks|
    ensures Counting(tasks[t := pc])
            == Counting(tasks) - (if MayCount(tasks[t]) then 1 else 0) + (if MayCount(pc) then 1 else 0)
    ensures MayCount(tasks[t]) ==> Counting(tasks) >= 1
  {
    if t == 0 {
      assert tasks[0 := pc][1..] == tasks[1..];
    } else {
      CountingAfter(tasks[1..], t - 1, pc);
      assert tasks[t := pc][1..] == tasks[1..][t - 1 := pc];
    }
  }

  lemma {:induction false} AllCalling(n: nat)
    ensures Counting(seq(n, _ => Calling)) == n
  {
    if n > 0 {
      AllCalling(n - 1);
      assert seq(n, _ => Calling)[1..] == seq(n - 1, _ => Calling);
    }
  }

  /** A task that has not seen the breaker other than closed, and whose verdict, if it is
      to open the breaker, has the count behind it. */
  predicate Backed(c: Config, b: Breaker, pc: Pc) {
    match pc
    case SawOpen => false
    case Probing => false
    case Halfway => false
    case Closing => false
    case Adding => false
    case Stamping(failures) => failures >= c.failureThreshold ==> b.count >= c.failureThreshold
    case Judging(failures) => failures >= c.failureThreshold ==> b.count >= c.failureThreshold
    case _ => true
  }

  /** Too few calls: once the threshold is reached, every one of them has failed. */
  ghost predicate Few(c: Config, s: State) {
    && s.b.count + Counting(s.tasks) <= c.failureThreshold
    && Armed(c, s.b)
    && forall i :: 0 <= i < |s.tasks| ==> Backed(c, s.b, s.tasks[i])
  }

  lemma FewStaysFew(c: Config, s: State, m: Move)
    requires Few(c, s) && CanMove(s, m)
    ensures Few(c, Access(c, s, m))
  {
    var r := Access(c, s, m);
    CountingAfter(s.tasks, m.t, r.tasks[m.t]);
    assert Backed(c, s.b, s.tasks[m.t]);
    forall i | 0 <= i < |r.tasks| ensures Backed(c, r.b, r.tasks[i]) {
      assert Backed(c, s.b, s.tasks[i]);
    }
  }

  lemma {:induction false} FewRun(c: Config, s: State, ms: seq<Move>)
    requires Few(c, s) && Interleaves(c, s, ms)
    ensures Armed(c, After(c, s, ms).b)
    decreases |ms|
  {
    if ms != [] {
      FewStaysFew(c, s, ms[0]);
      FewRun(c, Access(c, s, ms[0]), ms[1..]);
    }
  }

  /** Task t comes in, fails and passes its verdict. */
  function FailingCall(t: nat): (r: seq<Move>) {
    seq(5, _ => Move(t, 0, false))
  }

  function FailingCalls(k: nat): (r: seq<Move>) {
    if k == 0 then [] else FailingCalls(k - 1) + FailingCall(k)
  }

  /** k calls have failed while call 0 was on its way to store 0. */
  function AfterFailures(c: Config, n: nat, k: nat): (r: State) {
    State(Breaker(if k > 0 && k >= c.failureThreshold then Open else Closed, k, 0),
          seq(n, i requires 0 <= i < n => if i == 0 then Clearing else if i <= k then Over else Calling))
  }

  lemma {:induction false} Moves(c: Config, s: State, ms: seq<Move>, states: seq<State>)
    requires |states| == |ms| + 1 && states[0] == s
    requires forall i :: 0 <= i < |ms| ==> CanMove(states[i], ms[i]) && states[i + 1] == Access(c, states[i], ms[i])
    ensures Interleaves(c, s, ms) && After(c, s, ms) == states[|ms|]
    decreases |ms|
  {
    if ms != [] {
      Moves(c, states[1], ms[1..], states[1..]);
    }
  }

  lemma OneFailingCall(c: Config, s: State, t: nat)
    requires t < |s.tasks| && s.tasks[t] == Calling && s.b.mode == Closed
    ensures Interleaves(c, s, FailingCall(t))
    ensures After(c, s, FailingCall(t))
            == State(Breaker(if s.b.count + 1 >= c.failureThreshold then Open else Closed, s.b.count + 1, 0),
                     s.tasks[t := Over])
  {
    var failures := s.b.count + 1;
    var counted := s.b.(count := failures);
    var s1 := s.(tasks := s.tasks[t := Running]);
    var s2 := s.(tasks := s.tasks[t := Failed]);
    var s3 := State(counted, s.tasks[t := Stamping(failures)]);
    var s4 := State(counted.(lastFailure := 0), s.tasks[t := Judging(failures)]);
    var mode := if failures >= c.failureThreshold then Open else Closed;
    var s5 := State(Breaker(mode, failures, 0), s.tasks[t := Over]);
    Moves(c, s, FailingCall(t), [s, s1, s2, s3, s4, s5]);
  }

  lemma {:induction false} FailuresPass(c: Config, n: nat, k: nat)
    requires k <= c.failureThreshold && k < n
    ensures Interleaves(c, AfterFailures(c, n, 0), FailingCalls(k))
    ensures After(c, AfterFailures(c, n, 0), FailingCalls(k)) == AfterFailures(c, n, k)
  {
    if k > 0 {
      FailuresPass(c, n, k - 1);
      var s := AfterFailures(c, n, k - 1);
      OneFailingCall(c, s, k);
      assert s.tasks[k := Over] == AfterFailures(c, n, k).tasks;
      Joined(c, AfterFailures(c, n, 0), FailingCalls(k - 1), FailingCall(k));
    }
  }

  const SUCCEEDING: seq<Move> := [Move(0, 0, true), Move(0, 0, true), Move(0, 0, true)]

  lemma SuccessComesIn(c: Config, n: nat)
    requires n > 0
    ensures Interleaves(c, New(n), SUCCEEDING) && After(c, New(n), SUCCEEDING) == AfterFailures(c, n, 0)
  {
    var s := New(n);
    var s3 := AfterFailures(c, n, 0);
    assert s.tasks[0 := Clearing] == s3.tasks;
    Moves(c, s, SUCCEEDING, [s, s.(tasks := s.tasks[0 := Running]), s.(tasks := s.tasks[0 := Succeeded]), s3]);
  }

  ghost predicate Disarms(c: Config, n: nat, ms: seq<Move>) {
    Interleaves(c, New(n), ms) && !Armed(c, After(c, New(n), ms).b)
  }

  /** One success loads CLOSED, then as many calls fail as open the breaker, then the
      success stores 0: the breaker is open and has forgotten why, although no success
      came in while it was open. */
  lemma ClosedSuccessDisarms(c: Config, n: nat) returns (ms: seq<Move>)
    requires 1 <= c.failureThreshold < n
    ensures Disarms(c, n, ms)
    ensures After(c, New(n), ms).b == Breaker(Open, 0, 0)
  {
    var k := c.failureThreshold;
    SuccessComesIn(c, n);
    FailuresPass(c, n, k);
    Joined(c, New(n), SUCCEEDING, FailingCalls(k));
    var before, last := SUCCEEDING + FailingCalls(k), Move(0, 0, true);
    assert [last][1..] == [];
    Joined(c, New(n), before, [last]);
    ms := before + [last];
  }

  /** From a new breaker, no interleaving of n calls ever disarms it if and only if n is
      not above the failure threshold. */
  lemma NeverDisarmedIffFewCalls(c: Config, n: nat)
    requires c.failureThreshold >= 1
    ensures (forall ms :: !Disarms(c, n, ms)) <==> n <= c.failureThreshold
  {
    if n <= c.failureThreshold {
      AllCalling(n);
      forall ms | Interleaves(c, New(n), ms) ensures !Disarms(c, n, ms) {
        FewRun(c, New(n), ms);
      }
    } else {
      var ms := ClosedSuccessDisarms(c, n);
    }
  }
}
