/** The circuit breaker: calls made one after the other, then calls that overlap, each
    admission and each completion being one step. Clock readings and outcomes are inputs. */
module CircuitBreaker {
  import opened Basics

  datatype Mode = Closed | Open | HalfOpen

  datatype Config = Config(failureThreshold: nat, successThreshold: nat, resetTimeoutMs: nat)

  /** One counter serves for failures and, when half open, for successes. */
  datatype Breaker = Breaker(mode: Mode, count: nat, lastFailure: nat)

  const NEW_BREAKER := Breaker(Closed, 0, 0)

  /** A call: when it is made, when it ends, and how the operation would turn out. */
  datatype Call = Call(now: nat, done: nat, succeeds: bool)

  function Since(now: nat, then_: nat): (r: nat) {
    if now < then_ then 0 else now - then_
  }

  predicate Admits(c: Config, b: Breaker, now: nat) {
    b.mode != Open || Since(now, b.lastFailure) >= c.resetTimeoutMs
  }

  function OnSuccess(c: Config, b: Breaker): (r: Breaker) {
    if b.mode == HalfOpen then
      if b.count >= c.successThreshold then b.(mode := Closed, count := 0) else b.(count := b.count + 1)
    else
      b.(count := 0)
  }

  function OnFailure(c: Config, b: Breaker, now: nat): (r: Breaker) {
    Breaker(if b.count + 1 >= c.failureThreshold then Open else b.mode, b.count + 1, now)
  }

  function Execute(c: Config, b: Breaker, call: Call): (r: Breaker) {
    if !Admits(c, b, call.now) then b
    else
      var entered := if b.mode == Open then b.(mode := HalfOpen) else b;
      if call.succeeds then OnSuccess(c, entered) else OnFailure(c, entered, call.done)
  }

  function Run(c: Config, b: Breaker, calls: seq<Call>): (r: Breaker) {
    if calls == [] then b else Execute(c, Run(c, b, calls[..|calls| - 1]), calls[|calls| - 1])
  }

  /** The outcomes of the operations that actually ran. */
  function Ran(c: Config, b: Breaker, calls: seq<Call>): (r: seq<bool>) {
    if calls == [] then []
    else
      var before, last := calls[..|calls| - 1], calls[|calls| - 1];
      Ran(c, b, before) + (if Admits(c, Run(c, b, before), last.now) then [last.succeeds] else [])
  }

  function TrailingFailures(outcomes: seq<bool>): (r: nat) {
    if outcomes == [] || outcomes[|outcomes| - 1] then 0
    else 1 + TrailingFailures(outcomes[..|outcomes| - 1])
  }

  lemma OneMoreOutcome(outcomes: seq<bool>, ok: bool)
    ensures TrailingFailures(outcomes + [ok]) == if ok then 0 else 1 + TrailingFailures(outcomes)
  {
    assert (outcomes + [ok])[..|outcomes|] == outcomes;
  }

  /** The count tells whether the breaker is closed. */
  predicate CountsRight(c: Config, b: Breaker) {
    b.mode == Closed <==> b.count < c.failureThreshold
  }

  ghost predicate Sound(c: Config, b: Breaker, outcomes: seq<bool>) {
    && CountsRight(c, b)
    && (b.mode == Closed ==> b.count == TrailingFailures(outcomes))
  }

  /** With a positive threshold, CLOSED means exactly "fewer failures in a row than the
      threshold", and the count then is that run. */
  lemma {:induction false} ClosedCountsTheRun(c: Config, calls: seq<Call>)
    requires c.failureThreshold >= 1
    ensures Sound(c, Run(c, NEW_BREAKER, calls), Ran(c, NEW_BREAKER, calls))
  {
    if calls != [] {
      var before, last := calls[..|calls| - 1], calls[|calls| - 1];
      ClosedCountsTheRun(c, before);
      OneMoreOutcome(Ran(c, NEW_BREAKER, before), last.succeeds);
      assert Ran(c, NEW_BREAKER, before) + [] == Ran(c, NEW_BREAKER, before);
    }
  }

  /** The threshold must be positive: with 0 even a new breaker is closed at a count
      that is not below it. */
  lemma ThresholdMustBePositive(c: Config)
    ensures (forall calls :: CountsRight(c, Run(c, NEW_BREAKER, calls)))
            <==> c.failureThreshold >= 1
  {
    if c.failureThreshold >= 1 {
      forall calls ensures CountsRight(c, Run(c, NEW_BREAKER, calls)) {
        ClosedCountsTheRun(c, calls);
      }
    } else {
      var none: seq<Call> := [];
      assert Run(c, NEW_BREAKER, none) == NEW_BREAKER;
    }
  }

  /** When the last failing call that ran ended; 0 if none did. */
  function LastFailure(c: Config, calls: seq<Call>): (r: nat) {
    if calls == [] then 0
    else
      var before, last := calls[..|calls| - 1], calls[|calls| - 1];
      if Admits(c, Run(c, NEW_BREAKER, before), last.now) && !last.succeeds then last.done else LastFailure(c, before)
  }

  /** Every failure that ran leaves its time, in whatever state, and nothing else does; so
      the next call runs unless the breaker is open and that time is not long enough ago. */
  lemma {:induction false} RunsIff(c: Config, calls: seq<Call>, now: nat)
    ensures Run(c, NEW_BREAKER, calls).lastFailure == LastFailure(c, calls)
    ensures Admits(c, Run(c, NEW_BREAKER, calls), now)
            <==> Run(c, NEW_BREAKER, calls).mode != Open || now >= LastFailure(c, calls) + c.resetTimeoutMs
                 || c.resetTimeoutMs == 0
  {
    if calls != [] {
      RunsIff(c, calls[..|calls| - 1], now);
    }
  }

  /** Until the reset timeout has passed since the last failure, an open breaker runs
      nothing and does not change, however often it is asked. */
  lemma {:induction false} OpenRunsNothing(c: Config, b: Breaker, calls: seq<Call>)
    requires b.mode == Open
    requires forall i :: 0 <= i < |calls| ==> Since(calls[i].now, b.lastFailure) < c.resetTimeoutMs
    ensures Run(c, b, calls) == b && Ran(c, b, calls) == []
  {
    if calls != [] {
      OpenRunsNothing(c, b, calls[..|calls| - 1]);
    }
  }

  /** A failure in the half-open state always reopens, stamped with its time. */
  lemma HalfOpenFailureReopens(c: Config, calls: seq<Call>, call: Call)
    requires c.failureThreshold >= 1 && !call.succeeds
    requires Run(c, NEW_BREAKER, calls).mode != Closed && Admits(c, Run(c, NEW_BREAKER, calls), call.now)
    ensures Run(c, NEW_BREAKER, calls + [call]).mode == Open
    ensures Run(c, NEW_BREAKER, calls + [call]).lastFailure == call.done
  {
    ClosedCountsTheRun(c, calls);
    assert (calls + [call])[..|calls|] == calls;
  }

  function StillNeeded(c: Config, count: nat): (r: nat) {
    if c.successThreshold <= count then 0 else c.successThreshold - count
  }

  /** From half open with count k, successes only count up until max(0, threshold - k)
      of them are in; the next one closes. */
  lemma {:induction false} ClosingTakes(c: Config, b: Breaker, calls: seq<Call>)
    requires b.mode == HalfOpen && forall i :: 0 <= i < |calls| ==> calls[i].succeeds
    ensures |calls| <= StillNeeded(c, b.count) ==> Run(c, b, calls) == b.(count := b.count + |calls|)
    ensures |calls| == StillNeeded(c, b.count) + 1 ==> Run(c, b, calls) == b.(mode := Closed, count := 0)
  {
    if calls != [] {
      ClosingTakes(c, b, calls[..|calls| - 1]);
    }
  }

  /** An open breaker has counted this many failures at least. */
  function OpensAt(c: Config): (r: nat) {
    Max(1, c.failureThreshold)
  }

  lemma {:induction false} OpenHasCounted(c: Config, calls: seq<Call>)
    ensures Run(c, NEW_BREAKER, calls).mode != Closed ==> Run(c, NEW_BREAKER, calls).count >= OpensAt(c)
  {
    if calls != [] {
      OpenHasCounted(c, calls[..|calls| - 1]);
    }
  }

  function Failures(n: nat): (r: seq<Call>)
    ensures |r| == n
  {
    if n == 0 then [] else Failures(n - 1) + [Call(0, 0, false)]
  }

  lemma {:induction false} FailuresOpen(c: Config, n: nat)
    requires n <= OpensAt(c)
    ensures Run(c, NEW_BREAKER, Failures(n)) == Breaker(if n < OpensAt(c) then Closed else Open, n, 0)
  {
    if n > 0 {
      FailuresOpen(c, n - 1);
      assert Failures(n)[..n - 1] == Failures(n - 1);
    }
  }

  /** Some trace leaves the breaker not closed, and a success it then admits does not
      close it. */
  ghost predicate SuccessMayNotClose(c: Config, calls: seq<Call>, call: Call) {
    var b := Run(c, NEW_BREAKER, calls);
    b.mode != Closed && call.succeeds && Admits(c, b, call.now) && Execute(c, b, call).mode != Closed
  }

  /** The failure count is carried into the half-open state: on every trace the first
      success after the timeout closes the breaker, if and only if the success threshold
      is not above the failure threshold (taken as 1 if it is 0). The default
      configuration is of that kind. */
  lemma FirstSuccessClosesIff(c: Config)
    ensures (forall calls, call :: !SuccessMayNotClose(c, calls, call)) <==> c.successThreshold <= OpensAt(c)
  {
    if c.successThreshold <= OpensAt(c) {
      forall calls, call ensures !SuccessMayNotClose(c, calls, call) {
        OpenHasCounted(c, calls);
      }
    } else {
      FailuresOpen(c, OpensAt(c));
      assert SuccessMayNotClose(c, Failures(OpensAt(c)), Call(c.resetTimeoutMs, c.resetTimeoutMs, true));
    }
  }

  // ----- calls that overlap: admission and completion are separate steps

  datatype Shared = Shared(b: Breaker, running: nat)

  datatype Act = Enter(now: nat) | Succeed | Fail(done: nat)

  predicate Enabled(s: Shared, a: Act) {
    a.Enter? || s.running > 0
  }

  function Entered(b: Breaker): (r: Breaker) {
    if b.mode == Open then b.(mode := HalfOpen) else b
  }

  function Apply(c: Config, s: Shared, a: Act): (r: Shared)
    requires Enabled(s, a)
  {
    match a
    case Enter(now) => if Admits(c, s.b, now) then Shared(Entered(s.b), s.running + 1) else s
    case Succeed => Shared(OnSuccess(c, s.b), s.running - 1)
    case Fail(done) => Shared(OnFailure(c, s.b, done), s.running - 1)
  }

  predicate Overlaps(c: Config, s: Shared, acts: seq<Act>)
    decreases |acts|
  {
    acts == [] || (Enabled(s, acts[0]) && Overlaps(c, Apply(c, s, acts[0]), acts[1..]))
  }

  function Exec(c: Config, s: Shared, acts: seq<Act>): (r: Shared)
    requires Overlaps(c, s, acts)
    decreases |acts|
  {
    if acts == [] then s else Exec(c, Apply(c, s, acts[0]), acts[1..])
  }

  /** A call made alone is its admission and then its completion. */
  lemma AloneIsExecute(c: Config, b: Breaker, call: Call)
    requires Admits(c, b, call.now)
    ensures Apply(c, Apply(c, Shared(b, 0), Enter(call.now)), if call.succeeds then Succeed else Fail(call.done))
            == Shared(Execute(c, b, call), 0)
  {
  }

  /** A success that comes in while the breaker is open. */
  predicate Late(s: Shared, a: Act) {
    a.Succeed? && s.b.mode == Open
  }

  lemma StepCountsRightIff(c: Config, s: Shared, a: Act)
    requires c.failureThreshold >= 1 && Enabled(s, a) && CountsRight(c, s.b)
    ensures CountsRight(c, Apply(c, s, a).b) <==> !Late(s, a)
  {
  }

  predicate AlwaysRight(c: Config, s: Shared, acts: seq<Act>)
    requires Overlaps(c, s, acts)
    decreases |acts|
  {
    CountsRight(c, s.b) && (acts == [] || AlwaysRight(c, Apply(c, s, acts[0]), acts[1..]))
  }

  predicate NoneLate(c: Config, s: Shared, acts: seq<Act>)
    requires Overlaps(c, s, acts)
    decreases |acts|
  {
    acts == [] || (!Late(s, acts[0]) && NoneLate(c, Apply(c, s, acts[0]), acts[1..]))
  }

  /** However admissions and completions interleave, the count tells the truth all along if and only if no success
      comes in while the breaker is open. */
  lemma {:induction false} AlwaysRightIffNoneLate(c: Config, s: Shared, acts: seq<Act>)
    requires c.failureThreshold >= 1 && CountsRight(c, s.b) && Overlaps(c, s, acts)
    ensures AlwaysRight(c, s, acts) <==> NoneLate(c, s, acts)
    decreases |acts|
  {
    if acts != [] {
      var s' := Apply(c, s, acts[0]);
      StepCountsRightIff(c, s, acts[0]);
      if CountsRight(c, s'.b) {
        AlwaysRightIffNoneLate(c, s', acts[1..]);
      }
    }
  }

  /** A call is made only when none is running. */
  predicate OneAtATime(c: Config, s: Shared, acts: seq<Act>)
    requires Overlaps(c, s, acts)
    decreases |acts|
  {
    acts == [] || ((acts[0].Enter? ==> s.running == 0) && OneAtATime(c, Apply(c, s, acts[0]), acts[1..]))
  }

  lemma {:induction false} OneAtATimeIsNeverLate(c: Config, s: Shared, acts: seq<Act>)
    requires Overlaps(c, s, acts) && OneAtATime(c, s, acts)
    requires s.running <= 1 && (s.running == 1 ==> s.b.mode != Open)
    ensures NoneLate(c, s, acts)
    decreases |acts|
  {
    if acts != [] {
      OneAtATimeIsNeverLate(c, Apply(c, s, acts[0]), acts[1..]);
    }
  }

  /** What a late success costs, whatever the thresholds and whatever ran before: the
      breaker stays open but forgets its count, and unless the threshold is 1 the first
      failure after the timeout leaves it half open, admitting every call. */
  lemma LateSuccessDisarms(c: Config, s: Shared, now: nat, done: nat)
    requires c.failureThreshold >= 2 && s.running > 0 && Late(s, Succeed) && Admits(c, s.b, now)
    ensures var late := Apply(c, s, Succeed);
            var probe := Apply(c, Apply(c, late, Enter(now)), Fail(done));
            && late.b == Breaker(Open, 0, s.b.lastFailure)
            && probe.b == Breaker(HalfOpen, 1, done)
            && forall t :: Admits(c, probe.b, t)
  {
  }

  function Enters(n: nat): (r: seq<Act>) {
    if n == 0 then [] else [Enter(0)] + Enters(n - 1)
  }

  function Fails(n: nat): (r: seq<Act>) {
    if n == 0 then [] else [Fail(0)] + Fails(n - 1)
  }

  lemma {:induction false} EntersAdmit(c: Config, s: Shared, n: nat, rest: seq<Act>)
    requires s.b.mode == Closed
    ensures Overlaps(c, s, Enters(n) + rest) <==> Overlaps(c, Shared(s.b, s.running + n), rest)
    ensures Overlaps(c, s, Enters(n) + rest) ==>
              Exec(c, s, Enters(n) + rest) == Exec(c, Shared(s.b, s.running + n), rest)
    decreases n
  {
    var acts := Enters(n) + rest;
    if n == 0 {
      assert acts == rest;
    } else {
      assert acts[0] == Enter(0) && acts[1..] == Enters(n - 1) + rest;
      EntersAdmit(c, Shared(s.b, s.running + 1), n - 1, rest);
    }
  }

  lemma {:induction false} FailsOpenIt(c: Config, s: Shared, n: nat)
    requires n <= s.running && (n > 0 ==> s.b.count + n >= c.failureThreshold)
    ensures Overlaps(c, s, Fails(n)) && Exec(c, s, Fails(n)).running == s.running - n
    ensures n > 0 ==> Exec(c, s, Fails(n)).b.mode == Open
    decreases n
  {
    if n > 0 {
      assert Fails(n)[0] == Fail(0) && Fails(n)[1..] == Fails(n - 1);
      FailsOpenIt(c, Apply(c, s, Fail(0)), n - 1);
    }
  }

  /** Such a success can come in whatever the thresholds: one call more than the failure
      threshold is admitted, all but one fail. */
  lemma LateSuccessHappens(c: Config)
    requires c.failureThreshold >= 1
    ensures var acts := Enters(c.failureThreshold + 1) + Fails(c.failureThreshold);
            && Overlaps(c, Shared(NEW_BREAKER, 0), acts)
            && Exec(c, Shared(NEW_BREAKER, 0), acts).running == 1
            && Late(Exec(c, Shared(NEW_BREAKER, 0), acts), Succeed)
  {
    var n := c.failureThreshold;
    EntersAdmit(c, Shared(NEW_BREAKER, 0), n + 1, Fails(n));
    FailsOpenIt(c, Shared(NEW_BREAKER, n + 1), n);
  }

  class CircuitBreaker {
    const config: Config
    var state: Mode
    var failureCount: nat
    var lastFailure: nat

    ghost function View(): Breaker
      reads this
    {
      Breaker(state, failureCount, lastFailure)
    }

    constructor (config: Config)
      ensures this.config == config && View() == NEW_BREAKER
    {
      this.config := config;
      state, failureCount, lastFailure := Closed, 0, 0;
    }

    /** `ran` is whether the operation was started at all. */
    method ExecuteCall(call: Call) returns (ran: bool)
      modifies this
      ensures View() == Execute(config, old(View()), call)
      ensures ran <==> Admits(config, old(View()), call.now)
      ensures ran <==> old(state) != Open || call.now >= old(lastFailure) + config.resetTimeoutMs
                       || config.resetTimeoutMs == 0
      ensures lastFailure == if ran && !call.succeeds then call.done else old(lastFailure)
      ensures !ran ==> state == old(state) && failureCount == old(failureCount)
      ensures ran && !call.succeeds ==>
                failureCount == old(failureCount) + 1
                && (failureCount >= config.failureThreshold ==> state == Open)
                && (failureCount < config.failureThreshold ==>
                      state == if old(state) == Closed then Closed else HalfOpen)
      ensures ran && call.succeeds ==>
                state == (if old(state) == Closed || old(failureCount) >= config.successThreshold then Closed
                          else HalfOpen)
                && failureCount == if state == Closed then 0 else old(failureCount) + 1
    {
      if state == Open {
        if Since(call.now, lastFailure) >= config.resetTimeoutMs {
          state := HalfOpen;
        } else {
          return false;
        }
      }
      if call.succeeds {
        if state == HalfOpen {
          if failureCount >= config.successThreshold {
            state, failureCount := Closed, 0;
          } else {
            failureCount := failureCount + 1;
          }
        } else {
          failureCount := 0;
        }
      } else {
        failureCount := failureCount + 1;
        lastFailure := call.done;
        if failureCount >= config.failureThreshold {
          state := Open;
        }
      }
      ran := true;
    }
  }
}
