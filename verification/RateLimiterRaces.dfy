/** The token bucket shared by tasks, at the grain of its atomic accesses: a refill
    loads the last refill time, loads the tokens, swaps in the new amount and only then
    stores the time. */
module RateLimiterRaces {
  import opened Basics
  import RateLimiter

  datatype Pc =
    | Idle
    | Timed(now: nat)
    | SawLast(now: nat, last: nat)
    | SawTokens(now: nat, last: nat, current: nat)
    | Crediting(now: nat)
    | Ready
    | SawBalance(cost: nat, current: nat)

  /** `granted` counts tokens handed out, `credited` is the latest time tokens were added
      for, `paid` the milliseconds all refills together were worth; the three are
      history, not fields of the bucket. */
  datatype State = State(
    capacity: nat, rate: nat, tokens: nat, last: nat, clock: nat,
    granted: nat, credited: nat, paid: nat, tasks: seq<Pc>)

  datatype Act =
    | Advance(ms: nat)
    | ReadClock(t: nat)
    | LoadLast(t: nat)
    | LoadTokens(t: nat)
    | SwapTokens(t: nat)
    | StoreLast(t: nat)
    | LoadBalance(t: nat, cost: nat)
    | Take(t: nat)

  predicate Enabled(s: State, a: Act) {
    a.Advance? || (a.t < |s.tasks| &&
      var pc := s.tasks[a.t];
      match a
      case ReadClock(_) => pc.Idle?
      case LoadLast(_) => pc.Timed?
      case LoadTokens(_) => pc.SawLast?
      case SwapTokens(_) => pc.SawTokens?
      case StoreLast(_) => pc.Crediting?
      case LoadBalance(_, _) => pc.Ready?
      case Take(_) => pc.SawBalance?)
  }

  function Tokens(ms: nat, rate: nat): (r: nat)
    ensures 1000 * r <= ms * rate
  {
    var earned: nat := ms * rate;
    earned / 1000
  }

  function Elapsed(pc: Pc): (r: nat)
    requires pc.SawTokens?
  {
    if pc.now > pc.last then pc.now - pc.last else 0
  }

  /** A compare-and-swap that finds another value than the one loaded changes nothing. */
  function Apply(s: State, a: Act): (r: State)
    requires Enabled(s, a)
  {
    if a.Advance? then s.(clock := s.clock + a.ms)
    else
      var pc := s.tasks[a.t];
      match a
      case ReadClock(t) => s.(tasks := s.tasks[t := Timed(s.clock)])
      case LoadLast(t) => s.(tasks := s.tasks[t := if pc.now > s.last then SawLast(pc.now, s.last) else Ready])
      case LoadTokens(t) => s.(tasks := s.tasks[t := SawTokens(pc.now, pc.last, s.tokens)])
      case SwapTokens(t) =>
        if s.tokens == pc.current then
          var elapsed := Elapsed(pc);
          s.(tokens := Min(pc.current + Tokens(elapsed, s.rate), s.capacity),
             credited := Max(s.credited, pc.now), paid := s.paid + elapsed, tasks := s.tasks[t := Crediting(pc.now)])
        else s.(tasks := s.tasks[t := Ready])
      case StoreLast(t) => s.(last := pc.now, tasks := s.tasks[t := Ready])
      case LoadBalance(t, cost) =>
        s.(tasks := s.tasks[t := if s.tokens >= cost then SawBalance(cost, s.tokens) else Idle])
      case Take(t) =>
        if s.tokens == pc.current && pc.cost <= pc.current then
          s.(tokens := s.tokens - pc.cost, granted := s.granted + pc.cost, tasks := s.tasks[t := Idle])
        else s.(tasks := s.tasks[t := Ready])
  }

  predicate Run(s: State, acts: seq<Act>)
    decreases |acts|
  {
    acts == [] || (Enabled(s, acts[0]) && Run(Apply(s, acts[0]), acts[1..]))
  }

  function Exec(s: State, acts: seq<Act>): (r: State)
    requires Run(s, acts)
    decreases |acts|
  {
    if acts == [] then s else Exec(Apply(s, acts[0]), acts[1..])
  }

  /** A refill that goes through must have loaded the latest credited time. */
  predicate Fresh(s: State, a: Act)
    requires Enabled(s, a)
  {
    a.SwapTokens? && s.tokens == s.tasks[a.t].current ==> s.tasks[a.t].last == s.credited
  }

  predicate FreshRun(s: State, acts: seq<Act>)
    requires Run(s, acts)
    decreases |acts|
  {
    acts == [] || (Fresh(s, acts[0]) && FreshRun(Apply(s, acts[0]), acts[1..]))
  }

  // ----- what every access keeps, fresh or not

  predicate PcOrdered(pc: Pc, credited: nat, clock: nat) {
    match pc
    case Timed(now) => now <= clock
    case SawLast(now, last) => last < now <= clock && last <= credited
    case SawTokens(now, last, _) => last < now <= clock && last <= credited
    case Crediting(now) => now <= credited
    case _ => true
  }

  ghost predicate Ordered(s: State) {
    && s.last <= s.credited <= s.clock
    && forall i :: 0 <= i < |s.tasks| ==> PcOrdered(s.tasks[i], s.credited, s.clock)
  }

  lemma StepOrdered(s: State, a: Act)
    requires Ordered(s) && Enabled(s, a)
    ensures Ordered(Apply(s, a))
  {
    var r := Apply(s, a);
    if !a.Advance? {
      assert PcOrdered(s.tasks[a.t], s.credited, s.clock);
      assert PcOrdered(r.tasks[a.t], r.credited, r.clock);
    }
    forall i | 0 <= i < |r.tasks|
      ensures PcOrdered(r.tasks[i], r.credited, r.clock)
    {
      assert PcOrdered(s.tasks[i], s.credited, s.clock);
      if a.Advance? || i != a.t {
        assert r.tasks[i] == s.tasks[i];
      }
    }
  }

  /** Tokens granted and left are worth at most the time paid for. */
  ghost predicate WithinPaid(s: State, initial: nat) {
    1000 * (s.granted + s.tokens - initial) <= s.paid * s.rate
  }

  lemma Adds(x: int, y: int, n: int)
    ensures x * n + y * n == (x + y) * n
  {
  }

  lemma StepWithinPaid(s: State, a: Act, initial: nat)
    requires WithinPaid(s, initial) && Enabled(s, a)
    ensures WithinPaid(Apply(s, a), initial) && Apply(s, a).rate == s.rate
  {
    if a.SwapTokens? {
      Adds(Elapsed(s.tasks[a.t]), s.paid, s.rate);
    }
  }

  /** Time paid for beyond the time credited since `start`. */
  function Excess(s: State, start: nat): (r: int) {
    s.paid - (s.credited - start)
  }

  /** The account of one step: nothing is paid twice exactly if the step is fresh. */
  lemma StepPaysOnceIffFresh(s: State, a: Act, start: nat)
    requires Ordered(s) && Enabled(s, a)
    ensures Excess(Apply(s, a), start) >= Excess(s, start)
    ensures Excess(Apply(s, a), start) == Excess(s, start) <==> Fresh(s, a)
  {
    if a.SwapTokens? {
      assert PcOrdered(s.tasks[a.t], s.credited, s.clock);
    }
  }

  lemma {:induction false} RunPays(s: State, acts: seq<Act>, initial: nat, start: nat)
    requires Ordered(s) && WithinPaid(s, initial) && Run(s, acts)
    ensures Ordered(Exec(s, acts)) && WithinPaid(Exec(s, acts), initial)
    ensures Exec(s, acts).rate == s.rate
    ensures Excess(Exec(s, acts), start) >= Excess(s, start)
    ensures Excess(Exec(s, acts), start) == Excess(s, start) <==> FreshRun(s, acts)
    decreases |acts|
  {
    if acts != [] {
      StepOrdered(s, acts[0]);
      StepWithinPaid(s, acts[0], initial);
      StepPaysOnceIffFresh(s, acts[0], start);
      RunPays(Apply(s, acts[0]), acts[1..], initial, start);
    }
  }

  function Shared(capacity: nat, rate: nat, tokens: nat, now: nat, tasks: nat): (r: State) {
    State(capacity, rate, tokens, now, now, 0, now, 0, seq(tasks, _ => Idle))
  }

  /** In every interleaving the tokens granted and left are worth at most the time paid
      for, and the time paid for is the time credited if and only if every refill that
      went through was fresh; otherwise it is more. */
  lemma TimePaidOnceIffFresh(capacity: nat, rate: nat, tokens: nat, now: nat, tasks: nat, acts: seq<Act>)
    requires Run(Shared(capacity, rate, tokens, now, tasks), acts)
    ensures var e := Exec(Shared(capacity, rate, tokens, now, tasks), acts);
            && now <= e.credited <= e.clock
            && 1000 * (e.granted + e.tokens - tokens) <= e.paid * rate
            && e.paid >= e.credited - now
            && (e.paid == e.credited - now <==> FreshRun(Shared(capacity, rate, tokens, now, tasks), acts))
  {
    var s := Shared(capacity, rate, tokens, now, tasks);
    RunPays(s, acts, tokens, now);
    CreditedGrows(s, acts);
  }

  lemma {:induction false} CreditedGrows(s: State, acts: seq<Act>)
    requires Run(s, acts)
    ensures Exec(s, acts).credited >= s.credited
    decreases |acts|
  {
    if acts != [] {
      CreditedGrows(Apply(s, acts[0]), acts[1..]);
    }
  }

  /** In every interleaving whose refills are fresh, the tokens granted and left never
      exceed the initial ones plus the rate times the time passed. */
  lemma SharedBucketKeepsRate(capacity: nat, rate: nat, tokens: nat, now: nat, tasks: nat, acts: seq<Act>)
    requires Run(Shared(capacity, rate, tokens, now, tasks), acts)
    requires FreshRun(Shared(capacity, rate, tokens, now, tasks), acts)
    ensures var e := Exec(Shared(capacity, rate, tokens, now, tasks), acts);
            e.clock >= now && 1000 * (e.granted + e.tokens - tokens) <= (e.clock - now) * rate
  {
    TimePaidOnceIffFresh(capacity, rate, tokens, now, tasks, acts);
    var e := Exec(Shared(capacity, rate, tokens, now, tasks), acts);
    Scaled(e.paid, e.clock - now, rate);
  }

  // ----- when nothing is rounded or capped, tokens are time: the bound is exact

  /** The capacity cuts no refill short. */
  predicate Uncapped(s: State, a: Act)
    requires Enabled(s, a)
  {
    a.SwapTokens? && s.tokens == s.tasks[a.t].current ==>
      s.tokens + Tokens(Elapsed(s.tasks[a.t]), s.rate) <= s.capacity
  }

  predicate UncappedRun(s: State, acts: seq<Act>)
    requires Run(s, acts)
    decreases |acts|
  {
    acts == [] || (Uncapped(s, acts[0]) && UncappedRun(Apply(s, acts[0]), acts[1..]))
  }

  lemma WholeTokens(ms: nat, perMs: nat)
    ensures Tokens(ms, 1000 * perMs) == ms * perMs
  {
    assert ms * (1000 * perMs) == 1000 * (ms * perMs);
  }

  lemma TokensStayTime(s: State, a: Act, initial: nat, perMs: nat)
    requires s.rate == 1000 * perMs && s.granted + s.tokens - initial == s.paid * perMs
    requires Enabled(s, a) && Uncapped(s, a)
    ensures var r := Apply(s, a); r.rate == s.rate && r.granted + r.tokens - initial == r.paid * perMs
  {
    if a.SwapTokens? && s.tokens == s.tasks[a.t].current {
      var pc, r := s.tasks[a.t], Apply(s, a);
      var elapsed := Elapsed(pc);
      WholeTokens(elapsed, perMs);
      Adds(elapsed, s.paid, perMs);
      assert r.paid == elapsed + s.paid;
    }
  }

  lemma {:induction false} TokensAreTime(s: State, acts: seq<Act>, initial: nat, perMs: nat)
    requires s.rate == 1000 * perMs && s.granted + s.tokens - initial == s.paid * perMs
    requires Run(s, acts) && UncappedRun(s, acts)
    ensures var e := Exec(s, acts); e.granted + e.tokens - initial == e.paid * perMs
    decreases |acts|
  {
    if acts != [] {
      TokensStayTime(s, acts[0], initial, perMs);
      TokensAreTime(Apply(s, acts[0]), acts[1..], initial, perMs);
    }
  }

  /** With a whole number of tokens a millisecond and no refill cut short, the tokens
      stay within the rate times the credited time if and only if the run is fresh. */
  lemma RateKeptIffFresh(capacity: nat, perMs: nat, tokens: nat, now: nat, tasks: nat, acts: seq<Act>)
    requires perMs > 0
    requires Run(Shared(capacity, 1000 * perMs, tokens, now, tasks), acts)
    requires UncappedRun(Shared(capacity, 1000 * perMs, tokens, now, tasks), acts)
    ensures var s := Shared(capacity, 1000 * perMs, tokens, now, tasks);
            var e := Exec(s, acts);
            e.credited >= now && (e.granted + e.tokens - tokens <= (e.credited - now) * perMs <==> FreshRun(s, acts))
  {
    var s := Shared(capacity, 1000 * perMs, tokens, now, tasks);
    TimePaidOnceIffFresh(capacity, 1000 * perMs, tokens, now, tasks, acts);
    TokensAreTime(s, acts, tokens, perMs);
    var e := Exec(s, acts);
    if e.paid > e.credited - now {
      Scaled(e.credited - now + 1, e.paid, perMs);
      Adds(1, e.credited - now, perMs);
    }
  }

  // ----- a lock around try_acquire

  /** A task enters try_acquire only while no other is inside. */
  predicate Locked(s: State, a: Act) {
    a.ReadClock? ==> forall i :: 0 <= i < |s.tasks| ==> s.tasks[i].Idle?
  }

  predicate LockedRun(s: State, acts: seq<Act>)
    requires Run(s, acts)
    decreases |acts|
  {
    acts == [] || (Locked(s, acts[0]) && LockedRun(Apply(s, acts[0]), acts[1..]))
  }

  predicate OneInside(s: State) {
    forall i, j :: 0 <= i < |s.tasks| && 0 <= j < |s.tasks| && !s.tasks[i].Idle? && !s.tasks[j].Idle? ==> i == j
  }

  /** The stored time is the credited one, except while the one task inside owes the store. */
  predicate Settled(s: State) {
    && (s.last == s.credited || exists i :: 0 <= i < |s.tasks| && s.tasks[i].Crediting?)
    && forall i :: 0 <= i < |s.tasks| ==>
         && (s.tasks[i].SawLast? || s.tasks[i].SawTokens? ==> s.tasks[i].last == s.credited)
         && (s.tasks[i].Crediting? ==> s.tasks[i].now == s.credited)
  }

  lemma LockedStep(s: State, a: Act)
    requires Ordered(s) && OneInside(s) && Settled(s) && Enabled(s, a) && Locked(s, a)
    ensures Fresh(s, a) && OneInside(Apply(s, a)) && Settled(Apply(s, a))
  {
    var r := Apply(s, a);
    if !a.Advance? {
      assert forall i :: 0 <= i < |s.tasks| && i != a.t ==> s.tasks[i].Idle? && r.tasks[i].Idle?;
      assert PcOrdered(s.tasks[a.t], s.credited, s.clock);
      assert s.tasks[a.t].Crediting? || s.last == s.credited;
      assert r.tasks[a.t].Crediting? || r.last == r.credited;
    }
  }

  lemma {:induction false} LockedIsFresh(s: State, acts: seq<Act>)
    requires Ordered(s) && OneInside(s) && Settled(s) && Run(s, acts) && LockedRun(s, acts)
    ensures FreshRun(s, acts)
    decreases |acts|
  {
    if acts != [] {
      StepOrdered(s, acts[0]);
      LockedStep(s, acts[0]);
      LockedIsFresh(Apply(s, acts[0]), acts[1..]);
    }
  }

  /** What callers that hold a lock across try_acquire get. */
  lemma LockedBucketKeepsRate(capacity: nat, rate: nat, tokens: nat, now: nat, tasks: nat, acts: seq<Act>)
    requires Run(Shared(capacity, rate, tokens, now, tasks), acts)
    requires LockedRun(Shared(capacity, rate, tokens, now, tasks), acts)
    ensures FreshRun(Shared(capacity, rate, tokens, now, tasks), acts)
    ensures var e := Exec(Shared(capacity, rate, tokens, now, tasks), acts);
            e.clock >= now && 1000 * (e.granted + e.tokens - tokens) <= (e.clock - now) * rate
  {
    LockedIsFresh(Shared(capacity, rate, tokens, now, tasks), acts);
    SharedBucketKeepsRate(capacity, rate, tokens, now, tasks, acts);
  }

  lemma {:induction false} Steps(s: State, acts: seq<Act>, states: seq<State>)
    requires |states| == |acts| + 1 && states[0] == s
    requires forall i :: 0 <= i < |acts| ==> Enabled(states[i], acts[i]) && states[i + 1] == Apply(states[i], acts[i])
    ensures Run(s, acts) && Exec(s, acts) == states[|acts|]
    decreases |acts|
  {
    if acts != [] {
      Steps(states[1], acts[1..], states[1..]);
    }
  }

  lemma {:induction false} Joined(s: State, a: seq<Act>, b: seq<Act>)
    requires Run(s, a) && Run(Exec(s, a), b)
    ensures Run(s, a + b) && Exec(s, a + b) == Exec(Exec(s, a), b)
    decreases |a|
  {
    if a == [] {
      assert a + b == b;
    } else {
      Joined(Apply(s, a[0]), a[1..], b);
      assert (a + b)[1..] == a[1..] + b;
    }
  }

  // ----- one task alone

  function BucketOf(s: State): (r: RateLimiter.Bucket) {
    RateLimiter.Bucket(s.tokens, s.capacity, s.rate, s.last)
  }

  lemma RefillAlone(s: State, t: nat) returns (acts: seq<Act>)
    requires t < |s.tasks| && s.tasks[t] == Idle
    ensures Run(s, acts)
    ensures var r, f := Exec(s, acts), RateLimiter.Refill(BucketOf(s), s.clock);
            && BucketOf(r) == f && r.clock == s.clock && r.granted == s.granted && r.tasks == s.tasks[t := Ready]
  {
    var s1 := s.(tasks := s.tasks[t := Timed(s.clock)]);
    if s.clock <= s.last {
      var s2 := s.(tasks := s.tasks[t := Ready]);
      acts := [ReadClock(t), LoadLast(t)];
      Steps(s, acts, [s, s1, s2]);
    } else {
      var s2 := s.(tasks := s.tasks[t := SawLast(s.clock, s.last)]);
      var s3 := s.(tasks := s.tasks[t := SawTokens(s.clock, s.last, s.tokens)]);
      var s4 := Apply(s3, SwapTokens(t));
      assert s4.tasks == s.tasks[t := Crediting(s.clock)];
      var s5 := Apply(s4, StoreLast(t));
      acts := [ReadClock(t), LoadLast(t), LoadTokens(t), SwapTokens(t), StoreLast(t)];
      Steps(s, acts, [s, s1, s2, s3, s4, s5]);
      assert s5.tasks == s.tasks[t := Ready];
    }
  }

  lemma TakeAlone(s: State, t: nat, cost: nat) returns (acts: seq<Act>)
    requires t < |s.tasks| && s.tasks[t] == Ready
    ensures Run(s, acts)
    ensures var r, ok := Exec(s, acts), cost <= s.tokens;
            && BucketOf(r) == BucketOf(s).(tokens := if ok then s.tokens - cost else s.tokens)
            && r.granted == s.granted + (if ok then cost else 0) && r.tasks == s.tasks[t := Idle]
  {
    if cost <= s.tokens {
      var s1 := s.(tasks := s.tasks[t := SawBalance(cost, s.tokens)]);
      var s2 := Apply(s1, Take(t));
      acts := [LoadBalance(t, cost), Take(t)];
      Steps(s, acts, [s, s1, s2]);
      assert s2.tasks == s.tasks[t := Idle];
    } else {
      acts := [LoadBalance(t, cost)];
      Steps(s, acts, [s, s.(tasks := s.tasks[t := Idle])]);
    }
  }

  /** A task that nobody interrupts polls the bucket just as the sequential one. */
  lemma AloneIsPoll(s: State, t: nat, cost: nat) returns (acts: seq<Act>)
    requires t < |s.tasks| && s.tasks[t] == Idle
    ensures Run(s, acts)
    ensures var r, (b, ok) := Exec(s, acts), RateLimiter.Poll(BucketOf(s), cost, s.clock);
            BucketOf(r) == b && r.granted == s.granted + (if ok then cost else 0) && r.tasks == s.tasks
  {
    var refill := RefillAlone(s, t);
    var f := Exec(s, refill);
    var take := TakeAlone(f, t, cost);
    Joined(s, refill, take);
    acts := refill + take;
    assert f.tasks[t := Idle] == s.tasks;
  }

  /** One token a second, empty, with two tasks. */
  const EMPTY := Shared(10, 1, 0, 0, 2)

  const FIRST_REFILL: seq<Act> :=
    [Advance(1000)] + [ReadClock(0), LoadLast(0), LoadTokens(0)] + [SwapTokens(0)]

  const SECOND_REFILL: seq<Act> := [ReadClock(1), LoadLast(1), LoadTokens(1), SwapTokens(1)]

  function Credited(tokens: nat, first: Pc, second: Pc): (r: State) {
    State(10, 1, tokens, 0, 1000, 0, 1000, 1000 * tokens, [first, second])
  }

  lemma FirstLoads(s1: State, loaded: State)
    requires s1 == EMPTY.(clock := 1000) && loaded == s1.(tasks := [SawTokens(1000, 0, 0), Idle])
    ensures Run(s1, [ReadClock(0), LoadLast(0), LoadTokens(0)])
    ensures Exec(s1, [ReadClock(0), LoadLast(0), LoadTokens(0)]) == loaded
  {
    assert EMPTY.tasks == [Idle, Idle];
    var s2 := s1.(tasks := [Timed(1000), Idle]);
    var s3 := s1.(tasks := [SawLast(1000, 0), Idle]);
    Steps(s1, [ReadClock(0), LoadLast(0), LoadTokens(0)], [s1, s2, s3, loaded]);
  }

  lemma FirstRefill()
    ensures Run(EMPTY, FIRST_REFILL) && Exec(EMPTY, FIRST_REFILL) == Credited(1, Crediting(1000), Idle)
  {
    assert EMPTY.tasks == [Idle, Idle];
    assert Tokens(1000, 1) == 1;
    var s1 := EMPTY.(clock := 1000);
    var loaded := s1.(tasks := [SawTokens(1000, 0, 0), Idle]);
    FirstLoads(s1, loaded);
    Steps(EMPTY, [Advance(1000)], [EMPTY, s1]);
    Steps(loaded, [SwapTokens(0)], [loaded, Credited(1, Crediting(1000), Idle)]);
    Joined(EMPTY, [Advance(1000)], [ReadClock(0), LoadLast(0), LoadTokens(0)]);
    Joined(EMPTY, [Advance(1000)] + [ReadClock(0), LoadLast(0), LoadTokens(0)], [SwapTokens(0)]);
  }

  lemma SecondRefill()
    ensures Run(Credited(1, Crediting(1000), Idle), SECOND_REFILL)
    ensures Exec(Credited(1, Crediting(1000), Idle), SECOND_REFILL) == Credited(2, Crediting(1000), Crediting(1000))
  {
    assert Tokens(1000, 1) == 1;
    var first := Crediting(1000);
    Steps(Credited(1, first, Idle), SECOND_REFILL,
          [Credited(1, first, Idle), Credited(1, first, Timed(1000)), Credited(1, first, SawLast(1000, 0)),
           Credited(1, first, SawTokens(1000, 0, 1)), Credited(2, first, Crediting(1000))]);
  }

  /** Overlapping refills credit the same second twice: one token a second yields two
      after one second. */
  lemma OverlappingRefillsExceedRate()
    ensures Run(EMPTY, FIRST_REFILL + SECOND_REFILL)
    ensures var e := Exec(EMPTY, FIRST_REFILL + SECOND_REFILL);
            e.tokens == 2 && e.clock == 1000 && 1000 * (e.granted + e.tokens) > e.clock * e.rate
  {
    FirstRefill();
    SecondRefill();
    Joined(EMPTY, FIRST_REFILL, SECOND_REFILL);
  }
}
