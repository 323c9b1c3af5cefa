/** The counters of one wallet at the grain of their single atomic accesses: reservations
    (which read and bump the counter under the queue's lock), returns, and the unlocked
    reads and stores of handle_nonce_error and initialize. */
module NonceRaces {
  import opened Basics
  import opened NonceModel

  /** A reservation is Reserving, then Loaded (lock held, counter read), then Holding. A
      correction is Correcting, then Seen (counter read, store still to come); initialize
      is Syncing, then SawCached, then SawBoth (both counters read). Either ends by
      storing the confirmed counter. */
  datatype Pc =
    | Reserving
    | Loaded(n: nat)
    | Holding(n: nat)
    | Sent(n: nat)
    | Correcting(target: nat)
    | Seen(target: nat, was: nat)
    | Syncing(target: nat)
    | SawCached(target: nat, was: nat)
    | SawBoth(target: nat, was: nat, confirmed: nat)
    | Confirming(value: nat)
    | Done

  datatype State = State(cached: nat, confirmed: nat, queue: seq<nat>, tasks: seq<Pc>)

  /** Confirm is the store of any confirmation, whatever it loaded before. */
  datatype Act =
    | Begin(t: nat)
    | Bump(t: nat)
    | Send(t: nat)
    | GiveBack(t: nat)
    | Look(t: nat)
    | LookConfirmed(t: nat)
    | Store(t: nat)
    | StoreConfirmed(t: nat)
    | Confirm(t: nat, value: nat)

  /** The queue's lock is taken exactly while some reservation is between its read and
      its bump. */
  ghost predicate LockFree(s: State) {
    forall i :: 0 <= i < |s.tasks| ==> !s.tasks[i].Loaded?
  }

  ghost predicate Enabled(s: State, a: Act) {
    && a.t < |s.tasks|
    && var pc := s.tasks[a.t];
    match a
    case Begin(_) => pc.Reserving? && LockFree(s)
    case Bump(_) => pc.Loaded?
    case Send(_) => pc.Holding?
    case GiveBack(_) => pc.Holding? && LockFree(s)
    case Look(_) => pc.Correcting? || pc.Syncing?
    case LookConfirmed(_) => pc.SawCached?
    case Store(_) => pc.Seen? || pc.SawBoth?
    case StoreConfirmed(_) => pc.Confirming?
    case Confirm(_, _) => pc.Sent?
  }

  /** The test made before the store, on the values read. */
  predicate WillStore(pc: Pc)
    requires pc.Seen? || pc.SawBoth?
  {
    pc.target > pc.was || (pc.SawBoth? && pc.target > pc.confirmed)
  }

  function Apply(s: State, a: Act): (r: State)
    requires a.t < |s.tasks|
  {
    var pc := s.tasks[a.t];
    match a
    case Begin(t) =>
      if s.queue != [] then s.(queue := s.queue[1..], tasks := s.tasks[t := Holding(s.queue[0])])
      else if s.cached == 0 then s.(tasks := s.tasks[t := Done])
      else s.(tasks := s.tasks[t := Loaded(s.cached)])
    case Bump(t) =>
      if pc.Loaded? then s.(cached := Increment(s.cached), tasks := s.tasks[t := Holding(pc.n)]) else s
    case Send(t) => if pc.Holding? then s.(tasks := s.tasks[t := Sent(pc.n)]) else s
    case GiveBack(t) =>
      if pc.Holding? then s.(queue := Enqueue(s.queue, pc.n), tasks := s.tasks[t := Done])
      else s
    case Look(t) =>
      if pc.Correcting? then s.(tasks := s.tasks[t := Seen(pc.target, s.cached)])
      else if pc.Syncing? then s.(tasks := s.tasks[t := SawCached(pc.target, s.cached)])
      else s
    case LookConfirmed(t) =>
      if pc.SawCached? then s.(tasks := s.tasks[t := SawBoth(pc.target, pc.was, s.confirmed)]) else s
    case Store(t) =>
      if !pc.Seen? && !pc.SawBoth? then s
      else
        s.(cached := if WillStore(pc) then pc.target else s.cached,
           tasks := s.tasks[t := if pc.SawBoth? && !WillStore(pc) then Done else Confirming(Pred(pc.target))])
    case StoreConfirmed(t) =>
      if pc.Confirming? then s.(confirmed := pc.value, tasks := s.tasks[t := Done]) else s
    case Confirm(_, value) => s.(confirmed := value)
  }

  predicate Owns(pc: Pc) {
    pc.Loaded? || pc.Holding? || pc.Sent?
  }

  /** No nonce is with two tasks, or with a task and in the queue, or twice in the queue;
      whatever was handed out lies below the counter; one reservation at most is mid-way. */
  ghost predicate Safe(s: State) {
    && (forall i, j :: 0 <= i < j < |s.tasks| && Owns(s.tasks[i]) && Owns(s.tasks[j]) ==> s.tasks[i].n != s.tasks[j].n)
    && (forall i :: 0 <= i < |s.tasks| && Owns(s.tasks[i]) ==>
          s.tasks[i].n !in s.queue && s.tasks[i].n <= s.cached && (s.tasks[i].n == s.cached ==> s.tasks[i].Loaded?))
    && (forall i, j :: 0 <= i < j < |s.queue| ==> s.queue[i] != s.queue[j])
    && (forall n :: n in s.queue ==> n < s.cached)
    && (forall i, j :: 0 <= i < j < |s.tasks| ==> !(s.tasks[i].Loaded? && s.tasks[j].Loaded?))
  }

  /** The step stores the counter. */
  predicate Stores(s: State, a: Act) {
    a.Store? && a.t < |s.tasks| && (s.tasks[a.t].Seen? || s.tasks[a.t].SawBoth?) && WillStore(s.tasks[a.t])
  }

  /** A store is calm when it does not pull the counter back under a nonce in play, a bump
      when the counter does not wrap. */
  ghost predicate Calm(s: State, a: Act) {
    && (Stores(s, a) ==>
          var target := s.tasks[a.t].target;
          && (forall n :: n in s.queue ==> n < target)
          && (forall i :: 0 <= i < |s.tasks| && Owns(s.tasks[i]) ==>
                s.tasks[i].n < target || (s.tasks[i].n == target && s.tasks[i].Loaded?)))
    && (a.Bump? ==> s.cached + 1 != TWO_64)
  }

  /** Every atomic step keeps exclusivity, except exactly those that are not calm. */
  lemma StepIsSafeIffCalm(s: State, a: Act)
    requires Safe(s) && Enabled(s, a)
    ensures Safe(Apply(s, a)) <==> Calm(s, a)
  {
    match a
    case Begin(t) => BeginIsSafe(s, t);
    case Bump(t) => BumpIsSafeIffCalm(s, t);
    case GiveBack(t) => GiveBackIsSafe(s, t);
    case Store(t) => StoreIsSafeIffCalm(s, t);
    case Confirm(t, value) =>
    case _ => QuietIsSafe(s, a);
  }

  lemma BeginIsSafe(s: State, t: nat)
    requires Safe(s) && Enabled(s, Begin(t))
    ensures Safe(Apply(s, Begin(t)))
  {
    var r := Apply(s, Begin(t));
    assert forall i :: 0 <= i < |s.tasks| && i != t ==> r.tasks[i] == s.tasks[i];
    if s.queue != [] {
      assert s.queue[0] in s.queue && s.queue[0] !in r.queue;
      assert forall n :: n in r.queue ==> n in s.queue;
    }
  }

  lemma BumpIsSafeIffCalm(s: State, t: nat)
    requires Safe(s) && Enabled(s, Bump(t))
    ensures Safe(Apply(s, Bump(t))) <==> Calm(s, Bump(t))
  {
    var r := Apply(s, Bump(t));
    assert forall i :: 0 <= i < |s.tasks| && i != t ==> r.tasks[i] == s.tasks[i];
    assert r.tasks[t] == Holding(s.tasks[t].n);
  }

  lemma GiveBackIsSafe(s: State, t: nat)
    requires Safe(s) && Enabled(s, GiveBack(t))
    ensures Safe(Apply(s, GiveBack(t)))
  {
    var r := Apply(s, GiveBack(t));
    assert forall i :: 0 <= i < |s.tasks| && i != t ==> r.tasks[i] == s.tasks[i];
    assert forall n :: n in r.queue <==> n in s.queue || n == s.tasks[t].n;
  }

  lemma StoreIsSafeIffCalm(s: State, t: nat)
    requires Safe(s) && Enabled(s, Store(t))
    ensures Safe(Apply(s, Store(t))) <==> Calm(s, Store(t))
  {
    var r := Apply(s, Store(t));
    assert forall i :: 0 <= i < |s.tasks| && i != t ==> r.tasks[i] == s.tasks[i];
    assert !Owns(r.tasks[t]);
  }

  /** Steps that touch neither the counter nor the queue. */
  lemma QuietIsSafe(s: State, a: Act)
    requires Safe(s) && Enabled(s, a) && (a.Send? || a.Look? || a.LookConfirmed? || a.StoreConfirmed?)
    ensures Safe(Apply(s, a))
  {
    var r := Apply(s, a);
    assert forall i :: 0 <= i < |s.tasks| && i != a.t ==> r.tasks[i] == s.tasks[i];
  }

  ghost predicate Run(s: State, acts: seq<Act>)
    decreases |acts|
  {
    acts == [] || (Enabled(s, acts[0]) && Run(Apply(s, acts[0]), acts[1..]))
  }

  ghost predicate CalmRun(s: State, acts: seq<Act>)
    requires Run(s, acts)
    decreases |acts|
  {
    acts == [] || (Calm(s, acts[0]) && CalmRun(Apply(s, acts[0]), acts[1..]))
  }

  ghost function Exec(s: State, acts: seq<Act>): (r: State)
    requires Run(s, acts)
    decreases |acts|
  {
    if acts == [] then s else Exec(Apply(s, acts[0]), acts[1..])
  }

  lemma {:induction false} CalmRunsAreSafe(s: State, acts: seq<Act>)
    requires Safe(s) && Run(s, acts) && CalmRun(s, acts)
    ensures Safe(Exec(s, acts))
    decreases |acts|
  {
    if acts != [] {
      StepIsSafeIffCalm(s, acts[0]);
      CalmRunsAreSafe(Apply(s, acts[0]), acts[1..]);
    }
  }

  // ----- a condition the code could test

  /** No store lowers the counter as it stands, and no bump wraps it: a compare at the
      store itself, as an atomic maximum makes it. */
  ghost predicate Upward(s: State, a: Act) {
    && (Stores(s, a) ==> s.tasks[a.t].target >= s.cached)
    && (a.Bump? ==> s.cached + 1 != TWO_64)
  }

  lemma UpwardIsCalm(s: State, a: Act)
    requires Safe(s) && Upward(s, a)
    ensures Calm(s, a)
  {
  }

  /** A correction's read and store that nothing separates make an upward step: it stores
      only above what it read. For initialize the same takes the value read to be
      below the target as well, which its second test does not see to. */
  lemma UnseparatedStoreIsUpward(s: State, a: Act)
    requires Stores(s, a) && s.tasks[a.t].was == s.cached
    ensures s.tasks[a.t].Seen? ==> Upward(s, a)
    ensures s.tasks[a.t].SawBoth? ==>
              (Upward(s, a) <==> !(s.tasks[a.t].confirmed < s.tasks[a.t].target < s.tasks[a.t].was))
  {
  }

  ghost predicate UpwardRun(s: State, acts: seq<Act>)
    requires Run(s, acts)
    decreases |acts|
  {
    acts == [] || (Upward(s, acts[0]) && UpwardRun(Apply(s, acts[0]), acts[1..]))
  }

  /** Reservations, corrections and synchronisations in any number and any interleaving:
      if no store lowers the counter, no nonce is ever in two places. */
  lemma {:induction false} UpwardRunsAreSafe(s: State, acts: seq<Act>)
    requires Safe(s) && Run(s, acts) && UpwardRun(s, acts)
    ensures Safe(Exec(s, acts))
    decreases |acts|
  {
    if acts != [] {
      UpwardIsCalm(s, acts[0]);
      StepIsSafeIffCalm(s, acts[0]);
      UpwardRunsAreSafe(Apply(s, acts[0]), acts[1..]);
    }
  }

  // ----- reservations among themselves

  /** Reservations that have yet to bump the counter. */
  function Unbumped(tasks: seq<Pc>): (r: nat) {
    if tasks == [] then 0 else (if MayBump(tasks[0]) then 1 else 0) + Unbumped(tasks[1..])
  }

  predicate MayBump(pc: Pc) {
    pc.Reserving? || pc.Loaded?
  }

  lemma {:induction false} UnbumpedAfter(tasks: seq<Pc>, t: nat, pc: Pc)
    requires t < |tasks|
    ensures Unbumped(tasks[t := pc]) ==
            Unbumped(tasks) - (if MayBump(tasks[t]) then 1 else 0) + (if MayBump(pc) then 1 else 0)
  {
    if t == 0 {
      assert tasks[0 := pc][1..] == tasks[1..];
    } else {
      UnbumpedAfter(tasks[1..], t - 1, pc);
      assert tasks[t := pc][1..] == tasks[1..][t - 1 := pc];
    }
  }

  lemma {:induction false} AllUnbumped(workers: nat)
    ensures Unbumped(seq(workers, _ => Reserving)) == workers
  {
    if workers > 0 {
      AllUnbumped(workers - 1);
      assert seq(workers, _ => Reserving)[1..] == seq(workers - 1, _ => Reserving);
    }
  }

  predicate Worker(pc: Pc) {
    MayBump(pc) || pc.Holding? || pc.Sent? || pc.Done?
  }

  ghost predicate WorkersOnly(s: State) {
    (forall i :: 0 <= i < |s.tasks| ==> Worker(s.tasks[i])) && s.cached + Unbumped(s.tasks) < TWO_64
  }

  lemma WorkersStep(s: State, a: Act)
    requires WorkersOnly(s) && Enabled(s, a)
    ensures Calm(s, a) && WorkersOnly(Apply(s, a))
  {
    var r := Apply(s, a);
    if !a.Confirm? {
      UnbumpedAfter(s.tasks, a.t, r.tasks[a.t]);
    }
    assert Worker(s.tasks[a.t]) && Worker(r.tasks[a.t]);
  }

  lemma {:induction false} WorkersAreCalm(s: State, acts: seq<Act>)
    requires Run(s, acts) && WorkersOnly(s)
    ensures CalmRun(s, acts)
    decreases |acts|
  {
    if acts != [] {
      WorkersStep(s, acts[0]);
      WorkersAreCalm(Apply(s, acts[0]), acts[1..]);
    }
  }

  /** Any number of tasks may reserve, send and give back concurrently: in every
      interleaving no two of them have the same nonce. */
  lemma ConcurrentReservationsAreExclusive(cached: nat, confirmed: nat, workers: nat, acts: seq<Act>)
    requires cached + workers < TWO_64
    requires Run(State(cached, confirmed, [], seq(workers, _ => Reserving)), acts)
    ensures Safe(Exec(State(cached, confirmed, [], seq(workers, _ => Reserving)), acts))
  {
    var s := State(cached, confirmed, [], seq(workers, _ => Reserving));
    AllUnbumped(workers);
    WorkersAreCalm(s, acts);
    CalmRunsAreSafe(s, acts);
  }

  // ----- one task alone

  lemma {:induction false} Steps(s: State, acts: seq<Act>, states: seq<State>)
    requires |states| == |acts| + 1 && states[0] == s
    requires forall i :: 0 <= i < |acts| ==> Enabled(states[i], acts[i]) && states[i + 1] == Apply(states[i], acts[i])
    ensures Run(s, acts) && Exec(s, acts) == states[|acts|]
    decreases |acts|
  {
    if acts != [] {
      Steps(states[1], acts[1..], states[1..]);
    }
  }

  /** The counters and the queue as the sequential model has them. */
  function WalletOf(s: State): (r: Wallet) {
    Wallet(s.cached, s.confirmed, map[], {}, s.queue)
  }

  /** A reservation that nobody interrupts takes the nonce the sequential one takes, and
      leaves the counter and the queue as that does. */
  lemma AloneReserves(s: State, t: nat) returns (acts: seq<Act>)
    requires t < |s.tasks| && s.tasks[t] == Reserving && LockFree(s)
    ensures Run(s, acts)
    ensures var r, next := Exec(s, acts), NextNonce(WalletOf(s));
            && r.tasks == s.tasks[t := if next.Some? then Holding(next.value) else Done]
            && r.confirmed == s.confirmed
            && (if next.Some? then
                  r.cached == Reserve(WalletOf(s), 0).cached && r.queue == Reserve(WalletOf(s), 0).failed
                else r.cached == s.cached && r.queue == s.queue)
  {
    var s1 := Apply(s, Begin(t));
    if s.queue == [] && s.cached != 0 {
      acts := [Begin(t), Bump(t)];
      var s2 := Apply(s1, Bump(t));
      Steps(s, acts, [s, s1, s2]);
      assert s2.tasks == s.tasks[t := Holding(s.cached)];
    } else {
      acts := [Begin(t)];
      Steps(s, acts, [s, s1]);
    }
  }

  /** So do a correction and an initialize with the two counters. */
  lemma AloneSynchronises(s: State, t: nat, target: nat) returns (acts: seq<Act>)
    requires t < |s.tasks| && (s.tasks[t] == Correcting(target) || s.tasks[t] == Syncing(target))
    ensures Run(s, acts)
    ensures var r := Exec(s, acts);
            var w := if s.tasks[t].Correcting? then HandleNonceError(WalletOf(s), 0, target)
                     else Initialize(WalletOf(s), target);
            r.cached == w.cached && r.confirmed == w.confirmed && r.queue == s.queue && r.tasks == s.tasks[t := Done]
  {
    var s1 := Apply(s, Look(t));
    if s.tasks[t].Correcting? {
      var s2 := Apply(s1, Store(t));
      var s3 := Apply(s2, StoreConfirmed(t));
      acts := [Look(t), Store(t), StoreConfirmed(t)];
      Steps(s, acts, [s, s1, s2, s3]);
      assert s3.tasks == s.tasks[t := Done];
    } else {
      var s2 := Apply(s1, LookConfirmed(t));
      var s3 := Apply(s2, Store(t));
      acts := [Look(t), LookConfirmed(t), Store(t)];
      if target > s.cached || target > s.confirmed {
        var s4 := Apply(s3, StoreConfirmed(t));
        acts := acts + [StoreConfirmed(t)];
        Steps(s, acts, [s, s1, s2, s3, s4]);
        assert s4.tasks == s.tasks[t := Done];
      } else {
        Steps(s, acts, [s, s1, s2, s3]);
        assert s3.tasks == s.tasks[t := Done];
      }
    }
  }

  // ----- the race

  /** The counter stands at 5 when a correction or an initialize to 6 reads it; two
      reservations take 5 and 6; then 6 is stored, and handed out again. */
  const TAKE_TWO: seq<Act> := [Begin(1), Bump(1), Begin(2), Bump(2)]
  const REISSUE: seq<Act> := [Store(0), Begin(3), Bump(3)]

  function AtFive(pc: Pc): (r: State) {
    State(5, 4, [], [pc, Reserving, Reserving, Reserving])
  }

  lemma {:induction false} Joined(s: State, a: seq<Act>, b: seq<Act>)
    requires Run(s, a) && Run(Exec(s, a), b)
    ensures Run(s, a + b) && Exec(s, a + b) == Exec(Exec(s, a), b)
    decreases |a|
  {
    if a == [] {
      assert a + b == b;
    } else {
      Joined(Apply(s, a[0]), a[1..], b);
      assert (a + b)[1..] == a[1..] + b;
    }
  }

  function AtSeven(pc: Pc): (r: State) {
    State(7, 4, [], [pc, Holding(5), Holding(6), Reserving])
  }

  lemma TwoAreTaken(pc: Pc)
    requires pc.Seen? || pc.SawBoth?
    ensures Run(AtFive(pc), TAKE_TWO) && Exec(AtFive(pc), TAKE_TWO) == AtSeven(pc)
  {
    var s1 := State(5, 4, [], [pc, Loaded(5), Reserving, Reserving]);
    var s2 := State(6, 4, [], [pc, Holding(5), Reserving, Reserving]);
    var s3 := State(6, 4, [], [pc, Holding(5), Loaded(6), Reserving]);
    Steps(AtFive(pc), TAKE_TWO, [AtFive(pc), s1, s2, s3, AtSeven(pc)]);
  }

  lemma StoreReissues(pc: Pc)
    requires (pc.Seen? || pc.SawBoth?) && WillStore(pc) && pc.target == 6
    ensures Run(AtSeven(pc), REISSUE)
    ensures Exec(AtSeven(pc), REISSUE).tasks == [Confirming(5), Holding(5), Holding(6), Holding(6)]
  {
    var s1 := State(6, 4, [], [Confirming(5), Holding(5), Holding(6), Reserving]);
    var s2 := State(6, 4, [], [Confirming(5), Holding(5), Holding(6), Loaded(6)]);
    var s3 := State(7, 4, [], [Confirming(5), Holding(5), Holding(6), Holding(6)]);
    Steps(AtSeven(pc), REISSUE, [AtSeven(pc), s1, s2, s3]);
  }

  lemma RaceReissues(s: State, looks: seq<Act>, pc: Pc)
    requires Run(s, looks) && Exec(s, looks) == AtFive(pc)
    requires (pc.Seen? || pc.SawBoth?) && WillStore(pc) && pc.target == 6
    ensures Run(s, looks + TAKE_TWO + REISSUE)
    ensures Exec(s, looks + TAKE_TWO + REISSUE).tasks == [Confirming(5), Holding(5), Holding(6), Holding(6)]
  {
    TwoAreTaken(pc);
    Joined(s, looks, TAKE_TWO);
    StoreReissues(pc);
    Joined(s, looks + TAKE_TWO, REISSUE);
  }

  /** The check and the store of a correction are not one step, so a correction that was
      upwards when checked can still hand a nonce out twice. */
  lemma CorrectionCanReissue()
    ensures var acts := [Look(0)] + TAKE_TWO + REISSUE;
            && Run(AtFive(Correcting(6)), acts)
            && Exec(AtFive(Correcting(6)), acts).tasks == [Confirming(5), Holding(5), Holding(6), Holding(6)]
  {
    Steps(AtFive(Correcting(6)), [Look(0)], [AtFive(Correcting(6)), AtFive(Seen(6, 5))]);
    RaceReissues(AtFive(Correcting(6)), [Look(0)], Seen(6, 5));
  }

  /** The same for initialize, which reads two counters first. */
  lemma InitializeCanReissue()
    ensures var acts := [Look(0), LookConfirmed(0)] + TAKE_TWO + REISSUE;
            && Run(AtFive(Syncing(6)), acts)
            && Exec(AtFive(Syncing(6)), acts).tasks == [Confirming(5), Holding(5), Holding(6), Holding(6)]
  {
    Steps(AtFive(Syncing(6)), [Look(0), LookConfirmed(0)],
          [AtFive(Syncing(6)), AtFive(SawCached(6, 5)), AtFive(SawBoth(6, 5, 4))]);
    RaceReissues(AtFive(Syncing(6)), [Look(0), LookConfirmed(0)], SawBoth(6, 5, 4));
  }
}
