/** The lock scopes of the nonce manager's operations: every schedule of any number of
    them finishes, except where confirm_nonce sees a multiple of ten. */
module NonceLocks {
  import opened Basics
  import opened LockSystem

  /** Lock scopes as the source nests them: a guard lives to the end of its block. */
  datatype Code = Skip | Then(first: Code, second: Code) | With(h: Hold, body: Code)

  function Actions(c: Code): (r: seq<Action>) {
    match c
    case Skip => []
    case Then(c1, c2) => Actions(c1) + Actions(c2)
    case With(h, body) => [Acquire(h)] + Actions(body) + [Release(h)]
  }

  /** Scopes open in rising lock order; `floor` counts from 0 for "nothing held". */
  predicate Nests(c: Code, floor: nat) {
    match c
    case Skip => true
    case Then(c1, c2) => Nests(c1, floor) && Nests(c2, floor)
    case With(h, body) => floor <= Rank(h.l) && Nests(body, Rank(h.l) + 1)
  }

  /** One operation with the way its branches go: `known` wallets, `slow` for the write
      lock in get_or_create_wallet, and so on. */
  datatype Op =
    | ReserveNonce(a: Address, slow: bool, uninitialised: bool)
    | InitializeNonce(a: Address, slow: bool, updates: bool)
    | MarkSubmitted(a: Address, known: bool)
    | ConfirmNonce(a: Address, known: bool, nonce: nat)
    | MarkFailed(a: Address, known: bool, recycle: bool)
    | ReleaseNonce(a: Address, known: bool)
    | HandleNonceError(a: Address, known: bool, stillKnown: bool, moves: bool)
    | PeekNextNonce
    | GetStats(a: Address, known: bool)
    | Reset

  function Read(body: Code): (r: Code) {
    With(Hold(Wallets, Shared), body)
  }

  function Locked(l: Lock, body: Code): (r: Code) {
    With(Hold(l, Exclusive), body)
  }

  function Lookup(slow: bool): (r: Code) {
    Then(Read(Skip), if slow then Locked(Wallets, Skip) else Skip)
  }

  function If(c: bool, code: Code): (r: Code) {
    if c then code else Skip
  }

  function Cleanup(a: Address): (r: Code) {
    Read(Locked(Requests(a), Skip))
  }

  function CodeOf(op: Op): (r: Code) {
    match op
    case ReserveNonce(a, slow, uninitialised) =>
      Then(Lookup(slow), Then(Locked(Failed(a), Skip), If(!uninitialised, Locked(Requests(a), Skip))))
    case InitializeNonce(a, slow, updates) =>
      Then(Lookup(slow), If(updates, Locked(LastSync(a), Skip)))
    case MarkSubmitted(a, known) =>
      Read(If(known, Locked(Requests(a), Locked(InFlight(a), Skip))))
    case ConfirmNonce(a, known, nonce) =>
      Read(If(known, Locked(Requests(a), Then(Locked(InFlight(a), Skip), If(nonce % 10 == 0, Cleanup(a))))))
    case MarkFailed(a, known, recycle) => FailCode(a, known, recycle)
    case ReleaseNonce(a, known) =>
      Read(If(known, Locked(Requests(a), Locked(Failed(a), Skip))))
    case HandleNonceError(a, known, stillKnown, moves) =>
      Then(FailCode(a, known, false),
           Read(If(stillKnown && moves, Locked(Requests(a), Locked(InFlight(a), Locked(Failed(a), Skip))))))
    case PeekNextNonce => Read(Skip)
    case GetStats(a, known) =>
      Read(If(known, Locked(Requests(a), Locked(InFlight(a), Locked(Failed(a), Skip)))))
    case Reset => Locked(Wallets, Skip)
  }

  function FailCode(a: Address, known: bool, recycle: bool): (r: Code) {
    Read(If(known, Locked(Requests(a), Then(Locked(InFlight(a), Skip), If(recycle, Locked(Failed(a), Skip))))))
  }

  /** The one operation that locks `requests` while holding it. */
  predicate Relocks(op: Op) {
    op.ConfirmNonce? && op.known && op.nonce % 10 == 0
  }

  lemma NestsIffNotRelocking(op: Op)
    ensures Nests(CodeOf(op), 0) <==> !Relocks(op)
  {
    match op
    case ReserveNonce(a, slow, _) =>
      LookupNests(slow);
      Leaf(Hold(Failed(a), Exclusive), 0);
      Leaf(Hold(Requests(a), Exclusive), 0);
      assert Nests(CodeOf(op).second, 0);
    case InitializeNonce(a, slow, _) =>
      LookupNests(slow);
      Leaf(Hold(LastSync(a), Exclusive), 0);
    case ConfirmNonce(a, known, nonce) =>
      var tail := If(nonce % 10 == 0, Cleanup(a));
      Leaf(Hold(InFlight(a), Exclusive), 2);
      assert Nests(tail, 2) <==> nonce % 10 != 0;
      assert Nests(Then(Locked(InFlight(a), Skip), tail), 2) <==> nonce % 10 != 0;
    case MarkFailed(a, known, recycle) => FailNests(a, known, recycle);
    case HandleNonceError(a, known, _, _) =>
      FailNests(a, known, false);
      InnerNests(a);
      assert Nests(Locked(Requests(a), Locked(InFlight(a), Locked(Failed(a), Skip))), 1);
    case GetStats(a, _) => InnerNests(a);
    case MarkSubmitted(a, _) => Leaf(Hold(InFlight(a), Exclusive), 2);
    case ReleaseNonce(a, _) => Leaf(Hold(Failed(a), Exclusive), 2);
    case _ =>
  }

  // ----- which locks an operation takes

  function HoldsIn(c: Code): (r: set<Hold>) {
    match c
    case Skip => {}
    case Then(c1, c2) => HoldsIn(c1) + HoldsIn(c2)
    case With(h, body) => {h} + HoldsIn(body)
  }

  lemma {:induction false} HoldsAreRequests(c: Code, h: Hold)
    ensures h in HoldsIn(c) <==> Acquire(h) in Actions(c)
    ensures h in HoldsIn(c) <==> Release(h) in Actions(c)
  {
    match c
    case Skip =>
    case Then(c1, c2) =>
      HoldsAreRequests(c1, h);
      HoldsAreRequests(c2, h);
    case With(_, body) =>
      HoldsAreRequests(body, h);
  }

  /** The structures of the wallet that the operation reads or writes, on its branch. */
  function Touches(op: Op): (r: set<Lock>) {
    match op
    case ReserveNonce(a, _, uninitialised) => {Failed(a)} + if uninitialised then {} else {Requests(a)}
    case InitializeNonce(a, _, updates) => if updates then {LastSync(a)} else {}
    case MarkSubmitted(a, known) => if known then {Requests(a), InFlight(a)} else {}
    case ConfirmNonce(a, known, _) => if known then {Requests(a), InFlight(a)} else {}
    case MarkFailed(a, known, recycle) =>
      (if known then {Requests(a), InFlight(a)} else {}) + if known && recycle then {Failed(a)} else {}
    case ReleaseNonce(a, known) => if known then {Requests(a), Failed(a)} else {}
    case HandleNonceError(a, known, stillKnown, moves) =>
      (if known then {Requests(a), InFlight(a)} else {})
      + if stillKnown && moves then {Requests(a), InFlight(a), Failed(a)} else {}
    case GetStats(a, known) => if known then {Requests(a), InFlight(a), Failed(a)} else {}
    case _ => {}
  }

  /** The map of wallets is written to add a wallet or to remove one. */
  predicate WritesWallets(op: Op) {
    op.Reset? || ((op.ReserveNonce? || op.InitializeNonce?) && op.slow)
  }

  predicate IsNeeded(op: Op, h: Hold) {
    || (h.l in Touches(op) && h.m == Exclusive)
    || (h == Hold(Wallets, Shared) && !op.Reset?)
    || (h == Hold(Wallets, Exclusive) && WritesWallets(op))
  }

  /** Every operation takes the lock of each structure it touches, exclusively, and of no
      other; the map of wallets is read by all but reset, and locked to write where it is
      written. */
  lemma TakesWhatItTouches(op: Op, h: Hold)
    ensures Acquire(h) in Actions(CodeOf(op)) <==> IsNeeded(op, h)
  {
    HoldsAreRequests(CodeOf(op), h);
    match op
    case ReserveNonce(_, _, _) => ReserveTakes(op, h);
    case ConfirmNonce(_, _, _) => ConfirmTakes(op, h);
    case HandleNonceError(_, _, _, _) => ErrorTakes(op, h);
    case MarkFailed(_, _, _) => FailTakes(op, h);
    case GetStats(_, _) => StatsTakes(op, h);
    case _ => ShortTakes(op, h);
  }

  lemma FailTakes(op: Op, h: Hold)
    requires op.MarkFailed?
    ensures h in HoldsIn(CodeOf(op)) <==> IsNeeded(op, h)
  {
    FailHolds(op.a, op.known, op.recycle);
  }

  lemma StatsTakes(op: Op, h: Hold)
    requires op.GetStats?
    ensures h in HoldsIn(CodeOf(op)) <==> IsNeeded(op, h)
  {
    InnerHolds(op.a);
  }

  lemma ShortTakes(op: Op, h: Hold)
    requires op.InitializeNonce? || op.MarkSubmitted? || op.ReleaseNonce? || op.PeekNextNonce? || op.Reset?
    ensures h in HoldsIn(CodeOf(op)) <==> IsNeeded(op, h)
  {
    match op
    case InitializeNonce(a, slow, _) =>
      LookupHolds(slow);
      Innermost(LastSync(a));
    case MarkSubmitted(a, _) => Innermost(InFlight(a));
    case ReleaseNonce(a, _) => Innermost(Failed(a));
    case _ =>
  }

  lemma ErrorTakes(op: Op, h: Hold)
    requires op.HandleNonceError?
    ensures h in HoldsIn(CodeOf(op)) <==> IsNeeded(op, h)
  {
    FailHolds(op.a, op.known, false);
    InnerHolds(op.a);
  }

  lemma ReserveTakes(op: Op, h: Hold)
    requires op.ReserveNonce?
    ensures h in HoldsIn(CodeOf(op)) <==> IsNeeded(op, h)
  {
    var queue, track := Locked(Failed(op.a), Skip), If(!op.uninitialised, Locked(Requests(op.a), Skip));
    LookupHolds(op.slow);
    Innermost(Failed(op.a));
    Innermost(Requests(op.a));
    assert HoldsIn(CodeOf(op)) == HoldsIn(Lookup(op.slow)) + HoldsIn(Then(queue, track));
    assert HoldsIn(Then(queue, track)) == {Hold(Failed(op.a), Exclusive)} + HoldsIn(track);
  }

  lemma ConfirmTakes(op: Op, h: Hold)
    requires op.ConfirmNonce?
    ensures h in HoldsIn(CodeOf(op)) <==> IsNeeded(op, h)
  {
    var tail := If(op.nonce % 10 == 0, Cleanup(op.a));
    Innermost(InFlight(op.a));
    Innermost(Requests(op.a));
    assert HoldsIn(Cleanup(op.a)) == {Hold(Wallets, Shared), Hold(Requests(op.a), Exclusive)};
    assert HoldsIn(Then(Locked(InFlight(op.a), Skip), tail)) == {Hold(InFlight(op.a), Exclusive)} + HoldsIn(tail);
  }

  lemma Innermost(l: Lock)
    ensures HoldsIn(Locked(l, Skip)) == {Hold(l, Exclusive)}
  {
  }

  lemma LookupHolds(slow: bool)
    ensures HoldsIn(Lookup(slow)) == {Hold(Wallets, Shared)} + if slow then {Hold(Wallets, Exclusive)} else {}
  {
    Innermost(Wallets);
    assert HoldsIn(Read(Skip)) == {Hold(Wallets, Shared)};
  }

  lemma InnerHolds(a: Address)
    ensures HoldsIn(Locked(Requests(a), Locked(InFlight(a), Locked(Failed(a), Skip))))
            == {Hold(Requests(a), Exclusive), Hold(InFlight(a), Exclusive), Hold(Failed(a), Exclusive)}
  {
    Innermost(Failed(a));
    assert HoldsIn(Locked(InFlight(a), Locked(Failed(a), Skip)))
           == {Hold(InFlight(a), Exclusive)} + {Hold(Failed(a), Exclusive)};
  }

  lemma FailHolds(a: Address, known: bool, recycle: bool)
    ensures HoldsIn(FailCode(a, known, recycle))
            == {Hold(Wallets, Shared)}
               + (if known then {Hold(Requests(a), Exclusive), Hold(InFlight(a), Exclusive)} else {})
               + (if known && recycle then {Hold(Failed(a), Exclusive)} else {})
  {
    Innermost(InFlight(a));
    Innermost(Failed(a));
    var tail := If(recycle, Locked(Failed(a), Skip));
    assert HoldsIn(Then(Locked(InFlight(a), Skip), tail)) == {Hold(InFlight(a), Exclusive)} + HoldsIn(tail);
  }

  lemma Leaf(h: Hold, floor: nat)
    ensures Nests(With(h, Skip), floor) <==> floor <= Rank(h.l)
    ensures Actions(With(h, Skip)) == [Acquire(h), Release(h)]
  {
  }

  lemma LookupNests(slow: bool)
    ensures Nests(Lookup(slow), 0)
  {
    Leaf(Hold(Wallets, Shared), 0);
    Leaf(Hold(Wallets, Exclusive), 0);
  }

  lemma InnerNests(a: Address)
    ensures Nests(Locked(InFlight(a), Locked(Failed(a), Skip)), 2)
  {
    Leaf(Hold(Failed(a), Exclusive), 3);
  }

  lemma FailNests(a: Address, known: bool, recycle: bool)
    ensures Nests(FailCode(a, known, recycle), 0)
  {
    Leaf(Hold(InFlight(a), Exclusive), 2);
    Leaf(Hold(Failed(a), Exclusive), 2);
    assert Nests(Then(Locked(InFlight(a), Skip), If(recycle, Locked(Failed(a), Skip))), 2);
  }

  lemma OrderedScope(h: Hold, body: seq<Action>, rest: seq<Action>, held: multiset<Hold>)
    requires Below(held, h.l) && Ordered(body + ([Release(h)] + rest), held + multiset{h})
    ensures Ordered([Acquire(h)] + body + [Release(h)] + rest, held)
  {
    var all, inner := [Acquire(h)] + body + [Release(h)] + rest, body + ([Release(h)] + rest);
    assert all[0] == Acquire(h) && all[1..] == inner;
  }

  lemma OrderedRelease(h: Hold, rest: seq<Action>, held: multiset<Hold>)
    requires Ordered(rest, held)
    ensures Ordered([Release(h)] + rest, held + multiset{h})
  {
    assert ([Release(h)] + rest)[1..] == rest;
    assert held + multiset{h} - multiset{h} == held;
  }

  lemma Regroup(x: seq<Action>, y: seq<Action>, z: seq<Action>)
    ensures (x + y) + z == x + (y + z)
  {
  }

  /** Scopes that nest in rising order only ever request above what they hold. */
  lemma {:induction false} NestedIsOrdered(c: Code, floor: nat, held: multiset<Hold>, rest: seq<Action>)
    requires Nests(c, floor) && (forall h :: h in held ==> Rank(h.l) < floor) && Ordered(rest, held)
    ensures Ordered(Actions(c) + rest, held)
    decreases c
  {
    match c
    case Skip =>
      assert Actions(c) + rest == rest;
    case Then(c1, c2) =>
      NestedIsOrdered(c2, floor, held, rest);
      NestedIsOrdered(c1, floor, held, Actions(c2) + rest);
      Regroup(Actions(c1), Actions(c2), rest);
    case With(h, body) =>
      OrderedRelease(h, rest, held);
      NestedIsOrdered(body, Rank(h.l) + 1, held + multiset{h}, [Release(h)] + rest);
      OrderedScope(h, Actions(body), rest, held);
  }

  /** A task performs a list of operations, one after the other. */
  type Job = seq<Op>

  function JobCode(job: Job): (r: Code) {
    if job == [] then Skip else Then(CodeOf(job[0]), JobCode(job[1..]))
  }

  predicate RelocksSomewhere(job: Job) {
    exists k :: 0 <= k < |job| && Relocks(job[k])
  }

  lemma {:induction false} JobNests(job: Job)
    requires !RelocksSomewhere(job)
    ensures Nests(JobCode(job), 0)
  {
    if job != [] {
      NestsIffNotRelocking(job[0]);
      assert forall k :: 0 <= k < |job| - 1 ==> job[1..][k] == job[k + 1];
      JobNests(job[1..]);
    }
  }

  function Start(job: Job): (r: Task) {
    Task(Actions(JobCode(job)), multiset{}, false)
  }

  /** Any number of tasks, all about to begin. */
  function Launch(jobs: seq<Job>): (r: System) {
    System(seq(|jobs|, i requires 0 <= i < |jobs| => Start(jobs[i])), map[])
  }

  ghost predicate NoneRelocks(jobs: seq<Job>) {
    forall i :: 0 <= i < |jobs| ==> !RelocksSomewhere(jobs[i])
  }

  lemma LaunchInOrder(jobs: seq<Job>)
    requires NoneRelocks(jobs)
    ensures InOrder(Launch(jobs))
  {
    var s := Launch(jobs);
    forall i | 0 <= i < |s.tasks| ensures Ordered(s.tasks[i].todo, s.tasks[i].held) {
      JobNests(jobs[i]);
      NestedIsOrdered(JobCode(jobs[i]), 0, multiset{}, []);
      assert Actions(JobCode(jobs[i])) + [] == Actions(JobCode(jobs[i]));
    }
  }

  /** No deadlock, ever: after any schedule of any jobs without a multiple-of-ten
      confirmation, either all are finished or one of them can step; and no schedule is
      longer than the work there was, so every schedule ends with all finished. */
  lemma DeadlockFree(jobs: seq<Job>, turns: seq<nat>)
    requires NoneRelocks(jobs) && Schedule(Launch(jobs), turns)
    ensures AllFinished(Exec(Launch(jobs), turns)) || exists i: nat :: CanStep(Exec(Launch(jobs), turns), i)
    ensures |turns| <= Work(Launch(jobs).tasks)
  {
    LaunchInOrder(jobs);
    RunKeepsOrder(Launch(jobs), turns);
    var s := Exec(Launch(jobs), turns);
    if !AllFinished(s) {
      SomebodyCanStep(s);
    }
  }

  /** After any schedule of any jobs, a lock held exclusively is held by nobody else: the
      operations' sections on one structure never overlap. */
  lemma SectionsExclude(jobs: seq<Job>, turns: seq<nat>, l: Lock)
    requires Schedule(Launch(jobs), turns)
    ensures Excludes(Exec(Launch(jobs), turns), l)
  {
    LocksExclude(Launch(jobs), turns, l);
  }

  // ----- the exception

  const W := Hold(Wallets, Shared)

  function R(a: Address): (h: Hold) {
    Hold(Requests(a), Exclusive)
  }

  function F(a: Address): (h: Hold) {
    Hold(InFlight(a), Exclusive)
  }

  /** What the confirmation of a multiple of ten does, up to the second request for
      `requests`, and what it holds after the first c of these actions. */
  function Fatal(a: Address): (r: seq<Action>) {
    [Acquire(W), Acquire(R(a)), Acquire(F(a)), Release(F(a)), Acquire(W), Acquire(R(a))]
  }

  function HeldAfter(a: Address, c: nat): (r: multiset<Hold>) {
    if c == 0 then multiset{}
    else if c == 1 then multiset{W}
    else if c == 3 then multiset{W, R(a), F(a)}
    else if c == 5 then multiset{W, R(a), W}
    else multiset{W, R(a)}
  }

  lemma ConfirmIsFatal(op: Op)
    requires Relocks(op)
    ensures Fatal(op.a) <= Actions(CodeOf(op))
  {
    var a := op.a;
    Leaf(R(a), 0);
    Leaf(F(a), 0);
    assert Actions(Cleanup(a)) == [Acquire(W), Acquire(R(a)), Release(R(a)), Release(W)];
    var guarded := Then(Locked(InFlight(a), Skip), Cleanup(a));
    assert Actions(guarded) == [Acquire(F(a)), Release(F(a)), Acquire(W), Acquire(R(a)), Release(R(a)), Release(W)];
    assert CodeOf(op) == Read(Locked(Requests(a), guarded));
  }

  /** A task with a fatal confirmation `tail` ahead of it, behind other operations that
      are in order, or inside it and not past the second request. */
  ghost predicate Doomed(t: Task, tail: seq<Action>, a: Address) {
    var ahead := |t.todo| - |tail|;
    && Fatal(a) <= tail
    && if ahead >= 0 then t.todo[ahead..] == tail && Ordered(t.todo[..ahead], t.held)
       else -ahead <= 5 && t.todo == tail[-ahead..] && t.held == HeldAfter(a, -ahead)
  }

  function HeldThen(held: multiset<Hold>, act: Action): (r: multiset<Hold>) {
    match act
    case Acquire(h) => held + multiset{h}
    case Release(h) => held - multiset{h}
  }

  /** A step either joins a queue or does the next action. */
  lemma OwnStep(s: System, i: nat)
    requires CanStep(s, i)
    ensures var t, r := s.tasks[i], Step(s, i).tasks[i];
            if t.todo[0].Acquire? && !t.waiting then r.todo == t.todo && r.held == t.held
            else r.todo == t.todo[1..] && r.held == HeldThen(t.held, t.todo[0])
  {
  }

  lemma DropFirst(todo: seq<Action>, n: nat)
    requires 0 < n <= |todo|
    ensures todo[..n][0] == todo[0] && todo[1..][..n - 1] == todo[..n][1..] && todo[1..][n - 1..] == todo[n..]
  {
  }

  lemma DoneAhead(t: Task, r: Task, tail: seq<Action>, a: Address)
    requires Doomed(t, tail, a) && |t.todo| > |tail| && r.todo == t.todo[1..] && r.held == HeldThen(t.held, t.todo[0])
    ensures Doomed(r, tail, a)
  {
    var n := |t.todo| - |tail|;
    DropFirst(t.todo, n);
    assert Ordered(t.todo[..n][1..], r.held);
  }

  lemma AheadStaysDoomed(s: System, i: nat, tail: seq<Action>, a: Address)
    requires CanStep(s, i) && Doomed(s.tasks[i], tail, a) && |s.tasks[i].todo| > |tail|
    ensures Doomed(Step(s, i).tasks[i], tail, a)
  {
    OwnStep(s, i);
    if Step(s, i).tasks[i].todo == s.tasks[i].todo[1..] {
      DoneAhead(s.tasks[i], Step(s, i).tasks[i], tail, a);
    }
  }

  lemma HeldGrows(a: Address, c: nat)
    requires c < 5
    ensures HeldAfter(a, c + 1) == HeldThen(HeldAfter(a, c), Fatal(a)[c])
  {
    if c == 0 {
      assert Fatal(a)[0] == Acquire(W);
    } else if c == 1 {
      assert Fatal(a)[1] == Acquire(R(a));
    } else if c == 2 {
      assert Fatal(a)[2] == Acquire(F(a));
    } else if c == 3 {
      assert Fatal(a)[3] == Release(F(a));
    } else {
      assert Fatal(a)[4] == Acquire(W);
    }
  }

  lemma HeldStaysHeld(a: Address, c: nat)
    requires c < 5
    ensures W in HeldAfter(a, c) ==> W in HeldAfter(a, c + 1)
    ensures R(a) in HeldAfter(a, c) ==> R(a) in HeldAfter(a, c + 1)
  {
  }

  lemma NeverPastFive(s: System, i: nat, a: Address, c: nat)
    requires CanStep(s, i) && c <= 5 && s.tasks[i].held == HeldAfter(a, c) && s.tasks[i].todo[0] == Fatal(a)[c]
    requires Fatal(a)[c].Acquire? ==> s.tasks[i].waiting
    ensures c < 5
  {
    assert R(a) in HeldAfter(a, 5) && Fatal(a)[5] == Acquire(R(a));
    if c == 5 {
      assert false;
    }
  }

  lemma InsideStaysDoomed(s: System, i: nat, tail: seq<Action>, a: Address)
    requires CanStep(s, i) && Doomed(s.tasks[i], tail, a) && |s.tasks[i].todo| <= |tail|
    ensures Doomed(Step(s, i).tasks[i], tail, a)
    ensures forall h :: (h == W || h == R(a)) && h in s.tasks[i].held ==> h in Step(s, i).tasks[i].held
  {
    var t, r := s.tasks[i], Step(s, i).tasks[i];
    var c := |tail| - |t.todo|;
    assert t.todo == tail[c..] && t.held == HeldAfter(a, c);
    assert t.todo[0] == tail[c] == Fatal(a)[c];
    OwnStep(s, i);
    if r.todo == t.todo[1..] {
      NeverPastFive(s, i, a, c);
      HeldGrows(a, c);
      HeldStaysHeld(a, c);
      assert r.todo == tail[c + 1..];
    }
  }

  lemma StaysDoomed(s: System, i: nat, turn: nat, tail: seq<Action>, a: Address)
    requires i < |s.tasks| && CanStep(s, turn) && Doomed(s.tasks[i], tail, a)
    ensures Doomed(Step(s, turn).tasks[i], tail, a)
    ensures |Step(s, turn).tasks[i].todo| <= |s.tasks[i].todo|
  {
    if i == turn {
      if |s.tasks[i].todo| > |tail| {
        AheadStaysDoomed(s, i, tail, a);
      } else {
        InsideStaysDoomed(s, i, tail, a);
      }
    }
  }

  lemma {:induction false} DoomedRun(s: System, turns: seq<nat>, i: nat, tail: seq<Action>, a: Address)
    requires i < |s.tasks| && Doomed(s.tasks[i], tail, a) && Schedule(s, turns)
    ensures Doomed(Exec(s, turns).tasks[i], tail, a)
    decreases |turns|
  {
    if turns != [] {
      StaysDoomed(s, i, turns[0], tail, a);
      DoomedRun(Step(s, turns[0]), turns[1..], i, tail, a);
    }
  }

  /** The first operation of a job that relocks. */
  ghost predicate FirstRelock(job: Job, k: nat) {
    k < |job| && Relocks(job[k]) && !RelocksSomewhere(job[..k])
  }

  lemma {:induction false} HasFirstRelock(job: Job) returns (k: nat)
    requires RelocksSomewhere(job)
    ensures FirstRelock(job, k)
  {
    if Relocks(job[0]) {
      k := 0;
    } else {
      var j :| 0 <= j < |job| && Relocks(job[j]);
      assert job[1..][j - 1] == job[j];
      var k' := HasFirstRelock(job[1..]);
      k := k' + 1;
      forall m | 0 <= m < k ensures !Relocks(job[..k][m]) {
        assert m > 0 ==> job[..k][m] == job[1..][..k'][m - 1];
      }
    }
  }

  /** What is left of a job from its k-th operation on. */
  function From(job: Job, k: nat): (r: seq<Action>)
    requires k <= |job|
  {
    Actions(JobCode(job[k..]))
  }

  lemma {:induction false} JobSplits(job: Job, k: nat)
    requires k <= |job|
    ensures Actions(JobCode(job)) == Actions(JobCode(job[..k])) + From(job, k)
  {
    if k == 0 {
      assert job[0..] == job && job[..0] == [];
    } else {
      JobSplits(job[1..], k - 1);
      assert job[1..][..k - 1] == job[..k][1..] && job[1..][k - 1..] == job[k..];
      Regroup(Actions(CodeOf(job[0])), Actions(JobCode(job[..k][1..])), From(job, k));
    }
  }

  lemma StartsDoomed(job: Job, k: nat)
    requires FirstRelock(job, k)
    ensures Doomed(Start(job), From(job, k), job[k].a)
  {
    JobSplits(job, k);
    ConfirmIsFatal(job[k]);
    assert job[k..][0] == job[k];
    JobNests(job[..k]);
    var p := Actions(JobCode(job[..k]));
    NestedIsOrdered(JobCode(job[..k]), 0, multiset{}, []);
    assert p + [] == p;
    assert (p + From(job, k))[..|p|] == p && (p + From(job, k))[|p|..] == From(job, k);
  }

  /** A task that is to confirm a multiple of ten never finishes, whatever else runs and
      in whatever order. */
  lemma ConfirmOfTenNeverFinishes(jobs: seq<Job>, turns: seq<nat>, i: nat)
    requires i < |jobs| && RelocksSomewhere(jobs[i])
    requires Schedule(Launch(jobs), turns)
    ensures !Finished(Exec(Launch(jobs), turns).tasks[i])
  {
    var k := HasFirstRelock(jobs[i]);
    StartsDoomed(jobs[i], k);
    DoomedRun(Launch(jobs), turns, i, From(jobs[i], k), jobs[i][k].a);
  }

  ghost predicate CanAllFinish(s: System) {
    exists turns: seq<nat> :: Schedule(s, turns) && AllFinished(Exec(s, turns))
  }

  /** Some schedule brings all jobs to an end exactly when none of them confirms a
      multiple of ten. */
  lemma AllCanFinishIffNoConfirmOfTen(jobs: seq<Job>)
    ensures CanAllFinish(Launch(jobs)) <==> NoneRelocks(jobs)
  {
    if NoneRelocks(jobs) {
      LaunchInOrder(jobs);
      var turns := Completion(Launch(jobs));
      assert Schedule(Launch(jobs), turns) && AllFinished(Exec(Launch(jobs), turns));
    } else {
      var i :| 0 <= i < |jobs| && RelocksSomewhere(jobs[i]);
      forall turns: seq<nat> | Schedule(Launch(jobs), turns) ensures !AllFinished(Exec(Launch(jobs), turns)) {
        ConfirmOfTenNeverFinishes(jobs, turns, i);
      }
    }
  }

  lemma {:induction false} Completion(s: System) returns (turns: seq<nat>)
    requires InOrder(s)
    ensures Schedule(s, turns) && AllFinished(Exec(s, turns))
    decreases Work(s.tasks)
  {
    if AllFinished(s) {
      turns := [];
    } else {
      SomebodyCanStep(s);
      var i: nat :| CanStep(s, i);
      StepKeepsOrder(s, i);
      StepDoesWork(s, i);
      var rest := Completion(Step(s, i));
      turns := [i] + rest;
      assert turns[1..] == rest;
    }
  }

  // ----- what the stuck confirmation takes with it

  /** Task i has come to its k-th operation, the confirmation of a multiple of ten, and
      holds `h` there. */
  ghost predicate ConfirmHolds(jobs: seq<Job>, s: System, i: nat, k: nat, h: Hold) {
    && i < |jobs| == |s.tasks| && FirstRelock(jobs[i], k)
    && |s.tasks[i].todo| <= |From(jobs[i], k)| && h in s.tasks[i].held
  }

  /** Inside a fatal confirmation, holding `h` for good. */
  ghost predicate HoldsForGood(s: System, i: nat, tail: seq<Action>, a: Address, h: Hold) {
    && i < |s.tasks| && Doomed(s.tasks[i], tail, a) && |s.tasks[i].todo| <= |tail|
    && h in s.tasks[i].held && (h == W || h == R(a))
  }

  lemma KeepsHolding(s: System, i: nat, turn: nat, tail: seq<Action>, a: Address, h: Hold)
    requires HoldsForGood(s, i, tail, a, h) && CanStep(s, turn)
    ensures HoldsForGood(Step(s, turn), i, tail, a, h)
  {
    if i == turn {
      InsideStaysDoomed(s, i, tail, a);
    }
  }

  lemma LaunchedHoldsForGood(jobs: seq<Job>, turns: seq<nat>, i: nat, k: nat, h: Hold)
    requires Schedule(Launch(jobs), turns) && ConfirmHolds(jobs, Exec(Launch(jobs), turns), i, k, h)
    requires h == W || h == R(jobs[i][k].a)
    ensures HoldsForGood(Exec(Launch(jobs), turns), i, From(jobs[i], k), jobs[i][k].a, h)
  {
    StartsDoomed(jobs[i], k);
    DoomedRun(Launch(jobs), turns, i, From(jobs[i], k), jobs[i][k].a);
  }

  lemma {:induction false} BlockedForGood(s: System, more: seq<nat>, i: nat, j: nat, tail: seq<Action>, a: Address)
    requires HoldsForGood(s, i, tail, a, R(a)) && Schedule(s, more)
    requires i != j && j < |s.tasks| && Acquire(R(a)) in s.tasks[j].todo
    ensures !Finished(Exec(s, more).tasks[j])
    decreases |more|
  {
    if more != [] {
      KeepsHolding(s, i, more[0], tail, a, R(a));
      if j == more[0] {
        assert R(a) in s.tasks[i].held && !Free(s, R(a));
      }
      BlockedForGood(Step(s, more[0]), more[1..], i, j, tail, a);
    }
  }

  /** From any start and after any schedule: once the confirmation of a multiple of ten
      holds `requests` of its wallet, no other task that has yet to take that lock ever
      finishes. */
  lemma ConfirmOfTenBlocksTheWallet(jobs: seq<Job>, turns: seq<nat>, more: seq<nat>, i: nat, k: nat, j: nat)
    requires Schedule(Launch(jobs), turns) && Schedule(Exec(Launch(jobs), turns), more)
    requires i < |jobs| && k < |jobs[i]| && Relocks(jobs[i][k])
    requires ConfirmHolds(jobs, Exec(Launch(jobs), turns), i, k, R(jobs[i][k].a))
    requires i != j && j < |jobs| && Acquire(R(jobs[i][k].a)) in Exec(Launch(jobs), turns).tasks[j].todo
    ensures !Finished(Exec(Exec(Launch(jobs), turns), more).tasks[j])
  {
    LaunchedHoldsForGood(jobs, turns, i, k, R(jobs[i][k].a));
    BlockedForGood(Exec(Launch(jobs), turns), more, i, j, From(jobs[i], k), jobs[i][k].a);
  }

  // ----- the whole manager freezes

  ghost predicate WaitsToWrite(s: System, x: nat) {
    && x < |s.tasks| && s.tasks[x].waiting && s.tasks[x].todo != []
    && s.tasks[x].todo[0] == Acquire(Hold(Wallets, Exclusive))
  }

  /** Nobody ahead of x in the queue is j. */
  ghost predicate Behind(q: seq<nat>, x: nat, j: nat) {
    exists p :: 0 <= p < |q| && q[p] == x && j !in q[..p]
  }

  predicate TakesWallets(act: Action) {
    act.Acquire? && act.h.l == Wallets
  }

  ghost predicate NeedsWallets(t: Task) {
    exists act :: act in t.todo && TakesWallets(act)
  }

  ghost predicate Frozen(s: System, x: nat, j: nat) {
    WaitsToWrite(s, x) && Behind(Queue(s, Wallets), x, j) && j < |s.tasks| && NeedsWallets(s.tasks[j])
  }

  lemma QueueKeepsBehind(s: System, i: nat, x: nat, j: nat, turn: nat)
    requires i < |s.tasks| && W in s.tasks[i].held
    requires WaitsToWrite(s, x) && Behind(Queue(s, Wallets), x, j) && CanStep(s, turn)
    ensures turn != x && Behind(Queue(Step(s, turn), Wallets), x, j)
    ensures turn == j && s.tasks[j].waiting ==> !TakesWallets(s.tasks[j].todo[0])
  {
    var q, q' := Queue(s, Wallets), Queue(Step(s, turn), Wallets);
    assert !Free(s, Hold(Wallets, Exclusive));
    var p :| 0 <= p < |q| && q[p] == x && j !in q[..p];
    var act := s.tasks[turn].todo[0];
    if TakesWallets(act) && s.tasks[turn].waiting {
      assert turn == q[0] && p > 0 && q[..p][0] == turn;
      assert q'[p - 1] == x && q'[..p - 1] == q[..p][1..];
    } else if TakesWallets(act) {
      assert q'[p] == x && q'[..p] == q[..p];
    } else {
      assert q' == q;
    }
  }

  lemma StaysFrozen(s: System, i: nat, x: nat, j: nat, turn: nat)
    requires i < |s.tasks| && W in s.tasks[i].held && Frozen(s, x, j) && CanStep(s, turn)
    ensures Frozen(Step(s, turn), x, j)
  {
    QueueKeepsBehind(s, i, x, j, turn);
    if turn == j {
      var t, r := s.tasks[j], Step(s, j).tasks[j];
      var act :| act in t.todo && TakesWallets(act);
      assert act in r.todo;
    }
  }

  lemma {:induction false} FrozenForGood(
    s: System, more: seq<nat>, i: nat, x: nat, j: nat, tail: seq<Action>, a: Address)
    requires HoldsForGood(s, i, tail, a, W) && Frozen(s, x, j) && Schedule(s, more)
    ensures !Finished(Exec(s, more).tasks[j])
    decreases |more|
  {
    if more != [] {
      KeepsHolding(s, i, more[0], tail, a, W);
      StaysFrozen(s, i, x, j, more[0]);
      FrozenForGood(Step(s, more[0]), more[1..], i, x, j, tail, a);
    }
  }

  ghost predicate IsSuffix(rest: seq<Action>, full: seq<Action>) {
    |rest| <= |full| && rest == full[|full| - |rest|..]
  }

  lemma {:induction false} TodoIsSuffix(s: System, turns: seq<nat>, j: nat, full: seq<Action>)
    requires j < |s.tasks| && Schedule(s, turns) && IsSuffix(s.tasks[j].todo, full)
    ensures IsSuffix(Exec(s, turns).tasks[j].todo, full)
    decreases |turns|
  {
    if turns != [] {
      TodoIsSuffix(Step(s, turns[0]), turns[1..], j, full);
    }
  }

  lemma {:induction false} RunKeepsQueues(s: System, turns: seq<nat>)
    requires QueuesMatch(s) && Schedule(s, turns)
    ensures QueuesMatch(Exec(s, turns))
    decreases |turns|
  {
    if turns != [] {
      StepKeepsQueues(s, turns[0]);
      RunKeepsQueues(Step(s, turns[0]), turns[1..]);
    }
  }

  /** Every operation, on every branch, begins by locking the map of wallets. */
  lemma EveryOperationTakesWallets(op: Op)
    ensures Actions(CodeOf(op)) != [] && TakesWallets(Actions(CodeOf(op))[0])
  {
  }

  /** Task j has not begun its m-th operation. */
  ghost predicate HasYetToBegin(jobs: seq<Job>, s: System, j: nat, m: nat) {
    j < |jobs| == |s.tasks| && m < |jobs[j]| && |From(jobs[j], m)| <= |s.tasks[j].todo|
  }

  lemma UnbegunNeedsWallets(jobs: seq<Job>, turns: seq<nat>, j: nat, m: nat)
    requires Schedule(Launch(jobs), turns) && HasYetToBegin(jobs, Exec(Launch(jobs), turns), j, m)
    ensures NeedsWallets(Exec(Launch(jobs), turns).tasks[j])
  {
    var todo, full := Exec(Launch(jobs), turns).tasks[j].todo, Actions(JobCode(jobs[j]));
    assert Launch(jobs).tasks[j].todo == full && IsSuffix(full, full);
    TodoIsSuffix(Launch(jobs), turns, j, full);
    FromTakesWallets(jobs[j], m);
    FromIsSuffix(jobs[j], m);
    LongerSuffixHas(From(jobs[j], m), todo, full);
  }

  lemma FromTakesWallets(job: Job, m: nat)
    requires m < |job|
    ensures From(job, m) != [] && TakesWallets(From(job, m)[0])
  {
    EveryOperationTakesWallets(job[m]);
    assert job[m..][0] == job[m];
  }

  lemma FromIsSuffix(job: Job, m: nat)
    requires m <= |job|
    ensures IsSuffix(From(job, m), Actions(JobCode(job)))
  {
    JobSplits(job, m);
  }

  lemma LongerSuffixHas(rest: seq<Action>, todo: seq<Action>, full: seq<Action>)
    requires 0 < |rest| <= |todo| && IsSuffix(rest, full) && IsSuffix(todo, full)
    ensures rest[0] in todo
  {
    assert todo[|todo| - |rest|] == rest[0];
  }

  /** From any start and after any schedule: while the confirmation of a multiple of ten
      holds the map of wallets, let any task x wait to write it (a new wallet, or reset).
      Then no task that has an operation yet to begin, on any wallet, ever finishes,
      unless it stands in line before x. */
  lemma ManagerFreezes(jobs: seq<Job>, turns: seq<nat>, more: seq<nat>, i: nat, k: nat, x: nat, j: nat, m: nat)
    requires Schedule(Launch(jobs), turns) && Schedule(Exec(Launch(jobs), turns), more)
    requires ConfirmHolds(jobs, Exec(Launch(jobs), turns), i, k, W)
    requires WaitsToWrite(Exec(Launch(jobs), turns), x)
    requires HasYetToBegin(jobs, Exec(Launch(jobs), turns), j, m)
    requires var q := Queue(Exec(Launch(jobs), turns), Wallets); j == x || j !in q || Behind(q, x, j)
    ensures !Finished(Exec(Exec(Launch(jobs), turns), more).tasks[j])
  {
    var s := Exec(Launch(jobs), turns);
    RunKeepsQueues(Launch(jobs), turns);
    LaunchedHoldsForGood(jobs, turns, i, k, W);
    UnbegunNeedsWallets(jobs, turns, j, m);
    var q := Queue(s, Wallets);
    var p :| 0 <= p < |q| && q[p] == x;
    if j == x || j !in q {
      assert j !in q[..p];
    }
    FrozenForGood(s, more, i, x, j, From(jobs[i], k), jobs[i][k].a);
  }

  lemma Asks(s: System, i: nat)
    requires i < |s.tasks| && !s.tasks[i].waiting && s.tasks[i].todo != [] && s.tasks[i].todo[0].Acquire?
    ensures CanStep(s, i) && Step(s, i).tasks == s.tasks[i := s.tasks[i].(waiting := true)]
    ensures var l := s.tasks[i].todo[0].h.l; Queue(Step(s, i), l) == Queue(s, l) + [i]
  {
  }

  lemma IsGranted(s: System, i: nat, h: Hold)
    requires i < |s.tasks| && s.tasks[i].waiting && s.tasks[i].todo != [] && s.tasks[i].todo[0] == Acquire(h)
    requires Queue(s, h.l) == [i] && forall k :: 0 <= k < |s.tasks| ==> s.tasks[k].held == multiset{}
    ensures CanStep(s, i) && Step(s, i).tasks == s.tasks[i := Task(s.tasks[i].todo[1..], multiset{h}, false)]
    ensures Queue(Step(s, i), h.l) == []
  {
    assert multiset{} + multiset{h} == multiset{h};
  }

  ghost predicate ReadyToFreeze(s: System) {
    && |s.tasks| == 3 && s.queues == map[]
    && (forall k :: 0 <= k < 3 ==> s.tasks[k].held == multiset{} && !s.tasks[k].waiting)
    && s.tasks[0].todo != [] && s.tasks[0].todo[0] == Acquire(W)
    && s.tasks[1].todo != [] && s.tasks[1].todo[0] == Acquire(Hold(Wallets, Exclusive))
  }

  lemma FreezesInThree(s0: System)
    requires ReadyToFreeze(s0)
    ensures Schedule(s0, [0, 0, 1])
    ensures var s := Exec(s0, [0, 0, 1]);
            && s.tasks[0] == Task(s0.tasks[0].todo[1..], multiset{W}, false)
            && s.tasks[1].todo == s0.tasks[1].todo && s.tasks[2] == s0.tasks[2]
            && WaitsToWrite(s, 1) && Queue(s, Wallets) == [1]
  {
    var s1 := Step(s0, 0);
    var s2 := Step(s1, 0);
    Asks(s0, 0);
    IsGranted(s1, 0, W);
    assert s2.tasks[1] == s0.tasks[1] && s2.tasks[2] == s0.tasks[2];
    Asks(s2, 1);
    var s3 := Step(s2, 1);
    assert s3.tasks[0] == s2.tasks[0] && s3.tasks[1] == s0.tasks[1].(waiting := true) && s3.tasks[2] == s0.tasks[2];
    ThreeTurns(s0, s1, s2, s3);
  }

  /** A confirmation of a multiple of ten, a reset, and any other task. */
  ghost predicate Freezing(jobs: seq<Job>) {
    && |jobs| == 3 && jobs[0] != [] && jobs[1] != [] && jobs[2] != []
    && Relocks(jobs[0][0]) && jobs[1][0] == Reset
  }

  lemma FirstAction(job: Job)
    requires job != [] && Actions(CodeOf(job[0])) != []
    ensures Start(job).todo != [] && Start(job).todo[0] == Actions(CodeOf(job[0]))[0]
  {
  }

  lemma FreezingIsReady(jobs: seq<Job>)
    requires Freezing(jobs)
    ensures ReadyToFreeze(Launch(jobs))
  {
    ConfirmIsFatal(jobs[0][0]);
    Leaf(Hold(Wallets, Exclusive), 0);
    FirstAction(jobs[0]);
    FirstAction(jobs[1]);
  }

  /** It does happen, in three steps: the confirmation is granted the map of wallets,
      then the reset asks for it; whatever follows, neither the reset nor the other
      task ever finishes. */
  lemma FreezeHappens(jobs: seq<Job>, more: seq<nat>, j: nat)
    requires Freezing(jobs) && 1 <= j <= 2
    ensures Schedule(Launch(jobs), [0, 0, 1])
    ensures Schedule(Exec(Launch(jobs), [0, 0, 1]), more) ==>
              !Finished(Exec(Exec(Launch(jobs), [0, 0, 1]), more).tasks[j])
  {
    FreezingIsReady(jobs);
    FreezesInThree(Launch(jobs));
    var s := Exec(Launch(jobs), [0, 0, 1]);
    assert jobs[0][..0] == [] && jobs[0][0..] == jobs[0] && jobs[j][0..] == jobs[j];
    assert ConfirmHolds(jobs, s, 0, 0, W) && HasYetToBegin(jobs, s, j, 0);
    if Schedule(s, more) {
      ManagerFreezes(jobs, [0, 0, 1], more, 0, 0, 1, j, 0);
    }
  }

  lemma ThreeTurns(s0: System, s1: System, s2: System, s3: System)
    requires CanStep(s0, 0) && s1 == Step(s0, 0)
    requires CanStep(s1, 0) && s2 == Step(s1, 0)
    requires CanStep(s2, 1) && s3 == Step(s2, 1)
    ensures Schedule(s0, [0, 0, 1]) && Exec(s0, [0, 0, 1]) == s3
  {
    var turns: seq<nat> := [0, 0, 1];
    assert turns[1..] == [0, 1] && turns[1..][1..] == [1] && turns[1..][1..][1..] == [];
    assert Schedule(s2, [1]) && Exec(s2, [1]) == s3;
    assert Schedule(s1, [0, 1]) && Exec(s1, [0, 1]) == s3;
  }
}
