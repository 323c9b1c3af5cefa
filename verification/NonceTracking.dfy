/** What the four tracking structures of a wallet say about each other along a run:
    agreement, conservation of nonces, and recovery from a nonce error. */
module NonceTracking {
  import opened Basics
  import opened NonceModel
  import opened NonceEffects
  import opened NonceRuns

  // ----- agreement

  /** The request map holds exactly the taken nonces, and the in-flight set is exactly
      what the map calls InFlight. */
  ghost predicate Agrees(t: Tracked) {
    && Exclusive(t)
    && (forall n: nat :: n in t.w.requests <==> Taken(t, n))
    && t.w.inFlight == InState(t.w.requests, InFlight)
    && t.w.inFlight <= t.submitted
    && (forall n: nat :: Taken(t, n) || n in t.w.failed ==> n < t.w.cached)
  }

  /** The steps of a run in which clean-up never runs and nothing is put back or failed
      behind a holder's back. */
  predicate Plain(op: Op) {
    !op.DoCleanup? && !op.DoRelease? && !op.DoRecycle?
  }

  ghost predicate PlainAt(es: seq<Event>, a: Address) {
    forall e :: e in es && e.a == a ==> Plain(e.op)
  }

  lemma StepAgrees(t: Tracked, id: nat, op: Op)
    requires Agrees(t) && IdsBelow(t, id) && Allowed(t, op) && Plain(op)
    ensures Agrees(StepWallet(t, id, op))
  {
    DisciplineIsExact(t, id, op);
    var r := StepWallet(t, id, op);
    match op
    case DoReserve => if NextNonce(t.w).Some? { ReserveAgrees(t, id); }
    case DoSubmit(h) => if h in t.live { SubmitAgrees(t, id, h); }
    case DoDrop(h) => if h in t.live { DropAgrees(t, id, h); }
    case DoInitialize(_) => assert forall m: nat :: Taken(r, m) <==> Taken(t, m);
    case DoConfirm(n) => ConfirmAgrees(t, id, n);
    case DoNonceError(attempted, actual) => NonceErrorAgrees(t, id, attempted, actual);
  }

  lemma ConfirmAgrees(t: Tracked, id: nat, n: nat)
    requires Agrees(t) && Exclusive(StepWallet(t, id, DoConfirm(n)))
    ensures Agrees(StepWallet(t, id, DoConfirm(n)))
  {
    assert forall m: nat :: Taken(StepWallet(t, id, DoConfirm(n)), m) <==> Taken(t, m);
  }

  lemma NonceErrorAgrees(t: Tracked, id: nat, attempted: nat, actual: nat)
    requires Agrees(t) && Exclusive(StepWallet(t, id, DoNonceError(attempted, actual)))
    ensures Agrees(StepWallet(t, id, DoNonceError(attempted, actual)))
  {
    assert forall m: nat :: Taken(StepWallet(t, id, DoNonceError(attempted, actual)), m) <==> Taken(t, m);
  }

  lemma ReserveAgrees(t: Tracked, id: nat)
    requires Agrees(t) && IdsBelow(t, id) && NextNonce(t.w).Some? && Exclusive(StepWallet(t, id, DoReserve))
    ensures Agrees(StepWallet(t, id, DoReserve))
  {
    var r, n := StepWallet(t, id, DoReserve), NextNonce(t.w).value;
    assert !Taken(t, n);
    TakenAfterReserve(t, id);
    assert n !in t.w.requests;
    assert r.w.requests == t.w.requests[n := Request(id, Reserved)];
  }

  lemma SubmitAgrees(t: Tracked, id: nat, h: nat)
    requires Agrees(t) && h in t.live && Exclusive(StepWallet(t, id, DoSubmit(h)))
    ensures Agrees(StepWallet(t, id, DoSubmit(h)))
  {
    HandOver(t, h);
    assert Taken(t, t.live[h]);
    var r := StepWallet(t, id, DoSubmit(h));
    assert forall m: nat :: Taken(r, m) <==> Taken(t, m);
  }

  lemma DropAgrees(t: Tracked, id: nat, h: nat)
    requires Agrees(t) && h in t.live && Exclusive(StepWallet(t, id, DoDrop(h)))
    ensures Agrees(StepWallet(t, id, DoDrop(h)))
  {
    HandOver(t, h);
    assert Taken(t, t.live[h]);
    var r := StepWallet(t, id, DoDrop(h));
    assert forall m: nat :: Taken(r, m) <==> Taken(t, m) && m != t.live[h];
  }

  lemma TakenAfterReserve(t: Tracked, id: nat)
    requires IdsBelow(t, id) && NextNonce(t.w).Some?
    ensures forall m: nat :: Taken(StepWallet(t, id, DoReserve), m) <==> Taken(t, m) || m == NextNonce(t.w).value
  {
    var r, n := StepWallet(t, id, DoReserve), NextNonce(t.w).value;
    assert r.live[id] == n;
    forall m | m in t.live.Values ensures m in r.live.Values {
      var h :| h in t.live && t.live[h] == m;
      assert r.live[h] == m;
    }
  }

  lemma {:induction false} RunAgrees(s: World, es: seq<Event>, a: Address)
    requires Agrees(At(s, a)) && IdsBelow(At(s, a), s.nextId) && DisciplinedAt(s, es, a) && PlainAt(es, a)
    ensures Agrees(At(Exec(s, es), a)) && IdsBelow(At(Exec(s, es), a), Exec(s, es).nextId)
    decreases |es|
  {
    if es != [] {
      assert es[0] in es;
      if es[0].a == a { StepAgrees(At(s, a), s.nextId, es[0].op); }
      StepKeepsIds(s, es[0], a);
      RunAgrees(Step(s, es[0]), es[1..], a);
    }
  }

  /** In every disciplined run without clean-up the in-flight set is exactly the
      requests in state InFlight, the recycle queue has no duplicates and no tracked
      nonce, and whatever is tracked, queued or in flight lies below the counter. */
  lemma StructuresAgree(es: seq<Event>, a: Address)
    requires DisciplinedAt(START, es, a) && PlainAt(es, a)
    ensures var w := At(Exec(START, es), a).w;
            && w.inFlight == InState(w.requests, InFlight)
            && NoDuplicates(w.failed)
            && (forall n :: n in w.failed ==> n !in w.requests)
            && (forall n: nat :: n in w.requests || n in w.failed || n in w.inFlight ==> n < w.cached)
  {
    RunAgrees(START, es, a);
    var t := At(Exec(START, es), a);
    forall n: nat | n in t.w.requests || n in t.w.failed || n in t.w.inFlight ensures n < t.w.cached {
      assert n in t.w.inFlight ==> n in t.w.requests;
      assert n in t.w.requests ==> Taken(t, n);
    }
  }

  // ----- conservation

  /** Every nonce from the starting one up to the counter is tracked or queued, and no
      tracked one has failed. */
  ghost predicate Conserved(t: Tracked, start: nat) {
    && Agrees(t)
    && 0 < start <= t.w.cached
    && (forall n: nat :: start <= n < t.w.cached <==> n in t.w.requests || n in t.w.failed)
    && InState(t.w.requests, Failed) == {}
  }

  predicate Everyday(op: Op) {
    op.DoReserve? || op.DoSubmit? || op.DoDrop? || op.DoConfirm?
  }

  ghost predicate EverydayAt(es: seq<Event>, a: Address) {
    forall e :: e in es && e.a == a ==> Everyday(e.op)
  }

  lemma ReserveConserves(t: Tracked, id: nat, start: nat)
    requires Conserved(t, start) && Agrees(StepWallet(t, id, DoReserve)) && Allowed(t, DoReserve)
    ensures Conserved(StepWallet(t, id, DoReserve), start)
  {
    var r := StepWallet(t, id, DoReserve);
    if t.w.failed != [] {
      assert forall n :: n in t.w.failed <==> n == t.w.failed[0] || n in r.w.failed;
    }
    assert forall n :: n in t.w.requests ==> n !in InState(t.w.requests, Failed);
  }

  lemma DropConserves(t: Tracked, id: nat, h: nat, start: nat)
    requires Conserved(t, start) && Agrees(StepWallet(t, id, DoDrop(h)))
    ensures Conserved(StepWallet(t, id, DoDrop(h)), start)
  {
    var r := StepWallet(t, id, DoDrop(h));
    if h in t.live {
      assert Taken(t, t.live[h]);
      assert forall n :: n in r.w.failed <==> n in t.w.failed || n == t.live[h];
    }
    assert forall n :: n in t.w.requests ==> n !in InState(t.w.requests, Failed);
  }

  lemma StepConserves(t: Tracked, id: nat, op: Op, start: nat)
    requires Conserved(t, start) && IdsBelow(t, id) && Allowed(t, op) && Everyday(op)
    ensures Conserved(StepWallet(t, id, op), start)
  {
    StepAgrees(t, id, op);
    assert forall n :: n in t.w.requests ==> n !in InState(t.w.requests, Failed);
    match op
    case DoReserve => ReserveConserves(t, id, start);
    case DoDrop(h) => DropConserves(t, id, h, start);
    case _ =>
  }

  lemma ConservedAtStart(start: nat)
    requires 0 < start
    ensures Conserved(FRESH.(w := Initialize(FRESH_WALLET, start)), start)
  {
  }

  lemma {:induction false} RunConserves(s: World, es: seq<Event>, a: Address, start: nat)
    requires Conserved(At(s, a), start) && IdsBelow(At(s, a), s.nextId) && DisciplinedAt(s, es, a) && EverydayAt(es, a)
    ensures Conserved(At(Exec(s, es), a), start)
    decreases |es|
  {
    if es != [] {
      assert es[0] in es;
      if es[0].a == a { StepConserves(At(s, a), s.nextId, es[0].op, start); }
      StepKeepsIds(s, es[0], a);
      RunConserves(Step(s, es[0]), es[1..], a, start);
    }
  }

  function Range(lo: nat, hi: nat): (r: set<nat>)
    ensures forall n: nat :: n in r <==> lo <= n < hi
    ensures |r| == if lo <= hi then hi - lo else 0
    decreases hi
  {
    if lo < hi then Range(lo, hi - 1) + {hi - 1} else {}
  }

  function Members(q: seq<nat>): (r: set<nat>) {
    set n | n in q
  }

  lemma {:induction false} QueueSize(q: seq<nat>)
    requires NoDuplicates(q)
    ensures |Members(q)| == |q|
  {
    if q != [] {
      QueueSize(q[1..]);
      assert Members(q) == Members(q[1..]) + {q[0]};
      assert q[0] !in q[1..];
    }
  }

  ghost predicate IsPartition(a: set<nat>, b: set<nat>, c: set<nat>, d: set<nat>, all: set<nat>) {
    a !! b !! c !! d && a + b + c + d == all
  }

  /** The four places a nonce can be, and that together they hold each nonce from
      `start` up to the counter exactly once. */
  ghost predicate Partitioned(w: Wallet, start: nat) {
    var reserved, confirmed := InState(w.requests, Reserved), InState(w.requests, Confirmed);
    && start <= w.cached
    && IsPartition(reserved, Members(w.failed), w.inFlight, confirmed, Range(start, w.cached))
    && |reserved| + |w.failed| + |w.inFlight| + |confirmed| == w.cached - start
    && |w.requests| + |w.failed| == w.cached - start
  }

  lemma FourParts(
    reserved: set<nat>, queued: set<nat>, flying: set<nat>, confirmed: set<nat>, keys: set<nat>, all: set<nat>)
    requires reserved !! flying !! confirmed && reserved + flying + confirmed == keys
    requires keys !! queued && keys + queued == all
    ensures IsPartition(reserved, queued, flying, confirmed, all)
    ensures |keys| == |reserved| + |flying| + |confirmed| && |all| == |keys| + |queued|
  {
    assert |reserved + flying + confirmed| == |reserved + flying| + |confirmed|;
    assert |reserved + flying| == |reserved| + |flying|;
  }

  lemma StatesSplit(requests: map<nat, Request>)
    requires InState(requests, Failed) == {}
    ensures InState(requests, Reserved) !! InState(requests, InFlight) !! InState(requests, Confirmed)
    ensures requests.Keys == InState(requests, Reserved) + InState(requests, InFlight) + InState(requests, Confirmed)
  {
    assert forall n :: n in requests ==> n !in InState(requests, Failed);
  }

  lemma PlacesCover(t: Tracked, start: nat)
    requires Conserved(t, start)
    ensures t.w.requests.Keys + Members(t.w.failed) == Range(start, t.w.cached)
    ensures t.w.requests.Keys !! Members(t.w.failed)
  {
  }

  lemma PlacesAddUp(w: Wallet, start: nat)
    requires start <= w.cached && w.inFlight == InState(w.requests, InFlight) && InState(w.requests, Failed) == {}
    requires w.requests.Keys + Members(w.failed) == Range(start, w.cached) && w.requests.Keys !! Members(w.failed)
    requires |Members(w.failed)| == |w.failed|
    ensures Partitioned(w, start)
  {
    StatesSplit(w.requests);
    FourParts(InState(w.requests, Reserved), Members(w.failed), w.inFlight, InState(w.requests, Confirmed),
              w.requests.Keys, Range(start, w.cached));
  }

  lemma ConservedIsPartitioned(t: Tracked, start: nat)
    requires Conserved(t, start)
    ensures Partitioned(t.w, start)
  {
    PlacesCover(t, start);
    QueueSize(t.w.failed);
    PlacesAddUp(t.w, start);
  }

  /** After initialize(start) on a new wallet, every nonce from `start` up to the counter
      is in exactly one place: reserved, queued for reuse, in flight or confirmed. */
  lemma NonceConservation(before: seq<Event>, es: seq<Event>, a: Address, start: nat)
    requires 0 < start
    requires forall e :: e in before ==> e.a != a
    requires var s := Step(Exec(START, before), Event(a, DoInitialize(start)));
             DisciplinedAt(s, es, a) && EverydayAt(es, a)
    ensures Partitioned(At(Exec(Step(Exec(START, before), Event(a, DoInitialize(start))), es), a).w, start)
  {
    Untouched(START, before, a);
    var s := Step(Exec(START, before), Event(a, DoInitialize(start)));
    ConservedAtStart(start);
    assert At(s, a) == FRESH.(w := Initialize(FRESH_WALLET, start));
    RunConserves(s, es, a, start);
    ConservedIsPartitioned(At(Exec(s, es), a), start);
  }

  lemma {:induction false} Untouched(s: World, es: seq<Event>, a: Address)
    requires forall e :: e in es ==> e.a != a
    ensures At(Exec(s, es), a) == At(s, a)
    decreases |es|
  {
    if es != [] {
      assert es[0] in es;
      Untouched(Step(s, es[0]), es[1..], a);
    }
  }

  // ----- recovery

  /** The bulk invalidation fails every tracked nonce below the chain's next one and
      takes it out of flight; requests at or above it, and queued nonces that were not
      tracked, are left alone. */
  lemma RecoveryInvalidates(w: Wallet, attempted: nat, actual: nat)
    requires actual > w.cached
    ensures var r := HandleNonceError(w, attempted, actual);
            && r.cached == actual && r.confirmed == actual - 1
            && r.requests.Keys == w.requests.Keys
            && (forall n :: n in r.requests ==> r.requests[n].id == w.requests[n].id)
            && (forall n :: n in r.requests && n < actual ==> r.requests[n].state == Failed && n !in r.inFlight)
            && (forall n :: n in r.requests && n >= actual && n != attempted ==> r.requests[n] == w.requests[n])
            && (forall n :: n in w.failed && n !in w.requests ==> n in r.failed)
  {
  }

  /** The counter never goes back: no wrap, and no initialize strictly between the
      confirmed and the cached nonce. */
  ghost predicate Steady(w: Wallet, op: Op) {
    && (op.DoReserve? && w.failed == [] && w.cached != 0 ==> w.cached + 1 != TWO_64)
    && (op.DoInitialize? ==> !(w.confirmed < op.count < w.cached))
  }

  ghost predicate SteadyAt(s: World, es: seq<Event>, a: Address)
    decreases |es|
  {
    es == [] || ((es[0].a == a ==> Steady(At(s, a).w, es[0].op)) && SteadyAt(Step(s, es[0]), es[1..], a))
  }

  /** While the counter is steady it hands out strictly increasing nonces, none below
      where it stood. */
  lemma {:induction false} FreshIncrease(s: World, es: seq<Event>, a: Address)
    requires SteadyAt(s, es, a)
    ensures forall i :: 0 <= i < |Fresh(s, es, a)| ==> At(s, a).w.cached <= Fresh(s, es, a)[i]
    ensures forall i, j :: 0 <= i < j < |Fresh(s, es, a)| ==> Fresh(s, es, a)[i] < Fresh(s, es, a)[j]
    decreases |es|
  {
    if es != [] {
      FreshIncrease(Step(s, es[0]), es[1..], a);
    }
  }

  /** Nonces that could still be handed out without touching the counter: queued ones,
      and those a handle may yet give back. */
  function Recyclable(t: Tracked): (r: set<nat>) {
    Members(t.w.failed) + t.live.Values
  }

  /** Whatever is handed out below the counter was recyclable when the run began. */
  lemma {:induction false} LowNoncesWereRecyclable(s: World, es: seq<Event>, a: Address, bound: nat)
    requires SteadyAt(s, es, a) && bound <= At(s, a).w.cached
    requires forall e :: e in es && e.a == a ==> Plain(e.op)
    ensures forall n :: n in Issued(s, es, a) && n < bound ==> n in Recyclable(At(s, a))
    decreases |es|
  {
    if es != [] {
      var e, s' := es[0], Step(s, es[0]);
      assert e in es;
      var t, t' := At(s, a), At(s', a);
      LowNoncesWereRecyclable(s', es[1..], a, bound);
      if e.a == a {
        forall n | n in Recyclable(t') && n < bound ensures n in Recyclable(t) {
          LowStep(t, s.nextId, e.op, bound, n);
        }
      }
    }
  }

  lemma LowStep(t: Tracked, id: nat, op: Op, bound: nat, n: nat)
    requires Steady(t.w, op) && bound <= t.w.cached && Plain(op)
    requires n in Recyclable(StepWallet(t, id, op)) && n < bound
    ensures n in Recyclable(t)
  {
    var r := StepWallet(t, id, op);
    if n in r.live.Values {
      var h :| h in r.live && r.live[h] == n;
      if op.DoReserve? && NextNonce(t.w).Some? && h == id {
        assert t.w.failed != [] ==> n == t.w.failed[0];
      } else {
        assert h in t.live && t.live[h] == n;
      }
    } else if op.DoDrop? && op.id in t.live && n == t.live[op.id] {
    } else {
      assert n in t.w.failed;
    }
  }

  /** Whatever goes in flight below the counter was in flight or recyclable when the run
      began. */
  lemma {:induction false} LowFlightsWereRecyclable(s: World, es: seq<Event>, a: Address, bound: nat)
    requires SteadyAt(s, es, a) && bound <= At(s, a).w.cached && PlainAt(es, a)
    ensures forall n :: n in At(Exec(s, es), a).w.inFlight && n < bound ==>
              n in At(s, a).w.inFlight || n in Recyclable(At(s, a))
    decreases |es|
  {
    if es != [] {
      var e, s' := es[0], Step(s, es[0]);
      assert e in es;
      var t, t' := At(s, a), At(s', a);
      LowFlightsWereRecyclable(s', es[1..], a, bound);
      if e.a == a {
        forall n | n in t'.w.inFlight ensures n in t.w.inFlight || n in Recyclable(t) {
          FlightStep(t, s.nextId, e.op, n);
        }
        forall n | n in Recyclable(t') && n < bound ensures n in Recyclable(t) {
          LowStep(t, s.nextId, e.op, bound, n);
        }
      }
    }
  }

  lemma FlightStep(t: Tracked, id: nat, op: Op, n: nat)
    requires n in StepWallet(t, id, op).w.inFlight
    ensures n in t.w.inFlight || n in t.live.Values
  {
  }

  /** The wallet just after a nonce error, for any next nonce the chain reports. */
  ghost predicate Recovered(before: Tracked, after: Tracked, attempted: nat, actual: nat) {
    var w0, w := before.w, after.w;
    && after.live == before.live && after.submitted == before.submitted
    && w.cached == Max(w0.cached, actual) && w.confirmed == (if actual == 0 then 0 else actual - 1)
    && Becomes(w0, w, attempted, Failed) && attempted !in w.inFlight
    && (actual <= w0.cached ==> OthersKept(w0, w, attempted) && w.failed == w0.failed)
    && (actual > w0.cached ==>
          && (forall n :: n in w.requests && n < actual ==> w.requests[n].state == Failed)
          && (forall n: nat :: n < actual ==> n !in w.inFlight))
  }

  lemma ErrorRecovers(t: Tracked, id: nat, attempted: nat, actual: nat)
    requires Agrees(t)
    ensures Recovered(t, StepWallet(t, id, DoNonceError(attempted, actual)), attempted, actual)
  {
    NonceErrorEffect(t.w, attempted, actual);
    if actual > t.w.cached {
      RecoveryInvalidates(t.w, attempted, actual);
    }
  }

  /** Recovery over a whole run, whatever the chain reports: the attempted nonce is failed
      and out of flight, and with a report above the counter so is every lower nonce; later
      fresh allocations start at the larger of counter and report and only rise; a lower
      nonce handed out later was queued or held at the time of the error; and one that had
      been submitted and is out of flight never flies again. */
  lemma Recovery(before: seq<Event>, after: seq<Event>, a: Address, attempted: nat, actual: nat)
    requires DisciplinedAt(START, before, a) && PlainAt(before, a) && a in Exec(START, before).at
    requires SteadyAt(Step(Exec(START, before), Event(a, DoNonceError(attempted, actual))), after, a)
    requires PlainAt(after, a)
    ensures var s0 := Exec(START, before);
            var s := Step(s0, Event(a, DoNonceError(attempted, actual)));
            var t := At(s, a);
            && Recovered(At(s0, a), t, attempted, actual)
            && (forall i :: 0 <= i < |Fresh(s, after, a)| ==> t.w.cached <= Fresh(s, after, a)[i])
            && (forall i, j :: 0 <= i < j < |Fresh(s, after, a)| ==> Fresh(s, after, a)[i] < Fresh(s, after, a)[j])
            && (forall n :: n in Issued(s, after, a) && n < t.w.cached ==> n in Recyclable(t))
            && (forall n :: n in t.submitted && n !in t.w.inFlight ==> n !in At(Exec(s, after), a).w.inFlight)
  {
    var s0 := Exec(START, before);
    var s := Step(s0, Event(a, DoNonceError(attempted, actual)));
    var t := At(s, a);
    RunAgrees(START, before, a);
    StepAgrees(At(s0, a), s0.nextId, DoNonceError(attempted, actual));
    ErrorRecovers(At(s0, a), s0.nextId, attempted, actual);
    FreshIncrease(s, after, a);
    LowNoncesWereRecyclable(s, after, a, t.w.cached);
    LowFlightsWereRecyclable(s, after, a, t.w.cached);
    forall n | n in t.submitted ensures n < t.w.cached && n !in Recyclable(t) {
      assert Taken(t, n);
    }
  }

  /** n reservations in a row. */
  function Reserves(a: Address, n: nat): (r: seq<Event>)
    ensures |r| == n
  {
    if n == 0 then [] else [Event(a, DoReserve)] + Reserves(a, n - 1)
  }

  lemma {:induction false} ReservesArePlain(a: Address, n: nat)
    ensures forall e :: e in Reserves(a, n) ==> e == Event(a, DoReserve)
  {
    if n > 0 {
      ReservesArePlain(a, n - 1);
    }
  }

  lemma {:induction false} QueueIsHandedOut(s: World, a: Address, k: nat)
    requires a in s.at && k < |At(s, a).w.failed|
    ensures At(s, a).w.failed[k] in Issued(s, Reserves(a, k + 1), a)
    ensures SteadyAt(s, Reserves(a, k + 1), a)
    decreases k
  {
    var es, s' := Reserves(a, k + 1), Step(s, Event(a, DoReserve));
    assert es[0] == Event(a, DoReserve) && es[1..] == Reserves(a, k);
    assert At(s', a).w.failed == At(s, a).w.failed[1..];
    if k > 0 {
      QueueIsHandedOut(s', a, k - 1);
    }
  }

  /** First in, first out: as many reservations as the queue is long hand it out in order. */
  lemma {:induction false} QueueIsHandedOutInOrder(s: World, a: Address)
    requires a in s.at
    ensures Issued(s, Reserves(a, |At(s, a).w.failed|), a) == At(s, a).w.failed
    decreases |At(s, a).w.failed|
  {
    var q := At(s, a).w.failed;
    if q != [] {
      var es, s' := Reserves(a, |q|), Step(s, Event(a, DoReserve));
      assert es[0] == Event(a, DoReserve) && es[1..] == Reserves(a, |q| - 1);
      assert At(s', a).w.failed == q[1..];
      QueueIsHandedOutInOrder(s', a);
    }
  }

  /** A nonce given back, by release_nonce or by the drop of its handle, comes out after
      everything queued before it. */
  lemma GivenBackGoesLast(s: World, a: Address, n: nat, op: Op)
    requires a in s.at && n !in At(s, a).w.failed
    requires op == DoRelease(n) || (op.DoDrop? && op.id in At(s, a).live && At(s, a).live[op.id] == n)
    ensures var q := At(s, a).w.failed;
            Issued(Step(s, Event(a, op)), Reserves(a, |q| + 1), a) == q + [n]
  {
    QueueIsHandedOutInOrder(Step(s, Event(a, op)), a);
  }

  // ----- which nonces can come back

  ghost predicate IssuedBy(s: World, es: seq<Event>, a: Address, n: nat) {
    SteadyAt(s, es, a) && PlainAt(es, a) && n in Issued(s, es, a)
  }

  /** Some continuation hands the nonce out: one that neither rewinds the counter nor puts
      anything back behind a holder's back. */
  ghost predicate CanIssue(s: World, a: Address, n: nat) {
    exists es :: IssuedBy(s, es, a, n)
  }

  lemma QueuedCanIssue(s: World, a: Address, n: nat)
    requires a in s.at && n in At(s, a).w.failed
    ensures exists k :: IssuedBy(s, Reserves(a, k), a, n)
  {
    var q := At(s, a).w.failed;
    var k :| 0 <= k < |q| && q[k] == n;
    QueueIsHandedOut(s, a, k);
    ReservesArePlain(a, k + 1);
    assert IssuedBy(s, Reserves(a, k + 1), a, n);
  }

  lemma HeldCanIssue(s: World, a: Address, h: nat)
    requires a in s.at && h in s.at[a].live
    ensures exists k :: IssuedBy(s, [Event(a, DoDrop(h))] + Reserves(a, k), a, s.at[a].live[h])
  {
    var n, s' := s.at[a].live[h], Step(s, Event(a, DoDrop(h)));
    QueuedCanIssue(s', a, n);
    var k :| IssuedBy(s', Reserves(a, k), a, n);
    var es := [Event(a, DoDrop(h))] + Reserves(a, k);
    assert es[1..] == Reserves(a, k);
    assert Issued(s, es, a) == [] + Issued(s', Reserves(a, k), a);
    assert IssuedBy(s, es, a, n);
  }

  /** A nonce below the counter can be handed out again if and only if it is queued or
      some open handle holds it. */
  lemma ReissuableIff(s: World, a: Address, n: nat)
    requires n < At(s, a).w.cached
    ensures CanIssue(s, a, n) <==> n in Recyclable(At(s, a))
  {
    if CanIssue(s, a, n) {
      var es :| IssuedBy(s, es, a, n);
      LowNoncesWereRecyclable(s, es, a, At(s, a).w.cached);
    }
    if n in s.at[a].w.failed {
      QueuedCanIssue(s, a, n);
    } else if n in s.at[a].live.Values {
      var h :| h in s.at[a].live && s.at[a].live[h] == n;
      HeldCanIssue(s, a, h);
    }
  }

  /** The dead nonce. After an error that reports n as too low, whatever the chain's next
      nonce, n can be handed out again if and only if it was queued or held before the
      error: the error itself strikes every stale nonce from the queue except that one,
      and closes no handle. */
  lemma DeadNonceReturnsIff(s: World, a: Address, n: nat, actual: nat)
    requires a in s.at && (n < actual || n < At(s, a).w.cached)
    ensures CanIssue(Step(s, Event(a, DoNonceError(n, actual))), a, n) <==> n in Recyclable(At(s, a))
  {
    var s' := Step(s, Event(a, DoNonceError(n, actual)));
    ReissuableIff(s', a, n);
    assert n in At(s', a).w.failed <==> n in At(s, a).w.failed;
  }

  /** In particular a sender that reports the error and then drops the handle, as the
      drop handler does unasked, hands the dead nonce to the next in line. */
  lemma DeadNonceReturns(s: World, a: Address, h: nat, actual: nat)
    requires a in s.at && h in s.at[a].live
    ensures var n := s.at[a].live[h];
            var s' := Step(Step(s, Event(a, DoNonceError(n, actual))), Event(a, DoDrop(h)));
            exists k :: IssuedBy(s', Reserves(a, k), a, n)
  {
    var n := s.at[a].live[h];
    var s' := Step(Step(s, Event(a, DoNonceError(n, actual))), Event(a, DoDrop(h)));
    assert n in At(s', a).w.failed;
    QueuedCanIssue(s', a, n);
  }
}
