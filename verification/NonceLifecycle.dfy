/** What the recorded state of a nonce says about its history. */
module NonceLifecycle {
  import opened Basics
  import opened NonceModel
  import opened NonceRuns
  import opened NonceTracking

  /** The nonces confirmed along a run. */
  function ConfirmedIn(es: seq<Event>, a: Address): (r: set<nat>)
    decreases |es|
  {
    if es == [] then {}
    else (if es[0].a == a && es[0].op.DoConfirm? then {es[0].op.nonce} else {}) + ConfirmedIn(es[1..], a)
  }

  /** Only nonces that were submitted are confirmed. */
  predicate ConfirmsSubmitted(t: Tracked, op: Op) {
    op.DoConfirm? ==> op.nonce in t.submitted
  }

  ghost predicate ConfirmsSubmittedAt(s: World, es: seq<Event>, a: Address)
    decreases |es|
  {
    es == []
    || ((es[0].a == a ==> ConfirmsSubmitted(At(s, a), es[0].op)) && ConfirmsSubmittedAt(Step(s, es[0]), es[1..], a))
  }

  /** Reserved are the nonces of the open handles, each under the id of its handle; in
      flight those submitted and not yet confirmed; Confirmed those confirmed; and the
      confirmed counter is the highest of these, or one less than where it all began. */
  ghost predicate TellsHistory(t: Tracked, start: nat, done: set<nat>) {
    && done <= t.submitted
    && InState(t.w.requests, Reserved) == t.live.Values
    && InState(t.w.requests, InFlight) == t.submitted - done
    && InState(t.w.requests, Confirmed) == done
    && (forall h :: h in t.live ==> t.live[h] in t.w.requests && t.w.requests[t.live[h]] == Request(h, Reserved))
    && (forall n :: n in done ==> n <= t.w.confirmed)
    && start <= t.w.confirmed + 1
    && (t.w.confirmed + 1 == start || t.w.confirmed in done)
  }

  function DoneAfter(done: set<nat>, op: Op): (r: set<nat>) {
    if op.DoConfirm? then done + {op.nonce} else done
  }

  lemma ReserveTells(t: Tracked, id: nat, start: nat, done: set<nat>)
    requires Agrees(t) && IdsBelow(t, id) && TellsHistory(t, start, done) && Agrees(StepWallet(t, id, DoReserve))
    ensures TellsHistory(StepWallet(t, id, DoReserve), start, done)
  {
    var r := StepWallet(t, id, DoReserve);
    if NextNonce(t.w).Some? {
      var n := NextNonce(t.w).value;
      TakenAfterReserve(t, id);
      assert !Taken(t, n);
      assert n !in t.w.requests;
      assert r.w.requests == t.w.requests[n := Request(id, Reserved)];
      LiveAfter(t, r, id, n);
      assert InState(r.w.requests, Reserved) == InState(t.w.requests, Reserved) + {n};
      assert InState(r.w.requests, InFlight) == InState(t.w.requests, InFlight);
      assert InState(r.w.requests, Confirmed) == InState(t.w.requests, Confirmed);
    }
  }

  lemma LiveAfter(t: Tracked, r: Tracked, id: nat, n: nat)
    requires id !in t.live && r.live == t.live[id := n]
    ensures r.live.Values == t.live.Values + {n}
  {
    assert r.live[id] == n;
    forall m | m in t.live.Values ensures m in r.live.Values {
      var h :| h in t.live && t.live[h] == m;
      assert r.live[h] == m;
    }
  }

  lemma SubmitTells(t: Tracked, id: nat, h: nat, start: nat, done: set<nat>)
    requires Agrees(t) && TellsHistory(t, start, done) && h in t.live
    ensures TellsHistory(StepWallet(t, id, DoSubmit(h)), start, done)
  {
    var r, n := StepWallet(t, id, DoSubmit(h)), t.live[h];
    HandOver(t, h);
    assert n !in done;
    assert InState(r.w.requests, Reserved) == InState(t.w.requests, Reserved) - {n};
    assert InState(r.w.requests, InFlight) == InState(t.w.requests, InFlight) + {n};
    assert InState(r.w.requests, Confirmed) == InState(t.w.requests, Confirmed);
  }

  lemma DropTells(t: Tracked, id: nat, h: nat, start: nat, done: set<nat>)
    requires Agrees(t) && TellsHistory(t, start, done) && h in t.live
    ensures TellsHistory(StepWallet(t, id, DoDrop(h)), start, done)
  {
    var r, n := StepWallet(t, id, DoDrop(h)), t.live[h];
    HandOver(t, h);
    assert InState(r.w.requests, Reserved) == InState(t.w.requests, Reserved) - {n};
    assert InState(r.w.requests, InFlight) == InState(t.w.requests, InFlight);
    assert InState(r.w.requests, Confirmed) == InState(t.w.requests, Confirmed);
  }

  lemma ConfirmTells(t: Tracked, id: nat, n: nat, start: nat, done: set<nat>)
    requires Agrees(t) && TellsHistory(t, start, done) && n in t.submitted
    ensures TellsHistory(StepWallet(t, id, DoConfirm(n)), start, done + {n})
  {
    var r := StepWallet(t, id, DoConfirm(n));
    assert Taken(t, n) && n in t.w.requests && n !in t.live.Values;
    assert InState(r.w.requests, Reserved) == InState(t.w.requests, Reserved);
    assert InState(r.w.requests, InFlight) == InState(t.w.requests, InFlight) - {n};
    assert InState(r.w.requests, Confirmed) == InState(t.w.requests, Confirmed) + {n};
  }

  lemma StepTells(t: Tracked, id: nat, op: Op, start: nat, done: set<nat>)
    requires Agrees(t) && IdsBelow(t, id) && TellsHistory(t, start, done)
    requires Allowed(t, op) && Everyday(op) && ConfirmsSubmitted(t, op)
    ensures TellsHistory(StepWallet(t, id, op), start, DoneAfter(done, op))
  {
    StepAgrees(t, id, op);
    match op
    case DoReserve => ReserveTells(t, id, start, done);
    case DoSubmit(h) => if h in t.live { SubmitTells(t, id, h, start, done); }
    case DoDrop(h) => if h in t.live { DropTells(t, id, h, start, done); }
    case DoConfirm(n) => ConfirmTells(t, id, n, start, done);
  }

  lemma {:induction false} RunTells(s: World, es: seq<Event>, a: Address, start: nat, done: set<nat>)
    requires a in s.at && Agrees(At(s, a)) && IdsBelow(At(s, a), s.nextId) && TellsHistory(At(s, a), start, done)
    requires DisciplinedAt(s, es, a) && EverydayAt(es, a) && ConfirmsSubmittedAt(s, es, a)
    ensures TellsHistory(At(Exec(s, es), a), start, done + ConfirmedIn(es, a))
    decreases |es|
  {
    if es == [] {
      assert done + {} == done;
    } else {
      var e, done' := es[0], if es[0].a == a then DoneAfter(done, es[0].op) else done;
      assert e in es;
      if e.a == a {
        StepTells(At(s, a), s.nextId, e.op, start, done);
        StepAgrees(At(s, a), s.nextId, e.op);
      }
      StepKeepsIds(s, e, a);
      RunTells(Step(s, e), es[1..], a, start, done');
      assert done + ConfirmedIn(es, a) == done' + ConfirmedIn(es[1..], a);
    }
  }

  /** Handles that share no nonce are as many as their nonces. */
  lemma {:induction false} AsManyHandles(live: map<nat, nat>)
    requires forall h, k :: h in live && k in live && h != k ==> live[h] != live[k]
    ensures |live.Values| == |live|
    decreases |live|
  {
    if live != map[] {
      var h :| h in live;
      var rest := live - {h};
      assert live.Values == rest.Values + {live[h]} by {
        forall n | n in live.Values ensures n in rest.Values + {live[h]} {
          var k :| k in live && live[k] == n;
          assert k != h ==> k in rest && rest[k] == n;
        }
      }
      assert |rest| == |live| - 1 by {
        assert live.Keys == rest.Keys + {h};
      }
      AsManyHandles(rest);
    }
  }

  /** After initialize(start) and any everyday run that confirms only what was submitted,
      the recorded states tell the history of every nonce; so the statistics report as
      many reserved nonces as there are open handles. */
  lemma StatesTellHistory(before: seq<Event>, es: seq<Event>, a: Address, start: nat)
    requires 0 < start
    requires forall e :: e in before ==> e.a != a
    requires var s := Step(Exec(START, before), Event(a, DoInitialize(start)));
             DisciplinedAt(s, es, a) && EverydayAt(es, a) && ConfirmsSubmittedAt(s, es, a)
    ensures var t := At(Exec(Step(Exec(START, before), Event(a, DoInitialize(start))), es), a);
            TellsHistory(t, start, ConfirmedIn(es, a)) && |InState(t.w.requests, Reserved)| == |t.live|
  {
    Untouched(START, before, a);
    var s := Step(Exec(START, before), Event(a, DoInitialize(start)));
    ConservedAtStart(start);
    assert At(s, a) == FRESH.(w := Initialize(FRESH_WALLET, start));
    RunTells(s, es, a, start, {});
    assert {} + ConfirmedIn(es, a) == ConfirmedIn(es, a);
    RunConserves(s, es, a, start);
    AsManyHandles(At(Exec(s, es), a).live);
  }

  // ----- clean-up

  /** Clean-up keeps the structures in agreement if and only if nothing tracked lies more
      than 50 below the confirmed counter: it forgets such a request, but not that the
      nonce is in flight or held. */
  lemma CleanupAgreesIff(t: Tracked, id: nat)
    requires Agrees(t)
    ensures Agrees(StepWallet(t, id, DoCleanup)) <==> forall n :: n in t.w.requests ==> n + 50 >= t.w.confirmed
  {
    var r := StepWallet(t, id, DoCleanup);
    assert forall n: nat :: Taken(r, n) <==> Taken(t, n);
    if forall n :: n in t.w.requests ==> n + 50 >= t.w.confirmed {
      assert r.w.requests == t.w.requests;
    } else {
      var n :| n in t.w.requests && n + 50 < t.w.confirmed;
      assert Taken(r, n) && n !in r.w.requests;
    }
  }
}
