/** Whole runs of the nonce manager: any number of wallets, reservation handles held
    by tasks, and every public operation as one step. */
module NonceRuns {
  import opened Basics
  import opened NonceModel

  /** A wallet together with what the tasks know: the handles still open (request id
      to nonce) and every nonce that was ever submitted. */
  datatype Tracked = Tracked(w: Wallet, live: map<nat, nat>, submitted: set<nat>)

  const FRESH := Tracked(FRESH_WALLET, map[], {})

  /** DoSubmit and DoDrop consume a handle. DoRelease is a bare call of release_nonce
      (the first of the two calls that release() makes), DoRecycle a call of
      mark_failed with recycling. */
  datatype Op =
    | DoReserve
    | DoInitialize(count: nat)
    | DoSubmit(id: nat)
    | DoDrop(id: nat)
    | DoConfirm(nonce: nat)
    | DoCleanup
    | DoNonceError(attempted: nat, actual: nat)
    | DoRelease(nonce: nat)
    | DoRecycle(nonce: nat, maxFailed: nat)

  datatype Event = Event(a: Address, op: Op)

  datatype World = World(at: map<Address, Tracked>, nextId: nat)

  const START := World(map[], 1)

  function StepWallet(t: Tracked, id: nat, op: Op): (r: Tracked) {
    match op
    case DoReserve =>
      if NextNonce(t.w).None? then t
      else t.(w := Reserve(t.w, id), live := t.live[id := NextNonce(t.w).value])
    case DoInitialize(count) => t.(w := Initialize(t.w, count))
    case DoSubmit(h) =>
      if h !in t.live then t
      else Tracked(MarkSubmitted(t.w, t.live[h]), t.live - {h}, t.submitted + {t.live[h]})
    case DoDrop(h) =>
      if h !in t.live then t
      else t.(w := Release(t.w, t.live[h]), live := t.live - {h})
    case DoConfirm(n) => t.(w := MarkConfirmed(t.w, n))
    case DoCleanup => t.(w := Cleanup(t.w))
    case DoNonceError(attempted, actual) => t.(w := HandleNonceError(t.w, attempted, actual))
    case DoRelease(n) => t.(w := Release(t.w, n))
    case DoRecycle(n, max) => t.(w := MarkFailedAndRecycle(t.w, n, max))
  }

  predicate Creates(op: Op) {
    op.DoReserve? || op.DoInitialize?
  }

  function At(s: World, a: Address): (r: Tracked) {
    if a in s.at then s.at[a] else FRESH
  }

  /** Only reserve_nonce and initialize create a wallet; the rest ignore one they do
      not know. The request id is taken only when a nonce is handed out. */
  function Step(s: World, e: Event): (r: World) {
    if e.a !in s.at && !Creates(e.op) then s
    else
      World(s.at[e.a := StepWallet(At(s, e.a), s.nextId, e.op)],
            if e.op.DoReserve? && NextNonce(At(s, e.a).w).Some? then s.nextId + 1 else s.nextId)
  }

  function Exec(s: World, es: seq<Event>): (r: World)
    decreases |es|
  {
    if es == [] then s else Exec(Step(s, es[0]), es[1..])
  }

  /** Nonces handed out at `a` along a run, in order. */
  function Issued(s: World, es: seq<Event>, a: Address): (r: seq<nat>)
    decreases |es|
  {
    if es == [] then []
    else
      var next := NextNonce(At(s, a).w);
      (if es[0] == Event(a, DoReserve) && next.Some? then [next.value] else []) + Issued(Step(s, es[0]), es[1..], a)
  }

  /** Those of them that came from the counter rather than the recycle queue. */
  function Fresh(s: World, es: seq<Event>, a: Address): (r: seq<nat>)
    decreases |es|
  {
    if es == [] then []
    else
      var w := At(s, a).w;
      (if es[0] == Event(a, DoReserve) && w.failed == [] && w.cached != 0 then [w.cached] else [])
      + Fresh(Step(s, es[0]), es[1..], a)
  }

  // ----- the discipline, and the invariant it is exact for

  /** A nonce a task holds or has sent. */
  predicate Taken(t: Tracked, n: nat) {
    n in t.live.Values || n in t.submitted
  }

  /** The counter will not hand the nonce out: it has passed it, or the nonce is 0, which
      stands for "not initialised". */
  predicate Passed(w: Wallet, n: nat) {
    n < w.cached || n == 0
  }

  /** What a caller must see to: initialize does not pull the counter under a nonce in
      play, nothing taken is put back behind its holder's back, the counter does not wrap. */
  ghost predicate Allowed(t: Tracked, op: Op) {
    match op
    case DoReserve => t.w.failed == [] && t.w.cached != 0 ==> t.w.cached + 1 != TWO_64
    case DoInitialize(count) =>
      t.w.confirmed < count < t.w.cached ==> forall n: nat :: Taken(t, n) || n in t.w.failed ==> n < count
    case DoRelease(n) => Passed(t.w, n) && !Taken(t, n)
    case DoRecycle(n, max) => n in t.w.failed || max == 0 || (Passed(t.w, n) && !Taken(t, n))
    case _ => true
  }

  /** Open handles, submitted nonces and queued nonces never overlap, and the counter has
      passed all of them. */
  ghost predicate Exclusive(t: Tracked) {
    && (forall h, k :: h in t.live && k in t.live && h != k ==> t.live[h] != t.live[k])
    && (forall h :: h in t.live ==> t.live[h] !in t.submitted)
    && NoDuplicates(t.w.failed)
    && (forall n :: n in t.w.failed ==> !Taken(t, n))
    && (forall n: nat :: Taken(t, n) || n in t.w.failed ==> Passed(t.w, n))
  }

  ghost predicate IdsBelow(t: Tracked, id: nat) {
    forall h :: h in t.live ==> h < id
  }

  ghost predicate DisciplinedAt(s: World, es: seq<Event>, a: Address)
    decreases |es|
  {
    es == [] || ((es[0].a == a ==> Allowed(At(s, a), es[0].op)) && DisciplinedAt(Step(s, es[0]), es[1..], a))
  }

  lemma HandOver(t: Tracked, h: nat)
    requires h in t.live
    requires forall h, k :: h in t.live && k in t.live && h != k ==> t.live[h] != t.live[k]
    ensures (t.live - {h}).Values == t.live.Values - {t.live[h]}
  {
    var rest := t.live - {h};
    forall n | n in t.live.Values - {t.live[h]} ensures n in rest.Values {
      var k :| k in t.live && t.live[k] == n;
      assert k in rest && rest[k] == n;
    }
  }

  /** A step that leaves the handles alone and does not lower the counter is judged by
      its queue only. */
  lemma OnlyTheQueueMatters(t: Tracked, r: Tracked)
    requires Exclusive(t) && r.live == t.live && r.submitted == t.submitted && r.w.cached >= t.w.cached
    ensures Exclusive(r) <==>
            NoDuplicates(r.w.failed) && forall n :: n in r.w.failed ==> !Taken(t, n) && Passed(r.w, n)
  {
    assert forall n: nat :: Taken(r, n) <==> Taken(t, n);
  }

  /** Each step keeps exclusivity exactly when the caller keeps the discipline. */
  lemma DisciplineIsExact(t: Tracked, id: nat, op: Op)
    requires Exclusive(t) && IdsBelow(t, id)
    ensures Exclusive(StepWallet(t, id, op)) <==> Allowed(t, op)
  {
    var r := StepWallet(t, id, op);
    match op
    case DoReserve => ReserveExact(t, id);
    case DoInitialize(count) => InitializeExact(t, id, count);
    case DoSubmit(h) => ConsumeExact(t, id, h);
    case DoDrop(h) => ConsumeExact(t, id, h);
    case DoConfirm(n) => OnlyTheQueueMatters(t, r);
    case DoCleanup => OnlyTheQueueMatters(t, r);
    case DoNonceError(attempted, actual) => NonceErrorKeeps(t, id, attempted, actual);
    case DoRelease(n) => ReleaseExact(t, id, n);
    case DoRecycle(n, max) => RecycleExact(t, id, n, max);
  }

  lemma ReleaseExact(t: Tracked, id: nat, n: nat)
    requires Exclusive(t)
    ensures Exclusive(StepWallet(t, id, DoRelease(n))) <==> Allowed(t, DoRelease(n))
  {
    OnlyTheQueueMatters(t, StepWallet(t, id, DoRelease(n)));
    ReleasedQueue(t.w, n);
  }

  lemma RecycleExact(t: Tracked, id: nat, n: nat, max: nat)
    requires Exclusive(t)
    ensures Exclusive(StepWallet(t, id, DoRecycle(n, max))) <==> Allowed(t, DoRecycle(n, max))
  {
    OnlyTheQueueMatters(t, StepWallet(t, id, DoRecycle(n, max)));
    RecycledQueue(t.w, n, max);
  }

  lemma InitializeExact(t: Tracked, id: nat, count: nat)
    requires Exclusive(t)
    ensures Exclusive(StepWallet(t, id, DoInitialize(count))) <==> Allowed(t, DoInitialize(count))
  {
    var r := StepWallet(t, id, DoInitialize(count));
    assert forall n: nat :: Taken(r, n) <==> Taken(t, n);
  }

  lemma NonceErrorKeeps(t: Tracked, id: nat, attempted: nat, actual: nat)
    requires Exclusive(t)
    ensures Exclusive(StepWallet(t, id, DoNonceError(attempted, actual)))
  {
    OnlyTheQueueMatters(t, StepWallet(t, id, DoNonceError(attempted, actual)));
    WithoutDistinct(t.w.failed, Stale(MarkFailed(t.w, attempted), attempted, actual));
  }

  lemma ReleasedQueue(w: Wallet, n: nat)
    requires NoDuplicates(w.failed)
    ensures NoDuplicates(Release(w, n).failed)
    ensures forall m :: m in Release(w, n).failed <==> m in w.failed || m == n
  {
  }

  lemma ReserveExact(t: Tracked, id: nat)
    requires Exclusive(t) && IdsBelow(t, id)
    ensures Exclusive(StepWallet(t, id, DoReserve)) <==> Allowed(t, DoReserve)
  {
    var r := StepWallet(t, id, DoReserve);
    if NextNonce(t.w).Some? {
      var n := NextNonce(t.w).value;
      assert !Taken(t, n);
      assert r.live[id] == n;
      assert r.live.Values == t.live.Values + {n} by {
        forall m | m in t.live.Values ensures m in r.live.Values {
          var h :| h in t.live && t.live[h] == m;
          assert r.live[h] == m;
        }
      }
      assert forall m: nat :: Taken(r, m) <==> Taken(t, m) || m == n;
      if t.w.failed != [] {
        assert forall m :: m in t.w.failed <==> m == n || m in r.w.failed;
      }
    }
  }

  lemma ConsumeExact(t: Tracked, id: nat, h: nat)
    requires Exclusive(t)
    ensures Exclusive(StepWallet(t, id, DoSubmit(h))) && Exclusive(StepWallet(t, id, DoDrop(h)))
  {
    if h in t.live {
      HandOver(t, h);
      var n := t.live[h];
      assert Taken(t, n);
      var r := StepWallet(t, id, DoSubmit(h));
      assert forall m: nat :: Taken(r, m) <==> Taken(t, m);
      var q := StepWallet(t, id, DoDrop(h));
      assert forall m: nat :: Taken(q, m) <==> Taken(t, m) && m != n;
      assert forall m :: m in q.w.failed <==> m in t.w.failed || m == n;
    }
  }

  lemma RecycledQueue(w: Wallet, n: nat, max: nat)
    requires NoDuplicates(w.failed)
    ensures var q := MarkFailedAndRecycle(w, n, max).failed;
            && NoDuplicates(q)
            && (forall m :: m in q ==> m in w.failed || m == n)
            && (n in q <==> n in w.failed || max > 0)
  {
    if n !in w.failed {
      CappedPush(w.failed, n, max);
    }
  }

  lemma CappedPush(queue: seq<nat>, n: nat, max: nat)
    requires NoDuplicates(queue) && n !in queue
    ensures var q := Capped(queue + [n], max);
            NoDuplicates(q) && (forall m :: m in q ==> m in queue || m == n) && (n in q <==> max > 0)
  {
    var full := queue + [n];
    var q := Capped(full, max);
    SuffixOfDistinct(full, |full| - |q|);
    if max > 0 {
      assert q[|q| - 1] == full[|full| - 1] == n;
    }
  }

  lemma SuffixOfDistinct(q: seq<nat>, k: nat)
    requires k <= |q| && NoDuplicates(q)
    ensures NoDuplicates(q[k..]) && forall m :: m in q[k..] ==> m in q
  {
  }

  lemma StepKeepsIds(s: World, e: Event, a: Address)
    requires IdsBelow(At(s, a), s.nextId)
    ensures IdsBelow(At(Step(s, e), a), Step(s, e).nextId)
  {
  }

  lemma {:induction false} RunKeepsExclusive(s: World, es: seq<Event>, a: Address)
    requires Exclusive(At(s, a)) && IdsBelow(At(s, a), s.nextId) && DisciplinedAt(s, es, a)
    ensures Exclusive(At(Exec(s, es), a)) && IdsBelow(At(Exec(s, es), a), Exec(s, es).nextId)
    decreases |es|
  {
    if es != [] {
      if es[0].a == a { DisciplineIsExact(At(s, a), s.nextId, es[0].op); }
      StepKeepsIds(s, es[0], a);
      RunKeepsExclusive(Step(s, es[0]), es[1..], a);
    }
  }

  /** In every disciplined run no two open handles share a nonce, none of them holds a
      submitted one, and the next nonce handed out is neither held nor submitted. */
  lemma ExclusiveIssue(es: seq<Event>, a: Address)
    requires DisciplinedAt(START, es, a)
    ensures var t := At(Exec(START, es), a);
            && (forall h, k :: h in t.live && k in t.live && h != k ==> t.live[h] != t.live[k])
            && (forall h :: h in t.live ==> t.live[h] !in t.submitted)
            && (NextNonce(t.w).Some? ==>
                  NextNonce(t.w).value !in t.live.Values && NextNonce(t.w).value !in t.submitted)
  {
    RunKeepsExclusive(START, es, a);
    var t := At(Exec(START, es), a);
    if NextNonce(t.w).Some? {
      assert !Taken(t, NextNonce(t.w).value);
    }
  }

  /** A submission is never forgotten, so "not submitted" above covers the whole past. */
  lemma {:induction false} SubmittedGrows(s: World, es: seq<Event>, a: Address)
    ensures At(s, a).submitted <= At(Exec(s, es), a).submitted
    decreases |es|
  {
    if es != [] {
      SubmittedGrows(Step(s, es[0]), es[1..], a);
    }
  }

  // ----- what goes wrong outside the discipline

  const A: Address := 0

  /** Reserve 5, call release() on the handle (one release_nonce now, one when the
      handle drops), with two other reservations in between and after. */
  const DOUBLE_RELEASE: seq<Event> := [
    Event(A, DoInitialize(5)), Event(A, DoReserve), Event(A, DoRelease(5)),
    Event(A, DoReserve), Event(A, DoDrop(1)), Event(A, DoReserve)]

  lemma DoubleReleaseSharesANonce()
    ensures var t := At(Exec(START, DOUBLE_RELEASE), A);
            2 in t.live && 3 in t.live && t.live[2] == t.live[3] == 5
  {
    var s1 := Step(START, DOUBLE_RELEASE[0]);
    var s2 := Step(s1, DOUBLE_RELEASE[1]);
    assert At(s2, A) == Tracked(Wallet(6, 4, map[5 := Request(1, Reserved)], {}, []), map[1 := 5], {});
    var s3 := Step(s2, DOUBLE_RELEASE[2]);
    var s4 := Step(s3, DOUBLE_RELEASE[3]);
    assert At(s4, A).w.failed == [] && At(s4, A).live == map[1 := 5, 2 := 5];
    var s5 := Step(s4, DOUBLE_RELEASE[4]);
    assert At(s5, A).w.failed == [5] && At(s5, A).live == map[2 := 5] && s5.nextId == 3;
    var s6 := Step(s5, DOUBLE_RELEASE[5]);
    ExecSteps6(START, DOUBLE_RELEASE, s6);
  }

  /** A second initialize between the confirmed and the cached nonce rewinds the counter. */
  const REWIND: seq<Event> := [
    Event(A, DoInitialize(5)), Event(A, DoReserve), Event(A, DoReserve),
    Event(A, DoSubmit(2)), Event(A, DoInitialize(6)), Event(A, DoReserve)]

  lemma RewindReissuesASubmittedNonce()
    ensures var t := At(Exec(START, REWIND), A);
            3 in t.live && t.live[3] == 6 && 6 in t.submitted
  {
    var s1 := Step(START, REWIND[0]);
    var s2 := Step(s1, REWIND[1]);
    var s3 := Step(s2, REWIND[2]);
    assert At(s3, A).live == map[1 := 5, 2 := 6] && At(s3, A).w.cached == 7 && At(s3, A).w.confirmed == 4;
    var s4 := Step(s3, REWIND[3]);
    assert At(s4, A).submitted == {6} && At(s4, A).w.failed == [];
    var s5 := Step(s4, REWIND[4]);
    var s6 := Step(s5, REWIND[5]);
    ExecSteps6(START, REWIND, s6);
  }

  lemma ExecSteps6(s: World, es: seq<Event>, end: World)
    requires |es| == 6
    requires end == Step(Step(Step(Step(Step(Step(s, es[0]), es[1]), es[2]), es[3]), es[4]), es[5])
    ensures Exec(s, es) == end
  {
    var s2 := Step(Step(s, es[0]), es[1]);
    var s4 := Step(Step(s2, es[2]), es[3]);
    Exec2(s, es);
    Exec2(s2, es[2..]);
    assert es[2..][2..] == es[4..];
    Exec2(s4, es[4..]);
    assert es[4..][2..] == [];
  }

  lemma Exec2(s: World, es: seq<Event>)
    requires |es| >= 2
    ensures Exec(s, es) == Exec(Step(Step(s, es[0]), es[1]), es[2..])
  {
    assert es[1..][0] == es[1] && es[1..][1..] == es[2..];
  }
}
