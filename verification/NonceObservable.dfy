/** Exclusivity in terms of what callers can see: the invariant, and the discipline that
    keeps it, lose nothing and ask for nothing more. */
module NonceObservable {
  import opened Basics
  import opened NonceModel
  import opened NonceRuns
  import opened NonceTracking

  /** Two handles share a nonce, a handle holds a submitted one, or the next reservation
      gets one that is held or submitted. */
  ghost predicate Broken(t: Tracked) {
    || (exists h, k :: h in t.live && k in t.live && h != k && t.live[h] == t.live[k])
    || (exists h :: h in t.live && t.live[h] in t.submitted)
    || (NextNonce(t.w).Some? && Taken(t, NextNonce(t.w).value))
  }

  /** A continuation that keeps the discipline and breaks all the same. */
  ghost predicate BreaksBy(s: World, es: seq<Event>, a: Address) {
    DisciplinedAt(s, es, a) && Broken(At(Exec(s, es), a))
  }

  ghost predicate CanBreak(s: World, a: Address) {
    exists es :: BreaksBy(s, es, a)
  }

  /** k reservations that the queue can serve. */
  lemma {:induction false} QueueDrains(s: World, a: Address, k: nat)
    requires a in s.at && k <= |At(s, a).w.failed| && IdsBelow(At(s, a), s.nextId)
    ensures DisciplinedAt(s, Reserves(a, k), a)
    ensures var t, r := At(s, a), At(Exec(s, Reserves(a, k)), a);
            && r.w.failed == t.w.failed[k..] && r.w.cached == t.w.cached && r.submitted == t.submitted
            && (forall n :: n in t.live.Values ==> n in r.live.Values)
            && (forall i :: 0 <= i < k ==> t.w.failed[i] in r.live.Values)
    decreases k
  {
    if k > 0 {
      var t, s' := At(s, a), Step(s, Event(a, DoReserve));
      assert Reserves(a, k)[0] == Event(a, DoReserve) && Reserves(a, k)[1..] == Reserves(a, k - 1);
      QueueDrains(s', a, k - 1);
      var t', r := At(s', a), At(Exec(s, Reserves(a, k)), a);
      assert t'.w.failed == t.w.failed[1..] && t'.w.failed[k - 1..] == t.w.failed[k..];
      assert t'.live[s.nextId] == t.w.failed[0];
      forall n | n in t.live.Values ensures n in r.live.Values {
        var h :| h in t.live && t.live[h] == n;
        assert t'.live[h] == n;
      }
      forall i | 0 <= i < k ensures t.w.failed[i] in r.live.Values {
        assert i > 0 ==> t.w.failed[i] == t'.w.failed[i - 1];
      }
    }
  }

  /** A queued nonce that is taken, now or once the queue before it is served. */
  lemma TakenInQueueBreaks(s: World, a: Address, k: nat)
    requires a in s.at && IdsBelow(At(s, a), s.nextId) && k < |At(s, a).w.failed|
    requires Taken(At(s, a), At(s, a).w.failed[k]) || At(s, a).w.failed[k] in At(s, a).w.failed[..k]
    ensures CanBreak(s, a)
  {
    QueueDrains(s, a, k);
    assert BreaksBy(s, Reserves(a, k), a);
  }

  /** A nonce in play that the counter has not passed: synchronised to it and with the
      queue served, the counter hands it out. */
  lemma NotPassedBreaks(s: World, a: Address, n: nat)
    requires a in s.at && IdsBelow(At(s, a), s.nextId)
    requires (Taken(At(s, a), n) || n in At(s, a).w.failed) && !Passed(At(s, a).w, n)
    ensures CanBreak(s, a)
  {
    var sync := Event(a, DoInitialize(n));
    var t, s' := At(s, a), Step(s, sync);
    var k := |t.w.failed|;
    assert At(s', a).w.cached == n && At(s', a).w.failed == t.w.failed;
    QueueDrains(s', a, k);
    var es := [sync] + Reserves(a, k);
    assert es[1..] == Reserves(a, k);
    assert Exec(s, es) == Exec(s', Reserves(a, k));
    assert NextNonce(At(Exec(s, es), a).w) == Some(n);
    assert BreaksBy(s, es, a);
  }

  /** The invariant is exactly what can be observed: a state is exclusive if and only if no
      disciplined continuation, of any length, ever breaks. */
  lemma ExclusiveIffNeverBreaks(s: World, a: Address)
    requires IdsBelow(At(s, a), s.nextId)
    ensures Exclusive(At(s, a)) <==> !CanBreak(s, a)
  {
    var t := At(s, a);
    if Exclusive(t) {
      forall es | DisciplinedAt(s, es, a) ensures !BreaksBy(s, es, a) {
        RunKeepsExclusive(s, es, a);
      }
    } else if Broken(t) {
      assert BreaksBy(s, [], a);
    } else if n: nat :| (Taken(t, n) || n in t.w.failed) && !Passed(t.w, n) {
      NotPassedBreaks(s, a, n);
    } else if i, j :| 0 <= i < j < |t.w.failed| && t.w.failed[i] == t.w.failed[j] {
      assert t.w.failed[..j][i] == t.w.failed[j];
      TakenInQueueBreaks(s, a, j);
    } else {
      var n :| n in t.w.failed && Taken(t, n);
      var k :| 0 <= k < |t.w.failed| && t.w.failed[k] == n;
      TakenInQueueBreaks(s, a, k);
    }
  }

  /** And so is the discipline: one operation in an exclusive state is allowed if and only
      if no disciplined continuation after it ever breaks. */
  lemma AllowedIffNeverBreaks(s: World, e: Event)
    requires Exclusive(At(s, e.a)) && IdsBelow(At(s, e.a), s.nextId) && (e.a in s.at || Creates(e.op))
    ensures Allowed(At(s, e.a), e.op) <==> !CanBreak(Step(s, e), e.a)
  {
    DisciplineIsExact(At(s, e.a), s.nextId, e.op);
    StepKeepsIds(s, e, e.a);
    ExclusiveIffNeverBreaks(Step(s, e), e.a);
  }
}
