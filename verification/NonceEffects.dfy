/** What each operation does to a wallet, told nonce by nonce. */
module NonceEffects {
  import opened Basics
  import opened NonceModel

  /** Nonces other than n are tracked and in flight just as before. */
  ghost predicate OthersKept(w: Wallet, r: Wallet, n: nat) {
    forall m: nat :: m != n ==>
      && (m in r.requests <==> m in w.requests)
      && (m in w.requests ==> r.requests[m] == w.requests[m])
      && (m in r.inFlight <==> m in w.inFlight)
  }

  /** n is tracked as before, under the same id, and now in this state. */
  ghost predicate Becomes(w: Wallet, r: Wallet, n: nat, state: RequestState) {
    && (n in r.requests <==> n in w.requests)
    && (n in w.requests ==> r.requests[n] == Request(w.requests[n].id, state))
  }

  /** A reservation takes what was announced, tracks it under its id and hands it out of
      the queue or past the counter, not both. */
  lemma ReserveEffect(w: Wallet, id: nat)
    requires NextNonce(w).Some?
    ensures var r, n := Reserve(w, id), NextNonce(w).value;
            && OthersKept(w, r, n) && r.inFlight == w.inFlight && r.confirmed == w.confirmed
            && n in r.requests && r.requests[n] == Request(id, Reserved)
            && (if w.failed == [] then n == w.cached && r.failed == []
                else w.failed == [n] + r.failed && r.cached == w.cached)
            && (w.failed == [] && n + 1 < TWO_64 ==> r.cached == n + 1)
  {
  }

  /** The counter goes to the chain's count when that is above either counter, and
      confirmed to one less; everything else stays. */
  lemma InitializeEffect(w: Wallet, count: nat)
    ensures var r := Initialize(w, count);
            && r.requests == w.requests && r.inFlight == w.inFlight && r.failed == w.failed
            && (count > Min(w.cached, w.confirmed) ==> r.cached == count && r.confirmed + 1 == count)
            && (count <= Min(w.cached, w.confirmed) ==> r.cached == w.cached && r.confirmed == w.confirmed)
  {
  }

  lemma SubmitEffect(w: Wallet, n: nat)
    ensures var r := MarkSubmitted(w, n);
            && OthersKept(w, r, n) && Becomes(w, r, n, InFlight) && n in r.inFlight
            && r.cached == w.cached && r.confirmed == w.confirmed && r.failed == w.failed
  {
  }

  /** A confirmation raises the confirmed counter to n at least; on a multiple of ten it
      also forgets every request more than 50 below that counter, and nothing else. */
  lemma ConfirmEffect(w: Wallet, n: nat)
    ensures var r, top := ConfirmNonce(w, n), Max(w.confirmed, n);
            && r.confirmed == top && r.cached == w.cached && r.failed == w.failed
            && (forall m: nat :: m in r.inFlight <==> m in w.inFlight && m != n)
            && (forall m: nat :: m in r.requests <==> m in w.requests && (n % 10 == 0 ==> m + 50 >= top))
            && (forall m: nat :: m in r.requests ==>
                  r.requests[m] == if m == n then Request(w.requests[m].id, Confirmed) else w.requests[m])
  {
  }

  /** Failing a nonce takes it out of flight, tracked or not; recycling also queues it,
      last, unless it is queued already, and lets the oldest go when the queue is full. */
  lemma FailEffect(w: Wallet, n: nat, max: nat)
    ensures var f := MarkFailed(w, n);
            && OthersKept(w, f, n) && Becomes(w, f, n, Failed) && n !in f.inFlight
            && f.cached == w.cached && f.confirmed == w.confirmed && f.failed == w.failed
            && var r := MarkFailedAndRecycle(w, n, max);
            && r == f.(failed := r.failed)
            && (n in w.failed ==> r.failed == w.failed)
            && (n !in w.failed && |w.failed| < max ==> r.failed == w.failed + [n])
            && (n !in w.failed && |w.failed| >= max > 0 ==> r.failed == w.failed[|w.failed| + 1 - max..] + [n])
            && (n !in w.failed && max == 0 ==> r.failed == [])
  {
    if n !in w.failed && |w.failed| >= max > 0 {
      var full := w.failed + [n];
      assert full[|full| - max..] == w.failed[|w.failed| + 1 - max..] + [n];
    }
  }

  /** A released nonce is no longer tracked and is queued last, unless queued already. */
  lemma ReleaseEffect(w: Wallet, n: nat)
    ensures var r := Release(w, n);
            && OthersKept(w, r, n) && n !in r.requests && r.inFlight == w.inFlight
            && r.cached == w.cached && r.confirmed == w.confirmed
            && r.failed == w.failed + (if n in w.failed then [] else [n])
  {
  }

  /** A nonce error, for every wallet and whatever the chain's next nonce. The attempted
      nonce is out of flight and, if tracked, Failed under its id; confirmed is one less
      than the chain's next nonce. If that is not above the counter nothing else changes;
      if it is, the counter goes there, every other tracked nonce below it is Failed and
      out of flight, and the rest are left alone. */
  lemma NonceErrorEffect(w: Wallet, attempted: nat, actual: nat)
    ensures var r := HandleNonceError(w, attempted, actual);
            && Becomes(w, r, attempted, Failed) && attempted !in r.inFlight
            && r.confirmed == (if actual == 0 then 0 else actual - 1)
            && (actual <= w.cached ==> OthersKept(w, r, attempted) && r.cached == w.cached && r.failed == w.failed)
            && (actual > w.cached ==>
                  && r.cached == actual
                  && (forall m: nat :: m != attempted && m < actual && m in w.requests ==>
                        Becomes(w, r, m, Failed) && m !in r.inFlight)
                  && (forall m: nat :: m != attempted && !(m < actual && m in w.requests) ==>
                        && (m in r.requests <==> m in w.requests)
                        && (m in w.requests ==> r.requests[m] == w.requests[m])
                        && (m in r.inFlight <==> m in w.inFlight)))
  {
  }

  // ----- the queue after a nonce error

  function Occurrences(q: seq<nat>, n: nat): (r: nat) {
    if q == [] then 0 else (if q[0] == n then 1 else 0) + Occurrences(q[1..], n)
  }

  /** Striking takes one occurrence of each struck nonce that is queued. */
  lemma {:induction false} StrikesOneEach(q: seq<nat>, gone: set<nat>, n: nat)
    ensures Occurrences(Without(q, gone), n)
            == Occurrences(q, n) - (if n in gone && Occurrences(q, n) > 0 then 1 else 0)
    decreases q
  {
    if q != [] {
      StrikesOneEach(q[1..], if q[0] in gone then gone - {q[0]} else gone, n);
    }
  }

  /** What stays keeps its order: the result is what is left of q when the struck places
      are passed over. */
  ghost predicate Subsequence(r: seq<nat>, q: seq<nat>) {
    if r == [] then true
    else if q == [] then false
    else (r[0] == q[0] && Subsequence(r[1..], q[1..])) || Subsequence(r, q[1..])
  }

  lemma {:induction false} StrikingKeepsOrder(q: seq<nat>, gone: set<nat>)
    ensures Subsequence(Without(q, gone), q)
    decreases q
  {
    if q != [] {
      StrikingKeepsOrder(q[1..], if q[0] in gone then gone - {q[0]} else gone);
    }
  }

  /** After an error above the counter the queue keeps its order and loses one occurrence
      of each tracked nonce below the chain's next one, other than the attempted one. */
  lemma NonceErrorQueue(w: Wallet, attempted: nat, actual: nat, n: nat)
    requires actual > w.cached
    ensures var r := HandleNonceError(w, attempted, actual);
            && Subsequence(r.failed, w.failed)
            && Occurrences(r.failed, n)
               == Occurrences(w.failed, n)
                  - (if n in w.requests && n < actual && n != attempted && Occurrences(w.failed, n) > 0 then 1 else 0)
  {
    var stale := Stale(MarkFailed(w, attempted), attempted, actual);
    StrikingKeepsOrder(w.failed, stale);
    StrikesOneEach(w.failed, stale, n);
  }
}
