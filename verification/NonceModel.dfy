/** The per-wallet state of the nonce manager and what each operation does to it. */
module NonceModel {
  import opened Basics

  datatype RequestState = Reserved | InFlight | Confirmed | Failed

  datatype Request = Request(id: nat, state: RequestState)

  datatype Wallet = Wallet(
    cached: nat,
    confirmed: nat,
    requests: map<nat, Request>,
    inFlight: set<nat>,
    failed: seq<nat>)

  const FRESH_WALLET := Wallet(0, 0, map[], {}, [])

  /** Nonces are unsigned 64-bit: the atomic increment of the counter wraps. */
  function Increment(n: nat): (r: nat) {
    if n + 1 == TWO_64 then 0 else n + 1
  }

  function Pred(n: nat): (r: nat) {
    if n == 0 then 0 else n - 1
  }

  /** The requests tracked in a given state. */
  function InState(requests: map<nat, Request>, s: RequestState): (r: set<nat>) {
    set n | n in requests && requests[n].state == s
  }

  /** The nonce the next reservation gets: the head of the recycle queue, else the
      counter, unless the counter is still 0 ("not initialised"). */
  function NextNonce(w: Wallet): (r: Option<nat>) {
    if w.failed != [] then Some(w.failed[0])
    else if w.cached == 0 then None
    else Some(w.cached)
  }

  function Reserve(w: Wallet, id: nat): (r: Wallet)
    requires NextNonce(w).Some?
  {
    if w.failed != [] then
      w.(failed := w.failed[1..], requests := w.requests[w.failed[0] := Request(id, Reserved)])
    else
      w.(cached := Increment(w.cached), requests := w.requests[w.cached := Request(id, Reserved)])
  }

  function Initialize(w: Wallet, count: nat): (r: Wallet) {
    if count > w.cached || count > w.confirmed then
      w.(cached := count, confirmed := Pred(count))
    else
      w
  }

  /** Give a nonce a new state, if it is tracked at all. */
  function SetState(requests: map<nat, Request>, n: nat, s: RequestState): (r: map<nat, Request>)
    ensures r.Keys == requests.Keys
  {
    if n in requests then requests[n := Request(requests[n].id, s)] else requests
  }

  function MarkSubmitted(w: Wallet, n: nat): (r: Wallet) {
    w.(requests := SetState(w.requests, n, InFlight), inFlight := w.inFlight + {n})
  }

  /** Confirmation without the periodic clean-up. */
  function MarkConfirmed(w: Wallet, n: nat): (r: Wallet) {
    w.(requests := SetState(w.requests, n, Confirmed),
       inFlight := w.inFlight - {n},
       confirmed := if n > w.confirmed then n else w.confirmed)
  }

  function Cleanup(w: Wallet): (r: Wallet) {
    var cutoff := if w.confirmed < 50 then 0 else w.confirmed - 50;
    w.(requests := map n | n in w.requests && n >= cutoff :: w.requests[n])
  }

  function ConfirmNonce(w: Wallet, n: nat): (r: Wallet) {
    if n % 10 == 0 then Cleanup(MarkConfirmed(w, n)) else MarkConfirmed(w, n)
  }

  function MarkFailed(w: Wallet, n: nat): (r: Wallet) {
    w.(requests := SetState(w.requests, n, Failed), inFlight := w.inFlight - {n})
  }

  function Enqueue(q: seq<nat>, n: nat): (r: seq<nat>) {
    if n in q then q else q + [n]
  }

  /** The last `max` elements of a queue that may have grown too long. */
  function Capped(q: seq<nat>, max: nat): (r: seq<nat>)
    ensures |r| <= max && |r| <= |q| && r == q[|q| - |r|..]
  {
    if |q| <= max then q else q[|q| - max..]
  }

  function MarkFailedAndRecycle(w: Wallet, n: nat, maxFailed: nat): (r: Wallet) {
    var w' := MarkFailed(w, n);
    if n in w'.failed then w' else w'.(failed := Capped(w'.failed + [n], maxFailed))
  }

  function Release(w: Wallet, n: nat): (r: Wallet) {
    w.(requests := w.requests - {n}, failed := Enqueue(w.failed, n))
  }

  /** Drop the first occurrence of each member of `gone`, keeping the order of the rest. */
  function Without(q: seq<nat>, gone: set<nat>): (r: seq<nat>)
    ensures forall n :: n in r ==> n in q
    ensures forall n :: n in q && n !in gone ==> n in r
  {
    if q == [] then []
    else if q[0] in gone then Without(q[1..], gone - {q[0]})
    else [q[0]] + Without(q[1..], gone)
  }

  function Stale(w: Wallet, attempted: nat, actual: nat): (r: set<nat>) {
    set n | n in w.requests && n < actual && n != attempted
  }

  function HandleNonceError(w: Wallet, attempted: nat, actual: nat): (r: Wallet) {
    var marked := MarkFailed(w, attempted);
    var stale := Stale(marked, attempted, actual);
    var synced :=
      if actual > marked.cached then
        marked.(cached := actual,
                requests := map n | n in marked.requests ::
                              if n in stale then Request(marked.requests[n].id, Failed) else marked.requests[n],
                inFlight := marked.inFlight - stale,
                failed := Without(marked.failed, stale))
      else
        marked;
    synced.(confirmed := Pred(actual))
  }

  ghost predicate NoDuplicates(q: seq<nat>) {
    forall i, j :: 0 <= i < j < |q| ==> q[i] != q[j]
  }

  /** Removing one more first occurrence up front changes nothing overall, so the
      order in which the stale nonces are visited does not matter. */
  lemma {:induction false} WithoutOneFirst(q: seq<nat>, gone: set<nat>, k: nat)
    requires k < |q| && q[k] in gone && q[k] !in q[..k]
    ensures Without(q[..k] + q[k + 1..], gone - {q[k]}) == Without(q, gone)
  {
    if k == 0 {
      assert q[..0] + q[1..] == q[1..];
    } else {
      var x, rest := q[k], q[1..];
      var shorter := q[..k] + q[k + 1..];
      assert shorter[1..] == rest[..k - 1] + rest[k..];
      assert q[0] != x by { assert q[0] in q[..k]; }
      assert rest[k - 1] == x && x !in rest[..k - 1] by {
        forall y | y in rest[..k - 1] ensures y in q[..k] {
          var i :| 0 <= i < k - 1 && rest[i] == y;
          assert q[..k][i + 1] == y;
        }
      }
      if q[0] in gone {
        WithoutOneFirst(rest, gone - {q[0]}, k - 1);
        assert gone - {x} - {q[0]} == gone - {q[0]} - {x};
      } else {
        WithoutOneFirst(rest, gone, k - 1);
      }
    }
  }

  lemma {:induction false} WithoutAbsent(q: seq<nat>, gone: set<nat>, x: nat)
    requires x !in q
    ensures Without(q, gone - {x}) == Without(q, gone)
  {
    if q != [] {
      if q[0] in gone {
        WithoutAbsent(q[1..], gone - {q[0]}, x);
        assert gone - {x} - {q[0]} == gone - {q[0]} - {x};
      } else {
        WithoutAbsent(q[1..], gone, x);
      }
    }
  }

  lemma {:induction false} WithoutNothing(q: seq<nat>)
    ensures Without(q, {}) == q
  {
    if q != [] {
      WithoutNothing(q[1..]);
    }
  }

  /** On a queue without duplicates every stale nonce really goes. */
  lemma {:induction false} WithoutDistinct(q: seq<nat>, gone: set<nat>)
    requires NoDuplicates(q)
    ensures NoDuplicates(Without(q, gone))
    ensures forall n :: n in Without(q, gone) <==> n in q && n !in gone
  {
    if q != [] {
      var rest := q[1..];
      var gone' := if q[0] in gone then gone - {q[0]} else gone;
      WithoutDistinct(rest, gone');
      assert q[0] !in rest;
      assert forall n :: n in q <==> n == q[0] || n in rest;
    }
  }
}
