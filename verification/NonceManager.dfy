/** RobustNonceManager as objects updated in place, each method proved against the
    operation of NonceModel it performs. */
module NonceManager {
  import opened Basics
  import opened NonceModel

  datatype Stats = Stats(
    cachedNext: nat, confirmed: nat, reserved: nat, inFlight: nat, failedCached: nat, totalTracked: nat)

  class WalletNonceState {
    var cachedNonce: nat
    var confirmedNonce: nat
    var requests: map<nat, Request>
    var inFlight: set<nat>
    var failedNonces: seq<nat>

    ghost function View(): Wallet
      reads this
    {
      Wallet(cachedNonce, confirmedNonce, requests, inFlight, failedNonces)
    }

    constructor ()
      ensures View() == FRESH_WALLET
    {
      cachedNonce, confirmedNonce := 0, 0;
      requests, inFlight, failedNonces := map[], {}, [];
    }

    /** Pop the recycle queue, else take the counter; 0 means "not initialised". */
    method Take(id: nat) returns (r: Option<nat>)
      modifies this
      ensures r == NextNonce(old(View()))
      ensures View() == if r.Some? then Reserve(old(View()), id) else old(View())
    {
      var nonce;
      if failedNonces != [] {
        nonce := failedNonces[0];
        failedNonces := failedNonces[1..];
      } else {
        nonce := cachedNonce;
        if nonce == 0 {
          return None;
        }
        cachedNonce := Increment(cachedNonce);
      }
      requests := requests[nonce := Request(id, Reserved)];
      r := Some(nonce);
    }

    method Sync(count: nat)
      modifies this
      ensures View() == Initialize(old(View()), count)
    {
      if count > cachedNonce || count > confirmedNonce {
        cachedNonce := count;
        confirmedNonce := Pred(count);
      }
    }

    method Submit(nonce: nat)
      modifies this
      ensures View() == MarkSubmitted(old(View()), nonce)
    {
      if nonce in requests {
        requests := requests[nonce := Request(requests[nonce].id, InFlight)];
      }
      inFlight := inFlight + {nonce};
    }

    method DropOld()
      modifies this
      ensures View() == Cleanup(old(View()))
    {
      var cutoff := if confirmedNonce < 50 then 0 else confirmedNonce - 50;
      requests := map n | n in requests && n >= cutoff :: requests[n];
    }

    /** The state the operation is written to reach. On multiples of ten the source waits
        for its own lock before the clean-up and never gets there; see NonceLocks. */
    method Confirm(nonce: nat)
      modifies this
      ensures View() == ConfirmNonce(old(View()), nonce)
    {
      if nonce in requests {
        requests := requests[nonce := Request(requests[nonce].id, Confirmed)];
      }
      inFlight := inFlight - {nonce};
      if nonce > confirmedNonce {
        confirmedNonce := nonce;
      }
      if nonce % 10 == 0 {
        DropOld();
      }
    }

    method Fail(nonce: nat, recycle: bool, maxFailed: nat)
      modifies this
      ensures View() == if recycle then MarkFailedAndRecycle(old(View()), nonce, maxFailed)
                        else MarkFailed(old(View()), nonce)
    {
      if nonce in requests {
        requests := requests[nonce := Request(requests[nonce].id, Failed)];
      }
      inFlight := inFlight - {nonce};
      if recycle && nonce !in failedNonces {
        failedNonces := failedNonces + [nonce];
        Cap(maxFailed);
      }
    }

    /** Drop from the front of the queue until it fits. */
    method Cap(max: nat)
      modifies this`failedNonces
      ensures failedNonces == Capped(old(failedNonces), max)
    {
      ghost var full := failedNonces;
      while |failedNonces| > max
        invariant |failedNonces| <= |full| && failedNonces == full[|full| - |failedNonces|..]
        invariant |full| <= max ==> failedNonces == full
        invariant |full| > max ==> |failedNonces| >= max
        decreases |failedNonces|
      {
        failedNonces := failedNonces[1..];
      }
    }

    method GiveBack(nonce: nat)
      modifies this
      ensures View() == Release(old(View()), nonce)
    {
      requests := requests - {nonce};
      if nonce !in failedNonces {
        failedNonces := failedNonces + [nonce];
      }
    }

    method Recover(attempted: nat, actual: nat)
      modifies this
      ensures View() == HandleNonceError(old(View()), attempted, actual)
    {
      Fail(attempted, false, 0);
      ghost var marked := View();
      if actual > cachedNonce {
        cachedNonce := actual;
        var stale := set n | n in requests && n < actual && n != attempted;
        assert stale == Stale(marked, attempted, actual);
        Invalidate(stale);
      }
      confirmedNonce := Pred(actual);
    }

    /** The bulk invalidation loop: every stale request fails, leaves the in-flight
        set and is struck from the recycle queue, in whatever order they come. */
    method Invalidate(stale: set<nat>)
      requires stale <= requests.Keys
      modifies this`requests, this`inFlight, this`failedNonces
      ensures requests == map n | n in old(requests) ::
                            if n in stale then Request(old(requests)[n].id, Failed) else old(requests)[n]
      ensures inFlight == old(inFlight) - stale
      ensures failedNonces == Without(old(failedNonces), stale)
    {
      var left := stale;
      while left != {}
        invariant left <= stale
        invariant requests.Keys == old(requests).Keys
        invariant forall n :: n in requests ==>
          requests[n] == if n in stale - left then Request(old(requests)[n].id, Failed) else old(requests)[n]
        invariant inFlight == old(inFlight) - (stale - left)
        invariant Without(failedNonces, left) == Without(old(failedNonces), stale)
        decreases left
      {
        var n :| n in left;
        requests := requests[n := Request(requests[n].id, Failed)];
        inFlight := inFlight - {n};
        StrikeFirst(n, left);
        left := left - {n};
      }
      WithoutNothing(failedNonces);
    }

    /** Remove the first queued occurrence of `n`, if there is one. */
    method StrikeFirst(n: nat, ghost left: set<nat>)
      requires n in left
      modifies this`failedNonces
      ensures Without(failedNonces, left - {n}) == Without(old(failedNonces), left)
    {
      var k := 0;
      while k < |failedNonces| && failedNonces[k] != n
        invariant k <= |failedNonces| && n !in failedNonces[..k]
      {
        k := k + 1;
      }
      if k < |failedNonces| {
        WithoutOneFirst(failedNonces, left, k);
        failedNonces := failedNonces[..k] + failedNonces[k + 1..];
      } else {
        assert failedNonces[..k] == failedNonces;
        WithoutAbsent(failedNonces, left, n);
      }
    }

    /** Count the tracked requests in one state. */
    method CountInState(s: RequestState) returns (count: nat)
      ensures count == |InState(requests, s)|
    {
      count := 0;
      var all := requests;
      var left := all.Keys;
      while left != {}
        invariant left <= all.Keys
        invariant count == |InState(all - left, s)|
        decreases left
      {
        var n :| n in left;
        ghost var before := InState(all - left, s);
        ghost var after := InState(all - (left - {n}), s);
        left := left - {n};
        if all[n].state == s {
          assert after == before + {n};
          count := count + 1;
        } else {
          assert after == before;
        }
      }
      assert all - left == requests;
    }
  }

  class RobustNonceManager {
    var wallets: map<Address, WalletNonceState>
    var globalRequestId: nat

    ghost predicate Valid()
      reads this
    {
      forall a, b :: a in wallets && b in wallets && a != b ==> wallets[a] != wallets[b]
    }

    /** A wallet not seen yet counts as a fresh one. */
    ghost function At(a: Address): Wallet
      reads this, wallets.Values
    {
      if a in wallets then wallets[a].View() else FRESH_WALLET
    }

    constructor ()
      ensures Valid() && wallets == map[] && globalRequestId == 1
    {
      wallets, globalRequestId := map[], 1;
    }

    method GetOrCreateWallet(a: Address) returns (state: WalletNonceState)
      requires Valid()
      modifies this`wallets
      ensures Valid() && a in wallets && wallets[a] == state
      ensures a in old(wallets) ==> wallets == old(wallets)
      ensures a !in old(wallets) ==> fresh(state) && wallets == old(wallets)[a := state]
      ensures state.View() == old(At(a))
    {
      if a in wallets {
        state := wallets[a];
      } else {
        state := new WalletNonceState();
        assert forall b :: b in wallets ==> wallets[b] != state;
        wallets := wallets[a := state];
      }
    }

    /** Hands out NextNonce under a request id never used before; without one, only
        the (possibly new) wallet entry is touched. */
    method ReserveNonce(a: Address) returns (r: Option<(nat, nat)>)
      requires Valid()
      modifies this, wallets.Values
      ensures Valid() && wallets.Keys == old(wallets.Keys) + {a}
      ensures forall b :: b != a ==> At(b) == old(At(b))
      ensures r.Some? <==> NextNonce(old(At(a))).Some?
      ensures r.Some? ==> r.value == (old(globalRequestId), NextNonce(old(At(a))).value)
      ensures At(a) == if r.Some? then Reserve(old(At(a)), old(globalRequestId)) else old(At(a))
      ensures globalRequestId == old(globalRequestId) + (if r.Some? then 1 else 0)
    {
      var state := GetOrCreateWallet(a);
      var nonce := state.Take(globalRequestId);
      if nonce == None {
        r := None;
      } else {
        r := Some((globalRequestId, nonce.value));
        globalRequestId := globalRequestId + 1;
      }
    }

    method InitializeNonce(a: Address, count: nat)
      requires Valid()
      modifies this`wallets, wallets.Values
      ensures Valid() && wallets.Keys == old(wallets.Keys) + {a}
      ensures forall b :: b != a ==> At(b) == old(At(b))
      ensures At(a) == Initialize(old(At(a)), count)
    {
      var state := GetOrCreateWallet(a);
      state.Sync(count);
    }

    method MarkSubmittedNonce(a: Address, nonce: nat)
      requires Valid()
      modifies wallets.Values
      ensures forall b :: b != a ==> At(b) == old(At(b))
      ensures At(a) == if a in wallets then MarkSubmitted(old(At(a)), nonce) else old(At(a))
    {
      if a in wallets {
        wallets[a].Submit(nonce);
      }
    }

    method Confirm(a: Address, nonce: nat)
      requires Valid()
      modifies wallets.Values
      ensures forall b :: b != a ==> At(b) == old(At(b))
      ensures At(a) == if a in wallets then ConfirmNonce(old(At(a)), nonce) else old(At(a))
    {
      if a in wallets {
        wallets[a].Confirm(nonce);
      }
    }

    method ReleaseNonce(a: Address, nonce: nat)
      requires Valid()
      modifies wallets.Values
      ensures forall b :: b != a ==> At(b) == old(At(b))
      ensures At(a) == if a in wallets then Release(old(At(a)), nonce) else old(At(a))
    {
      if a in wallets {
        wallets[a].GiveBack(nonce);
      }
    }

    method HandleError(a: Address, attempted: nat, actual: nat)
      requires Valid()
      modifies wallets.Values
      ensures forall b :: b != a ==> At(b) == old(At(b))
      ensures At(a) == if a in wallets then HandleNonceError(old(At(a)), attempted, actual) else old(At(a))
    {
      if a in wallets {
        wallets[a].Recover(attempted, actual);
      }
    }

    method GetStats(a: Address) returns (r: Option<Stats>)
      ensures r.Some? <==> a in wallets
      ensures r.Some? ==>
                var w := At(a);
                r.value == Stats(w.cached, w.confirmed, |InState(w.requests, Reserved)|,
                                 |w.inFlight|, |w.failed|, |w.requests|)
    {
      if a !in wallets {
        return None;
      }
      var state := wallets[a];
      var reserved := state.CountInState(Reserved);
      r := Some(Stats(state.cachedNonce, state.confirmedNonce, reserved,
                      |state.inFlight|, |state.failedNonces|, |state.requests|));
    }
  }
}
