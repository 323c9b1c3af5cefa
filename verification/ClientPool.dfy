/** ClientPool as an object: its critical sections and both acquisition paths, run
    without interference. Random picks, proxy health and client creation are inputs. */
module ClientPool {
  import opened Basics
  import opened PoolModel

  /** One attempt plus five retries. */
  const ATTEMPTS: nat := 6

  /** What the environment answers at each attempt. */
  datatype Answers = Answers(picks: seq<nat>, healthy: seq<bool>, clientCreated: bool)

  ghost predicate Complete(e: Answers) {
    |e.picks| == ATTEMPTS && |e.healthy| == ATTEMPTS
  }

  /** The index of the first attempt that finds a healthy proxy and an unlocked wallet. */
  function FirstOpen(p: Pool, e: Answers, k: nat): (r: Option<nat>)
    requires p.available != [] && |e.picks| == |e.healthy| == ATTEMPTS && k <= ATTEMPTS
    ensures r.Some? ==> r.value < |p.available| && p.available[r.value] !in p.locked
    decreases ATTEMPTS - k
  {
    if k == ATTEMPTS then None
    else
      var i := e.picks[k] % |p.available|;
      if e.healthy[k] && p.available[i] !in p.locked then Some(i) else FirstOpen(p, e, k + 1)
  }

  /** Attempt k finds a healthy proxy, and the wallet it picks is not locked. */
  ghost predicate Succeeds(p: Pool, e: Answers, k: nat)
    requires p.available != [] && Complete(e) && k < ATTEMPTS
  {
    e.healthy[k] && p.available[e.picks[k] % |p.available|] !in p.locked
  }

  ghost predicate NoneSucceeds(p: Pool, e: Answers)
    requires p.available != [] && Complete(e)
  {
    forall k :: 0 <= k < ATTEMPTS ==> !Succeeds(p, e, k)
  }

  /** `w` is what the first successful attempt picks. */
  ghost predicate PickedFirst(p: Pool, e: Answers, w: nat)
    requires p.available != [] && Complete(e)
  {
    exists k :: 0 <= k < ATTEMPTS && Succeeds(p, e, k) && w == p.available[e.picks[k] % |p.available|]
                && forall j :: 0 <= j < k ==> !Succeeds(p, e, j)
  }

  lemma {:induction false} FirstOpenFrom(p: Pool, e: Answers, k: nat)
    requires p.available != [] && Complete(e) && k <= ATTEMPTS
    requires forall j :: 0 <= j < k ==> !Succeeds(p, e, j)
    ensures FirstOpen(p, e, k).None? ==> NoneSucceeds(p, e)
    ensures FirstOpen(p, e, k).Some? ==> PickedFirst(p, e, p.available[FirstOpen(p, e, k).value]) && !NoneSucceeds(p, e)
    decreases ATTEMPTS - k
  {
    if k < ATTEMPTS {
      if Succeeds(p, e, k) {
        assert FirstOpen(p, e, k).value == e.picks[k] % |p.available|;
      } else {
        FirstOpenFrom(p, e, k + 1);
      }
    }
  }

  class WalletPool {
    const total: nat
    var locked: set<nat>
    var available: seq<nat>
    var positions: map<nat, nat>
    var permits: nat

    ghost function View(): Pool
      reads this
    {
      Pool(locked, available, positions)
    }

    constructor (wallets: nat, connections: nat)
      ensures total == wallets && permits == connections && View() == NewPool(wallets)
    {
      total, permits := wallets, connections;
      locked, available, positions := {}, Identity(wallets), map i | i in Identity(wallets) :: i;
    }

    method RemoveWallet(w: nat)
      modifies this`available, this`positions
      ensures View() == RemoveFromAvailable(old(View()), w)
    {
      if w in positions {
        var pos := positions[w];
        var last := if |available| == 0 then 0 else |available| - 1;
        if pos < |available| {
          var lastWallet := available[last];
          available := available[pos := lastWallet][last := available[pos]];
          available := available[..last];
          if pos != last && pos < |available| {
            positions := positions[lastWallet := pos];
          }
          positions := positions - {w};
        }
      }
    }

    method LockWallet(w: nat, i: nat) returns (ok: bool)
      modifies this`locked, this`available, this`positions
      ensures ok <==> w !in old(locked)
      ensures locked == old(locked) + {w}
      ensures View() == LockFast(old(View()), w, i)
    {
      if w in locked {
        return false;
      }
      locked := locked + {w};
      if i < |available| && available[i] == w {
        var last := |available| - 1;
        var lastWallet := available[last];
        available := available[i := lastWallet][last := available[i]];
        available := available[..last];
        if i != last {
          positions := positions[lastWallet := i];
        }
        positions := positions - {w};
      }
      ok := true;
    }

    method UnlockWallet(w: nat)
      modifies this`locked, this`available, this`positions
      ensures locked == old(locked) - {w} && available == old(available) + [w]
      ensures positions == old(positions)[w := |old(available)|]
      ensures View() == Unlock(old(View()), w)
    {
      locked := locked - {w};
      var pos := |available|;
      available := available + [w];
      positions := positions[w := pos];
    }

    /** The fast path: a permit, then up to six picks; the first that is open decides.
        Without a lease the permit goes back; a failed client creation undoes the lock. */
    method TryAcquireFast(e: Answers) returns (r: Option<nat>)
      requires Complete(e)
      modifies this
      ensures permits == if r.Some? then old(permits) - 1 else old(permits)
      ensures var p := old(View());
              if old(permits) == 0 || p.available == [] || FirstOpen(p, e, 0).None? then
                r == None && View() == p
              else
                var i := FirstOpen(p, e, 0).value;
                var w := p.available[i];
                if e.clientCreated then r == Some(w) && View() == LockFast(p, w, i)
                else r == None && View() == Unlock(LockFast(p, w, i), w)
      ensures r.Some? <==>
                old(permits) > 0 && old(available) != [] && e.clientCreated && !NoneSucceeds(old(View()), e)
      ensures r.Some? ==> PickedFirst(old(View()), e, r.value)
      ensures r.Some? ==> r.value !in old(locked) && locked == old(locked) + {r.value}
      ensures Indexed(old(View()), total) ==>
                (r.None? <==> old(permits) == 0 || old(available) == [] || !e.clientCreated
                              || forall j :: 0 <= j < ATTEMPTS ==> !e.healthy[j])
    {
      if available != [] {
        FirstOpenFrom(View(), e, 0);
        if Indexed(View(), total) {
          RefusalMeansUnhealthy(View(), total, e, 0);
        }
      }
      if permits == 0 || available == [] {
        return None;
      }
      permits := permits - 1;
      var retries := 0;
      while true
        invariant retries < ATTEMPTS
        invariant permits == old(permits) - 1 && View() == old(View())
        invariant FirstOpen(View(), e, retries) == FirstOpen(old(View()), e, 0)
        decreases ATTEMPTS - retries
      {
        var i := e.picks[retries] % |available|;
        var w := available[i];
        var taken := false;
        if e.healthy[retries] {
          taken := LockWallet(w, i);
        }
        if taken {
          if e.clientCreated {
            return Some(w);
          }
          UnlockWallet(w);
          permits := permits + 1;
          return None;
        }
        if retries + 1 == ATTEMPTS {
          permits := permits + 1;
          return None;
        }
        retries := retries + 1;
      }
    }

    /** The legacy path scans for an unlocked wallet and locks it without touching the
        list of available ones. */
    method TryAcquireLegacy(pick: nat, clientCreated: bool) returns (r: Option<nat>)
      modifies this`locked, this`available, this`positions
      ensures var free := Scan(total, old(locked));
              if free == [] then r == None && View() == old(View())
              else
                var w := free[pick % |free|];
                if clientCreated then
                  r == Some(w) && w !in old(locked) && View() == old(View()).(locked := old(locked) + {w})
                else r == None && View() == Unlock(old(View()).(locked := old(locked) + {w}), w)
    {
      var free := [];
      for i := 0 to total
        invariant free == Scan(i, locked)
      {
        if i !in locked {
          free := free + [i];
        }
      }
      if free == [] {
        return None;
      }
      var w := free[pick % |free|];
      locked := locked + {w};
      if clientCreated {
        return Some(w);
      }
      UnlockWallet(w);
      r := None;
    }
  }

  /** With the index in order, as after any serial run, no attempt succeeds exactly when
      none finds a healthy proxy. */
  lemma {:induction false} RefusalMeansUnhealthy(p: Pool, n: nat, e: Answers, k: nat)
    requires Indexed(p, n) && p.available != [] && Complete(e) && k <= ATTEMPTS
    ensures FirstOpen(p, e, k).None? <==> forall j :: k <= j < ATTEMPTS ==> !e.healthy[j]
    decreases ATTEMPTS - k
  {
    if k < ATTEMPTS {
      RefusalMeansUnhealthy(p, n, e, k + 1);
      assert p.available[e.picks[k] % |p.available|] in p.available;
    }
  }
}
