/** The wallet pool's shared state and its critical sections. */
module PoolModel {

  datatype Pool = Pool(locked: set<nat>, available: seq<nat>, positions: map<nat, nat>)

  function Identity(n: nat): (r: seq<nat>)
    ensures |r| == n && forall i :: 0 <= i < n ==> r[i] == i
  {
    if n == 0 then [] else Identity(n - 1) + [n - 1]
  }

  function NewPool(n: nat): (r: Pool) {
    Pool({}, Identity(n), map i | i in Identity(n) :: i)
  }

  /** Move the last element into the hole. */
  function SwapRemove(q: seq<nat>, i: nat): (r: seq<nat>)
    requires i < |q|
    ensures |r| == |q| - 1
    ensures forall k :: 0 <= k < |r| ==> r[k] == if k == i then q[|q| - 1] else q[k]
  {
    q[i := q[|q| - 1]][..|q| - 1]
  }

  lemma SwapRemoveDropsOne(q: seq<nat>, i: nat)
    requires i < |q|
    ensures multiset(SwapRemove(q, i)) == multiset(q) - multiset{q[i]}
  {
    var last := |q| - 1;
    if i == last {
      assert q == SwapRemove(q, i) + [q[i]];
    } else {
      var front, back := q[..i], q[i + 1..last];
      assert q == front + ([q[i]] + (back + [q[last]]));
      assert SwapRemove(q, i) == front + ([q[last]] + back);
      Regroup(front, [q[i]], back, [q[last]]);
    }
  }

  lemma Regroup(a: seq<nat>, x: seq<nat>, b: seq<nat>, z: seq<nat>)
    ensures multiset(a + (x + (b + z))) == multiset(a + (z + b)) + multiset(x)
  {
    assert multiset(x + (b + z)) == multiset(x) + multiset(b) + multiset(z);
  }

  /** Second section of lock_wallet_fast: remove `w` at the index read earlier, unless
      something else has moved there since. */
  function RemoveAt(p: Pool, w: nat, i: nat): (r: Pool) {
    if i < |p.available| && p.available[i] == w then
      var last := |p.available| - 1;
      var moved := if i != last then p.positions[p.available[last] := i] else p.positions;
      p.(available := SwapRemove(p.available, i), positions := moved - {w})
    else p
  }

  /** remove_from_available: remove `w` where the position map says it is. */
  function RemoveFromAvailable(p: Pool, w: nat): (r: Pool) {
    if w in p.positions && p.positions[w] < |p.available| then
      var i, last := p.positions[w], |p.available| - 1;
      var moved := if i != last then p.positions[p.available[last] := i] else p.positions;
      p.(available := SwapRemove(p.available, i), positions := moved - {w})
    else p
  }

  /** Second section of unlock_wallet_fast. */
  function Push(p: Pool, w: nat): (r: Pool) {
    p.(available := p.available + [w], positions := p.positions[w := |p.available|])
  }

  function LockFast(p: Pool, w: nat, i: nat): (r: Pool) {
    if w in p.locked then p else RemoveAt(p.(locked := p.locked + {w}), w, i)
  }

  function Unlock(p: Pool, w: nat): (r: Pool) {
    Push(p.(locked := p.locked - {w}), w)
  }

  /** The legacy path's list: all wallets not locked, in order. */
  function Scan(n: nat, locked: set<nat>): (r: seq<nat>)
    ensures forall w: nat :: w in r <==> w < n && w !in locked
  {
    if n == 0 then [] else Scan(n - 1, locked) + (if n - 1 in locked then [] else [n - 1])
  }

  lemma {:induction false} ScanRises(n: nat, locked: set<nat>)
    ensures forall i, j :: 0 <= i < j < |Scan(n, locked)| ==> Scan(n, locked)[i] < Scan(n, locked)[j]
  {
    if n > 0 {
      ScanRises(n - 1, locked);
      var front := Scan(n - 1, locked);
      assert forall i :: 0 <= i < |front| ==> front[i] in front;
    }
  }

  /** lock_wallet_fast locks the wallet, and takes it from the list if it still stands
      where it was seen; a wrong index, or a wallet already locked, leaves the list alone. */
  lemma LockFastEffect(p: Pool, w: nat, i: nat)
    ensures var r := LockFast(p, w, i);
            && r.locked == p.locked + {w}
            && (if w !in p.locked && i < |p.available| && p.available[i] == w
                then multiset(r.available) == multiset(p.available) - multiset{w} && w !in r.positions
                else r.available == p.available && r.positions == p.positions)
  {
    if i < |p.available| {
      SwapRemoveDropsOne(p.available, i);
    }
  }

  // ----- the index agrees with the scan

  /** `positions` is the exact inverse of `available`. */
  ghost predicate Inverse(p: Pool) {
    && (forall i :: 0 <= i < |p.available| ==> p.available[i] in p.positions && p.positions[p.available[i]] == i)
    && (forall w :: w in p.positions ==> p.positions[w] < |p.available| && p.available[p.positions[w]] == w)
  }

  /** ... and lists exactly what the scan would. */
  ghost predicate Indexed(p: Pool, n: nat) {
    && Inverse(p)
    && (forall w :: w in p.locked ==> w < n)
    && (forall w: nat :: w in p.available <==> w < n && w !in p.locked)
  }

  lemma IndexHasNoDuplicates(p: Pool)
    requires Inverse(p)
    ensures forall i, j :: 0 <= i < j < |p.available| ==> p.available[i] != p.available[j]
  {
  }

  lemma RemovalKeepsInverse(p: Pool, i: nat)
    requires Inverse(p) && i < |p.available|
    ensures Inverse(RemoveAt(p, p.available[i], i))
  {
    var w, last, r := p.available[i], |p.available| - 1, RemoveAt(p, p.available[i], i);
    IndexHasNoDuplicates(p);
    forall k | 0 <= k < |r.available|
      ensures r.available[k] in r.positions && r.positions[r.available[k]] == k
    {
      assert p.available[k] != p.available[last];
    }
    forall v | v in r.positions ensures r.positions[v] < |r.available| && r.available[r.positions[v]] == v {
      if v != p.available[last] {
        assert p.available[p.positions[v]] == v;
      }
    }
  }

  lemma RemovalDropsWallet(p: Pool, i: nat)
    requires Inverse(p) && i < |p.available|
    ensures forall v: nat :: v in RemoveAt(p, p.available[i], i).available <==> v in p.available && v != p.available[i]
  {
    var w, r := p.available[i], RemoveAt(p, p.available[i], i);
    IndexHasNoDuplicates(p);
    forall v: nat ensures v in r.available <==> v in p.available && v != w {
      if v in p.available && v != w {
        var k := p.positions[v];
        assert r.available[if k == |p.available| - 1 then i else k] == v;
      }
    }
  }

  /** Locking with the index just read keeps the agreement. */
  lemma LockKeepsIndex(p: Pool, n: nat, i: nat)
    requires Indexed(p, n) && i < |p.available|
    ensures Indexed(LockFast(p, p.available[i], i), n)
    ensures LockFast(p, p.available[i], i).locked == p.locked + {p.available[i]}
  {
    var w := p.available[i];
    assert w in p.available && w !in p.locked;
    var q := p.(locked := p.locked + {w});
    RemovalKeepsInverse(q, i);
    RemovalDropsWallet(q, i);
  }

  /** Unlocking a locked wallet keeps it, too. */
  lemma UnlockKeepsIndex(p: Pool, n: nat, w: nat)
    requires Indexed(p, n) && w in p.locked
    ensures Indexed(Unlock(p, w), n)
  {
    var r := Unlock(p, w);
    assert forall v: nat :: v in r.available <==> v in p.available || v == w;
    assert w !in p.positions;
  }

  /** Both ways of removing give the same state. */
  lemma RemovalsAgree(p: Pool, w: nat)
    requires Inverse(p) && w in p.positions
    ensures RemoveFromAvailable(p, w) == RemoveAt(p, w, p.positions[w])
  {
  }

  datatype SerialOp = LockIndex(i: nat) | UnlockWallet(w: nat)

  /** A serial step: lock the wallet at an index just read, or unlock a locked one. */
  function SerialStep(p: Pool, op: SerialOp): (r: Pool) {
    match op
    case LockIndex(i) => if i < |p.available| then LockFast(p, p.available[i], i) else p
    case UnlockWallet(w) => if w in p.locked then Unlock(p, w) else p
  }

  function SerialRun(p: Pool, ops: seq<SerialOp>): (r: Pool)
    decreases |ops|
  {
    if ops == [] then p else SerialRun(SerialStep(p, ops[0]), ops[1..])
  }

  lemma {:induction false} SerialRunKeepsIndex(p: Pool, n: nat, ops: seq<SerialOp>)
    requires Indexed(p, n)
    ensures Indexed(SerialRun(p, ops), n)
    decreases |ops|
  {
    if ops != [] {
      match ops[0] {
        case LockIndex(i) => if i < |p.available| { LockKeepsIndex(p, n, i); }
        case UnlockWallet(w) => if w in p.locked { UnlockKeepsIndex(p, n, w); }
      }
      SerialRunKeepsIndex(SerialStep(p, ops[0]), n, ops[1..]);
    }
  }

  lemma {:induction false} SameMembersSameSize(q: seq<nat>, s: seq<nat>)
    requires forall i, j :: 0 <= i < j < |q| ==> q[i] != q[j]
    requires forall i, j :: 0 <= i < j < |s| ==> s[i] != s[j]
    requires forall w :: w in q <==> w in s
    ensures multiset(q) == multiset(s)
  {
    forall w: nat ensures multiset(q)[w] == multiset(s)[w] {
      Once(q, w);
      Once(s, w);
    }
  }

  lemma {:induction false} Once(q: seq<nat>, w: nat)
    requires forall i, j :: 0 <= i < j < |q| ==> q[i] != q[j]
    ensures multiset(q)[w] == if w in q then 1 else 0
  {
    if q != [] {
      var rest := q[..|q| - 1];
      Once(rest, w);
      assert q == rest + [q[|q| - 1]];
    }
  }

  lemma {:induction false} ScanHasNoDuplicates(n: nat, locked: set<nat>)
    ensures forall i, j :: 0 <= i < j < |Scan(n, locked)| ==> Scan(n, locked)[i] != Scan(n, locked)[j]
  {
    if n > 0 {
      ScanHasNoDuplicates(n - 1, locked);
      var s := Scan(n - 1, locked);
      assert forall i :: 0 <= i < |s| ==> s[i] in s;
    }
  }

  /** In every serial run the index is the exact inverse of a duplicate-free list, the
      list is a rearrangement of what the legacy scan yields, and removing through the
      map is removing by index. */
  lemma IndexAgreesWithScan(n: nat, ops: seq<SerialOp>)
    ensures var p := SerialRun(NewPool(n), ops);
            && Inverse(p)
            && multiset(p.available) == multiset(Scan(n, p.locked))
            && (forall w :: w in p.positions ==> RemoveFromAvailable(p, w) == RemoveAt(p, w, p.positions[w]))
  {
    assert Indexed(NewPool(n), n) by {
      forall w: nat ensures w in Identity(n) <==> w < n {
        if w < n { assert Identity(n)[w] == w; }
      }
    }
    SerialRunKeepsIndex(NewPool(n), n, ops);
    var p := SerialRun(NewPool(n), ops);
    IndexHasNoDuplicates(p);
    ScanHasNoDuplicates(n, p.locked);
    SameMembersSameSize(p.available, Scan(n, p.locked));
    forall w | w in p.positions ensures RemoveFromAvailable(p, w) == RemoveAt(p, w, p.positions[w]) {
      RemovalsAgree(p, w);
    }
  }

  /** The legacy lock (no removal) breaks the agreement on every wallet it can take, and
      the unlock that follows leaves the wallet listed twice. */
  lemma LegacyLockBreaksIndex(p: Pool, n: nat, w: nat)
    requires Indexed(p, n) && w < n && w !in p.locked
    ensures !Indexed(p.(locked := p.locked + {w}), n)
    ensures multiset(Unlock(p.(locked := p.locked + {w}), w).available)[w] == 2
  {
    IndexHasNoDuplicates(p);
    Once(p.available, w);
  }
}
