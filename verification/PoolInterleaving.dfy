/** Any number of workers and release tasks on one pool, interleaved between the
    separate critical sections of the locked set and of the list of available wallets. */
module PoolInterleaving {
  import opened PoolModel

  /** Where a task stands. Releasing is a release not yet executed; Stray is the second
      one, which release() leaves behind when the lease it consumed is dropped. */
  datatype Pc =
    | Start
    | FastPicked(w: nat, i: nat)
    | LegacyPicked(w: nat)
    | Removing(w: nat, i: nat)
    | Creating(w: nat)
    | Leased(w: nat)
    | Releasing(w: nat)
    | Stray(w: nat)
    | Pushing(w: nat)
    | Done

  datatype State = State(pool: Pool, tasks: seq<Pc>)

  /** `t` is the task that moves. GiveUp is a pick dropped before the lock, as when all
      proxies are banned. */
  datatype Act =
    | Spawn
    | PickFast(t: nat, i: nat)
    | PickLegacy(t: nat, w: nat)
    | GiveUp(t: nat)
    | Lock(t: nat)
    | Remove(t: nat)
    | Created(t: nat)
    | CreateFailed(t: nat)
    | DropLease(t: nat)
    | ReleaseLease(t: nat)
    | Free(t: nat)
    | PushBack(t: nat)

  predicate Enabled(s: State, n: nat, a: Act) {
    a.Spawn? || (a.t < |s.tasks| &&
      var pc := s.tasks[a.t];
      match a
      case PickFast(_, i) => pc.Start? && i < |s.pool.available|
      case PickLegacy(_, w) => pc.Start? && w < n && w !in s.pool.locked
      case GiveUp(_) => pc.FastPicked? || pc.LegacyPicked?
      case Lock(_) => pc.FastPicked? || pc.LegacyPicked?
      case Remove(_) => pc.Removing?
      case Created(_) => pc.Creating?
      case CreateFailed(_) => pc.Creating?
      case DropLease(_) => pc.Leased?
      case ReleaseLease(_) => pc.Leased?
      case Free(_) => pc.Releasing? || pc.Stray?
      case PushBack(_) => pc.Pushing?)
  }

  function Apply(s: State, n: nat, a: Act): (r: State)
    requires Enabled(s, n, a)
  {
    if a.Spawn? then s.(tasks := s.tasks + [Start])
    else
      var pc, p := s.tasks[a.t], s.pool;
      match a
      case PickFast(t, i) => s.(tasks := s.tasks[t := FastPicked(p.available[i], i)])
      case PickLegacy(t, w) => s.(tasks := s.tasks[t := LegacyPicked(w)])
      case GiveUp(t) => s.(tasks := s.tasks[t := Start])
      case Lock(t) =>
        if pc.w in p.locked then s.(tasks := s.tasks[t := Start])
        else State(p.(locked := p.locked + {pc.w}),
                   s.tasks[t := if pc.FastPicked? then Removing(pc.w, pc.i) else Creating(pc.w)])
      case Remove(t) => State(RemoveAt(p, pc.w, pc.i), s.tasks[t := Creating(pc.w)])
      case Created(t) => s.(tasks := s.tasks[t := Leased(pc.w)])
      case CreateFailed(t) => s.(tasks := s.tasks[t := Releasing(pc.w)])
      case DropLease(t) => s.(tasks := s.tasks[t := Releasing(pc.w)])
      case ReleaseLease(t) => s.(tasks := s.tasks[t := Releasing(pc.w)] + [Stray(pc.w)])
      case Free(t) => State(p.(locked := p.locked - {pc.w}), s.tasks[t := Pushing(pc.w)])
      case PushBack(t) => State(Push(p, pc.w), s.tasks[t := Done])
  }

  predicate Run(s: State, n: nat, acts: seq<Act>)
    decreases |acts|
  {
    acts == [] || (Enabled(s, n, acts[0]) && Run(Apply(s, n, acts[0]), n, acts[1..]))
  }

  function Exec(s: State, n: nat, acts: seq<Act>): (r: State)
    requires Run(s, n, acts)
    decreases |acts|
  {
    if acts == [] then s else Exec(Apply(s, n, acts[0]), n, acts[1..])
  }

  function Initial(n: nat): (r: State) {
    State(NewPool(n), [])
  }

  /** With nothing between them, the two sections of a lock, and those of an unlock, are
      the operations of the serial pool. */
  lemma SectionsTogether(s: State, n: nat, t: nat)
    requires t < |s.tasks|
    ensures s.tasks[t].FastPicked? ==>
              var r := Apply(s, n, Lock(t));
              if s.tasks[t].w in s.pool.locked then r.pool == LockFast(s.pool, s.tasks[t].w, s.tasks[t].i)
              else
                && Enabled(r, n, Remove(t))
                && Apply(r, n, Remove(t)).pool == LockFast(s.pool, s.tasks[t].w, s.tasks[t].i)
    ensures s.tasks[t].Releasing? || s.tasks[t].Stray? ==>
              var r := Apply(s, n, Free(t));
              Enabled(r, n, PushBack(t)) && Apply(r, n, PushBack(t)).pool == Unlock(s.pool, s.tasks[t].w)
  {
  }

  // ----- counting tasks

  function Sum(tasks: seq<Pc>, weight: Pc -> int): (r: int) {
    if tasks == [] then 0 else weight(tasks[0]) + Sum(tasks[1..], weight)
  }

  lemma {:induction false} SumUpdate(tasks: seq<Pc>, weight: Pc -> int, t: nat, pc: Pc)
    requires t < |tasks|
    ensures Sum(tasks[t := pc], weight) == Sum(tasks, weight) - weight(tasks[t]) + weight(pc)
  {
    if t == 0 {
      assert tasks[0 := pc][1..] == tasks[1..];
    } else {
      SumUpdate(tasks[1..], weight, t - 1, pc);
      assert tasks[t := pc][1..] == tasks[1..][t - 1 := pc];
    }
  }

  lemma {:induction false} SumAppend(tasks: seq<Pc>, weight: Pc -> int, pc: Pc)
    ensures Sum(tasks + [pc], weight) == Sum(tasks, weight) + weight(pc)
  {
    if tasks == [] {
      assert [pc][1..] == [];
    } else {
      SumAppend(tasks[1..], weight, pc);
      assert (tasks + [pc])[1..] == tasks[1..] + [pc];
    }
  }

  /** The effect of one act on any count of tasks. */
  lemma SumStep(s: State, n: nat, a: Act, weight: Pc -> int)
    requires Enabled(s, n, a)
    ensures var r := Apply(s, n, a);
            Sum(r.tasks, weight) ==
            if a.Spawn? then Sum(s.tasks, weight) + weight(Start)
            else Sum(s.tasks, weight) - weight(s.tasks[a.t]) + weight(r.tasks[a.t])
                 + (if a.ReleaseLease? then weight(Stray(s.tasks[a.t].w)) else 0)
  {
    if a.Spawn? {
      SumAppend(s.tasks, weight, Start);
    } else {
      var pc := Apply(s, n, a).tasks[a.t];
      SumUpdate(s.tasks, weight, a.t, pc);
      if a.ReleaseLease? {
        SumAppend(s.tasks[a.t := pc], weight, Stray(s.tasks[a.t].w));
      }
    }
  }

  // ----- no wallet is lost

  /** Pending pushes minus pending removals of a wallet. */
  function Pending(w: nat): (f: Pc -> int) {
    (pc: Pc) => if pc == Pushing(w) then 1 else if pc.Removing? && pc.w == w then -1 else 0
  }

  function Lock01(p: Pool, w: nat): (r: int) {
    if w in p.locked then 1 else 0
  }

  ghost predicate Kept(s: State, w: nat) {
    multiset(s.pool.available)[w] + Lock01(s.pool, w) + Sum(s.tasks, Pending(w)) >= 1
  }

  /** A removal takes one occurrence of its own wallet at most. */
  lemma RemovalTakesOne(p: Pool, w: nat, i: nat, v: nat)
    ensures RemoveAt(p, w, i).locked == p.locked
    ensures multiset(RemoveAt(p, w, i).available)[v] + (if v == w then 1 else 0) >= multiset(p.available)[v]
  {
    if i < |p.available| && p.available[i] == w {
      SwapRemoveDropsOne(p.available, i);
    }
  }

  lemma RemoveKeeps(s: State, n: nat, a: Act, w: nat)
    requires Enabled(s, n, a) && Kept(s, w) && a.Remove?
    ensures Kept(Apply(s, n, a), w)
  {
    SumStep(s, n, a, Pending(w));
    RemovalTakesOne(s.pool, s.tasks[a.t].w, s.tasks[a.t].i, w);
  }

  lemma PushAddsOne(p: Pool, w: nat, v: nat)
    ensures Push(p, w).locked == p.locked
    ensures multiset(Push(p, w).available)[v] == multiset(p.available)[v] + (if v == w then 1 else 0)
  {
    assert multiset(p.available + [w]) == multiset(p.available) + multiset{w};
  }

  lemma PushBackKeeps(s: State, n: nat, a: Act, w: nat)
    requires Enabled(s, n, a) && Kept(s, w) && a.PushBack?
    ensures Kept(Apply(s, n, a), w)
  {
    SumStep(s, n, a, Pending(w));
    PushAddsOne(s.pool, s.tasks[a.t].w, w);
  }

  lemma LockKeeps(s: State, n: nat, a: Act, w: nat)
    requires Enabled(s, n, a) && Kept(s, w) && a.Lock?
    ensures Kept(Apply(s, n, a), w)
  {
    SumStep(s, n, a, Pending(w));
    assert Apply(s, n, a).pool.available == s.pool.available;
  }

  lemma FreeKeeps(s: State, n: nat, a: Act, w: nat)
    requires Enabled(s, n, a) && Kept(s, w) && a.Free?
    ensures Kept(Apply(s, n, a), w)
  {
    SumStep(s, n, a, Pending(w));
    assert Apply(s, n, a).pool.available == s.pool.available;
  }

  /** The acts that leave the pool alone. */
  lemma QuietStepKeeps(s: State, n: nat, a: Act, w: nat)
    requires Enabled(s, n, a) && Kept(s, w) && !a.Remove? && !a.PushBack? && !a.Lock? && !a.Free?
    ensures Kept(Apply(s, n, a), w)
  {
    SumStep(s, n, a, Pending(w));
    assert Apply(s, n, a).pool == s.pool;
  }

  lemma StepKeeps(s: State, n: nat, a: Act, w: nat)
    requires Enabled(s, n, a) && Kept(s, w)
    ensures Kept(Apply(s, n, a), w)
  {
    match a
    case Remove(_) => RemoveKeeps(s, n, a, w);
    case PushBack(_) => PushBackKeeps(s, n, a, w);
    case Lock(_) => LockKeeps(s, n, a, w);
    case Free(_) => FreeKeeps(s, n, a, w);
    case _ => QuietStepKeeps(s, n, a, w);
  }

  lemma {:induction false} RunKeeps(s: State, n: nat, acts: seq<Act>, w: nat)
    requires Run(s, n, acts) && Kept(s, w)
    ensures Kept(Exec(s, n, acts), w)
    decreases |acts|
  {
    if acts != [] {
      StepKeeps(s, n, acts[0], w);
      RunKeeps(Apply(s, n, acts[0]), n, acts[1..], w);
    }
  }

  lemma {:induction false} SumBelowZero(tasks: seq<Pc>, w: nat)
    requires Pushing(w) !in tasks
    ensures Sum(tasks, Pending(w)) <= 0
  {
    if tasks != [] {
      assert forall pc :: pc in tasks[1..] ==> pc in tasks;
      SumBelowZero(tasks[1..], w);
    }
  }

  /** In every interleaving, stale indices, the legacy path and double releases
      included: occurrences in the list + pending pushes + (1 if locked) is at least
      1 + pending removals; so a wallet neither locked nor about to be pushed back is
      listed. */
  lemma NoWalletIsLost(n: nat, acts: seq<Act>, w: nat)
    requires Run(Initial(n), n, acts) && w < n
    ensures var s := Exec(Initial(n), n, acts);
            && multiset(s.pool.available)[w] + Lock01(s.pool, w) + Sum(s.tasks, Pending(w)) >= 1
            && (w !in s.pool.locked && Pushing(w) !in s.tasks ==> w in s.pool.available)
  {
    assert Identity(n)[w] == w;
    RunKeeps(Initial(n), n, acts, w);
    var s := Exec(Initial(n), n, acts);
    if Pushing(w) !in s.tasks {
      SumBelowZero(s.tasks, w);
    }
  }

  // ----- mutual exclusion

  /** Acquisitions under way, live leases and the release each of them owes. */
  function Holding(w: nat): (f: Pc -> int) {
    (pc: Pc) => if (pc.Removing? || pc.Creating? || pc.Leased? || pc.Releasing?) && pc.w == w then 1 else 0
  }

  ghost predicate OneHolder(s: State, w: nat) {
    Sum(s.tasks, Holding(w)) == Lock01(s.pool, w)
  }

  ghost predicate OneHolderEach(s: State) {
    forall w: nat :: OneHolder(s, w)
  }

  /** A second release does no harm as long as it finds its wallet unlocked. */
  ghost predicate Harmless(s: State, a: Act) {
    a.Free? && a.t < |s.tasks| && s.tasks[a.t].Stray? ==> s.tasks[a.t].w !in s.pool.locked
  }

  lemma StepCountsHolders(s: State, n: nat, a: Act, w: nat)
    requires Enabled(s, n, a) && OneHolder(s, w)
    ensures Sum(Apply(s, n, a).tasks, Holding(w)) - Lock01(Apply(s, n, a).pool, w)
            == if Harmless(s, a) || w != s.tasks[a.t].w then 0 else 1
  {
    SumStep(s, n, a, Holding(w));
    if a.Free? && s.tasks[a.t] == Releasing(w) {
      OneWeighs(s.tasks, w, a.t);
    }
  }

  /** Every act keeps the count exact, except a stray release of a locked wallet,
      which always breaks it. */
  lemma StepKeepsOneHolder(s: State, n: nat, a: Act)
    requires Enabled(s, n, a) && OneHolderEach(s)
    ensures OneHolderEach(Apply(s, n, a)) <==> Harmless(s, a)
  {
    var r := Apply(s, n, a);
    forall w: nat ensures OneHolder(r, w) <==> Harmless(s, a) || w != s.tasks[a.t].w {
      assert OneHolder(s, w);
      StepCountsHolders(s, n, a, w);
    }
    if !Harmless(s, a) {
      assert !OneHolder(r, s.tasks[a.t].w);
    }
  }

  ghost predicate HarmlessRun(s: State, n: nat, acts: seq<Act>)
    requires Run(s, n, acts)
    decreases |acts|
  {
    acts == [] || (Harmless(s, acts[0]) && HarmlessRun(Apply(s, n, acts[0]), n, acts[1..]))
  }

  lemma {:induction false} RunKeepsOneHolder(s: State, n: nat, acts: seq<Act>)
    requires Run(s, n, acts) && OneHolderEach(s) && HarmlessRun(s, n, acts)
    ensures OneHolderEach(Exec(s, n, acts))
    decreases |acts|
  {
    if acts != [] {
      StepKeepsOneHolder(s, n, acts[0]);
      RunKeepsOneHolder(Apply(s, n, acts[0]), n, acts[1..]);
    }
  }

  lemma {:induction false} TwoWeigh(tasks: seq<Pc>, w: nat, i: nat, j: nat)
    requires i < j < |tasks| && Holding(w)(tasks[i]) == Holding(w)(tasks[j]) == 1
    ensures Sum(tasks, Holding(w)) >= 2
  {
    if i == 0 {
      OneWeighs(tasks[1..], w, j - 1);
    } else {
      TwoWeigh(tasks[1..], w, i - 1, j - 1);
    }
  }

  lemma {:induction false} OneWeighs(tasks: seq<Pc>, w: nat, i: nat)
    ensures Sum(tasks, Holding(w)) >= if i < |tasks| then Holding(w)(tasks[i]) else 0
  {
    if tasks != [] {
      OneWeighs(tasks[1..], w, if i == 0 then 0 else i - 1);
    }
  }

  /** If no stray release hits a locked wallet, then in every interleaving a wallet is
      locked exactly while one task holds it, and never leased twice. */
  lemma LeaseMutualExclusion(n: nat, acts: seq<Act>, w: nat)
    requires Run(Initial(n), n, acts) && HarmlessRun(Initial(n), n, acts)
    ensures var s := Exec(Initial(n), n, acts);
            && Sum(s.tasks, Holding(w)) == (if w in s.pool.locked then 1 else 0)
            && (forall i, j :: 0 <= i < j < |s.tasks| ==> !(s.tasks[i] == Leased(w) && s.tasks[j] == Leased(w)))
  {
    assert OneHolderEach(Initial(n));
    RunKeepsOneHolder(Initial(n), n, acts);
    var s := Exec(Initial(n), n, acts);
    assert OneHolder(s, w);
    forall i, j | 0 <= i < j < |s.tasks| && s.tasks[i] == Leased(w) && s.tasks[j] == Leased(w) ensures false {
      TwoWeigh(s.tasks, w, i, j);
    }
  }

  ghost predicate DropsOnly(acts: seq<Act>) {
    forall a :: a in acts ==> !a.ReleaseLease?
  }

  /** One unlock per lease is enough: without release() there is no stray release. */
  lemma {:induction false} DropsOnlyIsHarmless(s: State, n: nat, acts: seq<Act>)
    requires Run(s, n, acts) && DropsOnly(acts) && forall pc :: pc in s.tasks ==> !pc.Stray?
    ensures HarmlessRun(s, n, acts)
    decreases |acts|
  {
    if acts != [] {
      assert acts[0] in acts;
      DropsOnlyIsHarmless(Apply(s, n, acts[0]), n, acts[1..]);
    }
  }

  // ----- what a stray release can do

  /** A new worker, as task `t`, leases wallet `w` through the legacy path. */
  function LeaseBy(t: nat, w: nat): (r: seq<Act>) {
    [Spawn, PickLegacy(t, w), Lock(t), Created(t)]
  }

  /** One wallet, three workers. The first leases it and calls release(); the second
      leases it once the first unlock is through; the stray unlock frees it under the
      second lease; the third leases it as well. */
  const TWO_LEASES: seq<Act> :=
    LeaseBy(0, 0) + ([ReleaseLease(0), Free(0)] + (LeaseBy(2, 0) + ([Free(1)] + LeaseBy(3, 0))))

  lemma First(s: State, n: nat, a: Act, rest: seq<Act>)
    requires Enabled(s, n, a) && Run(Apply(s, n, a), n, rest)
    ensures Run(s, n, [a] + rest) && Exec(s, n, [a] + rest) == Exec(Apply(s, n, a), n, rest)
    ensures HarmlessRun(s, n, [a] + rest) <==> Harmless(s, a) && HarmlessRun(Apply(s, n, a), n, rest)
  {
    assert ([a] + rest)[1..] == rest;
  }

  function WithLease(s: State, w: nat): (r: State) {
    State(s.pool.(locked := s.pool.locked + {w}), s.tasks + [Leased(w)])
  }

  lemma LeaseBlock(s: State, n: nat, w: nat, rest: seq<Act>)
    requires w < n && w !in s.pool.locked && Run(WithLease(s, w), n, rest)
    ensures Run(s, n, LeaseBy(|s.tasks|, w) + rest)
    ensures Exec(s, n, LeaseBy(|s.tasks|, w) + rest) == Exec(WithLease(s, w), n, rest)
    ensures HarmlessRun(s, n, LeaseBy(|s.tasks|, w) + rest) <==> HarmlessRun(WithLease(s, w), n, rest)
  {
    var t := |s.tasks|;
    var s1 := Apply(s, n, Spawn);
    var s2 := Apply(s1, n, PickLegacy(t, w));
    var s3 := Apply(s2, n, Lock(t));
    assert Apply(s3, n, Created(t)).tasks == WithLease(s, w).tasks;
    var r3 := [Created(t)] + rest;
    var r2 := [Lock(t)] + r3;
    var r1 := [PickLegacy(t, w)] + r2;
    First(s3, n, Created(t), rest);
    First(s2, n, Lock(t), r3);
    First(s1, n, PickLegacy(t, w), r2);
    First(s, n, Spawn, r1);
    assert LeaseBy(t, w) + rest == [Spawn] + r1;
  }

  /** release() followed by the drop of the lease can put one wallet in two hands. */
  lemma DoubleReleaseLeasesTwice()
    ensures Run(Initial(1), 1, TWO_LEASES)
    ensures Exec(Initial(1), 1, TWO_LEASES).tasks == [Pushing(0), Pushing(0), Leased(0), Leased(0)]
  {
    var p := NewPool(1);
    var held := p.(locked := {0});
    var last := State(held, [Pushing(0), Pushing(0), Leased(0), Leased(0)]);
    var freed := State(p, [Pushing(0), Pushing(0), Leased(0)]);
    assert WithLease(freed, 0) == last;
    LeaseBlock(freed, 1, 0, []);
    assert LeaseBy(3, 0) + [] == LeaseBy(3, 0);
    var second := State(held, [Pushing(0), Stray(0), Leased(0)]);
    assert Apply(second, 1, Free(1)) == freed;
    First(second, 1, Free(1), LeaseBy(3, 0));
    var r2 := [Free(1)] + LeaseBy(3, 0);
    var open := State(p, [Pushing(0), Stray(0)]);
    assert WithLease(open, 0) == second;
    LeaseBlock(open, 1, 0, r2);
    var r1 := LeaseBy(2, 0) + r2;
    var released := State(held, [Releasing(0), Stray(0)]);
    assert Apply(released, 1, Free(0)) == open;
    First(released, 1, Free(0), r1);
    var leased := State(held, [Leased(0)]);
    assert Apply(leased, 1, ReleaseLease(0)) == released;
    First(leased, 1, ReleaseLease(0), [Free(0)] + r1);
    assert [ReleaseLease(0)] + ([Free(0)] + r1) == [ReleaseLease(0), Free(0)] + r1;
    assert WithLease(Initial(1), 0) == leased;
    LeaseBlock(Initial(1), 1, 0, [ReleaseLease(0), Free(0)] + r1);
  }
}
