/** Mutual exclusion in terms of what callers can see: two live leases of one wallet. */
module PoolObservable {
  import opened PoolModel
  import opened PoolInterleaving

  predicate LeasedTwice(s: State, w: nat) {
    exists i, j :: 0 <= i < j < |s.tasks| && s.tasks[i] == Leased(w) && s.tasks[j] == Leased(w)
  }

  /** A continuation without a stray release of a locked wallet that leases `w` twice. */
  ghost predicate DoublesBy(s: State, n: nat, acts: seq<Act>, w: nat) {
    Run(s, n, acts) && HarmlessRun(s, n, acts) && LeasedTwice(Exec(s, n, acts), w)
  }

  ghost predicate CanDouble(s: State, n: nat, w: nat) {
    exists acts :: DoublesBy(s, n, acts, w)
  }

  /** No more holders than the lock allows: fewer only means a wallet locked for good. */
  ghost predicate AtMostOneHolder(s: State, w: nat) {
    Sum(s.tasks, Holding(w)) <= Lock01(s.pool, w)
  }

  // ----- kept, while releases are harmless

  lemma StepKeepsAtMostOne(s: State, n: nat, a: Act, w: nat)
    requires Enabled(s, n, a) && Harmless(s, a) && AtMostOneHolder(s, w)
    ensures AtMostOneHolder(Apply(s, n, a), w)
  {
    SumStep(s, n, a, Holding(w));
    if a.Free? && s.tasks[a.t] == Releasing(w) {
      OneWeighs(s.tasks, w, a.t);
    }
  }

  lemma {:induction false} RunKeepsAtMostOne(s: State, n: nat, acts: seq<Act>, w: nat)
    requires Run(s, n, acts) && HarmlessRun(s, n, acts) && AtMostOneHolder(s, w)
    ensures AtMostOneHolder(Exec(s, n, acts), w)
    decreases |acts|
  {
    if acts != [] {
      StepKeepsAtMostOne(s, n, acts[0], w);
      RunKeepsAtMostOne(Apply(s, n, acts[0]), n, acts[1..], w);
    }
  }

  lemma AtMostOneIsNotDoubled(s: State, w: nat)
    requires AtMostOneHolder(s, w)
    ensures !LeasedTwice(s, w)
  {
    forall i, j | 0 <= i < j < |s.tasks| && s.tasks[i] == Leased(w) && s.tasks[j] == Leased(w) ensures false {
      TwoWeigh(s.tasks, w, i, j);
    }
  }

  // ----- from one holder too many to two leases

  lemma OneMoreAct(s: State, n: nat, a: Act, w: nat)
    requires Enabled(s, n, a) && Harmless(s, a) && CanDouble(Apply(s, n, a), n, w)
    ensures CanDouble(s, n, w)
  {
    var acts :| DoublesBy(Apply(s, n, a), n, acts, w);
    First(s, n, a, acts);
    assert DoublesBy(s, n, [a] + acts, w);
  }

  lemma OneMoreLease(s: State, n: nat, w: nat)
    requires w < n && w !in s.pool.locked && CanDouble(WithLease(s, w), n, w)
    ensures CanDouble(s, n, w)
  {
    var acts :| DoublesBy(WithLease(s, w), n, acts, w);
    LeaseBlock(s, n, w, acts);
    assert DoublesBy(s, n, LeaseBy(|s.tasks|, w) + acts, w);
  }

  lemma DoubledAlready(s: State, n: nat, w: nat, i: nat, j: nat)
    requires i < j < |s.tasks| && s.tasks[i] == Leased(w) && s.tasks[j] == Leased(w)
    ensures CanDouble(s, n, w)
  {
    assert DoublesBy(s, n, [], w);
  }

  /** A task on its way to a lease, or at it. */
  predicate Acquiring(pc: Pc, w: nat) {
    (pc.Removing? || pc.Creating? || pc.Leased?) && pc.w == w
  }

  /** Two tasks with a lease of the wallet, or on their way to one, get there. */
  lemma {:induction false} TwoAcquire(s: State, n: nat, w: nat, i: nat, j: nat)
    requires i < j < |s.tasks| && Acquiring(s.tasks[i], w) && Acquiring(s.tasks[j], w)
    ensures CanDouble(s, n, w)
    decreases ToGo(s.tasks[i]) + ToGo(s.tasks[j])
  {
    if s.tasks[i].Leased? && s.tasks[j].Leased? {
      DoubledAlready(s, n, w, i, j);
    } else {
      var t := if s.tasks[i].Leased? then j else i;
      var a := if s.tasks[t].Removing? then Remove(t) else Created(t);
      TwoAcquire(Apply(s, n, a), n, w, i, j);
      OneMoreAct(s, n, a, w);
    }
  }

  function ToGo(pc: Pc): (r: nat) {
    if pc.Removing? then 2 else if pc.Creating? then 1 else 0
  }

  /** A wallet that is unlocked under a holder: somebody else can lease it; if the holder
      only owes a release, that release unlocks it again under the new lease. */
  lemma HeldUnlocked(s: State, n: nat, w: nat, i: nat)
    requires w < n && w !in s.pool.locked && i < |s.tasks| && Holding(w)(s.tasks[i]) == 1
    ensures CanDouble(s, n, w)
  {
    var r := WithLease(s, w);
    if s.tasks[i].Releasing? {
      var freed := Apply(r, n, Free(i));
      var last := WithLease(freed, w);
      DoubledAlready(last, n, w, |s.tasks|, |s.tasks| + 1);
      OneMoreLease(freed, n, w);
      OneMoreAct(r, n, Free(i), w);
    } else {
      TwoAcquire(r, n, w, i, |s.tasks|);
    }
    OneMoreLease(s, n, w);
  }

  lemma HeldTwice(s: State, n: nat, w: nat, i: nat, j: nat)
    requires w < n && i < j < |s.tasks| && Holding(w)(s.tasks[i]) == Holding(w)(s.tasks[j]) == 1
    ensures CanDouble(s, n, w)
  {
    if s.tasks[i].Releasing? {
      HeldUnlocked(Apply(s, n, Free(i)), n, w, j);
      OneMoreAct(s, n, Free(i), w);
    } else if s.tasks[j].Releasing? {
      HeldUnlocked(Apply(s, n, Free(j)), n, w, i);
      OneMoreAct(s, n, Free(j), w);
    } else {
      TwoAcquire(s, n, w, i, j);
    }
  }

  lemma {:induction false} SomeHolder(tasks: seq<Pc>, w: nat) returns (i: nat)
    requires Sum(tasks, Holding(w)) >= 1
    ensures i < |tasks| && Holding(w)(tasks[i]) == 1
  {
    if Holding(w)(tasks[0]) == 1 {
      i := 0;
    } else {
      var k := SomeHolder(tasks[1..], w);
      i := k + 1;
    }
  }

  lemma {:induction false} SomeTwoHolders(tasks: seq<Pc>, w: nat) returns (i: nat, j: nat)
    requires Sum(tasks, Holding(w)) >= 2
    ensures i < j < |tasks| && Holding(w)(tasks[i]) == Holding(w)(tasks[j]) == 1
  {
    if Holding(w)(tasks[0]) == 1 {
      var k := SomeHolder(tasks[1..], w);
      i, j := 0, k + 1;
    } else {
      var k, l := SomeTwoHolders(tasks[1..], w);
      i, j := k + 1, l + 1;
    }
  }

  /** In any state whatever: no harmless continuation leases the wallet twice if and only
      if it has no more holders than its lock allows. */
  lemma AtMostOneIffNeverDoubled(s: State, n: nat, w: nat)
    requires w < n
    ensures AtMostOneHolder(s, w) <==> !CanDouble(s, n, w)
  {
    if AtMostOneHolder(s, w) {
      forall acts | Run(s, n, acts) && HarmlessRun(s, n, acts) ensures !DoublesBy(s, n, acts, w) {
        RunKeepsAtMostOne(s, n, acts, w);
        AtMostOneIsNotDoubled(Exec(s, n, acts), w);
      }
    } else if w in s.pool.locked {
      var i, j := SomeTwoHolders(s.tasks, w);
      HeldTwice(s, n, w, i, j);
    } else {
      var i := SomeHolder(s.tasks, w);
      HeldUnlocked(s, n, w, i);
    }
  }

  // ----- the discipline, step by step

  /** Only wallets of the pool are listed or with a task. */
  predicate InRange(s: State, n: nat) {
    && (forall i :: 0 <= i < |s.pool.available| ==> s.pool.available[i] < n)
    && (forall i :: 0 <= i < |s.tasks| ==> s.tasks[i].Start? || s.tasks[i].Done? || s.tasks[i].w < n)
  }

  lemma StepInRange(s: State, n: nat, a: Act)
    requires Enabled(s, n, a) && InRange(s, n)
    ensures InRange(Apply(s, n, a), n)
  {
    var r := Apply(s, n, a);
    if !a.Spawn? {
      assert forall i :: 0 <= i < |s.tasks| && i != a.t ==> r.tasks[i] == s.tasks[i];
    }
  }

  lemma {:induction false} RunInRange(s: State, n: nat, acts: seq<Act>)
    requires Run(s, n, acts) && InRange(s, n)
    ensures InRange(Exec(s, n, acts), n)
    decreases |acts|
  {
    if acts != [] {
      StepInRange(s, n, acts[0]);
      RunInRange(Apply(s, n, acts[0]), n, acts[1..]);
    }
  }

  /** After any harmless run from a new pool, the next act is harmless if and only if no
      harmless continuation after it ever leases any wallet twice. */
  lemma HarmlessIffNeverDoubled(n: nat, acts: seq<Act>, a: Act)
    requires Run(Initial(n), n, acts) && HarmlessRun(Initial(n), n, acts)
    requires Enabled(Exec(Initial(n), n, acts), n, a)
    ensures Harmless(Exec(Initial(n), n, acts), a)
            <==> forall w: nat | w < n :: !CanDouble(Apply(Exec(Initial(n), n, acts), n, a), n, w)
  {
    var s := Exec(Initial(n), n, acts);
    assert OneHolderEach(Initial(n));
    RunKeepsOneHolder(Initial(n), n, acts);
    RunInRange(Initial(n), n, acts);
    StepIsHarmlessIff(s, n, a);
  }

  lemma StepIsHarmlessIff(s: State, n: nat, a: Act)
    requires OneHolderEach(s) && InRange(s, n) && Enabled(s, n, a)
    ensures Harmless(s, a) <==> forall w: nat | w < n :: !CanDouble(Apply(s, n, a), n, w)
  {
    var r := Apply(s, n, a);
    if Harmless(s, a) {
      forall w: nat | w < n ensures !CanDouble(r, n, w) {
        assert OneHolder(s, w);
        StepKeepsAtMostOne(s, n, a, w);
        AtMostOneIffNeverDoubled(r, n, w);
      }
    } else {
      var w := s.tasks[a.t].w;
      assert OneHolder(s, w);
      StepCountsHolders(s, n, a, w);
      AtMostOneIffNeverDoubled(r, n, w);
      assert w < n && CanDouble(r, n, w);
    }
  }

  /** In any state with a live lease and a stray release of the same wallet, letting the
      release run is enough for a second lease beside the first. */
  lemma StrayReleaseDoubles(s: State, n: nat, w: nat, i: nat, k: nat)
    requires w < n && i < |s.tasks| && k < |s.tasks| && s.tasks[i] == Leased(w) && s.tasks[k] == Stray(w)
    ensures CanDouble(Apply(s, n, Free(k)), n, w)
  {
    HeldUnlocked(Apply(s, n, Free(k)), n, w, i);
  }
}
