/** The running average of query times shared by tasks, at the grain of its loads and
    stores: count, average, then the new count, then the new average. */
module QueryTimerRaces {
  import opened Basics
  import opened QueryTimer

  /** A successful query that took `sample`, on its way through record_query_time. */
  datatype Pc =
    | Ended(sample: nat)
    | SawCount(sample: nat, count: nat)
    | SawBoth(sample: nat, count: nat, average: nat)
    | Counted(result: nat)
    | Done

  datatype State = State(count: nat, average: nat, tasks: seq<Pc>)

  predicate Enabled(s: State, t: nat) {
    t < |s.tasks| && !s.tasks[t].Done?
  }

  function Update(sample: nat, count: nat, average: nat): (r: nat) {
    if count == 0 then sample else Blend(average, count, sample)
  }

  /** The next access of task t. */
  function Apply(s: State, t: nat): (r: State)
    requires Enabled(s, t)
  {
    match s.tasks[t]
    case Ended(sample) => s.(tasks := s.tasks[t := SawCount(sample, s.count)])
    case SawCount(sample, count) => s.(tasks := s.tasks[t := SawBoth(sample, count, s.average)])
    case SawBoth(sample, count, average) =>
      s.(count := count + 1, tasks := s.tasks[t := Counted(Update(sample, count, average))])
    case Counted(result) => s.(average := result, tasks := s.tasks[t := Done])
  }

  predicate Run(s: State, turns: seq<nat>)
    decreases |turns|
  {
    turns == [] || (Enabled(s, turns[0]) && Run(Apply(s, turns[0]), turns[1..]))
  }

  function Exec(s: State, turns: seq<nat>): (r: State)
    requires Run(s, turns)
    decreases |turns|
  {
    if turns == [] then s else Exec(Apply(s, turns[0]), turns[1..])
  }

  // ----- never above the largest sample

  predicate PcAtMost(pc: Pc, high: nat) {
    match pc
    case Ended(sample) => sample <= high
    case SawCount(sample, _) => sample <= high
    case SawBoth(sample, _, average) => sample <= high && average <= high
    case Counted(result) => result <= high
    case Done => true
  }

  ghost predicate AtMost(s: State, high: nat) {
    s.average <= high && forall i :: 0 <= i < |s.tasks| ==> PcAtMost(s.tasks[i], high)
  }

  lemma DividedAtMost(a: nat, n: nat, high: nat)
    requires n > 0 && a <= high * n
    ensures a / n <= high
  {
    Divided(a, n);
    if a / n > high {
      Scaled(high + 1, a / n, n);
    }
  }

  lemma BlendAtMost(average: nat, count: nat, sample: nat, high: nat)
    requires average <= high && sample <= high
    ensures Blend(average, count, sample) <= high
  {
    Scaled(average, high, count);
    assert high * count + high == high * (count + 1);
    DividedAtMost(Product(average, count) + sample, count + 1, high);
  }

  lemma StepAtMost(s: State, t: nat, high: nat)
    requires Enabled(s, t) && AtMost(s, high)
    ensures AtMost(Apply(s, t), high)
  {
    assert PcAtMost(s.tasks[t], high);
    if s.tasks[t].SawBoth? {
      BlendAtMost(s.tasks[t].average, s.tasks[t].count, s.tasks[t].sample, high);
    }
    assert PcAtMost(Apply(s, t).tasks[t], high);
  }

  /** In every interleaving, from whatever counts, the average never exceeds the larger of
      where it stood and the largest sample. */
  lemma {:induction false} NeverAboveLargest(s: State, turns: seq<nat>, high: nat)
    requires Run(s, turns) && AtMost(s, high)
    ensures AtMost(Exec(s, turns), high)
    decreases |turns|
  {
    if turns != [] {
      StepAtMost(s, turns[0], high);
      NeverAboveLargest(Apply(s, turns[0]), turns[1..], high);
    }
  }

  // ----- never below the smallest, once there is an average

  predicate PcAtLeast(pc: Pc, low: nat) {
    match pc
    case Ended(sample) => sample >= low
    case SawCount(sample, _) => sample >= low
    case SawBoth(sample, count, average) => sample >= low && (count > 0 ==> average >= low)
    case Counted(result) => result >= low
    case Done => true
  }

  ghost predicate PcsAtLeast(s: State, low: nat) {
    forall i :: 0 <= i < |s.tasks| ==> PcAtLeast(s.tasks[i], low)
  }

  /** The task has seen a count and loads an average that nobody has stored yet. */
  predicate Early(s: State, t: nat, low: nat)
    requires Enabled(s, t)
  {
    s.tasks[t].SawCount? && s.tasks[t].count > 0 && s.average < low
  }

  /** Each access keeps what the tasks carry at or above the smallest sample (samples,
      averages loaded after a nonzero count, results), exactly unless it is early. */
  lemma StepAtLeastIff(s: State, t: nat, low: nat)
    requires Enabled(s, t) && PcsAtLeast(s, low)
    ensures PcsAtLeast(Apply(s, t), low) <==> !Early(s, t, low)
  {
    var r := Apply(s, t);
    assert PcAtLeast(s.tasks[t], low);
    if s.tasks[t].SawBoth? {
      BlendAtLeast(s.tasks[t].average, s.tasks[t].count, s.tasks[t].sample, low);
    }
    assert PcAtLeast(r.tasks[t], low) <==> !Early(s, t, low);
    assert forall i :: 0 <= i < |s.tasks| && i != t ==> r.tasks[i] == s.tasks[i];
  }

  /** After one recorded query every interleaving stays at or above the smallest sample. */
  lemma {:induction false} NeverBelowSmallest(s: State, turns: seq<nat>, low: nat)
    requires Run(s, turns) && PcsAtLeast(s, low) && s.average >= low
    ensures PcsAtLeast(Exec(s, turns), low) && Exec(s, turns).average >= low
    decreases |turns|
  {
    if turns != [] {
      StepAtLeastIff(s, turns[0], low);
      assert PcAtLeast(s.tasks[turns[0]], low);
      NeverBelowSmallest(Apply(s, turns[0]), turns[1..], low);
    }
  }

  // ----- from a fresh timer: at least the share of one sample in n

  function Fresh(xs: seq<nat>): (r: State) {
    State(0, 0, seq(|xs|, i requires 0 <= i < |xs| => Ended(xs[i])))
  }

  predicate Recorded(pc: Pc) {
    pc.Counted? || pc.Done?
  }

  /** How many tasks have stored their count. */
  function Stored(tasks: seq<Pc>): (r: nat)
    ensures r <= |tasks|
  {
    if tasks == [] then 0 else (if Recorded(tasks[0]) then 1 else 0) + Stored(tasks[1..])
  }

  lemma {:induction false} StoredAfter(tasks: seq<Pc>, t: nat, pc: Pc)
    requires t < |tasks|
    ensures Stored(tasks[t := pc])
            == Stored(tasks) - (if Recorded(tasks[t]) then 1 else 0) + (if Recorded(pc) then 1 else 0)
    ensures !Recorded(tasks[t]) ==> Stored(tasks) < |tasks|
  {
    if t == 0 {
      assert tasks[0 := pc][1..] == tasks[1..];
    } else {
      StoredAfter(tasks[1..], t - 1, pc);
      assert tasks[t := pc][1..] == tasks[1..][t - 1 := pc];
    }
  }

  /** No task has seen a larger count than there are stored ones; `share` is what every
      result is worth at least. */
  predicate PcShares(pc: Pc, low: nat, share: nat, stored: nat) {
    match pc
    case Ended(sample) => sample >= low
    case SawCount(sample, count) => sample >= low && count <= stored
    case SawBoth(sample, count, _) => sample >= low && count <= stored
    case Counted(result) => result >= share
    case Done => true
  }

  ghost predicate Shares(s: State, low: nat, share: nat) {
    && share * |s.tasks| <= low
    && s.count <= Stored(s.tasks)
    && (forall i :: 0 <= i < |s.tasks| ==> PcShares(s.tasks[i], low, share, Stored(s.tasks)))
    && (Done in s.tasks ==> s.average >= share)
  }

  /** The result of a task that saw c counts is worth its sample over c + 1. */
  lemma ResultShares(sample: nat, count: nat, average: nat, low: nat, share: nat, n: nat)
    requires sample >= low && count < n && share * n <= low
    ensures Update(sample, count, average) >= share
  {
    Scaled(count + 1, n, share);
    if count > 0 {
      DividedAtLeast(Product(average, count) + sample, count + 1, share);
    }
  }

  lemma StepShares(s: State, t: nat, low: nat, share: nat)
    requires Enabled(s, t) && Shares(s, low, share)
    ensures Shares(Apply(s, t), low, share)
  {
    var r := Apply(s, t);
    var pc := s.tasks[t];
    StoredAfter(s.tasks, t, r.tasks[t]);
    assert PcShares(pc, low, share, Stored(s.tasks));
    if pc.SawBoth? {
      ResultShares(pc.sample, pc.count, pc.average, low, share, |s.tasks|);
    }
    assert PcShares(r.tasks[t], low, share, Stored(r.tasks));
    forall i | 0 <= i < |r.tasks| ensures PcShares(r.tasks[i], low, share, Stored(r.tasks)) {
      assert PcShares(s.tasks[i], low, share, Stored(s.tasks));
    }
    OnlyCountedIsDone(s, t);
  }

  lemma OnlyCountedIsDone(s: State, t: nat)
    requires Enabled(s, t)
    ensures !s.tasks[t].Counted? && Done in Apply(s, t).tasks ==> Done in s.tasks && Apply(s, t).average == s.average
    ensures s.tasks[t].Counted? ==> Apply(s, t).average == s.tasks[t].result
  {
    var r := Apply(s, t);
    if !s.tasks[t].Counted? && Done in r.tasks {
      var i :| 0 <= i < |r.tasks| && r.tasks[i] == Done;
      assert s.tasks[i] == Done;
    }
  }

  lemma {:induction false} RunShares(s: State, turns: seq<nat>, low: nat, share: nat)
    requires Run(s, turns) && Shares(s, low, share)
    ensures Shares(Exec(s, turns), low, share) && |Exec(s, turns).tasks| == |s.tasks|
    decreases |turns|
  {
    if turns != [] {
      StepShares(s, turns[0], low, share);
      RunShares(Apply(s, turns[0]), turns[1..], low, share);
    }
  }

  lemma {:induction false} NothingStored(tasks: seq<Pc>)
    requires forall i :: 0 <= i < |tasks| ==> !Recorded(tasks[i])
    ensures Stored(tasks) == 0
  {
    if tasks != [] {
      NothingStored(tasks[1..]);
    }
  }

  /** In every interleaving of n queries on a fresh timer, whatever average has been
      stored is at least one n-th of the smallest sample. */
  lemma NeverBelowShare(xs: seq<nat>, turns: seq<nat>, low: nat)
    requires xs != [] && (forall i :: 0 <= i < |xs| ==> xs[i] >= low)
    requires Run(Fresh(xs), turns)
    ensures Done in Exec(Fresh(xs), turns).tasks ==> Exec(Fresh(xs), turns).average >= low / |xs|
  {
    Divided(low, |xs|);
    NothingStored(Fresh(xs).tasks);
    RunShares(Fresh(xs), turns, low, low / |xs|);
  }

  // ----- the bound is met for every n

  lemma {:induction false} Joined(s: State, a: seq<nat>, b: seq<nat>)
    requires Run(s, a) && Run(Exec(s, a), b)
    ensures Run(s, a + b) && Exec(s, a + b) == Exec(Exec(s, a), b)
    decreases |a|
  {
    if a == [] {
      assert a + b == b;
    } else {
      Joined(Apply(s, a[0]), a[1..], b);
      assert (a + b)[1..] == a[1..] + b;
    }
  }

  lemma OneTurn(s: State, t: nat)
    requires Enabled(s, t)
    ensures Run(s, [t]) && Exec(s, [t]) == Apply(s, t)
  {
    assert [t][1..] == [];
  }

  /** A query that loads both values and stores its count before anybody else moves. */
  lemma ThreeTurns(s: State, t: nat)
    requires t < |s.tasks| && s.tasks[t].Ended?
    ensures Run(s, [t, t, t])
    ensures Exec(s, [t, t, t])
            == State(s.count + 1, s.average, s.tasks[t := Counted(Update(s.tasks[t].sample, s.count, s.average))])
  {
    var e := s.tasks[t].sample;
    var s1 := s.(tasks := s.tasks[t := SawCount(e, s.count)]);
    var s2 := s.(tasks := s.tasks[t := SawBoth(e, s.count, s.average)]);
    assert Apply(s, t) == s1;
    assert Apply(s1, t).tasks == s2.tasks;
    var s3 := Apply(s2, t);
    assert s3.tasks == s.tasks[t := Counted(Update(e, s.count, s.average))];
    OneTurn(s2, t);
    Joined(s1, [t], [t]);
    OneTurn(s1, t);
    Joined(s, [t], [t, t]);
    OneTurn(s, t);
    assert [t] + [t] == [t, t] && [t] + [t, t] == [t, t, t];
  }

  /** One query alone is recorded as one update of the sequential average. */
  lemma AloneIsSequential(xs: seq<nat>, e: nat)
    ensures Run(State(|xs|, Average(xs), [Ended(e)]), [0, 0, 0] + [0])
    ensures Exec(State(|xs|, Average(xs), [Ended(e)]), [0, 0, 0] + [0])
            == State(|xs| + 1, Average(xs + [e]), [Done])
  {
    var s := State(|xs|, Average(xs), [Ended(e)]);
    ThreeTurns(s, 0);
    var s3 := Exec(s, [0, 0, 0]);
    OneTurn(s3, 0);
    Joined(s, [0, 0, 0], [0]);
    UpdateIsAverage(xs, e);
  }

  lemma UpdateIsAverage(xs: seq<nat>, e: nat)
    ensures Update(e, |xs|, Average(xs)) == Average(xs + [e])
  {
    assert (xs + [e])[..|xs|] == xs;
  }

  /** All n queries load the average before any stores it. */
  function Counts(k: nat, n: nat): (r: seq<nat>)
    decreases n - k
  {
    if k >= n then [] else [k, k, k] + Counts(k + 1, n)
  }

  function Averages(k: nat, n: nat): (r: seq<nat>)
    decreases n - k
  {
    if k >= n then [] else [k] + Averages(k + 1, n)
  }

  /** n queries of e ms each, the first k of them counted. */
  function Counting(e: nat, n: nat, k: nat): (r: State) {
    State(k, 0, seq(n, i requires 0 <= i < n => if i < k then Counted(e / (i + 1)) else Ended(e)))
  }

  /** All n counted, the first k of them through. */
  function Averaging(e: nat, n: nat, k: nat): (r: State) {
    State(n, if k == 0 then 0 else e / k, seq(n, i requires 0 <= i < n => if i < k then Done else Counted(e / (i + 1))))
  }

  lemma ZeroBlend(e: nat, k: nat)
    ensures Update(e, k, 0) == e / (k + 1)
  {
    assert Product(0, k) == 0;
  }

  lemma {:induction false} AllCount(e: nat, n: nat, k: nat)
    requires k <= n
    ensures Run(Counting(e, n, k), Counts(k, n)) && Exec(Counting(e, n, k), Counts(k, n)) == Counting(e, n, n)
    decreases n - k
  {
    if k < n {
      var s := Counting(e, n, k);
      ZeroBlend(e, k);
      ThreeTurns(s, k);
      assert s.tasks[k := Counted(e / (k + 1))] == Counting(e, n, k + 1).tasks;
      AllCount(e, n, k + 1);
      Joined(s, [k, k, k], Counts(k + 1, n));
    }
  }

  lemma {:induction false} AllStore(e: nat, n: nat, k: nat)
    requires k <= n
    ensures Run(Averaging(e, n, k), Averages(k, n)) && Exec(Averaging(e, n, k), Averages(k, n)) == Averaging(e, n, n)
    decreases n - k
  {
    if k < n {
      var s := Averaging(e, n, k);
      assert Apply(s, k).tasks == Averaging(e, n, k + 1).tasks;
      OneTurn(s, k);
      AllStore(e, n, k + 1);
      Joined(s, [k], Averages(k + 1, n));
    }
  }

  /** n overlapping first queries of e ms each can leave an average of e / n. */
  lemma ShareIsReached(e: nat, n: nat)
    requires n > 0
    ensures var s, turns := Fresh(seq(n, _ => e)), Counts(0, n) + Averages(0, n);
            Run(s, turns) && Exec(s, turns) == State(n, e / n, seq(n, _ => Done))
  {
    var s := Fresh(seq(n, _ => e));
    assert s.tasks == Counting(e, n, 0).tasks;
    AllCount(e, n, 0);
    assert Counting(e, n, n).tasks == Averaging(e, n, 0).tasks;
    AllStore(e, n, 0);
    Joined(s, Counts(0, n), Averages(0, n));
    assert Averaging(e, n, n).tasks == seq(n, _ => Done);
  }

  // ----- when the smallest sample is a lower bound

  function Left(pc: Pc): (r: nat) {
    match pc
    case Ended(_) => 4
    case SawCount(_, _) => 3
    case SawBoth(_, _, _) => 2
    case Counted(_) => 1
    case Done => 0
  }

  lemma {:induction false} FinishOne(s: State, t: nat) returns (turns: seq<nat>)
    requires t < |s.tasks|
    ensures Run(s, turns) && Exec(s, turns).tasks == s.tasks[t := Done]
    decreases Left(s.tasks[t])
  {
    turns := [];
    if !s.tasks[t].Done? {
      var rest := FinishOne(Apply(s, t), t);
      turns := [t] + rest;
      assert turns[1..] == rest;
    }
  }

  /** All but one task run to their end. */
  lemma {:induction false} FinishOthers(s: State, b: nat, k: nat) returns (turns: seq<nat>)
    requires b < |s.tasks| && k <= |s.tasks|
    requires forall i :: 0 <= i < k && i != b ==> s.tasks[i].Done?
    ensures Run(s, turns) && |Exec(s, turns).tasks| == |s.tasks| && Exec(s, turns).tasks[b] == s.tasks[b]
    ensures forall i :: 0 <= i < |s.tasks| && i != b ==> Exec(s, turns).tasks[i].Done?
    decreases |s.tasks| - k
  {
    if k == |s.tasks| {
      turns := [];
    } else if k == b {
      turns := FinishOthers(s, b, k + 1);
    } else {
      var first := FinishOne(s, k);
      var rest := FinishOthers(Exec(s, first), b, k + 1);
      Joined(s, first, rest);
      turns := first + rest;
    }
  }

  ghost predicate AllDone(s: State) {
    forall i :: 0 <= i < |s.tasks| ==> s.tasks[i].Done?
  }

  /** An interleaving at whose end the stored average is below `low`. */
  ghost predicate Dips(xs: seq<nat>, turns: seq<nat>, low: nat) {
    && Run(Fresh(xs), turns)
    && Done in Exec(Fresh(xs), turns).tasks && Exec(Fresh(xs), turns).average < low
  }

  lemma TwoDip(xs: seq<nat>, a: nat, b: nat) returns (turns: seq<nat>)
    requires a < |xs| && b < |xs| && a != b && xs[b] > 0
    ensures Dips(xs, turns, xs[b]) && AllDone(Exec(Fresh(xs), turns))
  {
    var s0 := Fresh(xs);
    ThreeTurns(s0, a);
    var s1 := Exec(s0, [a, a, a]);
    ThreeTurns(s1, b);
    ZeroBlend(xs[b], 1);
    var s2 := Exec(s1, [b, b, b]);
    Joined(s0, [a, a, a], [b, b, b]);
    assert s2.tasks[b] == Counted(xs[b] / 2);
    var others := FinishOthers(s2, b, 0);
    Joined(s0, [a, a, a] + [b, b, b], others);
    var s3 := Exec(s2, others);
    OneTurn(s3, b);
    turns := [a, a, a] + [b, b, b] + others;
    Joined(s0, turns, [b]);
    turns := turns + [b];
    assert Exec(s0, turns).tasks[b] == Done;
  }

  /** From a fresh timer whose smallest sample is positive, every interleaving keeps the
      stored average at or above it if and only if there is one query; with more, even the
      final average can be below. */
  lemma AboveSmallestIffAlone(xs: seq<nat>, low: nat)
    requires low > 0 && low in xs && forall i :: 0 <= i < |xs| ==> xs[i] >= low
    ensures (forall turns: seq<nat> :: !Dips(xs, turns, low)) <==> |xs| == 1
    ensures (forall turns: seq<nat> :: Dips(xs, turns, low) ==> !AllDone(Exec(Fresh(xs), turns))) <==> |xs| == 1
  {
    if |xs| == 1 {
      forall turns: seq<nat> ensures !Dips(xs, turns, low) {
        if Run(Fresh(xs), turns) {
          NeverBelowShare(xs, turns, low);
        }
      }
    } else {
      var b :| 0 <= b < |xs| && xs[b] == low;
      var turns := TwoDip(xs, if b == 0 then 1 else 0, b);
    }
  }
}
