/** Integer repair of randomly weighted shares: top up, lift zeros, trim. The float
    step that proposes the shares is an arbitrary starting vector. */
module RandomShares {
  import opened Basics

  function Sum(xs: seq<nat>): (r: nat) {
    if xs == [] then 0 else xs[0] + Sum(xs[1..])
  }

  /** How many shares could still give one away. */
  function AboveOne(xs: seq<nat>): (r: nat) {
    if xs == [] then 0 else (if xs[0] > 1 then 1 else 0) + AboveOne(xs[1..])
  }

  function Zeros(xs: seq<nat>): (r: nat) {
    if xs == [] then 0 else (if xs[0] == 0 then 1 else 0) + Zeros(xs[1..])
  }

  function TopUp(xs: seq<nat>, diff: nat): (r: seq<nat>)
    requires xs != []
    ensures |r| == |xs|
    ensures forall i :: 0 <= i < |xs| ==> r[i] == xs[i] + Extra(diff, |xs|, i)
  {
    seq(|xs|, i requires 0 <= i < |xs| => xs[i] + Extra(diff, |xs|, i))
  }

  /** An even split of the missing amount, the first ones getting the remainder. */
  function Extra(diff: nat, count: nat, i: nat): (r: nat)
    requires count > 0
  {
    diff / count + (if i < diff % count then 1 else 0)
  }

  function Lift(xs: seq<nat>): (r: seq<nat>)
    ensures |r| == |xs| && forall i :: 0 <= i < |xs| ==> r[i] == if xs[i] == 0 then 1 else xs[i]
  {
    if xs == [] then [] else [if xs[0] == 0 then 1 else xs[0]] + Lift(xs[1..])
  }

  /** One pass: take one from each share above one until the excess is gone. */
  function Trim(xs: seq<nat>, excess: nat): (r: seq<nat>)
    ensures |r| == |xs|
  {
    if xs == [] || excess == 0 then xs
    else if xs[0] > 1 then [xs[0] - 1] + Trim(xs[1..], excess - 1)
    else [xs[0]] + Trim(xs[1..], excess)
  }

  function Topped(xs: seq<nat>, total: nat): (r: seq<nat>)
    requires xs != []
  {
    if Sum(xs) < total then TopUp(xs, total - Sum(xs)) else xs
  }

  function Repair(xs: seq<nat>, total: nat): (r: seq<nat>)
    requires xs != []
  {
    var lifted := Lift(Topped(xs, total));
    if Sum(lifted) > total then Trim(lifted, Sum(lifted) - total) else lifted
  }

  // ----- sums

  lemma {:induction false} SumSplit(xs: seq<nat>, i: nat)
    requires i < |xs|
    ensures Sum(xs) == Sum(xs[..i]) + xs[i] + Sum(xs[i + 1..])
  {
    if i > 0 {
      SumSplit(xs[1..], i - 1);
      assert xs[..i][1..] == xs[1..][..i - 1] && xs[1..][i..] == xs[i + 1..];
    }
  }

  lemma SumBump(xs: seq<nat>, i: nat)
    requires i < |xs|
    ensures Sum(xs[i := xs[i] + 1]) == Sum(xs) + 1
  {
    var ys := xs[i := xs[i] + 1];
    SumSplit(xs, i);
    SumSplit(ys, i);
    assert ys[..i] == xs[..i] && ys[i + 1..] == xs[i + 1..];
  }

  /** One more unit goes to share diff % count. */
  lemma ExtraStep(diff: nat, count: nat, i: nat)
    requires count > 0 && i < count
    ensures Extra(diff + 1, count, i) == Extra(diff, count, i) + (if i == diff % count then 1 else 0)
  {
    var q, m := diff / count, diff % count;
    assert diff == q * count + m;
    if m + 1 == count {
      assert diff + 1 == (q + 1) * count;
      DivisionIsUnique(diff + 1, count, q + 1, 0);
    } else {
      DivisionIsUnique(diff + 1, count, q, m + 1);
    }
  }

  lemma DivisionIsUnique(a: nat, n: nat, q: nat, m: nat)
    requires n > 0 && a == q * n + m && m < n
    ensures a / n == q && a % n == m
  {
    var q' := a / n;
    assert a == q' * n + a % n;
    if q' > q {
      Scaled(q + 1, q', n);
    } else if q' < q {
      Scaled(q' + 1, q, n);
    }
  }

  lemma {:induction false} TopUpSum(xs: seq<nat>, diff: nat)
    requires xs != []
    ensures Sum(TopUp(xs, diff)) == Sum(xs) + diff
    decreases diff
  {
    if diff == 0 {
      assert TopUp(xs, 0) == xs;
    } else {
      var before, k := TopUp(xs, diff - 1), (diff - 1) % |xs|;
      TopUpSum(xs, diff - 1);
      forall i | 0 <= i < |xs| ensures TopUp(xs, diff)[i] == before[k := before[k] + 1][i] {
        ExtraStep(diff - 1, |xs|, i);
      }
      assert TopUp(xs, diff) == before[k := before[k] + 1];
      SumBump(before, k);
    }
  }

  lemma {:induction false} LiftSum(xs: seq<nat>)
    ensures Sum(Lift(xs)) == Sum(xs) + Zeros(xs) && AboveOne(Lift(xs)) == AboveOne(xs)
  {
    if xs != [] {
      LiftSum(xs[1..]);
      assert Lift(xs)[1..] == Lift(xs[1..]);
    }
  }

  lemma {:induction false} TrimSum(xs: seq<nat>, excess: nat)
    ensures Sum(Trim(xs, excess)) == Sum(xs) - Min(excess, AboveOne(xs))
    ensures (forall i :: 0 <= i < |xs| ==> xs[i] >= 1) ==> forall i :: 0 <= i < |xs| ==> Trim(xs, excess)[i] >= 1
  {
    if xs != [] && excess > 0 {
      var rest, left := xs[1..], if xs[0] > 1 then excess - 1 else excess;
      TrimSum(rest, left);
      assert Trim(xs, excess)[1..] == Trim(rest, left);
    }
  }

  /** Every share ends at least 1, and the shares add up to the total or, failing that,
      to what one trimming pass can reach. */
  lemma RepairedSum(xs: seq<nat>, total: nat)
    requires xs != []
    ensures var t := Topped(xs, total);
            var lifted := Sum(t) + Zeros(t);
            && |Repair(xs, total)| == |xs|
            && (forall i :: 0 <= i < |xs| ==> Repair(xs, total)[i] >= 1)
            && Sum(Repair(xs, total)) == if lifted - AboveOne(t) > total then lifted - AboveOne(t) else total
  {
    var t := Topped(xs, total);
    if Sum(xs) < total { TopUpSum(xs, total - Sum(xs)); }
    LiftSum(t);
    TrimSum(Lift(t), Sum(Lift(t)) - total);
  }

  /** The shares add up to the total exactly when the zeros lifted, plus any excess of
      the proposal, do not outnumber the shares above one. */
  lemma AddsUpIff(xs: seq<nat>, total: nat)
    requires xs != []
    ensures var t := Topped(xs, total);
            Sum(Repair(xs, total)) == total <==> Sum(t) - total + Zeros(t) <= AboveOne(t)
  {
    RepairedSum(xs, total);
  }

  /** It can fail with as many units as shares: 3 units proposed as [2, 0, 0]. */
  lemma NeedNotAddUp()
    ensures Repair([2, 0, 0], 3) == [2, 1, 1] && Sum(Repair([2, 0, 0], 3)) == 4
  {
    assert [0, 0][1..] == [0] && [2, 0, 0][1..] == [0, 0] && [0][1..] == [];
    assert Sum([2, 0, 0]) == 2 && TopUp([2, 0, 0], 1) == [3, 0, 0];
    assert Lift([3, 0, 0]) == [3, 1, 1];
    assert [3, 1, 1][1..] == [1, 1] && [1, 1][1..] == [1];
    assert Sum([3, 1, 1]) == 5;
    assert Trim([1, 1], 1) == [1, 1];
    assert [2, 1, 1][1..] == [1, 1];
  }

  // ----- the shares, one by one

  /** The places before i that have more than one to give. */
  function Givers(xs: seq<nat>, i: nat): (r: set<nat>)
    requires i <= |xs|
  {
    set j: nat | j < i && xs[j] > 1
  }

  lemma {:induction false} GiversCount(xs: seq<nat>, i: nat)
    requires i <= |xs|
    ensures |Givers(xs, i)| == AboveOne(xs[..i])
  {
    if i == 0 {
      assert Givers(xs, 0) == {};
    } else {
      GiversCount(xs, i - 1);
      AboveOneGrows(xs, i - 1);
      if xs[i - 1] > 1 {
        assert Givers(xs, i) == Givers(xs, i - 1) + {i - 1};
      } else {
        assert Givers(xs, i) == Givers(xs, i - 1);
      }
    }
  }

  lemma {:induction false} AboveOneGrows(xs: seq<nat>, i: nat)
    requires i < |xs|
    ensures AboveOne(xs[..i + 1]) == AboveOne(xs[..i]) + (if xs[i] > 1 then 1 else 0)
    decreases |xs|
  {
    assert xs[..i + 1][0] == xs[0];
    if i == 0 {
      assert xs[..1][1..] == [];
    } else {
      AboveOneGrows(xs[1..], i - 1);
      assert xs[..i + 1][1..] == xs[1..][..i] && xs[..i][1..] == xs[1..][..i - 1];
    }
  }

  lemma {:induction false} TrimAt(xs: seq<nat>, excess: nat, i: nat)
    requires i < |xs|
    ensures Trim(xs, excess)[i] == xs[i] - (if xs[i] > 1 && AboveOne(xs[..i]) < excess then 1 else 0)
    decreases |xs|
  {
    if excess > 0 && i > 0 {
      TrimAt(xs[1..], if xs[0] > 1 then excess - 1 else excess, i - 1);
      assert xs[..i][0] == xs[0] && xs[..i][1..] == xs[1..][..i - 1];
    }
  }

  /** The proposal topped up evenly, first places first, and raised to 1 at least. */
  ghost predicate ToppedAndLifted(p: seq<nat>, total: nat, lifted: seq<nat>)
    requires p != []
  {
    var missing := if Sum(p) < total then total - Sum(p) else 0;
    && |lifted| == |p|
    && forall i :: 0 <= i < |p| ==>
         lifted[i] == Max(1, p[i] + missing / |p| + (if i < missing % |p| then 1 else 0))
  }

  /** Every share is the lifted one, less one where it has more than one and comes before
      the excess over the total is used up. */
  ghost predicate SharedOut(p: seq<nat>, total: nat, shares: seq<nat>)
    requires p != []
  {
    exists lifted: seq<nat> ::
      && ToppedAndLifted(p, total, lifted)
      && |shares| == |p|
      && forall i :: 0 <= i < |p| ==>
           shares[i] ==
           lifted[i] - (if lifted[i] > 1 && |set j: nat | j < i && lifted[j] > 1| < Sum(lifted) - total then 1 else 0)
  }

  lemma LiftedIs(p: seq<nat>, total: nat)
    requires p != []
    ensures ToppedAndLifted(p, total, Lift(Topped(p, total)))
  {
    if Sum(p) >= total {
      DivisionIsUnique(0, |p|, 0, 0);
    }
  }

  /** The repaired shares, from the proposal alone. */
  lemma RepairSharesOut(p: seq<nat>, total: nat)
    requires p != []
    ensures SharedOut(p, total, Repair(p, total))
  {
    var lifted, r := Lift(Topped(p, total)), Repair(p, total);
    LiftedIs(p, total);
    forall i | 0 <= i < |p|
      ensures r[i] == lifted[i]
                      - (if lifted[i] > 1 && |set j: nat | j < i && lifted[j] > 1| < Sum(lifted) - total then 1 else 0)
    {
      assert Givers(lifted, i) == set j: nat | j < i && lifted[j] > 1;
      GiversCount(lifted, i);
      if Sum(lifted) > total {
        TrimAt(lifted, Sum(lifted) - total, i);
      }
    }
  }

  // ----- what a caller can rely on

  predicate AddsUp(xs: seq<nat>, total: nat) {
    xs != [] && Sum(Repair(xs, total)) == total
  }

  /** A proposal of `count` shares that is not above the total. */
  predicate Proposed(xs: seq<nat>, count: nat, total: nat) {
    |xs| == count && Sum(xs) <= total
  }

  /** One that rounding each share down can produce: less than a unit is missing per share. */
  predicate RoundedDown(xs: seq<nat>, count: nat, total: nat) {
    Proposed(xs, count, total) && total < Sum(xs) + count
  }

  /** All to the first share. */
  function Lone(count: nat, v: nat): (r: seq<nat>)
    requires count > 0
    ensures |r| == count
  {
    [v] + seq(count - 1, _ => 0)
  }

  lemma {:induction false} NilShares(n: nat)
    ensures Sum(seq(n, _ => 0)) == 0 && Zeros(seq(n, _ => 0)) == n && AboveOne(seq(n, _ => 0)) == 0
  {
    if n > 0 {
      NilShares(n - 1);
      assert seq(n, _ => 0)[1..] == seq(n - 1, _ => 0);
    }
  }

  lemma LoneShare(count: nat, v: nat)
    requires count > 0
    ensures Sum(Lone(count, v)) == v && AboveOne(Lone(count, v)) == if v > 1 then 1 else 0
    ensures Zeros(Lone(count, v)) == count - 1 + (if v == 0 then 1 else 0)
  {
    NilShares(count - 1);
    assert Lone(count, v)[1..] == seq(count - 1, _ => 0);
  }

  lemma LoneToppedUp(count: nat, v: nat)
    requires count >= 2
    ensures Topped(Lone(count, v), v + 1) == Lone(count, v + 1)
  {
    LoneShare(count, v);
    forall i | 0 <= i < count ensures Extra(1, count, i) == if i == 0 then 1 else 0 {
      DivisionIsUnique(1, count, 0, 1);
    }
  }

  /** Rounding down may leave one share with all but a unit, which is then topped up. */
  lemma LoneFails(count: nat, total: nat) returns (xs: seq<nat>)
    requires count >= 3 || (count == 2 && total < 2)
    ensures RoundedDown(xs, count, total) && !AddsUp(xs, total)
  {
    var v := if total == 0 then 0 else total - 1;
    xs := Lone(count, v);
    LoneShare(count, v);
    LoneShare(count, total);
    if total > 0 {
      LoneToppedUp(count, v);
    }
    assert Topped(xs, total) == Lone(count, total);
    AddsUpIff(xs, total);
  }

  lemma PairAddsUp(xs: seq<nat>, total: nat)
    requires Proposed(xs, 2, total) && total >= 2
    ensures AddsUp(xs, total)
  {
    var t := Topped(xs, total);
    if Sum(xs) < total { TopUpSum(xs, total - Sum(xs)); }
    assert t == [t[0], t[1]];
    PairCounts(t[0], t[1]);
    AddsUpIff(xs, total);
  }

  lemma PairCounts(a: nat, b: nat)
    ensures Sum([a, b]) == a + b
    ensures a + b >= 2 ==> Zeros([a, b]) <= AboveOne([a, b])
  {
    assert [a, b][1..] == [b] && [b][1..] == [];
    assert Sum([b]) == b;
    assert Zeros([b]) == (if b == 0 then 1 else 0) && AboveOne([b]) == (if b > 1 then 1 else 0);
  }

  /** For two or more shares: every proposal not above the total ends at the total if and
      only if there are two shares and at least two units. Rounding down alone gives
      proposals that fail in every other case. */
  lemma EveryProposalAddsUpIff(count: nat, total: nat)
    requires count >= 2
    ensures (forall xs :: Proposed(xs, count, total) ==> AddsUp(xs, total)) <==> count == 2 && total >= 2
    ensures (forall xs :: RoundedDown(xs, count, total) ==> AddsUp(xs, total)) <==> count == 2 && total >= 2
  {
    if count == 2 && total >= 2 {
      forall xs | Proposed(xs, count, total) ensures AddsUp(xs, total) {
        PairAddsUp(xs, total);
      }
    } else {
      var xs := LoneFails(count, total);
    }
  }

  // ----- the casts

  /** A difference of signed 64-bit numbers, wrapped. */
  function SignedDifference(total: nat, sum: nat): (r: int) {
    var d := AsI64(total) - AsI64(sum);
    if d >= TWO_63 then d - TWO_64 else if d + TWO_63 < 0 then d + TWO_64 else d
  }

  /** The casts to signed numbers do no harm to any proposal less than 2^63 away from the
      total, however large both are; they do to every other. */
  lemma CastsAreExactIffClose(total: nat, sum: nat)
    requires total < TWO_64 && sum < TWO_64
    ensures SignedDifference(total, sum) == total - sum <==> -1 - TWO_63 < total - sum < TWO_63
  {
  }

  // ----- the loops

  method SumOf(a: array<nat>) returns (s: nat)
    ensures s == Sum(a[..])
  {
    s := 0;
    for i := 0 to a.Length
      invariant s + Sum(a[i..]) == Sum(a[..])
    {
      assert a[i..][1..] == a[i + 1..];
      s := s + a[i];
    }
  }

  method TopUpInPlace(a: array<nat>, diff: nat)
    requires a.Length > 0
    modifies a
    ensures a[..] == TopUp(old(a[..]), diff)
  {
    var count := a.Length;
    for i := 0 to diff
      invariant forall k :: 0 <= k < count ==> a[k] == old(a[k]) + Extra(i, count, k)
    {
      forall k | 0 <= k < count
        ensures Extra(i + 1, count, k) == Extra(i, count, k) + (if k == i % count then 1 else 0)
      {
        ExtraStep(i, count, k);
      }
      a[i % count] := a[i % count] + 1;
    }
  }

  method LiftInPlace(a: array<nat>)
    modifies a
    ensures a[..] == Lift(old(a[..]))
  {
    for i := 0 to a.Length
      invariant forall k :: 0 <= k < i ==> a[k] == if old(a[k]) == 0 then 1 else old(a[k])
      invariant forall k :: i <= k < a.Length ==> a[k] == old(a[k])
    {
      if a[i] == 0 {
        a[i] := 1;
      }
    }
  }

  method TrimInPlace(a: array<nat>, excess: nat)
    requires excess > 0
    modifies a
    ensures a[..] == Trim(old(a[..]), excess)
  {
    var diff := excess;
    ghost var was, want := a[..], Trim(a[..], excess);
    for i := 0 to a.Length
      invariant diff > 0 && want[i..] == Trim(was[i..], diff)
      invariant forall k :: 0 <= k < a.Length ==> a[k] == if k < i then want[k] else was[k]
    {
      TrimHead(was[i..], diff);
      assert was[i..][1..] == was[i + 1..] && want[i..][1..] == want[i + 1..] && want[i..][0] == want[i];
      if a[i] > 1 {
        a[i] := a[i] - 1;
        diff := diff - 1;
        if diff == 0 {
          SameTail(want, was, i + 1);
          return;
        }
      }
    }
  }

  lemma SameTail(x: seq<nat>, y: seq<nat>, i: nat)
    requires i <= |x| == |y| && x[i..] == y[i..]
    ensures forall k :: i <= k < |x| ==> x[k] == y[k]
  {
    assert forall k :: i <= k < |x| ==> x[k] == x[i..][k - i];
  }

  lemma TrimHead(xs: seq<nat>, excess: nat)
    requires xs != [] && excess > 0
    ensures var r := Trim(xs, excess);
            if xs[0] > 1 then r[0] == xs[0] - 1 && r[1..] == Trim(xs[1..], excess - 1)
            else r[0] == xs[0] && r[1..] == Trim(xs[1..], excess)
  {
  }

  /** The three repairs in turn. */
  method RepairInPlace(a: array<nat>, total: nat)
    requires a.Length > 0
    modifies a
    ensures a[..] == Repair(old(a[..]), total)
  {
    var sum := SumOf(a);
    if sum < total {
      TopUpInPlace(a, total - sum);
    }
    LiftInPlace(a);
    sum := SumOf(a);
    if sum > total {
      TrimInPlace(a, sum - total);
    }
  }

  /** generate_random_shares, given the proposal of the float step. */
  method GenerateShares(count: nat, total: nat, proposal: seq<nat>) returns (shares: seq<nat>)
    requires |proposal| == count
    ensures shares == if count == 0 then [] else if count == 1 then [total] else Repair(proposal, total)
    ensures count >= 2 ==> SharedOut(proposal, total, shares)
  {
    if count == 0 {
      return [];
    }
    if count == 1 {
      return [total];
    }
    var a := new nat[count](i requires 0 <= i < count => proposal[i]);
    assert a[..] == proposal;
    RepairInPlace(a, total);
    shares := a[..];
    RepairSharesOut(proposal, total);
  }
}
