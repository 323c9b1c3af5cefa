/** Tasks that take and give back first-in-first-out locks: a mutex is a lock only ever
    taken exclusively, a read-write lock may also be shared. A request waits behind
    every earlier one, so a waiting writer holds up later readers. */
module LockSystem {
  import opened Basics

  datatype Lock = Wallets | Requests(a: Address) | InFlight(a: Address) | Failed(a: Address) | LastSync(a: Address)

  datatype Mode = Shared | Exclusive

  datatype Hold = Hold(l: Lock, m: Mode)

  datatype Action = Acquire(h: Hold) | Release(h: Hold)

  /** The order in which nested scopes take the locks. */
  function Rank(l: Lock): (r: nat) {
    match l
    case Wallets => 0
    case Requests(_) => 1
    case InFlight(_) => 2
    case Failed(_) => 3
    case LastSync(_) => 4
  }

  datatype Task = Task(todo: seq<Action>, held: multiset<Hold>, waiting: bool)

  datatype System = System(tasks: seq<Task>, queues: map<Lock, seq<nat>>)

  function Queue(s: System, l: Lock): (r: seq<nat>) {
    if l in s.queues then s.queues[l] else []
  }

  predicate Finished(t: Task) {
    t.todo == []
  }

  ghost predicate AllFinished(s: System) {
    forall i :: 0 <= i < |s.tasks| ==> Finished(s.tasks[i])
  }

  /** Nobody, the requester included, holds the lock in a conflicting mode. */
  ghost predicate Free(s: System, h: Hold) {
    forall k :: 0 <= k < |s.tasks| ==>
      Hold(h.l, Exclusive) !in s.tasks[k].held && (h.m == Exclusive ==> Hold(h.l, Shared) !in s.tasks[k].held)
  }

  /** A task can always ask and always give back; it is granted a lock when it is first
      in line and the lock is free for it. */
  ghost predicate CanStep(s: System, i: nat) {
    && i < |s.tasks|
    && var t := s.tasks[i];
    && t.todo != []
    && (t.waiting && t.todo[0].Acquire? ==>
          var q := Queue(s, t.todo[0].h.l);
          q != [] && q[0] == i && Free(s, t.todo[0].h))
  }

  function Step(s: System, i: nat): (r: System)
    requires i < |s.tasks| && s.tasks[i].todo != []
    ensures |r.tasks| == |s.tasks|
  {
    var t := s.tasks[i];
    match t.todo[0]
    case Release(h) =>
      s.(tasks := s.tasks[i := Task(t.todo[1..], t.held - multiset{h}, false)])
    case Acquire(h) =>
      var q := Queue(s, h.l);
      if !t.waiting then
        System(s.tasks[i := t.(waiting := true)], s.queues[h.l := q + [i]])
      else
        System(s.tasks[i := Task(t.todo[1..], t.held + multiset{h}, false)],
               s.queues[h.l := if q == [] then [] else q[1..]])
  }

  ghost predicate Schedule(s: System, turns: seq<nat>)
    decreases |turns|
  {
    turns == [] || (CanStep(s, turns[0]) && Schedule(Step(s, turns[0]), turns[1..]))
  }

  ghost function Exec(s: System, turns: seq<nat>): (r: System)
    requires Schedule(s, turns)
    ensures |r.tasks| == |s.tasks|
    decreases |turns|
  {
    if turns == [] then s else Exec(Step(s, turns[0]), turns[1..])
  }

  ghost predicate Initial(s: System) {
    && s.queues == map[]
    && forall i :: 0 <= i < |s.tasks| ==> s.tasks[i].held == multiset{} && !s.tasks[i].waiting
  }

  // ----- the lock order

  ghost predicate Below(held: multiset<Hold>, l: Lock) {
    forall h :: h in held ==> Rank(h.l) < Rank(l)
  }

  /** Every lock is requested above all locks held, and everything is given back. */
  ghost predicate Ordered(todo: seq<Action>, held: multiset<Hold>) {
    if todo == [] then held == multiset{}
    else match todo[0]
      case Acquire(h) => Below(held, h.l) && Ordered(todo[1..], held + multiset{h})
      case Release(h) => h in held && Ordered(todo[1..], held - multiset{h})
  }

  ghost predicate WaitsFor(s: System, i: nat, l: Lock) {
    && i < |s.tasks|
    && s.tasks[i].waiting && s.tasks[i].todo != []
    && s.tasks[i].todo[0].Acquire? && s.tasks[i].todo[0].h.l == l
  }

  ghost predicate QueuesMatch(s: System) {
    && (forall l, k :: 0 <= k < |Queue(s, l)| ==> WaitsFor(s, Queue(s, l)[k], l))
    && (forall i :: 0 <= i < |s.tasks| && s.tasks[i].waiting ==>
          s.tasks[i].todo != [] && s.tasks[i].todo[0].Acquire? && i in Queue(s, s.tasks[i].todo[0].h.l))
    && (forall l, j, k :: 0 <= j < k < |Queue(s, l)| ==> Queue(s, l)[j] != Queue(s, l)[k])
  }

  ghost predicate InOrder(s: System) {
    && (forall i :: 0 <= i < |s.tasks| ==> Ordered(s.tasks[i].todo, s.tasks[i].held))
    && QueuesMatch(s)
  }

  lemma StepKeepsOrder(s: System, i: nat)
    requires InOrder(s) && CanStep(s, i)
    ensures InOrder(Step(s, i))
  {
    StepKeepsQueues(s, i);
  }

  lemma StepKeepsQueues(s: System, i: nat)
    requires QueuesMatch(s) && CanStep(s, i)
    ensures QueuesMatch(Step(s, i))
  {
    var t := s.tasks[i];
    if t.todo[0].Release? {
      ReleaseKeepsQueues(s, i);
    } else if t.waiting {
      GrantKeepsQueues(s, i);
    } else {
      RequestKeepsQueues(s, i);
    }
  }

  lemma ReleaseKeepsQueues(s: System, i: nat)
    requires QueuesMatch(s) && CanStep(s, i) && s.tasks[i].todo[0].Release?
    ensures QueuesMatch(Step(s, i))
  {
    var r := Step(s, i);
    assert !s.tasks[i].waiting;
    assert forall l :: Queue(r, l) == Queue(s, l);
    forall l, k | 0 <= k < |Queue(r, l)| ensures WaitsFor(r, Queue(r, l)[k], l) {
      assert WaitsFor(s, Queue(s, l)[k], l);
    }
  }

  lemma RequestKeepsQueues(s: System, i: nat)
    requires QueuesMatch(s) && CanStep(s, i) && s.tasks[i].todo[0].Acquire? && !s.tasks[i].waiting
    ensures QueuesMatch(Step(s, i))
  {
    var r, asked := Step(s, i), s.tasks[i].todo[0].h.l;
    var q := Queue(s, asked);
    assert forall l :: l != asked ==> Queue(r, l) == Queue(s, l);
    forall l, k | 0 <= k < |Queue(r, l)| ensures WaitsFor(r, Queue(r, l)[k], l) {
      if l != asked || k < |q| {
        assert WaitsFor(s, Queue(s, l)[k], l);
      }
    }
    assert i !in q;
    assert Queue(r, asked)[|q|] == i;
  }

  lemma GrantKeepsQueues(s: System, i: nat)
    requires QueuesMatch(s) && CanStep(s, i) && s.tasks[i].todo[0].Acquire? && s.tasks[i].waiting
    ensures QueuesMatch(Step(s, i))
  {
    var r, granted := Step(s, i), s.tasks[i].todo[0].h.l;
    assert forall l :: l != granted ==> Queue(r, l) == Queue(s, l);
    forall l, k | 0 <= k < |Queue(r, l)| ensures WaitsFor(r, Queue(r, l)[k], l) {
      var k' := if l == granted then k + 1 else k;
      assert WaitsFor(s, Queue(s, l)[k'], l);
    }
    forall j | 0 <= j < |s.tasks| && j != i && s.tasks[j].waiting
      ensures j in Queue(r, s.tasks[j].todo[0].h.l)
    {
      var l := s.tasks[j].todo[0].h.l;
      var k :| 0 <= k < |Queue(s, l)| && Queue(s, l)[k] == j;
      if l == granted { assert Queue(r, l)[k - 1] == j; }
    }
  }

  /** Among the waiting tasks, one that waits for a lock of the highest rank. */
  lemma {:induction false} HighestWaiter(s: System, n: nat) returns (i: nat)
    requires 0 < n <= |s.tasks|
    requires exists j :: 0 <= j < n && s.tasks[j].waiting
    requires forall j :: 0 <= j < n && s.tasks[j].waiting ==> s.tasks[j].todo != [] && s.tasks[j].todo[0].Acquire?
    ensures i < n && s.tasks[i].waiting
    ensures forall j :: 0 <= j < n && s.tasks[j].waiting ==>
              Rank(s.tasks[j].todo[0].h.l) <= Rank(s.tasks[i].todo[0].h.l)
  {
    var last := n - 1;
    if exists j :: 0 <= j < last && s.tasks[j].waiting {
      i := HighestWaiter(s, last);
      if s.tasks[last].waiting && Rank(s.tasks[last].todo[0].h.l) > Rank(s.tasks[i].todo[0].h.l) {
        i := last;
      }
    } else {
      i := last;
    }
  }

  /** Deadlock freedom: as long as somebody is unfinished, somebody can step. */
  lemma SomebodyCanStep(s: System)
    requires InOrder(s) && !AllFinished(s)
    ensures exists i: nat :: CanStep(s, i)
  {
    var u :| 0 <= u < |s.tasks| && !Finished(s.tasks[u]);
    if i :| 0 <= i < |s.tasks| && !Finished(s.tasks[i]) && !s.tasks[i].waiting {
      assert CanStep(s, i);
    } else {
      assert s.tasks[u].waiting;
      var i := HighestWaiter(s, |s.tasks|);
      HeadCanStep(s, i);
    }
  }

  /** Whoever is first in line for the highest lock waited for: nobody holds it, for a
      holder would be waiting for a higher one still. */
  lemma HeadCanStep(s: System, i: nat)
    requires InOrder(s) && i < |s.tasks| && s.tasks[i].waiting
    requires forall j :: 0 <= j < |s.tasks| && !Finished(s.tasks[j]) ==> s.tasks[j].waiting
    requires forall j :: 0 <= j < |s.tasks| && s.tasks[j].waiting ==>
               Rank(s.tasks[j].todo[0].h.l) <= Rank(s.tasks[i].todo[0].h.l)
    ensures CanStep(s, Queue(s, s.tasks[i].todo[0].h.l)[0])
  {
    var l := s.tasks[i].todo[0].h.l;
    var head := Queue(s, l)[0];
    assert WaitsFor(s, head, l);
    forall k | 0 <= k < |s.tasks|
      ensures Hold(l, Exclusive) !in s.tasks[k].held && Hold(l, Shared) !in s.tasks[k].held
    {
      if Hold(l, Exclusive) in s.tasks[k].held || Hold(l, Shared) in s.tasks[k].held {
        HolderWaitsHigher(s, k, l);
        assert false;
      }
    }
  }

  lemma HolderWaitsHigher(s: System, k: nat, l: Lock)
    requires InOrder(s) && k < |s.tasks|
    requires Hold(l, Exclusive) in s.tasks[k].held || Hold(l, Shared) in s.tasks[k].held
    ensures !Finished(s.tasks[k])
    ensures s.tasks[k].waiting ==> Rank(l) < Rank(s.tasks[k].todo[0].h.l)
  {
    assert Ordered(s.tasks[k].todo, s.tasks[k].held);
  }

  // ----- progress

  function Work(tasks: seq<Task>): (r: nat) {
    if tasks == [] then 0
    else Work(tasks[1..]) + 2 * |tasks[0].todo| + (if tasks[0].todo != [] && !tasks[0].waiting then 1 else 0)
  }

  lemma {:induction false} WorkUpdate(tasks: seq<Task>, i: nat, t: Task)
    requires i < |tasks|
    ensures Work(tasks[i := t]) - Work([t]) == Work(tasks) - Work([tasks[i]])
  {
    if i == 0 {
      assert tasks[0 := t][1..] == tasks[1..];
    } else {
      WorkUpdate(tasks[1..], i - 1, t);
      assert tasks[i := t][1..] == tasks[1..][i - 1 := t];
    }
  }

  lemma StepDoesWork(s: System, i: nat)
    requires CanStep(s, i)
    ensures Work(Step(s, i).tasks) < Work(s.tasks)
  {
    WorkUpdate(s.tasks, i, Step(s, i).tasks[i]);
  }

  lemma {:induction false} RunKeepsOrder(s: System, turns: seq<nat>)
    requires InOrder(s) && Schedule(s, turns)
    ensures InOrder(Exec(s, turns)) && |turns| + Work(Exec(s, turns).tasks) <= Work(s.tasks)
    decreases |turns|
  {
    if turns != [] {
      StepKeepsOrder(s, turns[0]);
      StepDoesWork(s, turns[0]);
      RunKeepsOrder(Step(s, turns[0]), turns[1..]);
    }
  }

  // ----- mutual exclusion

  /** Who holds the lock exclusively holds it once, and nobody else holds it at all. */
  ghost predicate HeldAlone(s: System, i: nat, l: Lock)
    requires i < |s.tasks|
  {
    Hold(l, Exclusive) in s.tasks[i].held ==>
      && s.tasks[i].held[Hold(l, Exclusive)] == 1 && Hold(l, Shared) !in s.tasks[i].held
      && forall j :: 0 <= j < |s.tasks| && j != i ==>
           Hold(l, Exclusive) !in s.tasks[j].held && Hold(l, Shared) !in s.tasks[j].held
  }

  ghost predicate Excludes(s: System, l: Lock) {
    forall i :: 0 <= i < |s.tasks| ==> HeldAlone(s, i, l)
  }

  /** A step grants a lock that is free, or gives holds to nobody. */
  lemma StepHolds(s: System, i: nat)
    requires CanStep(s, i)
    ensures var t, r := s.tasks[i], Step(s, i);
            && (forall j :: 0 <= j < |s.tasks| && j != i ==> r.tasks[j] == s.tasks[j])
            && (if t.todo[0].Acquire? && t.waiting then
                  Free(s, t.todo[0].h) && r.tasks[i].held == t.held + multiset{t.todo[0].h}
                else r.tasks[i].held <= t.held)
  {
  }

  lemma StepExcludes(s: System, i: nat, l: Lock)
    requires Excludes(s, l) && CanStep(s, i)
    ensures Excludes(Step(s, i), l)
  {
    StepHolds(s, i);
    var r := Step(s, i);
    forall k | 0 <= k < |r.tasks| ensures HeldAlone(r, k, l) {
      assert HeldAlone(s, k, l) && HeldAlone(s, i, l);
    }
  }

  /** No schedule ever lets two tasks into a lock that one of them holds exclusively. */
  lemma {:induction false} LocksExclude(s: System, turns: seq<nat>, l: Lock)
    requires Excludes(s, l) && Schedule(s, turns)
    ensures Excludes(Exec(s, turns), l)
    decreases |turns|
  {
    if turns != [] {
      StepExcludes(s, turns[0], l);
      LocksExclude(Step(s, turns[0]), turns[1..], l);
    }
  }
}
