/** dp_asymmetric.c and dining_philosophers.c as one interleaving protocol: each
    lock, each unlock and the progress update of dp_thread is one step, any
    philosopher whose next step is not blocked may take it, and Stop is not set. */
module Philosophers {

  /** How dp_thread acquires its chopsticks: left first for all, or by parity. */
  datatype Policy = Symmetric | Asymmetric

  /** Where a philosopher is in the loop of dp_thread: before the first lock, between
      the locks, eating, between the unlocks, before the progress update. */
  type Phase = p: nat | p < 5

  const HUNGRY: Phase := 0
  const WAITING: Phase := 1
  const EATING: Phase := 2
  const LEAVING: Phase := 3
  const DONE: Phase := 4

  datatype Mutex = Free | HeldBy(id: nat)

  datatype Table = Table(phase: seq<Phase>, chopstick: seq<Mutex>, progTotal: seq<nat>)

  // ------------------------------------------------------------ neighbourhood

  function LeftPhil(n: nat, i: nat): nat
    requires i < n
  {
    if i == n - 1 then 0 else i + 1
  }

  function LeftChop(n: nat, i: nat): nat
    requires i < n
  {
    i
  }

  function RightChop(n: nat, i: nat): nat
    requires i < n
  {
    if i == 0 then n - 1 else i - 1
  }

  function First(pol: Policy, n: nat, i: nat): nat
    requires i < n
  {
    if pol.Symmetric? || i % 2 == 0 then LeftChop(n, i) else RightChop(n, i)
  }

  function Second(pol: Policy, n: nat, i: nat): nat
    requires i < n
  {
    if pol.Symmetric? || i % 2 == 0 then RightChop(n, i) else LeftChop(n, i)
  }

  /** Around the table: a philosopher shares its left chopstick with its left neighbour,
      whose right one it is, and every chopstick lies between two neighbours. */
  lemma AroundTheTable(n: nat, i: nat, j: nat)
    requires n >= 2 && i < n && j < n
    ensures LeftPhil(n, i) < n && LeftPhil(n, i) != i
    ensures LeftChop(n, i) == LeftChop(n, j) <==> i == j
    ensures RightChop(n, j) == LeftChop(n, i) <==> j == LeftPhil(n, i)
  {
  }

  // ------------------------------------------------------------------- steps

  ghost predicate Shaped(n: nat, s: Table) {
    n >= 2 && |s.phase| == |s.chopstick| == |s.progTotal| == n
  }

  /** set_table */
  function Start(n: nat): (s: Table)
    requires n >= 2
    ensures Shaped(n, s)
  {
    Table(seq(n, _ => HUNGRY), seq(n, _ => Free), seq(n, _ => 0))
  }

  /** The next step of philosopher i is not blocked. */
  predicate Enabled(pol: Policy, n: nat, s: Table, i: nat)
    requires |s.phase| == |s.chopstick| == n && i < n
  {
    if s.phase[i] == HUNGRY then s.chopstick[First(pol, n, i)].Free?
    else if s.phase[i] == WAITING then s.chopstick[Second(pol, n, i)].Free?
    else true
  }

  /** The next step of philosopher i. */
  function Step(pol: Policy, n: nat, s: Table, i: nat): (r: Table)
    requires Shaped(n, s) && i < n && Enabled(pol, n, s, i)
    ensures Shaped(n, r)
  {
    if s.phase[i] == HUNGRY then
      s.(phase := s.phase[i := WAITING], chopstick := s.chopstick[First(pol, n, i) := HeldBy(i)])
    else if s.phase[i] == WAITING then
      s.(phase := s.phase[i := EATING], chopstick := s.chopstick[Second(pol, n, i) := HeldBy(i)])
    else if s.phase[i] == EATING then
      s.(phase := s.phase[i := LEAVING], chopstick := s.chopstick[RightChop(n, i) := Free])
    else if s.phase[i] == LEAVING then
      s.(phase := s.phase[i := DONE], chopstick := s.chopstick[LeftChop(n, i) := Free])
    else
      s.(phase := s.phase[i := HUNGRY], progTotal := s.progTotal[i := s.progTotal[i] + 1])
  }

  /** A schedule names who steps; it can be followed if nobody it names is blocked. */
  ghost predicate Feasible(pol: Policy, n: nat, s: Table, sched: seq<nat>)
    requires Shaped(n, s)
    decreases |sched|
  {
    sched == [] ||
    (sched[0] < n && Enabled(pol, n, s, sched[0]) && Feasible(pol, n, Step(pol, n, s, sched[0]), sched[1..]))
  }

  ghost function Exec(pol: Policy, n: nat, s: Table, sched: seq<nat>): (r: Table)
    requires Shaped(n, s) && Feasible(pol, n, s, sched)
    ensures Shaped(n, r)
    decreases |sched|
  {
    if sched == [] then s else Exec(pol, n, Step(pol, n, s, sched[0]), sched[1..])
  }

  ghost predicate Reachable(pol: Policy, n: nat, s: Table)
    requires n >= 2
  {
    exists sched: seq<nat> :: Feasible(pol, n, Start(n), sched) && Exec(pol, n, Start(n), sched) == s
  }

  // --------------------------------------------------------------- invariant

  /** Philosopher i holds chopstick c in its phase. */
  predicate Uses(pol: Policy, n: nat, s: Table, i: nat, c: nat)
    requires |s.phase| == n && i < n
  {
    || (s.phase[i] == WAITING && c == First(pol, n, i))
    || (s.phase[i] == EATING && (c == LeftChop(n, i) || c == RightChop(n, i)))
    || (s.phase[i] == LEAVING && c == LeftChop(n, i))
  }

  /** The mutexes are held by exactly those whose phase says so. */
  ghost predicate Inv(pol: Policy, n: nat, s: Table) {
    Shaped(n, s) &&
    forall i: nat, c: nat :: i < n && c < n ==> (s.chopstick[c] == HeldBy(i) <==> Uses(pol, n, s, i, c))
  }

  /** A mutex is never held by a stranger. */
  ghost predicate Owners(n: nat, s: Table) {
    |s.chopstick| == n && forall c: nat :: c < n && s.chopstick[c].HeldBy? ==> s.chopstick[c].id < n
  }

  lemma StepKeeps(pol: Policy, n: nat, s: Table, i: nat)
    requires Inv(pol, n, s) && Owners(n, s) && i < n && Enabled(pol, n, s, i)
    ensures Inv(pol, n, Step(pol, n, s, i)) && Owners(n, Step(pol, n, s, i))
  {
    var r := Step(pol, n, s, i);
    forall j: nat, c: nat | j < n && c < n ensures r.chopstick[c] == HeldBy(j) <==> Uses(pol, n, r, j, c) {
      assert s.chopstick[c] == HeldBy(j) <==> Uses(pol, n, s, j, c);
      assert s.chopstick[c] == HeldBy(i) <==> Uses(pol, n, s, i, c);
      assert j != i ==> Uses(pol, n, r, j, c) == Uses(pol, n, s, j, c);
    }
  }

  lemma {:induction false} ExecKeeps(pol: Policy, n: nat, s: Table, sched: seq<nat>)
    requires Inv(pol, n, s) && Owners(n, s) && Feasible(pol, n, s, sched)
    ensures Inv(pol, n, Exec(pol, n, s, sched)) && Owners(n, Exec(pol, n, s, sched))
    decreases |sched|
  {
    if sched != [] {
      StepKeeps(pol, n, s, sched[0]);
      ExecKeeps(pol, n, Step(pol, n, s, sched[0]), sched[1..]);
    }
  }

  lemma ReachableInv(pol: Policy, n: nat, s: Table)
    requires n >= 2 && Reachable(pol, n, s)
    ensures Inv(pol, n, s) && Owners(n, s)
  {
    var sched: seq<nat> :| Feasible(pol, n, Start(n), sched) && Exec(pol, n, Start(n), sched) == s;
    ExecKeeps(pol, n, Start(n), sched);
  }

  // ------------------------------------------------------------------ safety

  /** What a philosopher holds, by the numbers of the chopsticks: between the locks the
      one it takes first, its own or by parity its right one; while eating both; between
      the unlocks its own, the right one having been put down first. */
  lemma HoldsByPhase(pol: Policy, n: nat, s: Table, i: nat, c: nat)
    requires n >= 2 && Reachable(pol, n, s) && i < n && c < n
    ensures
      var right := if i == 0 then n - 1 else i - 1;
      Shaped(n, s) &&
      (s.chopstick[c] == HeldBy(i) <==>
         || (s.phase[i] == 1 && c == if pol == Asymmetric && i % 2 == 1 then right else i)
         || (s.phase[i] == 2 && (c == i || c == right))
         || (s.phase[i] == 3 && c == i))
  {
    ReachableInv(pol, n, s);
    assert s.chopstick[c] == HeldBy(i) <==> Uses(pol, n, s, i, c);
  }

  /** Neighbours never eat together, under either policy. */
  lemma NeighboursExclude(pol: Policy, n: nat, s: Table, i: nat)
    requires n >= 2 && Reachable(pol, n, s) && i < n
    ensures Shaped(n, s) && !(s.phase[i] == EATING && s.phase[LeftPhil(n, i)] == EATING)
  {
    ReachableInv(pol, n, s);
    var j := LeftPhil(n, i);
    var c := LeftChop(n, i);
    assert RightChop(n, j) == c;
    assert s.chopstick[c] == HeldBy(i) <==> Uses(pol, n, s, i, c);
    assert s.chopstick[c] == HeldBy(j) <==> Uses(pol, n, s, j, c);
  }

  lemma HolderUses(pol: Policy, n: nat, s: Table, c: nat)
    requires Inv(pol, n, s) && Owners(n, s) && c < n && s.chopstick[c].HeldBy?
    ensures s.chopstick[c].id < n && Uses(pol, n, s, s.chopstick[c].id, c)
  {
    var j := s.chopstick[c].id;
    assert s.chopstick[c] == HeldBy(j) <==> Uses(pol, n, s, j, c);
  }

  // --------------------------------------------------- deadlock, asymmetric

  /** A chopstick that everybody who shares it takes second is free or held by
      somebody who is past both locks. */
  lemma HeldAsSecond(pol: Policy, n: nat, s: Table, c: nat)
    requires Inv(pol, n, s) && Owners(n, s) && c < n && s.chopstick[c].HeldBy?
    requires forall j: nat :: j < n ==> First(pol, n, j) != c
    ensures s.chopstick[c].id < n && s.phase[s.chopstick[c].id] >= EATING
  {
    HolderUses(pol, n, s, c);
  }

  /** An odd chopstick is never taken first. */
  lemma OddIsSecond(n: nat, c: nat)
    requires n >= 2 && c < n && c % 2 == 1
    ensures forall j: nat :: j < n ==> First(Asymmetric, n, j) != c
  {
  }

  /** Whoever holds something can be unblocked: as long as anybody is not at the
      start of the loop, somebody who is not there has an enabled step. */
  lemma SomebodyBusyMoves(n: nat, s: Table, i: nat) returns (j: nat)
    requires Inv(Asymmetric, n, s) && Owners(n, s) && i < n && s.phase[i] != HUNGRY
    ensures j < n && s.phase[j] != HUNGRY && Enabled(Asymmetric, n, s, j)
  {
    if Enabled(Asymmetric, n, s, i) {
      return i;
    }
    var c := Second(Asymmetric, n, i);
    j := s.chopstick[c].id;
    HolderUses(Asymmetric, n, s, c);
    if c % 2 == 1 {
      OddIsSecond(n, c);
      HeldAsSecond(Asymmetric, n, s, c);
      return;
    }
    if Enabled(Asymmetric, n, s, j) {
      return;
    }
    // only the last chopstick of an odd table is first for one and second for another
    assert c == n - 1 && i == 0 && j == n - 1 && n % 2 == 1;
    var d := Second(Asymmetric, n, j);
    assert d == n - 2;
    OddIsSecond(n, d);
    HeldAsSecond(Asymmetric, n, s, d);
    j := s.chopstick[d].id;
  }

  /** The asymmetric table never deadlocks. */
  lemma NoDeadlock(n: nat, s: Table) returns (j: nat)
    requires n >= 2 && Reachable(Asymmetric, n, s)
    ensures Shaped(n, s) && j < n && Enabled(Asymmetric, n, s, j)
  {
    ReachableInv(Asymmetric, n, s);
    if i: nat :| i < n && s.phase[i] != HUNGRY {
      j := SomebodyBusyMoves(n, s, i);
    } else {
      j := 0;
      var c := First(Asymmetric, n, 0);
      if s.chopstick[c].HeldBy? {
        HolderUses(Asymmetric, n, s, c);
        assert false;
      }
    }
  }

  // ------------------------------------------------------------------ progress

  function Sum(x: seq<nat>): nat {
    if x == [] then 0 else Sum(x[..|x| - 1]) + x[|x| - 1]
  }

  lemma {:induction false} SumUpdate(x: seq<nat>, i: nat, v: nat)
    requires i < |x|
    ensures Sum(x[i := v]) == Sum(x) - x[i] + v && Sum(x) >= x[i]
  {
    var y := x[i := v];
    var front := x[..|x| - 1];
    if i < |x| - 1 {
      SumUpdate(front, i, v);
      assert y[..|y| - 1] == front[i := v];
    } else {
      assert y[..|y| - 1] == front;
    }
  }

  lemma {:induction false} SumBound(x: seq<nat>, b: nat)
    requires forall i :: 0 <= i < |x| ==> x[i] <= b
    ensures Sum(x) <= b * |x|
  {
    if x != [] {
      SumBound(x[..|x| - 1], b);
    }
  }

  /** Steps that a table has seen, by its own account. */
  function Account(s: Table): nat {
    5 * Sum(s.progTotal) + Sum(s.phase)
  }

  lemma StepAccounts(pol: Policy, n: nat, s: Table, i: nat)
    requires Shaped(n, s) && i < n && Enabled(pol, n, s, i)
    ensures Account(Step(pol, n, s, i)) == Account(s) + 1
  {
    SumUpdate(s.phase, i, if s.phase[i] == DONE then HUNGRY else s.phase[i] + 1);
    SumUpdate(s.progTotal, i, s.progTotal[i] + 1);
  }

  lemma {:induction false} ExecAccounts(pol: Policy, n: nat, s: Table, sched: seq<nat>)
    requires Shaped(n, s) && Feasible(pol, n, s, sched)
    ensures Account(Exec(pol, n, s, sched)) == Account(s) + |sched|
    decreases |sched|
  {
    if sched != [] {
      StepAccounts(pol, n, s, sched[0]);
      ExecAccounts(pol, n, Step(pol, n, s, sched[0]), sched[1..]);
    }
  }

  /** Total progress is linear in the length of the run, whatever the schedule:
      five steps make one unit, and at most four steps per philosopher are open. */
  lemma LinearProgress(pol: Policy, n: nat, sched: seq<nat>)
    requires n >= 2 && Feasible(pol, n, Start(n), sched)
    ensures
      var s := Exec(pol, n, Start(n), sched);
      5 * Sum(s.progTotal) <= |sched| <= 5 * Sum(s.progTotal) + 4 * n
  {
    ExecAccounts(pol, n, Start(n), sched);
    SumBound(Start(n).phase, 0);
    SumBound(Start(n).progTotal, 0);
    SumBound(Exec(pol, n, Start(n), sched).phase, 4);
  }

  // ----------------------------------------------- everybody can always eat

  /** How often philosopher i steps in a schedule. */
  function StepsOf(sched: seq<nat>, i: nat): nat {
    if sched == [] then 0 else (if sched[0] == i then 1 else 0) + StepsOf(sched[1..], i)
  }

  lemma StepOwn(pol: Policy, n: nat, s: Table, i: nat, j: nat)
    requires Shaped(n, s) && i < n && j < n && Enabled(pol, n, s, i)
    ensures
      var r := Step(pol, n, s, i);
      5 * r.progTotal[j] + r.phase[j] == 5 * s.progTotal[j] + s.phase[j] + if i == j then 1 else 0
  {
  }

  lemma {:induction false} ExecOwn(pol: Policy, n: nat, s: Table, sched: seq<nat>, i: nat)
    requires Shaped(n, s) && Feasible(pol, n, s, sched) && i < n
    ensures
      var r := Exec(pol, n, s, sched);
      5 * r.progTotal[i] + r.phase[i] == 5 * s.progTotal[i] + s.phase[i] + StepsOf(sched, i)
    decreases |sched|
  {
    hide Step, Enabled;
    if sched != [] {
      StepOwn(pol, n, s, sched[0], i);
      ExecOwn(pol, n, Step(pol, n, s, sched[0]), sched[1..], i);
    }
  }

  /** A philosopher's progress is the number of rounds that it has completed itself, and
      its phase the steps it has taken in the current one. */
  lemma OwnProgress(pol: Policy, n: nat, sched: seq<nat>, i: nat)
    requires n >= 2 && Feasible(pol, n, Start(n), sched) && i < n
    ensures
      var s := Exec(pol, n, Start(n), sched);
      s.progTotal[i] == StepsOf(sched, i) / 5 && s.phase[i] == StepsOf(sched, i) % 5
  {
    ExecOwn(pol, n, Start(n), sched, i);
  }

  lemma {:induction false} ExecConcat(pol: Policy, n: nat, s: Table, a: seq<nat>, b: seq<nat>)
    requires Shaped(n, s) && Feasible(pol, n, s, a) && Feasible(pol, n, Exec(pol, n, s, a), b)
    ensures Feasible(pol, n, s, a + b)
    ensures Exec(pol, n, s, a + b) == Exec(pol, n, Exec(pol, n, s, a), b)
    decreases |a|
  {
    if a == [] {
      assert a + b == b;
    } else {
      assert (a + b)[0] == a[0] && (a + b)[1..] == a[1..] + b;
      ExecConcat(pol, n, Step(pol, n, s, a[0]), a[1..], b);
    }
  }

  function StepsLeft(p: nat): nat
    requires p < 5
  {
    if p == 0 then 0 else 5 - p
  }

  /** Steps still needed until everybody is at the start of the loop. */
  function Open(x: seq<Phase>): nat {
    if x == [] then 0 else Open(x[..|x| - 1]) + StepsLeft(x[|x| - 1])
  }

  lemma {:induction false} OpenUpdate(x: seq<Phase>, i: nat, v: Phase)
    requires i < |x|
    ensures Open(x[i := v]) == Open(x) - StepsLeft(x[i]) + StepsLeft(v)
    ensures Open(x) >= StepsLeft(x[i])
  {
    var y := x[i := v];
    var front := x[..|x| - 1];
    if i < |x| - 1 {
      OpenUpdate(front, i, v);
      assert y[..|y| - 1] == front[i := v];
    } else {
      assert y[..|y| - 1] == front;
    }
  }

  ghost predicate AllHungry(s: Table) {
    forall i :: 0 <= i < |s.phase| ==> s.phase[i] == HUNGRY
  }

  /** The asymmetric table can be brought to rest from every state of the invariant. */
  lemma {:induction false} Drain(n: nat, s: Table) returns (sched: seq<nat>)
    requires Inv(Asymmetric, n, s) && Owners(n, s)
    ensures Feasible(Asymmetric, n, s, sched) && AllHungry(Exec(Asymmetric, n, s, sched))
    decreases Open(s.phase)
  {
    if AllHungry(s) {
      sched := [];
    } else {
      var i: nat :| i < n && s.phase[i] != HUNGRY;
      var j := SomebodyBusyMoves(n, s, i);
      OpenUpdate(s.phase, j, if s.phase[j] == DONE then HUNGRY else s.phase[j] + 1);
      StepKeeps(Asymmetric, n, s, j);
      var rest := Drain(n, Step(Asymmetric, n, s, j));
      sched := [j] + rest;
      assert sched[0] == j && sched[1..] == rest;
    }
  }

  lemma QuietTable(pol: Policy, n: nat, s: Table)
    requires Inv(pol, n, s) && Owners(n, s) && AllHungry(s)
    ensures forall c :: 0 <= c < n ==> s.chopstick[c] == Free
  {
    forall c: nat | c < n ensures s.chopstick[c] == Free {
      if s.chopstick[c].HeldBy? {
        HolderUses(pol, n, s, c);
        assert false;
      }
    }
  }

  /** In every reachable state of the asymmetric table, every philosopher has a
      continuation in which it eats. */
  lemma CanAlwaysEat(n: nat, s: Table, i: nat) returns (sched: seq<nat>)
    requires n >= 2 && Reachable(Asymmetric, n, s) && i < n
    ensures Shaped(n, s) && Feasible(Asymmetric, n, s, sched)
    ensures Exec(Asymmetric, n, s, sched).phase[i] == EATING
  {
    ReachableInv(Asymmetric, n, s);
    var rest := Drain(n, s);
    var q := Exec(Asymmetric, n, s, rest);
    ExecKeeps(Asymmetric, n, s, rest);
    QuietTable(Asymmetric, n, q);
    var q1 := Step(Asymmetric, n, q, i);
    var q2 := Step(Asymmetric, n, q1, i);
    assert [i, i][1..] == [i] && [i][1..] == [];
    assert Feasible(Asymmetric, n, q2, []) && Feasible(Asymmetric, n, q1, [i]) && Feasible(Asymmetric, n, q, [i, i]);
    assert Exec(Asymmetric, n, q2, []) == q2 && Exec(Asymmetric, n, q1, [i]) == q2;
    assert Exec(Asymmetric, n, q, [i, i]) == q2;
    ExecConcat(Asymmetric, n, s, rest, [i, i]);
    sched := rest + [i, i];
  }

  // ------------------------------------------------------ deadlock, symmetric

  ghost predicate Deadlocked(pol: Policy, n: nat, s: Table)
    requires Shaped(n, s)
  {
    forall i: nat :: i < n ==> !Enabled(pol, n, s, i)
  }

  /** Everybody holds the left chopstick and waits for the right one. */
  ghost predicate AllWaiting(n: nat, s: Table)
    requires Shaped(n, s)
  {
    forall i: nat :: i < n ==> s.phase[i] == WAITING && s.chopstick[LeftChop(n, i)] == HeldBy(i)
  }

  /** If a hungry philosopher's left chopstick is taken, its neighbour has both. */
  lemma LeftTakenByEater(n: nat, s: Table, i: nat)
    requires Inv(Symmetric, n, s) && Owners(n, s) && i < n && s.phase[i] == HUNGRY && s.chopstick[i].HeldBy?
    ensures s.chopstick[i].id < n && Enabled(Symmetric, n, s, s.chopstick[i].id)
  {
    HolderUses(Symmetric, n, s, i);
  }

  /** The symmetric table is deadlocked exactly when everybody holds the left
      chopstick and waits for the right. */
  lemma SymmetricDeadlock(n: nat, s: Table)
    requires n >= 2 && Reachable(Symmetric, n, s)
    ensures Shaped(n, s) && (Deadlocked(Symmetric, n, s) <==> AllWaiting(n, s))
  {
    ReachableInv(Symmetric, n, s);
    if Deadlocked(Symmetric, n, s) {
      forall i: nat | i < n ensures s.phase[i] == WAITING && s.chopstick[LeftChop(n, i)] == HeldBy(i) {
        assert !Enabled(Symmetric, n, s, i);
        assert s.chopstick[i] == HeldBy(i) <==> Uses(Symmetric, n, s, i, i);
        if s.phase[i] == HUNGRY {
          LeftTakenByEater(n, s, i);
          assert false;
        }
      }
    }
    if AllWaiting(n, s) {
      forall i: nat | i < n ensures !Enabled(Symmetric, n, s, i) {
        assert s.chopstick[LeftChop(n, RightChop(n, i))] == HeldBy(RightChop(n, i));
      }
    }
  }

  /** The first k philosophers have taken their left chopsticks. */
  function Grabbed(n: nat, k: nat): Table
    requires n >= 2
  {
    Table(seq(n, i => if i < k then WAITING else HUNGRY),
          seq(n, i => if 0 <= i < k then HeldBy(i) else Free), seq(n, _ => 0))
  }

  lemma {:induction false} GrabAll(n: nat, k: nat) returns (sched: seq<nat>)
    requires n >= 2 && k <= n
    ensures Feasible(Symmetric, n, Grabbed(n, k), sched) && Exec(Symmetric, n, Grabbed(n, k), sched) == Grabbed(n, n)
    decreases n - k
  {
    if k == n {
      sched := [];
    } else {
      var s := Grabbed(n, k);
      assert Step(Symmetric, n, s, k) == Grabbed(n, k + 1);
      var rest := GrabAll(n, k + 1);
      sched := [k] + rest;
      assert sched[0] == k && sched[1..] == rest;
    }
  }

  /** For every number of philosophers the symmetric table can deadlock. */
  lemma SymmetricDeadlockReachable(n: nat) returns (s: Table)
    requires n >= 2
    ensures Reachable(Symmetric, n, s) && Shaped(n, s) && Deadlocked(Symmetric, n, s)
  {
    var sched := GrabAll(n, 0);
    s := Grabbed(n, n);
    assert Grabbed(n, 0) == Start(n);
    assert Reachable(Symmetric, n, s);
    SymmetricDeadlock(n, s);
  }
}
