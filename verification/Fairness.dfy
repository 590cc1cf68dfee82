/** Infinite runs of the dining philosophers: with parity order nobody starves if the
    scheduler is strongly fair, and weak fairness is not enough. */
module Fairness {
  import opened Bits
  import opened Philosophers

  // -------------------------------------------------------------------- runs

  /** At time t philosopher sched(t) takes its next step. */
  ghost predicate StepAt(pol: Policy, n: nat, trace: nat -> Table, sched: nat -> nat, t: nat) {
    && Shaped(n, trace(t)) && sched(t) < n && Enabled(pol, n, trace(t), sched(t))
    && trace(t + 1) == Step(pol, n, trace(t), sched(t))
  }

  ghost predicate IsRun(pol: Policy, n: nat, trace: nat -> Table, sched: nat -> nat) {
    n >= 2 && trace(0) == Start(n) && forall t: nat :: StepAt(pol, n, trace, sched, t)
  }

  predicate Acts(sched: nat -> nat, i: nat, t: nat) {
    sched(t) == i
  }

  ghost predicate ActsAfter(sched: nat -> nat, i: nat, t: nat) {
    exists u: nat :: u >= t && Acts(sched, i, u)
  }

  ghost predicate Can(pol: Policy, n: nat, trace: nat -> Table, i: nat, t: nat) {
    Shaped(n, trace(t)) && i < n && Enabled(pol, n, trace(t), i)
  }

  ghost predicate CanAfter(pol: Policy, n: nat, trace: nat -> Table, i: nat, t: nat) {
    exists u: nat :: u >= t && Can(pol, n, trace, i, u)
  }

  /** From time t on philosopher i is unblocked again and again. */
  ghost predicate CanOften(pol: Policy, n: nat, trace: nat -> Table, i: nat, t: nat) {
    forall u: nat :: u >= t ==> CanAfter(pol, n, trace, i, u)
  }

  /** From time t on philosopher i is never blocked. */
  ghost predicate CanAlways(pol: Policy, n: nat, trace: nat -> Table, i: nat, t: nat) {
    forall u: nat :: u >= t ==> Can(pol, n, trace, i, u)
  }

  /** Whoever is unblocked again and again steps: a mutex that is released again and
      again is one day given to each who waits for it. */
  ghost predicate StronglyFair(pol: Policy, n: nat, trace: nat -> Table, sched: nat -> nat) {
    forall i: nat, t: nat :: i < n && CanOften(pol, n, trace, i, t) ==> ActsAfter(sched, i, t)
  }

  /** Whoever stays unblocked steps. */
  ghost predicate WeaklyFair(pol: Policy, n: nat, trace: nat -> Table, sched: nat -> nat) {
    forall i: nat, t: nat :: i < n && CanAlways(pol, n, trace, i, t) ==> ActsAfter(sched, i, t)
  }

  lemma StepHere(pol: Policy, n: nat, trace: nat -> Table, sched: nat -> nat, t: nat)
    requires IsRun(pol, n, trace, sched)
    ensures StepAt(pol, n, trace, sched, t)
  {
  }

  lemma StartOk(pol: Policy, n: nat)
    requires n >= 2
    ensures Inv(pol, n, Start(n)) && Owners(n, Start(n))
  {
  }

  lemma {:induction false} RunInv(pol: Policy, n: nat, trace: nat -> Table, sched: nat -> nat, t: nat)
    requires IsRun(pol, n, trace, sched)
    ensures Inv(pol, n, trace(t)) && Owners(n, trace(t))
  {
    hide Inv, Owners, Start, Step;
    if t == 0 {
      StartOk(pol, n);
    } else {
      RunInv(pol, n, trace, sched, t - 1);
      StepHere(pol, n, trace, sched, t - 1);
      StepKeeps(pol, n, trace(t - 1), sched(t - 1));
    }
  }

  /** The first time from t on at which i acts. */
  lemma {:induction false} FirstAct(sched: nat -> nat, i: nat, t: nat, u: nat) returns (v: nat)
    requires t <= u && Acts(sched, i, u)
    ensures t <= v <= u && Acts(sched, i, v) && forall w: nat :: t <= w < v ==> !Acts(sched, i, w)
    decreases u - t
  {
    if Acts(sched, i, t) {
      v := t;
    } else {
      v := FirstAct(sched, i, t + 1, u);
    }
  }

  lemma StepOther(pol: Policy, n: nat, s: Table, i: nat, j: nat)
    requires Shaped(n, s) && i < n && j < n && i != j && Enabled(pol, n, s, j)
    ensures Step(pol, n, s, j).phase[i] == s.phase[i]
  {
  }

  /** Who does not act stays in its phase. */
  lemma {:induction false} PhaseKept(pol: Policy, n: nat, trace: nat -> Table, sched: nat -> nat,
                                     i: nat, t: nat, v: nat)
    requires IsRun(pol, n, trace, sched) && i < n && t <= v
    requires forall w: nat :: t <= w < v ==> !Acts(sched, i, w)
    ensures Shaped(n, trace(t)) && Shaped(n, trace(v)) && trace(v).phase[i] == trace(t).phase[i]
    decreases v - t
  {
    hide Step, Enabled;
    StepHere(pol, n, trace, sched, t);
    StepHere(pol, n, trace, sched, v);
    if t < v {
      PhaseKept(pol, n, trace, sched, i, t, v - 1);
      StepHere(pol, n, trace, sched, v - 1);
      assert !Acts(sched, i, v - 1);
      StepOther(pol, n, trace(v - 1), i, sched(v - 1));
    }
  }

  // ------------------------------------------------------------------- waking

  ghost predicate IsFree(trace: nat -> Table, c: nat, t: nat) {
    c < |trace(t).chopstick| && trace(t).chopstick[c].Free?
  }

  ghost predicate FreeAfter(trace: nat -> Table, c: nat, t: nat) {
    exists u: nat :: u >= t && IsFree(trace, c, u)
  }

  ghost predicate FreeOften(trace: nat -> Table, c: nat) {
    forall t: nat :: FreeAfter(trace, c, t)
  }

  /** What philosopher i waits for in state s becomes free again and again. */
  ghost predicate Served(pol: Policy, n: nat, trace: nat -> Table, s: Table, i: nat)
    requires |s.phase| == n && i < n
  {
    && (s.phase[i] == HUNGRY ==> FreeOften(trace, First(pol, n, i)))
    && (s.phase[i] == WAITING ==> FreeOften(trace, Second(pol, n, i)))
  }

  /** If the phase of i never changes and its chopstick is freed often, it is unblocked often. */
  lemma ServedCan(pol: Policy, n: nat, trace: nat -> Table, sched: nat -> nat, i: nat, t: nat, u: nat)
    requires IsRun(pol, n, trace, sched) && i < n && t <= u && Shaped(n, trace(t))
    requires Served(pol, n, trace, trace(t), i) && !ActsAfter(sched, i, t)
    ensures CanAfter(pol, n, trace, i, u)
  {
    var p := trace(t).phase[i];
    var v := u;
    if p == HUNGRY {
      assert FreeAfter(trace, First(pol, n, i), u);
      v :| v >= u && IsFree(trace, First(pol, n, i), v);
    } else if p == WAITING {
      assert FreeAfter(trace, Second(pol, n, i), u);
      v :| v >= u && IsFree(trace, Second(pol, n, i), v);
    }
    PhaseKept(pol, n, trace, sched, i, t, v);
    assert Can(pol, n, trace, i, v);
  }

  lemma ServedOften(pol: Policy, n: nat, trace: nat -> Table, sched: nat -> nat, i: nat, t: nat)
    requires IsRun(pol, n, trace, sched) && i < n && Shaped(n, trace(t))
    requires Served(pol, n, trace, trace(t), i) && !ActsAfter(sched, i, t)
    ensures CanOften(pol, n, trace, i, t)
  {
    hide Served, IsRun, CanAfter;
    forall u: nat | u >= t ensures CanAfter(pol, n, trace, i, u) {
      ServedCan(pol, n, trace, sched, i, t, u);
    }
  }

  /** Under strong fairness a philosopher whose chopstick is freed often acts, and the
      first time it does it is still in the same phase. */
  lemma Wakes(pol: Policy, n: nat, trace: nat -> Table, sched: nat -> nat, i: nat, t: nat) returns (v: nat)
    requires IsRun(pol, n, trace, sched) && StronglyFair(pol, n, trace, sched) && i < n && Shaped(n, trace(t))
    requires Served(pol, n, trace, trace(t), i)
    ensures v >= t && sched(v) == i && Shaped(n, trace(v)) && trace(v).phase[i] == trace(t).phase[i]
  {
    hide Served, IsRun, CanOften;
    if !ActsAfter(sched, i, t) {
      ServedOften(pol, n, trace, sched, i, t);
    }
    var u: nat :| u >= t && Acts(sched, i, u);
    v := FirstAct(sched, i, t, u);
    PhaseKept(pol, n, trace, sched, i, t, v);
  }

  /** The phase after one's own step. */
  function NextPhase(p: Phase): Phase {
    if p == DONE then HUNGRY else p + 1
  }

  lemma OwnStep(pol: Policy, n: nat, s: Table, i: nat)
    requires Shaped(n, s) && i < n && Enabled(pol, n, s, i)
    ensures Step(pol, n, s, i).phase[i] == NextPhase(s.phase[i])
    ensures s.phase[i] == EATING ==> Step(pol, n, s, i).chopstick[RightChop(n, i)] == Free
    ensures s.phase[i] == LEAVING ==> Step(pol, n, s, i).chopstick[LeftChop(n, i)] == Free
  {
  }

  /** One more step of philosopher i, and what it releases. */
  lemma Advances(pol: Policy, n: nat, trace: nat -> Table, sched: nat -> nat, i: nat, t: nat) returns (v: nat)
    requires IsRun(pol, n, trace, sched) && StronglyFair(pol, n, trace, sched) && i < n && Shaped(n, trace(t))
    requires Served(pol, n, trace, trace(t), i)
    ensures v > t && Shaped(n, trace(v)) && trace(v).phase[i] == NextPhase(trace(t).phase[i])
    ensures trace(t).phase[i] == EATING ==> IsFree(trace, RightChop(n, i), v)
    ensures trace(t).phase[i] == LEAVING ==> IsFree(trace, LeftChop(n, i), v)
  {
    hide Served, IsRun, StronglyFair, Step, Enabled;
    var u := Wakes(pol, n, trace, sched, i, t);
    StepHere(pol, n, trace, sched, u);
    StepHere(pol, n, trace, sched, u + 1);
    OwnStep(pol, n, trace(u), i);
    v := u + 1;
  }

  // -------------------------------------------------- every chopstick is freed

  lemma FreeEarlier(trace: nat -> Table, c: nat, t: nat, u: nat)
    requires t <= u && FreeAfter(trace, c, u)
    ensures FreeAfter(trace, c, t)
  {
    var v: nat :| v >= u && IsFree(trace, c, v);
  }

  /** A philosopher that is past both locks releases what it holds. */
  lemma Released(pol: Policy, n: nat, trace: nat -> Table, sched: nat -> nat, i: nat, c: nat, t: nat)
    requires IsRun(pol, n, trace, sched) && StronglyFair(pol, n, trace, sched) && i < n && Shaped(n, trace(t))
    requires trace(t).phase[i] >= EATING && Uses(pol, n, trace(t), i, c)
    ensures FreeAfter(trace, c, t)
  {
    hide IsRun, StronglyFair, IsFree, Step, Enabled;
    var u := Advances(pol, n, trace, sched, i, t);
    if trace(t).phase[i] == EATING && c != RightChop(n, i) {
      var v := Advances(pol, n, trace, sched, i, u);
      assert IsFree(trace, c, v);
    } else {
      assert IsFree(trace, c, u);
    }
  }

  /** How far a chopstick is from being taken last: odd ones are always taken second,
      and the last one of an odd table is taken second by philosopher 0 only. */
  function Rank(n: nat, c: nat): nat {
    if c % 2 == 1 then 0 else if c == n - 1 then 1 else 2
  }

  /** With parity order everybody takes the chopstick of higher rank first. */
  lemma RankFalls(n: nat, i: nat)
    requires n >= 2 && i < n
    ensures First(Asymmetric, n, i) < n && Second(Asymmetric, n, i) < n
    ensures Rank(n, Second(Asymmetric, n, i)) < Rank(n, First(Asymmetric, n, i))
  {
  }

  lemma HeldByWhom(pol: Policy, n: nat, trace: nat -> Table, sched: nat -> nat, c: nat, t: nat) returns (j: nat)
    requires IsRun(pol, n, trace, sched) && c < n && !IsFree(trace, c, t)
    ensures Shaped(n, trace(t)) && j < n && Uses(pol, n, trace(t), j, c)
  {
    RunInv(pol, n, trace, sched, t);
    HolderUses(pol, n, trace(t), c);
    j := trace(t).chopstick[c].id;
  }

  lemma FirstIsSide(n: nat, i: nat)
    requires i < n
    ensures First(Asymmetric, n, i) == LeftChop(n, i) || First(Asymmetric, n, i) == RightChop(n, i)
  {
  }

  /** With parity order and strong fairness every chopstick is free at some later time. */
  lemma {:induction false} Freed(n: nat, trace: nat -> Table, sched: nat -> nat, c: nat, t: nat)
    requires IsRun(Asymmetric, n, trace, sched) && StronglyFair(Asymmetric, n, trace, sched) && c < n
    ensures FreeAfter(trace, c, t)
    decreases Rank(n, c)
  {
    hide IsRun, StronglyFair, IsFree, Rank, First, Second;
    if IsFree(trace, c, t) {
      assert FreeAfter(trace, c, t);
    } else {
      var j := HeldByWhom(Asymmetric, n, trace, sched, c, t);
      if trace(t).phase[j] == WAITING {
        RankFalls(n, j);
        forall u: nat ensures FreeAfter(trace, Second(Asymmetric, n, j), u) {
          Freed(n, trace, sched, Second(Asymmetric, n, j), u);
        }
        var v := Advances(Asymmetric, n, trace, sched, j, t);
        FirstIsSide(n, j);
        Released(Asymmetric, n, trace, sched, j, c, v);
        FreeEarlier(trace, c, t, v);
      } else {
        Released(Asymmetric, n, trace, sched, j, c, t);
      }
    }
  }

  // ----------------------------------------------------------- no starvation

  /** Steps from phase p to phase q. */
  function Ahead(p: Phase, q: Phase): nat {
    if p <= q then q - p else 5 + q - p
  }

  lemma AllServed(n: nat, trace: nat -> Table, sched: nat -> nat, i: nat, t: nat)
    requires IsRun(Asymmetric, n, trace, sched) && StronglyFair(Asymmetric, n, trace, sched) && i < n
    ensures Shaped(n, trace(t)) && Served(Asymmetric, n, trace, trace(t), i)
  {
    StepHere(Asymmetric, n, trace, sched, t);
    hide IsRun, StronglyFair, First, Second, FreeAfter;
    RankFalls(n, i);
    forall w: nat ensures FreeAfter(trace, First(Asymmetric, n, i), w) {
      Freed(n, trace, sched, First(Asymmetric, n, i), w);
    }
    forall w: nat ensures FreeAfter(trace, Second(Asymmetric, n, i), w) {
      Freed(n, trace, sched, Second(Asymmetric, n, i), w);
    }
  }

  /** Every philosopher comes to every phase again. */
  lemma {:induction false} Reaches(n: nat, trace: nat -> Table, sched: nat -> nat, i: nat, t: nat, q: Phase)
    returns (u: nat)
    requires IsRun(Asymmetric, n, trace, sched) && StronglyFair(Asymmetric, n, trace, sched) && i < n
    ensures u >= t && Shaped(n, trace(u)) && trace(u).phase[i] == q
    decreases if Shaped(n, trace(t)) then Ahead(trace(t).phase[i], q) else 0
  {
    hide IsRun, StronglyFair, Served;
    AllServed(n, trace, sched, i, t);
    if trace(t).phase[i] == q {
      u := t;
    } else {
      var v := Advances(Asymmetric, n, trace, sched, i, t);
      u := Reaches(n, trace, sched, i, v, q);
    }
  }

  /** Philosopher i takes its second chopstick and begins to eat at time t. */
  ghost predicate BeginsToEat(trace: nat -> Table, sched: nat -> nat, i: nat, t: nat) {
    Acts(sched, i, t) && i < |trace(t).phase| && trace(t).phase[i] == WAITING
  }

  ghost predicate EatsAfter(trace: nat -> Table, sched: nat -> nat, i: nat, t: nat) {
    exists u: nat :: u >= t && BeginsToEat(trace, sched, i, u)
  }

  /** Every philosopher begins to eat again and again. */
  ghost predicate NobodyStarves(n: nat, trace: nat -> Table, sched: nat -> nat) {
    forall i: nat, t: nat :: i < n ==> EatsAfter(trace, sched, i, t)
  }

  lemma EatsAgain(n: nat, trace: nat -> Table, sched: nat -> nat, i: nat, t: nat)
    requires IsRun(Asymmetric, n, trace, sched) && StronglyFair(Asymmetric, n, trace, sched) && i < n
    ensures EatsAfter(trace, sched, i, t)
  {
    hide IsRun, StronglyFair, Served;
    var u := Reaches(n, trace, sched, i, t, WAITING);
    AllServed(n, trace, sched, i, u);
    var v := Wakes(Asymmetric, n, trace, sched, i, u);
    assert BeginsToEat(trace, sched, i, v);
  }

  lemma EaterActs(trace: nat -> Table, sched: nat -> nat, i: nat, t: nat)
    requires EatsAfter(trace, sched, i, t)
    ensures ActsAfter(sched, i, t)
  {
    var u: nat :| u >= t && BeginsToEat(trace, sched, i, u);
  }

  /** Freedom from starvation: on an infinite run of the parity-ordered table every
      philosopher eats again and again exactly if the scheduler is strongly fair. */
  lemma NoStarvation(n: nat, trace: nat -> Table, sched: nat -> nat)
    requires IsRun(Asymmetric, n, trace, sched)
    ensures NobodyStarves(n, trace, sched) <==> StronglyFair(Asymmetric, n, trace, sched)
  {
    hide IsRun, CanOften, EatsAfter;
    if StronglyFair(Asymmetric, n, trace, sched) {
      forall i: nat, t: nat | i < n ensures EatsAfter(trace, sched, i, t) {
        EatsAgain(n, trace, sched, i, t);
      }
    }
    if NobodyStarves(n, trace, sched) {
      forall i: nat, t: nat | i < n ensures ActsAfter(sched, i, t) {
        EaterActs(trace, sched, i, t);
      }
    }
  }

  // ----------------------------------------------------- strong fairness exists

  /** Everybody in turn goes once round the loop. */
  function Turn(n: nat, t: nat): nat
    requires n > 0
  {
    t / 5 % n
  }

  lemma TurnNext(n: nat, t: nat)
    requires n > 0
    ensures t % 5 < 4 ==> Turn(n, t + 1) == Turn(n, t) && (t + 1) % 5 == t % 5 + 1
    ensures t % 5 == 4 ==> (t + 1) % 5 == 0
  {
    assert (t + 1) / 5 == t / 5 + if t % 5 == 4 then 1 else 0;
  }

  /** Philosopher i is in phase p and everybody else is hungry. */
  ghost predicate Alone(n: nat, s: Table, i: nat, p: nat) {
    Shaped(n, s) && forall j: nat :: j < n ==> s.phase[j] == if j == i then p else HUNGRY
  }

  /** A philosopher that is alone in the loop body is not blocked. */
  lemma AloneMoves(pol: Policy, n: nat, s: Table, i: nat)
    requires Inv(pol, n, s) && Owners(n, s) && i < n && Alone(n, s, i, s.phase[i])
    ensures Enabled(pol, n, s, i)
    ensures Alone(n, Step(pol, n, s, i), i, NextPhase(s.phase[i]))
  {
    if !Enabled(pol, n, s, i) {
      var c := if s.phase[i] == HUNGRY then First(pol, n, i) else Second(pol, n, i);
      HolderUses(pol, n, s, c);
      assert false;
    }
  }

  lemma AloneHungry(n: nat, s: Table, i: nat, j: nat)
    requires Alone(n, s, i, HUNGRY)
    ensures Alone(n, s, j, HUNGRY)
  {
  }

  lemma StartAlone(n: nat)
    requires n >= 2
    ensures Alone(n, Start(n), Turn(n, 0), 0)
  {
  }

  lemma RoundStep(pol: Policy, n: nat, s: Table, t: nat)
    requires n >= 2 && Inv(pol, n, s) && Owners(n, s) && Alone(n, s, Turn(n, t), t % 5)
    ensures Turn(n, t) < n && Enabled(pol, n, s, Turn(n, t))
    ensures
      var r := Step(pol, n, s, Turn(n, t));
      Inv(pol, n, r) && Owners(n, r) && Alone(n, r, Turn(n, t + 1), (t + 1) % 5)
  {
    hide Inv, Owners, Step, Enabled;
    TurnNext(n, t);
    var i := Turn(n, t);
    AloneMoves(pol, n, s, i);
    StepKeeps(pol, n, s, i);
    if t % 5 == 4 {
      AloneHungry(n, Step(pol, n, s, i), i, Turn(n, t + 1));
    }
  }

  ghost function Rounds(pol: Policy, n: nat, t: nat): (s: Table)
    requires n >= 2
    ensures Inv(pol, n, s) && Owners(n, s) && Alone(n, s, Turn(n, t), t % 5)
  {
    hide Inv, Owners, Step, Turn, Alone;
    if t == 0 then
      StartOk(pol, n);
      StartAlone(n);
      Start(n)
    else
      var s := Rounds(pol, n, t - 1);
      var i := Turn(n, t - 1);
      RoundStep(pol, n, s, t - 1);
      Step(pol, n, s, i)
  }

  lemma {:induction false} GrowsBy(t: nat, n: nat)
    requires n > 0
    ensures t <= t * n
  {
    if t > 0 {
      GrowsBy(t - 1, n);
    }
  }

  lemma TurnComes(n: nat, i: nat, t: nat) returns (u: nat)
    requires i < n
    ensures u >= t && Turn(n, u) == i
  {
    var q := t * n + i;
    u := 5 * q;
    DivUnique(q, n, t);
    GrowsBy(t, n);
  }

  lemma RoundStart(pol: Policy, n: nat)
    requires n >= 2
    ensures Rounds(pol, n, 0) == Start(n)
  {
  }

  lemma RoundRuns(pol: Policy, n: nat, t: nat)
    requires n >= 2
    ensures Shaped(n, Rounds(pol, n, t)) && Turn(n, t) < n && Enabled(pol, n, Rounds(pol, n, t), Turn(n, t))
    ensures Rounds(pol, n, t + 1) == Step(pol, n, Rounds(pol, n, t), Turn(n, t))
  {
    hide Owners, Step, Enabled, Alone, Uses;
    RoundStep(pol, n, Rounds(pol, n, t), t);
  }

  /** Strongly fair runs exist for every table, so freedom from starvation is not an
      empty statement. */
  lemma FairRunExists(pol: Policy, n: nat) returns (trace: nat -> Table, sched: nat -> nat)
    requires n >= 2
    ensures IsRun(pol, n, trace, sched) && StronglyFair(pol, n, trace, sched)
  {
    hide Inv, Owners, Alone, Step, Enabled, Turn;
    trace := (t: nat) => Rounds(pol, n, t);
    sched := (t: nat) => Turn(n, t);
    RoundStart(pol, n);
    forall t: nat ensures StepAt(pol, n, trace, sched, t) {
      RoundRuns(pol, n, t);
    }
    forall i: nat, t: nat | i < n ensures ActsAfter(sched, i, t) {
      var u := TurnComes(n, i, t);
      assert Acts(sched, i, u);
    }
  }

  // ------------------------------------------------ weak fairness is not enough

  /** Two philosophers, and only philosopher 1 ever steps. */
  function Hogged(t: nat): Table {
    var p: Phase := t % 5;
    var low := if p == WAITING || p == EATING then HeldBy(1) else Free;
    var high := if p == EATING || p == LEAVING then HeldBy(1) else Free;
    Table([HUNGRY, p], [low, high], [0, t / 5])
  }

  lemma HogStep(t: nat)
    ensures Shaped(2, Hogged(t)) && Enabled(Asymmetric, 2, Hogged(t), 1)
    ensures Hogged(t + 1) == Step(Asymmetric, 2, Hogged(t), 1)
  {
    assert (t + 1) % 5 == if t % 5 == 4 then 0 else t % 5 + 1;
    assert (t + 1) / 5 == t / 5 + if t % 5 == 4 then 1 else 0;
  }

  /** Philosopher 0 is blocked at some time from t on. */
  lemma HogBlocks(t: nat) returns (u: nat)
    ensures u >= t && !Enabled(Asymmetric, 2, Hogged(u), 0)
  {
    u := 5 * t + 1;
  }

  lemma HogBlocksOften(trace: nat -> Table, t: nat)
    requires forall u: nat :: trace(u) == Hogged(u)
    ensures !CanAlways(Asymmetric, 2, trace, 0, t)
  {
    var u := HogBlocks(t);
    assert !Can(Asymmetric, 2, trace, 0, u);
  }

  lemma HogStart()
    ensures Hogged(0) == Start(2)
  {
  }

  /** Without strong fairness of the locks philosopher 0 can starve: a neighbour that
      takes the shared chopstick again and again keeps blocking it in between. */
  lemma WeakFairnessStarves() returns (trace: nat -> Table, sched: nat -> nat)
    ensures IsRun(Asymmetric, 2, trace, sched) && WeaklyFair(Asymmetric, 2, trace, sched)
    ensures forall t: nat :: |trace(t).phase| == 2 && trace(t).phase[0] == HUNGRY
  {
    trace := (t: nat) => Hogged(t);
    sched := (t: nat) => 1;
    hide Step, Enabled;
    HogStart();
    forall t: nat ensures StepAt(Asymmetric, 2, trace, sched, t) {
      HogStep(t);
    }
    forall i: nat, t: nat | i < 2 && CanAlways(Asymmetric, 2, trace, i, t) ensures ActsAfter(sched, i, t) {
      HogBlocksOften(trace, t);
      assert Acts(sched, 1, t);
    }
  }
}
