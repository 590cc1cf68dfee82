/** cg_main.c: the queue of outstanding events, and cg_instrument's use of it. */
module CacheQueue {
  import opened QueueSpec

  datatype Event =
    | EvIrNoX(n: Inode)
    | EvIrGen(n: Inode)
    | EvDr(n: Inode, ea: Atom, size: nat)
    | EvDw(n: Inode, ea: Atom, size: nat)
    | EvDm(n: Inode, ea: Atom, size: nat)
    | EvBc(n: Inode, taken: Atom)
    | EvBi(n: Inode, dst: Atom)

  predicate IsIr(ev: Event) {
    ev.EvIrNoX? || ev.EvIrGen?
  }

  predicate IsData(ev: Event) {
    ev.EvDr? || ev.EvDw? || ev.EvDm?
  }

  /** What a queued event stands for. */
  function Meaning(ev: Event): Single {
    match ev
    case EvIrNoX(n) => Ir(n)
    case EvIrGen(n) => Ir(n)
    case EvDr(n, ea, size) => Read(n, ea, size)
    case EvDm(n, ea, size) => Read(n, ea, size)
    case EvDw(n, ea, size) => Write(n, ea, size)
    case EvBc(n, taken) => Cond(n, taken)
    case EvBi(n, dst) => Ind(n, dst)
  }

  function MeaningAll(evs: seq<Event>): (r: seq<Single>)
    ensures |r| == |evs| && forall i :: 0 <= i < |evs| ==> r[i] == Meaning(evs[i])
  {
    seq(|evs|, i requires 0 <= i < |evs| => Meaning(evs[i]))
  }

  /** Queued events respect the options, and a data event right behind an
      instruction read belongs to that instruction. */
  ghost predicate Queued(cfg: Config, evs: seq<Event>) {
    && (forall i :: 0 <= i < |evs| ==> (evs[i].EvIrNoX? ==> NoX(cfg, evs[i].n)) && (IsData(evs[i]) ==> cfg.cacheSim))
    && (forall i, j :: 0 <= i < j < |evs| && j == i + 1 && IsIr(evs[i]) && IsData(evs[j]) ==> evs[i].n == evs[j].n)
  }

  /** The end of the stream and the end of the queue agree on what a write may merge with. */
  ghost predicate TailAgrees(acc: seq<Single>, evs: seq<Event>) {
    if evs == [] then acc == [] || !acc[|acc| - 1].Read?
    else
      var ev := evs[|evs| - 1];
      acc != [] &&
      (if ev.EvDr? then acc[|acc| - 1] == Meaning(ev) else !acc[|acc| - 1].Read?)
  }

  lemma MeaningConcat(x: seq<Event>, y: seq<Event>)
    ensures MeaningAll(x + y) == MeaningAll(x) + MeaningAll(y)
  {
  }

  lemma MeaningOne(evs: seq<Event>, i: nat)
    requires i < |evs|
    ensures MeaningAll(evs[i..i + 1]) == [Meaning(evs[i])]
  {
  }

  lemma MeaningTwo(evs: seq<Event>, i: nat)
    requires i + 1 < |evs|
    ensures MeaningAll(evs[i..i + 2]) == [Meaning(evs[i]), Meaning(evs[i + 1])]
  {
  }

  lemma MeaningThree(evs: seq<Event>, i: nat)
    requires i + 2 < |evs|
    ensures MeaningAll(evs[i..i + 3]) == [Meaning(evs[i]), Meaning(evs[i + 1]), Meaning(evs[i + 2])]
  {
  }

  lemma QueuedAt(cfg: Config, evs: seq<Event>, i: nat)
    requires Queued(cfg, evs) && i < |evs|
    ensures (evs[i].EvIrNoX? ==> NoX(cfg, evs[i].n)) && (IsData(evs[i]) ==> cfg.cacheSim)
    ensures i + 1 < |evs| && IsIr(evs[i]) && IsData(evs[i + 1]) ==> evs[i].n == evs[i + 1].n && cfg.cacheSim
  {
  }

  lemma QueuedEmpty(cfg: Config)
    ensures Queued(cfg, [])
  {
  }

  lemma QueuedSnoc(cfg: Config, evs: seq<Event>, ev: Event)
    requires Queued(cfg, evs) && (ev.EvIrNoX? ==> NoX(cfg, ev.n)) && (IsData(ev) ==> cfg.cacheSim)
    requires evs != [] && IsIr(evs[|evs| - 1]) && IsData(ev) ==> ev.n == evs[|evs| - 1].n
    ensures Queued(cfg, evs + [ev])
    ensures MeaningAll(evs + [ev]) == MeaningAll(evs) + [Meaning(ev)]
  {
  }

  /** Retagging a read as a modify at the end of the queue. */
  lemma QueuedRetag(cfg: Config, evs: seq<Event>, ev: Event)
    requires ev.EvDm? && Queued(cfg, evs) && evs != [] && evs[|evs| - 1] == EvDr(ev.n, ev.ea, ev.size)
    ensures Queued(cfg, evs[..|evs| - 1] + [ev])
    ensures MeaningAll(evs[..|evs| - 1] + [ev]) == MeaningAll(evs)
  {
  }

  lemma EraseSnoc(ss: seq<Single>, s: Single)
    ensures Erase(ss + [s]) == Erase(ss) +
      match s
      case Barrier => []
      case Modify(n, ea, size) => [Read(n, ea, size)]
      case x => [x]
  {
    assert (ss + [s])[..|ss|] == ss;
  }

  lemma EraseRetag(acc: seq<Single>, n: Inode, ea: Atom, size: nat)
    requires acc != [] && acc[|acc| - 1] == Read(n, ea, size)
    ensures Erase(acc[..|acc| - 1] + [Modify(n, ea, size)]) == Erase(acc)
  {
    hide Erase;
    var front := acc[..|acc| - 1];
    assert acc == front + [Read(n, ea, size)];
    EraseSnoc(front, Read(n, ea, size));
    EraseSnoc(front, Modify(n, ea, size));
  }

  lemma ExpandSnoc(cs: seq<Call>, c: Call)
    ensures ExpandAll(cs + [c]) == ExpandAll(cs) + Expand(c)
  {
    assert (cs + [c])[..|cs|] == cs;
  }

  /** The instruction that data events belong to. */
  datatype Current = NoInstr | Instr(n: Inode)

  /** A data event carries the inode of the instruction it belongs to. */
  predicate Tagged(c: Current, x: Item) {
    x.AddDr? || x.AddDw? ==> c == Instr(x.n)
  }

  function After(c: Current, x: Item): Current {
    if x.AddIr? then Instr(x.n) else c
  }

  class CgState {
    const cfg: Config
    const events: array<Event>
    var used: nat
    var out: seq<Call>
    ghost var acc: seq<Single>
    ghost var current: Current

    /** Calls emitted so far and events still queued together are the stream so far. */
    ghost predicate Core()
      reads this, events
    {
      && 0 < events.Length && used <= events.Length
      && Erase(acc) == ExpandAll(out) + MeaningAll(events[..used])
      && (forall i :: 0 <= i < |out| ==> Proper(cfg, out[i]))
      && Queued(cfg, events[..used])
      && (used > 0 && IsIr(events[used - 1]) ==> current == Instr(events[used - 1].n))
    }

    ghost predicate Valid()
      reads this, events
    {
      Core() && TailAgrees(acc, events[..used])
    }

    constructor (cfg: Config, capacity: nat)
      requires capacity > 0
      ensures Valid() && this.cfg == cfg && events.Length == capacity
      ensures used == 0 && out == [] && acc == [] && current == NoInstr && fresh(events)
    {
      this.cfg := cfg;
      events := new Event[capacity](_ => EvBc(Inode(0, 0, 0), 0));
      used, out, acc, current := 0, [], [], NoInstr;
    }

    /** Put one helper call into the output block; it covers the next k events. */
    method Emit(c: Call, i: nat, k: nat)
      requires i + k <= used <= events.Length && Proper(cfg, c)
      requires Expand(c) == MeaningAll(events[i..i + k])
      requires Erase(acc) == ExpandAll(out) + MeaningAll(events[i..used])
      requires forall j :: 0 <= j < |out| ==> Proper(cfg, out[j])
      modifies this`out
      ensures out == old(out) + [c]
      ensures Erase(acc) == ExpandAll(out) + MeaningAll(events[i + k..used])
      ensures forall j :: 0 <= j < |out| ==> Proper(cfg, out[j])
    {
      hide Erase, ExpandAll, Expand, Proper, Meaning, MeaningAll;
      ExpandSnoc(out, c);
      assert events[i..used] == events[i..i + k] + events[i + k..used];
      MeaningConcat(events[i..i + k], events[i + k..used]);
      out := out + [c];
    }

    /** The switch of flushEvents: the helper to call for event i and possibly the
        ones right behind it, and how many events the call covers. */
    method Pick(i: nat) returns (c: Call, k: nat)
      requires i < used <= events.Length && Queued(cfg, events[..used])
      ensures 0 < k && i + k <= used
      ensures Proper(cfg, c) && Expand(c) == MeaningAll(events[i..i + k])
    {
      hide MeaningAll, NoX, Queued;
      QueuedAt(cfg, events[..used], i);
      var ev := events[i];
      match ev {
        case EvIrNoX(_) =>
          c, k := PickNoX(i);
          return;
        case EvIrGen(n) => c := if cfg.cacheSim then Log1IrGen(n) else Log1Ir(n);
        case EvDr(n, ea, size) => c := Log0Ir1Dr(n, ea, size);
        case EvDm(n, ea, size) => c := Log0Ir1Dr(n, ea, size);
        case EvDw(n, ea, size) => c := Log0Ir1Dw(n, ea, size);
        case EvBc(n, taken) => c := LogCondBranch(n, taken);
        case EvBi(n, dst) => c := LogIndBranch(n, dst);
      }
      k := 1;
      MeaningOne(events[..], i);
    }

    /** The case of an instruction read that stays within a line. */
    method PickNoX(i: nat) returns (c: Call, k: nat)
      requires i < used <= events.Length && Queued(cfg, events[..used]) && events[i].EvIrNoX?
      ensures 0 < k && i + k <= used
      ensures k == 1 <==> i + 1 == used || !(IsData(events[i + 1]) || events[i + 1].EvIrNoX?)
      ensures k == 3 <==> i + 2 < used && events[i + 1].EvIrNoX? && events[i + 2].EvIrNoX?
      ensures Proper(cfg, c) && Expand(c) == MeaningAll(events[i..i + k])
    {
      hide MeaningAll, NoX, Queued;
      QueuedAt(cfg, events[..used], i);
      var n := events[i].n;
      if i + 1 < used && (events[i + 1].EvDr? || events[i + 1].EvDm?) {
        MeaningTwo(events[..], i);
        c, k := Log1IrNoX1Dr(n, events[i + 1].ea, events[i + 1].size), 2;
      } else if i + 1 < used && events[i + 1].EvDw? {
        MeaningTwo(events[..], i);
        c, k := Log1IrNoX1Dw(n, events[i + 1].ea, events[i + 1].size), 2;
      } else if i + 2 < used && events[i + 1].EvIrNoX? && events[i + 2].EvIrNoX? {
        QueuedAt(cfg, events[..used], i + 1);
        QueuedAt(cfg, events[..used], i + 2);
        var n2, n3 := events[i + 1].n, events[i + 2].n;
        MeaningThree(events[..], i);
        c, k := if cfg.cacheSim then Log3IrNoX(n, n2, n3) else Log3Ir(n, n2, n3), 3;
      } else if i + 1 < used && events[i + 1].EvIrNoX? {
        QueuedAt(cfg, events[..used], i + 1);
        MeaningTwo(events[..], i);
        c, k := if cfg.cacheSim then Log2IrNoX(n, events[i + 1].n) else Log2Ir(n, events[i + 1].n), 2;
      } else {
        MeaningOne(events[..], i);
        c, k := if cfg.cacheSim then Log1IrNoX(n) else Log1Ir(n), 1;
      }
    }

    /** flushEvents */
    method FlushEvents()
      requires Core()
      modifies this`out, this`used
      ensures Core() && used == 0 && old(out) <= out && Erase(acc) == ExpandAll(out)
    {
      hide Erase, ExpandAll, Expand, Proper, Meaning, Queued, MeaningAll;
      assert events[0..used] == events[..used];
      var i := 0;
      while i < used
        invariant 0 <= i <= used == old(used) && old(out) <= out
        invariant Erase(acc) == ExpandAll(out) + MeaningAll(events[i..used])
        invariant forall j :: 0 <= j < |out| ==> Proper(cfg, out[j])
      {
        var c, k := Pick(i);
        Emit(c, i, k);
        i := i + k;
      }
      assert events[i..used] == events[..0];
      used := 0;
      QueuedEmpty(cfg);
    }

    lemma Calls()
      requires Core()
      ensures ExpandAll(out) <= Erase(acc)
      ensures forall i :: 0 <= i < |out| ==> Proper(cfg, out[i])
    {
    }

    /** Make room if there is none. */
    method MakeRoom()
      requires Core()
      modifies this`out, this`used
      ensures Core() && used < events.Length && old(out) <= out
      ensures old(used) < events.Length ==> out == old(out) && used == old(used)
    {
      if used == events.Length {
        FlushEvents();
      }
    }

    /** The common end of the addEvent functions: make room, then append. */
    method Enqueue(ev: Event)
      requires Core() && (ev.EvIrNoX? ==> NoX(cfg, ev.n)) && (IsData(ev) ==> cfg.cacheSim && current == Instr(ev.n))
      requires !ev.EvDm?
      modifies this`out, this`used, this`acc, this`current, events
      ensures Valid() && acc == old(acc) + [Meaning(ev)] && old(out) <= out
      ensures old(used) < events.Length ==> out == old(out) && used == old(used) + 1
      ensures current == if IsIr(ev) then Instr(ev.n) else old(current)
    {
      hide Erase, ExpandAll, Proper, Queued, MeaningAll, NoX;
      MakeRoom();
      ghost var evs := events[..used];
      QueuedSnoc(cfg, evs, ev);
      EraseSnoc(acc, Meaning(ev));
      assert ExpandAll(out) + MeaningAll(evs) + [Meaning(ev)] == ExpandAll(out) + (MeaningAll(evs) + [Meaning(ev)]);
      events[used] := ev;
      used := used + 1;
      assert events[..used] == evs + [ev];
      acc := acc + [Meaning(ev)];
      assert TailAgrees(acc, evs + [ev]);
      if IsIr(ev) {
        current := Instr(ev.n);
      }
    }

    /** addEvent_Ir */
    method AddEventIr(n: Inode)
      requires Valid()
      modifies this`out, this`used, this`acc, this`current, events
      ensures old(out) <= out
      ensures Valid() && acc == Append(cfg, old(acc), AddIr(n)) && current == Instr(n)
    {
      Enqueue(if NoX(cfg, n) then EvIrNoX(n) else EvIrGen(n));
    }

    /** addEvent_Dr */
    method AddEventDr(n: Inode, size: nat, ea: Atom)
      requires Valid() && current == Instr(n)
      modifies this`out, this`used, this`acc, this`current, events
      ensures old(out) <= out
      ensures Valid() && acc == Append(cfg, old(acc), AddDr(n, size, ea)) && current == old(current)
    {
      if !cfg.cacheSim {
        return;
      }
      Enqueue(EvDr(n, ea, size));
    }

    /** addEvent_Dw: the merge is tried before there is any question of room. */
    method AddEventDw(n: Inode, size: nat, ea: Atom)
      requires Valid() && current == Instr(n)
      modifies this`out, this`used, this`acc, this`current, events
      ensures old(out) <= out
      ensures Valid() && acc == Append(cfg, old(acc), AddDw(n, size, ea)) && current == old(current)
    {
      hide Erase, ExpandAll, Proper, Queued, MeaningAll;
      if !cfg.cacheSim {
        return;
      }
      if used > 0 {
        var last := events[used - 1];
        if last.EvDr? && last.size == size && last.n == n && last.ea == ea {
          ghost var evs := events[..used];
          events[used - 1] := EvDm(n, ea, size);
          assert events[..used] == evs[..used - 1] + [EvDm(n, ea, size)];
          QueuedRetag(cfg, evs, EvDm(n, ea, size));
          EraseRetag(acc, n, ea, size);
          acc := acc[..|acc| - 1] + [Modify(n, ea, size)];
          return;
        }
      }
      Enqueue(EvDw(n, ea, size));
    }

    /** addEvent_D_guarded: flush, then emit the guarded call at once. */
    method AddEventGuarded(n: Inode, size: nat, ea: Atom, guard: Atom, isWrite: bool)
      requires Valid()
      modifies this`out, this`used, this`acc
      ensures old(out) <= out
      ensures Valid() && acc == Append(cfg, old(acc), AddGuarded(n, size, ea, guard, isWrite))
    {
      hide Erase, ExpandAll, Queued;
      if !cfg.cacheSim {
        return;
      }
      FlushEvents();
      var c := LogGuarded(n, ea, size, guard, isWrite);
      ExpandSnoc(out, c);
      EraseSnoc(acc, Guarded(n, ea, size, guard, isWrite));
      assert MeaningAll(events[..0]) == [];
      out := out + [c];
      acc := acc + [Guarded(n, ea, size, guard, isWrite)];
    }

    /** addEvent_Bc */
    method AddEventBc(n: Inode, taken: Atom)
      requires Valid()
      modifies this`out, this`used, this`acc, this`current, events
      ensures old(out) <= out
      ensures Valid() && acc == Append(cfg, old(acc), AddBc(n, taken)) && current == old(current)
    {
      if !cfg.branchSim {
        return;
      }
      Enqueue(EvBc(n, taken));
    }

    /** addEvent_Bi */
    method AddEventBi(n: Inode, dst: Atom)
      requires Valid()
      modifies this`out, this`used, this`acc, this`current, events
      ensures old(out) <= out
      ensures Valid() && acc == Append(cfg, old(acc), AddBi(n, dst)) && current == old(current)
    {
      if !cfg.branchSim {
        return;
      }
      Enqueue(EvBi(n, dst));
    }

    /** A flush that cg_instrument asks for. */
    method Barricade()
      requires Valid()
      modifies this`out, this`used, this`acc
      ensures Valid() && acc == Append(cfg, old(acc), Flush) && used == 0 && old(out) <= out
      ensures Erase(acc) == ExpandAll(out)
    {
      hide Erase, ExpandAll, Proper, Queued, MeaningAll;
      FlushEvents();
      EraseSnoc(acc, Barrier);
      acc := acc + [Barrier];
    }

    /** One step of cg_instrument. */
    method Handle(x: Item)
      requires Valid() && Tagged(current, x)
      modifies this`out, this`used, this`acc, this`current, events
      ensures Valid() && acc == Append(cfg, old(acc), x) && current == After(old(current), x)
      ensures old(out) <= out && (x.Flush? ==> Erase(acc) == ExpandAll(out))
    {
      match x {
        case AddIr(n) => AddEventIr(n);
        case AddDr(n, size, ea) => AddEventDr(n, size, ea);
        case AddDw(n, size, ea) => AddEventDw(n, size, ea);
        case AddGuarded(n, size, ea, guard, isWrite) => AddEventGuarded(n, size, ea, guard, isWrite);
        case AddBc(n, taken) => AddEventBc(n, taken);
        case AddBi(n, dst) => AddEventBi(n, dst);
        case Flush => Barricade();
      }
    }
  }

  function CurrentAfter(xs: seq<Item>): Current {
    if xs == [] then NoInstr else After(CurrentAfter(xs[..|xs| - 1]), xs[|xs| - 1])
  }

  ghost predicate AllTagged(xs: seq<Item>) {
    forall i :: 0 <= i < |xs| ==> Tagged(CurrentAfter(xs[..i]), xs[i])
  }

  ghost predicate MarkOk(cfg: Config, xs: seq<Item>, out: seq<Call>, i: nat, k: nat) {
    && i < |xs| && k <= |out| && ExpandAll(out[..k]) <= Erase(Stream(cfg, xs[..i + 1]))
    && (xs[i].Flush? ==> ExpandAll(out[..k]) == Erase(Stream(cfg, xs[..i + 1])))
  }

  /** marks[i] tells how many calls stand in front of the place of item i in the
      output block: never more than the stream up to i calls for, and exactly that
      where item i is a flush. */
  ghost predicate Marked(cfg: Config, xs: seq<Item>, out: seq<Call>, marks: seq<nat>) {
    && |marks| <= |xs|
    && (forall i, j :: 0 <= i < j < |marks| ==> marks[i] <= marks[j])
    && (forall i :: 0 <= i < |marks| ==> MarkOk(cfg, xs, out, i, marks[i]))
  }

  lemma MarkedMore(cfg: Config, xs: seq<Item>, out: seq<Call>, more: seq<Call>, marks: seq<nat>)
    requires Marked(cfg, xs, out, marks) && out <= more
    ensures Marked(cfg, xs, more, marks)
  {
    hide ExpandAll, Erase, Stream;
    forall i | 0 <= i < |marks| ensures MarkOk(cfg, xs, more, i, marks[i]) {
      assert MarkOk(cfg, xs, out, i, marks[i]);
      assert more[..marks[i]] == out[..marks[i]];
    }
  }

  lemma MarkedNext(cfg: Config, xs: seq<Item>, out: seq<Call>, marks: seq<nat>)
    requires Marked(cfg, xs, out, marks) && |marks| < |xs|
    requires ExpandAll(out) <= Erase(Stream(cfg, xs[..|marks| + 1]))
    requires xs[|marks|].Flush? ==> ExpandAll(out) == Erase(Stream(cfg, xs[..|marks| + 1]))
    ensures Marked(cfg, xs, out, marks + [|out|])
  {
    hide ExpandAll, Erase, Stream;
    assert out[..|out|] == out;
    forall i | 0 <= i < |marks| ensures marks[i] <= |out| {
      assert MarkOk(cfg, xs, out, i, marks[i]);
    }
  }

  lemma UnmarkedOk(cfg: Config, xs: seq<Item>, out: seq<Call>)
    ensures Marked(cfg, xs, out, [])
  {
  }

  lemma ExpandSome(c: Call)
    ensures |Expand(c)| >= 1
  {
  }

  lemma {:induction false} ExpandGrows(out: seq<Call>, j: nat, k: nat)
    requires j <= k <= |out|
    ensures |ExpandAll(out[..k])| >= |ExpandAll(out[..j])| + (k - j)
    decreases k
  {
    hide Expand, ExpandAll;
    if j < k {
      ExpandGrows(out, j, k - 1);
      assert out[..k] == out[..k - 1] + [out[k - 1]];
      ExpandSome(out[k - 1]);
      ExpandSnoc(out[..k - 1], out[k - 1]);
    }
  }

  /** The place of a flush is determined by the events in front of it: every call
      stands for at least one event, so no other number of calls fits. */
  lemma MarkUnique(cfg: Config, xs: seq<Item>, out: seq<Call>, i: nat, k: nat, m: nat)
    requires i < |xs| && xs[i].Flush? && MarkOk(cfg, xs, out, i, k) && MarkOk(cfg, xs, out, i, m)
    ensures k == m
  {
    hide ExpandAll, Erase, Stream;
    if k <= m {
      ExpandGrows(out, k, m);
    } else {
      ExpandGrows(out, m, k);
    }
  }

  /** cg_instrument on the event level: queue every event, flush at the end.  For
      any capacity the calls in the output block stand for the event stream, and
      the calls in front of a flush, where the block may be left, for the stream up
      to there. */
  method InstrumentBlock(cfg: Config, capacity: nat, xs: seq<Item>) returns (out: seq<Call>, marks: seq<nat>)
    requires capacity > 0 && AllTagged(xs)
    ensures forall i :: 0 <= i < |out| ==> Proper(cfg, out[i])
    ensures ExpandAll(out) == Erase(Stream(cfg, xs))
    ensures |marks| == |xs| && Marked(cfg, xs, out, marks)
  {
    hide Erase, ExpandAll, Proper, Append, Marked, CgState.Core, TailAgrees;
    var cgs := new CgState(cfg, capacity);
    marks := [];
    UnmarkedOk(cfg, xs, cgs.out);
    var i := 0;
    while i < |xs|
      invariant 0 <= i <= |xs| && cgs.Valid() && cgs.cfg == cfg && fresh(cgs) && fresh(cgs.events)
      invariant cgs.acc == Stream(cfg, xs[..i]) && cgs.current == CurrentAfter(xs[..i])
      invariant |marks| == i && Marked(cfg, xs, cgs.out, marks)
    {
      ghost var was := cgs.out;
      assert xs[..i + 1][..i] == xs[..i] && xs[..i + 1][i] == xs[i];
      cgs.Handle(xs[i]);
      MarkedMore(cfg, xs, was, cgs.out, marks);
      cgs.Calls();
      MarkedNext(cfg, xs, cgs.out, marks);
      marks := marks + [|cgs.out|];
      i := i + 1;
    }
    assert xs[..i] == xs;
    ghost var was := cgs.out;
    cgs.FlushEvents();
    cgs.Calls();
    out := cgs.out;
    MarkedMore(cfg, xs, was, out, marks);
  }

  /** Batching preserves meaning: whatever the queue capacity, running the emitted
      helper calls leaves the caches, the predictors and every counter as handling
      each event of the stream singly with the generic functions does. */
  lemma BatchingPreservesMeaning<P>(cfg: Config, e: Env<P>, m: Machine<P>, xs: seq<Item>, out: seq<Call>)
    requires Fits(cfg, m) && ExpandAll(out) == Erase(Stream(cfg, xs))
    requires forall i :: 0 <= i < |out| ==> Proper(cfg, out[i])
    ensures RunCalls(cfg, e, m, out) == RunSingles(cfg, e, m, Stream(cfg, xs))
  {
    CallsMeanEvents(cfg, e, m, out);
    EraseKeepsMeaning(cfg, e, m, Stream(cfg, xs));
  }

  /** Two capacities give the same simulation. */
  lemma CapacityIrrelevant<P>(cfg: Config, e: Env<P>, m: Machine<P>, xs: seq<Item>, out: seq<Call>, out': seq<Call>)
    requires Fits(cfg, m) && ExpandAll(out) == Erase(Stream(cfg, xs)) == ExpandAll(out')
    requires forall i :: 0 <= i < |out| ==> Proper(cfg, out[i])
    requires forall i :: 0 <= i < |out'| ==> Proper(cfg, out'[i])
    ensures RunCalls(cfg, e, m, out) == RunCalls(cfg, e, m, out')
  {
    BatchingPreservesMeaning(cfg, e, m, xs, out);
    BatchingPreservesMeaning(cfg, e, m, xs, out');
  }

  /** Leaving the block at a flush is exact too: the calls in front of it leave the
      state that the events in front of it leave. */
  lemma SideExitExact<P>(cfg: Config, e: Env<P>, m: Machine<P>, xs: seq<Item>, out: seq<Call>, marks: seq<nat>, i: nat)
    requires Fits(cfg, m) && Marked(cfg, xs, out, marks) && i < |marks| && xs[i].Flush?
    requires forall j :: 0 <= j < |out| ==> Proper(cfg, out[j])
    ensures marks[i] <= |out|
    ensures RunCalls(cfg, e, m, out[..marks[i]]) == RunSingles(cfg, e, m, Stream(cfg, xs[..i + 1]))
  {
    hide RunCalls, RunSingles, ExpandAll, Erase, Stream, Proper, Fits;
    assert MarkOk(cfg, xs, out, i, marks[i]);
    BatchingPreservesMeaning(cfg, e, m, xs[..i + 1], out[..marks[i]]);
  }

  // ------------------------------------------------------ superblock statements

  /** The statements of a flattened superblock that matter to cg_instrument. */
  datatype Stmt =
    | IMark(addr: nat, len: nat)
    | Load(size: nat, ea: Atom)
    | Store(size: nat, ea: Atom)
    | LoadG(size: nat, ea: Atom, guard: Atom)
    | StoreG(size: nat, ea: Atom, guard: Atom)
    | Dirty(doesRead: bool, doesWrite: bool, size: nat, ea: Atom)
    | Cas(size: nat, ea: Atom)
    | LoadLinked(size: nat, ea: Atom)
    | StoreCond(size: nat, ea: Atom)
    | Exit(isBranch: bool, guard: Atom)
    | Other

  function Min(a: nat, b: nat): nat {
    if a <= b then a else b
  }

  /** An instruction that failed to decode has length 0 and is given the least length. */
  function InodeOf(lineOf: nat -> nat, minLen: nat, addr: nat, len: nat): Inode {
    Inode(addr, if len == 0 then minLen else len, lineOf(addr))
  }

  /** The addEvent and flush calls that one statement causes. */
  function ItemsOf(lineOf: nat -> nat, minLen: nat, minLine: nat, n: Inode, s: Stmt): seq<Item> {
    match s
    case IMark(addr, len) => [AddIr(InodeOf(lineOf, minLen, addr, len))]
    case Load(size, ea) => [AddDr(n, size, ea)]
    case Store(size, ea) => [AddDw(n, size, ea)]
    case LoadG(size, ea, guard) => [AddGuarded(n, size, ea, guard, false)]
    case StoreG(size, ea, guard) => [AddGuarded(n, size, ea, guard, true)]
    case Dirty(r, w, size, ea) =>
      (if r then [AddDr(n, Min(size, minLine), ea)] else []) + (if w then [AddDw(n, Min(size, minLine), ea)] else [])
    case Cas(size, ea) => [AddDr(n, Min(size, minLine), ea), AddDw(n, Min(size, minLine), ea)]
    case LoadLinked(size, ea) => [AddDr(n, size, ea), Flush]
    case StoreCond(size, ea) => [AddDw(n, size, ea)]
    case Exit(isBranch, guard) => (if isBranch then [AddBc(n, guard)] else []) + [Flush]
    case Other => []
  }

  /** All calls for the statements of a superblock that starts with an IMark. */
  function BlockItems(lineOf: nat -> nat, minLen: nat, minLine: nat, stmts: seq<Stmt>): (r: (seq<Item>, Inode))
    requires stmts != [] && stmts[0].IMark?
  {
    var last := stmts[|stmts| - 1];
    var cur := if last.IMark? then InodeOf(lineOf, minLen, last.addr, last.len) else Inode(0, 0, 0);
    if |stmts| == 1 then ([AddIr(cur)], cur)
    else
      var p := BlockItems(lineOf, minLen, minLine, stmts[..|stmts| - 1]);
      (p.0 + ItemsOf(lineOf, minLen, minLine, p.1, last), if last.IMark? then cur else p.1)
  }

  lemma TaggedSnoc(xs: seq<Item>, x: Item)
    requires AllTagged(xs) && Tagged(CurrentAfter(xs), x)
    ensures AllTagged(xs + [x]) && CurrentAfter(xs + [x]) == After(CurrentAfter(xs), x)
  {
    var ys := xs + [x];
    assert ys[..|xs|] == xs;
    forall i | 0 <= i < |ys| ensures Tagged(CurrentAfter(ys[..i]), ys[i]) {
      if i < |xs| {
        assert ys[..i] == xs[..i] && ys[i] == xs[i];
      }
    }
  }

  lemma NoneTagged()
    ensures AllTagged([])
  {
  }

  lemma TaggedItems(xs: seq<Item>, ys: seq<Item>, n: Inode)
    requires AllTagged(xs) && CurrentAfter(xs) == Instr(n) && |ys| <= 2
    requires forall i :: 0 <= i < |ys| ==>
      (ys[i].AddDr? || ys[i].AddDw? ==> ys[i].n == n) && (ys[i].AddIr? ==> |ys| == 1)
    ensures AllTagged(xs + ys)
    ensures CurrentAfter(xs + ys) == if |ys| == 1 && ys[0].AddIr? then Instr(ys[0].n) else Instr(n)
  {
    hide AllTagged, CurrentAfter;
    if |ys| == 0 {
      assert xs + ys == xs;
    } else {
      TaggedSnoc(xs, ys[0]);
      if |ys| == 1 {
        assert xs + ys == xs + [ys[0]];
      } else {
        TaggedSnoc(xs + [ys[0]], ys[1]);
        assert xs + ys == xs + [ys[0]] + [ys[1]];
      }
    }
  }

  /** One statement causes at most two calls; data calls carry the current inode. */
  lemma ItemsBelong(lineOf: nat -> nat, minLen: nat, minLine: nat, n: Inode, s: Stmt)
    ensures
      var ys := ItemsOf(lineOf, minLen, minLine, n, s);
      && |ys| <= 2
      && (forall i :: 0 <= i < |ys| ==> (ys[i].AddDr? || ys[i].AddDw? ==> ys[i].n == n) && (ys[i].AddIr? ==> |ys| == 1))
      && (s.IMark? <==> |ys| == 1 && ys[0].AddIr?)
      && (s.IMark? ==> ys[0].n == InodeOf(lineOf, minLen, s.addr, s.len))
  {
  }

  /** Within a superblock every data event carries the inode of the instruction read
      before it, so the assertions of flushEvents about inodes never fail. */
  lemma {:induction false} BlockTagged(lineOf: nat -> nat, minLen: nat, minLine: nat, stmts: seq<Stmt>)
    requires stmts != [] && stmts[0].IMark?
    ensures
      var r := BlockItems(lineOf, minLen, minLine, stmts);
      AllTagged(r.0) && CurrentAfter(r.0) == Instr(r.1)
    decreases |stmts|
  {
    hide ItemsOf, AllTagged, CurrentAfter;
    var r := BlockItems(lineOf, minLen, minLine, stmts);
    if |stmts| == 1 {
      NoneTagged();
      TaggedSnoc([], AddIr(r.1));
      assert [] + [AddIr(r.1)] == r.0;
    } else {
      var front := stmts[..|stmts| - 1];
      BlockTagged(lineOf, minLen, minLine, front);
      var p := BlockItems(lineOf, minLen, minLine, front);
      ItemsBelong(lineOf, minLen, minLine, p.1, stmts[|stmts| - 1]);
      TaggedItems(p.0, ItemsOf(lineOf, minLen, minLine, p.1, stmts[|stmts| - 1]), p.1);
    }
  }

  /** Where control goes at the end of a superblock: a known place, or a computed
      one that the branch predictor has to guess. */
  datatype Next = Known | Computed(dst: Atom)

  /** All calls for a superblock, its final jump included. */
  function InstrumentItems(lineOf: nat -> nat, minLen: nat, minLine: nat, stmts: seq<Stmt>, next: Next): seq<Item>
    requires stmts != [] && stmts[0].IMark?
  {
    var r := BlockItems(lineOf, minLen, minLine, stmts);
    r.0 + (match next case Known => [] case Computed(dst) => [AddBi(r.1, dst)])
  }

  lemma InstrumentTagged(lineOf: nat -> nat, minLen: nat, minLine: nat, stmts: seq<Stmt>, next: Next)
    requires stmts != [] && stmts[0].IMark?
    ensures AllTagged(InstrumentItems(lineOf, minLen, minLine, stmts, next))
  {
    hide BlockItems, AllTagged, CurrentAfter;
    BlockTagged(lineOf, minLen, minLine, stmts);
    var r := BlockItems(lineOf, minLen, minLine, stmts);
    var ys := match next case Known => [] case Computed(dst) => [AddBi(r.1, dst)];
    TaggedItems(r.0, ys, r.1);
  }
}
