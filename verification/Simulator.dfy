/** simulator.c: variables that own blocks, and the loop over parsed commands. */
module Simulator {
  import opened Bits
  import opened BuddySpec
  import opened Buddy
  import BuddyInv
  import T = BuddyTheorems

  datatype Status = Success | OutOfMemory | DoubleFree | BadInput

  /** A command line after parsing; Malformed is anything sscanf rejects. */
  datatype Command = AllocCmd(name: char, size: int) | FreeCmd(name: char) | Blank | Malformed

  /** var_t */
  datatype Var = Var(mem: Ptr, inUse: bool)

  /** var_map, indexed by character code, beside the allocator's state. */
  datatype Sim = Sim(heap: T.Heap, vars: seq<Var>)

  predicate Letter(c: char) {
    'a' <= c <= 'z' || 'A' <= c <= 'Z'
  }

  ghost predicate HoldsLive(minOrder: nat, x: Sim, i: int)
    requires 0 <= i < |x.vars|
  {
    var m := x.vars[i].mem;
    && m.At? && AddrToPage(minOrder, m.offset) in x.heap.a
    && m.offset == PageToAddr(minOrder, AddrToPage(minOrder, m.offset))
  }

  /** Every in-use variable holds the address of a live block, its own. */
  ghost predicate Owns(minOrder: nat, top: nat, x: Sim) {
    && |x.vars| == 256 && T.Sound(top, x.heap) && InRange(top, x.heap.s)
    && (forall i :: 0 <= i < 256 && x.vars[i].inUse ==> HoldsLive(minOrder, x, i))
    && (forall i, j :: 0 <= i < j < 256 && x.vars[i].inUse && x.vars[j].inUse ==> x.vars[i].mem != x.vars[j].mem)
  }

  datatype Outcome = Outcome(sim: Sim, status: Status)

  /** parse_alloc */
  ghost function DoAlloc(minOrder: nat, top: nat, x: Sim, i: nat, size: int): Outcome
    requires Owns(minOrder, top, x) && i < 256
  {
    if size <= 0 then Outcome(x.(vars := x.vars[i := x.vars[i].(mem := Null)]), OutOfMemory)
    else
      var t := OrderFrom(minOrder, size) - minOrder;
      match Alloc(top, x.heap.s, t)
      case NoMemory => Outcome(x.(vars := x.vars[i := x.vars[i].(mem := Null)]), OutOfMemory)
      case Allocated(p, s) =>
        Outcome(Sim(T.Heap(s, x.heap.a[p := t]), x.vars[i := Var(At(PageToAddr(minOrder, p)), true)]), Success)
  }

  /** parse_free; the call of buddy_free is legal because the variable holds a live block. */
  ghost function DoFree(minOrder: nat, top: nat, x: Sim, i: nat): Outcome
    requires Owns(minOrder, top, x) && i < 256
  {
    if !x.vars[i].inUse then Outcome(x, DoubleFree)
    else
      assert HoldsLive(minOrder, x, i);
      var p := AddrToPage(minOrder, x.vars[i].mem.offset);
      T.FreeKeeps(top, x.heap.s, x.heap.a, p);
      Outcome(Sim(T.Heap(Free(top, x.heap.s, p), x.heap.a - {p}), x.vars[i := Var(Null, false)]), Success)
  }

  /** parse_command */
  ghost function Do(minOrder: nat, top: nat, x: Sim, c: Command): Outcome
    requires Owns(minOrder, top, x)
  {
    match c
    case Blank => Outcome(x, Success)
    case Malformed => Outcome(x, BadInput)
    case AllocCmd(name, size) =>
      if Letter(name) then DoAlloc(minOrder, top, x, name as nat, size) else Outcome(x, BadInput)
    case FreeCmd(name) =>
      if Letter(name) then DoFree(minOrder, top, x, name as nat) else Outcome(x, BadInput)
  }

  /** The owner of a block that was live before still owns it, and not the new block. */
  lemma OwnerKept(minOrder: nat, x: Sim, y: Sim, i: nat, j: nat, p: nat, t: nat)
    requires |x.vars| == |y.vars| == 256 && i < 256 && j < 256 && j != i && p !in x.heap.a
    requires y.heap.a == x.heap.a[p := t] && y.vars == x.vars[i := Var(At(PageToAddr(minOrder, p)), true)]
    requires HoldsLive(minOrder, x, j)
    ensures HoldsLive(minOrder, y, j) && y.vars[j].mem != y.vars[i].mem
  {
    AddressMacros(minOrder, p, 0);
  }

  lemma NewOwner(minOrder: nat, y: Sim, i: nat, p: nat)
    requires |y.vars| == 256 && i < 256 && p in y.heap.a && y.vars[i] == Var(At(PageToAddr(minOrder, p)), true)
    ensures HoldsLive(minOrder, y, i)
  {
    AddressMacros(minOrder, p, 0);
  }

  lemma AllocOwns(minOrder: nat, top: nat, x: Sim, i: nat, size: int)
    requires Owns(minOrder, top, x) && i < 256
    requires DoAlloc(minOrder, top, x, i, size).status == Success
    ensures Owns(minOrder, top, DoAlloc(minOrder, top, x, i, size).sim)
  {
    hide Alloc, OrderFrom, HoldsLive, InRange;
    var t := OrderFrom(minOrder, size) - minOrder;
    var p := Alloc(top, x.heap.s, t).page;
    var y := DoAlloc(minOrder, top, x, i, size).sim;
    T.AllocKeeps(top, x.heap.s, x.heap.a, t);
    T.AllocConserves(top, x.heap.s, x.heap.a, t);
    T.ListPagesInRange(top, y.heap.s, y.heap.a);
    NewOwner(minOrder, y, i, p);
    forall j: nat | j < 256 && j != i && y.vars[j].inUse
      ensures HoldsLive(minOrder, y, j) && y.vars[j].mem != y.vars[i].mem
    {
      OwnerKept(minOrder, x, y, i, j, p, t);
    }
  }

  lemma FreeOwns(minOrder: nat, top: nat, x: Sim, i: nat)
    requires Owns(minOrder, top, x) && i < 256 && x.vars[i].inUse
    ensures Owns(minOrder, top, DoFree(minOrder, top, x, i).sim)
  {
    assert HoldsLive(minOrder, x, i);
    var p := AddrToPage(minOrder, x.vars[i].mem.offset);
    var y := DoFree(minOrder, top, x, i).sim;
    T.FreeKeeps(top, x.heap.s, x.heap.a, p);
    T.FreeConserves(top, x.heap.s, x.heap.a, p);
    T.ListPagesInRange(top, y.heap.s, y.heap.a);
    forall j | 0 <= j < 256 && y.vars[j].inUse ensures HoldsLive(minOrder, y, j) {
      assert HoldsLive(minOrder, x, j);
    }
  }

  /** A command that succeeds keeps every in-use variable the owner of its own live block. */
  lemma DoOwns(minOrder: nat, top: nat, x: Sim, c: Command)
    requires Owns(minOrder, top, x) && Do(minOrder, top, x, c).status == Success
    ensures Owns(minOrder, top, Do(minOrder, top, x, c).sim)
  {
    match c
    case Blank =>
    case Malformed =>
    case AllocCmd(name, size) => AllocOwns(minOrder, top, x, name as nat, size);
    case FreeCmd(name) => FreeOwns(minOrder, top, x, name as nat);
  }

  lemma DoOwnsIfSuccess(minOrder: nat, top: nat, x: Sim, c: Command)
    requires Owns(minOrder, top, x)
    ensures Do(minOrder, top, x, c).status == Success ==> Owns(minOrder, top, Do(minOrder, top, x, c).sim)
  {
    if Do(minOrder, top, x, c).status == Success {
      DoOwns(minOrder, top, x, c);
    }
  }

  /** A failed allocation ends ownership if the variable was in use: it keeps
      in_use but holds NULL, so a later free of it would pass NULL to buddy_free. */
  lemma FailedAllocBreaksOwnership(minOrder: nat, top: nat, x: Sim, name: char, size: int)
    requires Owns(minOrder, top, x) && Letter(name)
    requires Do(minOrder, top, x, AllocCmd(name, size)).status == OutOfMemory
    ensures Owns(minOrder, top, Do(minOrder, top, x, AllocCmd(name, size)).sim) <==> !x.vars[name as nat].inUse
  {
    var i := name as nat;
    var y := Do(minOrder, top, x, AllocCmd(name, size)).sim;
    assert !HoldsLive(minOrder, y, i);
    forall j | 0 <= j < 256 && j != i && y.vars[j].inUse ensures HoldsLive(minOrder, y, j) {
      assert HoldsLive(minOrder, x, j);
    }
  }

  /** parse_file: commands run until the first that does not succeed. */
  ghost function RunFile(minOrder: nat, top: nat, x: Sim, cs: seq<Command>): Outcome
    requires Owns(minOrder, top, x)
    decreases |cs|
  {
    if cs == [] then Outcome(x, Success)
    else
      var r := Do(minOrder, top, x, cs[0]);
      if r.status != Success then r
      else
        DoOwns(minOrder, top, x, cs[0]);
        RunFile(minOrder, top, r.sim, cs[1..])
  }

  lemma FailedElseOwns(minOrder: nat, top: nat, x: Sim, c: Command)
    requires Owns(minOrder, top, x) && Do(minOrder, top, x, c).status != Success
    ensures Do(minOrder, top, x, c).status != OutOfMemory ==> Do(minOrder, top, x, c).sim == x
    ensures Do(minOrder, top, x, c).status == OutOfMemory ==> c.AllocCmd? && Letter(c.name)
  {
  }

  lemma NoCommands(minOrder: nat, top: nat, x: Sim)
    requires Owns(minOrder, top, x)
    ensures RunFile(minOrder, top, x, []) == Outcome(x, Success)
  {
  }

  lemma OneMore(minOrder: nat, top: nat, x: Sim, cs: seq<Command>, n: nat)
    requires Owns(minOrder, top, x) && 0 < n <= |cs| && Do(minOrder, top, x, cs[0]).status == Success
    requires Owns(minOrder, top, Do(minOrder, top, x, cs[0]).sim)
    ensures RunFile(minOrder, top, x, cs[..n]) ==
      RunFile(minOrder, top, Do(minOrder, top, x, cs[0]).sim, cs[1..][..n - 1])
  {
    hide Owns, Do;
    assert cs[..n][0] == cs[0] && cs[..n][1..] == cs[1..][..n - 1];
  }

  /** Every run is n commands that succeed, with ownership after them, and then the
      end of the file or one command that fails and has the last word. */
  lemma {:induction false} FileStops(minOrder: nat, top: nat, x: Sim, cs: seq<Command>) returns (n: nat)
    requires Owns(minOrder, top, x)
    ensures n <= |cs| && RunFile(minOrder, top, x, cs[..n]).status == Success
    ensures Owns(minOrder, top, RunFile(minOrder, top, x, cs[..n]).sim)
    ensures RunFile(minOrder, top, x, cs).status == Success <==> n == |cs|
    ensures n < |cs| ==>
      RunFile(minOrder, top, x, cs) == Do(minOrder, top, RunFile(minOrder, top, x, cs[..n]).sim, cs[n])
    decreases |cs|
  {
    hide Owns, Do;
    n := 0;
    NoCommands(minOrder, top, x);
    assert cs[..0] == [];
    if cs != [] {
      var r := Do(minOrder, top, x, cs[0]);
      if r.status == Success {
        DoOwns(minOrder, top, x, cs[0]);
        var k := FileStops(minOrder, top, r.sim, cs[1..]);
        n := k + 1;
        OneMore(minOrder, top, x, cs, n);
      }
    }
  }

  /** The bytes that variable i owns. */
  ghost function Extent(minOrder: nat, x: Sim, i: nat): nat
    requires i < |x.vars| && HoldsLive(minOrder, x, i)
  {
    Pow2(minOrder + x.heap.a[AddrToPage(minOrder, x.vars[i].mem.offset)])
  }

  /** In-use variables i and j hold live blocks and own disjoint byte ranges. */
  ghost predicate OwnApart(minOrder: nat, x: Sim, i: nat, j: nat) {
    |x.vars| == 256 && i < 256 && j < 256 &&
    (x.vars[i].inUse && x.vars[j].inUse ==>
       && HoldsLive(minOrder, x, i) && HoldsLive(minOrder, x, j)
       && Apart(x.vars[i].mem.offset, Extent(minOrder, x, i), x.vars[j].mem.offset, Extent(minOrder, x, j)))
  }

  lemma OwnersApart(minOrder: nat, top: nat, x: Sim, i: nat, j: nat)
    requires Owns(minOrder, top, x) && i < j < 256
    ensures OwnApart(minOrder, x, i, j)
  {
    if x.vars[i].inUse && x.vars[j].inUse {
      assert HoldsLive(minOrder, x, i) && HoldsLive(minOrder, x, j);
      LiveBlocksApart(minOrder, top, x.heap.s, x.heap.a,
                      AddrToPage(minOrder, x.vars[i].mem.offset), AddrToPage(minOrder, x.vars[j].mem.offset));
    }
  }

  /** Over every command sequence that does not end for lack of memory, whether it
      ends well, at a double free or at bad input, in-use variables hold live blocks
      and own pairwise disjoint byte ranges. */
  lemma FileOwns(minOrder: nat, top: nat, x: Sim, cs: seq<Command>, i: nat, j: nat)
    requires Owns(minOrder, top, x) && i < j < 256
    ensures
      var r := RunFile(minOrder, top, x, cs);
      r.status != OutOfMemory ==> Owns(minOrder, top, r.sim) && OwnApart(minOrder, r.sim, i, j)
  {
    hide Owns, Do, OwnApart;
    var n := FileStops(minOrder, top, x, cs);
    var y := RunFile(minOrder, top, x, cs[..n]).sim;
    OwnersApart(minOrder, top, y, i, j);
    if n < |cs| {
      assert RunFile(minOrder, top, x, cs).status == Do(minOrder, top, y, cs[n]).status;
      FailedElseOwns(minOrder, top, y, cs[n]);
    } else {
      assert cs[..n] == cs;
    }
  }

  /** A failed allocation changes nothing but its own variable. */
  lemma FailedAllocSparesOthers(minOrder: nat, top: nat, x: Sim, name: char, size: int, i: nat, j: nat)
    requires Owns(minOrder, top, x) && Letter(name) && i < j < 256
    requires Do(minOrder, top, x, AllocCmd(name, size)).status == OutOfMemory
    ensures i != name as nat && j != name as nat ==>
      OwnApart(minOrder, Do(minOrder, top, x, AllocCmd(name, size)).sim, i, j)
  {
    OwnersApart(minOrder, top, x, i, j);
    hide Owns, Alloc;
  }

  /** A sequence that ends for lack of memory does so at an allocation, and leaves
      ownership intact exactly when that command's variable was not in use before;
      in either case all other in-use variables still own pairwise disjoint blocks. */
  lemma FileOutOfMemory(minOrder: nat, top: nat, x: Sim, cs: seq<Command>, i: nat, j: nat) returns (n: nat)
    requires Owns(minOrder, top, x) && i < j < 256
    requires RunFile(minOrder, top, x, cs).status == OutOfMemory
    ensures n < |cs| && cs[n].AllocCmd? && Letter(cs[n].name)
    ensures
      var y, z := RunFile(minOrder, top, x, cs[..n]), RunFile(minOrder, top, x, cs).sim;
      && y.status == Success && Owns(minOrder, top, y.sim)
      && (Owns(minOrder, top, z) <==> !y.sim.vars[cs[n].name as nat].inUse)
      && (i != cs[n].name as nat && j != cs[n].name as nat ==> OwnApart(minOrder, z, i, j))
  {
    hide Owns, Do, OwnApart, RunFile;
    n := FileStops(minOrder, top, x, cs);
    var y := RunFile(minOrder, top, x, cs[..n]).sim;
    FailedElseOwns(minOrder, top, y, cs[n]);
    FailedAllocBreaksOwnership(minOrder, top, y, cs[n].name, cs[n].size);
    FailedAllocSparesOthers(minOrder, top, y, cs[n].name, cs[n].size, i, j);
  }

  // ------------------------------------------------------- what commands do

  /** Which commands are refused as bad input, by their names, and which do nothing. */
  lemma InputExactly(minOrder: nat, top: nat, x: Sim, c: Command)
    requires Owns(minOrder, top, x)
    ensures
      var named := (c.AllocCmd? || c.FreeCmd?) && ('a' <= c.name <= 'z' || 'A' <= c.name <= 'Z');
      var r := Do(minOrder, top, x, c);
      && (r.status == BadInput <==> !named && c != Blank) && (r.status == BadInput ==> r.sim == x)
      && (c == Blank ==> r == Outcome(x, Success))
  {
  }

  /** A free succeeds exactly if the variable is in use.  Then the block it held, and no
      other, is no longer live, the variable is cleared, and no other variable changes;
      otherwise nothing changes. */
  lemma FreeEffect(minOrder: nat, top: nat, x: Sim, name: char) returns (p: nat)
    requires Owns(minOrder, top, x) && ('a' <= name <= 'z' || 'A' <= name <= 'Z')
    ensures
      var r, i := Do(minOrder, top, x, FreeCmd(name)), name as nat;
      if x.vars[i].inUse then
        && r.status == Success
        && x.vars[i].mem == At(p * Pow2(minOrder)) && p in x.heap.a
        && r.sim.heap.a == x.heap.a - {p} && r.sim.vars == x.vars[i := Var(Null, false)]
      else r == Outcome(x, DoubleFree)
  {
    var i := name as nat;
    p := 0;
    if x.vars[i].inUse {
      assert HoldsLive(minOrder, x, i);
      p := AddrToPage(minOrder, x.vars[i].mem.offset);
      AddressMacros(minOrder, p, 0);
      hide Free, PageToAddr, AddrToPage, Pow2;
    }
  }

  /** A second free of the same variable right behind the first is a double free. */
  lemma FreeTwice(minOrder: nat, top: nat, x: Sim, name: char)
    requires Owns(minOrder, top, x) && ('a' <= name <= 'z' || 'A' <= name <= 'Z')
    ensures RunFile(minOrder, top, x, [FreeCmd(name), FreeCmd(name)]).status == DoubleFree
  {
    var c := FreeCmd(name);
    var p := FreeEffect(minOrder, top, x, name);
    if x.vars[name as nat].inUse {
      var y := Do(minOrder, top, x, c).sim;
      DoOwns(minOrder, top, x, c);
      var _ := FreeEffect(minOrder, top, y, name);
      hide Do, Owns;
      assert [c, c][1..] == [c] && [c][1..] == [];
      assert RunFile(minOrder, top, y, [c]).status == DoubleFree;
    }
  }

  lemma OwnedFacts(minOrder: nat, top: nat, x: Sim)
    requires Owns(minOrder, top, x)
    ensures Valid(top, x.heap.s, x.heap.a) && InRange(top, x.heap.s) && |x.vars| == 256
  {
  }

  lemma LeastLevel(minOrder: nat, size: int) returns (k: nat)
    requires size > 0
    ensures OrderFrom(minOrder, size) == minOrder + k
    ensures size <= Pow2(minOrder + k) && (k > 0 ==> Pow2(minOrder + k - 1) < size)
  {
    k := OrderFrom(minOrder, size) - minOrder;
    assert minOrder <= OrderFrom(minOrder, size);
  }

  lemma NoLevel(top: nat, s: State, k: nat)
    requires InRange(top, s) && k > top
    ensures Alloc(top, s, k).NoMemory?
  {
  }

  /** The allocator's side of an allocation of level k. */
  lemma BlockTaken(top: nat, s: State, a: Live, k: nat)
    requires Valid(top, s, a) && InRange(top, s)
    ensures Alloc(top, s, k).Allocated? <==> k <= top && exists q: nat :: T.Room(top, a, q, k)
    ensures Alloc(top, s, k).Allocated? ==> Alloc(top, s, k).page !in a
  {
    hide Alloc, T.Room, Valid, InRange;
    if k <= top {
      T.AllocComplete(top, s, a, k);
      T.AllocKeeps(top, s, a, k);
    } else {
      NoLevel(top, s, k);
    }
  }

  /** The simulator's side. */
  lemma DoAllocIs(minOrder: nat, top: nat, x: Sim, i: nat, size: int, k: nat)
    requires Owns(minOrder, top, x) && InRange(top, x.heap.s) && |x.vars| == 256 && i < 256
    requires size > 0 && OrderFrom(minOrder, size) == minOrder + k
    ensures
      var r, a := DoAlloc(minOrder, top, x, i, size), Alloc(top, x.heap.s, k);
      if a.Allocated? then
        && r.status == Success && r.sim.heap.a == x.heap.a[a.page := k]
        && r.sim.vars == x.vars[i := Var(At(PageToAddr(minOrder, a.page)), true)]
      else
        r.status == OutOfMemory && r.sim.heap == x.heap && r.sim.vars == x.vars[i := x.vars[i].(mem := Null)]
  {
    hide Owns, Alloc, PageToAddr, OrderFrom, InRange;
  }

  lemma DoAllocNone(minOrder: nat, top: nat, x: Sim, i: nat, size: int)
    requires Owns(minOrder, top, x) && |x.vars| == 256 && i < 256 && size <= 0
    ensures
      DoAlloc(minOrder, top, x, i, size) == Outcome(x.(vars := x.vars[i := x.vars[i].(mem := Null)]), OutOfMemory)
  {
    hide Owns;
  }

  predicate InUse(x: Sim, i: nat) {
    i < |x.vars| && x.vars[i].inUse
  }

  /** Variable i becomes this one, and no other variable changes. */
  predicate OnlyVar(x: Sim, y: Sim, i: nat, mem: Ptr, inUse: bool) {
    |x.vars| == 256 && i < 256 && y.vars == x.vars[i := Var(mem, inUse)]
  }

  /** Success adds one block, which the variable holds and has in use; failure leaves the
      heap alone and the variable with NULL. */
  ghost predicate Takes(minOrder: nat, x: Sim, i: nat, p: nat, k: nat, r: Outcome) {
    if r.status == Success then
      && p !in x.heap.a && r.sim.heap.a == x.heap.a[p := k]
      && OnlyVar(x, r.sim, i, At(p * Pow2(minOrder)), true)
    else
      r.status == OutOfMemory && r.sim.heap == x.heap && OnlyVar(x, r.sim, i, Null, InUse(x, i))
  }

  /** An allocation of a positive size takes a block of the least sufficient power of two,
      2^k pages of 2^minOrder bytes.  It succeeds exactly if a region of that size is
      wholly unallocated.  Then exactly one block is added to the live ones, the variable
      holds it and is in use, and no other variable changes; otherwise the heap does not
      change and the variable holds NULL. */
  lemma AllocEffect(minOrder: nat, top: nat, x: Sim, name: char, size: int) returns (p: nat, k: nat)
    requires Owns(minOrder, top, x) && ('a' <= name <= 'z' || 'A' <= name <= 'Z')
    ensures size > 0 ==> size <= Pow2(minOrder + k) && (k > 0 ==> Pow2(minOrder + k - 1) < size)
    ensures Do(minOrder, top, x, AllocCmd(name, size)).status == Success <==>
      size > 0 && k <= top && exists q: nat :: T.Room(top, x.heap.a, q, k)
    ensures Takes(minOrder, x, name as nat, p, k, Do(minOrder, top, x, AllocCmd(name, size)))
  {
    hide Owns, Alloc, PageToAddr, OrderFrom, Pow2, T.Room, T.Sound, Valid, InRange, DoAlloc;
    OwnedFacts(minOrder, top, x);
    p, k := 0, 0;
    if size > 0 {
      k := LeastLevel(minOrder, size);
      BlockTaken(top, x.heap.s, x.heap.a, k);
      DoAllocIs(minOrder, top, x, name as nat, size, k);
      var r := Alloc(top, x.heap.s, k);
      if r.Allocated? {
        p := r.page;
        AddressMacros(minOrder, p, 0);
      }
    } else {
      DoAllocNone(minOrder, top, x, name as nat, size);
    }
  }

  lemma ExtentOf(minOrder: nat, x: Sim, i: nat, p: nat)
    requires i < |x.vars| && HoldsLive(minOrder, x, i) && x.vars[i].mem == At(p * Pow2(minOrder))
    ensures p in x.heap.a && Extent(minOrder, x, i) == Pow2(minOrder + x.heap.a[p])
  {
    AddressMacros(minOrder, p, 0);
  }

  lemma {:induction false} PowRises(a: nat, b: nat)
    requires a <= b
    ensures Pow2(a) <= Pow2(b)
    decreases b
  {
    if a < b {
      PowRises(a, b - 1);
    }
  }

  lemma LevelFits(minOrder: nat, k: nat, m: nat, size: int)
    requires size <= Pow2(minOrder + m) && (k > 0 ==> Pow2(minOrder + k - 1) < size)
    ensures k <= m
  {
    if k > m {
      PowRises(minOrder + m, minOrder + k - 1);
      assert false;
    }
  }

  /** The region of a block that is no longer live is unallocated, and so are its parts. */
  lemma RoomLeft(top: nat, s: State, a: Live, p: nat, k: nat)
    requires Valid(top, s, a) && p in a && k <= a[p]
    ensures T.Room(top, a - {p}, p, k) && k <= top
  {
    var h :| InvFor(top, s, a, h);
    var b := a - {p};
    forall x: nat | In(x, p, a[p]) ensures !T.Owned(b, x) {
      if q: nat :| q in b && In(x, q, b[q]) {
        BuddyInv.SameBlock(top, h, p, q, x);
        assert false;
      }
    }
    T.UnallocatedPart(b, p, a[p], p, k);
    AlignedMono(p, k, a[p]);
  }

  /** What a free gives back can be had again: right behind a free, an allocation of no
      more bytes than the block had succeeds. */
  lemma FreeMakesRoom(minOrder: nat, top: nat, x: Sim, name: char, other: char, size: int)
    requires Owns(minOrder, top, x)
    requires ('a' <= name <= 'z' || 'A' <= name <= 'Z') && ('a' <= other <= 'z' || 'A' <= other <= 'Z')
    requires x.vars[name as nat].inUse && HoldsLive(minOrder, x, name as nat)
    requires 0 < size <= Extent(minOrder, x, name as nat)
    ensures
      var y := Do(minOrder, top, x, FreeCmd(name)).sim;
      Owns(minOrder, top, y) && Do(minOrder, top, y, AllocCmd(other, size)).status == Success
  {
    hide Do, Owns, HoldsLive, Extent, Pow2, T.Room, Valid;
    OwnedFacts(minOrder, top, x);
    var p := FreeEffect(minOrder, top, x, name);
    ExtentOf(minOrder, x, name as nat, p);
    var y := Do(minOrder, top, x, FreeCmd(name)).sim;
    DoOwns(minOrder, top, x, FreeCmd(name));
    var _, k := AllocEffect(minOrder, top, y, other, size);
    LevelFits(minOrder, k, x.heap.a[p], size);
    RoomLeft(top, x.heap.s, x.heap.a, p, k);
  }

  /** The program: the allocator and var_map updated in place. */
  class Program {
    const heap: Allocator
    const vars: array<Var>

    ghost function Abs(): Sim
      reads this, heap, vars
    {
      Sim(T.Heap(heap.st, heap.live), vars[..])
    }

    ghost predicate Valid()
      reads this, heap, vars, heap.order, heap.free, heap.pool, heap.pool.next, heap.pool.prev
    {
      && heap.Valid()
      && vars as object != heap.order && vars as object != heap.free
      && vars as object != heap.pool.next && vars as object != heap.pool.prev
      && vars.Length == 256
    }

    ghost predicate Running()
      reads this, heap, vars, heap.order, heap.free, heap.pool, heap.pool.next, heap.pool.prev
    {
      Valid() && Owns(heap.minOrder, heap.Top(), Abs())
    }

    /** main before parse_file: var_map zeroed, buddy_init. */
    constructor (minOrder: nat, maxOrder: nat)
      requires minOrder <= maxOrder
      ensures Running() && heap.minOrder == minOrder && heap.maxOrder == maxOrder
      ensures heap.live == map[] && heap.st == Init(heap.Top(), minOrder)
      ensures forall i :: 0 <= i < 256 ==> vars[i] == Var(Null, false)
      ensures fresh(vars) && fresh(heap) && fresh(heap.order) && fresh(heap.free)
      ensures fresh(heap.pool) && fresh(heap.pool.next) && fresh(heap.pool.prev)
    {
      heap := new Allocator(minOrder, maxOrder);
      vars := new Var[256](_ => Var(Null, false));
    }

    /** parse_alloc after parsing */
    method ParseAlloc(i: nat, size: int) returns (status: Status)
      requires Running() && i < 256 && size <= 0x4000_0000
      modifies heap, vars, heap.order, heap.free, heap.pool, heap.pool.next, heap.pool.prev
      ensures Valid()
      ensures Outcome(Abs(), status) == DoAlloc(heap.minOrder, heap.Top(), old(Abs()), i, size)
    {
      hide Owns, T.Sound, Alloc, OrderFrom;
      ghost var x := Abs();
      var mem := heap.Alloc(size);
      vars[i] := vars[i].(mem := mem);
      if mem == Null {
        return OutOfMemory;
      }
      vars[i] := vars[i].(inUse := true);
      return Success;
    }

    /** parse_free after parsing */
    method ParseFree(i: nat) returns (status: Status)
      requires Running() && i < 256
      modifies heap, vars, heap.order, heap.free, heap.pool, heap.pool.next, heap.pool.prev
      ensures Valid()
      ensures Outcome(Abs(), status) == DoFree(heap.minOrder, heap.Top(), old(Abs()), i)
    {
      if !vars[i].inUse {
        return DoubleFree;
      }
      assert HoldsLive(heap.minOrder, Abs(), i);
      heap.Free(vars[i].mem.offset);
      vars[i] := Var(Null, false);
      return Success;
    }

    /** parse_command after parsing */
    method ParseCommand(c: Command) returns (status: Status)
      requires Running() && (c.AllocCmd? ==> c.size <= 0x4000_0000)
      modifies heap, vars, heap.order, heap.free, heap.pool, heap.pool.next, heap.pool.prev
      ensures Valid()
      ensures Outcome(Abs(), status) == Do(heap.minOrder, heap.Top(), old(Abs()), c)
      ensures status == Success ==> Running()
    {
      hide Owns, DoAlloc, DoFree;
      DoOwnsIfSuccess(heap.minOrder, heap.Top(), Abs(), c);
      match c {
        case Blank => status := Success;
        case Malformed => status := BadInput;
        case AllocCmd(name, size) =>
          if Letter(name) {
            status := ParseAlloc(name as nat, size);
          } else {
            status := BadInput;
          }
        case FreeCmd(name) =>
          if Letter(name) {
            status := ParseFree(name as nat);
          } else {
            status := BadInput;
          }
      }
    }

    /** parse_file */
    method ParseFile(cs: seq<Command>) returns (status: Status)
      requires Running() && forall c :: c in cs && c.AllocCmd? ==> c.size <= 0x4000_0000
      modifies heap, vars, heap.order, heap.free, heap.pool, heap.pool.next, heap.pool.prev
      ensures Valid()
      ensures Outcome(Abs(), status) == RunFile(heap.minOrder, heap.Top(), old(Abs()), cs)
      ensures status == Success ==> Running()
    {
      hide Owns, Do;
      status := Success;
      var i := 0;
      while status == Success && i < |cs|
        invariant 0 <= i <= |cs| && Valid()
        invariant status == Success ==> Running()
        invariant status == Success ==>
          RunFile(heap.minOrder, heap.Top(), Abs(), cs[i..]) == RunFile(heap.minOrder, heap.Top(), old(Abs()), cs)
        invariant status != Success ==>
          Outcome(Abs(), status) == RunFile(heap.minOrder, heap.Top(), old(Abs()), cs)
      {
        assert cs[i..][0] == cs[i] && cs[i..][1..] == cs[i + 1..];
        status := ParseCommand(cs[i]);
        i := i + 1;
      }
    }
  }
}
