/** cg_main.c: the log_* helpers as they work at run time, on tag arrays shuffled in
    place and on the counters of the source lines. */
module Profiling {
  import opened CacheSpec
  import opened CacheSim
  import opened QueueSpec
  import opened CacheQueue
  import opened Ledger
  import opened Statements

  class Profile<P> {
    const cfg: Config
    const env: Env<P>
    const i1: TagArray
    const d1: TagArray
    const ll: TagArray
    var pred: P
    var cc: map<nat, LineCC>

    ghost function Abs(): Machine<P>
      reads this, i1, d1, ll
    {
      Machine(i1.Abs(), d1.Abs(), ll.Abs(), pred, cc)
    }

    ghost predicate Apart() {
      && i1 != d1 && i1 != ll && d1 != ll
      && i1.tags != d1.tags && i1.tags != ll.tags && d1.tags != ll.tags
    }

    ghost predicate Valid()
      reads this, i1, d1, ll, i1.tags, d1.tags, ll.tags
    {
      Apart() && i1.Valid() && d1.Valid() && ll.Valid() && Fits(cfg, Abs())
    }

    constructor (cfg: Config, env: Env<P>, pred: P, i1: TagArray, d1: TagArray, ll: TagArray)
      requires i1 != d1 && i1 != ll && d1 != ll
      requires i1.tags != d1.tags && i1.tags != ll.tags && d1.tags != ll.tags
      requires i1.Valid() && d1.Valid() && ll.Valid()
      requires i1.lineBits == cfg.i1Bits && ll.lineBits == cfg.llBits
      ensures Valid() && this.cfg == cfg && this.env == env && this.i1 == i1 && this.d1 == d1 && this.ll == ll
      ensures Abs() == Machine(i1.Abs(), d1.Abs(), ll.Abs(), pred, map[])
    {
      this.cfg, this.env, this.i1, this.d1, this.ll := cfg, env, i1, d1, ll;
      this.pred, this.cc := pred, map[];
    }

    /** cachesim_I1_doref_Gen and the count of the read. */
    method FetchGen(n: Inode) returns (panic: bool)
      requires Valid()
      modifies this`cc, i1, i1.tags, ll, ll.tags
      ensures !panic ==> Valid()
      ensures
        match IrGenRef(old(Abs()), n)
        case Panicked => panic
        case Ok(m) => !panic && Abs() == m
    {
      hide Doref, CountIr, WellFormed;
      var m1, mL;
      panic, m1, mL := DorefGen(i1, ll, n.addr, Narrow(n.len));
      if !panic {
        cc := CountIr(cc, n.parent, m1, mL);
      }
    }

    /** cachesim_I1_doref_NoX and the count of the read. */
    method FetchNoX(n: Inode)
      requires Valid()
      modifies this`cc, i1, i1.tags, ll, ll.tags
      ensures Valid() && Ok(Abs()) == IrNoXRef(old(Abs()), n)
    {
      hide DorefNoX, CountIr, WellFormed;
      var m1, mL := DorefFast(i1, ll, n.addr);
      cc := CountIr(cc, n.parent, m1, mL);
    }

    /** cachesim_D1_doref and the count of the reference. */
    method Data(n: Inode, a: nat, size: nat, isWrite: bool) returns (panic: bool)
      requires Valid()
      modifies this`cc, d1, d1.tags, ll, ll.tags
      ensures !panic ==> Valid()
      ensures
        match DataRef(old(Abs()), n, a, size, isWrite)
        case Panicked => panic
        case Ok(m) => !panic && Abs() == m
    {
      hide Doref, CountDr, CountDw, WellFormed;
      var m1, mL;
      panic, m1, mL := DorefGen(d1, ll, a, Narrow(size));
      if !panic {
        if isWrite {
          cc := CountDw(cc, n.parent, m1, mL);
        } else {
          cc := CountDr(cc, n.parent, m1, mL);
        }
      }
    }

    /** n->parent->Ir.a++ */
    method Count(n: Inode)
      requires Valid()
      modifies this`cc
      ensures Valid() && Abs() == CountOnly(old(Abs()), n)
    {
      cc := CountIr(cc, n.parent, 0, 0);
    }

    /** log_cond_branch */
    method Conditional(n: Inode, taken: Atom)
      requires Valid()
      modifies this`cc, this`pred
      ensures Valid() && Ok(Abs()) == CondBranch(env, old(Abs()), n, taken)
    {
      var c := Counters(cc, n.parent);
      var p := env.cond(pred, n.addr, env.word(taken));
      pred := p.0;
      cc := cc[n.parent := c.(bc := BranchCC(c.bc.b + 1, c.bc.mp + if p.1 then 1 else 0))];
    }

    /** log_ind_branch */
    method Indirect(n: Inode, dst: Atom)
      requires Valid()
      modifies this`cc, this`pred
      ensures Valid() && Ok(Abs()) == IndBranch(env, old(Abs()), n, dst)
    {
      var c := Counters(cc, n.parent);
      var p := env.ind(pred, n.addr, env.word(dst));
      pred := p.0;
      cc := cc[n.parent := c.(bi := BranchCC(c.bi.b + 1, c.bi.mp + if p.1 then 1 else 0))];
    }

    /** One helper call. */
    method Log(c: Call) returns (panic: bool)
      requires Valid()
      modifies this`cc, this`pred, i1, i1.tags, d1, d1.tags, ll, ll.tags
      ensures !panic ==> Valid()
      ensures
        match RunCall(cfg, env, old(Abs()), c)
        case Panicked => panic
        case Ok(m) => !panic && Abs() == m
    {
      hide IrGenRef, IrNoXRef, DataRef, CondBranch, IndBranch, CountOnly, WellFormed, TagArray.Valid;
      panic := false;
      match c {
        case Log1Ir(n) => Count(n);
        case Log2Ir(n, n2) => Count(n); Count(n2);
        case Log3Ir(n, n2, n3) => Count(n); Count(n2); Count(n3);
        case Log1IrGen(n) => panic := FetchGen(n);
        case Log1IrNoX(n) => FetchNoX(n);
        case Log2IrNoX(n, n2) => FetchNoX(n); FetchNoX(n2);
        case Log3IrNoX(n, n2, n3) => FetchNoX(n); FetchNoX(n2); FetchNoX(n3);
        case Log1IrNoX1Dr(n, ea, size) => FetchNoX(n); panic := Data(n, env.addr(ea), size, false);
        case Log1IrNoX1Dw(n, ea, size) => FetchNoX(n); panic := Data(n, env.addr(ea), size, true);
        case Log0Ir1Dr(n, ea, size) => panic := Data(n, env.addr(ea), size, false);
        case Log0Ir1Dw(n, ea, size) => panic := Data(n, env.addr(ea), size, true);
        case LogGuarded(n, ea, size, guard, isWrite) =>
          if env.guard(guard) {
            panic := Data(n, env.addr(ea), size, isWrite);
          }
        case LogCondBranch(n, taken) => Conditional(n, taken);
        case LogIndBranch(n, dst) => Indirect(n, dst);
      }
    }

    /** The helper calls of an output block in turn, up to a panic. */
    method LogAll(cs: seq<Call>) returns (panic: bool)
      requires Valid()
      modifies this`cc, this`pred, i1, i1.tags, d1, d1.tags, ll, ll.tags
      ensures !panic ==> Valid()
      ensures
        match RunCalls(cfg, env, old(Abs()), cs)
        case Panicked => panic
        case Ok(m) => !panic && Abs() == m
    {
      hide RunCall, Fits;
      var i := 0;
      assert cs[0..] == cs;
      while i < |cs|
        invariant 0 <= i <= |cs| && Valid()
        invariant RunCalls(cfg, env, old(Abs()), cs) == RunCalls(cfg, env, Abs(), cs[i..])
      {
        assert cs[i..][0] == cs[i] && cs[i..][1..] == cs[i + 1..];
        panic := Log(cs[i]);
        if panic {
          return;
        }
        i := i + 1;
      }
      panic := false;
    }

    /** Instrument a block and execute the instrumented block to its end: the caches,
        the predictors and every counter end as the plain event stream leaves them. */
    method Simulate(capacity: nat, xs: seq<Item>) returns (panic: bool)
      requires Valid() && capacity > 0 && AllTagged(xs)
      modifies this`cc, this`pred, i1, i1.tags, d1, d1.tags, ll, ll.tags
      ensures !panic ==> Valid()
      ensures
        match RunSingles(cfg, env, old(Abs()), Stream(cfg, xs))
        case Panicked => panic
        case Ok(m) => !panic && Abs() == m
    {
      hide RunCalls, RunSingles, Stream, AllTagged, Proper, ExpandAll, Erase, Marked;
      var out, _ := InstrumentBlock(cfg, capacity, xs);
      BatchingPreservesMeaning(cfg, env, Abs(), xs, out);
      panic := LogAll(out);
    }

    /** Instrument a block and execute it up to the flush that item i asks for, where
        a taken side exit leaves the block. */
    method SimulateUpTo(capacity: nat, xs: seq<Item>, i: nat) returns (panic: bool)
      requires Valid() && capacity > 0 && AllTagged(xs) && i < |xs| && xs[i].Flush?
      modifies this`cc, this`pred, i1, i1.tags, d1, d1.tags, ll, ll.tags
      ensures !panic ==> Valid()
      ensures
        match RunSingles(cfg, env, old(Abs()), Stream(cfg, xs[..i + 1]))
        case Panicked => panic
        case Ok(m) => !panic && Abs() == m
    {
      hide RunCalls, RunSingles, Stream, AllTagged, Proper, ExpandAll, Erase, Marked;
      var out, marks := InstrumentBlock(cfg, capacity, xs);
      SideExitExact(cfg, env, Abs(), xs, out, marks, i);
      panic := LogAll(out[..marks[i]]);
    }

    /** Instrument a superblock given by its statements and execute it to its end.  What
        the caches, the predictors and every counter become is told by the statements:
        each cache is run over the references that reach it, and each reference and
        branch is counted on its own line. */
    method SimulateBlock(capacity: nat, lineOf: nat -> nat, minLen: nat, minLine: nat, stmts: seq<Stmt>, next: Next)
      returns (panic: bool)
      requires Valid() && capacity > 0 && stmts != [] && stmts[0].IMark?
      modifies this`cc, this`pred, i1, i1.tags, d1, d1.tags, ll, ll.tags
      ensures !panic ==> Valid()
      ensures
        match RunSingles(cfg, env, old(Abs()), Stream(cfg, InstrumentItems(lineOf, minLen, minLine, stmts, next)))
        case Panicked => panic
        case Ok(m) => !panic && Abs() == m
      ensures !panic ==>
        Booked(env, old(Abs()), Abs(), StmtEntries(cfg, env, lineOf, minLen, minLine, stmts),
               StmtJumps(cfg, env, lineOf, minLen, stmts) + FinalJump(cfg, env, lineOf, minLen, stmts, next))
    {
      hide RunSingles, Stream, AllTagged, InstrumentItems, Booked, StmtEntries, StmtJumps, FinalJump;
      InstrumentTagged(lineOf, minLen, minLine, stmts, next);
      ghost var m := Abs();
      panic := Simulate(capacity, InstrumentItems(lineOf, minLen, minLine, stmts, next));
      if !panic {
        BlockBooked(cfg, env, m, lineOf, minLen, minLine, stmts, next);
      }
    }

    /** The same for a superblock that is left at statement j, an exit that is taken. */
    method SimulateToExit(capacity: nat, lineOf: nat -> nat, minLen: nat, minLine: nat, stmts: seq<Stmt>, next: Next,
                          j: nat)
      returns (panic: bool)
      requires Valid() && capacity > 0 && stmts != [] && stmts[0].IMark?
      requires j < |stmts| && (stmts[j].Exit? || stmts[j].LoadLinked?)
      modifies this`cc, this`pred, i1, i1.tags, d1, d1.tags, ll, ll.tags
      ensures !panic ==> Valid()
      ensures !panic ==>
        Booked(env, old(Abs()), Abs(), StmtEntries(cfg, env, lineOf, minLen, minLine, stmts[..j + 1]),
               StmtJumps(cfg, env, lineOf, minLen, stmts[..j + 1]))
    {
      hide RunSingles, Stream, AllTagged, InstrumentItems, Booked, StmtEntries, StmtJumps, BlockItems;
      InstrumentTagged(lineOf, minLen, minLine, stmts, next);
      SomeItem(lineOf, minLen, minLine, stmts[..j + 1]);
      var i := |BlockItems(lineOf, minLen, minLine, stmts[..j + 1]).0| - 1;
      ghost var k := FlushPoint(lineOf, minLen, minLine, stmts, next, j);
      ghost var m := Abs();
      panic := SimulateUpTo(capacity, InstrumentItems(lineOf, minLen, minLine, stmts, next), i);
      if !panic {
        ExitBooked(cfg, env, m, lineOf, minLen, minLine, stmts, j);
      }
    }
  }
}
