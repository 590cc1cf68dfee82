/** cg_main.c: what the log_* helpers do at run time, and what a stream of memory
    and branch events means when each event is handled by itself. */
module QueueSpec {
  import opened CacheSpec

  /** InstrInfo: address and length of an instruction, and its line's counters. */
  datatype Inode = Inode(addr: nat, len: nat, parent: nat)

  /** An IR atom, by name; its value is fixed when the block runs. */
  type Atom = nat

  /** Options fixed when code is instrumented. */
  datatype Config = Config(cacheSim: bool, branchSim: bool, i1Bits: nat, llBits: nat)

  // ------------------------------------------------------------ run-time state

  datatype CacheCC = CacheCC(a: nat, m1: nat, mL: nat)
  datatype BranchCC = BranchCC(b: nat, mp: nat)
  datatype LineCC = LineCC(ir: CacheCC, dr: CacheCC, dw: CacheCC, bc: BranchCC, bi: BranchCC)

  const NO_CC := LineCC(CacheCC(0, 0, 0), CacheCC(0, 0, 0), CacheCC(0, 0, 0), BranchCC(0, 0), BranchCC(0, 0))

  /** The three caches, the branch predictors and the per-line counters. */
  datatype Machine<P> = Machine(i1: Cache, d1: Cache, ll: Cache, pred: P, cc: map<nat, LineCC>)

  /** The values of the atoms, and the two predictors, which return their new state
      and whether they mispredicted. */
  datatype Env<!P> = Env(
    addr: Atom -> nat,
    guard: Atom -> bool,
    word: Atom -> int,
    cond: (P, nat, int) -> (P, bool),
    ind: (P, nat, int) -> (P, bool))

  /** Panicked is VG_(tool_panic): the simulation does not go on. */
  datatype Result<P> = Panicked | Ok(m: Machine<P>)

  ghost predicate Fits<P>(cfg: Config, m: Machine<P>) {
    && WellFormed(m.i1) && WellFormed(m.d1) && WellFormed(m.ll)
    && m.i1.lineBits == cfg.i1Bits && m.ll.lineBits == cfg.llBits
  }

  function Counters(cc: map<nat, LineCC>, line: nat): LineCC {
    if line in cc then cc[line] else NO_CC
  }

  function CountIr(cc: map<nat, LineCC>, line: nat, m1: nat, mL: nat): map<nat, LineCC> {
    var c := Counters(cc, line);
    cc[line := c.(ir := CacheCC(c.ir.a + 1, c.ir.m1 + m1, c.ir.mL + mL))]
  }

  function CountDr(cc: map<nat, LineCC>, line: nat, m1: nat, mL: nat): map<nat, LineCC> {
    var c := Counters(cc, line);
    cc[line := c.(dr := CacheCC(c.dr.a + 1, c.dr.m1 + m1, c.dr.mL + mL))]
  }

  function CountDw(cc: map<nat, LineCC>, line: nat, m1: nat, mL: nat): map<nat, LineCC> {
    var c := Counters(cc, line);
    cc[line := c.(dw := CacheCC(c.dw.a + 1, c.dw.m1 + m1, c.dw.mL + mL))]
  }

  /** Lengths and sizes reach the simulator as UChar. */
  function Narrow(size: nat): (r: nat)
    ensures r < 256
  {
    size % 256
  }

  /** An instruction read that may cross lines. */
  function IrGenRef<P>(m: Machine<P>, n: Inode): Result<P>
    requires WellFormed(m.i1) && WellFormed(m.ll)
  {
    match Doref(m.i1, m.ll, n.addr, Narrow(n.len))
    case Abort => Panicked
    case Done(i1, ll, m1, mL) => Ok(m.(i1 := i1, ll := ll, cc := CountIr(m.cc, n.parent, m1, mL)))
  }

  /** An instruction read on the fast path. */
  function IrNoXRef<P>(m: Machine<P>, n: Inode): Result<P>
    requires WellFormed(m.i1) && WellFormed(m.ll)
  {
    var r := DorefNoX(m.i1, m.ll, n.addr);
    Ok(m.(i1 := r.l1, ll := r.ll, cc := CountIr(m.cc, n.parent, r.m1, r.mL)))
  }

  function DataRef<P>(m: Machine<P>, n: Inode, a: nat, size: nat, isWrite: bool): Result<P>
    requires WellFormed(m.d1) && WellFormed(m.ll)
  {
    match Doref(m.d1, m.ll, a, Narrow(size))
    case Abort => Panicked
    case Done(d1, ll, m1, mL) =>
      Ok(m.(d1 := d1, ll := ll,
            cc := if isWrite then CountDw(m.cc, n.parent, m1, mL) else CountDr(m.cc, n.parent, m1, mL)))
  }

  function CondBranch<P>(e: Env<P>, m: Machine<P>, n: Inode, taken: Atom): Result<P> {
    var p := e.cond(m.pred, n.addr, e.word(taken));
    var c := Counters(m.cc, n.parent);
    Ok(m.(pred := p.0, cc := m.cc[n.parent := c.(bc := BranchCC(c.bc.b + 1, c.bc.mp + if p.1 then 1 else 0))]))
  }

  function IndBranch<P>(e: Env<P>, m: Machine<P>, n: Inode, dst: Atom): Result<P> {
    var p := e.ind(m.pred, n.addr, e.word(dst));
    var c := Counters(m.cc, n.parent);
    Ok(m.(pred := p.0, cc := m.cc[n.parent := c.(bi := BranchCC(c.bi.b + 1, c.bi.mp + if p.1 then 1 else 0))]))
  }

  // --------------------------------------------------- events one at a time

  /** An event as the instrumented program would report it by itself.  Barrier marks
      a point where the queue must be flushed; Modify is a read and a write of one
      place by one instruction, counted as one reference, a read. */
  datatype Single =
    | Ir(n: Inode)
    | Read(n: Inode, ea: Atom, size: nat)
    | Write(n: Inode, ea: Atom, size: nat)
    | Modify(n: Inode, ea: Atom, size: nat)
    | Guarded(n: Inode, ea: Atom, size: nat, guard: Atom, isWrite: bool)
    | Cond(n: Inode, taken: Atom)
    | Ind(n: Inode, dst: Atom)
    | Barrier

  function RunSingle<P>(cfg: Config, e: Env<P>, m: Machine<P>, s: Single): (r: Result<P>)
    requires Fits(cfg, m)
    ensures r.Ok? ==> Fits(cfg, r.m)
  {
    match s
    case Ir(n) => if cfg.cacheSim then IrGenRef(m, n) else Ok(m.(cc := CountIr(m.cc, n.parent, 0, 0)))
    case Read(n, ea, size) => DataRef(m, n, e.addr(ea), size, false)
    case Write(n, ea, size) => DataRef(m, n, e.addr(ea), size, true)
    case Modify(n, ea, size) => DataRef(m, n, e.addr(ea), size, false)
    case Guarded(n, ea, size, guard, isWrite) =>
      if e.guard(guard) then DataRef(m, n, e.addr(ea), size, isWrite) else Ok(m)
    case Cond(n, taken) => CondBranch(e, m, n, taken)
    case Ind(n, dst) => IndBranch(e, m, n, dst)
    case Barrier => Ok(m)
  }

  function RunSingles<P>(cfg: Config, e: Env<P>, m: Machine<P>, ss: seq<Single>): (r: Result<P>)
    requires Fits(cfg, m)
    ensures r.Ok? ==> Fits(cfg, r.m)
    decreases |ss|
  {
    if ss == [] then Ok(m)
    else
      var r := RunSingle(cfg, e, m, ss[0]);
      if r.Panicked? then Panicked else RunSingles(cfg, e, r.m, ss[1..])
  }

  // ------------------------------------------------------------- conservation

  /** References and branches of each kind. */
  datatype Tally = Tally(ir: nat, dr: nat, dw: nat, bc: nat, bi: nat)

  const NOTHING := Tally(0, 0, 0, 0, 0)

  /** What one event adds to the counters of a source line. */
  function TallyOf<P>(e: Env<P>, s: Single, line: nat): Tally {
    if s.Barrier? || s.n.parent != line then NOTHING
    else
      match s
      case Ir(_) => Tally(1, 0, 0, 0, 0)
      case Read(_, _, _) => Tally(0, 1, 0, 0, 0)
      case Modify(_, _, _) => Tally(0, 1, 0, 0, 0)
      case Write(_, _, _) => Tally(0, 0, 1, 0, 0)
      case Guarded(_, _, _, guard, isWrite) =>
        if !e.guard(guard) then NOTHING else if isWrite then Tally(0, 0, 1, 0, 0) else Tally(0, 1, 0, 0, 0)
      case Cond(_, _) => Tally(0, 0, 0, 1, 0)
      case Ind(_, _) => Tally(0, 0, 0, 0, 1)
  }

  function Plus(x: Tally, y: Tally): Tally {
    Tally(x.ir + y.ir, x.dr + y.dr, x.dw + y.dw, x.bc + y.bc, x.bi + y.bi)
  }

  function TallyAll<P>(e: Env<P>, ss: seq<Single>, line: nat): Tally {
    if ss == [] then NOTHING else Plus(TallyOf(e, ss[0], line), TallyAll(e, ss[1..], line))
  }

  /** d more accesses, at most d more first-level misses, at most that many last-level ones. */
  predicate Grew(x: CacheCC, y: CacheCC, d: nat) {
    y.a == x.a + d && x.mL <= y.mL && y.mL - x.mL <= y.m1 - x.m1 <= d
  }

  /** The counters of a line have grown by a tally. */
  predicate GrewBy(x: LineCC, y: LineCC, t: Tally) {
    && Grew(x.ir, y.ir, t.ir) && Grew(x.dr, y.dr, t.dr) && Grew(x.dw, y.dw, t.dw)
    && y.bc.b == x.bc.b + t.bc && x.bc.mp <= y.bc.mp <= x.bc.mp + t.bc
    && y.bi.b == x.bi.b + t.bi && x.bi.mp <= y.bi.mp <= x.bi.mp + t.bi
  }

  lemma GrewTwice(x: LineCC, y: LineCC, z: LineCC, s: Tally, t: Tally)
    requires GrewBy(x, y, s) && GrewBy(y, z, t)
    ensures GrewBy(x, z, Plus(s, t))
  {
  }

  lemma GrewNot(x: LineCC)
    ensures GrewBy(x, x, NOTHING)
  {
  }

  /** One reference misses a level at most once, and the last level only after the first. */
  lemma DorefCounts(l1: Cache, ll: Cache, a: nat, size: nat)
    requires WellFormed(l1) && WellFormed(ll) && Doref(l1, ll, a, size).Done?
    ensures Doref(l1, ll, a, size).mL <= Doref(l1, ll, a, size).m1 <= 1
  {
  }

  lemma IrCounted(cc: map<nat, LineCC>, parent: nat, m1: nat, mL: nat, line: nat)
    requires mL <= m1 <= 1
    ensures GrewBy(Counters(cc, line), Counters(CountIr(cc, parent, m1, mL), line),
                   if parent == line then Tally(1, 0, 0, 0, 0) else NOTHING)
  {
  }

  lemma DrCounted(cc: map<nat, LineCC>, parent: nat, m1: nat, mL: nat, line: nat)
    requires mL <= m1 <= 1
    ensures GrewBy(Counters(cc, line), Counters(CountDr(cc, parent, m1, mL), line),
                   if parent == line then Tally(0, 1, 0, 0, 0) else NOTHING)
  {
  }

  lemma DwCounted(cc: map<nat, LineCC>, parent: nat, m1: nat, mL: nat, line: nat)
    requires mL <= m1 <= 1
    ensures GrewBy(Counters(cc, line), Counters(CountDw(cc, parent, m1, mL), line),
                   if parent == line then Tally(0, 0, 1, 0, 0) else NOTHING)
  {
  }

  lemma DataCounted<P>(m: Machine<P>, n: Inode, a: nat, size: nat, isWrite: bool, line: nat)
    requires WellFormed(m.d1) && WellFormed(m.ll) && DataRef(m, n, a, size, isWrite).Ok?
    ensures GrewBy(Counters(m.cc, line), Counters(DataRef(m, n, a, size, isWrite).m.cc, line),
                   if n.parent != line then NOTHING else if isWrite then Tally(0, 0, 1, 0, 0) else Tally(0, 1, 0, 0, 0))
  {
    hide Doref, Counters, CountDr, CountDw, GrewBy, WellFormed;
    DorefCounts(m.d1, m.ll, a, Narrow(size));
    var r := Doref(m.d1, m.ll, a, Narrow(size));
    if isWrite {
      DwCounted(m.cc, n.parent, r.m1, r.mL, line);
    } else {
      DrCounted(m.cc, n.parent, r.m1, r.mL, line);
    }
  }

  lemma FetchCounted<P>(m: Machine<P>, n: Inode, line: nat)
    requires WellFormed(m.i1) && WellFormed(m.ll) && IrGenRef(m, n).Ok?
    ensures GrewBy(Counters(m.cc, line), Counters(IrGenRef(m, n).m.cc, line),
                   if n.parent == line then Tally(1, 0, 0, 0, 0) else NOTHING)
  {
    hide Doref, Counters, CountIr, GrewBy, WellFormed;
    DorefCounts(m.i1, m.ll, n.addr, Narrow(n.len));
    var r := Doref(m.i1, m.ll, n.addr, Narrow(n.len));
    IrCounted(m.cc, n.parent, r.m1, r.mL, line);
  }

  lemma CondCounted<P>(e: Env<P>, m: Machine<P>, n: Inode, taken: Atom, line: nat)
    ensures GrewBy(Counters(m.cc, line), Counters(CondBranch(e, m, n, taken).m.cc, line),
                   if n.parent == line then Tally(0, 0, 0, 1, 0) else NOTHING)
  {
  }

  lemma IndCounted<P>(e: Env<P>, m: Machine<P>, n: Inode, dst: Atom, line: nat)
    ensures GrewBy(Counters(m.cc, line), Counters(IndBranch(e, m, n, dst).m.cc, line),
                   if n.parent == line then Tally(0, 0, 0, 0, 1) else NOTHING)
  {
  }

  lemma SingleCounted<P>(cfg: Config, e: Env<P>, m: Machine<P>, s: Single, line: nat)
    requires Fits(cfg, m) && RunSingle(cfg, e, m, s).Ok?
    ensures GrewBy(Counters(m.cc, line), Counters(RunSingle(cfg, e, m, s).m.cc, line), TallyOf(e, s, line))
  {
    hide Counters, CountIr, IrGenRef, DataRef, CondBranch, IndBranch, GrewBy, WellFormed;
    GrewNot(Counters(m.cc, line));
    match s
    case Ir(n) =>
      if cfg.cacheSim {
        FetchCounted(m, n, line);
      } else {
        IrCounted(m.cc, n.parent, 0, 0, line);
      }
    case Read(n, ea, size) => DataCounted(m, n, e.addr(ea), size, false, line);
    case Write(n, ea, size) => DataCounted(m, n, e.addr(ea), size, true, line);
    case Modify(n, ea, size) => DataCounted(m, n, e.addr(ea), size, false, line);
    case Guarded(n, ea, size, guard, isWrite) =>
      if e.guard(guard) {
        DataCounted(m, n, e.addr(ea), size, isWrite, line);
      }
    case Cond(n, taken) => CondCounted(e, m, n, taken, line);
    case Ind(n, dst) => IndCounted(e, m, n, dst, line);
    case Barrier =>
  }

  /** Every event is counted once, on its own line, in its own column, and misses
      never outnumber references. */
  lemma {:induction false} EventsCounted<P>(cfg: Config, e: Env<P>, m: Machine<P>, ss: seq<Single>, line: nat)
    requires Fits(cfg, m) && RunSingles(cfg, e, m, ss).Ok?
    ensures GrewBy(Counters(m.cc, line), Counters(RunSingles(cfg, e, m, ss).m.cc, line), TallyAll(e, ss, line))
    decreases |ss|
  {
    hide RunSingle, TallyOf, Counters, GrewBy, Fits;
    if ss == [] {
      GrewNot(Counters(m.cc, line));
    } else {
      var r := RunSingle(cfg, e, m, ss[0]);
      SingleCounted(cfg, e, m, ss[0], line);
      EventsCounted(cfg, e, r.m, ss[1..], line);
      GrewTwice(Counters(m.cc, line), Counters(r.m.cc, line), Counters(RunSingles(cfg, e, m, ss).m.cc, line),
                TallyOf(e, ss[0], line), TallyAll(e, ss[1..], line));
    }
  }

  /** The calls of addEvent_* and flushEvents that cg_instrument makes for a block. */
  datatype Item =
    | AddIr(n: Inode)
    | AddDr(n: Inode, size: nat, ea: Atom)
    | AddDw(n: Inode, size: nat, ea: Atom)
    | AddGuarded(n: Inode, size: nat, ea: Atom, guard: Atom, isWrite: bool)
    | AddBc(n: Inode, taken: Atom)
    | AddBi(n: Inode, dst: Atom)
    | Flush

  /** The event stream with one more item: events of a kind that is not simulated
      vanish, and a write right after a read of the same place by the same
      instruction turns the read into a modify. */
  function Append(cfg: Config, acc: seq<Single>, x: Item): seq<Single> {
    match x
    case AddIr(n) => acc + [Ir(n)]
    case AddDr(n, size, ea) => if cfg.cacheSim then acc + [Read(n, ea, size)] else acc
    case AddDw(n, size, ea) =>
      if !cfg.cacheSim then acc
      else if acc != [] && acc[|acc| - 1] == Read(n, ea, size) then acc[..|acc| - 1] + [Modify(n, ea, size)]
      else acc + [Write(n, ea, size)]
    case AddGuarded(n, size, ea, guard, isWrite) =>
      if cfg.cacheSim then acc + [Guarded(n, ea, size, guard, isWrite)] else acc
    case AddBc(n, taken) => if cfg.branchSim then acc + [Cond(n, taken)] else acc
    case AddBi(n, dst) => if cfg.branchSim then acc + [Ind(n, dst)] else acc
    case Flush => acc + [Barrier]
  }

  function Stream(cfg: Config, xs: seq<Item>): seq<Single> {
    if xs == [] then [] else Append(cfg, Stream(cfg, xs[..|xs| - 1]), xs[|xs| - 1])
  }

  // ------------------------------------------------------------ helper calls

  /** The calls that flushEvents and addEvent_D_guarded put into the output block. */
  datatype Call =
    | Log1Ir(n: Inode)
    | Log2Ir(n: Inode, n2: Inode)
    | Log3Ir(n: Inode, n2: Inode, n3: Inode)
    | Log1IrGen(n: Inode)
    | Log1IrNoX(n: Inode)
    | Log2IrNoX(n: Inode, n2: Inode)
    | Log3IrNoX(n: Inode, n2: Inode, n3: Inode)
    | Log1IrNoX1Dr(n: Inode, ea: Atom, size: nat)
    | Log1IrNoX1Dw(n: Inode, ea: Atom, size: nat)
    | Log0Ir1Dr(n: Inode, ea: Atom, size: nat)
    | Log0Ir1Dw(n: Inode, ea: Atom, size: nat)
    | LogGuarded(n: Inode, ea: Atom, size: nat, guard: Atom, isWrite: bool)
    | LogCondBranch(n: Inode, taken: Atom)
    | LogIndBranch(n: Inode, dst: Atom)

  function CountOnly<P>(m: Machine<P>, n: Inode): Machine<P> {
    m.(cc := CountIr(m.cc, n.parent, 0, 0))
  }

  /** The bodies of the helpers. */
  function RunCall<P>(cfg: Config, e: Env<P>, m: Machine<P>, c: Call): (r: Result<P>)
    requires Fits(cfg, m)
    ensures r.Ok? ==> Fits(cfg, r.m)
  {
    match c
    case Log1Ir(n) => Ok(CountOnly(m, n))
    case Log2Ir(n, n2) => Ok(CountOnly(CountOnly(m, n), n2))
    case Log3Ir(n, n2, n3) => Ok(CountOnly(CountOnly(CountOnly(m, n), n2), n3))
    case Log1IrGen(n) => IrGenRef(m, n)
    case Log1IrNoX(n) => IrNoXRef(m, n)
    case Log2IrNoX(n, n2) => IrNoXRef(IrNoXRef(m, n).m, n2)
    case Log3IrNoX(n, n2, n3) => IrNoXRef(IrNoXRef(IrNoXRef(m, n).m, n2).m, n3)
    case Log1IrNoX1Dr(n, ea, size) => DataRef(IrNoXRef(m, n).m, n, e.addr(ea), size, false)
    case Log1IrNoX1Dw(n, ea, size) => DataRef(IrNoXRef(m, n).m, n, e.addr(ea), size, true)
    case Log0Ir1Dr(n, ea, size) => DataRef(m, n, e.addr(ea), size, false)
    case Log0Ir1Dw(n, ea, size) => DataRef(m, n, e.addr(ea), size, true)
    case LogGuarded(n, ea, size, guard, isWrite) =>
      if e.guard(guard) then DataRef(m, n, e.addr(ea), size, isWrite) else Ok(m)
    case LogCondBranch(n, taken) => CondBranch(e, m, n, taken)
    case LogIndBranch(n, dst) => IndBranch(e, m, n, dst)
  }

  function RunCalls<P>(cfg: Config, e: Env<P>, m: Machine<P>, cs: seq<Call>): (r: Result<P>)
    requires Fits(cfg, m)
    ensures r.Ok? ==> Fits(cfg, r.m)
    decreases |cs|
  {
    if cs == [] then Ok(m)
    else
      var r := RunCall(cfg, e, m, cs[0]);
      if r.Panicked? then Panicked else RunCalls(cfg, e, r.m, cs[1..])
  }

  // ---------------------------------------------------- calls against events

  predicate NoX(cfg: Config, n: Inode) {
    IsNoX(cfg.i1Bits, cfg.llBits, n.addr, Narrow(n.len))
  }

  /** A call is used under the options and for the instructions it is meant for. */
  predicate Proper(cfg: Config, c: Call) {
    match c
    case Log1Ir(_) => !cfg.cacheSim
    case Log2Ir(_, _) => !cfg.cacheSim
    case Log3Ir(_, _, _) => !cfg.cacheSim
    case Log1IrGen(_) => cfg.cacheSim
    case Log1IrNoX(n) => cfg.cacheSim && NoX(cfg, n)
    case Log2IrNoX(n, n2) => cfg.cacheSim && NoX(cfg, n) && NoX(cfg, n2)
    case Log3IrNoX(n, n2, n3) => cfg.cacheSim && NoX(cfg, n) && NoX(cfg, n2) && NoX(cfg, n3)
    case Log1IrNoX1Dr(n, _, _) => cfg.cacheSim && NoX(cfg, n)
    case Log1IrNoX1Dw(n, _, _) => cfg.cacheSim && NoX(cfg, n)
    case _ => true
  }

  /** The events that a call stands for. */
  function Expand(c: Call): seq<Single> {
    match c
    case Log1Ir(n) => [Ir(n)]
    case Log2Ir(n, n2) => [Ir(n), Ir(n2)]
    case Log3Ir(n, n2, n3) => [Ir(n), Ir(n2), Ir(n3)]
    case Log1IrGen(n) => [Ir(n)]
    case Log1IrNoX(n) => [Ir(n)]
    case Log2IrNoX(n, n2) => [Ir(n), Ir(n2)]
    case Log3IrNoX(n, n2, n3) => [Ir(n), Ir(n2), Ir(n3)]
    case Log1IrNoX1Dr(n, ea, size) => [Ir(n), Read(n, ea, size)]
    case Log1IrNoX1Dw(n, ea, size) => [Ir(n), Write(n, ea, size)]
    case Log0Ir1Dr(n, ea, size) => [Read(n, ea, size)]
    case Log0Ir1Dw(n, ea, size) => [Write(n, ea, size)]
    case LogGuarded(n, ea, size, guard, isWrite) => [Guarded(n, ea, size, guard, isWrite)]
    case LogCondBranch(n, taken) => [Cond(n, taken)]
    case LogIndBranch(n, dst) => [Ind(n, dst)]
  }

  function ExpandAll(cs: seq<Call>): seq<Single> {
    if cs == [] then [] else ExpandAll(cs[..|cs| - 1]) + Expand(cs[|cs| - 1])
  }

  lemma {:induction false} RunConcat<P>(cfg: Config, e: Env<P>, m: Machine<P>, xs: seq<Single>, ys: seq<Single>)
    requires Fits(cfg, m)
    ensures RunSingles(cfg, e, m, xs + ys) ==
      var r := RunSingles(cfg, e, m, xs);
      if r.Panicked? then Panicked else RunSingles(cfg, e, r.m, ys)
    decreases |xs|
  {
    if xs == [] {
      assert xs + ys == ys;
    } else {
      assert (xs + ys)[0] == xs[0] && (xs + ys)[1..] == xs[1..] + ys;
      var r := RunSingle(cfg, e, m, xs[0]);
      if r.Ok? {
        RunConcat(cfg, e, r.m, xs[1..], ys);
      }
    }
  }

  /** The fast instruction read does what the generic one does. */
  lemma NoXRef<P>(cfg: Config, m: Machine<P>, n: Inode)
    requires Fits(cfg, m) && NoX(cfg, n)
    ensures IrNoXRef(m, n) == IrGenRef(m, n) && Fits(cfg, IrNoXRef(m, n).m)
  {
    NoXAgrees(m.i1, m.ll, n.addr, Narrow(n.len));
  }

  lemma RunOne<P>(cfg: Config, e: Env<P>, m: Machine<P>, a: Single)
    requires Fits(cfg, m)
    ensures RunSingles(cfg, e, m, [a]) == RunSingle(cfg, e, m, a)
  {
    var r := RunSingle(cfg, e, m, a);
    assert [a][1..] == [];
    assert r.Ok? ==> RunSingles(cfg, e, r.m, []) == r;
  }

  lemma RunTwo<P>(cfg: Config, e: Env<P>, m: Machine<P>, a: Single, b: Single)
    requires Fits(cfg, m)
    ensures RunSingles(cfg, e, m, [a, b]) ==
      var r := RunSingle(cfg, e, m, a);
      if r.Panicked? then Panicked else RunSingle(cfg, e, r.m, b)
  {
    RunConcat(cfg, e, m, [a], [b]);
    assert [a, b] == [a] + [b];
    RunOne(cfg, e, m, a);
    var r := RunSingle(cfg, e, m, a);
    if r.Ok? {
      RunOne(cfg, e, r.m, b);
    }
  }

  lemma RunThree<P>(cfg: Config, e: Env<P>, m: Machine<P>, a: Single, b: Single, c: Single)
    requires Fits(cfg, m)
    ensures RunSingles(cfg, e, m, [a, b, c]) ==
      var r := RunSingle(cfg, e, m, a);
      if r.Panicked? then Panicked
      else
        var q := RunSingle(cfg, e, r.m, b);
        if q.Panicked? then Panicked else RunSingle(cfg, e, q.m, c)
  {
    RunConcat(cfg, e, m, [a], [b, c]);
    assert [a, b, c] == [a] + [b, c];
    RunOne(cfg, e, m, a);
    var r := RunSingle(cfg, e, m, a);
    if r.Ok? {
      RunTwo(cfg, e, r.m, b, c);
    }
  }

  /** A proper helper call has the effect of its events handled one at a time by
      the generic functions. */
  lemma CallMeansEvents<P>(cfg: Config, e: Env<P>, m: Machine<P>, c: Call)
    requires Fits(cfg, m) && Proper(cfg, c)
    ensures RunCall(cfg, e, m, c) == RunSingles(cfg, e, m, Expand(c))
  {
    match c
    case Log2Ir(n, n2) => RunTwo(cfg, e, m, Ir(n), Ir(n2));
    case Log3Ir(n, n2, n3) => RunThree(cfg, e, m, Ir(n), Ir(n2), Ir(n3));
    case Log1IrNoX(n) =>
      NoXRef(cfg, m, n);
      RunOne(cfg, e, m, Ir(n));
    case Log2IrNoX(n, n2) =>
      NoXRef(cfg, m, n);
      NoXRef(cfg, IrNoXRef(m, n).m, n2);
      RunTwo(cfg, e, m, Ir(n), Ir(n2));
    case Log3IrNoX(n, n2, n3) =>
      NoXRef(cfg, m, n);
      NoXRef(cfg, IrNoXRef(m, n).m, n2);
      NoXRef(cfg, IrNoXRef(IrNoXRef(m, n).m, n2).m, n3);
      RunThree(cfg, e, m, Ir(n), Ir(n2), Ir(n3));
    case Log1IrNoX1Dr(n, ea, size) =>
      NoXRef(cfg, m, n);
      RunTwo(cfg, e, m, Ir(n), Read(n, ea, size));
    case Log1IrNoX1Dw(n, ea, size) =>
      NoXRef(cfg, m, n);
      RunTwo(cfg, e, m, Ir(n), Write(n, ea, size));
    case _ =>
      RunOne(cfg, e, m, Expand(c)[0]);
  }

  lemma {:induction false} ExpandCons(c: Call, cs: seq<Call>)
    ensures ExpandAll([c] + cs) == Expand(c) + ExpandAll(cs)
    decreases |cs|
  {
    hide Expand;
    var all := [c] + cs;
    if cs == [] {
      assert all[..|all| - 1] == [];
    } else {
      var front, last := cs[..|cs| - 1], cs[|cs| - 1];
      assert all[..|all| - 1] == [c] + front && all[|all| - 1] == last;
      ExpandCons(c, front);
      assert Expand(c) + ExpandAll(front) + Expand(last) == Expand(c) + (ExpandAll(front) + Expand(last));
    }
  }

  lemma {:induction false} CallsMeanEvents<P>(cfg: Config, e: Env<P>, m: Machine<P>, cs: seq<Call>)
    requires Fits(cfg, m) && forall i :: 0 <= i < |cs| ==> Proper(cfg, cs[i])
    ensures RunCalls(cfg, e, m, cs) == RunSingles(cfg, e, m, ExpandAll(cs))
    decreases |cs|
  {
    if cs != [] {
      assert cs == [cs[0]] + cs[1..];
      ExpandCons(cs[0], cs[1..]);
      CallMeansEvents(cfg, e, m, cs[0]);
      RunConcat(cfg, e, m, Expand(cs[0]), ExpandAll(cs[1..]));
      var r := RunCall(cfg, e, m, cs[0]);
      if r.Ok? {
        CallsMeanEvents(cfg, e, r.m, cs[1..]);
      }
    }
  }

  // -------------------------------------------------------- erasing markers

  /** Barriers do nothing and a modify counts as its read. */
  function Erase(ss: seq<Single>): seq<Single> {
    if ss == [] then []
    else
      Erase(ss[..|ss| - 1]) +
      match ss[|ss| - 1]
      case Barrier => []
      case Modify(n, ea, size) => [Read(n, ea, size)]
      case s => [s]
  }

  lemma {:induction false} EraseKeepsMeaning<P>(cfg: Config, e: Env<P>, m: Machine<P>, ss: seq<Single>)
    requires Fits(cfg, m)
    ensures RunSingles(cfg, e, m, Erase(ss)) == RunSingles(cfg, e, m, ss)
    decreases |ss|
  {
    if ss != [] {
      var front, last := ss[..|ss| - 1], ss[|ss| - 1];
      assert ss == front + [last];
      EraseKeepsMeaning(cfg, e, m, front);
      var tail := match last
        case Barrier => []
        case Modify(n, ea, size) => [Read(n, ea, size)]
        case s => [s];
      RunConcat(cfg, e, m, front, [last]);
      RunConcat(cfg, e, m, Erase(front), tail);
      var r := RunSingles(cfg, e, m, front);
      if r.Ok? {
        RunOne(cfg, e, r.m, last);
        if !last.Barrier? {
          RunOne(cfg, e, r.m, tail[0]);
        }
      }
    }
  }
}
