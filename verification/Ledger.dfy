/** What the counters hold at the end of an event stream, told by the references and
    branches of the stream alone: every cache is run by itself over the references
    that reach it, every predictor over the branches. */
module Ledger {
  import opened CacheSpec
  import opened QueueSpec

  // -------------------------------------------------- references and branches

  datatype Column = IrCol | DrCol | DwCol

  /** A reference on behalf of a source line; instruction reads are counted but not
      simulated without cache simulation. */
  datatype Entry = Entry(col: Column, line: nat, acc: Access, simulated: bool)

  /** A branch on behalf of a source line: its address, and the word that the predictor
      is told, a direction or a destination. */
  datatype Jump = Jump(line: nat, addr: nat, word: int, indirect: bool)

  function EntryOf<P>(cfg: Config, e: Env<P>, s: Single): seq<Entry> {
    match s
    case Ir(n) => [Entry(IrCol, n.parent, Access(n.addr, Narrow(n.len)), cfg.cacheSim)]
    case Read(n, ea, size) => [Entry(DrCol, n.parent, Access(e.addr(ea), Narrow(size)), true)]
    case Modify(n, ea, size) => [Entry(DrCol, n.parent, Access(e.addr(ea), Narrow(size)), true)]
    case Write(n, ea, size) => [Entry(DwCol, n.parent, Access(e.addr(ea), Narrow(size)), true)]
    case Guarded(n, ea, size, guard, isWrite) =>
      if e.guard(guard) then
        [Entry(if isWrite then DwCol else DrCol, n.parent, Access(e.addr(ea), Narrow(size)), true)]
      else []
    case _ => []
  }

  function Entries<P>(cfg: Config, e: Env<P>, ss: seq<Single>): seq<Entry> {
    if ss == [] then [] else Entries(cfg, e, ss[..|ss| - 1]) + EntryOf(cfg, e, ss[|ss| - 1])
  }

  function JumpOf<P>(e: Env<P>, s: Single): seq<Jump> {
    match s
    case Cond(n, taken) => [Jump(n.parent, n.addr, e.word(taken), false)]
    case Ind(n, dst) => [Jump(n.parent, n.addr, e.word(dst), true)]
    case _ => []
  }

  function Jumps<P>(e: Env<P>, ss: seq<Single>): seq<Jump> {
    if ss == [] then [] else Jumps(e, ss[..|ss| - 1]) + JumpOf(e, ss[|ss| - 1])
  }

  // ---------------------------------------------------------- caches by themselves

  /** The entry goes to the instruction cache, or to the data cache. */
  predicate GoesTo(x: Entry, fetch: bool) {
    x.simulated && (x.col == IrCol <==> fetch)
  }

  /** The references that reach one of the first-level caches. */
  function Reaching(es: seq<Entry>, fetch: bool): seq<Access> {
    if es == [] then []
    else
      Reaching(es[..|es| - 1], fetch) + (if GoesTo(es[|es| - 1], fetch) then [es[|es| - 1].acc] else [])
  }

  /** The reference misses in c behind the references `before`. */
  predicate MissesBehind(c: Cache, before: seq<Access>, acc: Access)
    requires WellFormed(c)
  {
    var run := RunRefs(c, before);
    run.Finished? && var x := RefIsMiss(run.cache, acc.addr, acc.size); x.Ref? && x.miss
  }

  predicate FirstMiss(i1: Cache, d1: Cache, before: seq<Entry>, x: Entry)
    requires WellFormed(i1) && WellFormed(d1)
  {
    x.simulated &&
    if x.col == IrCol then MissesBehind(i1, Reaching(before, true), x.acc)
    else MissesBehind(d1, Reaching(before, false), x.acc)
  }

  /** The first-level misses, which are what reaches the last level. */
  function Missed(i1: Cache, d1: Cache, es: seq<Entry>): seq<Access>
    requires WellFormed(i1) && WellFormed(d1)
  {
    if es == [] then []
    else
      var front, x := es[..|es| - 1], es[|es| - 1];
      Missed(i1, d1, front) + (if FirstMiss(i1, d1, front, x) then [x.acc] else [])
  }

  predicate LastMiss(i1: Cache, d1: Cache, ll: Cache, before: seq<Entry>, x: Entry)
    requires WellFormed(i1) && WellFormed(d1) && WellFormed(ll)
  {
    FirstMiss(i1, d1, before, x) && MissesBehind(ll, Missed(i1, d1, before), x.acc)
  }

  function One(b: bool): nat {
    if b then 1 else 0
  }

  function Plus(x: CacheCC, a: bool, m1: bool, mL: bool): CacheCC {
    CacheCC(x.a + One(a), x.m1 + One(a && m1), x.mL + One(a && mL))
  }

  /** One column of one source line. */
  function Cell(i1: Cache, d1: Cache, ll: Cache, es: seq<Entry>, col: Column, line: nat): CacheCC
    requires WellFormed(i1) && WellFormed(d1) && WellFormed(ll)
  {
    if es == [] then CacheCC(0, 0, 0)
    else
      var front, x := es[..|es| - 1], es[|es| - 1];
      Plus(Cell(i1, d1, ll, front, col, line), x.col == col && x.line == line,
           FirstMiss(i1, d1, front, x), LastMiss(i1, d1, ll, front, x))
  }

  // ------------------------------------------------------------- predictors

  function Predict<P>(e: Env<P>, p: P, j: Jump): (P, bool) {
    if j.indirect then e.ind(p, j.addr, j.word) else e.cond(p, j.addr, j.word)
  }

  /** The predictors' state behind some branches. */
  function PredAfter<P>(e: Env<P>, p: P, js: seq<Jump>): P {
    if js == [] then p else Predict(e, PredAfter(e, p, js[..|js| - 1]), js[|js| - 1]).0
  }

  function BranchCell<P>(e: Env<P>, p: P, js: seq<Jump>, indirect: bool, line: nat): BranchCC {
    if js == [] then BranchCC(0, 0)
    else
      var front, j := js[..|js| - 1], js[|js| - 1];
      var c := BranchCell(e, p, front, indirect, line);
      var mine := j.indirect == indirect && j.line == line;
      BranchCC(c.b + One(mine), c.mp + One(mine && Predict(e, PredAfter(e, p, front), j).1))
  }

  // ---------------------------------------------------------------- the ledger

  function AddCC(x: CacheCC, y: CacheCC): CacheCC {
    CacheCC(x.a + y.a, x.m1 + y.m1, x.mL + y.mL)
  }

  function AddBranch(x: BranchCC, y: BranchCC): BranchCC {
    BranchCC(x.b + y.b, x.mp + y.mp)
  }

  function AddLine(c: LineCC, d: LineCC): LineCC {
    LineCC(AddCC(c.ir, d.ir), AddCC(c.dr, d.dr), AddCC(c.dw, d.dw), AddBranch(c.bc, d.bc), AddBranch(c.bi, d.bi))
  }

  /** Counters c of a source line with everything that these references and branches
      add, starting from machine m. */
  function Posted<P>(e: Env<P>, m: Machine<P>, c: LineCC, es: seq<Entry>, js: seq<Jump>, line: nat): LineCC
    requires WellFormed(m.i1) && WellFormed(m.d1) && WellFormed(m.ll)
  {
    AddLine(c, LineCC(Cell(m.i1, m.d1, m.ll, es, IrCol, line),
                      Cell(m.i1, m.d1, m.ll, es, DrCol, line),
                      Cell(m.i1, m.d1, m.ll, es, DwCol, line),
                      BranchCell(e, m.pred, js, false, line),
                      BranchCell(e, m.pred, js, true, line)))
  }

  ghost predicate RunIs(c: Cache, refs: seq<Access>, d: Cache)
    requires WellFormed(c)
  {
    RunRefs(c, refs).Finished? && RunRefs(c, refs).cache == d
  }

  /** Each cache of r is that of m run over the references that reach it. */
  ghost predicate CachesRun<P>(m: Machine<P>, r: Machine<P>, es: seq<Entry>)
    requires WellFormed(m.i1) && WellFormed(m.d1) && WellFormed(m.ll)
  {
    && RunIs(m.i1, Reaching(es, true), r.i1)
    && RunIs(m.d1, Reaching(es, false), r.d1)
    && RunIs(m.ll, Missed(m.i1, m.d1, es), r.ll)
  }

  /** r is what m becomes by these references and branches. */
  ghost predicate Booked<P>(e: Env<P>, m: Machine<P>, r: Machine<P>, es: seq<Entry>, js: seq<Jump>)
    requires WellFormed(m.i1) && WellFormed(m.d1) && WellFormed(m.ll)
  {
    && CachesRun(m, r, es) && r.pred == PredAfter(e, m.pred, js)
    && forall line: nat {:trigger Counters(r.cc, line)} ::
         Counters(r.cc, line) == Posted(e, m, Counters(m.cc, line), es, js, line)
  }

  // --------------------------------------------------------- one more reference

  lemma ReachingSnoc(es: seq<Entry>, x: Entry, fetch: bool)
    ensures Reaching(es + [x], fetch) == Reaching(es, fetch) + (if GoesTo(x, fetch) then [x.acc] else [])
  {
    assert (es + [x])[..|es|] == es;
  }

  lemma MissedSnoc(i1: Cache, d1: Cache, es: seq<Entry>, x: Entry)
    requires WellFormed(i1) && WellFormed(d1)
    ensures Missed(i1, d1, es + [x]) == Missed(i1, d1, es) + (if FirstMiss(i1, d1, es, x) then [x.acc] else [])
  {
    assert (es + [x])[..|es|] == es;
  }

  lemma CellSnoc(i1: Cache, d1: Cache, ll: Cache, es: seq<Entry>, x: Entry, col: Column, line: nat)
    requires WellFormed(i1) && WellFormed(d1) && WellFormed(ll)
    ensures Cell(i1, d1, ll, es + [x], col, line) ==
      Plus(Cell(i1, d1, ll, es, col, line), x.col == col && x.line == line,
           FirstMiss(i1, d1, es, x), LastMiss(i1, d1, ll, es, x))
  {
    assert (es + [x])[..|es|] == es;
  }

  /** A cache that is run over references, and one more. */
  lemma RunIsSnoc(c: Cache, refs: seq<Access>, d: Cache, acc: Access)
    requires WellFormed(c) && RunIs(c, refs, d)
    ensures WellFormed(d)
    ensures RefIsMiss(d, acc.addr, acc.size).Ref? ==>
      && RunIs(c, refs + [acc], RefIsMiss(d, acc.addr, acc.size).cache)
      && (MissesBehind(c, refs, acc) <==> RefIsMiss(d, acc.addr, acc.size).miss)
  {
    hide RefIsMiss, WellFormed;
    RunSnoc(c, refs, acc);
  }

  lemma NoMore(x: seq<Access>)
    ensures x + [] == x
  {
  }

  /** A simulated reference: both levels, and what the two flags are. */
  lemma CachesTake<P>(m: Machine<P>, r: Machine<P>, es: seq<Entry>, x: Entry)
    requires WellFormed(m.i1) && WellFormed(m.d1) && WellFormed(m.ll) && CachesRun(m, r, es) && x.simulated
    ensures WellFormed(r.i1) && WellFormed(r.d1) && WellFormed(r.ll)
    ensures
      var y := Doref(if x.col == IrCol then r.i1 else r.d1, r.ll, x.acc.addr, x.acc.size);
      y.Done? ==>
        && CachesRun(m, if x.col == IrCol then r.(i1 := y.l1, ll := y.ll) else r.(d1 := y.l1, ll := y.ll), es + [x])
        && y.m1 == One(FirstMiss(m.i1, m.d1, es, x)) && y.mL == One(LastMiss(m.i1, m.d1, m.ll, es, x))
  {
    hide RefIsMiss, WellFormed, RunIs, MissesBehind;
    ReachingSnoc(es, x, true);
    ReachingSnoc(es, x, false);
    MissedSnoc(m.i1, m.d1, es, x);
    RunIsSnoc(m.i1, Reaching(es, true), r.i1, x.acc);
    RunIsSnoc(m.d1, Reaching(es, false), r.d1, x.acc);
    RunIsSnoc(m.ll, Missed(m.i1, m.d1, es), r.ll, x.acc);
    NoMore(Reaching(es, true));
    NoMore(Reaching(es, false));
    NoMore(Missed(m.i1, m.d1, es));
  }

  /** An instruction read that is counted only. */
  lemma CachesSkip<P>(m: Machine<P>, r: Machine<P>, es: seq<Entry>, x: Entry)
    requires WellFormed(m.i1) && WellFormed(m.d1) && WellFormed(m.ll) && CachesRun(m, r, es) && !x.simulated
    ensures CachesRun(m, r, es + [x])
    ensures !FirstMiss(m.i1, m.d1, es, x) && !LastMiss(m.i1, m.d1, m.ll, es, x)
  {
    hide WellFormed, RunIs;
    ReachingSnoc(es, x, true);
    ReachingSnoc(es, x, false);
    MissedSnoc(m.i1, m.d1, es, x);
    NoMore(Reaching(es, true));
    NoMore(Reaching(es, false));
    NoMore(Missed(m.i1, m.d1, es));
  }

  /** The counters with one more reference of column `col` on line `at`. */
  function CountAs(cc: map<nat, LineCC>, col: Column, at: nat, m1: nat, mL: nat): map<nat, LineCC> {
    match col
    case IrCol => CountIr(cc, at, m1, mL)
    case DrCol => CountDr(cc, at, m1, mL)
    case DwCol => CountDw(cc, at, m1, mL)
  }

  /** Counters of one line after one more reference of its own. */
  function Bumped(c: LineCC, col: Column, m1: nat, mL: nat): LineCC {
    match col
    case IrCol => c.(ir := AddCC(c.ir, CacheCC(1, m1, mL)))
    case DrCol => c.(dr := AddCC(c.dr, CacheCC(1, m1, mL)))
    case DwCol => c.(dw := AddCC(c.dw, CacheCC(1, m1, mL)))
  }

  lemma CountersAs(cc: map<nat, LineCC>, col: Column, at: nat, m1: nat, mL: nat, line: nat)
    ensures Counters(CountAs(cc, col, at, m1, mL), line) ==
      if line == at then Bumped(Counters(cc, line), col, m1, mL) else Counters(cc, line)
  {
  }

  lemma BumpAdded(c: LineCC, d: LineCC, col: Column, mine: bool, f: bool, l: bool)
    ensures
      var d' := LineCC(Plus(d.ir, col == IrCol && mine, f, l), Plus(d.dr, col == DrCol && mine, f, l),
                       Plus(d.dw, col == DwCol && mine, f, l), d.bc, d.bi);
      AddLine(c, d') == if mine then Bumped(AddLine(c, d), col, One(f), One(l)) else AddLine(c, d)
  {
  }

  /** The counters of every line after one more reference. */
  lemma PostOne<P>(e: Env<P>, m: Machine<P>, cc: map<nat, LineCC>, es: seq<Entry>, js: seq<Jump>, x: Entry, line: nat)
    requires WellFormed(m.i1) && WellFormed(m.d1) && WellFormed(m.ll)
    requires Counters(cc, line) == Posted(e, m, Counters(m.cc, line), es, js, line)
    ensures
      var m1, mL := One(FirstMiss(m.i1, m.d1, es, x)), One(LastMiss(m.i1, m.d1, m.ll, es, x));
      Counters(CountAs(cc, x.col, x.line, m1, mL), line) == Posted(e, m, Counters(m.cc, line), es + [x], js, line)
  {
    hide WellFormed, FirstMiss, LastMiss, Cell, BranchCell, CountAs, Counters, AddLine, Plus, Bumped, One;
    var d := LineCC(Cell(m.i1, m.d1, m.ll, es, IrCol, line), Cell(m.i1, m.d1, m.ll, es, DrCol, line),
                    Cell(m.i1, m.d1, m.ll, es, DwCol, line), BranchCell(e, m.pred, js, false, line),
                    BranchCell(e, m.pred, js, true, line));
    BumpAdded(Counters(m.cc, line), d, x.col, x.line == line, FirstMiss(m.i1, m.d1, es, x),
              LastMiss(m.i1, m.d1, m.ll, es, x));
    CountersAs(cc, x.col, x.line, One(FirstMiss(m.i1, m.d1, es, x)), One(LastMiss(m.i1, m.d1, m.ll, es, x)), line);
    CellSnoc(m.i1, m.d1, m.ll, es, x, IrCol, line);
    CellSnoc(m.i1, m.d1, m.ll, es, x, DrCol, line);
    CellSnoc(m.i1, m.d1, m.ll, es, x, DwCol, line);
  }

  lemma BookOne<P>(e: Env<P>, m: Machine<P>, r: Machine<P>, s: Machine<P>, es: seq<Entry>, js: seq<Jump>, x: Entry)
    requires WellFormed(m.i1) && WellFormed(m.d1) && WellFormed(m.ll) && Booked(e, m, r, es, js)
    requires CachesRun(m, s, es + [x]) && s.pred == r.pred
    requires
      var m1, mL := One(FirstMiss(m.i1, m.d1, es, x)), One(LastMiss(m.i1, m.d1, m.ll, es, x));
      s.cc == CountAs(r.cc, x.col, x.line, m1, mL)
    ensures Booked(e, m, s, es + [x], js)
  {
    hide WellFormed, FirstMiss, LastMiss, CachesRun, Posted, CountAs, PredAfter;
    forall line: nat ensures Counters(s.cc, line) == Posted(e, m, Counters(m.cc, line), es + [x], js, line) {
      PostOne(e, m, r.cc, es, js, x, line);
    }
  }

  /** Whether caches are run does not depend on counters and predictors. */
  lemma CachesAlone<P>(m: Machine<P>, r: Machine<P>, s: Machine<P>, es: seq<Entry>)
    requires WellFormed(m.i1) && WellFormed(m.d1) && WellFormed(m.ll)
    ensures CachesRun(m, r.(i1 := s.i1, d1 := s.d1, ll := s.ll), es) <==> CachesRun(m, s, es)
  {
  }

  lemma BookFetch<P>(cfg: Config, e: Env<P>, m: Machine<P>, r: Machine<P>, es: seq<Entry>, js: seq<Jump>, n: Inode)
    requires WellFormed(m.i1) && WellFormed(m.d1) && WellFormed(m.ll) && Booked(e, m, r, es, js) && Fits(cfg, r)
    requires RunSingle(cfg, e, r, Ir(n)).Ok?
    ensures
      Booked(e, m, RunSingle(cfg, e, r, Ir(n)).m,
             es + [Entry(IrCol, n.parent, Access(n.addr, Narrow(n.len)), cfg.cacheSim)], js)
  {
    hide WellFormed, FirstMiss, LastMiss, CachesRun, Posted, PredAfter, CountIr, Doref;
    var x := Entry(IrCol, n.parent, Access(n.addr, Narrow(n.len)), cfg.cacheSim);
    if cfg.cacheSim {
      CachesTake(m, r, es, x);
      CachesAlone(m, r, RunSingle(cfg, e, r, Ir(n)).m, es + [x]);
    } else {
      CachesSkip(m, r, es, x);
      CachesAlone(m, r, RunSingle(cfg, e, r, Ir(n)).m, es + [x]);
    }
    BookOne(e, m, r, RunSingle(cfg, e, r, Ir(n)).m, es, js, x);
  }

  lemma BookData<P>(e: Env<P>, m: Machine<P>, r: Machine<P>, es: seq<Entry>, js: seq<Jump>,
                    n: Inode, a: nat, size: nat, isWrite: bool)
    requires WellFormed(m.i1) && WellFormed(m.d1) && WellFormed(m.ll) && Booked(e, m, r, es, js)
    requires WellFormed(r.d1) && WellFormed(r.ll) && DataRef(r, n, a, size, isWrite).Ok?
    ensures
      Booked(e, m, DataRef(r, n, a, size, isWrite).m,
             es + [Entry(if isWrite then DwCol else DrCol, n.parent, Access(a, Narrow(size)), true)], js)
  {
    hide WellFormed, FirstMiss, LastMiss, CachesRun, Posted, PredAfter, CountDr, CountDw, Doref;
    var x := Entry(if isWrite then DwCol else DrCol, n.parent, Access(a, Narrow(size)), true);
    var s := DataRef(r, n, a, size, isWrite).m;
    CachesTake(m, r, es, x);
    CachesAlone(m, r, s, es + [x]);
    BookOne(e, m, r, s, es, js, x);
  }

  // ------------------------------------------------------------ one more branch

  lemma PredSnoc<P>(e: Env<P>, p: P, js: seq<Jump>, j: Jump)
    ensures PredAfter(e, p, js + [j]) == Predict(e, PredAfter(e, p, js), j).0
  {
    assert (js + [j])[..|js|] == js;
  }

  lemma BranchCellSnoc<P>(e: Env<P>, p: P, js: seq<Jump>, j: Jump, indirect: bool, line: nat)
    ensures
      var c, mine := BranchCell(e, p, js, indirect, line), j.indirect == indirect && j.line == line;
      BranchCell(e, p, js + [j], indirect, line) ==
        BranchCC(c.b + One(mine), c.mp + One(mine && Predict(e, PredAfter(e, p, js), j).1))
  {
    assert (js + [j])[..|js|] == js;
  }

  /** Counters of one line after one more branch of its own. */
  function Jumped(c: LineCC, indirect: bool, miss: bool): LineCC {
    if indirect then c.(bi := BranchCC(c.bi.b + 1, c.bi.mp + One(miss)))
    else c.(bc := BranchCC(c.bc.b + 1, c.bc.mp + One(miss)))
  }

  lemma BranchEffect<P>(e: Env<P>, r: Machine<P>, n: Inode, a: Atom, indirect: bool, line: nat)
    ensures
      var s := (if indirect then IndBranch(e, r, n, a) else CondBranch(e, r, n, a)).m;
      var x := Predict(e, r.pred, Jump(n.parent, n.addr, e.word(a), indirect));
      && s.pred == x.0
      && Counters(s.cc, line) ==
         if n.parent == line then Jumped(Counters(r.cc, line), indirect, x.1) else Counters(r.cc, line)
  {
  }

  lemma JumpAdded(c: LineCC, d: LineCC, indirect: bool, mine: bool, miss: bool)
    ensures
      var bc := BranchCC(d.bc.b + One(mine && !indirect), d.bc.mp + One(mine && !indirect && miss));
      var bi := BranchCC(d.bi.b + One(mine && indirect), d.bi.mp + One(mine && indirect && miss));
      AddLine(c, d.(bc := bc, bi := bi)) == if mine then Jumped(AddLine(c, d), indirect, miss) else AddLine(c, d)
  {
  }

  lemma PostJump<P>(e: Env<P>, m: Machine<P>, r: Machine<P>, es: seq<Entry>, js: seq<Jump>, n: Inode, a: Atom,
                    indirect: bool, line: nat)
    requires WellFormed(m.i1) && WellFormed(m.d1) && WellFormed(m.ll) && r.pred == PredAfter(e, m.pred, js)
    requires Counters(r.cc, line) == Posted(e, m, Counters(m.cc, line), es, js, line)
    ensures
      var s := (if indirect then IndBranch(e, r, n, a) else CondBranch(e, r, n, a)).m;
      var js' := js + [Jump(n.parent, n.addr, e.word(a), indirect)];
      s.pred == PredAfter(e, m.pred, js') && Counters(s.cc, line) == Posted(e, m, Counters(m.cc, line), es, js', line)
  {
    hide WellFormed, Cell, PredAfter, BranchCell, AddLine, Counters, CondBranch, IndBranch, Jumped, Predict;
    var j := Jump(n.parent, n.addr, e.word(a), indirect);
    PredSnoc(e, m.pred, js, j);
    BranchCellSnoc(e, m.pred, js, j, false, line);
    BranchCellSnoc(e, m.pred, js, j, true, line);
    BranchEffect(e, r, n, a, indirect, line);
    var d := LineCC(Cell(m.i1, m.d1, m.ll, es, IrCol, line), Cell(m.i1, m.d1, m.ll, es, DrCol, line),
                    Cell(m.i1, m.d1, m.ll, es, DwCol, line), BranchCell(e, m.pred, js, false, line),
                    BranchCell(e, m.pred, js, true, line));
    JumpAdded(Counters(m.cc, line), d, indirect, n.parent == line, Predict(e, r.pred, j).1);
  }

  lemma BookJump<P>(e: Env<P>, m: Machine<P>, r: Machine<P>, es: seq<Entry>, js: seq<Jump>, n: Inode, a: Atom,
                    indirect: bool)
    requires WellFormed(m.i1) && WellFormed(m.d1) && WellFormed(m.ll) && Booked(e, m, r, es, js)
    ensures
      var s := (if indirect then IndBranch(e, r, n, a) else CondBranch(e, r, n, a)).m;
      Booked(e, m, s, es, js + [Jump(n.parent, n.addr, e.word(a), indirect)])
  {
    hide WellFormed, Posted, PredAfter, Counters;
    var s := (if indirect then IndBranch(e, r, n, a) else CondBranch(e, r, n, a)).m;
    CachesAlone(m, r, s, es);
    var js' := js + [Jump(n.parent, n.addr, e.word(a), indirect)];
    PostJump(e, m, r, es, js, n, a, indirect, 0);
    forall line: nat ensures Counters(s.cc, line) == Posted(e, m, Counters(m.cc, line), es, js', line) {
      PostJump(e, m, r, es, js, n, a, indirect, line);
    }
  }

  // --------------------------------------------------------------- whole streams

  lemma BookEvent<P>(cfg: Config, e: Env<P>, m: Machine<P>, r: Machine<P>, es: seq<Entry>, js: seq<Jump>, s: Single)
    requires Fits(cfg, m) && Fits(cfg, r) && Booked(e, m, r, es, js) && RunSingle(cfg, e, r, s).Ok?
    ensures Booked(e, m, RunSingle(cfg, e, r, s).m, es + EntryOf(cfg, e, s), js + JumpOf(e, s))
  {
    hide WellFormed, Booked, DataRef, IrGenRef, CondBranch, IndBranch, Narrow;
    assert es + [] == es && js + [] == js;
    match s
    case Ir(n) => BookFetch(cfg, e, m, r, es, js, n);
    case Read(n, ea, size) => BookData(e, m, r, es, js, n, e.addr(ea), size, false);
    case Write(n, ea, size) => BookData(e, m, r, es, js, n, e.addr(ea), size, true);
    case Modify(n, ea, size) => BookData(e, m, r, es, js, n, e.addr(ea), size, false);
    case Guarded(n, ea, size, guard, isWrite) =>
      if e.guard(guard) {
        BookData(e, m, r, es, js, n, e.addr(ea), size, isWrite);
      }
    case Cond(n, taken) => BookJump(e, m, r, es, js, n, taken, false);
    case Ind(n, dst) => BookJump(e, m, r, es, js, n, dst, true);
    case Barrier =>
  }

  lemma NothingRun<P>(m: Machine<P>)
    requires WellFormed(m.i1) && WellFormed(m.d1) && WellFormed(m.ll)
    ensures CachesRun(m, m, [])
  {
    hide WellFormed, RefIsMiss;
  }

  lemma NothingPosted<P>(e: Env<P>, m: Machine<P>, c: LineCC, line: nat)
    requires WellFormed(m.i1) && WellFormed(m.d1) && WellFormed(m.ll)
    ensures Posted(e, m, c, [], [], line) == c
  {
    hide WellFormed;
  }

  lemma BookNothing<P>(e: Env<P>, m: Machine<P>)
    requires WellFormed(m.i1) && WellFormed(m.d1) && WellFormed(m.ll)
    ensures Booked(e, m, m, [], [])
  {
    hide WellFormed, Counters, Posted, CachesRun;
    NothingRun(m);
    forall line: nat ensures Counters(m.cc, line) == Posted(e, m, Counters(m.cc, line), [], [], line) {
      NothingPosted(e, m, Counters(m.cc, line), line);
    }
  }

  lemma BookStart<P>(cfg: Config, e: Env<P>, m: Machine<P>)
    requires Fits(cfg, m)
    ensures Booked(e, m, m, [], [])
  {
    BookNothing(e, m);
  }

  /** The counters of every column and line, the caches and the predictors at the end of
      any event stream that does not panic: each cache is run by itself over the
      references that reach it, the last level over the first-level misses of both
      caches in their order, and the predictors over the branches. */
  lemma {:induction false} StreamBooked<P>(cfg: Config, e: Env<P>, m: Machine<P>, ss: seq<Single>)
    requires Fits(cfg, m) && RunSingles(cfg, e, m, ss).Ok?
    ensures Booked(e, m, RunSingles(cfg, e, m, ss).m, Entries(cfg, e, ss), Jumps(e, ss))
    decreases |ss|
  {
    hide Fits, Booked, RunSingle, EntryOf, JumpOf;
    if ss == [] {
      BookStart(cfg, e, m);
    } else {
      var front, last := ss[..|ss| - 1], ss[|ss| - 1];
      assert ss == front + [last];
      RunConcat(cfg, e, m, front, [last]);
      StreamBooked(cfg, e, m, front);
      var r := RunSingles(cfg, e, m, front).m;
      RunOne(cfg, e, r, last);
      BookEvent(cfg, e, m, r, Entries(cfg, e, front), Jumps(e, front), last);
    }
  }

  // ------------------------------------------------------------------- totals

  /** First-level misses of one kind, on all lines together. */
  function FirstMisses(i1: Cache, d1: Cache, es: seq<Entry>, fetch: bool): nat
    requires WellFormed(i1) && WellFormed(d1)
  {
    if es == [] then 0
    else
      var front, x := es[..|es| - 1], es[|es| - 1];
      FirstMisses(i1, d1, front, fetch) + One((x.col == IrCol <==> fetch) && FirstMiss(i1, d1, front, x))
  }

  function LastMisses(i1: Cache, d1: Cache, ll: Cache, es: seq<Entry>): nat
    requires WellFormed(i1) && WellFormed(d1) && WellFormed(ll)
  {
    if es == [] then 0
    else
      var front, x := es[..|es| - 1], es[|es| - 1];
      LastMisses(i1, d1, ll, front) + One(LastMiss(i1, d1, ll, front, x))
  }

  lemma MissesSnoc(c: Cache, refs: seq<Access>, acc: Access)
    requires WellFormed(c) && RunRefs(c, refs + [acc]).Finished?
    ensures RunRefs(c, refs).Finished?
    ensures RunRefs(c, refs + [acc]).misses == RunRefs(c, refs).misses + One(MissesBehind(c, refs, acc))
  {
    hide RefIsMiss, WellFormed;
    RunSnoc(c, refs, acc);
  }

  /** Over all lines, the misses of a first-level cache are those of its own run. */
  lemma {:induction false} FirstMissTotal(i1: Cache, d1: Cache, es: seq<Entry>, fetch: bool)
    requires WellFormed(i1) && WellFormed(d1)
    requires RunRefs(if fetch then i1 else d1, Reaching(es, fetch)).Finished?
    ensures FirstMisses(i1, d1, es, fetch) == RunRefs(if fetch then i1 else d1, Reaching(es, fetch)).misses
  {
    hide RefIsMiss, WellFormed, MissesBehind;
    var c := if fetch then i1 else d1;
    if es == [] {
      assert RunRefs(c, []) == Finished(c, 0);
    } else {
      var front, x := es[..|es| - 1], es[|es| - 1];
      if GoesTo(x, fetch) {
        MissesSnoc(c, Reaching(front, fetch), x.acc);
      } else {
        NoMore(Reaching(front, fetch));
      }
      FirstMissTotal(i1, d1, front, fetch);
    }
  }

  /** Over all lines and columns, last-level misses are those of the last level's run over
      the first-level misses. */
  lemma {:induction false} LastMissTotal(i1: Cache, d1: Cache, ll: Cache, es: seq<Entry>)
    requires WellFormed(i1) && WellFormed(d1) && WellFormed(ll) && RunRefs(ll, Missed(i1, d1, es)).Finished?
    ensures LastMisses(i1, d1, ll, es) == RunRefs(ll, Missed(i1, d1, es)).misses
  {
    hide RefIsMiss, WellFormed, MissesBehind, FirstMiss;
    if es == [] {
      assert RunRefs(ll, []) == Finished(ll, 0);
    } else {
      var front, x := es[..|es| - 1], es[|es| - 1];
      if FirstMiss(i1, d1, front, x) {
        MissesSnoc(ll, Missed(i1, d1, front), x.acc);
      } else {
        NoMore(Missed(i1, d1, front));
      }
      LastMissTotal(i1, d1, ll, front);
    }
  }
}
