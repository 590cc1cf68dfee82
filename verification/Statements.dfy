/** cg_instrument from the statements of a superblock to the counters, without its
    events: what each kind of statement refers to and counts. */
module Statements {
  import opened CacheSpec
  import opened QueueSpec
  import opened CacheQueue
  import opened Ledger

  // ------------------------------------------------- what a statement refers to

  /** A read that the next write to the same place is merged with. */
  datatype Place = Nowhere | Place(size: nat, ea: Atom)

  function Cut(size: nat, minLine: nat): nat {
    if size < minLine then size else minLine
  }

  /** The instruction that statements behind `stmts` belong to. */
  function Current(lineOf: nat -> nat, minLen: nat, stmts: seq<Stmt>): Inode {
    if stmts == [] then Inode(0, 0, 0)
    else
      match stmts[|stmts| - 1]
      case IMark(addr, len) => Inode(addr, if len == 0 then minLen else len, lineOf(addr))
      case _ => Current(lineOf, minLen, stmts[..|stmts| - 1])
  }

  /** The open read behind one more statement. */
  function OpenAfter(minLine: nat, open: Place, s: Stmt): Place {
    match s
    case Load(size, ea) => Place(size, ea)
    case Dirty(r, w, size, ea) => if w then Nowhere else if r then Place(Cut(size, minLine), ea) else open
    case Other => open
    case _ => Nowhere
  }

  /** The read that a write behind `stmts` can be merged with: the last reference made,
      if it is a plain read that nothing was merged with and no flush lies behind it. */
  function OpenRead(minLine: nat, stmts: seq<Stmt>): Place {
    if stmts == [] then Nowhere
    else OpenAfter(minLine, OpenRead(minLine, stmts[..|stmts| - 1]), stmts[|stmts| - 1])
  }

  /** The statement reads memory when the block runs. */
  predicate Reads<P>(e: Env<P>, s: Stmt) {
    match s
    case Load(_, _) => true
    case LoadLinked(_, _) => true
    case Cas(_, _) => true
    case Dirty(r, _, _, _) => r
    case LoadG(_, _, guard) => e.guard(guard)
    case _ => false
  }

  /** The statement writes memory when the block runs, and the write is not merged with
      a read of the same place by the same instruction. */
  predicate Writes<P>(e: Env<P>, minLine: nat, before: seq<Stmt>, s: Stmt) {
    match s
    case Store(size, ea) => OpenRead(minLine, before) != Place(size, ea)
    case StoreCond(size, ea) => OpenRead(minLine, before) != Place(size, ea)
    case Dirty(r, w, size, ea) => w && !r && OpenRead(minLine, before) != Place(Cut(size, minLine), ea)
    case StoreG(_, _, guard) => e.guard(guard)
    case _ => false
  }

  /** Where a statement refers to memory, and how much of it. */
  function PlaceOf(minLine: nat, s: Stmt): Place {
    match s
    case Load(size, ea) => Place(size, ea)
    case Store(size, ea) => Place(size, ea)
    case LoadG(size, ea, _) => Place(size, ea)
    case StoreG(size, ea, _) => Place(size, ea)
    case LoadLinked(size, ea) => Place(size, ea)
    case StoreCond(size, ea) => Place(size, ea)
    case Dirty(_, _, size, ea) => Place(Cut(size, minLine), ea)
    case Cas(size, ea) => Place(Cut(size, minLine), ea)
    case _ => Nowhere
  }

  function DataEntry<P>(e: Env<P>, col: Column, n: Inode, p: Place): seq<Entry> {
    match p
    case Nowhere => []
    case Place(size, ea) => [Entry(col, n.parent, Access(e.addr(ea), size % 256), true)]
  }

  /** The reference that one statement makes, if any. */
  function StmtEntry<P>(cfg: Config, e: Env<P>, lineOf: nat -> nat, minLen: nat, minLine: nat,
                        before: seq<Stmt>, s: Stmt): seq<Entry> {
    if s.IMark? then
      var len := if s.len == 0 then minLen else s.len;
      [Entry(IrCol, lineOf(s.addr), Access(s.addr, len % 256), cfg.cacheSim)]
    else if !cfg.cacheSim then []
    else if Reads(e, s) then DataEntry(e, DrCol, Current(lineOf, minLen, before), PlaceOf(minLine, s))
    else if Writes(e, minLine, before, s) then DataEntry(e, DwCol, Current(lineOf, minLen, before), PlaceOf(minLine, s))
    else []
  }

  function StmtEntries<P>(cfg: Config, e: Env<P>, lineOf: nat -> nat, minLen: nat, minLine: nat, stmts: seq<Stmt>):
    seq<Entry>
  {
    if stmts == [] then []
    else
      var front := stmts[..|stmts| - 1];
      StmtEntries(cfg, e, lineOf, minLen, minLine, front) +
      StmtEntry(cfg, e, lineOf, minLen, minLine, front, stmts[|stmts| - 1])
  }

  /** The branch that one statement makes, if any. */
  function StmtJump<P>(cfg: Config, e: Env<P>, lineOf: nat -> nat, minLen: nat, before: seq<Stmt>, s: Stmt): seq<Jump> {
    var n := Current(lineOf, minLen, before);
    if s.Exit? && s.isBranch && cfg.branchSim then [Jump(n.parent, n.addr, e.word(s.guard), false)] else []
  }

  function StmtJumps<P>(cfg: Config, e: Env<P>, lineOf: nat -> nat, minLen: nat, stmts: seq<Stmt>): seq<Jump> {
    if stmts == [] then []
    else
      var front := stmts[..|stmts| - 1];
      StmtJumps(cfg, e, lineOf, minLen, front) + StmtJump(cfg, e, lineOf, minLen, front, stmts[|stmts| - 1])
  }

  /** The jump at the end of the block. */
  function FinalJump<P>(cfg: Config, e: Env<P>, lineOf: nat -> nat, minLen: nat, stmts: seq<Stmt>, next: Next):
    seq<Jump>
  {
    var n := Current(lineOf, minLen, stmts);
    if next.Computed? && cfg.branchSim then [Jump(n.parent, n.addr, e.word(next.dst), true)] else []
  }

  // ------------------------------------------------------- events of one item

  /** How the stream ends: with the open read of the current instruction, or with
      something that no write can be merged with. */
  ghost predicate EndsAs(acc: seq<Single>, n: Inode, open: Place) {
    acc != [] &&
    match open
    case Nowhere => !acc[|acc| - 1].Read?
    case Place(size, ea) => acc[|acc| - 1] == Read(n, ea, size)
  }

  lemma EntriesSnoc<P>(cfg: Config, e: Env<P>, acc: seq<Single>, s: Single)
    ensures Entries(cfg, e, acc + [s]) == Entries(cfg, e, acc) + EntryOf(cfg, e, s)
    ensures Jumps(e, acc + [s]) == Jumps(e, acc) + JumpOf(e, s)
  {
    assert (acc + [s])[..|acc|] == acc;
  }

  /** Turning the last read into a modify changes no reference. */
  lemma RetagEntries<P>(cfg: Config, e: Env<P>, acc: seq<Single>, n: Inode, ea: Atom, size: nat)
    requires acc != [] && acc[|acc| - 1] == Read(n, ea, size)
    ensures Entries(cfg, e, acc[..|acc| - 1] + [Modify(n, ea, size)]) == Entries(cfg, e, acc)
    ensures Jumps(e, acc[..|acc| - 1] + [Modify(n, ea, size)]) == Jumps(e, acc)
  {
    var front := acc[..|acc| - 1];
    assert acc == front + [Read(n, ea, size)];
    EntriesSnoc(cfg, e, front, Read(n, ea, size));
    EntriesSnoc(cfg, e, front, Modify(n, ea, size));
  }

  lemma StreamSnoc(cfg: Config, xs: seq<Item>, x: Item)
    ensures Stream(cfg, xs + [x]) == Append(cfg, Stream(cfg, xs), x)
  {
    assert (xs + [x])[..|xs|] == xs;
  }

  lemma StreamMore(cfg: Config, xs: seq<Item>, ys: seq<Item>)
    requires |ys| <= 2
    ensures Stream(cfg, xs + ys) ==
      if |ys| == 0 then Stream(cfg, xs)
      else if |ys| == 1 then Append(cfg, Stream(cfg, xs), ys[0])
      else Append(cfg, Append(cfg, Stream(cfg, xs), ys[0]), ys[1])
  {
    hide Stream, Append;
    if |ys| == 0 {
      assert xs + ys == xs;
    } else {
      StreamSnoc(cfg, xs, ys[0]);
      if |ys| == 1 {
        assert xs + ys == xs + [ys[0]];
      } else {
        assert xs + ys == xs + [ys[0]] + [ys[1]];
        StreamSnoc(cfg, xs + [ys[0]], ys[1]);
      }
    }
  }

  // --------------------------------------------------- events of one statement

  /** acc' continues acc with these references and branches. */
  ghost predicate Continues<P>(cfg: Config, e: Env<P>, acc: seq<Single>, acc': seq<Single>,
                               es: seq<Entry>, js: seq<Jump>) {
    Entries(cfg, e, acc') == Entries(cfg, e, acc) + es && Jumps(e, acc') == Jumps(e, acc) + js
  }

  lemma ContinuesNot<P>(cfg: Config, e: Env<P>, acc: seq<Single>)
    ensures Continues(cfg, e, acc, acc, [], [])
  {
    assert Entries(cfg, e, acc) + [] == Entries(cfg, e, acc) && Jumps(e, acc) + [] == Jumps(e, acc);
  }

  lemma ContinuesTwice<P>(cfg: Config, e: Env<P>, a: seq<Single>, b: seq<Single>, c: seq<Single>,
                          es: seq<Entry>, js: seq<Jump>, es': seq<Entry>, js': seq<Jump>)
    requires Continues(cfg, e, a, b, es, js) && Continues(cfg, e, b, c, es', js')
    ensures Continues(cfg, e, a, c, es + es', js + js')
  {
    assert Entries(cfg, e, a) + es + es' == Entries(cfg, e, a) + (es + es');
    assert Jumps(e, a) + js + js' == Jumps(e, a) + (js + js');
  }

  /** One event at the end. */
  lemma OneEvent<P>(cfg: Config, e: Env<P>, acc: seq<Single>, s: Single)
    ensures Continues(cfg, e, acc, acc + [s], EntryOf(cfg, e, s), JumpOf(e, s))
    ensures acc + [s] != [] && (acc + [s])[|acc + [s]| - 1] == s
  {
    EntriesSnoc(cfg, e, acc, s);
  }

  /** A write: merged with the open read, or an event of its own. */
  lemma WriteItem<P>(cfg: Config, e: Env<P>, acc: seq<Single>, n: Inode, open: Place, size: nat, ea: Atom)
    requires EndsAs(acc, n, open) && cfg.cacheSim
    ensures
      var acc' := Append(cfg, acc, AddDw(n, size, ea));
      && EndsAs(acc', n, Nowhere)
      && Continues(cfg, e, acc, acc',
                   if open == Place(size, ea) then [] else DataEntry(e, DwCol, n, Place(size, ea)), [])
  {
    hide Entries, Jumps;
    if open == Place(size, ea) {
      RetagEntries(cfg, e, acc, n, ea, size);
      ContinuesNot(cfg, e, acc);
    } else {
      OneEvent(cfg, e, acc, Write(n, ea, size));
    }
  }

  /** A read. */
  lemma ReadItem<P>(cfg: Config, e: Env<P>, acc: seq<Single>, n: Inode, size: nat, ea: Atom)
    requires cfg.cacheSim
    ensures
      var acc' := Append(cfg, acc, AddDr(n, size, ea));
      EndsAs(acc', n, Place(size, ea)) && Continues(cfg, e, acc, acc', DataEntry(e, DrCol, n, Place(size, ea)), [])
  {
    hide Entries, Jumps;
    OneEvent(cfg, e, acc, Read(n, ea, size));
  }

  /** A flush. */
  lemma FlushItem<P>(cfg: Config, e: Env<P>, acc: seq<Single>, n: Inode)
    ensures
      var acc' := Append(cfg, acc, Flush);
      EndsAs(acc', n, Nowhere) && Continues(cfg, e, acc, acc', [], [])
  {
    hide Entries, Jumps;
    OneEvent(cfg, e, acc, Barrier);
  }

  /** A guarded reference. */
  lemma GuardedItem<P>(cfg: Config, e: Env<P>, acc: seq<Single>, n: Inode, size: nat, ea: Atom, guard: Atom,
                       isWrite: bool)
    requires cfg.cacheSim
    ensures
      var acc' := Append(cfg, acc, AddGuarded(n, size, ea, guard, isWrite));
      && EndsAs(acc', n, Nowhere)
      && var col := if isWrite then DwCol else DrCol;
         Continues(cfg, e, acc, acc', if e.guard(guard) then DataEntry(e, col, n, Place(size, ea)) else [], [])
  {
    hide Entries, Jumps;
    OneEvent(cfg, e, acc, Guarded(n, ea, size, guard, isWrite));
  }

  /** A read and a write of one place: one reference, a read. */
  lemma ModifyItems<P>(cfg: Config, e: Env<P>, acc: seq<Single>, n: Inode, size: nat, ea: Atom)
    requires cfg.cacheSim
    ensures
      var acc' := Append(cfg, Append(cfg, acc, AddDr(n, size, ea)), AddDw(n, size, ea));
      EndsAs(acc', n, Nowhere) && Continues(cfg, e, acc, acc', DataEntry(e, DrCol, n, Place(size, ea)), [])
  {
    hide Append, EndsAs, Continues;
    ReadItem(cfg, e, acc, n, size, ea);
    var mid := Append(cfg, acc, AddDr(n, size, ea));
    WriteItem(cfg, e, mid, n, Place(size, ea), size, ea);
    var es := DataEntry(e, DrCol, n, Place(size, ea));
    ContinuesTwice(cfg, e, acc, mid, Append(cfg, mid, AddDw(n, size, ea)), es, [], [], []);
    assert es + [] == es;
  }

  /** What the items of one statement do to the stream. */
  ghost predicate StepOk<P>(cfg: Config, e: Env<P>, lineOf: nat -> nat, minLen: nat, minLine: nat,
                            front: seq<Stmt>, s: Stmt, acc: seq<Single>, acc': seq<Single>) {
    && EndsAs(acc', Current(lineOf, minLen, front + [s]),
              if cfg.cacheSim then OpenRead(minLine, front + [s]) else Nowhere)
    && Continues(cfg, e, acc, acc', StmtEntry(cfg, e, lineOf, minLen, minLine, front, s),
                 StmtJump(cfg, e, lineOf, minLen, front, s))
  }

  function AppendAll(cfg: Config, acc: seq<Single>, ys: seq<Item>): seq<Single>
    requires |ys| <= 2
  {
    if |ys| == 0 then acc
    else if |ys| == 1 then Append(cfg, acc, ys[0])
    else Append(cfg, Append(cfg, acc, ys[0]), ys[1])
  }

  lemma CurrentSnoc(lineOf: nat -> nat, minLen: nat, front: seq<Stmt>, s: Stmt)
    ensures Current(lineOf, minLen, front + [s]) ==
      if s.IMark? then Inode(s.addr, if s.len == 0 then minLen else s.len, lineOf(s.addr))
      else Current(lineOf, minLen, front)
  {
    assert (front + [s])[..|front|] == front;
  }

  lemma OpenSnoc(minLine: nat, front: seq<Stmt>, s: Stmt)
    ensures OpenRead(minLine, front + [s]) == OpenAfter(minLine, OpenRead(minLine, front), s)
  {
    assert (front + [s])[..|front|] == front;
  }

  /** Without cache simulation only instruction reads and branches are left. */
  lemma StepUnsimulated<P>(cfg: Config, e: Env<P>, lineOf: nat -> nat, minLen: nat, minLine: nat,
                           front: seq<Stmt>, s: Stmt, acc: seq<Single>, n: Inode)
    requires n == Current(lineOf, minLen, front) && !cfg.cacheSim && !s.IMark? && !s.Exit? && EndsAs(acc, n, Nowhere)
    ensures |ItemsOf(lineOf, minLen, minLine, n, s)| <= 2
    ensures StepOk(cfg, e, lineOf, minLen, minLine, front, s, acc,
                   AppendAll(cfg, acc, ItemsOf(lineOf, minLen, minLine, n, s)))
  {
    hide Entries, Jumps, Current, OpenRead;
    CurrentSnoc(lineOf, minLen, front, s);
    ContinuesNot(cfg, e, acc);
    FlushItem(cfg, e, acc, n);
  }

  lemma StepExit<P>(cfg: Config, e: Env<P>, lineOf: nat -> nat, minLen: nat, minLine: nat,
                    front: seq<Stmt>, s: Stmt, acc: seq<Single>, n: Inode)
    requires n == Current(lineOf, minLen, front) && s.Exit?
    ensures |ItemsOf(lineOf, minLen, minLine, n, s)| <= 2
    ensures StepOk(cfg, e, lineOf, minLen, minLine, front, s, acc,
                   AppendAll(cfg, acc, ItemsOf(lineOf, minLen, minLine, n, s)))
  {
    hide Entries, Jumps, Current, OpenRead;
    CurrentSnoc(lineOf, minLen, front, s);
    OpenSnoc(minLine, front, s);
    FlushItem(cfg, e, acc, n);
    if s.isBranch {
      var mid := Append(cfg, acc, AddBc(n, s.guard));
      if cfg.branchSim {
        OneEvent(cfg, e, acc, Cond(n, s.guard));
      } else {
        ContinuesNot(cfg, e, acc);
      }
      FlushItem(cfg, e, mid, n);
      var js := StmtJump(cfg, e, lineOf, minLen, front, s);
      ContinuesTwice(cfg, e, acc, mid, Append(cfg, mid, Flush), [], js, [], []);
      assert js + [] == js;
    }
  }

  lemma StepIMark<P>(cfg: Config, e: Env<P>, lineOf: nat -> nat, minLen: nat, minLine: nat,
                     front: seq<Stmt>, s: Stmt, acc: seq<Single>, n: Inode)
    requires s.IMark?
    ensures |ItemsOf(lineOf, minLen, minLine, n, s)| <= 2
    ensures StepOk(cfg, e, lineOf, minLen, minLine, front, s, acc,
                   AppendAll(cfg, acc, ItemsOf(lineOf, minLen, minLine, n, s)))
  {
    hide Entries, Jumps, Current, OpenRead;
    CurrentSnoc(lineOf, minLen, front, s);
    OpenSnoc(minLine, front, s);
    OneEvent(cfg, e, acc, Ir(InodeOf(lineOf, minLen, s.addr, s.len)));
  }

  lemma StepLinked<P>(cfg: Config, e: Env<P>, acc: seq<Single>, n: Inode, size: nat, ea: Atom)
    requires cfg.cacheSim
    ensures
      var acc' := Append(cfg, Append(cfg, acc, AddDr(n, size, ea)), Flush);
      EndsAs(acc', n, Nowhere) && Continues(cfg, e, acc, acc', DataEntry(e, DrCol, n, Place(size, ea)), [])
  {
    hide Append, EndsAs, Continues;
    ReadItem(cfg, e, acc, n, size, ea);
    var mid := Append(cfg, acc, AddDr(n, size, ea));
    FlushItem(cfg, e, mid, n);
    var es := DataEntry(e, DrCol, n, Place(size, ea));
    ContinuesTwice(cfg, e, acc, mid, Append(cfg, mid, Flush), es, [], [], []);
    assert es + [] == es;
  }

  /** Statements other than instruction marks and exits, with cache simulation. */
  lemma StepData<P>(cfg: Config, e: Env<P>, lineOf: nat -> nat, minLen: nat, minLine: nat,
                    front: seq<Stmt>, s: Stmt, acc: seq<Single>, n: Inode)
    requires n == Current(lineOf, minLen, front) && cfg.cacheSim && !s.IMark? && !s.Exit?
    requires EndsAs(acc, n, OpenRead(minLine, front))
    ensures |ItemsOf(lineOf, minLen, minLine, n, s)| <= 2
    ensures StepOk(cfg, e, lineOf, minLen, minLine, front, s, acc,
                   AppendAll(cfg, acc, ItemsOf(lineOf, minLen, minLine, n, s)))
  {
    hide Append, EndsAs, Continues, Current, OpenRead, DataEntry;
    CurrentSnoc(lineOf, minLen, front, s);
    OpenSnoc(minLine, front, s);
    var open := OpenRead(minLine, front);
    match s
    case Load(size, ea) => ReadItem(cfg, e, acc, n, size, ea);
    case Store(size, ea) => WriteItem(cfg, e, acc, n, open, size, ea);
    case LoadG(size, ea, guard) => GuardedItem(cfg, e, acc, n, size, ea, guard, false);
    case StoreG(size, ea, guard) => GuardedItem(cfg, e, acc, n, size, ea, guard, true);
    case Dirty(r, w, size, ea) =>
      var k := Min(size, minLine);
      if r && w {
        ModifyItems(cfg, e, acc, n, k, ea);
      } else if r {
        ReadItem(cfg, e, acc, n, k, ea);
      } else if w {
        WriteItem(cfg, e, acc, n, open, k, ea);
      } else {
        ContinuesNot(cfg, e, acc);
      }
    case Cas(size, ea) => ModifyItems(cfg, e, acc, n, Min(size, minLine), ea);
    case LoadLinked(size, ea) => StepLinked(cfg, e, acc, n, size, ea);
    case StoreCond(size, ea) => WriteItem(cfg, e, acc, n, open, size, ea);
    case Other => ContinuesNot(cfg, e, acc);
  }

  // ------------------------------------------------------------- whole blocks

  lemma StartRefers<P>(cfg: Config, e: Env<P>, lineOf: nat -> nat, minLen: nat, minLine: nat, s: Stmt)
    requires s.IMark?
    ensures
      var r := BlockItems(lineOf, minLen, minLine, [s]);
      var acc := Stream(cfg, r.0);
      && EndsAs(acc, r.1, if cfg.cacheSim then OpenRead(minLine, [s]) else Nowhere)
      && Entries(cfg, e, acc) == StmtEntries(cfg, e, lineOf, minLen, minLine, [s])
      && Jumps(e, acc) == StmtJumps(cfg, e, lineOf, minLen, [s])
  {
    var x := AddIr(InodeOf(lineOf, minLen, s.addr, s.len));
    assert BlockItems(lineOf, minLen, minLine, [s]).0 == [x];
    assert [x][..0] == [] && [s][..0] == [];
    assert Stream(cfg, [x]) == [Ir(x.n)];
    assert [Ir(x.n)][..0] == [];
  }

  /** The event stream of a block refers to what its statements refer to. */
  lemma {:induction false} BlockRefers<P>(cfg: Config, e: Env<P>, lineOf: nat -> nat, minLen: nat, minLine: nat,
                                          stmts: seq<Stmt>)
    requires stmts != [] && stmts[0].IMark?
    ensures
      var r := BlockItems(lineOf, minLen, minLine, stmts);
      var acc := Stream(cfg, r.0);
      && r.1 == Current(lineOf, minLen, stmts)
      && EndsAs(acc, r.1, if cfg.cacheSim then OpenRead(minLine, stmts) else Nowhere)
      && Entries(cfg, e, acc) == StmtEntries(cfg, e, lineOf, minLen, minLine, stmts)
      && Jumps(e, acc) == StmtJumps(cfg, e, lineOf, minLen, stmts)
    decreases |stmts|
  {
    hide Append, EndsAs, Current, OpenRead, StmtEntry, StmtJump, ItemsOf, Entries, Jumps;
    var front, last := stmts[..|stmts| - 1], stmts[|stmts| - 1];
    assert stmts == front + [last];
    CurrentSnoc(lineOf, minLen, front, last);
    if front == [] {
      StartRefers(cfg, e, lineOf, minLen, minLine, last);
    } else {
      BlockRefers(cfg, e, lineOf, minLen, minLine, front);
      var p := BlockItems(lineOf, minLen, minLine, front);
      var acc := Stream(cfg, p.0);
      var ys := ItemsOf(lineOf, minLen, minLine, p.1, last);
      if last.IMark? {
        StepIMark(cfg, e, lineOf, minLen, minLine, front, last, acc, p.1);
      } else if last.Exit? {
        StepExit(cfg, e, lineOf, minLen, minLine, front, last, acc, p.1);
      } else if cfg.cacheSim {
        StepData(cfg, e, lineOf, minLen, minLine, front, last, acc, p.1);
      } else {
        StepUnsimulated(cfg, e, lineOf, minLen, minLine, front, last, acc, p.1);
      }
      StreamMore(cfg, p.0, ys);
    }
  }

  lemma FinalRefers<P>(cfg: Config, e: Env<P>, lineOf: nat -> nat, minLen: nat, minLine: nat,
                       stmts: seq<Stmt>, next: Next)
    requires stmts != [] && stmts[0].IMark?
    requires BlockItems(lineOf, minLen, minLine, stmts).1 == Current(lineOf, minLen, stmts)
    ensures
      var acc := Stream(cfg, BlockItems(lineOf, minLen, minLine, stmts).0);
      Continues(cfg, e, acc, Stream(cfg, InstrumentItems(lineOf, minLen, minLine, stmts, next)), [],
                FinalJump(cfg, e, lineOf, minLen, stmts, next))
  {
    hide Entries, Jumps, Stream, BlockItems, Current;
    var r := BlockItems(lineOf, minLen, minLine, stmts);
    var acc := Stream(cfg, r.0);
    ContinuesNot(cfg, e, acc);
    match next
    case Known => assert r.0 + [] == r.0;
    case Computed(dst) =>
      StreamSnoc(cfg, r.0, AddBi(r.1, dst));
      OneEvent(cfg, e, acc, Ind(r.1, dst));
  }

  /** The counters, caches and predictors at the end of a superblock, from its statements:
      the end-to-end meaning of instrumentation. */
  lemma BlockBooked<P>(cfg: Config, e: Env<P>, m: Machine<P>, lineOf: nat -> nat, minLen: nat, minLine: nat,
                       stmts: seq<Stmt>, next: Next)
    requires Fits(cfg, m) && stmts != [] && stmts[0].IMark?
    requires RunSingles(cfg, e, m, Stream(cfg, InstrumentItems(lineOf, minLen, minLine, stmts, next))).Ok?
    ensures
      Booked(e, m, RunSingles(cfg, e, m, Stream(cfg, InstrumentItems(lineOf, minLen, minLine, stmts, next))).m,
             StmtEntries(cfg, e, lineOf, minLen, minLine, stmts),
             StmtJumps(cfg, e, lineOf, minLen, stmts) + FinalJump(cfg, e, lineOf, minLen, stmts, next))
  {
    hide Fits, Booked, RunSingles, Stream, Entries, Jumps, BlockItems, Current, EndsAs, StmtEntries, StmtJumps;
    hide InstrumentItems, FinalJump, OpenRead;
    BlockRefers(cfg, e, lineOf, minLen, minLine, stmts);
    FinalRefers(cfg, e, lineOf, minLen, minLine, stmts, next);
    var es := StmtEntries(cfg, e, lineOf, minLen, minLine, stmts);
    assert es + [] == es;
    StreamBooked(cfg, e, m, Stream(cfg, InstrumentItems(lineOf, minLen, minLine, stmts, next)));
  }

  // --------------------------------------------------------------- side exits

  lemma {:induction false} SomeItem(lineOf: nat -> nat, minLen: nat, minLine: nat, stmts: seq<Stmt>)
    requires stmts != [] && stmts[0].IMark?
    ensures |BlockItems(lineOf, minLen, minLine, stmts).0| > 0
    decreases |stmts|
  {
    hide ItemsOf;
    if |stmts| > 1 {
      SomeItem(lineOf, minLen, minLine, stmts[..|stmts| - 1]);
    }
  }

  /** The items of a block start with those of its first statements. */
  lemma {:induction false} BlockPrefix(lineOf: nat -> nat, minLen: nat, minLine: nat, stmts: seq<Stmt>, j: nat)
    requires stmts != [] && stmts[0].IMark? && 0 < j <= |stmts|
    ensures BlockItems(lineOf, minLen, minLine, stmts[..j]).0 <= BlockItems(lineOf, minLen, minLine, stmts).0
    decreases |stmts|
  {
    hide ItemsOf;
    if j == |stmts| {
      assert stmts[..j] == stmts;
    } else {
      var front := stmts[..|stmts| - 1];
      assert front[..j] == stmts[..j];
      BlockPrefix(lineOf, minLen, minLine, front, j);
    }
  }

  lemma LastItem(lineOf: nat -> nat, minLen: nat, minLine: nat, stmts: seq<Stmt>)
    requires stmts != [] && stmts[0].IMark? && (stmts[|stmts| - 1].Exit? || stmts[|stmts| - 1].LoadLinked?)
    ensures
      var xs := BlockItems(lineOf, minLen, minLine, stmts).0;
      xs != [] && xs[|xs| - 1].Flush?
  {
  }

  /** Every exit and every load-linked is a flush point: the items up to it are those of
      the statements up to it, and the last of them is a flush. */
  lemma FlushPoint(lineOf: nat -> nat, minLen: nat, minLine: nat, stmts: seq<Stmt>, next: Next, j: nat) returns (i: nat)
    requires stmts != [] && stmts[0].IMark? && j < |stmts| && (stmts[j].Exit? || stmts[j].LoadLinked?)
    ensures i < |InstrumentItems(lineOf, minLen, minLine, stmts, next)|
    ensures
      var xs := InstrumentItems(lineOf, minLen, minLine, stmts, next);
      && xs[i].Flush? && xs[..i + 1] == BlockItems(lineOf, minLen, minLine, stmts[..j + 1]).0
      && i == |BlockItems(lineOf, minLen, minLine, stmts[..j + 1]).0| - 1
  {
    hide BlockItems;
    BlockPrefix(lineOf, minLen, minLine, stmts, j + 1);
    LastItem(lineOf, minLen, minLine, stmts[..j + 1]);
    i := |BlockItems(lineOf, minLen, minLine, stmts[..j + 1]).0| - 1;
  }

  /** What the statements up to j do by the time the block can be left there. */
  lemma ExitBooked<P>(cfg: Config, e: Env<P>, m: Machine<P>, lineOf: nat -> nat, minLen: nat, minLine: nat,
                      stmts: seq<Stmt>, j: nat)
    requires Fits(cfg, m) && stmts != [] && stmts[0].IMark? && j < |stmts|
    requires RunSingles(cfg, e, m, Stream(cfg, BlockItems(lineOf, minLen, minLine, stmts[..j + 1]).0)).Ok?
    ensures
      Booked(e, m, RunSingles(cfg, e, m, Stream(cfg, BlockItems(lineOf, minLen, minLine, stmts[..j + 1]).0)).m,
             StmtEntries(cfg, e, lineOf, minLen, minLine, stmts[..j + 1]),
             StmtJumps(cfg, e, lineOf, minLen, stmts[..j + 1]))
  {
    hide Fits, Booked, RunSingles, Stream, Entries, Jumps, BlockItems, Current, EndsAs;
    hide StmtEntries, StmtJumps, OpenRead;
    BlockRefers(cfg, e, lineOf, minLen, minLine, stmts[..j + 1]);
    StreamBooked(cfg, e, m, Stream(cfg, BlockItems(lineOf, minLen, minLine, stmts[..j + 1]).0));
  }

  // ------------------------------------------------------ statements counted

  /** The statements of each kind on a source line: instructions, reads, writes that are
      not merged, branching exits. */
  function StmtTally<P>(cfg: Config, e: Env<P>, lineOf: nat -> nat, minLen: nat, minLine: nat,
                        stmts: seq<Stmt>, line: nat): Tally
  {
    if stmts == [] then Tally(0, 0, 0, 0, 0)
    else
      var front, s := stmts[..|stmts| - 1], stmts[|stmts| - 1];
      var t := StmtTally(cfg, e, lineOf, minLen, minLine, front, line);
      var here := Current(lineOf, minLen, front).parent == line;
      Tally(t.ir + One(s.IMark? && lineOf(s.addr) == line),
            t.dr + One(cfg.cacheSim && here && Reads(e, s)),
            t.dw + One(cfg.cacheSim && here && Writes(e, minLine, front, s)),
            t.bc + One(cfg.branchSim && here && s.Exit? && s.isBranch),
            0)
  }

  lemma AccessSnoc(i1: Cache, d1: Cache, ll: Cache, es: seq<Entry>, xs: seq<Entry>, col: Column, line: nat)
    requires WellFormed(i1) && WellFormed(d1) && WellFormed(ll) && |xs| <= 1
    ensures Cell(i1, d1, ll, es + xs, col, line).a ==
      Cell(i1, d1, ll, es, col, line).a + One(|xs| == 1 && xs[0].col == col && xs[0].line == line)
  {
    hide WellFormed, FirstMiss, LastMiss;
    if |xs| == 0 {
      assert es + xs == es;
    } else {
      assert xs == [xs[0]];
      CellSnoc(i1, d1, ll, es, xs[0], col, line);
    }
  }

  lemma BranchSnoc<P>(e: Env<P>, p: P, js: seq<Jump>, ys: seq<Jump>, indirect: bool, line: nat)
    requires |ys| <= 1
    ensures BranchCell(e, p, js + ys, indirect, line).b ==
      BranchCell(e, p, js, indirect, line).b + One(|ys| == 1 && ys[0].indirect == indirect && ys[0].line == line)
  {
    if |ys| == 0 {
      assert js + ys == js;
    } else {
      assert ys == [ys[0]];
      BranchCellSnoc(e, p, js, ys[0], indirect, line);
    }
  }

  /** What one statement adds to each column. */
  lemma EntryCounts<P>(cfg: Config, e: Env<P>, lineOf: nat -> nat, minLen: nat, minLine: nat, front: seq<Stmt>, s: Stmt,
                       line: nat)
    ensures
      var xs, n := StmtEntry(cfg, e, lineOf, minLen, minLine, front, s), Current(lineOf, minLen, front);
      && |xs| <= 1
      && (|xs| == 1 && xs[0].col == IrCol && xs[0].line == line <==> s.IMark? && lineOf(s.addr) == line)
      && (|xs| == 1 && xs[0].col == DrCol && xs[0].line == line <==> cfg.cacheSim && n.parent == line && Reads(e, s))
      && (|xs| == 1 && xs[0].col == DwCol && xs[0].line == line <==>
            cfg.cacheSim && n.parent == line && Writes(e, minLine, front, s))
  {
    hide Current, OpenRead;
  }

  lemma JumpCounts<P>(cfg: Config, e: Env<P>, lineOf: nat -> nat, minLen: nat, front: seq<Stmt>, s: Stmt, line: nat)
    ensures
      var ys, n := StmtJump(cfg, e, lineOf, minLen, front, s), Current(lineOf, minLen, front);
      && |ys| <= 1 && (|ys| == 1 ==> !ys[0].indirect)
      && (|ys| == 1 && ys[0].line == line <==> cfg.branchSim && n.parent == line && s.Exit? && s.isBranch)
  {
    hide Current;
  }

  lemma NothingCounted<P>(e: Env<P>, m: Machine<P>, line: nat)
    requires WellFormed(m.i1) && WellFormed(m.d1) && WellFormed(m.ll)
    ensures forall col: Column :: Cell(m.i1, m.d1, m.ll, [], col, line) == CacheCC(0, 0, 0)
    ensures forall indirect: bool :: BranchCell(e, m.pred, [], indirect, line) == BranchCC(0, 0)
  {
    hide WellFormed;
  }

  /** Every statement is counted once, by its kind, on its source line and no other. */
  lemma {:induction false} StatementsCounted<P>(cfg: Config, e: Env<P>, m: Machine<P>, lineOf: nat -> nat, minLen: nat,
                                                minLine: nat, stmts: seq<Stmt>, line: nat)
    requires WellFormed(m.i1) && WellFormed(m.d1) && WellFormed(m.ll)
    ensures
      var es := StmtEntries(cfg, e, lineOf, minLen, minLine, stmts);
      var js := StmtJumps(cfg, e, lineOf, minLen, stmts);
      StmtTally(cfg, e, lineOf, minLen, minLine, stmts, line) ==
        Tally(Cell(m.i1, m.d1, m.ll, es, IrCol, line).a, Cell(m.i1, m.d1, m.ll, es, DrCol, line).a,
              Cell(m.i1, m.d1, m.ll, es, DwCol, line).a, BranchCell(e, m.pred, js, false, line).b,
              BranchCell(e, m.pred, js, true, line).b)
  {
    hide WellFormed, StmtEntry, StmtJump, Reads, Writes, Current, Cell, BranchCell;
    if stmts == [] {
      NothingCounted(e, m, line);
    } else {
      var front, s := stmts[..|stmts| - 1], stmts[|stmts| - 1];
      StatementsCounted(cfg, e, m, lineOf, minLen, minLine, front, line);
      EntryCounts(cfg, e, lineOf, minLen, minLine, front, s, line);
      JumpCounts(cfg, e, lineOf, minLen, front, s, line);
      var es := StmtEntries(cfg, e, lineOf, minLen, minLine, front);
      var xs := StmtEntry(cfg, e, lineOf, minLen, minLine, front, s);
      var js, ys := StmtJumps(cfg, e, lineOf, minLen, front), StmtJump(cfg, e, lineOf, minLen, front, s);
      AccessSnoc(m.i1, m.d1, m.ll, es, xs, IrCol, line);
      AccessSnoc(m.i1, m.d1, m.ll, es, xs, DrCol, line);
      AccessSnoc(m.i1, m.d1, m.ll, es, xs, DwCol, line);
      BranchSnoc(e, m.pred, js, ys, false, line);
      BranchSnoc(e, m.pred, js, ys, true, line);
    }
  }
}
