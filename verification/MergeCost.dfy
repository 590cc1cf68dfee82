/** What it costs to merge a write into the read in front of it: the write that is
    left out would have hit and moved nothing, so that only its own access is not
    counted. */
module MergeCost {
  import opened Bits
  import opened Lists
  import opened CacheSpec
  import opened QueueSpec

  // ----------------------------------------------- a reference made once again

  /** More than one line in all. */
  predicate ManyLines(c: Cache) {
    c.assoc >= 2 || c.setBits >= 1
  }

  /** check_cache demands it of every cache, as a size above the line size. */
  lemma CheckedCache(c: Cache)
    requires c.assoc > 0
    ensures ManyLines(c) <==> Pow2(c.setBits) * c.assoc * Pow2(c.lineBits) > Pow2(c.lineBits)
  {
    var lines, size := Pow2(c.setBits) * c.assoc, Pow2(c.lineBits);
    if ManyLines(c) {
      if c.setBits >= 1 {
        assert Pow2(c.setBits) * c.assoc == c.assoc * (Pow2(c.setBits) - 1) + c.assoc;
      }
      MulGap(1, lines, size);
    } else {
      assert lines == 1;
    }
  }

  predicate Straddles(c: Cache, a: nat, size: nat) {
    FirstBlock(c.lineBits, a) != LastBlock(c.lineBits, a, size)
  }

  lemma TouchFront(s: seq<nat>, t: nat)
    requires s != [] && s[0] == t
    ensures Touch(s, t) == s
  {
    TouchHit(s, 0);
    assert [s[0]] + s[..0] + s[1..] == s;
  }

  lemma TouchSecond(s: seq<nat>, t: nat)
    requires |s| >= 2 && s[1] == t != s[0]
    ensures Touch(s, t) == [t, s[0]] + s[2..]
  {
    TouchHit(s, 1);
    assert [s[1]] + s[..1] + s[2..] == [t, s[0]] + s[2..];
  }

  lemma FrontPushed(s: seq<nat>, u: nat)
    requires |s| >= 2 && s[0] != u
    ensures Touch(s, u)[1] == s[0]
  {
    WithoutLen(s[1..], u);
    assert Without(s, u) == [s[0]] + Without(s[1..], u);
  }

  /** The two most recent tags, touched again in the same order, stay as they are. */
  lemma TouchTwice(s: seq<nat>, t: nat, u: nat)
    requires |s| >= 2 && t != u
    ensures
      var r := Touch(Touch(s, t), u);
      t in r && u in Touch(r, t) && Touch(Touch(r, t), u) == r
  {
    hide Touch;
    var r := Touch(Touch(s, t), u);
    FrontPushed(Touch(s, t), u);
    assert r[0] == u && r[1] == t;
    TouchSecond(r, t);
    var q := Touch(r, t);
    assert q[0] == t && q[1] == u && q[2..] == r[2..];
    TouchSecond(q, u);
    assert r == [u, t] + r[2..];
  }

  lemma SetRefAgain(c: Cache, b: nat)
    requires WellFormed(c)
    ensures !Misses(SetRef(c, b), b) && SetRef(SetRef(c, b), b) == SetRef(c, b)
  {
    var i := SetIndex(c.setBits, b);
    var d := SetRef(c, b);
    TouchFront(d.sets[i], b);
    assert d.sets[i := d.sets[i]] == d.sets;
  }

  lemma {:induction false} EvenMultiple(h: nat, d: nat)
    requires d % 2 == 0
    ensures (h * d) % 2 == 0
  {
    if h > 0 {
      EvenMultiple(h - 1, d);
      assert h * d == (h - 1) * d + d;
    }
  }

  /** The remainder modulo an even number keeps the parity. */
  lemma SameParity(x: nat, d: nat, h: nat, r: nat)
    requires d % 2 == 0 && x == h * d + r
    ensures r % 2 == x % 2
  {
    EvenMultiple(h, d);
    var y := h * d;
    assert x == y + r && y % 2 == 0;
  }

  lemma DivMod(x: nat, d: nat) returns (h: nat, r: nat)
    requires d > 0
    ensures x == h * d + r && r == x % d
  {
    h, r := x / d, x % d;
  }

  lemma ModParity(x: nat, k: nat)
    requires k > 0
    ensures x % Pow2(k) % 2 == x % 2
  {
    hide Pow2;
    PowStep(k);
    var h, r := DivMod(x, Pow2(k));
    SameParity(x, Pow2(k), h, r);
  }

  /** Neighbouring blocks fall into different sets, if there are two. */
  lemma NeighbourSets(setBits: nat, b: nat)
    requires setBits > 0
    ensures SetIndex(setBits, b) != SetIndex(setBits, Wrap(b + 1))
  {
    hide Pow2;
    ModParity(b, setBits);
    ModParity(Wrap(b + 1), setBits);
  }

  lemma BothInOneSet(c: Cache, t: nat, u: nat)
    requires WellFormed(c) && c.assoc >= 2 && t != u && SetIndex(c.setBits, t) == SetIndex(c.setBits, u)
    ensures
      var d := SetRef(SetRef(c, t), u);
      !Misses(d, t) && !Misses(SetRef(d, t), u) && SetRef(SetRef(d, t), u) == d
  {
    hide Touch, SetIndex;
    var i := SetIndex(c.setBits, t);
    TouchTwice(c.sets[i], t, u);
    var d := SetRef(SetRef(c, t), u);
    assert SetRef(SetRef(d, t), u).sets == d.sets;
  }

  lemma BothInTwoSets(c: Cache, t: nat, u: nat)
    requires WellFormed(c) && SetIndex(c.setBits, t) != SetIndex(c.setBits, u)
    ensures
      var d := SetRef(SetRef(c, t), u);
      !Misses(d, t) && !Misses(SetRef(d, t), u) && SetRef(SetRef(d, t), u) == d
  {
    hide Touch, SetIndex;
    var i, j := SetIndex(c.setBits, t), SetIndex(c.setBits, u);
    var d := SetRef(SetRef(c, t), u);
    TouchFront(d.sets[i], t);
    TouchFront(d.sets[j], u);
    assert SetRef(SetRef(d, t), u).sets == d.sets;
  }

  lemma OnlyLine(c: Cache, t: nat, u: nat)
    requires WellFormed(c) && c.assoc == 1 && c.setBits == 0 && t != u
    ensures Misses(SetRef(SetRef(c, t), u), t)
  {
    assert Pow2(0) == 1;
  }

  lemma OneSet(c: Cache, t: nat, u: nat)
    requires c.setBits == 0
    ensures SetIndex(c.setBits, t) == SetIndex(c.setBits, u)
  {
    assert Pow2(0) == 1;
  }

  lemma HasWays(c: Cache)
    requires WellFormed(c)
    ensures c.assoc > 0
  {
  }

  /** Making the same reference again hits and changes nothing, exactly if the cache
      has more than one line or the reference lies within a line. */
  lemma AgainExactly(c: Cache, a: nat, size: nat)
    requires WellFormed(c) && RefIsMiss(c, a, size).Ref?
    ensures
      var d := RefIsMiss(c, a, size).cache;
      RefIsMiss(d, a, size) == Ref(d, false) <==> ManyLines(c) || !Straddles(c, a, size)
  {
    hide WellFormed, SetRef, Misses, SetIndex;
    var t, u := FirstBlock(c.lineBits, a), LastBlock(c.lineBits, a, size);
    if t == u {
      SetRefAgain(c, t);
    } else if c.setBits > 0 {
      NeighbourSets(c.setBits, t);
      BothInTwoSets(c, t, u);
    } else {
      OneSet(c, t, u);
      if c.assoc >= 2 {
        BothInOneSet(c, t, u);
      } else {
        HasWays(c);
        OnlyLine(c, t, u);
      }
    }
  }

  // --------------------------------------------------------------- one merge

  /** The machine with one more data write on a line, and no misses. */
  function OneMoreWrite<P>(m: Machine<P>, line: nat): Machine<P> {
    m.(cc := CountDw(m.cc, line, 0, 0))
  }

  /** A write right behind the read of the same place adds its own access to the
      counters of its line, and changes nothing else. */
  lemma WriteBehindRead<P>(cfg: Config, e: Env<P>, m: Machine<P>, n: Inode, ea: Atom, size: nat)
    requires Fits(cfg, m) && ManyLines(m.d1) && RunSingle(cfg, e, m, Read(n, ea, size)).Ok?
    ensures
      var r := RunSingle(cfg, e, m, Read(n, ea, size)).m;
      RunSingle(cfg, e, r, Write(n, ea, size)) == Ok(OneMoreWrite(r, n.parent))
  {
    hide WellFormed, RefIsMiss, CountDr, CountDw, ManyLines, Narrow;
    AgainExactly(m.d1, e.addr(ea), Narrow(size));
  }

  // ---------------------------------------------------------- whole streams

  function Unmerged(s: Single): seq<Single> {
    match s
    case Modify(n, ea, size) => [Read(n, ea, size), Write(n, ea, size)]
    case s => [s]
  }

  /** The stream without merging: every modify is a read and a write again. */
  function Unmerge(ss: seq<Single>): seq<Single> {
    if ss == [] then []
    else Unmerge(ss[..|ss| - 1]) + Unmerged(ss[|ss| - 1])
  }

  /** Append without the merge. */
  function AppendPlain(cfg: Config, acc: seq<Single>, x: Item): seq<Single> {
    if x.AddDw? && cfg.cacheSim then acc + [Write(x.n, x.ea, x.size)] else Append(cfg, acc, x)
  }

  /** The event stream that cg_instrument would cause if it never merged. */
  function PlainStream(cfg: Config, xs: seq<Item>): seq<Single> {
    if xs == [] then [] else AppendPlain(cfg, PlainStream(cfg, xs[..|xs| - 1]), xs[|xs| - 1])
  }

  lemma UnmergeSnoc(ss: seq<Single>, s: Single)
    ensures Unmerge(ss + [s]) == Unmerge(ss) + Unmerged(s)
  {
    assert (ss + [s])[..|ss|] == ss;
  }

  lemma UnmergeAppend(cfg: Config, acc: seq<Single>, x: Item)
    ensures Unmerge(Append(cfg, acc, x)) == AppendPlain(cfg, Unmerge(acc), x)
  {
    hide Unmerge;
    match x
    case AddDw(n, size, ea) =>
      if cfg.cacheSim && acc != [] && acc[|acc| - 1] == Read(n, ea, size) {
        var front := acc[..|acc| - 1];
        assert acc == front + [Read(n, ea, size)];
        UnmergeSnoc(front, Read(n, ea, size));
        UnmergeSnoc(front, Modify(n, ea, size));
      } else {
        UnmergeSnoc(acc, Write(n, ea, size));
      }
    case AddIr(n) => UnmergeSnoc(acc, Ir(n));
    case AddDr(n, size, ea) => UnmergeSnoc(acc, Read(n, ea, size));
    case AddGuarded(n, size, ea, guard, isWrite) => UnmergeSnoc(acc, Guarded(n, ea, size, guard, isWrite));
    case AddBc(n, taken) => UnmergeSnoc(acc, Cond(n, taken));
    case AddBi(n, dst) => UnmergeSnoc(acc, Ind(n, dst));
    case Flush => UnmergeSnoc(acc, Barrier);
  }

  /** Unmerging what the queue merges gives the plain stream. */
  lemma {:induction false} UnmergeIsPlain(cfg: Config, xs: seq<Item>)
    ensures Unmerge(Stream(cfg, xs)) == PlainStream(cfg, xs)
  {
    if xs != [] {
      hide Unmerge;
      var x := xs[|xs| - 1];
      UnmergeIsPlain(cfg, xs[..|xs| - 1]);
      UnmergeAppend(cfg, Stream(cfg, xs[..|xs| - 1]), x);
    } else {
      assert Unmerge([]) == [];
    }
  }

  function MergedHere(s: Single, line: nat): nat {
    if s.Modify? && s.n.parent == line then 1 else 0
  }

  /** The modifies of a stream on a source line. */
  function Merges(ss: seq<Single>, line: nat): nat {
    if ss == [] then 0 else Merges(ss[..|ss| - 1], line) + MergedHere(ss[|ss| - 1], line)
  }

  /** The counters with k more data writes that all hit. */
  function MoreWrites(c: LineCC, k: nat): LineCC {
    c.(dw := CacheCC(c.dw.a + k, c.dw.m1, c.dw.mL))
  }

  /** r is m except that on the source line it has counted k more data writes. */
  ghost predicate Ahead<P>(m: Machine<P>, r: Machine<P>, line: nat, k: nat) {
    && m.i1 == r.i1 && m.d1 == r.d1 && m.ll == r.ll && m.pred == r.pred
    && Counters(r.cc, line) == MoreWrites(Counters(m.cc, line), k)
  }

  ghost predicate AheadResult<P>(x: Result<P>, y: Result<P>, line: nat, k: nat) {
    (x.Panicked? <==> y.Panicked?) && (x.Ok? ==> Ahead(x.m, y.m, line, k))
  }

  lemma FetchAhead<P>(m: Machine<P>, r: Machine<P>, n: Inode, line: nat, k: nat)
    requires WellFormed(m.i1) && WellFormed(m.ll) && Ahead(m, r, line, k)
    ensures AheadResult(IrGenRef(m, n), IrGenRef(r, n), line, k)
  {
    hide WellFormed, Doref;
  }

  lemma DataAhead<P>(m: Machine<P>, r: Machine<P>, n: Inode, a: nat, size: nat, isWrite: bool, line: nat, k: nat)
    requires WellFormed(m.d1) && WellFormed(m.ll) && Ahead(m, r, line, k)
    ensures AheadResult(DataRef(m, n, a, size, isWrite), DataRef(r, n, a, size, isWrite), line, k)
  {
    hide WellFormed, Doref;
  }

  lemma BranchAhead<P>(e: Env<P>, m: Machine<P>, r: Machine<P>, n: Inode, x: Atom, line: nat, k: nat)
    requires Ahead(m, r, line, k)
    ensures AheadResult(CondBranch(e, m, n, x), CondBranch(e, r, n, x), line, k)
    ensures AheadResult(IndBranch(e, m, n, x), IndBranch(e, r, n, x), line, k)
  {
  }

  lemma CountAhead<P>(m: Machine<P>, r: Machine<P>, n: Inode, line: nat, k: nat)
    requires Ahead(m, r, line, k)
    ensures Ahead(CountOnly(m, n), CountOnly(r, n), line, k)
  {
  }

  /** One event keeps the distance. */
  lemma SingleAhead<P>(cfg: Config, e: Env<P>, m: Machine<P>, r: Machine<P>, s: Single, line: nat, k: nat)
    requires Fits(cfg, m) && Fits(cfg, r) && Ahead(m, r, line, k)
    ensures AheadResult(RunSingle(cfg, e, m, s), RunSingle(cfg, e, r, s), line, k)
  {
    hide WellFormed, IrGenRef, DataRef, CondBranch, IndBranch, Ahead;
    match s
    case Ir(n) =>
      if cfg.cacheSim {
        FetchAhead(m, r, n, line, k);
      } else {
        CountAhead(m, r, n, line, k);
      }
    case Read(n, ea, size) => DataAhead(m, r, n, e.addr(ea), size, false, line, k);
    case Write(n, ea, size) => DataAhead(m, r, n, e.addr(ea), size, true, line, k);
    case Modify(n, ea, size) => DataAhead(m, r, n, e.addr(ea), size, false, line, k);
    case Guarded(n, ea, size, guard, isWrite) => DataAhead(m, r, n, e.addr(ea), size, isWrite, line, k);
    case Cond(n, taken) => BranchAhead(e, m, r, n, taken, line, k);
    case Ind(n, dst) => BranchAhead(e, m, r, n, dst, line, k);
    case Barrier =>
  }

  lemma DorefKeepsWays(l1: Cache, ll: Cache, a: nat, size: nat)
    requires WellFormed(l1) && WellFormed(ll) && Doref(l1, ll, a, size).Done?
    ensures ManyLines(Doref(l1, ll, a, size).l1) == ManyLines(l1)
  {
    hide WellFormed, RefIsMiss;
  }

  lemma DataKeepsWays<P>(m: Machine<P>, a: nat, size: nat)
    requires WellFormed(m.d1) && WellFormed(m.ll)
    ensures
      var r := Doref(m.d1, m.ll, a, Narrow(size));
      r.Done? ==> ManyLines(r.l1) == ManyLines(m.d1)
  {
    hide WellFormed, Doref, ManyLines;
    if Doref(m.d1, m.ll, a, Narrow(size)).Done? {
      DorefKeepsWays(m.d1, m.ll, a, Narrow(size));
    }
  }

  lemma SingleKeepsWays<P>(cfg: Config, e: Env<P>, m: Machine<P>, s: Single)
    requires Fits(cfg, m) && RunSingle(cfg, e, m, s).Ok?
    ensures ManyLines(RunSingle(cfg, e, m, s).m.d1) == ManyLines(m.d1)
  {
    hide WellFormed, Doref, ManyLines, CountDr, CountDw, CountIr, Narrow;
    match s
    case Read(_, ea, size) => DataKeepsWays(m, e.addr(ea), size);
    case Write(_, ea, size) => DataKeepsWays(m, e.addr(ea), size);
    case Modify(_, ea, size) => DataKeepsWays(m, e.addr(ea), size);
    case Guarded(_, ea, size, _, _) => DataKeepsWays(m, e.addr(ea), size);
    case _ =>
  }

  lemma OneMoreAhead<P>(m: Machine<P>, r: Machine<P>, parent: nat, line: nat, k: nat)
    requires Ahead(m, r, line, k)
    ensures Ahead(m, OneMoreWrite(r, parent), line, k + if parent == line then 1 else 0)
  {
  }

  lemma SameD1<P>(m: Machine<P>, r: Machine<P>, line: nat, k: nat)
    requires Ahead(m, r, line, k)
    ensures m.d1 == r.d1
  {
  }

  lemma ReadOfModify<P>(cfg: Config, e: Env<P>, m: Machine<P>, s: Single)
    requires Fits(cfg, m) && s.Modify?
    ensures RunSingle(cfg, e, m, s) == RunSingle(cfg, e, m, Read(s.n, s.ea, s.size))
  {
  }

  /** One event, and what it is without merging. */
  lemma UnmergedAhead<P>(cfg: Config, e: Env<P>, m: Machine<P>, r: Machine<P>, s: Single, line: nat, k: nat)
    requires Fits(cfg, m) && Fits(cfg, r) && Ahead(m, r, line, k) && ManyLines(m.d1)
    ensures AheadResult(RunSingle(cfg, e, m, s), RunSingles(cfg, e, r, Unmerged(s)), line, k + MergedHere(s, line))
  {
    hide Fits, RunSingles, ManyLines, OneMoreWrite;
    SingleAhead(cfg, e, m, r, s, line, k);
    if s.Modify? {
      hide RunSingle, Ahead;
      ReadOfModify(cfg, e, r, s);
      RunTwo(cfg, e, r, Read(s.n, s.ea, s.size), Write(s.n, s.ea, s.size));
      var x := RunSingle(cfg, e, m, s);
      if x.Ok? {
        SameD1(m, r, line, k);
        WriteBehindRead(cfg, e, r, s.n, s.ea, s.size);
        OneMoreAhead(x.m, RunSingle(cfg, e, r, s).m, s.n.parent, line, k);
      }
    } else {
      RunOne(cfg, e, r, s);
    }
  }

  lemma AheadSelf<P>(m: Machine<P>, line: nat)
    ensures Ahead(m, m, line, 0)
  {
  }

  /** What merging costs over a whole stream: the caches, the predictors and all misses
      end the same, and each source line is short of one data write for every modify. */
  lemma {:induction false} MergingCosts<P>(cfg: Config, e: Env<P>, m: Machine<P>, ss: seq<Single>, line: nat)
    requires Fits(cfg, m) && ManyLines(m.d1)
    ensures AheadResult(RunSingles(cfg, e, m, ss), RunSingles(cfg, e, m, Unmerge(ss)), line, Merges(ss, line))
    ensures RunSingles(cfg, e, m, ss).Ok? ==> ManyLines(RunSingles(cfg, e, m, ss).m.d1)
    decreases |ss|
  {
    hide Fits, Ahead, ManyLines, RunSingle, Unmerged, MergedHere;
    if ss == [] {
      AheadSelf(m, line);
    } else {
      var front, last := ss[..|ss| - 1], ss[|ss| - 1];
      assert ss == front + [last];
      MergingCosts(cfg, e, m, front, line);
      RunConcat(cfg, e, m, front, [last]);
      RunConcat(cfg, e, m, Unmerge(front), Unmerged(last));
      var x, y := RunSingles(cfg, e, m, front), RunSingles(cfg, e, m, Unmerge(front));
      if x.Ok? {
        RunOne(cfg, e, x.m, last);
        UnmergedAhead(cfg, e, x.m, y.m, last, line, Merges(front, line));
        if RunSingle(cfg, e, x.m, last).Ok? {
          SingleKeepsWays(cfg, e, x.m, last);
        }
      }
    }
  }

  /** The same for the events of instrumentation: merging leaves caches, predictors and
      misses as handling the read and the write separately does. */
  lemma MergedAgainstPlain<P>(cfg: Config, e: Env<P>, m: Machine<P>, xs: seq<Item>, line: nat)
    requires Fits(cfg, m) && ManyLines(m.d1)
    ensures AheadResult(RunSingles(cfg, e, m, Stream(cfg, xs)), RunSingles(cfg, e, m, PlainStream(cfg, xs)),
                        line, Merges(Stream(cfg, xs), line))
  {
    hide Fits, ManyLines, AheadResult, RunSingles, Merges, Stream, PlainStream;
    MergingCosts(cfg, e, m, Stream(cfg, xs), line);
    UnmergeIsPlain(cfg, xs);
  }
}
