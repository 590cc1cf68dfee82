/** When the cache simulation panics on an item that straddles more than two lines,
    and when the checks made at start and at instrumentation time prevent that. */
module NoPanic {
  import opened Bits
  import opened CacheSpec
  import opened QueueSpec
  import opened CacheQueue

  /** The number of addresses. */
  const SPAN: nat := 0x1_0000_0000_0000_0000

  // -------------------------------------------------------------- arithmetic

  lemma SpanIs(k: nat)
    requires k <= 64
    ensures Pow2(k) * Pow2(64 - k) == SPAN
  {
    hide Pow2;
    Pow16();
    PowSum(16, 16);
    PowSum(32, 32);
    PowSum(k, 64 - k);
  }

  lemma {:induction false} PowMono(k: nat, m: nat)
    requires k <= m
    ensures Pow2(k) <= Pow2(m)
    decreases m
  {
    if k < m {
      PowMono(k, m - 1);
    }
  }

  lemma SmallPowers()
    ensures Pow2(1) == 2 && Pow2(31) == 0x8000_0000 && Pow2(33) > 2
  {
    assert Pow2(31) == 2 * Pow2(30) && Pow2(32) == 2 * Pow2(31) && Pow2(33) == 2 * Pow2(32);
    Pow16();
    PowSum(16, 16);
  }

  /** A line is at least two bytes and at most 2^31. */
  lemma LineBounds(k: nat)
    requires 0 < k < 32
    ensures 2 <= Pow2(k) <= 0x8000_0000 && Pow2(64 - k) > 2
  {
    hide Pow2;
    SpanIs(33);
    SpanIs(31);
    SmallPowers();
    PowMono(1, k);
    PowMono(k, 31);
    PowMono(33, 64 - k);
  }

  /** Quotients of addresses that are `far` whole lines apart. */
  lemma FarApart(d: nat, x: nat, y: nat, far: nat)
    requires d > 0 && x + far * d <= y
    ensures x / d + far <= y / d
  {
    var p, q := x / d, y / d;
    assert (p + far) * d == p * d + far * d;
    if q < p + far {
      MulGap(q, p + far, d);
      assert false;
    }
  }

  /** The last byte of an item lies in the line of the first, in the next one, or
      further on. */
  lemma LastLine(d: nat, a: nat, size: nat)
    requires d > 0 && size >= 1
    ensures a / d <= (a + size - 1) / d
    ensures (a + size - 1) / d <= a / d + 1 <==> a % d + size <= 2 * d
  {
    var q, r, e := a / d, a % d, a + size - 1;
    assert a == q * d + r;
    if r + size <= d {
      DivUnique(e, d, q);
    } else if r + size <= 2 * d {
      assert (q + 1) * d == q * d + d;
      DivUnique(e, d, q + 1);
    } else {
      assert (q + 2) * d == q * d + 2 * d;
      assert (q * d) / d == q by { DivUnique(q * d, d, q); }
      FarApart(d, q * d, e, 2);
    }
  }

  /** The place of an address in a line twice as long. */
  lemma NextMod(d: nat, a: nat)
    requires d > 0
    ensures a % (2 * d) == a % d || a % (2 * d) == a % d + d
  {
    var q, r := a / d, a % d;
    var h := q / 2;
    assert a == q * d + r;
    if q % 2 == 0 {
      assert h * (2 * d) == (2 * h) * d;
    } else {
      assert h * (2 * d) + d == (2 * h + 1) * d;
    }
    DivUnique(a, 2 * d, h);
  }

  lemma WrapInside(x: nat)
    ensures x < SPAN ==> Wrap(x) == x
    ensures SPAN <= x < 2 * SPAN ==> Wrap(x) == x - SPAN
  {
  }

  /** The last block of the address space. */
  lemma LastOfSpan(k: nat, a: nat)
    requires 0 < k < 32 && SPAN - Pow2(k) <= a < SPAN
    ensures Shr(a, k) == Pow2(64 - k) - 1
  {
    hide Pow2, Shr;
    SpanIs(k);
    ShrIsDiv(a, k);
    var d, e := Pow2(k), Pow2(64 - k);
    assert (e - 1) * d == SPAN - d;
    DivUnique(a, d, e - 1);
  }

  /** A block number has room for its successor. */
  lemma BlockBelow(k: nat, x: nat)
    requires 0 < k < 32 && x < SPAN
    ensures Shr(x, k) + 1 < SPAN
  {
    hide Pow2, Shr;
    ShrIsDiv(x, k);
    LineBounds(k);
    var d, q := Pow2(k), Shr(x, k);
    assert q * d == 2 * q + q * (d - 2);
  }

  // ----------------------------------------------------------- one reference

  /** A reference of `size` bytes, as the simulator gets it, touches more than two
      neighbouring lines of 2^k bytes: it runs over the end of the address space, or
      it is too long for where it starts; or it is empty and starts at a line, so that
      its last byte comes out in front of its first. */
  predicate Refused(k: nat, a: nat, size: nat) {
    if size == 0 then a % Pow2(k) == 0
    else a + size > SPAN || a % Pow2(k) + size > 2 * Pow2(k)
  }

  lemma RefByBlocks(c: Cache, a: nat, size: nat)
    requires WellFormed(c) && 0 < c.lineBits < 32 && a < SPAN
    ensures
      var b1, b2 := Shr(a, c.lineBits), Shr(Wrap(a + size - 1), c.lineBits);
      RefIsMiss(c, a, size).Panic? <==> b2 != b1 && b2 != b1 + 1
  {
    hide WellFormed, SetRef, Misses, Pow2, Shr;
    BlockBelow(c.lineBits, a);
  }

  lemma InsideSpan(k: nat, a: nat, size: nat)
    requires 1 <= size && a + size <= SPAN
    ensures
      var b1, b2 := Shr(a, k), Shr(Wrap(a + size - 1), k);
      b1 <= b2 && (b2 <= b1 + 1 <==> !Refused(k, a, size))
  {
    hide Pow2, Shr, Wrap;
    var e := a + size - 1;
    WrapInside(e);
    ShrIsDiv(a, k);
    ShrIsDiv(e, k);
    LastLine(Pow2(k), a, size);
  }

  lemma OverTheEnd(k: nat, a: nat, size: nat)
    requires 0 < k < 32 && a < SPAN && size < 256 && a + size > SPAN
    ensures Shr(Wrap(a + size - 1), k) < Shr(a, k)
  {
    hide Pow2, Shr, Wrap;
    var e := a + size - 1;
    WrapInside(e);
    LineBounds(k);
    ShrIsDiv(a, k);
    ShrIsDiv(e - SPAN, k);
    FarApart(Pow2(k), e - SPAN, a, 1);
  }

  lemma EmptyItem(k: nat, a: nat)
    requires 0 < k < 32 && a < SPAN
    ensures
      var b1, b2 := Shr(a, k), Shr(Wrap(a - 1), k);
      b2 != b1 && b2 != b1 + 1 <==> a % Pow2(k) == 0
  {
    hide Pow2, Shr;
    var d := Pow2(k);
    LineBounds(k);
    ShrIsDiv(a, k);
    if a == 0 {
      assert Wrap(a - 1) == SPAN - 1;
      LastOfSpan(k, SPAN - 1);
      DivUnique(0, d, 0);
    } else {
      assert Wrap(a - 1) == a - 1;
      ShrIsDiv(a - 1, k);
      var q := a / d;
      assert a == q * d + a % d;
      if a % d == 0 {
        assert (q - 1) * d == q * d - d;
        DivUnique(a - 1, d, q - 1);
      } else {
        DivUnique(a - 1, d, q);
      }
    }
  }

  /** Exactly when one reference panics, for every size that fits a UChar. */
  lemma PanicExactly(c: Cache, a: nat, size: nat)
    requires WellFormed(c) && 0 < c.lineBits < 32 && a < SPAN && size < 256
    ensures RefIsMiss(c, a, size).Panic? <==> Refused(c.lineBits, a, size)
  {
    hide WellFormed, RefIsMiss, Pow2, Shr, Wrap;
    RefByBlocks(c, a, size);
    if size == 0 {
      EmptyItem(c.lineBits, a);
    } else if a + size <= SPAN {
      InsideSpan(c.lineBits, a, size);
    } else {
      OverTheEnd(c.lineBits, a, size);
    }
  }

  /** What longer lines accept includes what shorter ones accept. */
  lemma {:induction false} RefusedMono(k: nat, m: nat, a: nat, size: nat)
    requires k <= m && !Refused(k, a, size)
    ensures !Refused(m, a, size)
    decreases m
  {
    if k < m {
      RefusedMono(k, m - 1, a, size);
      NextMod(Pow2(m - 1), a);
    }
  }

  /** The sizes that are safe wherever they lie in the address space: those at most
      one byte longer than a line. */
  lemma SizeSafeExactly(k: nat, size: nat)
    requires 0 < k < 32 && 1 <= size < 256
    ensures (forall a: nat :: a + size <= SPAN ==> !Refused(k, a, size)) <==> size <= Pow2(k) + 1
  {
    LineBounds(k);
    var d := Pow2(k);
    hide Pow2;
    DivUnique(d - 1, d, 0);
    if size > d + 1 {
      assert Refused(k, d - 1, size);
    }
  }

  lemma OneLine(d: nat, a: nat, size: nat)
    requires d > 0 && size >= 1
    ensures a / d == (a + size - 1) / d <==> a % d + size <= d
  {
    var q, r, e := a / d, a % d, a + size - 1;
    assert a == q * d + r;
    if r + size <= d {
      DivUnique(e, d, q);
    } else {
      assert (q + 1) * d == q * d + d;
      assert (q * d) / d == q by { DivUnique(q * d, d, q); }
      FarApart(d, q * d, e, 1);
    }
  }

  /** When an instruction is tagged as staying within a line, and so takes the fast path:
      exactly if its lines are those of the last level and its bytes lie in one of them. */
  lemma NoXExactly(i1Bits: nat, llBits: nat, a: nat, size: nat)
    requires 0 < i1Bits < 32 && 1 <= size && a + size <= SPAN
    ensures IsNoX(i1Bits, llBits, a, size) <==> i1Bits == llBits && a % Pow2(i1Bits) + size <= Pow2(i1Bits)
  {
    hide Pow2, Shr, Wrap;
    var d, e := Pow2(i1Bits), a + size - 1;
    WrapInside(e);
    ShrIsDiv(a, i1Bits);
    ShrIsDiv(e, i1Bits);
    OneLine(d, a, size);
  }

  // -------------------------------------------------------------- two levels

  predicate MissesAt(c: Cache, a: nat, size: nat)
    requires WellFormed(c)
  {
    match RefIsMiss(c, a, size)
    case Panic => false
    case Ref(_, miss) => miss
  }

  /** The last level counts only behind a first-level miss. */
  predicate DorefRefused(l1: Cache, ll: Cache, a: nat, size: nat)
    requires WellFormed(l1)
  {
    Refused(l1.lineBits, a, size) || (MissesAt(l1, a, size) && Refused(ll.lineBits, a, size))
  }

  lemma DorefPanicExactly(l1: Cache, ll: Cache, a: nat, size: nat)
    requires WellFormed(l1) && WellFormed(ll) && 0 < l1.lineBits < 32 && 0 < ll.lineBits < 32
    requires a < SPAN && size < 256
    ensures Doref(l1, ll, a, size).Abort? <==> DorefRefused(l1, ll, a, size)
    ensures l1.lineBits <= ll.lineBits ==> (DorefRefused(l1, ll, a, size) <==> Refused(l1.lineBits, a, size))
  {
    hide WellFormed, RefIsMiss, Refused;
    PanicExactly(l1, a, size);
    PanicExactly(ll, a, size);
    if l1.lineBits <= ll.lineBits && !Refused(l1.lineBits, a, size) {
      RefusedMono(l1.lineBits, ll.lineBits, a, size);
    }
  }

  // ------------------------------------------------------------------ events

  /** Line sizes are powers of two of at least two bytes that fit an Int. */
  ghost predicate Lines<P>(m: Machine<P>) {
    0 < m.i1.lineBits < 32 && 0 < m.d1.lineBits < 32 && 0 < m.ll.lineBits < 32
  }

  /** Effective addresses are machine words. */
  ghost predicate Words<P>(e: Env<P>) {
    forall x: Atom :: e.addr(x) < SPAN
  }

  /** So are the addresses of instructions. */
  predicate WordAddr(s: Single) {
    s.Ir? ==> s.n.addr < SPAN
  }

  /** The reference that an event makes: to which first level, where, how long. */
  datatype Reference = NoRef | Fetched(addr: nat, size: nat) | Accessed(addr: nat, size: nat)

  function RefOf<P>(cfg: Config, e: Env<P>, s: Single): Reference {
    match s
    case Ir(n) => if cfg.cacheSim then Fetched(n.addr, Narrow(n.len)) else NoRef
    case Read(_, ea, size) => Accessed(e.addr(ea), Narrow(size))
    case Write(_, ea, size) => Accessed(e.addr(ea), Narrow(size))
    case Modify(_, ea, size) => Accessed(e.addr(ea), Narrow(size))
    case Guarded(_, ea, size, guard, _) => if e.guard(guard) then Accessed(e.addr(ea), Narrow(size)) else NoRef
    case _ => NoRef
  }

  /** The event's reference is refused in this state of the caches. */
  predicate RefusedIn<P>(cfg: Config, e: Env<P>, m: Machine<P>, s: Single)
    requires WellFormed(m.i1) && WellFormed(m.d1)
  {
    match RefOf(cfg, e, s)
    case NoRef => false
    case Fetched(a, size) => DorefRefused(m.i1, m.ll, a, size)
    case Accessed(a, size) => DorefRefused(m.d1, m.ll, a, size)
  }

  /** The event's reference is refused by first-level lines of these lengths. */
  predicate RefusedBy<P>(cfg: Config, e: Env<P>, i1Bits: nat, d1Bits: nat, s: Single) {
    match RefOf(cfg, e, s)
    case NoRef => false
    case Fetched(a, size) => Refused(i1Bits, a, size)
    case Accessed(a, size) => Refused(d1Bits, a, size)
  }

  ghost predicate SameLines<P>(m: Machine<P>, r: Machine<P>) {
    m.i1.lineBits == r.i1.lineBits && m.d1.lineBits == r.d1.lineBits && m.ll.lineBits == r.ll.lineBits
  }

  lemma FetchPanics<P>(m: Machine<P>, n: Inode)
    requires WellFormed(m.i1) && WellFormed(m.ll) && Lines(m) && n.addr < SPAN
    ensures IrGenRef(m, n).Panicked? <==> DorefRefused(m.i1, m.ll, n.addr, Narrow(n.len))
    ensures IrGenRef(m, n).Ok? ==> SameLines(m, IrGenRef(m, n).m)
  {
    hide WellFormed, Doref, DorefRefused;
    DorefPanicExactly(m.i1, m.ll, n.addr, Narrow(n.len));
  }

  lemma DataPanics<P>(m: Machine<P>, n: Inode, a: nat, size: nat, isWrite: bool)
    requires WellFormed(m.d1) && WellFormed(m.ll) && Lines(m) && a < SPAN
    ensures DataRef(m, n, a, size, isWrite).Panicked? <==> DorefRefused(m.d1, m.ll, a, Narrow(size))
    ensures DataRef(m, n, a, size, isWrite).Ok? ==> SameLines(m, DataRef(m, n, a, size, isWrite).m)
  {
    hide WellFormed, Doref, DorefRefused;
    DorefPanicExactly(m.d1, m.ll, a, Narrow(size));
  }

  /** One event panics exactly if its reference is refused where the caches stand. */
  lemma EventPanics<P>(cfg: Config, e: Env<P>, m: Machine<P>, s: Single)
    requires Fits(cfg, m) && Lines(m) && Words(e) && WordAddr(s)
    ensures RunSingle(cfg, e, m, s).Panicked? <==> RefusedIn(cfg, e, m, s)
    ensures RunSingle(cfg, e, m, s).Ok? ==> SameLines(m, RunSingle(cfg, e, m, s).m)
  {
    hide WellFormed, IrGenRef, DataRef, DorefRefused;
    match s
    case Ir(n) => FetchPanics(m, n);
    case Read(n, ea, size) => DataPanics(m, n, e.addr(ea), size, false);
    case Write(n, ea, size) => DataPanics(m, n, e.addr(ea), size, true);
    case Modify(n, ea, size) => DataPanics(m, n, e.addr(ea), size, false);
    case Guarded(n, ea, size, guard, isWrite) => DataPanics(m, n, e.addr(ea), size, isWrite);
    case _ =>
  }

  /** If lines of the last level are no shorter, the contents of the caches do not matter. */
  lemma RefusedByLines<P>(cfg: Config, e: Env<P>, m: Machine<P>, s: Single)
    requires Fits(cfg, m) && Lines(m) && Words(e) && WordAddr(s)
    requires m.i1.lineBits <= m.ll.lineBits && m.d1.lineBits <= m.ll.lineBits
    ensures RefusedIn(cfg, e, m, s) <==> RefusedBy(cfg, e, m.i1.lineBits, m.d1.lineBits, s)
  {
    hide WellFormed, DorefRefused, Refused;
    match s
    case Ir(n) => DorefPanicExactly(m.i1, m.ll, n.addr, Narrow(n.len));
    case Read(_, ea, size) => DorefPanicExactly(m.d1, m.ll, e.addr(ea), Narrow(size));
    case Write(_, ea, size) => DorefPanicExactly(m.d1, m.ll, e.addr(ea), Narrow(size));
    case Modify(_, ea, size) => DorefPanicExactly(m.d1, m.ll, e.addr(ea), Narrow(size));
    case Guarded(_, ea, size, _, _) => DorefPanicExactly(m.d1, m.ll, e.addr(ea), Narrow(size));
    case _ =>
  }

  // ----------------------------------------------------------------- streams

  /** Event i is reached and its reference refused. */
  ghost predicate StopsAt<P>(cfg: Config, e: Env<P>, m: Machine<P>, ss: seq<Single>, i: nat)
    requires Fits(cfg, m) && i < |ss|
  {
    var r := RunSingles(cfg, e, m, ss[..i]);
    r.Ok? && RefusedIn(cfg, e, r.m, ss[i])
  }

  lemma StopsLater<P>(cfg: Config, e: Env<P>, m: Machine<P>, ss: seq<Single>, i: nat)
    requires Fits(cfg, m) && 0 < i < |ss| && RunSingle(cfg, e, m, ss[0]).Ok?
    ensures StopsAt(cfg, e, m, ss, i) <==> StopsAt(cfg, e, RunSingle(cfg, e, m, ss[0]).m, ss[1..], i - 1)
  {
    hide RunSingle, RefusedIn, Fits;
    assert ss[..i][0] == ss[0] && ss[..i][1..] == ss[1..][..i - 1];
  }

  lemma StopsFirst<P>(cfg: Config, e: Env<P>, m: Machine<P>, ss: seq<Single>)
    requires Fits(cfg, m) && ss != []
    ensures StopsAt(cfg, e, m, ss, 0) <==> RefusedIn(cfg, e, m, ss[0])
  {
    assert ss[..0] == [];
  }

  /** A stream panics exactly if one of its events is reached and its reference is
      refused in the caches it meets. */
  lemma {:induction false} StreamPanicsExactly<P>(cfg: Config, e: Env<P>, m: Machine<P>, ss: seq<Single>)
    requires Fits(cfg, m) && Lines(m) && Words(e) && forall i :: 0 <= i < |ss| ==> WordAddr(ss[i])
    ensures RunSingles(cfg, e, m, ss).Panicked? <==> exists i: nat :: i < |ss| && StopsAt(cfg, e, m, ss, i)
    decreases |ss|
  {
    hide Fits, Words, WordAddr, RunSingle, StopsAt, RefusedIn;
    if ss != [] {
      StopsFirst(cfg, e, m, ss);
      EventPanics(cfg, e, m, ss[0]);
      var r := RunSingle(cfg, e, m, ss[0]);
      if r.Ok? {
        var tl := ss[1..];
        StreamPanicsExactly(cfg, e, r.m, tl);
        forall i: nat | 0 < i < |ss| ensures StopsAt(cfg, e, m, ss, i) <==> StopsAt(cfg, e, r.m, tl, i - 1) {
          StopsLater(cfg, e, m, ss, i);
        }
        forall i: nat | i < |tl| ensures StopsAt(cfg, e, r.m, tl, i) <==> StopsAt(cfg, e, m, ss, i + 1) {
          StopsLater(cfg, e, m, ss, i + 1);
        }
      } else {
        assert StopsAt(cfg, e, m, ss, 0);
      }
    }
  }

  /** If lines of the last level are no shorter than the others, as in common
      configurations, a stream panics exactly if it holds a reference that straddles
      too many first-level lines. */
  lemma {:induction false} StreamPanicsByLines<P>(cfg: Config, e: Env<P>, m: Machine<P>, ss: seq<Single>)
    requires Fits(cfg, m) && Lines(m) && Words(e) && forall i :: 0 <= i < |ss| ==> WordAddr(ss[i])
    requires m.i1.lineBits <= m.ll.lineBits && m.d1.lineBits <= m.ll.lineBits
    ensures RunSingles(cfg, e, m, ss).Panicked? <==>
      exists i: nat :: i < |ss| && RefusedBy(cfg, e, m.i1.lineBits, m.d1.lineBits, ss[i])
    decreases |ss|
  {
    hide Fits, Words, WordAddr, RunSingle, RefusedIn, RefusedBy;
    if ss != [] {
      EventPanics(cfg, e, m, ss[0]);
      RefusedByLines(cfg, e, m, ss[0]);
      var r := RunSingle(cfg, e, m, ss[0]);
      if r.Ok? {
        var tl := ss[1..];
        StreamPanicsByLines(cfg, e, r.m, tl);
        assert forall i: nat :: 0 < i < |ss| ==> ss[i] == tl[i - 1];
        assert forall i: nat :: i < |tl| ==> tl[i] == ss[i + 1];
      }
    }
  }

  // -------------------------------------------------- sizes that are never refused

  /** The event makes a reference only of 1 to line + 1 bytes, and fewer than 256. */
  predicate SafeSize(line: nat, size: nat) {
    1 <= size <= line + 1 && size < 256
  }

  predicate SafeEvent(line: nat, s: Single) {
    match s
    case Ir(n) => SafeSize(line, n.len)
    case Read(_, _, size) => SafeSize(line, size)
    case Write(_, _, size) => SafeSize(line, size)
    case Modify(_, _, size) => SafeSize(line, size)
    case Guarded(_, _, size, _, _) => SafeSize(line, size)
    case _ => true
  }

  ghost predicate AllSafeEvents(line: nat, ss: seq<Single>) {
    forall i :: 0 <= i < |ss| ==> WordAddr(ss[i]) && SafeEvent(line, ss[i])
  }

  /** The event's reference, if any, runs over the end of the address space. */
  predicate OverEnd<P>(cfg: Config, e: Env<P>, s: Single) {
    match RefOf(cfg, e, s)
    case NoRef => false
    case Fetched(a, size) => a + size > SPAN
    case Accessed(a, size) => a + size > SPAN
  }

  /** All lines have at least `line` bytes. */
  ghost predicate LinesFrom<P>(line: nat, m: Machine<P>) {
    && Lines(m)
    && line <= Pow2(m.i1.lineBits) && line <= Pow2(m.d1.lineBits) && line <= Pow2(m.ll.lineBits)
  }

  lemma SafeRef(line: nat, k: nat, a: nat, size: nat)
    requires 0 < k < 32 && line <= Pow2(k) && SafeSize(line, size)
    ensures Narrow(size) == size
    ensures Refused(k, a, size) <==> a + size > SPAN
  {
    if a + size <= SPAN {
      SizeSafeExactly(k, size);
    }
  }

  lemma SafeDoref(line: nat, l1: Cache, ll: Cache, a: nat, size: nat)
    requires WellFormed(l1) && 0 < l1.lineBits < 32 && 0 < ll.lineBits < 32
    requires line <= Pow2(l1.lineBits) && line <= Pow2(ll.lineBits) && SafeSize(line, size)
    ensures Narrow(size) == size && (DorefRefused(l1, ll, a, size) <==> a + size > SPAN)
  {
    hide Refused, Pow2, SafeSize, Narrow, MissesAt;
    SafeRef(line, l1.lineBits, a, size);
    SafeRef(line, ll.lineBits, a, size);
  }

  lemma SafeEventPanics<P>(line: nat, cfg: Config, e: Env<P>, m: Machine<P>, s: Single)
    requires Fits(cfg, m) && LinesFrom(line, m) && SafeEvent(line, s)
    ensures RefusedIn(cfg, e, m, s) <==> OverEnd(cfg, e, s)
  {
    hide WellFormed, DorefRefused, Pow2, SafeSize, Narrow;
    match s
    case Ir(n) => SafeDoref(line, m.i1, m.ll, n.addr, n.len);
    case Read(_, ea, size) => SafeDoref(line, m.d1, m.ll, e.addr(ea), size);
    case Write(_, ea, size) => SafeDoref(line, m.d1, m.ll, e.addr(ea), size);
    case Modify(_, ea, size) => SafeDoref(line, m.d1, m.ll, e.addr(ea), size);
    case Guarded(_, ea, size, _, _) => SafeDoref(line, m.d1, m.ll, e.addr(ea), size);
    case _ =>
  }

  /** A stream of safe sizes panics exactly if one of its references runs over the end
      of the address space. */
  lemma {:induction false} SafeStreamPanics<P>(line: nat, cfg: Config, e: Env<P>, m: Machine<P>, ss: seq<Single>)
    requires Fits(cfg, m) && LinesFrom(line, m) && Words(e) && AllSafeEvents(line, ss)
    ensures RunSingles(cfg, e, m, ss).Panicked? <==> exists i: nat :: i < |ss| && OverEnd(cfg, e, ss[i])
    decreases |ss|
  {
    hide Fits, Words, WordAddr, RunSingle, RefusedIn, OverEnd, SafeEvent;
    if ss != [] {
      EventPanics(cfg, e, m, ss[0]);
      SafeEventPanics(line, cfg, e, m, ss[0]);
      var r := RunSingle(cfg, e, m, ss[0]);
      if r.Ok? {
        var tl := ss[1..];
        SafeStreamPanics(line, cfg, e, r.m, tl);
        assert forall i: nat :: 0 < i < |ss| ==> ss[i] == tl[i - 1];
        assert forall i: nat :: i < |tl| ==> tl[i] == ss[i + 1];
      }
    }
  }

  // -------------------------------------------------------------- superblocks

  /** The instruction lengths of an architecture: from VG_MIN_INSTR_SZB to
      VG_MAX_INSTR_SZB, and VG_CLREQ_SZB for a client request. */
  datatype Arch = Arch(minLen: nat, maxLen: nat, clientReq: nat)

  ghost predicate Plausible(arch: Arch) {
    1 <= arch.minLen <= arch.maxLen < 256 && 1 <= arch.clientReq < 256
  }

  /** What the code asserts of a statement that it instruments. */
  predicate Asserted(arch: Arch, line: nat, s: Stmt) {
    match s
    case IMark(addr, len) =>
      addr < SPAN && (len == 0 || arch.minLen <= len <= arch.maxLen || len == arch.clientReq)
    case Load(size, _) => 1 <= size <= line
    case Store(size, _) => 1 <= size <= line
    case LoadG(size, _, _) => 1 <= size <= line
    case StoreG(size, _, _) => 1 <= size <= line
    case Dirty(_, _, size, _) => size >= 1
    case Cas(size, _) => size >= 1
    case LoadLinked(size, _) => 1 <= size <= line
    case StoreCond(size, _) => 1 <= size <= line
    case _ => true
  }

  /** What the caller can check before the start: no instruction is longer than the
      shortest line by more than a byte, and no reference too long for a UChar. */
  predicate LinesSuffice(arch: Arch, line: nat) {
    arch.maxLen <= line + 1 && arch.clientReq <= line + 1 && line < 256
  }

  predicate SafeItem(line: nat, x: Item) {
    match x
    case AddIr(n) => n.addr < SPAN && SafeSize(line, n.len)
    case AddDr(_, size, _) => SafeSize(line, size)
    case AddDw(_, size, _) => SafeSize(line, size)
    case AddGuarded(_, size, _, _, _) => SafeSize(line, size)
    case _ => true
  }

  ghost predicate AllSafe(line: nat, xs: seq<Item>) {
    forall i :: 0 <= i < |xs| ==> SafeItem(line, xs[i])
  }

  lemma NoEvents(line: nat)
    ensures AllSafeEvents(line, [])
  {
  }

  lemma AppendSafe(line: nat, cfg: Config, acc: seq<Single>, x: Item)
    requires SafeItem(line, x) && AllSafeEvents(line, acc)
    ensures AllSafeEvents(line, Append(cfg, acc, x))
  {
  }

  lemma {:induction false} StreamSafe(line: nat, cfg: Config, xs: seq<Item>)
    requires AllSafe(line, xs)
    ensures AllSafeEvents(line, Stream(cfg, xs))
  {
    hide Append, AllSafeEvents, SafeItem;
    NoEvents(line);
    if xs != [] {
      var front := xs[..|xs| - 1];
      StreamSafe(line, cfg, front);
      AppendSafe(line, cfg, Stream(cfg, front), xs[|xs| - 1]);
    }
  }

  lemma ItemsSafe(lineOf: nat -> nat, arch: Arch, line: nat, n: Inode, s: Stmt)
    requires Asserted(arch, line, s) && Plausible(arch) && LinesSuffice(arch, line)
    ensures line >= 1 ==> AllSafe(line, ItemsOf(lineOf, arch.minLen, line, n, s))
  {
  }

  lemma SafeConcat(line: nat, xs: seq<Item>, ys: seq<Item>)
    requires AllSafe(line, xs) && AllSafe(line, ys)
    ensures AllSafe(line, xs + ys)
  {
  }

  lemma FirstItem(lineOf: nat -> nat, minLen: nat, line: nat, s: Stmt)
    requires s.IMark?
    ensures ItemsOf(lineOf, minLen, line, Inode(0, 0, 0), s) == [AddIr(InodeOf(lineOf, minLen, s.addr, s.len))]
  {
  }

  /** Asserted statements cause references of safe sizes only. */
  lemma {:induction false} BlockSafe(lineOf: nat -> nat, arch: Arch, line: nat, stmts: seq<Stmt>)
    requires Plausible(arch) && LinesSuffice(arch, line) && line >= 1 && stmts != [] && stmts[0].IMark?
    requires forall i :: 0 <= i < |stmts| ==> Asserted(arch, line, stmts[i])
    ensures AllSafe(line, BlockItems(lineOf, arch.minLen, line, stmts).0)
    decreases |stmts|
  {
    hide ItemsOf, Asserted, LinesSuffice, Plausible, AllSafe, SafeItem;
    var last := stmts[|stmts| - 1];
    if |stmts| == 1 {
      assert last == stmts[0];
      ItemsSafe(lineOf, arch, line, Inode(0, 0, 0), last);
      FirstItem(lineOf, arch.minLen, line, last);
    } else {
      var front := stmts[..|stmts| - 1];
      BlockSafe(lineOf, arch, line, front);
      var p := BlockItems(lineOf, arch.minLen, line, front);
      ItemsSafe(lineOf, arch, line, p.1, last);
      SafeConcat(line, p.0, ItemsOf(lineOf, arch.minLen, line, p.1, last));
    }
  }

  // --------------------------------------------------------- block theorems

  lemma ItemAddrs(cfg: Config, acc: seq<Single>, x: Item)
    requires (x.AddIr? ==> x.n.addr < SPAN) && forall i :: 0 <= i < |acc| ==> WordAddr(acc[i])
    ensures forall i :: 0 <= i < |Append(cfg, acc, x)| ==> WordAddr(Append(cfg, acc, x)[i])
  {
  }

  /** Every instruction of the items lies at a machine word. */
  ghost predicate WordItems(xs: seq<Item>) {
    forall i :: 0 <= i < |xs| && xs[i].AddIr? ==> xs[i].n.addr < SPAN
  }

  lemma {:induction false} StreamAddrs(cfg: Config, xs: seq<Item>)
    requires WordItems(xs)
    ensures forall i :: 0 <= i < |Stream(cfg, xs)| ==> WordAddr(Stream(cfg, xs)[i])
  {
    hide Append, WordAddr;
    if xs != [] {
      var front := xs[..|xs| - 1];
      StreamAddrs(cfg, front);
      ItemAddrs(cfg, Stream(cfg, front), xs[|xs| - 1]);
    }
  }

  lemma WordConcat(xs: seq<Item>, ys: seq<Item>)
    requires WordItems(xs) && WordItems(ys)
    ensures WordItems(xs + ys)
  {
  }

  lemma ItemsAtWords(lineOf: nat -> nat, minLen: nat, line: nat, n: Inode, s: Stmt)
    requires s.IMark? ==> s.addr < SPAN
    ensures WordItems(ItemsOf(lineOf, minLen, line, n, s))
  {
  }

  lemma {:induction false} BlockAddrs(lineOf: nat -> nat, minLen: nat, line: nat, stmts: seq<Stmt>)
    requires stmts != [] && stmts[0].IMark?
    requires forall i :: 0 <= i < |stmts| && stmts[i].IMark? ==> stmts[i].addr < SPAN
    ensures WordItems(BlockItems(lineOf, minLen, line, stmts).0)
    decreases |stmts|
  {
    hide ItemsOf, WordItems;
    var last := stmts[|stmts| - 1];
    if |stmts| == 1 {
      assert last == stmts[0];
      ItemsAtWords(lineOf, minLen, line, Inode(0, 0, 0), last);
      FirstItem(lineOf, minLen, line, last);
    } else {
      var front := stmts[..|stmts| - 1];
      BlockAddrs(lineOf, minLen, line, front);
      var p := BlockItems(lineOf, minLen, line, front);
      ItemsAtWords(lineOf, minLen, line, p.1, last);
      WordConcat(p.0, ItemsOf(lineOf, minLen, line, p.1, last));
    }
  }

  /** Every superblock, whatever its sizes: it panics exactly if a reference is reached
      and refused in the caches it meets. */
  lemma BlockPanicsExactly<P>(cfg: Config, e: Env<P>, m: Machine<P>, lineOf: nat -> nat, minLen: nat, line: nat,
                              stmts: seq<Stmt>, next: Next)
    requires Fits(cfg, m) && Lines(m) && Words(e) && stmts != [] && stmts[0].IMark?
    requires forall i :: 0 <= i < |stmts| && stmts[i].IMark? ==> stmts[i].addr < SPAN
    ensures
      var ss := Stream(cfg, InstrumentItems(lineOf, minLen, line, stmts, next));
      RunSingles(cfg, e, m, ss).Panicked? <==> exists i: nat :: i < |ss| && StopsAt(cfg, e, m, ss, i)
  {
    hide Fits, Lines, Words, RunSingles, Stream, BlockItems, StopsAt, WordAddr;
    BlockAddrs(lineOf, minLen, line, stmts);
    var r := BlockItems(lineOf, minLen, line, stmts);
    WordConcat(r.0, match next case Known => [] case Computed(dst) => [AddBi(r.1, dst)]);
    var xs := InstrumentItems(lineOf, minLen, line, stmts, next);
    StreamAddrs(cfg, xs);
    StreamPanicsExactly(cfg, e, m, Stream(cfg, xs));
  }

  /** What the length checks are for, where the lines suffice: a superblock that meets
      the assertions panics only by a reference over the end of the address space. */
  lemma SufficientLines<P>(arch: Arch, line: nat, cfg: Config, e: Env<P>, m: Machine<P>,
                           lineOf: nat -> nat, stmts: seq<Stmt>, next: Next)
    requires Fits(cfg, m) && LinesFrom(line, m) && Words(e) && line >= 1
    requires Plausible(arch) && LinesSuffice(arch, line)
    requires stmts != [] && stmts[0].IMark? && forall i :: 0 <= i < |stmts| ==> Asserted(arch, line, stmts[i])
    ensures
      var ss := Stream(cfg, InstrumentItems(lineOf, arch.minLen, line, stmts, next));
      RunSingles(cfg, e, m, ss).Panicked? <==> exists i: nat :: i < |ss| && OverEnd(cfg, e, ss[i])
  {
    hide Fits, LinesFrom, Words, Asserted, LinesSuffice, Plausible, OverEnd, RunSingles, Stream, BlockItems;
    hide AllSafeEvents;
    BlockSafe(lineOf, arch, line, stmts);
    var r := BlockItems(lineOf, arch.minLen, line, stmts);
    SafeConcat(line, r.0, match next case Known => [] case Computed(dst) => [AddBi(r.1, dst)]);
    var xs := InstrumentItems(lineOf, arch.minLen, line, stmts, next);
    StreamSafe(line, cfg, xs);
    SafeStreamPanics(line, cfg, e, m, Stream(cfg, xs));
  }

  // ------------------------------------------------- where the checks fall short

  lemma OneInstruction(cfg: Config, lineOf: nat -> nat, minLen: nat, line: nat, a: nat, len: nat)
    requires len > 0
    ensures Stream(cfg, InstrumentItems(lineOf, minLen, line, [IMark(a, len)], Known)) == [Ir(Inode(a, len, lineOf(a)))]
  {
    var x := AddIr(Inode(a, len, lineOf(a)));
    assert BlockItems(lineOf, minLen, line, [IMark(a, len)]).0 == [x];
    assert [x][..0] == [] && Stream(cfg, []) == [];
  }

  lemma OneLoad(cfg: Config, lineOf: nat -> nat, minLen: nat, line: nat, a: nat, len: nat, size: nat, ea: Atom)
    requires len > 0 && cfg.cacheSim
    ensures
      var n := Inode(a, len, lineOf(a));
      var xs := InstrumentItems(lineOf, minLen, line, [IMark(a, len), Load(size, ea)], Known);
      Stream(cfg, xs) == [Ir(n), Read(n, ea, size)]
  {
    var n := Inode(a, len, lineOf(a));
    var x, y := AddIr(n), AddDr(n, size, ea);
    var stmts := [IMark(a, len), Load(size, ea)];
    assert stmts[..1] == [IMark(a, len)];
    assert BlockItems(lineOf, minLen, line, stmts[..1]) == ([x], n);
    assert BlockItems(lineOf, minLen, line, stmts).0 == [x, y];
    assert [x, y][..1] == [x] && [x][..0] == [] && Stream(cfg, []) == [];
  }

  /** An instruction longer than a line and a byte, at the last byte of the first line,
      panics whatever the caches hold, although it is far from the end of memory. */
  lemma InstructionTooLong<P>(cfg: Config, e: Env<P>, m: Machine<P>, n: Inode)
    requires Fits(cfg, m) && Lines(m) && Words(e) && cfg.cacheSim
    requires n.addr == Pow2(m.i1.lineBits) - 1 && Pow2(m.i1.lineBits) + 1 < n.len < 256
    ensures RunSingles(cfg, e, m, [Ir(n)]).Panicked? && !OverEnd(cfg, e, Ir(n))
  {
    hide Pow2;
    var d := Pow2(m.i1.lineBits);
    LineBounds(m.i1.lineBits);
    DivUnique(d - 1, d, 0);
    assert Narrow(n.len) == n.len;
    RunOne(cfg, e, m, Ir(n));
    EventPanics(cfg, e, m, Ir(n));
  }

  lemma LoadRefused<P>(cfg: Config, e: Env<P>, m: Machine<P>, n: Inode, ea: Atom)
    requires Fits(cfg, m) && e.addr(ea) == 0
    ensures RefusedIn(cfg, e, m, Read(n, ea, 256))
  {
    assert Narrow(256) == 0;
    DivUnique(0, Pow2(m.d1.lineBits), 0);
  }

  /** A load whose size loses its only bits in a UChar panics at the start of a line. */
  lemma LoadTooLong<P>(cfg: Config, e: Env<P>, m: Machine<P>, n: Inode, ea: Atom)
    requires Fits(cfg, m) && Lines(m) && Words(e) && cfg.cacheSim && n.addr == 0 && n.len < 256 && e.addr(ea) == 0
    ensures RunSingles(cfg, e, m, [Ir(n), Read(n, ea, 256)]).Panicked?
    ensures !OverEnd(cfg, e, Ir(n)) && !OverEnd(cfg, e, Read(n, ea, 256))
  {
    hide Pow2, Fits, Words;
    RunTwo(cfg, e, m, Ir(n), Read(n, ea, 256));
    EventPanics(cfg, e, m, Ir(n));
    var r := RunSingle(cfg, e, m, Ir(n));
    if r.Ok? {
      EventPanics(cfg, e, r.m, Read(n, ea, 256));
      DivUnique(0, Pow2(r.m.d1.lineBits), 0);
      LoadRefused(cfg, e, r.m, n, ea);
    }
  }

  lemma ZeroWords<P>(e: Env<P>)
    requires forall x: Atom :: e.addr(x) == 0
    ensures Words(e)
  {
  }

  /** Where the lines do not suffice, and instruction lines are the shortest, some
      superblock meets every assertion, stays inside memory and panics, in every state
      of the caches. */
  lemma InsufficientLines<P>(arch: Arch, line: nat, cfg: Config, e: Env<P>, m: Machine<P>, lineOf: nat -> nat)
    returns (stmts: seq<Stmt>, f: Env<P>)
    requires Fits(cfg, m) && LinesFrom(line, m) && Words(e) && cfg.cacheSim && line == Pow2(m.i1.lineBits)
    requires Plausible(arch) && !LinesSuffice(arch, line)
    ensures stmts != [] && stmts[0].IMark? && Words(f)
    ensures forall i :: 0 <= i < |stmts| ==> Asserted(arch, line, stmts[i])
    ensures
      var ss := Stream(cfg, InstrumentItems(lineOf, arch.minLen, line, stmts, Known));
      RunSingles(cfg, f, m, ss).Panicked? && forall i :: 0 <= i < |ss| ==> !OverEnd(cfg, f, ss[i])
  {
    hide Pow2, Fits, Words, OverEnd, RunSingles, Stream, InstrumentItems;
    LineBounds(m.i1.lineBits);
    if line + 1 < arch.maxLen || line + 1 < arch.clientReq {
      var len := if line + 1 < arch.maxLen then arch.maxLen else arch.clientReq;
      stmts, f := [IMark(line - 1, len)], e;
      OneInstruction(cfg, lineOf, arch.minLen, line, line - 1, len);
      InstructionTooLong(cfg, f, m, Inode(line - 1, len, lineOf(line - 1)));
    } else {
      stmts, f := [IMark(0, arch.minLen), Load(256, 0)], e.(addr := _ => 0);
      ZeroWords(f);
      OneLoad(cfg, lineOf, arch.minLen, line, 0, arch.minLen, 256, 0);
      LoadTooLong(cfg, f, m, Inode(0, arch.minLen, lineOf(0)), 0);
    }
  }

  /** The case at hand: on amd64 a client request is one instruction of 19 bytes, and
      lines of 16 bytes pass the checks; at address 15 it touches three lines. */
  lemma ClientRequestPanics<P>(cfg: Config, e: Env<P>, m: Machine<P>, lineOf: nat -> nat)
    requires Fits(cfg, m) && Lines(m) && Words(e) && cfg.cacheSim && m.i1.lineBits == 4
    ensures Asserted(Arch(1, 16, 19), 16, IMark(15, 19))
    ensures
      var ss := Stream(cfg, InstrumentItems(lineOf, 1, 16, [IMark(15, 19)], Known));
      RunSingles(cfg, e, m, ss).Panicked? && forall i :: 0 <= i < |ss| ==> !OverEnd(cfg, e, ss[i])
  {
    hide Fits, Words, OverEnd, RunSingles, Stream, InstrumentItems;
    OneInstruction(cfg, lineOf, 1, 16, 15, 19);
    assert Pow2(4) == 16;
    InstructionTooLong(cfg, e, m, Inode(15, 19, lineOf(15)));
  }
}
