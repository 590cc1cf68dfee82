/** buddy.c: the descriptors, the free lists and the four entry points. */
module Buddy {
  import opened Bits
  import opened Lists
  import opened ListPool
  import opened BuddySpec
  import BuddyInv
  import T = BuddyTheorems

  /** A pointer into g_memory, as its offset, or NULL. */
  datatype Ptr = Null | At(offset: nat)

  /** Two byte ranges [a, a+m) and [b, b+n) share no address. */
  predicate Apart(a: nat, m: nat, b: nat, n: nat) {
    a + m <= b || b + n <= a
  }

  /** The least order from o up whose blocks hold `size` bytes. */
  function OrderFrom(o: nat, size: int): (r: nat)
    ensures o <= r && size <= Pow2(r)
    ensures forall x: nat :: o <= x < r ==> Pow2(x) < size
    decreases size - Pow2(o)
  {
    if size <= Pow2(o) then o else OrderFrom(o + 1, size)
  }

  /** PAGE_TO_ADDR, as an offset into g_memory: page_idx * PAGE_SIZE. */
  function PageToAddr(minOrder: nat, p: nat): nat {
    Shl(p, minOrder)
  }

  /** ADDR_TO_PAGE: offset / PAGE_SIZE. */
  function AddrToPage(minOrder: nat, offset: nat): nat {
    Shr(offset, minOrder)
  }

  /** BUDDY_ADDR: exclusive-or of the offset with the block size. */
  function BuddyAddr(offset: nat, o: nat): nat {
    Xor(offset, Pow2(o))
  }

  /** The address macros are the multiplication, division and bit flip they are
      written as, and going from page to address and back is the identity. */
  lemma AddressMacros(minOrder: nat, p: nat, x: nat)
    ensures PageToAddr(minOrder, p) == p * Pow2(minOrder)
    ensures AddrToPage(minOrder, x) == x / Pow2(minOrder)
    ensures AddrToPage(minOrder, PageToAddr(minOrder, p)) == p
  {
    ShlIsMul(p, minOrder);
    ShrIsDiv(x, minOrder);
    ShrShl(p, minOrder);
  }

  /** The buddy of a block, computed on addresses, is its page with one bit flipped. */
  lemma BuddyAddrIsFlip(minOrder: nat, p: nat, o: nat)
    requires minOrder <= o
    ensures BuddyAddr(PageToAddr(minOrder, p), o) == PageToAddr(minOrder, Flip(p, o - minOrder))
    ensures AddrToPage(minOrder, BuddyAddr(PageToAddr(minOrder, p), o)) == Flip(p, o - minOrder)
  {
    XorIsFlip(Shl(p, minOrder), o);
    FlipShl(p, o - minOrder, minOrder);
    ShrShl(Flip(p, o - minOrder), minOrder);
  }

  lemma {:induction false} ShlMono(p: nat, q: nat, m: nat)
    ensures p < q <==> Shl(p, m) < Shl(q, m)
  {
    if m > 0 {
      ShlMono(p, q, m - 1);
    }
  }

  lemma {:induction false} ShlApart(p: nat, k: nat, q: nat, m: nat)
    requires p + Pow2(k) <= q
    ensures Shl(p, m) + Pow2(m + k) <= Shl(q, m)
  {
    if m > 0 {
      ShlApart(p, k, q, m - 1);
    }
  }

  /** Disjoint page regions are disjoint byte ranges. */
  lemma RegionsApart(minOrder: nat, a: Live, p: nat, k: nat, q: nat)
    requires T.Unallocated(a, p, k) && q in a && Aligned(p, k) && Aligned(q, a[q])
    ensures Apart(PageToAddr(minOrder, p), Pow2(minOrder + k), PageToAddr(minOrder, q), Pow2(minOrder + a[q]))
  {
    var m := a[q];
    RegionIsRange(q, m, p);
    RegionIsRange(p, k, q);
    assert In(p, p, k) && In(q, q, m);
    assert !T.Owned(a, p);
    assert T.Owned(a, q);
    if p + Pow2(k) <= q {
      ShlApart(p, k, q, minOrder);
    } else {
      ShlApart(q, m, p, minOrder);
    }
  }

  lemma {:induction false} AlignedShl(p: nat, k: nat, m: nat)
    requires Aligned(p, k)
    ensures Aligned(Shl(p, m), m + k)
  {
    if m > 0 {
      AlignedShl(p, k, m - 1);
      assert Shl(p, m) / 2 == Shl(p, m - 1);
    }
  }

  lemma {:induction false} ShlPow2(n: nat, m: nat)
    ensures Shl(Pow2(n), m) == Pow2(m + n)
  {
    if m > 0 {
      ShlPow2(n, m - 1);
    }
  }

  /** An aligned block that starts inside memory ends inside memory. */
  lemma BlockInMemory(minOrder: nat, top: nat, p: nat, k: nat)
    requires p < Pow2(top) && k <= top && Aligned(p, k)
    ensures PageToAddr(minOrder, p) + Pow2(minOrder + k) <= Pow2(minOrder + top)
  {
    var x := p + Pow2(k) - 1;
    RegionIsRange(p, k, x);
    ShrMono(x, p, k, top);
    ShrZero(x, top);
    ShrZero(p, top);
    ShlApart(p, k, Pow2(top), minOrder);
    ShlPow2(top, minOrder);
  }

  /** What a successful buddy_alloc(size) hands out, in bytes: a block of the least
      sufficient power of two, aligned to its own size, inside memory and apart
      from every live block; and it fails only if there is no such block. */
  lemma AllocMeaning(minOrder: nat, top: nat, s: State, a: Live, size: int)
    requires Valid(top, s, a) && InRange(top, s) && size > 0
    ensures
      var o := OrderFrom(minOrder, size);
      var t: nat := o - minOrder;
      match Alloc(top, s, t)
      case Allocated(p, _) =>
        var addr := PageToAddr(minOrder, p);
        && size <= Pow2(o) && (o > minOrder ==> Pow2(o - 1) < size)
        && Aligned(addr, o) && addr + Pow2(o) <= Pow2(minOrder + top)
        && forall q: nat :: q in a ==> Apart(addr, Pow2(o), PageToAddr(minOrder, q), Pow2(minOrder + a[q]))
      case NoMemory =>
        t > top || !exists q: nat :: T.Room(top, a, q, t)
  {
    var o := OrderFrom(minOrder, size);
    var t := o - minOrder;
    if t <= top {
      T.AllocComplete(top, s, a, t);
      var r := Alloc(top, s, t);
      if r.Allocated? {
        AlignedShl(r.page, t, minOrder);
        BlockInMemory(minOrder, top, r.page, t);
        forall q: nat | q in a
          ensures Apart(PageToAddr(minOrder, r.page), Pow2(o), PageToAddr(minOrder, q), Pow2(minOrder + a[q]))
        {
          T.LiveAbsent(top, s, a, q);
          RegionsApart(minOrder, a, r.page, t, q);
        }
      }
    }
  }

  /** Distinct live blocks are disjoint byte ranges. */
  lemma LiveBlocksApart(minOrder: nat, top: nat, s: State, a: Live, p: nat, q: nat)
    requires Valid(top, s, a) && p in a && q in a && p != q
    ensures Apart(PageToAddr(minOrder, p), Pow2(minOrder + a[p]), PageToAddr(minOrder, q), Pow2(minOrder + a[q]))
  {
    var h :| InvFor(top, s, a, h);
    RegionIsRange(p, a[p], q);
    RegionIsRange(q, a[q], p);
    if p < q {
      if q < p + Pow2(a[p]) {
        BuddyInv.SameBlock(top, h, p, q, q);
      }
      ShlApart(p, a[p], q, minOrder);
    } else {
      if p < q + Pow2(a[q]) {
        BuddyInv.SameBlock(top, h, p, q, p);
      }
      ShlApart(q, a[q], p, minOrder);
    }
  }

  /** The pages that per-order counts stand for. */
  function Total(counts: seq<nat>, k: nat): nat
    requires k <= |counts|
    decreases |counts| - k
  {
    if k == |counts| then 0 else counts[k] * Pow2(k) + Total(counts, k + 1)
  }

  lemma {:induction false} TotalIsWeight(counts: seq<nat>, lists: seq<seq<nat>>, k: nat)
    requires |counts| == |lists| && k <= |lists|
    requires forall i :: 0 <= i < |lists| ==> counts[i] == |lists[i]|
    ensures Total(counts, k) == T.Weight(lists, k)
    decreases |counts| - k
  {
    if k < |lists| {
      TotalIsWeight(counts, lists, k + 1);
    }
  }

  class Allocator {
    const minOrder: nat
    const maxOrder: nat
    const order: array<int>
    const free: array<int>
    const pool: Pool
    ghost var st: State  // descriptors and lists as a value
    ghost var live: Live

    ghost function Top(): nat
    {
      if minOrder <= maxOrder then maxOrder - minOrder else 0
    }

    /** The objects are separate and of the right shape. */
    ghost predicate Frame()
      reads this, order, free, pool, pool.next, pool.prev
    {
      && minOrder <= maxOrder
      && order != free && order as object != pool.next && order as object != pool.prev
      && free as object != pool.next && free as object != pool.prev
      && pool.Valid() && pool.pages == Pow2(Top())
      && InRange(Top(), st)
      && order.Length == free.Length == Pow2(Top())
      && (forall i :: 0 <= i < order.Length ==> order[i] == st.level[i] + minOrder)
      && (forall i :: 0 <= i < free.Length ==> (free[i] != 0 <==> st.free[i]))
      && pool.lists == st.lists
    }

    ghost predicate Valid()
      reads this, order, free, pool, pool.next, pool.prev
    {
      Frame() && T.Sound(Top(), T.Heap(st, live))
    }

    /** buddy_init */
    constructor (minOrder: nat, maxOrder: nat)
      requires minOrder <= maxOrder
      ensures Valid() && this.minOrder == minOrder && this.maxOrder == maxOrder
      ensures live == map[] && st == Init(Top(), minOrder)
      ensures fresh(order) && fresh(free) && fresh(pool) && fresh(pool.next) && fresh(pool.prev)
    {
      hide Inv, Linked, T.Conserved;
      this.minOrder := minOrder;
      this.maxOrder := maxOrder;
      var n := Pow2(maxOrder - minOrder);
      order := new int[n];
      free := new int[n];
      pool := new Pool(n, maxOrder - minOrder + 1);
      live := map[];
      st := Init(maxOrder - minOrder, minOrder);
      new;
      var i := 0;
      while i < n
        invariant 0 <= i <= n == order.Length == free.Length
        invariant fresh(order) && fresh(free) && fresh(pool) && fresh(pool.next) && fresh(pool.prev)
        invariant order != free && order as object != pool.next && order as object != pool.prev
        invariant free as object != pool.next && free as object != pool.prev
        invariant pool.Valid() && pool.pages == n && |pool.lists| == maxOrder - minOrder + 1
        invariant live == map[] && st == Init(Top(), minOrder)
        invariant forall k :: 0 <= k < |pool.lists| ==> pool.lists[k] == []
        invariant forall j :: 0 <= j < i ==> order[j] == 0 && free[j] == 0
      {
        order[i] := 0;
        free[i] := 0;
        i := i + 1;
      }
      order[0] := maxOrder;
      free[0] := 1;
      pool.Add(0, maxOrder - minOrder);
      assert forall k :: 0 <= k < |pool.lists| ==> pool.lists[k] == st.lists[k];
      T.InitValid(Top(), minOrder);
      T.InitConserves(Top(), minOrder);
    }

    /** Step 1 of buddy_alloc: the least sufficient order. */
    method FindOrder(size: int) returns (o: nat)
      ensures o == OrderFrom(minOrder, size) && minOrder <= o
    {
      hide Pow2;
      o := minOrder;
      while Pow2(o) < size
        invariant minOrder <= o && OrderFrom(o, size) == OrderFrom(minOrder, size)
        decreases size - Pow2(o)
      {
        PowStep(o + 1);
        o := o + 1;
      }
    }

    /** Step 2 of buddy_alloc: the least order from o up whose list is not empty. */
    method FindList(o: nat) returns (found: nat)
      requires Frame() && minOrder <= o <= maxOrder
      ensures o <= found <= maxOrder + 1 && found - minOrder == FirstNonEmpty(st.lists, o - minOrder)
    {
      hide Linked, Pow2;
      found := o;
      while found <= maxOrder
        invariant o <= found <= maxOrder + 1
        invariant FirstNonEmpty(st.lists, found - minOrder) == FirstNonEmpty(st.lists, o - minOrder)
      {
        var e := pool.Empty(found - minOrder);
        if !e {
          break;
        }
        found := found + 1;
      }
    }

    /** buddy_alloc.  The shifts of the order search are meaningful for requests
        of at most 2^30 bytes only. */
    method Alloc(size: int) returns (r: Ptr)
      requires Valid() && size <= 0x4000_0000
      modifies this, order, free, pool, pool.next, pool.prev
      ensures Valid()
      ensures size <= 0 ==> r.Null?
      ensures r.Null? ==> st == old(st) && live == old(live)
      ensures size > 0 ==>
        var t := OrderFrom(minOrder, size) - minOrder;
        match BuddySpec.Alloc(Top(), old(st), t)
        case NoMemory => r.Null?
        case Allocated(p, s) =>
          && r == At(PageToAddr(minOrder, p))
          && st == s && live == old(live)[p := t]
    {
      hide Inv, Linked, T.Conserved, Pow2, OrderFrom, FirstNonEmpty, T.Sound;
      if size <= 0 {
        return Null;
      }
      var o := FindOrder(size);
      if o > maxOrder {
        return Null;
      }
      var found := FindList(o);
      if found > maxOrder {
        return Null;
      }
      r := TakeAndSplit(found, o);
    }

    /** One pass of the splitting loop: the right half of the block at `page`
        becomes a free block of order o, the left half continues at order o. */
    method SplitOnce(page: nat, o: nat, ghost a: Live)
      requires Frame() && minOrder <= o < maxOrder
      requires page in a && a[page] == o + 1 - minOrder && Inv(Top(), st, a)
      modifies this`st, order, free, pool, pool.next, pool.prev
      ensures Frame() && page < Pow2(Top())
      ensures st == SplitStep(Top(), old(st), page, o - minOrder)
      ensures Inv(Top(), st, a[page := o - minOrder])
    {
      hide Inv, Linked, T.Conserved, Pow2, Flip, Shl, Shr, Xor, Without, Unlink, Absent;
      ghost var s := st;
      ghost var k: nat := o - minOrder;
      T.SplitPass(Top(), s, a, page, k);
      BuddyAddrIsFlip(minOrder, page, o);
      var addr := PageToAddr(minOrder, page);
      var buddyAddr := BuddyAddr(addr, o);
      var buddy := AddrToPage(minOrder, buddyAddr);
      order[buddy] := o;
      free[buddy] := 1;
      pool.Add(buddy, o - minOrder);
      order[page] := o;
      st := SplitStep(Top(), s, page, k);
    }

    /** Step 4 of buddy_alloc: the splitting loop. */
    method SplitTo(page: nat, foundOrder: nat, o: nat, ghost a: Live)
      requires Frame() && minOrder <= o <= foundOrder <= maxOrder && page < Pow2(Top())
      requires page in a && a[page] == foundOrder - minOrder && Inv(Top(), st, a)
      modifies this`st, order, free, pool, pool.next, pool.prev
      ensures Frame() && st == Split(Top(), old(st), page, foundOrder - minOrder, o - minOrder)
    {
      hide Inv, Linked, T.Conserved, Pow2, Flip, Shl, Shr, Xor, Without, Unlink, Absent;
      ghost var top, s1 := Top(), st;
      ghost var t: nat := o - minOrder;
      ghost var f: nat := foundOrder - minOrder;
      var found := foundOrder;
      assert a[page := f] == a;
      while found > o
        invariant o <= found <= maxOrder && Frame()
        invariant Inv(top, st, a[page := found - minOrder])
        invariant Split(top, st, page, found - minOrder, t) == Split(top, s1, page, f, t)
      {
        found := found - 1;
        ghost var k: nat := found - minOrder;
        ghost var before: Live := a[page := k + 1];
        assert before[page := k] == a[page := k];
        SplitOnce(page, found, before);
      }
    }

    /** Step 3 of buddy_alloc: the first block of a list leaves it. */
    method TakeFirst(found: nat) returns (page: nat)
      requires Frame() && minOrder <= found <= maxOrder && st.lists[found - minOrder] != []
      modifies this`st, order, free, pool, pool.next, pool.prev
      ensures Frame() && page == old(st).lists[found - minOrder][0] && page < Pow2(Top())
      ensures st == Take(Top(), old(st), found - minOrder)
    {
      hide Inv, Linked, T.Conserved, Pow2, Flip, Shl, Shr, Xor, Without, Unlink, Absent;
      page := pool.First(found - minOrder);
      pool.DelInit(page);
      free[page] := 0;
      st := Take(Top(), st, found - minOrder);
    }

    /** Steps 3 and 4 of buddy_alloc: take the first block of the list found and
        split it down to the requested order. */
    method TakeAndSplit(found: nat, o: nat) returns (r: Ptr)
      requires Valid() && minOrder <= o <= found <= maxOrder
      requires found - minOrder == FirstNonEmpty(st.lists, o - minOrder)
      modifies this, order, free, pool, pool.next, pool.prev
      ensures Valid()
      ensures BuddySpec.Alloc(Top(), old(st), o - minOrder).Allocated?
      ensures
        var x := BuddySpec.Alloc(Top(), old(st), o - minOrder);
        && r == At(PageToAddr(minOrder, x.page))
        && st == x.state && live == old(live)[x.page := o - minOrder]
    {
      hide Inv, Linked, T.Conserved, Pow2, Flip, Shl, Shr, Xor, Without, Unlink, Absent, Split, Take;
      ghost var top, s0, a := Top(), st, live;
      ghost var t: nat := o - minOrder;
      ghost var f: nat := found - minOrder;
      T.TakePass(top, s0, a, f);
      var page := TakeFirst(found);
      SplitTo(page, found, o, a[page := f]);
      order[page] := o;
      free[page] := 0;
      st := st.(level := st.level[page := t], free := st.free[page := false]);
      live := a[page := t];
      assert BuddySpec.Alloc(top, s0, t) == Allocated(page, st);
      T.AllocKeeps(top, s0, a, t);
      T.AllocConserves(top, s0, a, t);
      r := At(PageToAddr(minOrder, page));
    }

    /** One pass of the coalescing loop after its test has passed: the buddy
        leaves its list and the lower of the two heads a block of order o+1. */
    method MergeOnce(page: nat, o: nat, ghost a: Live) returns (q: nat, at: nat)
      requires Frame() && minOrder <= o < maxOrder && page < Pow2(Top())
      requires page in a && a[page] == o - minOrder && Inv(Top(), st, a)
      requires Flip(page, o - minOrder) in st.lists[o - minOrder]
      modifies this`st, order, free, pool, pool.next, pool.prev
      ensures Frame() && st == MergeStep(Top(), old(st), page, o - minOrder)
      ensures q == MergedHead(page, o - minOrder) && at == PageToAddr(minOrder, q)
    {
      hide Inv, Linked, T.Conserved, Pow2, Flip, Shl, Shr, Xor, Without, Unlink, Absent;
      ghost var s := st;
      ghost var k: nat := o - minOrder;
      FlipBound(page, k, Top());
      FlipFacts(page, k);
      BuddyAddrIsFlip(minOrder, page, o);
      q, at := page, PageToAddr(minOrder, page);
      var buddyAddr := BuddyAddr(at, o);
      var buddy := AddrToPage(minOrder, buddyAddr);
      ShlMono(buddy, page, minOrder);
      pool.DelInit(buddy);
      free[buddy] := 0;
      if buddyAddr < at {
        at := buddyAddr;
        q := buddy;
      }
      order[q] := o + 1;
      free[q] := 1;
      st := MergeStep(Top(), s, page, k);
    }

    /** The coalescing loop of buddy_free and the final list_add. */
    method CoalesceFrom(head: nat, headOrder: nat, ghost a: Live)
      requires Frame() && minOrder <= headOrder <= maxOrder && head < Pow2(Top())
      requires head in a && a[head] == headOrder - minOrder && Inv(Top(), st, a) && T.Quiet(st, a, head)
      modifies this`st, order, free, pool, pool.next, pool.prev
      ensures Frame() && st == Coalesce(Top(), old(st), head, headOrder - minOrder)
    {
      hide Inv, Linked, T.Conserved, Pow2, Flip, Shl, Shr, Xor, Without, Unlink, Absent, MergeStep, MergedHead, T.Quiet;
      ghost var top, s1 := Top(), st;
      ghost var g: Live := a;
      var page: nat := head;
      var o, at := headOrder, PageToAddr(minOrder, head);
      while o < maxOrder
        invariant minOrder <= o <= maxOrder && Frame() && page < Pow2(top)
        invariant at == PageToAddr(minOrder, page)
        invariant page in g && g[page] == o - minOrder && Inv(top, st, g) && T.Quiet(st, g, page)
        invariant Coalesce(top, st, page, o - minOrder) == Coalesce(top, s1, head, headOrder - minOrder)
      {
        ghost var s := st;
        ghost var k: nat := o - minOrder;
        T.MergeTestExact(top, s, g, page, k);
        BuddyAddrIsFlip(minOrder, page, o);
        FlipBound(page, k, top);
        var buddy := AddrToPage(minOrder, BuddyAddr(at, o));
        if free[buddy] == 0 || order[buddy] != o {
          break;
        }
        T.MergePass(top, s, g, page, k);
        T.MergeQuiet(top, s, g, page, k);
        ghost var p := page;
        page, at := MergeOnce(page, o, g);
        g := BuddyInv.Merged(g, p, k);
        o := o + 1;
      }
      T.LiveAbsent(top, st, g, page);
      pool.Add(page, o - minOrder);
      st := st.(lists := Push(st.lists, o - minOrder, page));
    }

    /** buddy_free of the address of a live block. */
    method Free(addr: nat)
      requires Valid() && AddrToPage(minOrder, addr) in live
      requires addr == PageToAddr(minOrder, AddrToPage(minOrder, addr))
      modifies this, order, free, pool, pool.next, pool.prev
      ensures Valid()
      ensures
        var p := AddrToPage(minOrder, addr);
        && p < Pow2(Top()) && 0 <= old(st).level[p] <= Top()
        && st == BuddySpec.Free(Top(), old(st), p)
        && live == old(live) - {p}
    {
      hide Inv, Linked, T.Conserved, Pow2, Flip, Shl, Shr, Xor, Without, Unlink, Absent;
      ghost var top, s0, a := Top(), st, live;
      var page := AddrToPage(minOrder, addr);
      T.FreeKeeps(top, s0, a, page);
      T.FreeConserves(top, s0, a, page);
      T.FlagRaised(top, s0, a, page);
      var o := order[page];
      free[page] := 1;
      st := s0.(free := s0.free[page := true]);
      CoalesceFrom(page, o, a);
      live := a - {page};
    }

    /** The counts that buddy_dump prints, one per order from MIN_ORDER up. */
    method Dump() returns (counts: seq<nat>)
      requires Valid()
      ensures |counts| == Top() + 1
      ensures forall k :: 0 <= k <= Top() ==> counts[k] == |st.lists[k]|
      ensures Total(counts, 0) + T.LiveWeight(live) == Pow2(Top())
    {
      counts := [];
      var o := minOrder;
      while o <= maxOrder
        invariant minOrder <= o <= maxOrder + 1 && |counts| == o - minOrder
        invariant forall k :: 0 <= k < |counts| ==> counts[k] == |pool.lists[k]|
      {
        var _, cnt := pool.Visit(o - minOrder);
        counts := counts + [cnt];
        o := o + 1;
      }
      TotalIsWeight(counts, pool.lists, 0);
    }
  }
}
