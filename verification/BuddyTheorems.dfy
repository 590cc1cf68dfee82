/** What buddy_alloc and buddy_free keep, and what follows for every run. */
module BuddyTheorems {
  import opened Bits
  import opened Lists
  import opened BuddySpec
  import opened BuddyInv

  // ------------------------------------------------------------- buddy_init

  lemma {:induction false} AlignedZero(k: nat)
    ensures Aligned(0, k)
  {
    if k > 0 {
      AlignedZero(k - 1);
    }
  }

  lemma InitValid(top: nat, minOrder: nat)
    ensures Valid(top, Init(top, minOrder), map[])
  {
    var s := Init(top, minOrder);
    var h: Live := map[0 := top];
    AlignedZero(top);
    forall x: nat | x < Pow2(top) ensures Covered(h, x) {
      ShrZero(x, top);
      ShrZero(0, top);
      assert 0 in h && In(x, 0, h[0]);
    }
    assert InvFor(top, s, map[], h);
  }

  // ------------------------------------------------------------ buddy_alloc

  /** The right half that a split puts on a list is not live. */
  lemma SplitFresh(top: nat, s: State, a: Live, h: Live, p: nat, k: nat)
    requires InvFor(top, s, a, h) && p in a && a[p] == k + 1
    ensures Flip(p, k) < Pow2(top) && Flip(p, k) !in a
  {
    TilingSplit(top, h, p, k);
  }

  /** The splitting loop: the invariant survives, the block in transit shrinks
      to level t, and its own flag is not raised. */
  lemma {:induction false} SplitLoop(top: nat, s: State, a: Live, h: Live, p: nat, f: nat, t: nat)
    requires Shaped(top, s) && InvFor(top, s, a, h) && p in a && a[p] == f && t <= f <= top && p < Pow2(top)
    requires s.level[p] == f
    ensures Inv(top, Split(top, s, p, f, t), a[p := t])
    ensures Split(top, s, p, f, t).level[p] == t
    ensures forall q: nat :: q in a && q < Pow2(top) && !s.free[q] ==> !Split(top, s, p, f, t).free[q]
    decreases f
  {
    hide InvFor;
    if f == t {
      assert a[p := t] == a;
    } else {
      var k := f - 1;
      SplitKeeps(top, s, a, h, p, k);
      FlipFacts(p, k);
      SplitFresh(top, s, a, h, p, k);
      SplitLoop(top, SplitStep(top, s, p, k), a[p := k], h[p := k][Flip(p, k) := k], p, k, t);
      assert a[p := k][p := t] == a[p := t];
    }
  }

  /** A state with the invariant meets what Alloc requires. */
  lemma ListPagesInRange(top: nat, s: State, a: Live)
    requires Inv(top, s, a)
    ensures InRange(top, s)
  {
    var h :| InvFor(top, s, a, h);
    forall k: nat, i: nat | k <= top && i < |s.lists[k]| ensures s.lists[k][i] < Pow2(top) {
      assert s.lists[k][i] in s.lists[k];
      assert s.lists[k][i] in h;
    }
  }

  /** Taking the first block of list f off its list. */
  lemma TakePass(top: nat, s: State, a: Live, f: nat)
    requires Inv(top, s, a) && f < |s.lists| && s.lists[f] != []
    ensures Shaped(top, s) && f <= top && s.lists[f][0] < Pow2(top) && s.lists[f][0] !in a
    ensures Inv(top, Take(top, s, f), a[s.lists[f][0] := f])
  {
    var h :| InvFor(top, s, a, h);
    TakeKeeps(top, s, a, h, f);
  }

  lemma TakenLevel(top: nat, s: State, a: Live, h: Live, f: nat)
    requires InvFor(top, s, a, h) && f <= top && s.lists[f] != []
    ensures s.lists[f][0] < Pow2(top) && s.level[s.lists[f][0]] == f
  {
    assert s.lists[f][0] in s.lists[f];
    assert s.lists[f][0] in h;
  }

  lemma SplitDown(top: nat, s: State, a: Live, h: Live, f: nat, t: nat)
    requires Shaped(top, s) && InvFor(top, s, a, h) && t <= f <= top && s.lists[f] != []
    requires forall q: nat :: q in a ==> q < |s.free| && !s.free[q]
    ensures s.lists[f][0] < Pow2(top) && s.lists[f][0] !in a
    ensures Valid(top, Split(top, Take(top, s, f), s.lists[f][0], f, t), a[s.lists[f][0] := t])
    ensures Split(top, Take(top, s, f), s.lists[f][0], f, t).level[s.lists[f][0]] == t
  {
    hide InvFor;
    var p := s.lists[f][0];
    assert a[p := f][p := t] == a[p := t];
    TakeKeeps(top, s, a, h, f);
    TakenLevel(top, s, a, h, f);
    SplitLoop(top, Take(top, s, f), a[p := f], h, p, f, t);
  }

  /** buddy_alloc keeps the invariant and returns the head of a block of the
      requested level that was not live, leaving every other live block alone. */
  lemma AllocKeeps(top: nat, s: State, a: Live, t: nat)
    requires Valid(top, s, a)
    ensures InRange(top, s)
    ensures Alloc(top, s, t).Allocated? ==>
      var p := Alloc(top, s, t).page;
      p !in a && t <= top && Valid(top, Alloc(top, s, t).state, a[p := t])
  {
    ListPagesInRange(top, s, a);
    if Alloc(top, s, t).Allocated? {
      var h :| InvFor(top, s, a, h);
      var f := FirstNonEmpty(s.lists, t);
      var p := s.lists[f][0];
      SplitDown(top, s, a, h, f, t);
      var r := Split(top, Take(top, s, f), p, f, t);
      assert p in a[p := t];
      assert r.level[p := t] == r.level && r.free[p := false] == r.free;
    }
  }

  /** What one pass of the splitting loop needs and leaves. */
  lemma SplitPass(top: nat, s: State, a: Live, p: nat, k: nat)
    requires Inv(top, s, a) && p in a && a[p] == k + 1
    ensures Shaped(top, s) && p < Pow2(top) && k < top && Flip(p, k) < Pow2(top) && Flip(p, k) != p
    ensures Absent(s.lists, Flip(p, k))
    ensures Inv(top, SplitStep(top, s, p, k), a[p := k])
  {
    var h :| InvFor(top, s, a, h);
    SplitKeeps(top, s, a, h, p, k);
    TilingSplit(top, h, p, k);
  }

  /** A live block is on no list. */
  lemma LiveAbsent(top: nat, s: State, a: Live, p: nat)
    requires Inv(top, s, a) && p in a
    ensures p < Pow2(top) && a[p] <= top && Aligned(p, a[p]) && |s.lists| == top + 1 && Absent(s.lists, p)
  {
    var h :| InvFor(top, s, a, h);
    assert p in h;
  }

  // ------------------------------------------------------------- buddy_free

  /** Apart from the block in transit no live block carries a raised flag. */
  ghost predicate Quiet(s: State, a: Live, p: nat) {
    forall q: nat :: q in a && q != p ==> q < |s.free| && !s.free[q]
  }

  /** Stale flags are harmless: the flags pass the test of the coalescing loop
      exactly when the buddy is a free block of that level on its list. */
  lemma MergeTestExact(top: nat, s: State, a: Live, p: nat, k: nat)
    requires Inv(top, s, a) && k < top && p in a && a[p] == k && Quiet(s, a, p)
    ensures p < Pow2(top)
    ensures CanMerge(top, s, p, k) <==> Flip(p, k) in s.lists[k]
  {
    var h :| InvFor(top, s, a, h);
    var b := Flip(p, k);
    FlipBound(p, k, top);
    FlipFacts(p, k);
    if CanMerge(top, s, p, k) && b !in s.lists[k] {
      assert b !in h;
      assert Stale(top, h, b, k);
      var q: nat :| q in h && k < h[q] && In(b, q, h[q]);
      FlipAbove(p, k, h[q]);
      SameBlock(top, h, p, q, p);
      assert false;
    }
  }

  /** The coalescing loop as it would run on the lists alone. */
  function CoalesceLists(top: nat, lists: seq<seq<nat>>, p: nat, k: nat): (r: seq<seq<nat>>)
    requires |lists| == top + 1 && k <= top
    decreases top - k
  {
    if k < top && Flip(p, k) in lists[k] then
      CoalesceLists(top, Unlink(lists, Flip(p, k)), MergedHead(p, k), k + 1)
    else
      Push(lists, k, p)
  }

  lemma MergeQuiet(top: nat, s: State, a: Live, p: nat, k: nat)
    requires Shaped(top, s) && k < top && p in a && Quiet(s, a, p)
    requires p < Pow2(top) && Flip(p, k) !in a
    ensures MergeStep(top, s, p, k).free[MergedHead(p, k)]
    ensures Quiet(MergeStep(top, s, p, k), Merged(a, p, k), MergedHead(p, k))
    ensures Merged(a, p, k) - {MergedHead(p, k)} == a - {p}
  {
    FlipBound(p, k, top);
  }

  lemma MergePass(top: nat, s: State, a: Live, p: nat, k: nat)
    requires Inv(top, s, a) && k < top && p in a && a[p] == k
    requires Flip(p, k) in s.lists[k] && p < Pow2(top)
    ensures MergedHead(p, k) < Pow2(top) && Flip(p, k) !in a
    ensures Inv(top, MergeStep(top, s, p, k), Merged(a, p, k))
  {
    var h :| InvFor(top, s, a, h);
    MergeKeeps(top, s, a, h, p, k);
  }

  lemma PutPass(top: nat, s: State, a: Live, p: nat)
    requires Inv(top, s, a) && p in a && a[p] <= top && Quiet(s, a, p)
    requires p < Pow2(top) && s.free[p]
    requires a[p] < top ==> Flip(p, a[p]) !in s.lists[a[p]]
    ensures Valid(top, s.(lists := Push(s.lists, a[p], p)), a - {p})
  {
    var h :| InvFor(top, s, a, h);
    PutKeeps(top, s, a, h, p);
  }

  /** The coalescing loop keeps the invariant, and the lists it leaves are those
      it would leave if it tested list membership instead of the flags. */
  lemma {:induction false} CoalesceLoop(top: nat, s: State, a: Live, p: nat, k: nat)
    requires Shaped(top, s) && Inv(top, s, a) && p in a && a[p] == k && k <= top && Quiet(s, a, p)
    requires p < Pow2(top) && s.free[p]
    ensures Valid(top, Coalesce(top, s, p, k), a - {p})
    ensures Coalesce(top, s, p, k).lists == CoalesceLists(top, s.lists, p, k)
    decreases top - k
  {
    hide Inv;
    if k < top {
      MergeTestExact(top, s, a, p, k);
    }
    if k < top && CanMerge(top, s, p, k) {
      MergePass(top, s, a, p, k);
      MergeQuiet(top, s, a, p, k);
      var s', q := MergeStep(top, s, p, k), MergedHead(p, k);
      CoalesceLoop(top, s', Merged(a, p, k), q, k + 1);
    } else {
      PutPass(top, s, a, p);
    }
  }

  lemma FreeKeeps(top: nat, s: State, a: Live, p: nat)
    requires Valid(top, s, a) && p in a
    ensures p < Pow2(top) && s.level[p] == a[p] <= top
    ensures Valid(top, Free(top, s, p), a - {p})
    ensures Free(top, s, p).lists == CoalesceLists(top, s.lists, p, a[p])
  {
    var h :| InvFor(top, s, a, h);
    assert p in h;
    var s1 := s.(free := s.free[p := true]);
    assert InvFor(top, s1, a, h);
    CoalesceLoop(top, s1, a, p, a[p]);
  }

  // --------------------------------------------------------- canonical form

  /** Page x belongs to a live block. */
  ghost predicate Owned(a: Live, x: nat) {
    exists p: nat :: p in a && In(x, p, a[p])
  }

  /** No page of the region of level k around q belongs to a live block. */
  ghost predicate Unallocated(a: Live, q: nat, k: nat) {
    forall x: nat :: In(x, q, k) ==> !Owned(a, x)
  }

  lemma UnallocatedPart(a: Live, q: nat, k: nat, p: nat, m: nat)
    requires Unallocated(a, q, k) && m <= k && In(p, q, k)
    ensures Unallocated(a, p, m)
  {
    forall x: nat | In(x, p, m) ensures !Owned(a, x) {
      ShrMono(x, p, m, k);
    }
  }

  /** A free block is disjoint from all live blocks. */
  lemma FreeBlockUnallocated(top: nat, s: State, a: Live, h: Live, p: nat)
    requires InvFor(top, s, a, h) && p in h && p !in a
    ensures Unallocated(a, p, h[p])
  {
    forall x: nat | In(x, p, h[p]) ensures !Owned(a, x) {
      if q: nat :| q in a && In(x, q, a[q]) {
        SameBlock(top, h, p, q, x);
        assert false;
      }
    }
  }

  /** Full coalescing: a region with no live page lies inside a single free block. */
  lemma {:induction false} RegionInOneBlock(top: nat, s: State, a: Live, h: Live, q: nat, k: nat) returns (p: nat)
    requires InvFor(top, s, a, h) && k <= top && q < Pow2(top) && Aligned(q, k)
    requires Unallocated(a, q, k)
    ensures p in h && p !in a && k <= h[p] && In(q, p, h[p])
    decreases k
  {
    if k == 0 {
      assert Covered(h, q);
      p :| p in h && In(q, p, h[p]);
      assert p !in a by {
        if p in a {
          assert In(q, q, k) && Owned(a, q);
        }
      }
    } else {
      Halves(q, k - 1);
      var f := Flip(q, k - 1);
      FlipBound(q, k - 1, top);
      UnallocatedPart(a, q, k, q, k - 1);
      UnallocatedPart(a, q, k, f, k - 1);
      p := RegionInOneBlock(top, s, a, h, q, k - 1);
      assert !(q in s.lists[k - 1] && f in s.lists[k - 1]);
      if h[p] == k - 1 {
        AlignedUnique(p, q, k - 1);
        var o := RegionInOneBlock(top, s, a, h, f, k - 1);
        if h[o] == k - 1 {
          AlignedUnique(o, f, k - 1);
        } else {
          FlipAbove(q, k - 1, h[o]);
          SameBlock(top, h, p, o, q);
        }
        assert false;
      }
    }
  }

  /** p heads a maximal aligned block without a live page. */
  ghost predicate Maximal(top: nat, a: Live, p: nat, k: nat) {
    && p < Pow2(top) && Aligned(p, k) && Unallocated(a, p, k)
    && (k < top ==> !Unallocated(a, p, k + 1))
  }

  lemma ListedIsMaximal(top: nat, s: State, a: Live, h: Live, p: nat, k: nat)
    requires InvFor(top, s, a, h) && k <= top && p in s.lists[k]
    ensures Maximal(top, a, p, k)
  {
    FreeBlockUnallocated(top, s, a, h, p);
    if k < top && Unallocated(a, p, k + 1) {
      var q := MergedHead(p, k);
      FlipFacts(p, k);
      AlignedStep(q, k);
      UnallocatedPart(a, p, k + 1, q, k + 1);
      FlipBound(p, k, top);
      var o := RegionInOneBlock(top, s, a, h, q, k + 1);
      ShrMono(p, q, k + 1, h[o]);
      SameBlock(top, h, p, o, p);
      assert false;
    }
  }

  lemma MaximalIsListed(top: nat, s: State, a: Live, h: Live, p: nat, k: nat)
    requires InvFor(top, s, a, h) && k <= top && Maximal(top, a, p, k)
    ensures p in s.lists[k]
  {
    var o := RegionInOneBlock(top, s, a, h, p, k);
    if h[o] == k {
      AlignedUnique(p, o, k);
    } else {
      FreeBlockUnallocated(top, s, a, h, o);
      UnallocatedPart(a, o, h[o], p, k + 1);
      assert false;
    }
  }

  /** Canonical form: the free blocks are exactly the maximal aligned power-of-two
      blocks disjoint from every live block. */
  lemma CanonicalForm(top: nat, s: State, a: Live, p: nat, k: nat)
    requires Valid(top, s, a) && k <= top
    ensures Shaped(top, s) && (p in s.lists[k] <==> Maximal(top, a, p, k))
  {
    var h :| InvFor(top, s, a, h);
    if p in s.lists[k] {
      ListedIsMaximal(top, s, a, h, p, k);
    }
    if Maximal(top, a, p, k) {
      MaximalIsListed(top, s, a, h, p, k);
    }
  }

  lemma {:induction false} NoDupCount(l: seq<nat>, p: nat)
    requires NoDup(l)
    ensures multiset(l)[p] == if p in l then 1 else 0
  {
    if l != [] {
      assert l == [l[0]] + l[1..];
      NoDupCount(l[1..], p);
    }
  }

  /** The free set is a function of the live set: it does not remember the history. */
  lemma HistoryIndependence(top: nat, s: State, r: State, a: Live, k: nat)
    requires Valid(top, s, a) && Valid(top, r, a) && k <= top
    ensures multiset(s.lists[k]) == multiset(r.lists[k])
  {
    forall p: nat ensures p in s.lists[k] <==> p in r.lists[k] {
      CanonicalForm(top, s, a, p, k);
      CanonicalForm(top, r, a, p, k);
    }
    forall p: nat ensures multiset(s.lists[k])[p] == multiset(r.lists[k])[p] {
      NoDupCount(s.lists[k], p);
      NoDupCount(r.lists[k], p);
    }
  }

  lemma NoDupPair(l: seq<nat>, i: nat, j: nat)
    requires NoDup(l) && i < j < |l|
    ensures l[i] != l[j]
  {
  }

  lemma OnlyZero(l: seq<nat>)
    requires NoDup(l) && 0 in l && forall i :: 0 <= i < |l| ==> l[i] == 0
    ensures l == [0]
  {
    if |l| > 1 {
      NoDupPair(l, 0, 1);
      assert false;
    }
  }

  /** With nothing live, memory is the one block of the top level again. */
  lemma AllFreed(top: nat, s: State)
    requires Valid(top, s, map[])
    ensures s.lists[top] == [0]
    ensures forall k: nat :: k < top ==> s.lists[k] == []
  {
    var a: Live := map[];
    forall k: nat | k < top ensures s.lists[k] == [] {
      if s.lists[k] != [] {
        var p := s.lists[k][0];
        assert p in s.lists[k];
        CanonicalForm(top, s, a, p, k);
        assert false;
      }
    }
    AlignedZero(top);
    CanonicalForm(top, s, a, 0, top);
    var l := s.lists[top];
    assert NoDup(l);
    forall i | 0 <= i < |l| ensures l[i] == 0 {
      CanonicalForm(top, s, a, l[i], top);
      assert l[i] in l;
      ShrZero(l[i], top);
      ShrZero(0, top);
      AlignedUnique(l[i], 0, top);
    }
    OnlyZero(l);
  }

  // ---------------------------------------------------------- completeness

  /** An aligned region of level t, inside memory, without a live page. */
  ghost predicate Room(top: nat, a: Live, q: nat, t: nat) {
    q < Pow2(top) && Aligned(q, t) && Unallocated(a, q, t)
  }

  /** buddy_alloc fails exactly when no aligned region of the requested level is
      wholly unallocated. */
  lemma AllocComplete(top: nat, s: State, a: Live, t: nat)
    requires Valid(top, s, a) && t <= top
    ensures InRange(top, s)
    ensures Alloc(top, s, t).NoMemory? <==>
      !exists q: nat :: Room(top, a, q, t)
    ensures Alloc(top, s, t).Allocated? ==> Room(top, a, Alloc(top, s, t).page, t)
  {
    ListPagesInRange(top, s, a);
    var h :| InvFor(top, s, a, h);
    var f := FirstNonEmpty(s.lists, t);
    if f <= top {
      var p := s.lists[f][0];
      assert p in s.lists[f];
      FreeBlockUnallocated(top, s, a, h, p);
      UnallocatedPart(a, p, f, p, t);
      AlignedMono(p, t, f);
      assert Room(top, a, p, t);
    } else if q: nat :| Room(top, a, q, t) {
      var p := RegionInOneBlock(top, s, a, h, q, t);
      assert false;
    }
  }

  /** buddy_alloc takes the first block of the smallest order that suffices, and the
      block it returns starts where the block it split started. */
  lemma AllocBestFit(top: nat, s: State, a: Live, t: nat)
    requires Valid(top, s, a)
    ensures InRange(top, s)
    ensures Alloc(top, s, t).Allocated? ==>
      exists f: nat :: t <= f <= top && s.lists[f] != [] && s.lists[f][0] == Alloc(top, s, t).page &&
        forall k: nat :: t <= k <= top && s.lists[k] != [] ==> f <= k
  {
    ListPagesInRange(top, s, a);
    if t <= top {
      var f := FirstNonEmpty(s.lists, t);
    }
  }

  // ------------------------------------------------- alloc undone by free

  function SplitLists(lists: seq<seq<nat>>, p: nat, f: nat, t: nat): (r: seq<seq<nat>>)
    requires t <= f <= |lists|
    ensures |r| == |lists|
    decreases f
  {
    if f == t then lists else SplitLists(Push(lists, f - 1, Flip(p, f - 1)), p, f - 1, t)
  }

  lemma {:induction false} SplitOnLists(top: nat, s: State, p: nat, f: nat, t: nat)
    requires Shaped(top, s) && p < Pow2(top) && t <= f <= top
    ensures Split(top, s, p, f, t).lists == SplitLists(s.lists, p, f, t)
    decreases f
  {
    if f > t {
      SplitOnLists(top, SplitStep(top, s, p, f - 1), p, f - 1, t);
    }
  }

  /** The last pass of the splitting loop, seen from below. */
  lemma {:induction false} SplitListsLast(lists: seq<seq<nat>>, p: nat, f: nat, t: nat)
    requires t < f <= |lists|
    ensures SplitLists(lists, p, f, t) == Push(SplitLists(lists, p, f, t + 1), t, Flip(p, t))
    decreases f
  {
    if t + 1 < f {
      SplitListsLast(Push(lists, f - 1, Flip(p, f - 1)), p, f - 1, t);
    }
  }

  lemma UnlinkPush(lists: seq<seq<nat>>, k: nat, b: nat)
    requires k < |lists| && Absent(lists, b)
    ensures Unlink(Push(lists, k, b), b) == lists
  {
    forall j | 0 <= j < |lists| ensures Without(Push(lists, k, b)[j], b) == lists[j] {
    }
  }

  lemma {:induction false} SplitListsAbsent(lists: seq<seq<nat>>, p: nat, f: nat, t: nat, x: nat)
    requires t <= f <= |lists| && Absent(lists, x)
    requires forall k: nat :: t <= k < f ==> Flip(p, k) != x
    ensures Absent(SplitLists(lists, p, f, t), x)
    decreases f
  {
    if f > t {
      SplitListsAbsent(Push(lists, f - 1, Flip(p, f - 1)), p, f - 1, t, x);
    }
  }

  /** Coalescing from level t undoes the splits down to level t. */
  lemma {:induction false} CoalesceUndoesSplit(top: nat, lists: seq<seq<nat>>, p: nat, f: nat, t: nat)
    requires |lists| == top + 1 && t <= f <= top && Aligned(p, f)
    requires forall k: nat :: t <= k < f ==> Absent(lists, Flip(p, k))
    ensures CoalesceLists(top, SplitLists(lists, p, f, t), p, t) == CoalesceLists(top, lists, p, f)
    decreases f - t
  {
    hide Absent, Aligned, Unlink, Shr, Flip;
    if t < f {
      var b := Flip(p, t);
      AlignedMono(p, t + 1, f);
      Halves(p, t);
      var upper := SplitLists(lists, p, f, t + 1);
      forall k: nat | t + 1 <= k < f ensures Flip(p, k) != b {
        FlipAbove(p, t, k);
        FlipFacts(p, k);
      }
      SplitListsAbsent(lists, p, f, t + 1, b);
      SplitListsLast(lists, p, f, t);
      UnlinkPush(upper, t, b);
      CoalesceUndoesSplit(top, lists, p, f, t + 1);
    }
  }

  /** Putting the first element of a list back restores the lists. */
  lemma PushUnlink(top: nat, s: State, a: Live, h: Live, f: nat)
    requires InvFor(top, s, a, h) && f <= top && s.lists[f] != []
    ensures Push(Unlink(s.lists, s.lists[f][0]), f, s.lists[f][0]) == s.lists
  {
    var p := s.lists[f][0];
    assert p in s.lists[f];
    assert NoDup(s.lists[f]);
    assert [p] + s.lists[f][1..] == s.lists[f];
  }

  /** No right half of the first block of list f is on a list. */
  lemma RightHalvesAbsent(top: nat, s: State, a: Live, h: Live, f: nat, t: nat)
    requires InvFor(top, s, a, h) && f <= top && s.lists[f] != []
    ensures forall k: nat :: t <= k < f ==> Absent(Unlink(s.lists, s.lists[f][0]), Flip(s.lists[f][0], k))
  {
    var p := s.lists[f][0];
    assert p in s.lists[f];
    UnlinkFacts(top, s, a, h, p);
    forall k: nat | t <= k < f ensures Absent(Unlink(s.lists, p), Flip(p, k)) {
      FlipAbove(p, k, f);
      FlipFacts(p, k);
      NotHead(top, h, p, Flip(p, k));
    }
  }

  /** Freeing a block at once after allocating it restores every free list,
      the order of its elements included. */
  lemma AllocFreeIdentity(top: nat, s: State, a: Live, t: nat)
    requires Valid(top, s, a)
    ensures InRange(top, s)
    ensures Alloc(top, s, t).Allocated? ==>
      var r := Alloc(top, s, t);
      0 <= r.state.level[r.page] <= top && Free(top, r.state, r.page).lists == s.lists
  {
    AllocKeeps(top, s, a, t);
    var r := Alloc(top, s, t);
    if r.Allocated? {
      var h :| InvFor(top, s, a, h);
      var f := FirstNonEmpty(s.lists, t);
      var p := s.lists[f][0];
      assert p in a[p := t];
      FreeKeeps(top, r.state, a[p := t], p);
      TakeKeeps(top, s, a, h, f);
      SplitOnLists(top, Take(top, s, f), p, f, t);
      var taken := Unlink(s.lists, p);
      RightHalvesAbsent(top, s, a, h, f, t);
      CoalesceUndoesSplit(top, taken, p, f, t);
      UnlinkFacts(top, s, a, h, p);
      assert f < top ==> Flip(p, f) !in taken[f];
      PushUnlink(top, s, a, h, f);
    }
  }

  // ---------------------------------------------------------- conservation

  /** Pages on the lists of level k and above: what buddy_dump's counts add up to. */
  function Weight(lists: seq<seq<nat>>, k: nat): (w: nat)
    requires k <= |lists|
    decreases |lists| - k
  {
    if k == |lists| then 0 else |lists[k]| * Pow2(k) + Weight(lists, k + 1)
  }

  lemma {:induction false} WeightChange(l: seq<seq<nat>>, r: seq<seq<nat>>, j: nat, k: nat, d: int)
    requires |l| == |r| && j < |l| && k <= |l|
    requires forall i :: 0 <= i < |l| && i != j ==> |l[i]| == |r[i]|
    requires |r[j]| == |l[j]| + d
    ensures Weight(r, k) == Weight(l, k) + (if k <= j then d * Pow2(j) else 0)
    decreases |l| - k
  {
    if k < |l| {
      WeightChange(l, r, j, k + 1, d);
      if k == j {
        assert (|l[j]| + d) * Pow2(j) == |l[j]| * Pow2(j) + d * Pow2(j);
      }
    }
  }

  /** b is on the list of level j and on no other. */
  ghost predicate OnlyOn(lists: seq<seq<nat>>, b: nat, j: nat) {
    forall k: nat :: k < |lists| ==> (b in lists[k] <==> k == j)
  }

  lemma UnlinkWeight(lists: seq<seq<nat>>, b: nat, j: nat)
    requires j < |lists| && OnlyOn(lists, b, j)
    ensures Weight(Unlink(lists, b), 0) == Weight(lists, 0) - Pow2(j)
  {
    forall i | 0 <= i < |lists| ensures |Unlink(lists, b)[i]| == |lists[i]| - (if i == j then 1 else 0) {
      WithoutLen(lists[i], b);
    }
    WeightChange(lists, Unlink(lists, b), j, 0, -1);
  }

  lemma {:induction false} SplitWeight(lists: seq<seq<nat>>, p: nat, f: nat, t: nat)
    requires t <= f <= |lists|
    ensures Weight(SplitLists(lists, p, f, t), 0) + Pow2(t) == Weight(lists, 0) + Pow2(f)
    decreases f
  {
    if f > t {
      var pushed := Push(lists, f - 1, Flip(p, f - 1));
      WeightChange(lists, pushed, f - 1, 0, 1);
      SplitWeight(pushed, p, f - 1, t);
    }
  }

  /** Each list node is on the list of its own level only. */
  lemma ListedOnlyOn(top: nat, s: State, a: Live, b: nat, k: nat)
    requires Inv(top, s, a) && k <= top && b in s.lists[k]
    ensures OnlyOn(s.lists, b, k)
  {
    var h :| InvFor(top, s, a, h);
  }

  lemma {:induction false} CoalesceWeight(top: nat, s: State, a: Live, p: nat, k: nat)
    requires Shaped(top, s) && Inv(top, s, a) && p in a && a[p] == k && k <= top && Quiet(s, a, p)
    requires p < Pow2(top) && s.free[p]
    ensures Weight(Coalesce(top, s, p, k).lists, 0) == Weight(s.lists, 0) + Pow2(k)
    decreases top - k
  {
    hide Inv, Quiet, MergedHead, Weight, Unlink, OnlyOn, Pow2, Flip;
    if k < top {
      MergeTestExact(top, s, a, p, k);
    }
    if k < top && CanMerge(top, s, p, k) {
      MergePass(top, s, a, p, k);
      MergeQuiet(top, s, a, p, k);
      ListedOnlyOn(top, s, a, Flip(p, k), k);
      UnlinkWeight(s.lists, Flip(p, k), k);
      PowStep(k + 1);
      CoalesceWeight(top, MergeStep(top, s, p, k), Merged(a, p, k), MergedHead(p, k), k + 1);
    } else {
      WeightChange(s.lists, Push(s.lists, k, p), k, 0, 1);
    }
  }

  /** Pages in live blocks. */
  ghost function LiveWeight(a: Live): nat {
    if a == map[] then 0
    else
      var p :| p in a;
      Pow2(a[p]) + LiveWeight(a - {p})
  }

  lemma {:induction false} LiveWeightRemove(a: Live, p: nat)
    requires p in a
    ensures LiveWeight(a) == Pow2(a[p]) + LiveWeight(a - {p})
    decreases |a|
  {
    var q :| q in a && LiveWeight(a) == Pow2(a[q]) + LiveWeight(a - {q});
    if q != p {
      LiveWeightRemove(a - {q}, p);
      LiveWeightRemove(a - {p}, q);
      assert a - {q} - {p} == a - {p} - {q};
    }
  }

  /** Listed pages and live pages together are all of memory. */
  ghost predicate Conserved(top: nat, s: State, a: Live) {
    |s.lists| == top + 1 && Weight(s.lists, 0) + LiveWeight(a) == Pow2(top)
  }

  lemma AllocConserves(top: nat, s: State, a: Live, t: nat)
    requires Shaped(top, s) && Valid(top, s, a) && Conserved(top, s, a)
    ensures InRange(top, s)
    ensures Alloc(top, s, t).Allocated? ==>
      Conserved(top, Alloc(top, s, t).state, a[Alloc(top, s, t).page := t])
  {
    hide Inv;
    AllocKeeps(top, s, a, t);
    var r := Alloc(top, s, t);
    if r.Allocated? {
      var f := FirstNonEmpty(s.lists, t);
      var p := s.lists[f][0];
      assert p in s.lists[f];
      ListedOnlyOn(top, s, a, p, f);
      UnlinkWeight(s.lists, p, f);
      SplitOnLists(top, Take(top, s, f), p, f, t);
      SplitWeight(Unlink(s.lists, p), p, f, t);
      LiveWeightRemove(a[p := t], p);
      assert a[p := t] - {p} == a;
    }
  }

  /** Raising the flag of a live block, the first thing buddy_free does. */
  lemma FlagRaised(top: nat, s: State, a: Live, p: nat)
    requires Valid(top, s, a) && p in a
    ensures p < Pow2(top) && Inv(top, s.(free := s.free[p := true]), a)
  {
    var h :| InvFor(top, s, a, h);
    assert p in h;
    assert InvFor(top, s.(free := s.free[p := true]), a, h);
  }

  lemma FreeConserves(top: nat, s: State, a: Live, p: nat)
    requires Valid(top, s, a) && Conserved(top, s, a) && p in a
    ensures p < Pow2(top) && 0 <= s.level[p] <= top
    ensures Conserved(top, Free(top, s, p), a - {p})
  {
    FreeKeeps(top, s, a, p);
    FlagRaised(top, s, a, p);
    CoalesceWeight(top, s.(free := s.free[p := true]), a, p, a[p]);
    LiveWeightRemove(a, p);
  }

  // ------------------------------------------------------------------- runs

  datatype Op = AllocOp(t: nat) | FreeOp(p: nat)

  datatype Heap = Heap(s: State, a: Live)

  ghost predicate Sound(top: nat, x: Heap) {
    Valid(top, x.s, x.a) && Conserved(top, x.s, x.a)
  }

  /** One call: an allocation of any level, or a free of a live block. */
  ghost predicate Step(top: nat, x: Heap, op: Op, y: Heap) {
    && InRange(top, x.s)
    && match op
       case AllocOp(t) =>
         (match Alloc(top, x.s, t)
          case NoMemory => y == x
          case Allocated(p, s) => y == Heap(s, x.a[p := t]))
       case FreeOp(p) =>
         && p in x.a && p < Pow2(top) && 0 <= x.s.level[p] <= top
         && y == Heap(Free(top, x.s, p), x.a - {p})
  }

  /** A run from buddy_init: trace[i+1] follows trace[i] by ops[i]. */
  ghost predicate Run(top: nat, minOrder: nat, ops: seq<Op>, trace: seq<Heap>) {
    && |trace| == |ops| + 1
    && trace[0] == Heap(Init(top, minOrder), map[])
    && forall i :: 0 <= i < |ops| ==> Step(top, trace[i], ops[i], trace[i + 1])
  }

  lemma StepSound(top: nat, x: Heap, op: Op, y: Heap)
    requires Sound(top, x) && Step(top, x, op, y)
    ensures Sound(top, y)
  {
    match op
    case AllocOp(t) =>
      AllocKeeps(top, x.s, x.a, t);
      AllocConserves(top, x.s, x.a, t);
    case FreeOp(p) =>
      FreeKeeps(top, x.s, x.a, p);
      FreeConserves(top, x.s, x.a, p);
  }

  lemma {:induction false} NoWeight(l: seq<seq<nat>>, k: nat)
    requires k <= |l| && forall i :: 0 <= i < |l| ==> l[i] == []
    ensures Weight(l, k) == 0
    decreases |l| - k
  {
    if k < |l| {
      NoWeight(l, k + 1);
    }
  }

  lemma InitConserves(top: nat, minOrder: nat)
    ensures Conserved(top, Init(top, minOrder), map[])
  {
    var s := Init(top, minOrder);
    var none: seq<seq<nat>> := seq(top + 1, k => []);
    NoWeight(none, 0);
    WeightChange(none, s.lists, top, 0, 1);
  }

  /** Every state of every run satisfies the invariant and conserves memory. */
  lemma {:induction false} RunSound(top: nat, minOrder: nat, ops: seq<Op>, trace: seq<Heap>, n: nat)
    requires Run(top, minOrder, ops, trace) && n <= |ops|
    ensures Sound(top, trace[n])
    decreases n
  {
    if n == 0 {
      InitValid(top, minOrder);
      InitConserves(top, minOrder);
    } else {
      RunSound(top, minOrder, ops, trace, n - 1);
      StepSound(top, trace[n - 1], ops[n - 1], trace[n]);
    }
  }

  /** Two runs that end with the same live blocks end with the same free blocks;
      with none live, memory is one block again, whatever the order of the frees. */
  lemma RunsConverge(top: nat, min1: nat, ops1: seq<Op>, trace1: seq<Heap>, min2: nat, ops2: seq<Op>, trace2: seq<Heap>)
    requires Run(top, min1, ops1, trace1) && Run(top, min2, ops2, trace2)
    requires trace1[|ops1|].a == trace2[|ops2|].a
    ensures Shaped(top, trace1[|ops1|].s) && Shaped(top, trace2[|ops2|].s)
    ensures forall k: nat :: k <= top ==>
      multiset(trace1[|ops1|].s.lists[k]) == multiset(trace2[|ops2|].s.lists[k])
    ensures trace1[|ops1|].a == map[] ==> trace1[|ops1|].s.lists == Init(top, min1).lists
  {
    RunSound(top, min1, ops1, trace1, |ops1|);
    RunSound(top, min2, ops2, trace2, |ops2|);
    var x, y := trace1[|ops1|], trace2[|ops2|];
    forall k: nat | k <= top ensures multiset(x.s.lists[k]) == multiset(y.s.lists[k]) {
      HistoryIndependence(top, x.s, y.s, x.a, k);
    }
    if x.a == map[] {
      AllFreed(top, x.s);
    }
  }

  // ------------------------------------------------------------ stale flags

  ghost predicate OnSomeList(top: nat, s: State, q: nat)
    requires Shaped(top, s)
  {
    exists k: nat :: k <= top && q in s.lists[k]
  }

  /** By the descriptors of page p, q lies inside a larger block that p heads. */
  ghost predicate Encloses(top: nat, s: State, a: Live, p: nat, q: nat)
    requires Shaped(top, s) && p < Pow2(top) && q < Pow2(top)
  {
    (s.free[p] || p in a) && 0 <= s.level[p] && s.level[q] < s.level[p] && In(q, p, s.level[p])
  }

  /** Some page's descriptors claim a larger block around q. */
  ghost predicate Enclosed(top: nat, s: State, a: Live, q: nat)
    requires Shaped(top, s) && q < Pow2(top)
  {
    exists p: nat :: p < Pow2(top) && Encloses(top, s, a, p, q)
  }

  /** Nobody's descriptors claim a larger block around the head of a block. */
  lemma HeadNotEnclosed(top: nat, s: State, a: Live, h: Live, p: nat, q: nat)
    requires InvFor(top, s, a, h) && q in h && q < Pow2(top) && p < Pow2(top)
    ensures !Encloses(top, s, a, p, q)
  {
    if Encloses(top, s, a, p, q) {
      if p in h {
        SameBlock(top, h, p, q, q);
      } else {
        assert Stale(top, h, p, s.level[p]);
        var r: nat :| r in h && s.level[p] < h[r] && In(p, r, h[r]);
        ShrMono(q, p, s.level[p], h[r]);
        SameBlock(top, h, q, r, q);
      }
      assert false;
    }
  }

  /** When the flag is right: a page is on a free list exactly when its flag says
      free and no descriptor of another page puts it inside a larger block. */
  lemma FlagExact(top: nat, s: State, a: Live, q: nat)
    requires Valid(top, s, a) && q < Pow2(top)
    ensures Shaped(top, s)
    ensures OnSomeList(top, s, q) <==> s.free[q] && !Enclosed(top, s, a, q)
  {
    var h :| InvFor(top, s, a, h);
    if q in h {
      forall p: nat | p < Pow2(top) ensures !Encloses(top, s, a, p, q) {
        HeadNotEnclosed(top, s, a, h, p, q);
      }
      if s.free[q] {
        assert q !in a;
        assert q in s.lists[h[q]];
      } else {
        assert !OnSomeList(top, s, q);
      }
    } else {
      assert !OnSomeList(top, s, q);
      if s.free[q] {
        assert Stale(top, h, q, s.level[q]);
        var p: nat :| p in h && s.level[q] < h[p] && In(q, p, h[p]);
        assert p < Pow2(top) && s.level[p] == h[p];
        assert p !in a ==> s.free[p];
        assert Encloses(top, s, a, p, q);
      }
    }
  }

  /** Flags of page x from s to r: none is raised but on a list or at p; one that changes
      is that of a page taken off or put on a list; and beyond page p a page taken off for
      good has its flag lowered. */
  ghost predicate FlagsFollow(top: nat, s: State, r: State, p: nat, x: nat)
    requires Shaped(top, s) && Shaped(top, r) && x < Pow2(top)
  {
    && (r.free[x] ==> s.free[x] || OnSomeList(top, r, x))
    && (!OnSomeList(top, s, x) && !OnSomeList(top, r, x) ==> r.free[x] == s.free[x])
    && (x > p && OnSomeList(top, s, x) && !OnSomeList(top, r, x) ==> !r.free[x])
  }

  lemma {:induction false} StillThere(l: seq<nat>, b: nat, x: nat)
    requires x != b
    ensures x in Without(l, b) <==> x in l
  {
    if l != [] {
      StillThere(l[1..], b, x);
    }
  }

  lemma UnlinkedOnly(top: nat, s: State, b: nat, x: nat)
    requires Shaped(top, s)
    ensures x != b ==> (OnSomeList(top, s.(lists := Unlink(s.lists, b)), x) <==> OnSomeList(top, s, x))
  {
    forall k: nat | k <= top && x != b ensures x in Unlink(s.lists, b)[k] <==> x in s.lists[k] {
      StillThere(s.lists[k], b, x);
    }
    if x != b && OnSomeList(top, s, x) {
      var k: nat :| k <= top && x in s.lists[k];
      assert x in Unlink(s.lists, b)[k];
    }
  }

  lemma PushedOn(top: nat, s: State, p: nat, k: nat, x: nat)
    requires Shaped(top, s) && k <= top
    ensures OnSomeList(top, s.(lists := Push(s.lists, k, p)), x) <==> x == p || OnSomeList(top, s, x)
  {
    var r := s.(lists := Push(s.lists, k, p));
    forall m: nat | m <= top ensures x in r.lists[m] <==> x in s.lists[m] || (m == k && x == p) {
    }
    if OnSomeList(top, s, x) {
      var m: nat :| m <= top && x in s.lists[m];
      assert x in r.lists[m];
    }
  }

  /** One merge, for a page other than the block in transit. */
  lemma MergeFlag(top: nat, s: State, p: nat, k: nat, x: nat)
    requires Shaped(top, s) && k < top && p < Pow2(top) && x < Pow2(top) && x != MergedHead(p, k)
    requires Flip(p, k) in s.lists[k]
    ensures
      var r := MergeStep(top, s, p, k);
      && (x != Flip(p, k) ==> r.free[x] == s.free[x] && (OnSomeList(top, r, x) <==> OnSomeList(top, s, x)))
      && (x == Flip(p, k) ==> !r.free[x] && x > p && OnSomeList(top, s, x))
  {
    FlipBound(p, k, top);
    FlipFacts(p, k);
    var b := Flip(p, k);
    UnlinkedOnly(top, s, b, x);
    var r, u := MergeStep(top, s, p, k), s.(lists := Unlink(s.lists, b));
    assert OnSomeList(top, r, x) <==> OnSomeList(top, u, x);
  }

  /** One merge, for the block in transit. */
  lemma HeadFlag(top: nat, s: State, p: nat, k: nat)
    requires Shaped(top, s) && k < top && p < Pow2(top) && s.free[p] && CanMerge(top, s, p, k)
    requires Flip(p, k) in s.lists[k]
    ensures
      var r, q := MergeStep(top, s, p, k), MergedHead(p, k);
      && q <= p && q < Pow2(top) && s.free[q] && r.free[q]
      && (if q == p then OnSomeList(top, r, p) <==> OnSomeList(top, s, p) else q < p && OnSomeList(top, s, q))
  {
    FlipBound(p, k, top);
    FlipFacts(p, k);
    var r, u := MergeStep(top, s, p, k), s.(lists := Unlink(s.lists, Flip(p, k)));
    UnlinkedOnly(top, s, Flip(p, k), p);
    assert OnSomeList(top, r, p) <==> OnSomeList(top, u, p);
  }

  /** The coalescing loop; the flag of the block in transit is raised. */
  lemma {:induction false} CoalesceFlags(top: nat, s: State, a: Live, p: nat, k: nat, x: nat)
    requires Shaped(top, s) && Inv(top, s, a) && p in a && a[p] == k && k <= top && Quiet(s, a, p)
    requires p < Pow2(top) && s.free[p] && x < Pow2(top)
    ensures FlagsFollow(top, s, Coalesce(top, s, p, k), p, x)
    decreases top - k
  {
    hide Inv, Quiet, OnSomeList, MergedHead, MergeStep, CanMerge;
    if k < top {
      MergeTestExact(top, s, a, p, k);
    }
    if k < top && CanMerge(top, s, p, k) {
      MergePass(top, s, a, p, k);
      MergeQuiet(top, s, a, p, k);
      HeadFlag(top, s, p, k);
      var q := MergedHead(p, k);
      CoalesceFlags(top, MergeStep(top, s, p, k), Merged(a, p, k), q, k + 1, x);
      if x != q {
        MergeFlag(top, s, p, k, x);
      }
    } else {
      PushedOn(top, s, p, k, x);
    }
  }

  /** What buddy_free does to the flag of any page x: it raises it only for the page freed
      or for one that is on a list afterwards; it leaves it alone for every other page that
      is on no list before and after; and it lowers it for the blocks behind the page freed
      that are absorbed.  Only the page freed and heads in front of it can be left stale. */
  lemma FreeFlags(top: nat, s: State, a: Live, p: nat, x: nat)
    requires Valid(top, s, a) && p in a && x < Pow2(top)
    ensures p < Pow2(top) && 0 <= s.level[p] <= top
    ensures
      var r := Free(top, s, p);
      && (r.free[x] ==> s.free[x] || x == p || OnSomeList(top, r, x))
      && (x != p && !OnSomeList(top, s, x) && !OnSomeList(top, r, x) ==> r.free[x] == s.free[x])
      && (x > p && OnSomeList(top, s, x) && !OnSomeList(top, r, x) ==> !r.free[x])
  {
    FreeKeeps(top, s, a, p);
    FlagRaised(top, s, a, p);
    var s1 := s.(free := s.free[p := true]);
    assert OnSomeList(top, s1, x) <==> OnSomeList(top, s, x);
    hide Inv, Coalesce, OnSomeList;
    CoalesceFlags(top, s1, a, p, a[p], x);
  }

  lemma PushOntoEmpty()
    ensures forall p: nat :: Push([[], []], 0, p) == [[p], []] && Push([[], []], 1, p) == [[], [p]]
  {
    forall p: nat ensures Push([[], []], 0, p) == [[p], []] && Push([[], []], 1, p) == [[], [p]] {
      assert [p] + [] == [p];
    }
  }

  const TWO_PAGES_ONE_LIVE := State([0, 0], [false, true], [[1], []])
  const TWO_PAGES_LIVE := State([0, 0], [false, false], [[], []])
  const FIRST_PAGE_FREE := State([0, 0], [true, false], [[0], []])
  const ALL_FREE_STALE := State([1, 0], [true, true], [[], [0]])

  lemma AllocFirstPage(minOrder: nat)
    ensures InRange(1, Init(1, minOrder)) && Alloc(1, Init(1, minOrder), 0) == Allocated(0, TWO_PAGES_ONE_LIVE)
  {
    PushOntoEmpty();
    var s := Init(1, minOrder);
    assert s == State([1, 0 - minOrder], [true, false], [[], [0]]);
    var t := Take(1, s, 1);
    assert Unlink(s.lists, 0) == [[], []];
    assert t == State([1, 0 - minOrder], [false, false], [[], []]);
    assert SplitStep(1, t, 0, 0) == TWO_PAGES_ONE_LIVE;
    assert Split(1, t, 0, 1, 0) == Split(1, TWO_PAGES_ONE_LIVE, 0, 0, 0) == TWO_PAGES_ONE_LIVE;
  }

  lemma AllocSecondPage()
    ensures InRange(1, TWO_PAGES_ONE_LIVE) && Alloc(1, TWO_PAGES_ONE_LIVE, 0) == Allocated(1, TWO_PAGES_LIVE)
  {
    assert Unlink(TWO_PAGES_ONE_LIVE.lists, 1) == [[], []];
    assert Take(1, TWO_PAGES_ONE_LIVE, 0) == TWO_PAGES_LIVE;
    assert Split(1, TWO_PAGES_LIVE, 1, 0, 0) == TWO_PAGES_LIVE;
  }

  lemma FreeFirstPage()
    ensures InRange(1, TWO_PAGES_LIVE) && Free(1, TWO_PAGES_LIVE, 0) == FIRST_PAGE_FREE
  {
    PushOntoEmpty();
  }

  lemma FreeSecondPage()
    ensures InRange(1, FIRST_PAGE_FREE) && Free(1, FIRST_PAGE_FREE, 1) == ALL_FREE_STALE
  {
    PushOntoEmpty();
    var f := FIRST_PAGE_FREE.(free := [true, true]);
    assert Unlink(f.lists, 0) == [[], []];
    var m := State([1, 0], [true, true], [[], []]);
    assert MergeStep(1, f, 1, 0) == m;
    assert Coalesce(1, f, 1, 0) == Coalesce(1, m, 0, 1) == ALL_FREE_STALE;
  }

  /** "free is 1 exactly for the pages on a list" is false: two pages allocated and
      freed in order leave page 1 flagged free, on no list, inside a larger block. */
  lemma StaleFlagReachable(minOrder: nat)
    ensures exists trace: seq<Heap> ::
      && Run(1, minOrder, [AllocOp(0), AllocOp(0), FreeOp(0), FreeOp(1)], trace)
      && Shaped(1, trace[4].s) && trace[4].s.free[1] && Absent(trace[4].s.lists, 1)
  {
    AllocFirstPage(minOrder);
    AllocSecondPage();
    FreeFirstPage();
    FreeSecondPage();
    hide Alloc, Free;
    var trace := [Heap(Init(1, minOrder), map[]), Heap(TWO_PAGES_ONE_LIVE, map[0 := 0]),
                  Heap(TWO_PAGES_LIVE, map[0 := 0, 1 := 0]), Heap(FIRST_PAGE_FREE, map[1 := 0]),
                  Heap(ALL_FREE_STALE, map[])];
    var ops := [AllocOp(0), AllocOp(0), FreeOp(0), FreeOp(1)];
    assert trace[0].a[0 := 0] == trace[1].a && trace[1].a[1 := 0] == trace[2].a;
    assert trace[2].a - {0} == trace[3].a && trace[3].a - {1} == trace[4].a;
    assert Step(1, trace[0], ops[0], trace[1]);
    assert Step(1, trace[1], ops[1], trace[2]);
    assert Step(1, trace[2], ops[2], trace[3]);
    assert Step(1, trace[3], ops[3], trace[4]);
    assert Run(1, minOrder, ops, trace);
  }
}
