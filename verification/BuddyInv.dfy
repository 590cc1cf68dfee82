/** Every micro-step of the allocator keeps the invariant. */
module BuddyInv {
  import opened Bits
  import opened Lists
  import opened BuddySpec

  // ----------------------------------------------------------------- tilings

  /** The two halves of an aligned region of level k+1. */
  lemma Halves(p: nat, k: nat)
    requires Aligned(p, k + 1)
    ensures Aligned(p, k) && Aligned(Flip(p, k), k) && p < Flip(p, k)
    ensures Shr(p, k) % 2 == 0 && Shr(Flip(p, k), k) == Shr(p, k) + 1
    ensures forall x: nat :: In(x, p, k + 1) <==> In(x, p, k) || In(x, Flip(p, k), k)
  {
    AlignedStep(p, k);
    FlipFacts(p, k);
  }

  /** Of two blocks of a tiling that share an address, one is the other. */
  lemma SameBlock(top: nat, h: Live, p: nat, q: nat, x: nat)
    requires Tiling(top, h) && p in h && q in h && In(x, p, h[p]) && In(x, q, h[q])
    ensures p == q
  {
    if h[p] <= h[q] {
      ShrMono(x, p, h[p], h[q]);
      assert In(p, q, h[q]);
    } else {
      ShrMono(x, q, h[q], h[p]);
      assert In(q, p, h[p]);
    }
  }

  /** No block starts inside another one. */
  lemma NotHead(top: nat, h: Live, p: nat, x: nat)
    requires Tiling(top, h) && p in h && In(x, p, h[p]) && x != p
    ensures x !in h
  {
    if x in h {
      SameBlock(top, h, p, x, x);
    }
  }

  lemma SplitDisjoint(top: nat, h: Live, p: nat, k: nat, x: nat, y: nat)
    requires Tiling(top, h) && p in h && h[p] == k + 1
    requires var g := h[p := k][Flip(p, k) := k];
      x in g && y in g && g[x] <= g[y] && In(x, y, g[y])
    ensures x == y
  {
    Halves(p, k);
    var b := Flip(p, k);
    if x in {p, b} && y in {p, b} {
    } else if x in {p, b} {
      SameBlock(top, h, p, y, x);
    } else if y in {p, b} {
      SameBlock(top, h, p, x, x);
    }
  }

  lemma TilingSplit(top: nat, h: Live, p: nat, k: nat)
    requires Tiling(top, h) && p in h && h[p] == k + 1
    ensures Flip(p, k) < Pow2(top) && Flip(p, k) !in h
    ensures Tiling(top, h[p := k][Flip(p, k) := k])
  {
    Halves(p, k);
    FlipBound(p, k, top);
    var b := Flip(p, k);
    NotHead(top, h, p, b);
    var g := h[p := k][b := k];
    forall x: nat, y: nat | x in g && y in g && g[x] <= g[y] && In(x, y, g[y])
      ensures x == y
    {
      SplitDisjoint(top, h, p, k, x, y);
    }
    forall x: nat | x < Pow2(top) ensures Covered(g, x) {
      assert Covered(h, x);
      var y: nat :| y in h && In(x, y, h[y]);
      assert y in g && b in g;
    }
  }

  lemma MergeDisjoint(top: nat, h: Live, q: nat, k: nat, x: nat, y: nat)
    requires Tiling(top, h) && Aligned(q, k + 1)
    requires q in h && h[q] == k && Flip(q, k) in h && h[Flip(q, k)] == k
    requires var g := (h - {Flip(q, k)})[q := k + 1];
      x in g && y in g && g[x] <= g[y] && In(x, y, g[y])
    ensures x == y
  {
    Halves(q, k);
    var b := Flip(q, k);
    if x == q && y != q {
      SameBlock(top, h, q, y, q);
    } else if y == q && x != q {
      SameBlock(top, h, if In(x, q, k) then q else b, x, x);
    }
  }

  lemma TilingMerge(top: nat, h: Live, q: nat, k: nat)
    requires Tiling(top, h) && Aligned(q, k + 1) && k < top
    requires q in h && h[q] == k && Flip(q, k) in h && h[Flip(q, k)] == k
    ensures Tiling(top, (h - {Flip(q, k)})[q := k + 1])
  {
    Halves(q, k);
    var b := Flip(q, k);
    var g := (h - {b})[q := k + 1];
    forall x: nat, y: nat | x in g && y in g && g[x] <= g[y] && In(x, y, g[y])
      ensures x == y
    {
      MergeDisjoint(top, h, q, k, x, y);
    }
    forall x: nat | x < Pow2(top) ensures Covered(g, x) {
      assert Covered(h, x);
      var y: nat :| y in h && In(x, y, h[y]);
      assert q in g;
      if y != b {
        assert y in g;
      }
    }
  }

  // ------------------------------------------------------------- stale flags

  lemma StaleSplit(top: nat, h: Live, p: nat, k: nat, q: nat, j: int)
    requires Tiling(top, h) && p in h && h[p] == k + 1
    requires Stale(top, h, q, j) && q != Flip(p, k)
    ensures Stale(top, h[p := k][Flip(p, k) := k], q, j)
  {
    Halves(p, k);
    var b := Flip(p, k);
    NotHead(top, h, p, b);
    var g := h[p := k][b := k];
    var y: nat :| y in h && j < h[y] && In(q, y, h[y]);
    assert y in g && b in g;
    if y == p && j == k {
      AlignedUnique(q, b, k);
    }
  }

  lemma StaleMerge(top: nat, h: Live, q: nat, k: nat, x: nat, j: int)
    requires Tiling(top, h) && Aligned(q, k + 1)
    requires q in h && h[q] == k && Flip(q, k) in h && h[Flip(q, k)] == k
    requires Stale(top, h, x, j)
    ensures Stale(top, (h - {Flip(q, k)})[q := k + 1], x, j)
  {
    Halves(q, k);
    var g := (h - {Flip(q, k)})[q := k + 1];
    var y: nat :| y in h && j < h[y] && In(x, y, h[y]);
    assert q in g;
    if y != Flip(q, k) {
      assert y in g;
    }
  }

  // ------------------------------------------------------------ list contents

  lemma UnlinkFacts(top: nat, s: State, a: Live, h: Live, b: nat)
    requires Shaped(top, s) && Listed(top, s, a, h)
    ensures forall k: nat {:trigger NoDup(Unlink(s.lists, b)[k])} :: k <= top ==> NoDup(Unlink(s.lists, b)[k])
    ensures forall k: nat, x: nat {:trigger x in Unlink(s.lists, b)[k]} :: k <= top ==>
      (x in Unlink(s.lists, b)[k] <==> x in s.lists[k] && x != b)
  {
    forall k: nat | k <= top
      ensures NoDup(Unlink(s.lists, b)[k])
      ensures forall x: nat :: x in Unlink(s.lists, b)[k] <==> x in s.lists[k] && x != b
    {
      WithoutFacts(s.lists[k], b);
    }
  }

  // -------------------------------------------------------------- micro-steps

  lemma TakeListed(top: nat, s: State, a: Live, h: Live, f: nat)
    requires Shaped(top, s) && Listed(top, s, a, h) && f <= top && s.lists[f] != []
    requires s.lists[f][0] < Pow2(top)
    ensures Listed(top, Take(top, s, f), a[s.lists[f][0] := f], h)
  {
    var p := s.lists[f][0];
    assert p in s.lists[f];
    UnlinkFacts(top, s, a, h, p);
  }

  lemma UnlinkCoalesced(top: nat, s: State, a: Live, h: Live, b: nat)
    requires Shaped(top, s) && Listed(top, s, a, h) && Coalesced(top, s)
    ensures Coalesced(top, s.(lists := Unlink(s.lists, b)))
  {
    UnlinkFacts(top, s, a, h, b);
  }

  /** Moving a block from its list to the live set. */
  lemma TakeKeeps(top: nat, s: State, a: Live, h: Live, f: nat)
    requires InvFor(top, s, a, h) && f <= top && s.lists[f] != []
    ensures s.lists[f][0] < Pow2(top) && s.lists[f][0] in h && s.lists[f][0] !in a
    ensures InvFor(top, Take(top, s, f), a[s.lists[f][0] := f], h)
  {
    var p := s.lists[f][0];
    assert p in s.lists[f];
    TakeListed(top, s, a, h, f);
    UnlinkCoalesced(top, s, a, h, p);
  }

  lemma PushCoalesced(top: nat, s: State, p: nat, k: nat)
    requires Shaped(top, s) && Coalesced(top, s) && k <= top
    requires k < top ==> Flip(p, k) !in s.lists[k]
    ensures Coalesced(top, s.(lists := Push(s.lists, k, p)))
  {
    FlipFacts(p, k);
    forall m: nat, x: nat | m < top && x in Push(s.lists, k, p)[m] ensures Flip(x, m) !in Push(s.lists, k, p)[m] {
      FlipFacts(x, m);
    }
  }

  lemma PutListed(top: nat, s: State, a: Live, h: Live, p: nat)
    requires Shaped(top, s) && Listed(top, s, a, h) && p in a && a[p] <= top && p < Pow2(top) && s.free[p]
    ensures Listed(top, s.(lists := Push(s.lists, a[p], p)), a - {p}, h)
  {
    assert NoDup(s.lists[a[p]]);
    NoDupPush(s.lists[a[p]], p);
  }

  /** Moving a block from the live set to the front of its list. */
  lemma PutKeeps(top: nat, s: State, a: Live, h: Live, p: nat)
    requires InvFor(top, s, a, h) && p in a && p < Pow2(top) && s.free[p]
    requires a[p] < top ==> Flip(p, a[p]) !in s.lists[a[p]]
    ensures a[p] <= top && InvFor(top, s.(lists := Push(s.lists, a[p], p)), a - {p}, h)
  {
    PutListed(top, s, a, h, p);
    PushCoalesced(top, s, p, a[p]);
  }

  lemma SplitListed(top: nat, s: State, a: Live, h: Live, p: nat, k: nat)
    requires Shaped(top, s) && Listed(top, s, a, h)
    requires p in a && a[p] == k + 1 && k < top && p < Pow2(top)
    requires Flip(p, k) < Pow2(top) && Flip(p, k) !in h
    ensures Listed(top, SplitStep(top, s, p, k), a[p := k], h[p := k][Flip(p, k) := k])
  {
    var b := Flip(p, k);
    assert NoDup(s.lists[k]);
    NoDupPush(s.lists[k], b);
  }

  lemma SplitKeeps(top: nat, s: State, a: Live, h: Live, p: nat, k: nat)
    requires InvFor(top, s, a, h) && p in a && a[p] == k + 1
    ensures p < Pow2(top) && k < top
    ensures InvFor(top, SplitStep(top, s, p, k), a[p := k], h[p := k][Flip(p, k) := k])
  {
    TilingSplit(top, h, p, k);
    SplitListed(top, s, a, h, p, k);
    var b := Flip(p, k);
    FlipFacts(p, k);
    var r, g := SplitStep(top, s, p, k), h[p := k][b := k];
    PushCoalesced(top, s, b, k);
    forall q: nat | q < Pow2(top) && r.free[q] && q !in g ensures Stale(top, g, q, r.level[q]) {
      StaleSplit(top, h, p, k, q, s.level[q]);
    }
  }

  /** The live map after the block in transit has absorbed its buddy. */
  function Merged(a: Live, p: nat, k: nat): Live {
    (a - {p})[MergedHead(p, k) := k + 1]
  }

  /** All blocks after the merge. */
  function MergedBlocks(h: Live, p: nat, k: nat): Live {
    (h - {Flip(MergedHead(p, k), k)})[MergedHead(p, k) := k + 1]
  }

  lemma MergeListed(top: nat, s: State, a: Live, h: Live, p: nat, k: nat)
    requires Shaped(top, s) && Listed(top, s, a, h)
    requires k < top && p in a && a[p] == k && Flip(p, k) in s.lists[k]
    requires p < Pow2(top) && Flip(p, k) < Pow2(top)
    ensures Listed(top, MergeStep(top, s, p, k), Merged(a, p, k), MergedBlocks(h, p, k))
  {
    FlipFacts(p, k);
    UnlinkFacts(top, s, a, h, Flip(p, k));
  }

  /** The two halves of a merge are blocks of the tiling. */
  lemma MergeBlocks(top: nat, s: State, a: Live, h: Live, p: nat, k: nat)
    requires InvFor(top, s, a, h) && k < top && p in a && a[p] == k && Flip(p, k) in s.lists[k]
    ensures Tiling(top, h) && p in h && h[p] == k && Flip(p, k) in h && h[Flip(p, k)] == k && Flip(p, k) !in a
    ensures p < Pow2(top) && Flip(p, k) < Pow2(top) && Aligned(p, k) && Aligned(Flip(p, k), k)
  {
  }

  lemma MergeTiling(top: nat, s: State, a: Live, h: Live, p: nat, k: nat)
    requires InvFor(top, s, a, h) && k < top && p in a && a[p] == k && Flip(p, k) in s.lists[k]
    ensures p < Pow2(top) && MergedHead(p, k) < Pow2(top) && Flip(p, k) in h && Flip(p, k) !in a
    ensures Tiling(top, MergedBlocks(h, p, k)) && Aligned(MergedHead(p, k), k + 1)
  {
    hide InvFor, Tiling, Aligned, Flip, Pow2;
    MergeBlocks(top, s, a, h, p, k);
    FlipFacts(p, k);
    AlignedStep(MergedHead(p, k), k);
    TilingMerge(top, h, MergedHead(p, k), k);
  }

  lemma AbsorbedStale(top: nat, g: Live, q: nat, x: nat, k: nat)
    requires k < top && q in g && g[q] == k + 1 && In(x, q, k + 1) && Aligned(x, k) && Shr(x, k) % 2 == 1
    ensures Stale(top, g, x, k)
  {
  }

  /** The absorbed right half keeps its flag only if it was the block in transit,
      and then the merged block encloses it. */
  lemma MergeStaleOk(top: nat, s: State, a: Live, h: Live, p: nat, k: nat)
    requires InvFor(top, s, a, h) && k < top && p in a && a[p] == k && Flip(p, k) in s.lists[k]
    requires p < Pow2(top) && Aligned(MergedHead(p, k), k + 1)
    ensures StaleOk(top, MergeStep(top, s, p, k), MergedBlocks(h, p, k))
  {
    hide Tiling, Coalesced, Flip, Unlink, Aligned, Stale;
    var q := MergedHead(p, k);
    FlipFacts(p, k);
    Halves(q, k);
    var r, g := MergeStep(top, s, p, k), MergedBlocks(h, p, k);
    FlipBound(p, k, top);
    forall x: nat | x < Pow2(top) && r.free[x] && x !in g ensures Stale(top, g, x, r.level[x]) {
      if x == Flip(q, k) {
        AbsorbedStale(top, g, q, x, k);
      } else {
        assert s.free[x];
        StaleMerge(top, h, q, k, x, s.level[x]);
      }
    }
  }

  lemma MergeKeeps(top: nat, s: State, a: Live, h: Live, p: nat, k: nat)
    requires InvFor(top, s, a, h) && k < top && p in a && a[p] == k && Flip(p, k) in s.lists[k]
    ensures p < Pow2(top) && MergedHead(p, k) < Pow2(top) && Flip(p, k) !in a
    ensures InvFor(top, MergeStep(top, s, p, k), Merged(a, p, k), MergedBlocks(h, p, k))
  {
    MergeTiling(top, s, a, h, p, k);
    MergeListed(top, s, a, h, p, k);
    UnlinkCoalesced(top, s, a, h, Flip(p, k));
    MergeStaleOk(top, s, a, h, p, k);
  }
}
