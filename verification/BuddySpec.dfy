/** The buddy allocator as a state machine over values.

    A page is named by its index, and an order by its level, the distance from
    MIN_ORDER, so that a block of level k is 2^k pages and the whole memory is
    the one block of level `top`.  The descriptor fields of `page_t` and the
    contents of the free lists are kept exactly as buddy.c keeps them; the set
    of live blocks, which buddy.c does not record, is a separate map from the
    head page of each live block to its level. */
module BuddySpec {
  import opened Bits
  import opened Lists

  datatype State = State(level: seq<int>, free: seq<bool>, lists: seq<seq<nat>>)

  type Live = map<nat, nat>

  ghost predicate Shaped(top: nat, s: State) {
    && |s.level| == |s.free| == Pow2(top)
    && |s.lists| == top + 1
  }

  /** Every list element names a page. */
  ghost predicate InRange(top: nat, s: State) {
    Shaped(top, s) && forall k: nat, i: nat :: k <= top && i < |s.lists[k]| ==> s.lists[k][i] < Pow2(top)
  }

  // -------------------------------------------------------------- operations

  /** The least level from k up whose list is not empty; |lists| if there is none. */
  function FirstNonEmpty(lists: seq<seq<nat>>, k: nat): (f: nat)
    requires k <= |lists|
    ensures k <= f <= |lists|
    ensures forall j :: k <= j < f ==> lists[j] == []
    ensures f < |lists| ==> lists[f] != []
    decreases |lists| - k
  {
    if k == |lists| || lists[k] != [] then k else FirstNonEmpty(lists, k + 1)
  }

  /** buddy_init; descriptors start with order 0, that is, level -MIN_ORDER. */
  function Init(top: nat, minOrder: nat): (s: State)
    ensures Shaped(top, s)
  {
    var n := Pow2(top);
    State(seq<int>(n, i => if i == 0 then top else 0 - minOrder),
          seq(n, i => i == 0),
          seq(top + 1, k => if k == top then [0] else []))
  }

  /** One pass of the splitting loop: the right half of the block of level k+1
      headed by p goes onto the list of level k, the left half continues. */
  function SplitStep(top: nat, s: State, p: nat, k: nat): (r: State)
    requires Shaped(top, s) && p < Pow2(top) && k < top
    ensures Shaped(top, r)
  {
    FlipBound(p, k, top);
    var b := Flip(p, k);
    State(s.level[b := k][p := k], s.free[b := true], Push(s.lists, k, b))
  }

  /** The splitting loop, from level f down to level t. */
  function Split(top: nat, s: State, p: nat, f: nat, t: nat): (r: State)
    requires Shaped(top, s) && p < Pow2(top) && t <= f <= top
    ensures Shaped(top, r)
    decreases f
  {
    if f == t then s else Split(top, SplitStep(top, s, p, f - 1), p, f - 1, t)
  }

  /** Taking the first block off the list of level f. */
  function Take(top: nat, s: State, f: nat): (r: State)
    requires Shaped(top, s) && f <= top && s.lists[f] != [] && s.lists[f][0] < Pow2(top)
    ensures Shaped(top, r)
  {
    var p := s.lists[f][0];
    s.(free := s.free[p := false], lists := Unlink(s.lists, p))
  }

  datatype AllocResult = NoMemory | Allocated(page: nat, state: State)

  /** buddy_alloc for a request of level t. */
  function Alloc(top: nat, s: State, t: nat): (r: AllocResult)
    requires InRange(top, s)
    ensures r.Allocated? ==> Shaped(top, r.state) && r.page < Pow2(top)
  {
    if t > top then NoMemory
    else
      var f := FirstNonEmpty(s.lists, t);
      if f > top then NoMemory
      else
        var p := s.lists[f][0];
        var r := Split(top, Take(top, s, f), p, f, t);
        Allocated(p, r.(level := r.level[p := t], free := r.free[p := false]))
  }

  /** The test of the coalescing loop, as the code makes it: on the flags alone. */
  predicate CanMerge(top: nat, s: State, p: nat, k: nat)
    requires Shaped(top, s) && p < Pow2(top) && k < top
  {
    FlipBound(p, k, top);
    s.free[Flip(p, k)] && s.level[Flip(p, k)] == k
  }

  /** The head of the merged block: the lower of the two buddies. */
  function MergedHead(p: nat, k: nat): nat {
    if Flip(p, k) < p then Flip(p, k) else p
  }

  function MergeStep(top: nat, s: State, p: nat, k: nat): (r: State)
    requires Shaped(top, s) && p < Pow2(top) && k < top
    ensures Shaped(top, r)
  {
    FlipBound(p, k, top);
    var b := Flip(p, k);
    var q := MergedHead(p, k);
    State(s.level[q := k + 1], s.free[b := false][q := true], Unlink(s.lists, b))
  }

  /** The coalescing loop followed by the final list_add. */
  function Coalesce(top: nat, s: State, p: nat, k: nat): (r: State)
    requires Shaped(top, s) && p < Pow2(top) && k <= top
    ensures Shaped(top, r)
    decreases top - k
  {
    if k < top && CanMerge(top, s, p, k) then
      FlipBound(p, k, top);
      Coalesce(top, MergeStep(top, s, p, k), MergedHead(p, k), k + 1)
    else
      s.(lists := Push(s.lists, k, p))
  }

  /** buddy_free of the block headed by page p. */
  function Free(top: nat, s: State, p: nat): (r: State)
    requires Shaped(top, s) && p < Pow2(top) && 0 <= s.level[p] <= top
    ensures Shaped(top, r)
  {
    Coalesce(top, s.(free := s.free[p := true]), p, s.level[p])
  }

  // --------------------------------------------------------------- invariant

  /** x lies in the aligned region of level k around p. */
  predicate In(x: nat, p: nat, k: nat) {
    Shr(x, k) == Shr(p, k)
  }

  ghost predicate Covered(h: Live, x: nat) {
    exists p: nat :: p in h && In(x, p, h[p])
  }

  /** The blocks of h, given as head page and level, are aligned, pairwise
      disjoint, and together cover the memory. */
  ghost predicate Tiling(top: nat, h: Live) {
    && (forall p: nat :: p in h ==> h[p] <= top && p < Pow2(top) && Aligned(p, h[p]))
    && (forall p: nat, q: nat {:trigger In(p, q, h[q])} ::
          p in h && q in h && h[p] <= h[q] && In(p, q, h[q]) ==> p == q)
    && (forall x: nat :: x < Pow2(top) ==> Covered(h, x))
  }

  /** Descriptors and lists agree with the blocks: those of `a` are off the lists,
      every other one is on exactly the list of its level, once. */
  ghost predicate Listed(top: nat, s: State, a: Live, h: Live)
    requires Shaped(top, s)
  {
    && (forall p: nat :: p in a ==> p in h && a[p] == h[p])
    && (forall p: nat :: p in h && p < Pow2(top) ==> s.level[p] == h[p])
    && (forall k: nat, p: nat {:trigger p in s.lists[k]} :: k <= top && p in s.lists[k] ==>
          p in h && p !in a && h[p] == k)
    && (forall p: nat {:trigger h[p]} :: p in h && p !in a && h[p] <= top && p < Pow2(top) ==>
          p in s.lists[h[p]] && s.free[p])
    && (forall k: nat {:trigger NoDup(s.lists[k])} :: k <= top ==> NoDup(s.lists[k]))
  }

  /** No free block has a free buddy. */
  ghost predicate Coalesced(top: nat, s: State)
    requires Shaped(top, s)
  {
    forall k: nat, p: nat {:trigger Flip(p, k)} :: k < top && p in s.lists[k] ==> Flip(p, k) !in s.lists[k]
  }

  /** A page whose flag says free although it heads no block is the right half
      of an aligned region that lies inside one block of a larger level. */
  ghost predicate Stale(top: nat, h: Live, q: nat, k: int) {
    && 0 <= k < top
    && Aligned(q, k)
    && Shr(q, k) % 2 == 1
    && exists p: nat :: p in h && k < h[p] && In(q, p, h[p])
  }

  ghost predicate StaleOk(top: nat, s: State, h: Live)
    requires Shaped(top, s)
  {
    forall q: nat {:trigger s.free[q]} :: q < Pow2(top) && s.free[q] && q !in h ==> Stale(top, h, q, s.level[q])
  }

  /** What every micro-step of the two loops keeps, h being all blocks and `a`
      the live ones together with the block in transit. */
  ghost predicate InvFor(top: nat, s: State, a: Live, h: Live) {
    && Shaped(top, s)
    && Tiling(top, h)
    && Listed(top, s, a, h)
    && Coalesced(top, s)
    && StaleOk(top, s, h)
  }

  ghost predicate Inv(top: nat, s: State, a: Live) {
    exists h: Live :: InvFor(top, s, a, h)
  }

  /** What holds between calls. */
  ghost predicate Valid(top: nat, s: State, a: Live) {
    && Inv(top, s, a)
    && forall p: nat :: p in a ==> p < |s.free| && !s.free[p]
  }
}
