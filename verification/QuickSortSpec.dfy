/** CLG_(qsort) of callgrind's dump.c as functions on sequences: insertion sort for
    short ranges, and a three-way partition that collects the elements equal to the
    pivot at both ends and then swaps them into the middle. */
module QuickSortSpec {

  type Cmp<!T> = (T, T) -> int

  /** cmp treats every element as equal to itself. */
  ghost predicate Reflexive<T(!new)>(cmp: Cmp<T>) {
    forall x: T :: cmp(x, x) == 0
  }

  /** cmp is a total preorder. */
  ghost predicate Order<T(!new)>(cmp: Cmp<T>) {
    && Reflexive(cmp)
    && (forall x: T, y: T :: cmp(x, y) < 0 <==> cmp(y, x) > 0)
    && (forall x: T, y: T, z: T :: cmp(x, y) <= 0 && cmp(y, z) <= 0 ==> cmp(x, z) <= 0)
  }

  ghost predicate Sorted<T(!new)>(cmp: Cmp<T>, a: seq<T>, lo: int, hi: int) {
    forall i, j :: 0 <= lo <= i < j < hi <= |a| ==> cmp(a[i], a[j]) <= 0
  }

  // ---------------------------------------------------------------- swapping

  function Swap<T>(a: seq<T>, i: int, j: int): (r: seq<T>)
    requires 0 <= i < |a| && 0 <= j < |a|
    ensures |r| == |a|
  {
    a[i := a[j]][j := a[i]]
  }

  /** b is a rearrangement of a that differs from it inside [lo, hi) only. */
  ghost predicate Perm<T>(a: seq<T>, b: seq<T>, lo: int, hi: int) {
    && |a| == |b| && 0 <= lo <= hi <= |a|
    && multiset(a) == multiset(b)
    && (forall i :: 0 <= i < lo ==> a[i] == b[i])
    && (forall i :: hi <= i < |a| ==> a[i] == b[i])
  }

  lemma SwapPerm<T>(a: seq<T>, i: int, j: int, lo: int, hi: int)
    requires 0 <= lo <= i < hi <= |a| && lo <= j < hi
    ensures Perm(a, Swap(a, i, j), lo, hi)
  {
    assert multiset(a) == multiset(Swap(a, i, j));
  }

  lemma PermSelf<T>(a: seq<T>, lo: int, hi: int)
    requires 0 <= lo <= hi <= |a|
    ensures Perm(a, a, lo, hi)
  {
  }

  lemma PermTrans<T>(a: seq<T>, b: seq<T>, c: seq<T>, lo: int, hi: int)
    requires Perm(a, b, lo, hi) && Perm(b, c, lo, hi)
    ensures Perm(a, c, lo, hi)
  {
  }

  lemma PermWiden<T>(a: seq<T>, b: seq<T>, lo: int, hi: int, lo': int, hi': int)
    requires Perm(a, b, lo, hi) && 0 <= lo' <= lo && hi <= hi' <= |a|
    ensures Perm(a, b, lo', hi')
  {
  }

  lemma SplitMultiset<T>(a: seq<T>, lo: int, hi: int)
    requires 0 <= lo <= hi <= |a|
    ensures multiset(a) == multiset(a[..lo]) + multiset(a[lo..hi]) + multiset(a[hi..])
  {
    assert a == a[..lo] + a[lo..hi] + a[hi..];
  }

  /** The elements of the range are the same. */
  lemma PermRange<T>(a: seq<T>, b: seq<T>, lo: int, hi: int)
    requires Perm(a, b, lo, hi)
    ensures multiset(a[lo..hi]) == multiset(b[lo..hi])
  {
    SplitMultiset(a, lo, hi);
    SplitMultiset(b, lo, hi);
    assert a[..lo] == b[..lo] && a[hi..] == b[hi..];
    var outer := multiset(a[..lo]) + multiset(a[hi..]);
    assert multiset(a[lo..hi]) == multiset(a) - outer;
    assert multiset(b[lo..hi]) == multiset(b) - outer;
  }

  /** A property of all elements of the range survives a rearrangement of the range. */
  lemma PermAll<T(!new)>(a: seq<T>, b: seq<T>, lo: int, hi: int, p: T -> bool)
    requires Perm(a, b, lo, hi) && forall i :: lo <= i < hi ==> p(a[i])
    ensures forall i :: lo <= i < hi ==> p(b[i])
  {
    PermRange(a, b, lo, hi);
    forall i | lo <= i < hi ensures p(b[i]) {
      assert b[lo..hi][i - lo] in multiset(b[lo..hi]);
      assert b[i] in multiset(a[lo..hi]);
      var k :| 0 <= k < hi - lo && a[lo..hi][k] == b[i];
    }
  }

  // ---------------------------------------------------------- insertion sort

  /** The inner loop: sink the element at pl towards lo. */
  function Sink<T>(cmp: Cmp<T>, a: seq<T>, lo: int, pl: int): (r: seq<T>)
    requires 0 <= lo <= pl < |a|
    ensures |r| == |a|
    decreases pl
  {
    if pl > lo && cmp(a[pl - 1], a[pl]) > 0 then Sink(cmp, Swap(a, pl, pl - 1), lo, pl - 1) else a
  }

  function InsertionSort<T>(cmp: Cmp<T>, a: seq<T>, lo: int, pm: int, hi: int): (r: seq<T>)
    requires 0 <= lo < pm && hi <= |a|
    ensures |r| == |a|
    decreases hi - pm
  {
    if pm < hi then InsertionSort(cmp, Sink(cmp, a, lo, pm), lo, pm + 1, hi) else a
  }

  lemma {:induction false} SinkPerm<T>(cmp: Cmp<T>, a: seq<T>, lo: int, pl: int)
    requires 0 <= lo <= pl < |a|
    ensures Perm(a, Sink(cmp, a, lo, pl), lo, pl + 1)
    decreases pl
  {
    if pl > lo && cmp(a[pl - 1], a[pl]) > 0 {
      var b := Swap(a, pl, pl - 1);
      SwapPerm(a, pl, pl - 1, lo, pl + 1);
      SinkPerm(cmp, b, lo, pl - 1);
      PermWiden(b, Sink(cmp, b, lo, pl - 1), lo, pl, lo, pl + 1);
      PermTrans(a, b, Sink(cmp, b, lo, pl - 1), lo, pl + 1);
    }
  }

  lemma {:induction false} InsertionSortPerm<T>(cmp: Cmp<T>, a: seq<T>, lo: int, pm: int, hi: int)
    requires 0 <= lo < pm <= hi <= |a|
    ensures Perm(a, InsertionSort(cmp, a, lo, pm, hi), lo, hi)
    decreases hi - pm
  {
    if pm < hi {
      var b := Sink(cmp, a, lo, pm);
      SinkPerm(cmp, a, lo, pm);
      PermWiden(a, b, lo, pm + 1, lo, hi);
      InsertionSortPerm(cmp, b, lo, pm + 1, hi);
      PermTrans(a, b, InsertionSort(cmp, b, lo, pm + 1, hi), lo, hi);
    }
  }

  /** Sorted up to hi except that position p may be too small for its place. */
  ghost predicate SortedBut<T(!new)>(cmp: Cmp<T>, a: seq<T>, lo: int, p: int, hi: int) {
    && (forall i, j :: 0 <= lo <= i < j < hi <= |a| && i != p && j != p ==> cmp(a[i], a[j]) <= 0)
    && (forall j :: 0 <= lo <= p < j < hi <= |a| ==> cmp(a[p], a[j]) <= 0)
  }

  lemma SinkStep<T(!new)>(cmp: Cmp<T>, a: seq<T>, lo: int, pl: int, hi: int)
    requires Order(cmp) && 0 <= lo < pl < hi <= |a| && SortedBut(cmp, a, lo, pl, hi) && cmp(a[pl - 1], a[pl]) > 0
    ensures SortedBut(cmp, Swap(a, pl, pl - 1), lo, pl - 1, hi)
  {
    var b := Swap(a, pl, pl - 1);
    assert cmp(a[pl], a[pl - 1]) < 0;
    assert b[pl - 1] == a[pl] && b[pl] == a[pl - 1];
  }

  lemma SinkStop<T(!new)>(cmp: Cmp<T>, a: seq<T>, lo: int, pl: int, hi: int)
    requires Order(cmp) && 0 <= lo <= pl < hi <= |a| && SortedBut(cmp, a, lo, pl, hi)
    requires pl > lo ==> cmp(a[pl - 1], a[pl]) <= 0
    ensures Sorted(cmp, a, lo, hi)
  {
    forall i, j | lo <= i < j < hi ensures cmp(a[i], a[j]) <= 0 {
      if j == pl && i < pl - 1 {
        assert cmp(a[i], a[pl - 1]) <= 0;
      }
    }
  }

  lemma {:induction false} SinkSorts<T(!new)>(cmp: Cmp<T>, a: seq<T>, lo: int, pl: int, hi: int)
    requires Order(cmp) && 0 <= lo <= pl < hi <= |a| && SortedBut(cmp, a, lo, pl, hi)
    ensures Sorted(cmp, Sink(cmp, a, lo, pl), lo, hi)
    decreases pl
  {
    hide Order, SortedBut, Sorted, Swap;
    if pl > lo && cmp(a[pl - 1], a[pl]) > 0 {
      SinkStep(cmp, a, lo, pl, hi);
      SinkSorts(cmp, Swap(a, pl, pl - 1), lo, pl - 1, hi);
    } else {
      SinkStop(cmp, a, lo, pl, hi);
    }
  }

  lemma {:induction false} InsertionSortSorts<T(!new)>(cmp: Cmp<T>, a: seq<T>, lo: int, pm: int, hi: int)
    requires Order(cmp) && 0 <= lo < pm && pm <= hi <= |a| && Sorted(cmp, a, lo, pm)
    ensures Sorted(cmp, InsertionSort(cmp, a, lo, pm, hi), lo, hi)
    decreases hi - pm
  {
    hide Order, Sink;
    if pm < hi {
      assert SortedBut(cmp, a, lo, pm, pm + 1);
      SinkSorts(cmp, a, lo, pm, pm + 1);
      InsertionSortSorts(cmp, Sink(cmp, a, lo, pm), lo, pm + 1, hi);
    }
  }

  // ------------------------------------------------------------------- pivot

  /** med3, on positions */
  function Med3<T>(cmp: Cmp<T>, a: seq<T>, i: int, j: int, k: int): (r: int)
    requires 0 <= i < |a| && 0 <= j < |a| && 0 <= k < |a|
    ensures r == i || r == j || r == k
  {
    if cmp(a[i], a[j]) < 0 then
      (if cmp(a[j], a[k]) < 0 then j else if cmp(a[i], a[k]) < 0 then k else i)
    else
      (if cmp(a[j], a[k]) > 0 then j else if cmp(a[i], a[k]) > 0 then k else i)
  }

  /** How many of three elements lie below, or above, x. */
  function Below<T>(cmp: Cmp<T>, x: T, p: T, q: T, r: T): int {
    (if cmp(p, x) < 0 then 1 else 0) + (if cmp(q, x) < 0 then 1 else 0) + (if cmp(r, x) < 0 then 1 else 0)
  }

  function Above<T>(cmp: Cmp<T>, x: T, p: T, q: T, r: T): int {
    (if cmp(p, x) > 0 then 1 else 0) + (if cmp(q, x) > 0 then 1 else 0) + (if cmp(r, x) > 0 then 1 else 0)
  }

  /** med3 is a median: at most one of the three is below it and at most one above. */
  lemma Med3IsMedian<T(!new)>(cmp: Cmp<T>, a: seq<T>, i: int, j: int, k: int)
    requires Order(cmp) && 0 <= i < |a| && 0 <= j < |a| && 0 <= k < |a|
    ensures
      var m := a[Med3(cmp, a, i, j, k)];
      Below(cmp, m, a[i], a[j], a[k]) <= 1 && Above(cmp, m, a[i], a[j], a[k]) <= 1
  {
    var x, y, z := a[i], a[j], a[k];
    assert cmp(x, x) == 0 && cmp(y, y) == 0 && cmp(z, z) == 0;
    assert cmp(x, y) < 0 <==> cmp(y, x) > 0;
    assert cmp(y, x) < 0 <==> cmp(x, y) > 0;
    assert cmp(x, z) < 0 <==> cmp(z, x) > 0;
    assert cmp(z, x) < 0 <==> cmp(x, z) > 0;
    assert cmp(y, z) < 0 <==> cmp(z, y) > 0;
    assert cmp(z, y) < 0 <==> cmp(y, z) > 0;
  }

  /** The position of the pivot: the middle, the median of three, or of nine. */
  function Pivot<T>(cmp: Cmp<T>, a: seq<T>, lo: int, n: int): (p: int)
    requires 0 <= lo && 7 <= n && lo + n <= |a|
    ensures lo <= p < lo + n
  {
    var m := lo + n / 2;
    var l, r := lo, lo + n - 1;
    if n <= 7 then m
    else if n <= 40 then Med3(cmp, a, l, m, r)
    else
      var s := n / 8;
      Med3(cmp, a, Med3(cmp, a, l, l + s, l + 2 * s), Med3(cmp, a, m - s, m, m + s), Med3(cmp, a, r - 2 * s, r - s, r))
  }

  /** Elements below v are below everything that is not below v. */
  lemma BelowAll<T(!new)>(cmp: Cmp<T>, v: T, m: T, p: T)
    requires Order(cmp)
    ensures cmp(m, v) >= 0 && cmp(p, v) < 0 ==> cmp(p, m) < 0
    ensures cmp(m, v) <= 0 && cmp(p, v) > 0 ==> cmp(p, m) > 0
  {
    assert cmp(v, m) <= 0 && cmp(m, p) <= 0 ==> cmp(v, p) <= 0;
    assert cmp(p, m) <= 0 && cmp(m, v) <= 0 ==> cmp(p, v) <= 0;
    assert cmp(m, v) < 0 <==> cmp(v, m) > 0;
    assert cmp(p, v) < 0 <==> cmp(v, p) > 0;
    assert cmp(p, m) < 0 <==> cmp(m, p) > 0;
  }

  /** Three elements whose median is m: if m is not below v, at most one of them is. */
  lemma TripleSides<T(!new)>(cmp: Cmp<T>, v: T, m: T, p: T, q: T, r: T)
    requires Order(cmp) && Below(cmp, m, p, q, r) <= 1 && Above(cmp, m, p, q, r) <= 1
    ensures cmp(m, v) >= 0 ==> Below(cmp, v, p, q, r) <= 1
    ensures cmp(m, v) <= 0 ==> Above(cmp, v, p, q, r) <= 1
  {
    hide Order;
    BelowAll(cmp, v, m, p);
    BelowAll(cmp, v, m, q);
    BelowAll(cmp, v, m, r);
  }

  /** Three triples and the median v of their medians: at most five of the nine elements
      are below v and at most five above. */
  lemma NineSides<T(!new)>(cmp: Cmp<T>, v: T, x: T, y: T, z: T,
                           a: T, b: T, c: T, d: T, e: T, f: T, g: T, h: T, i: T)
    requires Order(cmp) && Below(cmp, v, x, y, z) <= 1 && Above(cmp, v, x, y, z) <= 1
    requires Below(cmp, x, a, b, c) <= 1 && Above(cmp, x, a, b, c) <= 1
    requires Below(cmp, y, d, e, f) <= 1 && Above(cmp, y, d, e, f) <= 1
    requires Below(cmp, z, g, h, i) <= 1 && Above(cmp, z, g, h, i) <= 1
    ensures Below(cmp, v, a, b, c) + Below(cmp, v, d, e, f) + Below(cmp, v, g, h, i) <= 5
    ensures Above(cmp, v, a, b, c) + Above(cmp, v, d, e, f) + Above(cmp, v, g, h, i) <= 5
  {
    hide Order;
    TripleSides(cmp, v, x, a, b, c);
    TripleSides(cmp, v, y, d, e, f);
    TripleSides(cmp, v, z, g, h, i);
  }

  /** The nine places lie inside the range. */
  lemma NinePlaces(n: int)
    requires n > 40
    ensures 0 < n / 8 && 8 * (n / 8) <= n && 4 * (n / 8) <= n / 2 && n / 2 + 4 * (n / 8) <= n
  {
  }

  /** Up to forty elements: the middle one of seven, or the median of first, middle and last. */
  lemma PivotOfThree<T(!new)>(cmp: Cmp<T>, a: seq<T>, lo: int, n: int)
    requires Order(cmp) && 0 <= lo && 7 <= n <= 40 && lo + n <= |a|
    ensures n == 7 ==> Pivot(cmp, a, lo, n) == lo + 3
    ensures n > 7 ==>
      var v, x, y, z := a[Pivot(cmp, a, lo, n)], a[lo], a[lo + n / 2], a[lo + n - 1];
      Below(cmp, v, x, y, z) <= 1 && Above(cmp, v, x, y, z) <= 1
  {
    hide Order, Below, Above, Med3;
    Med3IsMedian(cmp, a, lo, lo + n / 2, lo + n - 1);
  }

  /** More than forty: at most five of nine evenly spread elements lie on either side of
      the pivot.  They come in triples s apart, at the start, the middle m and the end r. */
  lemma PivotOfNine<T(!new)>(cmp: Cmp<T>, a: seq<T>, lo: int, n: int, s: int, m: int, r: int)
    requires Order(cmp) && 0 <= lo && 40 < n && lo + n <= |a|
    requires s == n / 8 && m == lo + n / 2 && r == lo + n - 1
    ensures 0 <= m - s && m + s < |a| && 0 <= r - 2 * s && lo + 2 * s < |a|
    ensures
      var v := a[Pivot(cmp, a, lo, n)];
      && Below(cmp, v, a[lo], a[lo + s], a[lo + 2 * s]) + Below(cmp, v, a[m - s], a[m], a[m + s]) +
         Below(cmp, v, a[r - 2 * s], a[r - s], a[r]) <= 5
      && Above(cmp, v, a[lo], a[lo + s], a[lo + 2 * s]) + Above(cmp, v, a[m - s], a[m], a[m + s]) +
         Above(cmp, v, a[r - 2 * s], a[r - s], a[r]) <= 5
  {
    hide Order, Below, Above, Med3;
    NinePlaces(n);
    var x, y := Med3(cmp, a, lo, lo + s, lo + 2 * s), Med3(cmp, a, m - s, m, m + s);
    var z := Med3(cmp, a, r - 2 * s, r - s, r);
    Med3IsMedian(cmp, a, lo, lo + s, lo + 2 * s);
    Med3IsMedian(cmp, a, m - s, m, m + s);
    Med3IsMedian(cmp, a, r - 2 * s, r - s, r);
    Med3IsMedian(cmp, a, x, y, z);
    NineSides(cmp, a[Med3(cmp, a, x, y, z)], a[x], a[y], a[z], a[lo], a[lo + s], a[lo + 2 * s],
              a[m - s], a[m], a[m + s], a[r - 2 * s], a[r - s], a[r]);
  }

  // --------------------------------------------------------------- partition

  /** The array and the four moving pointers. */
  datatype Part<T> = Part(a: seq<T>, pa: int, pb: int, pc: int, pd: int)

  ghost predicate InBounds<T>(p: Part<T>, lo: int, hi: int) {
    0 <= lo <= p.pa <= p.pb <= p.pc + 1 && p.pc <= p.pd < hi <= |p.a|
  }

  /** One pass of the upward loop. */
  function UpStep<T>(cmp: Cmp<T>, v: T, p: Part<T>): Part<T>
    requires 0 <= p.pa < |p.a| && 0 <= p.pb < |p.a|
  {
    if cmp(p.a[p.pb], v) == 0 then Part(Swap(p.a, p.pa, p.pb), p.pa + 1, p.pb + 1, p.pc, p.pd)
    else p.(pb := p.pb + 1)
  }

  /** One pass of the downward loop. */
  function DownStep<T>(cmp: Cmp<T>, v: T, p: Part<T>): Part<T>
    requires 0 <= p.pc < |p.a| && 0 <= p.pd < |p.a|
  {
    if cmp(p.a[p.pc], v) == 0 then Part(Swap(p.a, p.pc, p.pd), p.pa, p.pb, p.pc - 1, p.pd - 1)
    else p.(pc := p.pc - 1)
  }

  /** The loop that moves pb up past elements not above the pivot. */
  function ScanUp<T>(cmp: Cmp<T>, v: T, p: Part<T>, lo: int, hi: int): (r: Part<T>)
    requires InBounds(p, lo, hi)
    ensures InBounds(r, lo, hi) && p.pb <= r.pb && r.pc == p.pc && r.pd == p.pd && |r.a| == |p.a|
    ensures r.pb <= r.pc ==> cmp(r.a[r.pb], v) > 0
    decreases p.pc - p.pb
  {
    if p.pb <= p.pc && cmp(p.a[p.pb], v) <= 0 then
      ScanUp(cmp, v, UpStep(cmp, v, p), lo, hi)
    else p
  }

  /** The loop that moves pc down past elements not below the pivot. */
  function ScanDown<T>(cmp: Cmp<T>, v: T, p: Part<T>, lo: int, hi: int): (r: Part<T>)
    requires InBounds(p, lo, hi)
    ensures InBounds(r, lo, hi) && r.pa == p.pa && r.pb == p.pb && r.pc <= p.pc && |r.a| == |p.a|
    ensures r.pb <= r.pc ==> cmp(r.a[r.pc], v) < 0
    decreases p.pc - p.pb
  {
    if p.pb <= p.pc && cmp(p.a[p.pc], v) >= 0 then
      ScanDown(cmp, v, DownStep(cmp, v, p), lo, hi)
    else p
  }

  /** While pc stays above pb, the element at pb is not touched. */
  lemma {:induction false} ScanDownKeeps<T>(cmp: Cmp<T>, v: T, p: Part<T>, lo: int, hi: int)
    requires InBounds(p, lo, hi) && p.pb <= p.pc
    ensures ScanDown(cmp, v, p, lo, hi).pb <= ScanDown(cmp, v, p, lo, hi).pc ==>
      ScanDown(cmp, v, p, lo, hi).a[p.pb] == p.a[p.pb]
    ensures cmp(p.a[p.pb], v) > 0 ==> ScanDown(cmp, v, p, lo, hi).pb != ScanDown(cmp, v, p, lo, hi).pc
    decreases p.pc - p.pb
  {
    if cmp(p.a[p.pc], v) >= 0 {
      var q := DownStep(cmp, v, p);
      if q.pb <= q.pc {
        ScanDownKeeps(cmp, v, q, lo, hi);
      }
    }
  }

  /** The outer loop, up to its break. */
  function Scan<T>(cmp: Cmp<T>, v: T, p: Part<T>, lo: int, hi: int): (r: Part<T>)
    requires InBounds(p, lo, hi)
    ensures InBounds(r, lo, hi) && r.pb == r.pc + 1 && |r.a| == |p.a|
    decreases p.pc - p.pb
  {
    var q := ScanUp(cmp, v, p, lo, hi);
    var r := ScanDown(cmp, v, q, lo, hi);
    if r.pb > r.pc then r
    else
      assert q.pb <= q.pc;
      ScanDownKeeps(cmp, v, q, lo, hi);
      Scan(cmp, v, Part(Swap(r.a, r.pb, r.pc), r.pa, r.pb + 1, r.pc - 1, r.pd), lo, hi)
  }

  /** One pass of the outer loop. */
  lemma ScanPass<T>(cmp: Cmp<T>, v: T, p: Part<T>, lo: int, hi: int)
    requires InBounds(p, lo, hi)
    ensures
      var r := ScanDown(cmp, v, ScanUp(cmp, v, p, lo, hi), lo, hi);
      if r.pb > r.pc then Scan(cmp, v, p, lo, hi) == r
      else
        && r.pb < r.pc
        && var next := Part(Swap(r.a, r.pb, r.pc), r.pa, r.pb + 1, r.pc - 1, r.pd);
           InBounds(next, lo, hi) && Scan(cmp, v, p, lo, hi) == Scan(cmp, v, next, lo, hi)
  {
    hide ScanUp, ScanDown, Swap;
    var q := ScanUp(cmp, v, p, lo, hi);
    if q.pb <= q.pc {
      ScanDownKeeps(cmp, v, q, lo, hi);
    }
  }

  /** Equal, less, unknown, greater, equal: what the pointers delimit. */
  ghost predicate Zones<T(!new)>(cmp: Cmp<T>, v: T, p: Part<T>, lo: int, hi: int) {
    && InBounds(p, lo, hi)
    && (forall i :: lo <= i < p.pa ==> cmp(p.a[i], v) == 0)
    && (forall i :: p.pa <= i < p.pb ==> cmp(p.a[i], v) < 0)
    && (forall i :: p.pc < i <= p.pd ==> cmp(p.a[i], v) > 0)
    && (forall i :: p.pd < i < hi ==> cmp(p.a[i], v) == 0)
  }

  lemma UpStepZones<T(!new)>(cmp: Cmp<T>, v: T, p: Part<T>, lo: int, hi: int)
    requires Zones(cmp, v, p, lo, hi) && p.pb <= p.pc && cmp(p.a[p.pb], v) <= 0
    ensures Zones(cmp, v, UpStep(cmp, v, p), lo, hi)
  {
  }

  lemma UpStepPerm<T(!new)>(cmp: Cmp<T>, v: T, p: Part<T>, lo: int, hi: int)
    requires InBounds(p, lo, hi) && p.pb <= p.pc
    ensures Perm(p.a, UpStep(cmp, v, p).a, lo, hi)
  {
    hide Swap;
    SwapPerm(p.a, p.pa, p.pb, lo, hi);
  }

  lemma DownStepZones<T(!new)>(cmp: Cmp<T>, v: T, p: Part<T>, lo: int, hi: int)
    requires Zones(cmp, v, p, lo, hi) && p.pb <= p.pc && cmp(p.a[p.pc], v) >= 0
    ensures Zones(cmp, v, DownStep(cmp, v, p), lo, hi)
  {
  }

  lemma DownStepPerm<T(!new)>(cmp: Cmp<T>, v: T, p: Part<T>, lo: int, hi: int)
    requires InBounds(p, lo, hi) && p.pb <= p.pc
    ensures Perm(p.a, DownStep(cmp, v, p).a, lo, hi)
  {
    hide Swap;
    SwapPerm(p.a, p.pc, p.pd, lo, hi);
  }

  lemma {:induction false} ScanUpZones<T(!new)>(cmp: Cmp<T>, v: T, p: Part<T>, lo: int, hi: int)
    requires InBounds(p, lo, hi) && Zones(cmp, v, p, lo, hi)
    ensures Zones(cmp, v, ScanUp(cmp, v, p, lo, hi), lo, hi)
    ensures Perm(p.a, ScanUp(cmp, v, p, lo, hi).a, lo, hi)
    decreases p.pc - p.pb
  {
    hide Zones, Swap;
    if p.pb <= p.pc && cmp(p.a[p.pb], v) <= 0 {
      var q := UpStep(cmp, v, p);
      UpStepZones(cmp, v, p, lo, hi);
      UpStepPerm(cmp, v, p, lo, hi);
      ScanUpZones(cmp, v, q, lo, hi);
      PermTrans(p.a, q.a, ScanUp(cmp, v, q, lo, hi).a, lo, hi);
    }
  }

  lemma {:induction false} ScanDownZones<T(!new)>(cmp: Cmp<T>, v: T, p: Part<T>, lo: int, hi: int)
    requires InBounds(p, lo, hi) && Zones(cmp, v, p, lo, hi)
    ensures Zones(cmp, v, ScanDown(cmp, v, p, lo, hi), lo, hi)
    ensures Perm(p.a, ScanDown(cmp, v, p, lo, hi).a, lo, hi)
    decreases p.pc - p.pb
  {
    hide Zones, Swap;
    if p.pb <= p.pc && cmp(p.a[p.pc], v) >= 0 {
      var q := DownStep(cmp, v, p);
      DownStepZones(cmp, v, p, lo, hi);
      DownStepPerm(cmp, v, p, lo, hi);
      ScanDownZones(cmp, v, q, lo, hi);
      PermTrans(p.a, q.a, ScanDown(cmp, v, q, lo, hi).a, lo, hi);
    }
  }

  /** The exchange between the two scans. */
  lemma CrossZones<T(!new)>(cmp: Cmp<T>, v: T, r: Part<T>, lo: int, hi: int)
    requires Zones(cmp, v, r, lo, hi) && r.pb < r.pc && cmp(r.a[r.pb], v) > 0 && cmp(r.a[r.pc], v) < 0
    ensures Perm(r.a, Swap(r.a, r.pb, r.pc), lo, hi)
    ensures Zones(cmp, v, Part(Swap(r.a, r.pb, r.pc), r.pa, r.pb + 1, r.pc - 1, r.pd), lo, hi)
  {
    SwapPerm(r.a, r.pb, r.pc, lo, hi);
  }

  /** The partition loop sorts the range into equal, less, greater, equal. */
  lemma {:induction false} ScanZones<T(!new)>(cmp: Cmp<T>, v: T, p: Part<T>, lo: int, hi: int)
    requires InBounds(p, lo, hi) && Zones(cmp, v, p, lo, hi)
    ensures Zones(cmp, v, Scan(cmp, v, p, lo, hi), lo, hi)
    ensures Perm(p.a, Scan(cmp, v, p, lo, hi).a, lo, hi)
    decreases p.pc - p.pb
  {
    hide Zones, Swap, Perm, ScanUp, ScanDown;
    var q := ScanUp(cmp, v, p, lo, hi);
    var r := ScanDown(cmp, v, q, lo, hi);
    ScanUpZones(cmp, v, p, lo, hi);
    ScanDownZones(cmp, v, q, lo, hi);
    PermTrans(p.a, q.a, r.a, lo, hi);
    if r.pb <= r.pc {
      ScanDownKeeps(cmp, v, q, lo, hi);
      CrossZones(cmp, v, r, lo, hi);
      var b := Swap(r.a, r.pb, r.pc);
      PermTrans(p.a, r.a, b, lo, hi);
      var s := Part(b, r.pa, r.pb + 1, r.pc - 1, r.pd);
      ScanZones(cmp, v, s, lo, hi);
      PermTrans(p.a, b, Scan(cmp, v, s, lo, hi).a, lo, hi);
    }
  }

  // ------------------------------------------------ pivots into the middle

  /** for (r = 0; r < s; r++) swap(x + r, y + r), from r on */
  function SwapRuns<T>(a: seq<T>, x: int, y: int, r: int, s: int): (b: seq<T>)
    requires 0 <= x <= y && 0 <= r && (r < s ==> y + s <= |a|)
    ensures |b| == |a|
    decreases s - r
  {
    if r < s then SwapRuns(Swap(a, x + r, y + r), x, y, r + 1, s) else a
  }

  lemma {:induction false} SwapRunsPerm<T>(a: seq<T>, x: int, y: int, r: int, s: int, lo: int, hi: int)
    requires 0 <= lo <= x <= y && 0 <= r && y + s <= hi <= |a| && lo <= hi
    ensures Perm(a, SwapRuns(a, x, y, r, s), lo, hi)
    decreases s - r
  {
    hide Swap, Perm;
    if r < s {
      var b := Swap(a, x + r, y + r);
      SwapPerm(a, x + r, y + r, lo, hi);
      SwapRunsPerm(b, x, y, r + 1, s, lo, hi);
      PermTrans(a, b, SwapRuns(b, x, y, r + 1, s), lo, hi);
    } else {
      PermSelf(a, lo, hi);
    }
  }

  /** The runs [x+r, x+s) and [y+r, y+s) of a have traded places in b. */
  ghost predicate Traded<T>(a: seq<T>, b: seq<T>, x: int, y: int, r: int, s: int)
    requires 0 <= x && x + s <= y && 0 <= r <= s && y + s <= |a|
  {
    && |b| == |a|
    && (forall i :: x + r <= i < x + s ==> b[i] == a[i - x + y])
    && (forall i :: y + r <= i < y + s ==> b[i] == a[i - y + x])
    && (forall i :: 0 <= i < |a| && !(x + r <= i < x + s) && !(y + r <= i < y + s) ==> b[i] == a[i])
  }

  /** Disjoint runs trade places. */
  lemma {:induction false} RunsApart<T>(a: seq<T>, x: int, y: int, r: int, s: int)
    requires 0 <= x && x + s <= y && 0 <= r <= s && y + s <= |a|
    ensures Traded(a, SwapRuns(a, x, y, r, s), x, y, r, s)
    decreases s - r
  {
    if r < s {
      RunsApart(Swap(a, x + r, y + r), x, y, r + 1, s);
    }
  }

  /** What stood y - x places up has moved down to [x+r, x+s), and behind it come
      elements of the window [x+r, y+r). */
  ghost predicate Shifted<T>(a: seq<T>, b: seq<T>, x: int, y: int, r: int, s: int)
    requires 0 <= x <= y && 0 <= r <= s && y + s <= |a|
  {
    && |b| == |a|
    && (forall i :: x + r <= i < x + s ==> b[i] == a[i - x + y])
    && (forall i :: x + s <= i < y + s ==> b[i] in a[x + r..y + r])
    && (forall i :: 0 <= i < x + r ==> b[i] == a[i])
    && (forall i :: y + s <= i < |a| ==> b[i] == a[i])
  }

  /** After one swap the window of d elements has moved up by one place. */
  lemma WindowMoves<T>(a: seq<T>, x: int, y: int)
    requires 0 <= x <= y < |a|
    ensures forall e :: e in Swap(a, x, y)[x + 1..y + 1] ==> e in a[x..y]
  {
    var b := Swap(a, x, y);
    forall e | e in b[x + 1..y + 1] ensures e in a[x..y] {
      var k :| 0 <= k < y - x && b[x + 1..y + 1][k] == e;
      if k == y - x - 1 {
        assert a[x..y][0] == e;
      } else {
        assert a[x..y][k + 1] == e;
      }
    }
  }

  lemma ShiftedStep<T>(a: seq<T>, b: seq<T>, x: int, y: int, r: int, s: int)
    requires 0 <= x <= y && 0 <= r < s && y + s <= |a|
    requires Shifted(Swap(a, x + r, y + r), b, x, y, r + 1, s)
    ensures Shifted(a, b, x, y, r, s)
  {
    WindowMoves(a, x + r, y + r);
  }

  /** Overlapping runs: what stood d = y - x places up moves down, and the first d
      elements end up behind, in some order. */
  lemma {:induction false} RunsOverlap<T>(a: seq<T>, x: int, y: int, r: int, s: int)
    requires 0 <= x <= y && 0 <= r <= s && y + s <= |a|
    ensures Shifted(a, SwapRuns(a, x, y, r, s), x, y, r, s)
    decreases s - r
  {
    if r < s {
      var b := Swap(a, x + r, y + r);
      RunsOverlap(b, x, y, r + 1, s);
      ShiftedStep(a, SwapRuns(b, x, y, r + 1, s), x, y, r, s);
    } else {
      forall i | x + s <= i < y + s ensures a[i] in a[x + r..y + r] {
        assert a[i] == a[x + r..y + r][i - x - r];
      }
    }
  }

  function Sign(x: int): int {
    if x < 0 then -1 else if x > 0 then 1 else 0
  }

  /** All elements of [lo, hi) have sign q against the pivot. */
  ghost predicate All<T(!new)>(cmp: Cmp<T>, v: T, a: seq<T>, lo: int, hi: int, q: int) {
    0 <= lo && hi <= |a| && forall i :: lo <= i < hi ==> Sign(cmp(a[i], v)) == q
  }

  /** Swapping s pivots in front of m smaller elements behind them: it works if the
      runs are disjoint or there is nothing to jump over. */
  lemma StartMoved<T(!new)>(cmp: Cmp<T>, v: T, a: seq<T>, lo: int, s: int, m: int)
    requires 0 <= s && 0 <= m && All(cmp, v, a, lo, lo + s, 0) && All(cmp, v, a, lo + s, lo + s + m, -1)
    requires s <= m || m == 0
    ensures
      var b := SwapRuns(a, lo, lo + m, 0, s);
      && All(cmp, v, b, lo, lo + m, -1) && All(cmp, v, b, lo + m, lo + m + s, 0)
      && forall i :: 0 <= i < |a| && !(lo <= i < lo + m + s) ==> b[i] == a[i]
  {
    if m == 0 {
      RunsOverlap(a, lo, lo, 0, s);
    } else {
      RunsApart(a, lo, lo + m, 0, s);
    }
  }

  /** If there are more pivots than smaller elements, and any of the latter, some
      smaller elements stay behind pivots: [lo, lo+s-m) are pivots, the m places
      behind them are smaller. */
  lemma StartStuck<T(!new)>(cmp: Cmp<T>, v: T, a: seq<T>, lo: int, s: int, m: int)
    requires 0 < m < s && All(cmp, v, a, lo, lo + s, 0) && All(cmp, v, a, lo + s, lo + s + m, -1)
    ensures
      var b := SwapRuns(a, lo, lo + m, 0, s);
      && All(cmp, v, b, lo, lo + s - m, 0) && All(cmp, v, b, lo + s - m, lo + s, -1)
      && forall i :: 0 <= i < |a| && !(lo <= i < lo + m + s) ==> b[i] == a[i]
  {
    RunsOverlap(a, lo, lo + m, 0, s);
  }

  /** Swapping g greater elements with s pivots behind them always works. */
  lemma EndMoved<T(!new)>(cmp: Cmp<T>, v: T, a: seq<T>, x: int, g: int, s: int)
    requires 0 <= s && 0 <= g && All(cmp, v, a, x, x + g, 1) && All(cmp, v, a, x + g, x + g + s, 0)
    ensures
      var b := SwapRuns(a, x, x + g, 0, s);
      && All(cmp, v, b, x, x + s, 0) && All(cmp, v, b, x + s, x + s + g, 1)
      && forall i :: 0 <= i < |a| && !(x <= i < x + g + s) ==> b[i] == a[i]
  {
    var b := SwapRuns(a, x, x + g, 0, s);
    if s <= g {
      RunsApart(a, x, x + g, 0, s);
    } else {
      RunsOverlap(a, x, x + g, 0, s);
      forall i | x + s <= i < x + s + g ensures Sign(cmp(b[i], v)) == 1 {
        assert b[i] in a[x..x + g];
        var k :| 0 <= k < g && a[x..x + g][k] == b[i];
      }
    }
  }

  // ------------------------------------------- what depends on the range alone

  /** a and b hold the same elements at the same places of [lo, hi). */
  ghost predicate Same<T>(a: seq<T>, b: seq<T>, lo: int, hi: int) {
    0 <= lo && hi <= |a| == |b| && forall i {:trigger a[i]} {:trigger b[i]} :: lo <= i < hi ==> a[i] == b[i]
  }

  ghost predicate SamePart<T>(p: Part<T>, q: Part<T>, lo: int, hi: int) {
    p.pa == q.pa && p.pb == q.pb && p.pc == q.pc && p.pd == q.pd && Same(p.a, q.a, lo, hi)
  }

  lemma SameSwap<T>(a: seq<T>, b: seq<T>, lo: int, hi: int, i: int, j: int)
    requires Same(a, b, lo, hi) && lo <= i < hi && lo <= j < hi
    ensures Same(Swap(a, i, j), Swap(b, i, j), lo, hi)
  {
  }

  lemma SameMed3<T>(cmp: Cmp<T>, a: seq<T>, b: seq<T>, lo: int, hi: int, i: int, j: int, k: int)
    requires Same(a, b, lo, hi) && lo <= i < hi && lo <= j < hi && lo <= k < hi
    ensures Med3(cmp, a, i, j, k) == Med3(cmp, b, i, j, k)
  {
  }

  lemma SameLength<T>(a: seq<T>, b: seq<T>, lo: int, hi: int)
    requires Same(a, b, lo, hi)
    ensures |a| == |b| && 0 <= lo && hi <= |a|
  {
  }

  lemma SamePivotOfNine<T>(cmp: Cmp<T>, a: seq<T>, b: seq<T>, lo: int, n: int, s: int, m: int, r: int)
    requires Same(a, b, lo, lo + n) && 40 < n && s == n / 8 && m == lo + n / 2 && r == lo + n - 1
    ensures Pivot(cmp, a, lo, n) == Pivot(cmp, b, lo, n)
  {
    hide Med3, Same;
    SameLength(a, b, lo, lo + n);
    var hi := lo + n;
    NinePlaces(n);
    var i := Med3(cmp, a, lo, lo + s, lo + 2 * s);
    var j := Med3(cmp, a, m - s, m, m + s);
    var k := Med3(cmp, a, r - 2 * s, r - s, r);
    SameMed3(cmp, a, b, lo, hi, lo, lo + s, lo + 2 * s);
    SameMed3(cmp, a, b, lo, hi, m - s, m, m + s);
    SameMed3(cmp, a, b, lo, hi, r - 2 * s, r - s, r);
    SameMed3(cmp, a, b, lo, hi, i, j, k);
  }

  lemma SamePivot<T>(cmp: Cmp<T>, a: seq<T>, b: seq<T>, lo: int, n: int)
    requires 7 <= n && Same(a, b, lo, lo + n)
    ensures Pivot(cmp, a, lo, n) == Pivot(cmp, b, lo, n)
  {
    hide Med3, Same;
    SameLength(a, b, lo, lo + n);
    if n > 40 {
      SamePivotOfNine(cmp, a, b, lo, n, n / 8, lo + n / 2, lo + n - 1);
    } else {
      SameMed3(cmp, a, b, lo, lo + n, lo, lo + n / 2, lo + n - 1);
    }
  }

  lemma {:induction false} SameUp<T>(cmp: Cmp<T>, v: T, p: Part<T>, q: Part<T>, lo: int, hi: int)
    requires InBounds(p, lo, hi) && SamePart(p, q, lo, hi)
    ensures SamePart(ScanUp(cmp, v, p, lo, hi), ScanUp(cmp, v, q, lo, hi), lo, hi)
    decreases p.pc - p.pb
  {
    if p.pb <= p.pc && cmp(p.a[p.pb], v) <= 0 {
      SameSwap(p.a, q.a, lo, hi, p.pa, p.pb);
      SameUp(cmp, v, UpStep(cmp, v, p), UpStep(cmp, v, q), lo, hi);
    }
  }

  lemma {:induction false} SameDown<T>(cmp: Cmp<T>, v: T, p: Part<T>, q: Part<T>, lo: int, hi: int)
    requires InBounds(p, lo, hi) && SamePart(p, q, lo, hi)
    ensures SamePart(ScanDown(cmp, v, p, lo, hi), ScanDown(cmp, v, q, lo, hi), lo, hi)
    decreases p.pc - p.pb
  {
    if p.pb <= p.pc && cmp(p.a[p.pc], v) >= 0 {
      SameSwap(p.a, q.a, lo, hi, p.pc, p.pd);
      SameDown(cmp, v, DownStep(cmp, v, p), DownStep(cmp, v, q), lo, hi);
    }
  }

  lemma {:induction false} SameScan<T>(cmp: Cmp<T>, v: T, p: Part<T>, q: Part<T>, lo: int, hi: int)
    requires InBounds(p, lo, hi) && SamePart(p, q, lo, hi)
    ensures SamePart(Scan(cmp, v, p, lo, hi), Scan(cmp, v, q, lo, hi), lo, hi)
    decreases p.pc - p.pb
  {
    hide ScanUp, ScanDown, Same, Swap;
    SameLength(p.a, q.a, lo, hi);
    var p1, q1 := ScanUp(cmp, v, p, lo, hi), ScanUp(cmp, v, q, lo, hi);
    SameUp(cmp, v, p, q, lo, hi);
    var p2, q2 := ScanDown(cmp, v, p1, lo, hi), ScanDown(cmp, v, q1, lo, hi);
    SameDown(cmp, v, p1, q1, lo, hi);
    if p2.pb <= p2.pc {
      ScanDownKeeps(cmp, v, p1, lo, hi);
      SameSwap(p2.a, q2.a, lo, hi, p2.pb, p2.pc);
      SameScan(cmp, v, Part(Swap(p2.a, p2.pb, p2.pc), p2.pa, p2.pb + 1, p2.pc - 1, p2.pd),
               Part(Swap(q2.a, q2.pb, q2.pc), q2.pa, q2.pb + 1, q2.pc - 1, q2.pd), lo, hi);
    }
  }

  lemma {:induction false} SameRuns<T>(a: seq<T>, b: seq<T>, x: int, y: int, r: int, s: int, lo: int, hi: int)
    requires Same(a, b, lo, hi) && lo <= x <= y && 0 <= r && (r < s ==> y + s <= hi)
    ensures Same(SwapRuns(a, x, y, r, s), SwapRuns(b, x, y, r, s), lo, hi)
    decreases s - r
  {
    if r < s {
      SameSwap(a, b, lo, hi, x + r, y + r);
      SameRuns(Swap(a, x + r, y + r), Swap(b, x + r, y + r), x, y, r + 1, s, lo, hi);
    }
  }
}
