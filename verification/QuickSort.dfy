/** CLG_(qsort) of callgrind's dump.c, in place. */
module QuickSort {
  import opened QuickSortSpec
  import opened QuickSortTheorems

  method SwapAt<T>(a: array<T>, i: int, j: int)
    requires 0 <= i < a.Length && 0 <= j < a.Length
    modifies a
    ensures a[..] == Swap(old(a[..]), i, j)
  {
    var t := a[i];
    a[i] := a[j];
    a[j] := t;
  }

  /** The branch for fewer than seven elements. */
  method SortShort<T>(cmp: Cmp<T>, a: array<T>, lo: int, n: int)
    requires 0 <= lo && 0 <= n && lo + n <= a.Length
    modifies a
    ensures a[..] == InsertionSort(cmp, old(a[..]), lo, lo + 1, lo + n)
  {
    var pm := lo + 1;
    while pm < lo + n
      invariant lo < pm
      invariant InsertionSort(cmp, a[..], lo, pm, lo + n) == InsertionSort(cmp, old(a[..]), lo, lo + 1, lo + n)
    {
      ghost var s := a[..];
      var pl := pm;
      while pl > lo && cmp(a[pl - 1], a[pl]) > 0
        invariant lo <= pl <= pm
        invariant Sink(cmp, a[..], lo, pl) == Sink(cmp, s, lo, pm)
      {
        SwapAt(a, pl, pl - 1);
        pl := pl - 1;
      }
      pm := pm + 1;
    }
  }

  /** The choice of the pivot. */
  method ChoosePivot<T>(cmp: Cmp<T>, a: array<T>, lo: int, n: int) returns (pm: int)
    requires 0 <= lo && 7 <= n && lo + n <= a.Length
    ensures pm == Pivot(cmp, a[..], lo, n)
  {
    hide Med3;
    pm := lo + n / 2;
    if n > 7 {
      var pl, pn := lo, lo + (n - 1);
      if n > 40 {
        var s := n / 8;
        pl := Med3(cmp, a[..], pl, pl + s, pl + 2 * s);
        pm := Med3(cmp, a[..], pm - s, pm, pm + s);
        pn := Med3(cmp, a[..], pn - 2 * s, pn - s, pn);
      }
      pm := Med3(cmp, a[..], pl, pm, pn);
    }
  }

  method Up<T>(cmp: Cmp<T>, a: array<T>, ghost lo: int, ghost hi: int, v: T, pa0: int, pb0: int, pc: int, ghost pd: int)
    returns (pa: int, pb: int)
    requires InBounds(Part(a[..], pa0, pb0, pc, pd), lo, hi)
    modifies a
    ensures Part(a[..], pa, pb, pc, pd) == ScanUp(cmp, v, Part(old(a[..]), pa0, pb0, pc, pd), lo, hi)
  {
    hide Swap;
    pa, pb := pa0, pb0;
    while pb <= pc && cmp(a[pb], v) <= 0
      invariant InBounds(Part(a[..], pa, pb, pc, pd), lo, hi)
      invariant ScanUp(cmp, v, Part(a[..], pa, pb, pc, pd), lo, hi) ==
                ScanUp(cmp, v, Part(old(a[..]), pa0, pb0, pc, pd), lo, hi)
      decreases pc - pb
    {
      if cmp(a[pb], v) == 0 {
        SwapAt(a, pa, pb);
        pa := pa + 1;
      }
      pb := pb + 1;
    }
  }

  method Down<T>(cmp: Cmp<T>, a: array<T>, ghost lo: int, ghost hi: int, v: T,
                 ghost pa: int, pb: int, pc0: int, pd0: int)
    returns (pc: int, pd: int)
    requires InBounds(Part(a[..], pa, pb, pc0, pd0), lo, hi)
    modifies a
    ensures Part(a[..], pa, pb, pc, pd) == ScanDown(cmp, v, Part(old(a[..]), pa, pb, pc0, pd0), lo, hi)
  {
    hide Swap;
    pc, pd := pc0, pd0;
    while pb <= pc && cmp(a[pc], v) >= 0
      invariant InBounds(Part(a[..], pa, pb, pc, pd), lo, hi)
      invariant ScanDown(cmp, v, Part(a[..], pa, pb, pc, pd), lo, hi) ==
                ScanDown(cmp, v, Part(old(a[..]), pa, pb, pc0, pd0), lo, hi)
      decreases pc - pb
    {
      if cmp(a[pc], v) == 0 {
        SwapAt(a, pc, pd);
        pd := pd - 1;
      }
      pc := pc - 1;
    }
  }

  /** The partition loop. */
  method PartitionAround<T>(cmp: Cmp<T>, a: array<T>, lo: int, n: int, v: T)
    returns (pa: int, pb: int, pc: int, pd: int)
    requires 0 <= lo && 0 < n && lo + n <= a.Length
    modifies a
    ensures Part(a[..], pa, pb, pc, pd) == Scan(cmp, v, Part(old(a[..]), lo, lo, lo + n - 1, lo + n - 1), lo, lo + n)
  {
    hide Swap, ScanUp, ScanDown, Scan;
    ghost var hi := lo + n;
    pa, pb := lo, lo;
    pc, pd := lo + (n - 1), lo + (n - 1);
    ghost var start := Part(a[..], pa, pb, pc, pd);
    while true
      invariant InBounds(Part(a[..], pa, pb, pc, pd), lo, hi)
      invariant Scan(cmp, v, Part(a[..], pa, pb, pc, pd), lo, hi) == Scan(cmp, v, start, lo, hi)
      decreases pc - pb
    {
      ScanPass(cmp, v, Part(a[..], pa, pb, pc, pd), lo, hi);
      pa, pb := Up(cmp, a, lo, hi, v, pa, pb, pc, pd);
      pc, pd := Down(cmp, a, lo, hi, v, pa, pb, pc, pd);
      if pb > pc {
        break;
      }
      SwapAt(a, pb, pc);
      pb := pb + 1;
      pc := pc - 1;
    }
  }

  /** One of the loops that put the pivots into the middle. */
  method SwapRange<T>(a: array<T>, x: int, y: int, s: int)
    requires 0 <= x <= y && 0 <= s && y + s <= a.Length
    modifies a
    ensures a[..] == SwapRuns(old(a[..]), x, y, 0, s)
  {
    var r := 0;
    while r < s
      invariant 0 <= r <= s
      invariant SwapRuns(a[..], x, y, r, s) == SwapRuns(old(a[..]), x, y, 0, s)
    {
      SwapAt(a, x + r, y + r);
      r := r + 1;
    }
  }

  /** CLG_(qsort) up to the recursive calls: the number of smaller elements at the
      start of the range and of greater ones at its end. */
  method Arrange<T(!new)>(cmp: Cmp<T>, a: array<T>, lo: int, n: int) returns (less: int, greater: int)
    requires 0 <= lo && 7 <= n && lo + n <= a.Length
    modifies a
    ensures a[..] == Arranged(cmp, old(a[..]), lo, n)
    ensures
      var p := Partition(cmp, old(a[..]), lo, n);
      less == p.pb - p.pa && greater == p.pd + 1 - p.pb
  {
    hide Scan, Pivot;
    ghost var a0 := a[..];
    var pm := ChoosePivot(cmp, a, lo, n);
    var v := a[pm];
    var pa, pb, pc, pd := PartitionAround(cmp, a, lo, n, v);
    ghost var p := Partition(cmp, a0, lo, n);
    assert p == Part(a[..], pa, pb, pc, pd);
    pb := pb - 1;
    pc := pc + 1;
    var s := pa - lo;
    if s > 0 {
      SwapRange(a, lo, pb + 1 - s, s);
    }
    s := lo + n - 1 - pd;
    if s > 0 {
      SwapRange(a, pc, lo + n - s, s);
    }
    less, greater := pb + 1 - pa, pd + 1 - pc;
  }

  /** CLG_(qsort) */
  method Sort<T(!new)>(cmp: Cmp<T>, a: array<T>, lo: int, n: int)
    requires Reflexive(cmp) && 0 <= lo && 0 <= n && lo + n <= a.Length
    modifies a
    ensures a[..] == QSort(cmp, old(a[..]), lo, n)
    ensures Perm(old(a[..]), a[..], lo, lo + n)
    ensures Order(cmp) ==> (Sorted(cmp, a[..], lo, lo + n) <==> Clean(cmp, old(a[..]), lo, n))
    decreases n
  {
    hide Order, Clean, Sorted, Perm, Partition, MovePivots, InsertionSort;
    ghost var a0 := a[..];
    QSortPermutes(cmp, a0, lo, n);
    if Order(cmp) {
      SortsExactly(cmp, a0, lo, n);
    }
    if n < 7 {
      SortShort(cmp, a, lo, n);
      return;
    }
    PartitionShrinks(cmp, a0, lo, n);
    var s, t := Arrange(cmp, a, lo, n);
    if s > 1 {
      Sort(cmp, a, lo, s);
    }
    if t > 1 {
      Sort(cmp, a, lo + n - t, t);
    }
  }
}
