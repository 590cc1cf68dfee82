/** What CLG_(qsort) computes: always a permutation, and sorted exactly when no
    partition has more pivots at the start than smaller elements to swap them with. */
module QuickSortTheorems {
  import opened QuickSortSpec

  // ------------------------------------------------------------- the sort

  /** The partition of [lo, lo+n) around its pivot. */
  function Partition<T>(cmp: Cmp<T>, a: seq<T>, lo: int, n: int): (p: Part<T>)
    requires 0 <= lo && 7 <= n && lo + n <= |a|
    ensures InBounds(p, lo, lo + n) && p.pb == p.pc + 1 && |p.a| == |a|
  {
    Scan(cmp, a[Pivot(cmp, a, lo, n)], Part(a, lo, lo, lo + n - 1, lo + n - 1), lo, lo + n)
  }

  /** The two loops that swap the pivots from the ends into the middle. */
  function MovePivots<T>(p: Part<T>, lo: int, hi: int): (b: seq<T>)
    requires InBounds(p, lo, hi) && p.pb == p.pc + 1
    ensures |b| == |p.a|
  {
    var s, s' := p.pa - lo, hi - 1 - p.pd;
    SwapRuns(SwapRuns(p.a, lo, p.pb - s, 0, s), p.pb, hi - s', 0, s')
  }

  lemma PartitionZones<T(!new)>(cmp: Cmp<T>, a: seq<T>, lo: int, n: int)
    requires 0 <= lo && 7 <= n && lo + n <= |a|
    ensures Zones(cmp, a[Pivot(cmp, a, lo, n)], Partition(cmp, a, lo, n), lo, lo + n)
    ensures Perm(a, Partition(cmp, a, lo, n).a, lo, lo + n)
  {
    hide Scan, Pivot, Perm;
    ScanZones(cmp, a[Pivot(cmp, a, lo, n)], Part(a, lo, lo, lo + n - 1, lo + n - 1), lo, lo + n);
  }

  lemma PermFind<T>(a: seq<T>, b: seq<T>, lo: int, hi: int, i: int) returns (k: int)
    requires Perm(a, b, lo, hi) && lo <= i < hi
    ensures lo <= k < hi && b[k] == a[i]
  {
    PermRange(a, b, lo, hi);
    assert a[lo..hi][i - lo] in multiset(a[lo..hi]);
    assert a[i] in b[lo..hi];
    var j :| 0 <= j < hi - lo && b[lo..hi][j] == a[i];
    k := lo + j;
  }

  /** The pivot itself is at one of the ends, so both parts are shorter. */
  lemma PartitionShrinks<T(!new)>(cmp: Cmp<T>, a: seq<T>, lo: int, n: int)
    requires Reflexive(cmp) && 0 <= lo && 7 <= n && lo + n <= |a|
    ensures
      var p := Partition(cmp, a, lo, n);
      (p.pb - p.pa) + (p.pd + 1 - p.pb) < n
  {
    var p := Partition(cmp, a, lo, n);
    var i := Pivot(cmp, a, lo, n);
    PartitionZones(cmp, a, lo, n);
    var k := PermFind(a, p.a, lo, lo + n, i);
    assert cmp(p.a[k], a[i]) == 0;
  }

  /** CLG_(qsort) on [lo, lo+n). */
  function QSort<T(!new)>(cmp: Cmp<T>, a: seq<T>, lo: int, n: int): (r: seq<T>)
    requires Reflexive(cmp) && 0 <= lo && 0 <= n && lo + n <= |a|
    ensures |r| == |a|
    decreases n
  {
    if n < 7 then InsertionSort(cmp, a, lo, lo + 1, lo + n)
    else
      var p := Partition(cmp, a, lo, n);
      PartitionShrinks(cmp, a, lo, n);
      var b := MovePivots(p, lo, lo + n);
      var m, g := p.pb - p.pa, p.pd + 1 - p.pb;
      var c := if m > 1 then QSort(cmp, b, lo, m) else b;
      if g > 1 then QSort(cmp, c, lo + n - g, g) else c
  }

  // ----------------------------------------------------- termination, permutation

  lemma MovePerm<T>(p: Part<T>, lo: int, hi: int)
    requires InBounds(p, lo, hi) && p.pb == p.pc + 1
    ensures Perm(p.a, MovePivots(p, lo, hi), lo, hi)
  {
    hide SwapRuns, Perm;
    var s, s' := p.pa - lo, hi - 1 - p.pd;
    var b := SwapRuns(p.a, lo, p.pb - s, 0, s);
    SwapRunsPerm(p.a, lo, p.pb - s, 0, s, lo, hi);
    SwapRunsPerm(b, p.pb, hi - s', 0, s', lo, hi);
    PermTrans(p.a, b, MovePivots(p, lo, hi), lo, hi);
  }

  /** The array after partition and pivot moves. */
  function Arranged<T>(cmp: Cmp<T>, a: seq<T>, lo: int, n: int): (b: seq<T>)
    requires 0 <= lo && 7 <= n && lo + n <= |a|
    ensures |b| == |a|
  {
    MovePivots(Partition(cmp, a, lo, n), lo, lo + n)
  }

  lemma ArrangedPerm<T(!new)>(cmp: Cmp<T>, a: seq<T>, lo: int, n: int)
    requires 0 <= lo && 7 <= n && lo + n <= |a|
    ensures Perm(a, Arranged(cmp, a, lo, n), lo, lo + n)
  {
    var p := Partition(cmp, a, lo, n);
    PartitionZones(cmp, a, lo, n);
    MovePerm(p, lo, lo + n);
    PermTrans(a, p.a, Arranged(cmp, a, lo, n), lo, lo + n);
  }

  lemma ShortPerm<T>(cmp: Cmp<T>, a: seq<T>, lo: int, n: int)
    requires 0 <= lo && 0 <= n && lo + n <= |a|
    ensures Perm(a, InsertionSort(cmp, a, lo, lo + 1, lo + n), lo, lo + n)
  {
    if n > 0 {
      InsertionSortPerm(cmp, a, lo, lo + 1, lo + n);
    }
  }

  /** Every call of CLG_(qsort) ends and rearranges its range, whatever duplicates it holds. */
  lemma {:induction false} QSortPermutes<T(!new)>(cmp: Cmp<T>, a: seq<T>, lo: int, n: int)
    requires Reflexive(cmp) && 0 <= lo && 0 <= n && lo + n <= |a|
    ensures Perm(a, QSort(cmp, a, lo, n), lo, lo + n)
    decreases n
  {
    hide Perm, Partition, MovePivots, InsertionSort;
    if n < 7 {
      ShortPerm(cmp, a, lo, n);
    } else {
      var p := Partition(cmp, a, lo, n);
      var b := Arranged(cmp, a, lo, n);
      var m, g := p.pb - p.pa, p.pd + 1 - p.pb;
      PartitionShrinks(cmp, a, lo, n);
      ArrangedPerm(cmp, a, lo, n);
      var c := if m > 1 then QSort(cmp, b, lo, m) else b;
      if m > 1 {
        QSortPermutes(cmp, b, lo, m);
        PermWiden(b, c, lo, lo + m, lo, lo + n);
        PermTrans(a, b, c, lo, lo + n);
      }
      if g > 1 {
        var d := QSort(cmp, c, lo + n - g, g);
        QSortPermutes(cmp, c, lo + n - g, g);
        PermWiden(c, d, lo + n - g, lo + n, lo, lo + n);
        PermTrans(a, c, d, lo, lo + n);
      }
    }
  }

  // -------------------------------------------------------- when it sorts

  /** The guard that line 974 lacks: the pivots gathered at the start are no more
      than the smaller elements they are swapped with, or there are none of these. */
  predicate Roomy<T>(p: Part<T>, lo: int) {
    p.pa - lo <= p.pb - p.pa || p.pb == p.pa
  }

  /** Every partition is roomy: this one, and those of the two parts it leaves.  The
      parts are taken as the partition leaves them; nothing is sorted. */
  ghost predicate Clean<T(!new)>(cmp: Cmp<T>, a: seq<T>, lo: int, n: int)
    requires Reflexive(cmp) && 0 <= lo && 0 <= n && lo + n <= |a|
    decreases n
  {
    n < 7 ||
    (var p := Partition(cmp, a, lo, n);
     PartitionShrinks(cmp, a, lo, n);
     var b := Arranged(cmp, a, lo, n);
     var m, g := p.pb - p.pa, p.pd + 1 - p.pb;
     Roomy(p, lo) && Clean(cmp, b, lo, m) && Clean(cmp, b, lo + n - g, g))
  }

  lemma SamePartition<T>(cmp: Cmp<T>, a: seq<T>, b: seq<T>, lo: int, n: int)
    requires 7 <= n && Same(a, b, lo, lo + n)
    ensures SamePart(Partition(cmp, a, lo, n), Partition(cmp, b, lo, n), lo, lo + n)
    ensures Same(Arranged(cmp, a, lo, n), Arranged(cmp, b, lo, n), lo, lo + n)
  {
    hide Scan, Pivot, SwapRuns;
    var hi := lo + n;
    SamePivot(cmp, a, b, lo, n);
    var i := Pivot(cmp, a, lo, n);
    SameScan(cmp, a[i], Part(a, lo, lo, hi - 1, hi - 1), Part(b, lo, lo, hi - 1, hi - 1), lo, hi);
    var p, q := Partition(cmp, a, lo, n), Partition(cmp, b, lo, n);
    var s, s' := p.pa - lo, hi - 1 - p.pd;
    SameRuns(p.a, q.a, lo, p.pb - s, 0, s, lo, hi);
    SameRuns(SwapRuns(p.a, lo, p.pb - s, 0, s), SwapRuns(q.a, lo, p.pb - s, 0, s), p.pb, hi - s', 0, s', lo, hi);
  }

  lemma SameShrink<T>(a: seq<T>, b: seq<T>, lo: int, hi: int, lo': int, hi': int)
    requires Same(a, b, lo, hi) && lo <= lo' && hi' <= hi
    ensures Same(a, b, lo', hi')
  {
  }

  /** The condition depends on the range alone. */
  lemma {:induction false} SameClean<T(!new)>(cmp: Cmp<T>, a: seq<T>, b: seq<T>, lo: int, n: int)
    requires Reflexive(cmp) && 0 <= n && Same(a, b, lo, lo + n)
    ensures 0 <= lo && lo + n <= |a| == |b|
    ensures Clean(cmp, a, lo, n) <==> Clean(cmp, b, lo, n)
    decreases n
  {
    hide Same, Partition, Arranged, Reflexive;
    SameLength(a, b, lo, lo + n);
    if n >= 7 {
      SamePartition(cmp, a, b, lo, n);
      PartitionShrinks(cmp, a, lo, n);
      var p := Partition(cmp, a, lo, n);
      var c, d := Arranged(cmp, a, lo, n), Arranged(cmp, b, lo, n);
      var m, g := p.pb - p.pa, p.pd + 1 - p.pb;
      SameShrink(c, d, lo, lo + n, lo, lo + m);
      SameShrink(c, d, lo, lo + n, lo + n - g, lo + n);
      SameClean(cmp, c, d, lo, m);
      SameClean(cmp, c, d, lo + n - g, g);
    }
  }

  /** Rearranging the left part does not touch the right one. */
  lemma PermSame<T>(b: seq<T>, c: seq<T>, lo: int, x: int, y: int, hi: int)
    requires Perm(b, c, lo, x) && x <= y && hi <= |b|
    ensures Same(b, c, y, hi)
  {
  }

  lemma RoomyLayout<T(!new)>(cmp: Cmp<T>, v: T, p: Part<T>, lo: int, hi: int)
    requires Zones(cmp, v, p, lo, hi) && p.pb == p.pc + 1 && Roomy(p, lo)
    ensures
      var b := MovePivots(p, lo, hi);
      var m, g := p.pb - p.pa, p.pd + 1 - p.pb;
      All(cmp, v, b, lo, lo + m, -1) && All(cmp, v, b, lo + m, hi - g, 0) && All(cmp, v, b, hi - g, hi, 1)
  {
    var s, s', m, g := p.pa - lo, hi - 1 - p.pd, p.pb - p.pa, p.pd + 1 - p.pb;
    hide SwapRuns;
    var b := SwapRuns(p.a, lo, lo + m, 0, s);
    StartMoved(cmp, v, p.a, lo, s, m);
    assert All(cmp, v, b, p.pb, p.pb + g, 1) && All(cmp, v, b, p.pb + g, p.pb + g + s', 0);
    EndMoved(cmp, v, b, p.pb, g, s');
  }

  lemma CrampedLayout<T(!new)>(cmp: Cmp<T>, v: T, p: Part<T>, lo: int, hi: int)
    requires Zones(cmp, v, p, lo, hi) && p.pb == p.pc + 1 && !Roomy(p, lo)
    ensures
      var b := MovePivots(p, lo, hi);
      var s, m := p.pa - lo, p.pb - p.pa;
      0 < m < s && All(cmp, v, b, lo, lo + s - m, 0) && All(cmp, v, b, lo + s - m, lo + s, -1)
  {
    var s, s', m, g := p.pa - lo, hi - 1 - p.pd, p.pb - p.pa, p.pd + 1 - p.pb;
    hide SwapRuns;
    var b := SwapRuns(p.a, lo, lo + m, 0, s);
    StartStuck(cmp, v, p.a, lo, s, m);
    assert All(cmp, v, b, p.pb, p.pb + g, 1) && All(cmp, v, b, p.pb + g, p.pb + g + s', 0);
    EndMoved(cmp, v, b, p.pb, g, s');
  }

  /** Less, equal, greater, with the outer parts sorted, is sorted. */
  lemma Assemble<T(!new)>(cmp: Cmp<T>, v: T, d: seq<T>, lo: int, x: int, y: int, hi: int)
    requires Order(cmp) && 0 <= lo <= x <= y <= hi <= |d|
    requires All(cmp, v, d, lo, x, -1) && All(cmp, v, d, x, y, 0) && All(cmp, v, d, y, hi, 1)
    requires Sorted(cmp, d, lo, x) && Sorted(cmp, d, y, hi)
    ensures Sorted(cmp, d, lo, hi)
  {
    forall i, j | lo <= i < j < hi ensures cmp(d[i], d[j]) <= 0 {
      if i < y && x <= j {
        assert cmp(d[i], v) <= 0;
        assert cmp(v, d[j]) <= 0;
      }
    }
  }

  /** A rearrangement of a range keeps the sign of its elements. */
  lemma PermSign<T(!new)>(cmp: Cmp<T>, v: T, a: seq<T>, b: seq<T>, lo: int, hi: int, q: int)
    requires Perm(a, b, lo, hi) && All(cmp, v, a, lo, hi, q)
    ensures All(cmp, v, b, lo, hi, q)
  {
    PermAll(a, b, lo, hi, x => Sign(cmp(x, v)) == q);
  }

  /** Sortedness of the parts decides sortedness of the whole. */
  lemma SortedByParts<T(!new)>(cmp: Cmp<T>, v: T, b: seq<T>, c: seq<T>, d: seq<T>, lo: int, x: int, y: int, hi: int)
    requires Order(cmp) && 0 <= lo <= x <= y <= hi <= |b|
    requires Perm(b, c, lo, x) && Perm(c, d, y, hi)
    requires All(cmp, v, b, lo, x, -1) && All(cmp, v, b, x, y, 0) && All(cmp, v, b, y, hi, 1)
    ensures Sorted(cmp, d, lo, hi) <==> Sorted(cmp, c, lo, x) && Sorted(cmp, d, y, hi)
  {
    PermSign(cmp, v, b, c, lo, x, -1);
    PermSign(cmp, v, c, d, y, hi, 1);
    if Sorted(cmp, c, lo, x) && Sorted(cmp, d, y, hi) {
      Assemble(cmp, v, d, lo, x, y, hi);
    }
  }

  /** A cramped partition leaves a pivot before a smaller element for good. */
  lemma CrampedUnsorted<T(!new)>(cmp: Cmp<T>, v: T, b: seq<T>, c: seq<T>, d: seq<T>,
                                 lo: int, s: int, m: int, y: int, hi: int)
    requires Order(cmp) && 0 <= lo && 0 < m < s && lo + s <= y <= hi <= |b|
    requires Perm(b, c, lo, lo + m) && Perm(c, d, y, hi)
    requires All(cmp, v, b, lo, lo + s - m, 0) && All(cmp, v, b, lo + s - m, lo + s, -1)
    ensures !Sorted(cmp, d, lo, hi)
  {
    var k := PermFind(b, c, lo, lo + m, lo);
    var j := lo + s - 1;
    assert d[k] == b[lo] && d[j] == b[j];
    assert cmp(d[k], v) == 0 && cmp(d[j], v) < 0;
    assert cmp(v, d[k]) <= 0;
  }

  lemma InsertionSortSortsShort<T(!new)>(cmp: Cmp<T>, a: seq<T>, lo: int, n: int)
    requires Order(cmp) && 0 <= lo && 0 <= n && lo + n <= |a|
    ensures Sorted(cmp, InsertionSort(cmp, a, lo, lo + 1, lo + n), lo, lo + n)
  {
    if n > 0 {
      InsertionSortSorts(cmp, a, lo, lo + 1, lo + n);
    }
  }

  lemma SortedShort<T(!new)>(cmp: Cmp<T>, a: seq<T>, lo: int, hi: int)
    requires hi <= lo + 1
    ensures Sorted(cmp, a, lo, hi)
  {
  }

  /** One level of the recursion. */
  lemma NodeExactly<T(!new)>(cmp: Cmp<T>, a: seq<T>, lo: int, n: int, c: seq<T>, d: seq<T>)
    requires Order(cmp) && 0 <= lo && 7 <= n && lo + n <= |a|
    requires var p := Partition(cmp, a, lo, n);
      Perm(Arranged(cmp, a, lo, n), c, lo, lo + (p.pb - p.pa)) && Perm(c, d, lo + n - (p.pd + 1 - p.pb), lo + n)
    ensures
      var p := Partition(cmp, a, lo, n);
      Sorted(cmp, d, lo, lo + n) <==>
        Roomy(p, lo) && Sorted(cmp, c, lo, lo + (p.pb - p.pa)) && Sorted(cmp, d, lo + n - (p.pd + 1 - p.pb), lo + n)
  {
    hide Order, Perm, All, Zones, Sorted, Partition, MovePivots;
    var p := Partition(cmp, a, lo, n);
    var v := a[Pivot(cmp, a, lo, n)];
    var b := Arranged(cmp, a, lo, n);
    var m, g := p.pb - p.pa, p.pd + 1 - p.pb;
    PartitionZones(cmp, a, lo, n);
    if Roomy(p, lo) {
      RoomyLayout(cmp, v, p, lo, lo + n);
      SortedByParts(cmp, v, b, c, d, lo, lo + m, lo + n - g, lo + n);
    } else {
      CrampedLayout(cmp, v, p, lo, lo + n);
      CrampedUnsorted(cmp, v, b, c, d, lo, p.pa - lo, m, lo + n - g, lo + n);
    }
  }

  /** The sort sorts exactly the inputs on which every partition is roomy. */
  lemma {:induction false} SortsExactly<T(!new)>(cmp: Cmp<T>, a: seq<T>, lo: int, n: int)
    requires Reflexive(cmp) && Order(cmp) && 0 <= lo && 0 <= n && lo + n <= |a|
    ensures Sorted(cmp, QSort(cmp, a, lo, n), lo, lo + n) <==> Clean(cmp, a, lo, n)
    decreases n
  {
    hide Order, Perm, Partition, MovePivots, InsertionSort, Sorted, Same;
    if n < 7 {
      InsertionSortSortsShort(cmp, a, lo, n);
    } else {
      var p := Partition(cmp, a, lo, n);
      var b := Arranged(cmp, a, lo, n);
      var m, g := p.pb - p.pa, p.pd + 1 - p.pb;
      PartitionShrinks(cmp, a, lo, n);
      var c := if m > 1 then QSort(cmp, b, lo, m) else b;
      var d := if g > 1 then QSort(cmp, c, lo + n - g, g) else c;
      if m > 1 {
        QSortPermutes(cmp, b, lo, m);
        SortsExactly(cmp, b, lo, m);
      } else {
        PermSelf(b, lo, lo + m);
        SortedShort(cmp, b, lo, lo + m);
      }
      if g > 1 {
        PermSame(b, c, lo, lo + m, lo + n - g, lo + n);
        SameClean(cmp, b, c, lo + n - g, g);
        QSortPermutes(cmp, c, lo + n - g, g);
        SortsExactly(cmp, c, lo + n - g, g);
      } else {
        PermSelf(c, lo + n - g, lo + n);
        SortedShort(cmp, c, lo + n - g, lo + n);
      }
      NodeExactly(cmp, a, lo, n, c, d);
    }
  }

  // ------------------------------------------------- what a caller can check

  /** No two elements of the range compare equal. */
  ghost predicate Distinct<T(!new)>(cmp: Cmp<T>, a: seq<T>, lo: int, hi: int) {
    forall i, j :: 0 <= lo <= i < hi <= |a| && lo <= j < hi && i != j ==> cmp(a[i], a[j]) != 0
  }

  lemma {:induction false} TwoPlaces<T>(a: seq<T>, x: T) returns (i: int, j: int)
    requires multiset(a)[x] >= 2
    ensures 0 <= i < j < |a| && a[i] == x && a[j] == x
  {
    var front, last := a[..|a| - 1], a[|a| - 1];
    assert a == front + [last];
    if last == x {
      assert multiset(front)[x] >= 1;
      assert x in front;
      i :| 0 <= i < |front| && front[i] == x;
      j := |a| - 1;
    } else {
      i, j := TwoPlaces(front, x);
    }
  }

  lemma CountTwo<T>(a: seq<T>, i: int, j: int)
    requires 0 <= i < j < |a| && a[i] == a[j]
    ensures multiset(a)[a[i]] >= 2
  {
    assert a == a[..i] + [a[i]] + a[i + 1..j] + [a[j]] + a[j + 1..];
  }

  lemma PermBack<T>(a: seq<T>, b: seq<T>, lo: int, hi: int)
    requires Perm(a, b, lo, hi)
    ensures Perm(b, a, lo, hi)
  {
  }

  lemma PermDistinct<T(!new)>(cmp: Cmp<T>, a: seq<T>, b: seq<T>, lo: int, hi: int)
    requires Order(cmp) && Perm(a, b, lo, hi) && Distinct(cmp, a, lo, hi)
    ensures Distinct(cmp, b, lo, hi)
  {
    forall i, j | lo <= i < hi && lo <= j < hi && i < j ensures cmp(b[i], b[j]) != 0 && cmp(b[j], b[i]) != 0 {
      PermRange(a, b, lo, hi);
      var ra, rb := a[lo..hi], b[lo..hi];
      if b[i] == b[j] {
        CountTwo(rb, i - lo, j - lo);
        var x, y := TwoPlaces(ra, b[i]);
        assert cmp(a[lo + x], a[lo + y]) != 0;
      } else {
        PermBack(a, b, lo, hi);
        var x := PermFind(b, a, lo, hi, i);
        var y := PermFind(b, a, lo, hi, j);
      }
    }
  }

  lemma DistinctPart<T(!new)>(cmp: Cmp<T>, a: seq<T>, lo: int, hi: int, lo': int, hi': int)
    requires Distinct(cmp, a, lo, hi) && 0 <= lo <= lo' && hi' <= hi <= |a|
    ensures Distinct(cmp, a, lo', hi')
  {
  }

  lemma EqualToBoth<T(!new)>(cmp: Cmp<T>, v: T, x: T, y: T)
    requires Order(cmp) && cmp(x, v) == 0 && cmp(y, v) == 0
    ensures cmp(x, y) == 0
  {
    assert cmp(v, x) <= 0 && cmp(v, y) <= 0;
    assert cmp(x, y) <= 0 && cmp(y, x) <= 0;
  }

  lemma DistinctRoomy<T(!new)>(cmp: Cmp<T>, a: seq<T>, lo: int, n: int)
    requires Order(cmp) && 0 <= lo && 7 <= n && lo + n <= |a| && Distinct(cmp, a, lo, lo + n)
    ensures Roomy(Partition(cmp, a, lo, n), lo)
  {
    var p := Partition(cmp, a, lo, n);
    var v := a[Pivot(cmp, a, lo, n)];
    PartitionZones(cmp, a, lo, n);
    PermDistinct(cmp, a, p.a, lo, lo + n);
    if p.pa - lo >= 2 {
      EqualToBoth(cmp, v, p.a[lo], p.a[lo + 1]);
      assert false;
    }
  }

  /** Without equal elements every partition is roomy. */
  lemma {:induction false} DistinctIsClean<T(!new)>(cmp: Cmp<T>, a: seq<T>, lo: int, n: int)
    requires Reflexive(cmp) && Order(cmp) && 0 <= lo && 0 <= n && lo + n <= |a| && Distinct(cmp, a, lo, lo + n)
    ensures Clean(cmp, a, lo, n)
    decreases n
  {
    hide Perm, Distinct, Order, Partition, MovePivots, Roomy;
    if n >= 7 {
      var p := Partition(cmp, a, lo, n);
      var b := Arranged(cmp, a, lo, n);
      var m, g := p.pb - p.pa, p.pd + 1 - p.pb;
      PartitionShrinks(cmp, a, lo, n);
      DistinctRoomy(cmp, a, lo, n);
      ArrangedPerm(cmp, a, lo, n);
      PermDistinct(cmp, a, b, lo, lo + n);
      DistinctPart(cmp, b, lo, lo + n, lo, lo + m);
      DistinctIsClean(cmp, b, lo, m);
      DistinctPart(cmp, b, lo, lo + n, lo + n - g, lo + n);
      DistinctIsClean(cmp, b, lo + n - g, g);
    }
  }

  /** Ranges without equal elements, and ranges of fewer than seven, are sorted. */
  lemma SortsDistinctOrShort<T(!new)>(cmp: Cmp<T>, a: seq<T>, lo: int, n: int)
    requires Order(cmp) && 0 <= lo && 0 <= n && lo + n <= |a|
    requires n < 7 || Distinct(cmp, a, lo, lo + n)
    ensures Sorted(cmp, QSort(cmp, a, lo, n), lo, lo + n)
  {
    SortsExactly(cmp, a, lo, n);
    if n >= 7 {
      DistinctIsClean(cmp, a, lo, n);
    }
  }

  function Difference(x: int, y: int): int {
    x - y
  }

  lemma DifferenceIsOrder()
    ensures Reflexive(Difference) && Order(Difference)
  {
  }

  lemma CleanIsRoomy<T(!new)>(cmp: Cmp<T>, a: seq<T>, lo: int, n: int)
    requires Reflexive(cmp) && 0 <= lo && 7 <= n && lo + n <= |a| && Clean(cmp, a, lo, n)
    ensures Roomy(Partition(cmp, a, lo, n), lo)
  {
    hide Partition, Arranged;
  }

  lemma ScanExample(cmp: Cmp<int>, a: seq<int>, b: seq<int>)
    requires forall x: int, y: int :: cmp(x, y) == x - y
    requires a == [1, 1, 0, 1, 2, 2, 2] && b == [1, 1, 1, 0, 2, 2, 2]
    ensures Scan(cmp, 1, Part(a, 0, 0, 6, 6), 0, 7) == Part(b, 3, 4, 3, 6)
  {
    assert Swap(a, 0, 0) == a && Swap(a, 1, 1) == a && Swap(a, 2, 3) == b;
    var u4 := Part(b, 3, 4, 6, 6);
    assert ScanUp(cmp, 1, u4, 0, 7) == u4;
    assert ScanUp(cmp, 1, Part(a, 2, 3, 6, 6), 0, 7) == u4;
    assert ScanUp(cmp, 1, Part(a, 2, 2, 6, 6), 0, 7) == u4;
    assert ScanUp(cmp, 1, Part(a, 1, 1, 6, 6), 0, 7) == u4;
    assert ScanUp(cmp, 1, Part(a, 0, 0, 6, 6), 0, 7) == u4;
    var d := Part(b, 3, 4, 3, 6);
    assert ScanDown(cmp, 1, d, 0, 7) == d;
    assert ScanDown(cmp, 1, Part(b, 3, 4, 4, 6), 0, 7) == d;
    assert ScanDown(cmp, 1, Part(b, 3, 4, 5, 6), 0, 7) == d;
    assert ScanDown(cmp, 1, u4, 0, 7) == d;
  }

  /** With equal elements the sort can fail: on 1 1 0 1 2 2 2 the three pivots at the
      start outnumber the single smaller element. */
  lemma DuplicatesCanStayUnsorted()
    ensures Reflexive(Difference) && Order(Difference)
    ensures !Sorted(Difference, QSort(Difference, [1, 1, 0, 1, 2, 2, 2], 0, 7), 0, 7)
  {
    hide Order, Reflexive, Sorted, QSort, Scan, Clean;
    DifferenceIsOrder();
    var a, b := [1, 1, 0, 1, 2, 2, 2], [1, 1, 1, 0, 2, 2, 2];
    ScanExample(Difference, a, b);
    var p := Partition(Difference, a, 0, 7);
    assert p == Part(b, 3, 4, 3, 6);
    SortsExactly(Difference, a, 0, 7);
    if Clean(Difference, a, 0, 7) {
      CleanIsRoomy(Difference, a, 0, 7);
      assert false;
    }
  }

  lemma OtherwiseDistinct(a: seq<int>)
    requires a == [1, 1, 2, 3, 0, 4, 5, 6]
    ensures Distinct(Difference, a, 1, 8)
  {
  }

  lemma PivotPair(cmp: Cmp<int>, a: seq<int>)
    requires a == [1, 1, 2, 3, 0, 4, 5, 6] && forall x: int, y: int :: cmp(x, y) == x - y
    ensures Pivot(cmp, a, 0, 8) == 0
  {
  }

  lemma ScanPair(cmp: Cmp<int>, a: seq<int>, b: seq<int>)
    requires forall x: int, y: int :: cmp(x, y) == x - y
    requires a == [1, 1, 2, 3, 0, 4, 5, 6] && b == [1, 1, 0, 3, 2, 4, 5, 6]
    ensures Scan(cmp, 1, Part(a, 0, 0, 7, 7), 0, 8) == Part(b, 2, 3, 2, 7)
  {
    assert Swap(a, 0, 0) == a && Swap(a, 1, 1) == a && Swap(a, 2, 4) == b;
    var u := Part(a, 2, 2, 7, 7);
    assert ScanUp(cmp, 1, u, 0, 8) == u;
    assert ScanUp(cmp, 1, Part(a, 1, 1, 7, 7), 0, 8) == u;
    assert ScanUp(cmp, 1, Part(a, 0, 0, 7, 7), 0, 8) == u;
    var d := Part(a, 2, 2, 4, 7);
    assert ScanDown(cmp, 1, d, 0, 8) == d;
    assert ScanDown(cmp, 1, Part(a, 2, 2, 5, 7), 0, 8) == d;
    assert ScanDown(cmp, 1, Part(a, 2, 2, 6, 7), 0, 8) == d;
    assert ScanDown(cmp, 1, u, 0, 8) == d;
    var w, z := Part(b, 2, 3, 3, 7), Part(b, 2, 3, 2, 7);
    assert ScanUp(cmp, 1, w, 0, 8) == w;
    assert ScanDown(cmp, 1, z, 0, 8) == z;
    assert ScanDown(cmp, 1, w, 0, 8) == z;
    assert Scan(cmp, 1, w, 0, 8) == z;
  }

  /** One equal pair is enough: 1 1 2 3 0 4 5 6 has no other and is not sorted. */
  lemma OnePairIsEnough()
    ensures Reflexive(Difference) && Order(Difference)
    ensures Distinct(Difference, [1, 1, 2, 3, 0, 4, 5, 6], 1, 8)
    ensures !Sorted(Difference, QSort(Difference, [1, 1, 2, 3, 0, 4, 5, 6], 0, 8), 0, 8)
  {
    hide Order, Reflexive, Sorted, QSort, Scan, Clean, Distinct, Pivot;
    DifferenceIsOrder();
    var a, b := [1, 1, 2, 3, 0, 4, 5, 6], [1, 1, 0, 3, 2, 4, 5, 6];
    OtherwiseDistinct(a);
    ScanPair(Difference, a, b);
    PivotPair(Difference, a);
    var p := Partition(Difference, a, 0, 8);
    assert p == Part(b, 2, 3, 2, 7);
    SortsExactly(Difference, a, 0, 8);
    if Clean(Difference, a, 0, 8) {
      CleanIsRoomy(Difference, a, 0, 8);
      assert false;
    }
  }
}
