/** The circular doubly linked lists of list.h.

    All nodes live in one pool and are named by their index: nodes 0 .. pages-1
    are the `list` members of the page descriptors, and node pages+k is the head
    of list k.  A pointer is such an index, so `next` and `prev` are two arrays. */
module ListPool {
  import opened Lists

  /** The nodes of list k in order, its head first. */
  function RingOf(pages: nat, lists: seq<seq<nat>>, k: nat): seq<nat>
    requires k < |lists|
  {
    [pages + k] + lists[k]
  }

  function After(i: nat, n: nat): nat
  {
    if i + 1 < n then i + 1 else 0
  }

  /** next runs round the ring and prev runs back. */
  ghost predicate Ring(next: seq<nat>, prev: seq<nat>, r: seq<nat>)
    requires |next| == |prev|
  {
    forall i: nat :: i < |r| ==>
      && r[i] < |next| && r[After(i, |r|)] < |next|
      && next[r[i]] == r[After(i, |r|)] && prev[r[After(i, |r|)]] == r[i]
  }

  /** The lists hold distinct page nodes, and no node is on two of them. */
  ghost predicate Separate(pages: nat, lists: seq<seq<nat>>) {
    && (forall k: nat, x: nat {:trigger x in lists[k]} :: k < |lists| && x in lists[k] ==> x < pages)
    && (forall k: nat {:trigger NoDup(lists[k])} :: k < |lists| ==> NoDup(lists[k]))
    && (forall k: nat, m: nat, x: nat {:trigger x in lists[k], x in lists[m]} ::
          k < |lists| && m < |lists| && x in lists[k] && x in lists[m] ==> k == m)
  }

  /** The pool represents the lists; a page node on no list points at itself. */
  ghost predicate Linked(pages: nat, next: seq<nat>, prev: seq<nat>, lists: seq<seq<nat>>) {
    && |next| == |prev| == pages + |lists|
    && Separate(pages, lists)
    && (forall k: nat {:trigger RingOf(pages, lists, k)} :: k < |lists| ==> Ring(next, prev, RingOf(pages, lists, k)))
    && (forall n: nat {:trigger next[n]} {:trigger prev[n]} ::
          n < pages && Absent(lists, n) ==> next[n] == n && prev[n] == n)
  }

  /** A node off a ring may be rewritten without disturbing the ring. */
  lemma RingFrame(next: seq<nat>, prev: seq<nat>, next': seq<nat>, prev': seq<nat>, r: seq<nat>)
    requires |next| == |prev| == |next'| == |prev'| && Ring(next, prev, r)
    requires forall i :: 0 <= i < |r| && r[i] < |next| ==> next'[r[i]] == next[r[i]] && prev'[r[i]] == prev[r[i]]
    ensures Ring(next', prev', r)
  {
  }

  // -------------------------------------------------------------- __list_add

  function AddNext(next: seq<nat>, n: nat, p: nat, q: nat): seq<nat>
    requires n < |next| && p < |next|
  {
    next[n := q][p := n]
  }

  function AddPrev(prev: seq<nat>, n: nat, p: nat, q: nat): seq<nat>
    requires n < |prev| && q < |prev|
  {
    prev[q := n][n := p]
  }

  lemma AddRing(next: seq<nat>, prev: seq<nat>, h: nat, l: seq<nat>, n: nat)
    requires |next| == |prev| && n < |next| && Ring(next, prev, [h] + l)
    requires NoDup(l) && h !in l && n !in l && n != h
    ensures h < |next| && next[h] < |next|
    ensures Ring(AddNext(next, n, h, next[h]), AddPrev(prev, n, h, next[h]), [h] + ([n] + l))
  {
    var r, r' := [h] + l, [h] + ([n] + l);
    assert r[0] == h && next[h] == r[After(0, |r|)];
    var q := next[h];
    var next', prev' := AddNext(next, n, h, q), AddPrev(prev, n, h, q);
    forall i: nat | i < |r'|
      ensures r'[i] < |next| && r'[After(i, |r'|)] < |next|
      ensures next'[r'[i]] == r'[After(i, |r'|)] && prev'[r'[After(i, |r'|)]] == r'[i]
    {
      if i >= 2 {
        assert r'[i] == r[i - 1] == l[i - 2];
        assert r'[After(i, |r'|)] == r[After(i - 1, |r|)];
        if After(i, |r'|) != 0 {
          assert r'[After(i, |r'|)] == l[i - 1];
          assert q == l[0];
        }
      }
    }
  }

  lemma PushSeparate(pages: nat, lists: seq<seq<nat>>, k: nat, n: nat)
    requires Separate(pages, lists) && k < |lists| && n < pages && Absent(lists, n)
    ensures Separate(pages, Push(lists, k, n))
  {
    var r := Push(lists, k, n);
    assert NoDup(lists[k]);
    NoDupPush(lists[k], n);
    assert forall m: nat, x: nat {:trigger x in r[m]} :: m < |lists| ==>
      (x in r[m] <==> x in lists[m] || (m == k && x == n));
  }

  lemma SameLengths(next: seq<nat>, prev: seq<nat>, n: nat, p: nat, q: nat)
    requires n < |next| && p < |next| && n < |prev| && q < |prev|
    ensures |AddNext(next, n, p, q)| == |next| && |AddPrev(prev, n, p, q)| == |prev|
  {
  }

  /** The first node of a list is its own head or one of its elements. */
  lemma FirstNode(pages: nat, next: seq<nat>, prev: seq<nat>, lists: seq<seq<nat>>, k: nat)
    requires Linked(pages, next, prev, lists) && k < |lists|
    ensures next[pages + k] < |next| && (next[pages + k] == pages + k || next[pages + k] in lists[k])
  {
    assert Ring(next, prev, RingOf(pages, lists, k));
    assert RingOf(pages, lists, k)[0] == pages + k;
  }

  /** Adding to list k does not touch the ring of another list. */
  lemma AddOtherRing(pages: nat, next: seq<nat>, prev: seq<nat>, lists: seq<seq<nat>>, k: nat, n: nat, m: nat)
    requires Linked(pages, next, prev, lists) && k < |lists| && n < pages && Absent(lists, n)
    requires m < |lists| && m != k && next[pages + k] < |next|
    ensures Ring(AddNext(next, n, pages + k, next[pages + k]), AddPrev(prev, n, pages + k, next[pages + k]),
                 RingOf(pages, lists, m))
  {
    hide Ring, NoDup;
    FirstNode(pages, next, prev, lists, k);
    var q := next[pages + k];
    var next', prev', r := AddNext(next, n, pages + k, q), AddPrev(prev, n, pages + k, q), RingOf(pages, lists, m);
    forall i | 0 <= i < |r| && r[i] < |next| ensures next'[r[i]] == next[r[i]] && prev'[r[i]] == prev[r[i]] {
      assert i > 0 ==> r[i] == lists[m][i - 1] && r[i] in lists[m];
    }
    RingFrame(next, prev, next', prev', r);
  }

  /** Nodes that are still on no list still point at themselves. */
  lemma AddDetached(pages: nat, next: seq<nat>, prev: seq<nat>, lists: seq<seq<nat>>, k: nat, n: nat)
    requires Linked(pages, next, prev, lists) && k < |lists| && n < pages && next[pages + k] < |next|
    ensures
      var q := next[pages + k];
      forall x: nat :: x < pages && Absent(Push(lists, k, n), x) ==>
        AddNext(next, n, pages + k, q)[x] == x && AddPrev(prev, n, pages + k, q)[x] == x
  {
    hide Ring, NoDup;
    FirstNode(pages, next, prev, lists, k);
    var q, lists' := next[pages + k], Push(lists, k, n);
    forall x: nat | x < pages && Absent(lists', x)
      ensures AddNext(next, n, pages + k, q)[x] == x && AddPrev(prev, n, pages + k, q)[x] == x
    {
      assert x !in lists'[k];
      forall m: nat | m < |lists| ensures x !in lists[m] {
        assert x !in lists'[m];
      }
      assert Absent(lists, x);
    }
  }

  /** list_add of a node that is on no list pushes it onto list k and leaves the
      other lists as they were. */
  lemma AddKeeps(pages: nat, next: seq<nat>, prev: seq<nat>, lists: seq<seq<nat>>, k: nat, n: nat)
    requires Linked(pages, next, prev, lists) && k < |lists| && n < pages && Absent(lists, n)
    ensures next[pages + k] < |next|
    ensures Linked(pages, AddNext(next, n, pages + k, next[pages + k]),
                   AddPrev(prev, n, pages + k, next[pages + k]), Push(lists, k, n))
  {
    hide Ring, NoDup, AddNext, AddPrev;
    var h := pages + k;
    assert Ring(next, prev, RingOf(pages, lists, k));
    assert NoDup(lists[k]);
    AddRing(next, prev, h, lists[k], n);
    PushSeparate(pages, lists, k, n);
    var q := next[h];
    var next', prev', lists' := AddNext(next, n, h, q), AddPrev(prev, n, h, q), Push(lists, k, n);
    SameLengths(next, prev, n, h, q);
    forall m: nat | m < |lists| ensures Ring(next', prev', RingOf(pages, lists', m)) {
      if m == k {
        assert RingOf(pages, lists', k) == [h] + ([n] + lists[k]);
      } else {
        AddOtherRing(pages, next, prev, lists, k, n, m);
      }
    }
    AddDetached(pages, next, prev, lists, k, n);
  }

  // ----------------------------------------------------------- list_del_init

  /** __list_del of the node's neighbours, then INIT_LIST_HEAD of the node. */
  function DelNext(next: seq<nat>, n: nat, p: nat): seq<nat>
    requires n < |next| && p < |next|
  {
    next[p := next[n]][n := n]
  }

  function DelPrev(prev: seq<nat>, n: nat, q: nat): seq<nat>
    requires n < |prev| && q < |prev|
  {
    prev[q := prev[n]][n := n]
  }

  /** Where position i of a ring without position j came from, and what follows it. */
  lemma CutIndex(r: seq<nat>, j: nat, i: nat)
    requires 0 < j < |r| && i + 1 < |r|
    ensures
      var c := r[..j] + r[j + 1..];
      var o := if i < j then i else i + 1;
      && c[i] == r[o] && o != j
      && c[After(i, |c|)] == r[if i == j - 1 then After(j, |r|) else After(o, |r|)]
      && (i != j - 1 ==> After(o, |r|) != After(j, |r|) && After(o, |r|) != j && o != j - 1)
  {
  }

  /** Cutting position j out of a ring. */
  lemma DelRing(next: seq<nat>, prev: seq<nat>, r: seq<nat>, j: nat)
    requires |next| == |prev| && Ring(next, prev, r) && NoDup(r) && 0 < j < |r|
    ensures r[j] < |next| && next[r[j]] < |next| && prev[r[j]] < |next|
    ensures next[r[j]] in r && prev[r[j]] in r
    ensures Ring(DelNext(next, r[j], prev[r[j]]), DelPrev(prev, r[j], next[r[j]]), r[..j] + r[j + 1..])
  {
    var n := r[j];
    var a := After(j, |r|);
    assert After(j - 1, |r|) == j;
    assert prev[n] == r[j - 1] && next[n] == r[a];
    var c := r[..j] + r[j + 1..];
    forall i: nat | i < |c|
      ensures c[i] < |next| && c[After(i, |c|)] < |next|
      ensures DelNext(next, n, r[j - 1])[c[i]] == c[After(i, |c|)]
      ensures DelPrev(prev, n, r[a])[c[After(i, |c|)]] == c[i]
    {
      CutIndex(r, j, i);
      var o: nat := if i < j then i else i + 1;
      var b := After(o, |r|);
      assert next[r[o]] == r[b] && prev[r[b]] == r[o];
    }
  }

  lemma UnlinkSeparate(pages: nat, lists: seq<seq<nat>>, n: nat)
    requires Separate(pages, lists)
    ensures Separate(pages, Unlink(lists, n))
    ensures forall k: nat, x: nat {:trigger x in Unlink(lists, n)[k]} :: k < |lists| ==>
      (x in Unlink(lists, n)[k] <==> x in lists[k] && x != n)
  {
    forall k: nat | k < |lists|
      ensures NoDup(Unlink(lists, n)[k])
      ensures forall x: nat :: x in Unlink(lists, n)[k] <==> x in lists[k] && x != n
    {
      assert NoDup(lists[k]);
      WithoutFacts(lists[k], n);
    }
  }

  lemma NoDupBefore(l: seq<nat>, i: nat)
    requires NoDup(l) && i < |l|
    ensures forall j :: 0 <= j < i ==> l[j] != l[i]
  {
  }

  lemma DelListRing(next: seq<nat>, prev: seq<nat>, h: nat, l: seq<nat>, n: nat)
    requires |next| == |prev| && Ring(next, prev, [h] + l)
    requires NoDup(l) && h !in l && n in l
    ensures n < |next| && next[n] < |next| && prev[n] < |next|
    ensures next[n] in [h] + l && prev[n] in [h] + l
    ensures Ring(DelNext(next, n, prev[n]), DelPrev(prev, n, next[n]), [h] + Without(l, n))
  {
    hide Ring, DelNext, DelPrev, NoDup, Without;
    var r := [h] + l;
    NoDupPush(l, h);
    var i: nat :| i < |l| && l[i] == n;
    assert r[i + 1] == n;
    DelRing(next, prev, r, i + 1);
    NoDupBefore(l, i);
    WithoutFirst(l, i);
    assert [h] + Without(l, n) == r[..i + 1] + r[i + 2..];
  }

  lemma DelOwnRing(pages: nat, next: seq<nat>, prev: seq<nat>, lists: seq<seq<nat>>, k: nat, n: nat)
    requires Linked(pages, next, prev, lists) && k < |lists| && n in lists[k]
    ensures n < pages && next[n] < |next| && prev[n] < |next|
    ensures next[n] in RingOf(pages, lists, k) && prev[n] in RingOf(pages, lists, k)
    ensures Ring(DelNext(next, n, prev[n]), DelPrev(prev, n, next[n]), RingOf(pages, Unlink(lists, n), k))
  {
    assert Ring(next, prev, RingOf(pages, lists, k));
    assert NoDup(lists[k]);
    DelListRing(next, prev, pages + k, lists[k], n);
  }

  lemma DelOtherRings(pages: nat, next: seq<nat>, prev: seq<nat>, lists: seq<seq<nat>>, k: nat, n: nat)
    requires Linked(pages, next, prev, lists) && k < |lists| && n in lists[k] && n < pages
    requires next[n] < |next| && next[n] in RingOf(pages, lists, k)
    requires prev[n] < |next| && prev[n] in RingOf(pages, lists, k)
    requires Ring(DelNext(next, n, prev[n]), DelPrev(prev, n, next[n]), RingOf(pages, Unlink(lists, n), k))
    requires Separate(pages, Unlink(lists, n))
    requires forall m: nat, x: nat {:trigger x in Unlink(lists, n)[m]} :: m < |lists| ==>
      (x in Unlink(lists, n)[m] <==> x in lists[m] && x != n)
    ensures Linked(pages, DelNext(next, n, prev[n]), DelPrev(prev, n, next[n]), Unlink(lists, n))
  {
    var next', prev', lists' := DelNext(next, n, prev[n]), DelPrev(prev, n, next[n]), Unlink(lists, n);
    forall m: nat | m < |lists| ensures Ring(next', prev', RingOf(pages, lists', m)) {
      if m != k {
        var r := RingOf(pages, lists, m);
        assert n !in lists[m];
        assert RingOf(pages, lists', m) == r;
        assert Ring(next, prev, r);
        forall i | 0 <= i < |r| && r[i] < |next| ensures next'[r[i]] == next[r[i]] && prev'[r[i]] == prev[r[i]] {
          assert i > 0 ==> r[i] == lists[m][i - 1] && r[i] in lists[m];
        }
        RingFrame(next, prev, next', prev', r);
      }
    }
    forall x: nat | x < pages && Absent(lists', x) ensures next'[x] == x && prev'[x] == x {
      if x != n {
        forall m: nat | m < |lists| ensures x !in lists[m] {
          assert x !in lists'[m];
        }
        assert Absent(lists, x);
        assert next[x] == x && prev[x] == x;
        assert x !in lists[k];
      }
    }
  }

  /** list_del_init removes its node from whichever list holds it, touches no
      other list, and does nothing to a node that is on none. */
  lemma DelKeeps(pages: nat, next: seq<nat>, prev: seq<nat>, lists: seq<seq<nat>>, n: nat)
    requires Linked(pages, next, prev, lists) && n < pages
    ensures next[n] < |next| && prev[n] < |next|
    ensures Linked(pages, DelNext(next, n, prev[n]), DelPrev(prev, n, next[n]), Unlink(lists, n))
  {
    if Absent(lists, n) {
      assert next[n] == n && prev[n] == n;
      assert Unlink(lists, n) == lists by {
        forall k: nat | k < |lists| ensures Without(lists[k], n) == lists[k] {
          assert n !in lists[k];
        }
      }
      assert DelNext(next, n, n) == next && DelPrev(prev, n, n) == prev;
    } else {
      var k: nat :| k < |lists| && n in lists[k];
      DelOwnRing(pages, next, prev, lists, k, n);
      UnlinkSeparate(pages, lists, n);
      DelOtherRings(pages, next, prev, lists, k, n);
    }
  }

  // ------------------------------------------------------------- inspection

  /** Every node that is not detached has a place on some ring. */
  lemma FindPlace(pages: nat, lists: seq<seq<nat>>, n: nat) returns (k: nat, i: nat)
    requires n < pages + |lists| && !(n < pages && Absent(lists, n))
    ensures k < |lists| && i < |RingOf(pages, lists, k)| && RingOf(pages, lists, k)[i] == n
  {
    if n < pages {
      k :| k < |lists| && n in lists[k];
      var j: nat :| j < |lists[k]| && lists[k][j] == n;
      i := j + 1;
    } else {
      k, i := n - pages, 0;
    }
  }

  lemma RingInverse(next: seq<nat>, prev: seq<nat>, r: seq<nat>, i: nat)
    requires |next| == |prev| && Ring(next, prev, r) && i < |r|
    ensures r[i] < |next| && next[r[i]] < |next| && prev[next[r[i]]] == r[i]
    ensures prev[r[i]] < |next| && next[prev[r[i]]] == r[i]
  {
    var b: nat := if i > 0 then i - 1 else |r| - 1;
    assert After(b, |r|) == i;
  }

  /** next and prev are inverse to each other on the whole pool. */
  lemma MutuallyInverse(pages: nat, next: seq<nat>, prev: seq<nat>, lists: seq<seq<nat>>, n: nat)
    requires Linked(pages, next, prev, lists) && n < |next|
    ensures next[n] < |next| && prev[next[n]] == n
    ensures prev[n] < |next| && next[prev[n]] == n
  {
    if n < pages && Absent(lists, n) {
    } else {
      var k, i := FindPlace(pages, lists, n);
      RingInverse(next, prev, RingOf(pages, lists, k), i);
    }
  }

  /** Position of the iterator of list_for_each after i steps. */
  lemma ForEachStep(pages: nat, next: seq<nat>, prev: seq<nat>, lists: seq<seq<nat>>, k: nat, i: nat)
    requires Linked(pages, next, prev, lists) && k < |lists| && i <= |lists[k]|
    ensures RingOf(pages, lists, k)[i] < |next|
    ensures i < |lists[k]| ==> next[RingOf(pages, lists, k)[i]] == lists[k][i] && lists[k][i] != pages + k
    ensures i == |lists[k]| ==> next[RingOf(pages, lists, k)[i]] == pages + k
  {
    var r := RingOf(pages, lists, k);
    assert Ring(next, prev, r);
    assert i < |lists[k]| ==> r[i + 1] == lists[k][i] && lists[k][i] in lists[k];
  }

  /** After i elements the iterator is at element i, or at the head behind the last one. */
  ghost predicate Arrived(pages: nat, lists: seq<seq<nat>>, k: nat, i: nat, pos: nat)
    requires k < |lists| && i <= |lists[k]|
  {
    if i < |lists[k]| then pos == lists[k][i] && pos != pages + k else pos == pages + k
  }

  lemma VisitFirst(pages: nat, next: seq<nat>, prev: seq<nat>, lists: seq<seq<nat>>, k: nat)
    requires Linked(pages, next, prev, lists) && k < |lists|
    ensures pages + k < |next| && Arrived(pages, lists, k, 0, next[pages + k])
  {
    hide Linked, Ring;
    ForEachStep(pages, next, prev, lists, k, 0);
  }

  lemma VisitNext(pages: nat, next: seq<nat>, prev: seq<nat>, lists: seq<seq<nat>>, k: nat, i: nat)
    requires Linked(pages, next, prev, lists) && k < |lists| && i < |lists[k]|
    ensures lists[k][i] < |next| && Arrived(pages, lists, k, i + 1, next[lists[k][i]])
  {
    hide Linked, Ring;
    ForEachStep(pages, next, prev, lists, k, i + 1);
  }

  lemma FirstIsNot(pages: nat, next: seq<nat>, prev: seq<nat>, lists: seq<seq<nat>>, k: nat, n: nat)
    requires Linked(pages, next, prev, lists) && k < |lists| && n < pages && Absent(lists, n)
    ensures next[pages + k] != n
  {
    ForEachStep(pages, next, prev, lists, k, 0);
    assert n !in lists[k];
  }

  lemma ElementsArePages(pages: nat, next: seq<nat>, prev: seq<nat>, lists: seq<seq<nat>>)
    requires Linked(pages, next, prev, lists)
    ensures forall k: nat, i: nat :: k < |lists| && i < |lists[k]| ==> lists[k][i] < pages
  {
    forall k: nat, i: nat | k < |lists| && i < |lists[k]| ensures lists[k][i] < pages {
      assert lists[k][i] in lists[k];
    }
  }

  // ------------------------------------------------------------- operations

  class Pool {
    const pages: nat
    const next: array<nat>
    const prev: array<nat>
    ghost var lists: seq<seq<nat>>

    ghost predicate Valid()
      reads this, next, prev
    {
      next != prev && Linked(pages, next[..], prev[..], lists)
    }

    /** Every page node and every head is initialised to point at itself. */
    constructor (pages: nat, heads: nat)
      ensures Valid() && this.pages == pages
      ensures |lists| == heads && forall k :: 0 <= k < heads ==> lists[k] == []
      ensures fresh(next) && fresh(prev)
    {
      this.pages := pages;
      next := new nat[pages + heads];
      prev := new nat[pages + heads];
      lists := seq(heads, k => []);
      new;
      var i := 0;
      while i < pages + heads
        invariant 0 <= i <= pages + heads
        invariant next != prev && next.Length == prev.Length == pages + heads
        invariant fresh(next) && fresh(prev) && lists == seq(heads, k => [])
        invariant forall j :: 0 <= j < i ==> next[j] == j && prev[j] == j
      {
        InitHead(i);
        i := i + 1;
      }
      assert forall k: nat :: k < heads ==> RingOf(pages, lists, k) == [pages + k];
    }

    /** INIT_LIST_HEAD */
    method InitHead(n: nat)
      requires n < next.Length == prev.Length && next != prev
      modifies next, prev
      ensures next[..] == old(next[..])[n := n] && prev[..] == old(prev[..])[n := n]
    {
      next[n] := n;
      prev[n] := n;
    }

    /** __list_add: four writes, in the order of the source; p and q may coincide. */
    method Link(n: nat, p: nat, q: nat)
      requires next.Length == prev.Length && next != prev
      requires n < next.Length && p < next.Length && q < next.Length && n != p && n != q
      modifies next, prev
      ensures next[..] == AddNext(old(next[..]), n, p, q)
      ensures prev[..] == AddPrev(old(prev[..]), n, p, q)
    {
      prev[q] := n;
      next[n] := q;
      prev[n] := p;
      next[p] := n;
    }

    /** list_add: the node becomes the first element of list k. */
    method Add(n: nat, k: nat)
      requires Valid() && k < |lists| && n < pages && Absent(lists, n)
      modifies this, next, prev
      ensures Valid() && lists == Push(old(lists), k, n)
      ensures forall k: nat, i: nat :: k < |lists| && i < |lists[k]| ==> lists[k][i] < pages
    {
      hide Ring, Separate, RingOf;
      var h := pages + k;
      AddKeeps(pages, next[..], prev[..], lists, k, n);
      FirstIsNot(pages, next[..], prev[..], lists, k, n);
      Link(n, h, next[h]);
      lists := Push(lists, k, n);
      ElementsArePages(pages, next[..], prev[..], lists);
    }

    /** __list_del */
    method Unhook(p: nat, q: nat)
      requires next.Length == prev.Length && next != prev && p < next.Length && q < next.Length
      modifies next, prev
      ensures next[..] == old(next[..])[p := q] && prev[..] == old(prev[..])[q := p]
    {
      prev[q] := p;
      next[p] := q;
    }

    /** list_del_init: the node leaves whichever list holds it. */
    method DelInit(n: nat)
      requires Valid() && n < pages
      modifies this, next, prev
      ensures Valid() && lists == Unlink(old(lists), n)
      ensures forall k: nat, i: nat :: k < |lists| && i < |lists[k]| ==> lists[k][i] < pages
    {
      DelKeeps(pages, next[..], prev[..], lists, n);
      Unhook(prev[n], next[n]);
      InitHead(n);
      lists := Unlink(lists, n);
      ElementsArePages(pages, next[..], prev[..], lists);
    }

    /** list_empty */
    method Empty(k: nat) returns (e: bool)
      requires Valid() && k < |lists|
      ensures e <==> lists[k] == []
    {
      ForEachStep(pages, next[..], prev[..], lists, k, 0);
      e := next[pages + k] == pages + k;
    }

    /** list_entry of the first node of a list that is not empty. */
    method First(k: nat) returns (n: nat)
      requires Valid() && k < |lists| && lists[k] != []
      ensures n == lists[k][0] && n < pages
    {
      ForEachStep(pages, next[..], prev[..], lists, k, 0);
      n := next[pages + k];
      assert n in lists[k];
    }

    /** list_for_each with a counter: every element is visited once, in order. */
    method Visit(k: nat) returns (visited: seq<nat>, count: nat)
      requires Valid() && k < |lists|
      ensures visited == lists[k] && count == |lists[k]|
    {
      hide Linked, Ring, RingOf, Absent, NoDup;
      ghost var i: nat := 0;
      VisitFirst(pages, next[..], prev[..], lists, k);
      var pos := next[pages + k];
      visited, count := [], 0;
      while pos != pages + k
        invariant i <= |lists[k]| && count == i && visited == lists[k][..i]
        invariant Arrived(pages, lists, k, i, pos)
        decreases |lists[k]| - i
      {
        visited, count := visited + [pos], count + 1;
        VisitNext(pages, next[..], prev[..], lists, k, i);
        i := i + 1;
        pos := next[pos];
      }
    }
  }
}
