/** cg_sim.c as functions on values: one cache set as a sequence of tags, most
    recently used first, and a cache as the sequence of its sets. */
module CacheSpec {
  import opened Bits
  import opened Lists

  // ----------------------------------------------------------------- one set

  /** cachesim_setref_is_miss on one set: the tag moves, or comes, to the front. */
  function Touch(ways: seq<nat>, tag: nat): (r: seq<nat>)
    requires ways != []
    ensures |r| == |ways| && r[0] == tag
  {
    WithoutLen(ways, tag);
    ([tag] + Without(ways, tag))[..|ways|]
  }

  /** A hit at position i rotates positions 0 .. i. */
  lemma TouchHit(ways: seq<nat>, i: nat)
    requires i < |ways| && forall j :: 0 <= j < i ==> ways[j] != ways[i]
    ensures Touch(ways, ways[i]) == [ways[i]] + ways[..i] + ways[i + 1..]
  {
    WithoutFirst(ways, i);
  }

  /** A miss shifts the whole set down and drops the last tag. */
  lemma TouchMiss(ways: seq<nat>, tag: nat)
    requires ways != [] && tag !in ways
    ensures Touch(ways, tag) == [tag] + ways[..|ways| - 1]
  {
  }

  lemma {:induction false} WithoutPrefix(x: seq<nat>, n: nat, t: nat)
    requires n < |x|
    ensures |Without(x, t)| >= n && |Without(x[..n + 1], t)| >= n
    ensures Without(x[..n + 1], t)[..n] == Without(x, t)[..n]
  {
    var y := x[..n + 1];
    WithoutLen(x, t);
    WithoutLen(y, t);
    assert y[1..] == x[1..][..n] && y[0] == x[0];
    if x[0] != t && n > 0 {
      WithoutPrefix(x[1..], n - 1, t);
      var u, v := Without(x[1..], t), Without(y[1..], t);
      assert ([x[0]] + v)[..n] == [x[0]] + v[..n - 1] == ([x[0]] + u)[..n];
    }
  }

  /** Touching commutes with truncation. */
  lemma TouchPrefix(x: seq<nat>, n: nat, t: nat)
    requires 0 < n <= |x|
    ensures Touch(x[..n], t) == Touch(x, t)[..n]
  {
    WithoutPrefix(x, n - 1, t);
    WithoutLen(x, t);
    WithoutLen(x[..n], t);
    assert ([t] + Without(x[..n], t))[..n] == [t] + Without(x[..n], t)[..n - 1];
    assert ([t] + Without(x, t))[..n] == [t] + Without(x, t)[..n - 1];
  }

  // --------------------------------------------------- least recently used

  function Zeros(n: nat): seq<nat> {
    seq(n, _ => 0)
  }

  /** A set of `assoc` ways after the accesses of h, from the zero fill. */
  function Play(assoc: nat, h: seq<nat>): (r: seq<nat>)
    requires assoc > 0
    ensures |r| == assoc
  {
    if h == [] then Zeros(assoc) else Touch(Play(assoc, h[..|h| - 1]), h[|h| - 1])
  }

  /** The distinct tags of h, most recently used first. */
  function Recency(h: seq<nat>): seq<nat> {
    if h == [] then []
    else [h[|h| - 1]] + Without(Recency(h[..|h| - 1]), h[|h| - 1])
  }

  lemma {:induction false} RecencyFacts(h: seq<nat>)
    ensures NoDup(Recency(h))
    ensures forall t: nat :: t in Recency(h) <==> t in h
  {
    if h != [] {
      var g, t := h[..|h| - 1], h[|h| - 1];
      RecencyFacts(g);
      WithoutFacts(Recency(g), t);
      NoDupPush(Without(Recency(g), t), t);
      assert h == g + [t];
    }
  }

  lemma {:induction false} FirstIndex(l: seq<nat>, t: nat) returns (i: nat)
    requires t in l
    ensures i < |l| && l[i] == t && forall j :: 0 <= j < i ==> l[j] != t
  {
    if l[0] == t {
      i := 0;
    } else {
      var k := FirstIndex(l[1..], t);
      i := k + 1;
    }
  }

  lemma WithoutConcatIn(l: seq<nat>, z: seq<nat>, t: nat)
    requires t in l
    ensures Without(l + z, t) == Without(l, t) + z
  {
    hide Without;
    var i := FirstIndex(l, t);
    WithoutFirst(l, i);
    WithoutFirst(l + z, i);
    assert (l + z)[..i] + (l + z)[i + 1..] == l[..i] + l[i + 1..] + z;
  }

  lemma {:induction false} WithoutConcatOut(l: seq<nat>, z: seq<nat>, t: nat)
    requires t !in l
    ensures Without(l + z, t) == l + Without(z, t)
  {
    if l == [] {
      assert l + z == z;
    } else {
      var tl := l[1..];
      assert (l + z)[1..] == tl + z;
      WithoutConcatOut(tl, z, t);
      assert l + Without(z, t) == [l[0]] + (tl + Without(z, t));
    }
  }

  lemma ZerosWithout(n: nat, t: nat)
    requires n > 0
    ensures Without(Zeros(n), t) == if t == 0 then Zeros(n - 1) else Zeros(n)
  {
    if t != 0 {
      assert t !in Zeros(n);
    }
  }

  lemma FillPrefix(x: seq<nat>, m: nat, k: nat, n: nat)
    requires n <= |x| + m && n <= |x| + k
    ensures |Zeros(m)| == m && |Zeros(k)| == k
    ensures (x + Zeros(m))[..n] == (x + Zeros(k))[..n]
  {
  }

  lemma ZerosLen(n: nat)
    ensures |Zeros(n)| == n
  {
  }

  /** Removing t from the recency order or from its zero-filled extension leaves
      the same first entries. */
  lemma FillIrrelevant(r: seq<nat>, assoc: nat, t: nat)
    requires assoc > 0
    ensures |Without(r + Zeros(assoc), t)| >= assoc - 1
    ensures ([t] + Without(r + Zeros(assoc), t))[..assoc] == ([t] + Without(r, t) + Zeros(assoc))[..assoc]
  {
    hide Without, Zeros;
    ZerosLen(assoc);
    ZerosLen(assoc - 1);
    ZerosWithout(assoc, t);
    if t in r {
      WithoutConcatIn(r, Zeros(assoc), t);
      assert [t] + (Without(r, t) + Zeros(assoc)) == [t] + Without(r, t) + Zeros(assoc);
    } else {
      WithoutConcatOut(r, Zeros(assoc), t);
      assert Without(r, t) == r;
      assert [t] + (r + Zeros(assoc)) == [t] + r + Zeros(assoc);
      assert [t] + (r + Zeros(assoc - 1)) == [t] + r + Zeros(assoc - 1);
      FillPrefix([t] + r, assoc - 1, assoc, assoc);
    }
  }

  /** The shuffled array is true LRU: a set holds the first `assoc` entries of the
      distinct tags, most recent first, followed by the zero fill. */
  lemma {:induction false} TrueLru(assoc: nat, h: seq<nat>)
    requires assoc > 0
    ensures Play(assoc, h) == (Recency(h) + Zeros(assoc))[..assoc]
    decreases |h|
  {
    if h == [] {
      assert Recency(h) + Zeros(assoc) == Zeros(assoc);
    } else {
      hide Without, Zeros;
      var g, t := h[..|h| - 1], h[|h| - 1];
      TrueLru(assoc, g);
      var x := Recency(g) + Zeros(assoc);
      ZerosLen(assoc);
      TouchPrefix(x, assoc, t);
      FillIrrelevant(Recency(g), assoc, t);
    }
  }

  /** The distinct tags other than t used since the last use of t, or ever if t was never used. */
  function Since(h: seq<nat>, t: nat): set<nat> {
    if h == [] || h[|h| - 1] == t then {} else {h[|h| - 1]} + Since(h[..|h| - 1], t)
  }

  function Elements(l: seq<nat>): set<nat> {
    set x | x in l
  }

  lemma {:induction false} NoDupSize(l: seq<nat>)
    requires NoDup(l)
    ensures |Elements(l)| == |l|
  {
    if l != [] {
      assert l == [l[0]] + l[1..];
      NoDupSize(l[1..]);
      assert Elements(l) == {l[0]} + Elements(l[1..]);
    }
  }

  lemma ElementsCons(x: nat, l: seq<nat>)
    ensures Elements([x] + l) == {x} + Elements(l)
  {
  }

  /** One more element in front, behind u. */
  lemma MovedStep(u: nat, x: nat, v: seq<nat>, tl: seq<nat>, j: nat, i: nat)
    requires j < |tl| && i < |[u] + v| && ([u] + v)[i] == tl[j] != u
    requires Elements(([u] + v)[..i]) == {u} + Elements(tl[..j])
    ensures i > 0 && i + 1 < |[u] + ([x] + v)| && ([u] + ([x] + v))[i + 1] == tl[j]
    ensures Elements(([u] + ([x] + v))[..i + 1]) == {u} + Elements([x] + tl[..j])
  {
    hide Elements;
    assert i > 0;
    assert ([u] + v)[..i] == [u] + v[..i - 1];
    assert ([u] + ([x] + v))[..i + 1] == [u] + ([x] + v[..i - 1]);
    ElementsCons(u, v[..i - 1]);
    ElementsCons(u, [x] + v[..i - 1]);
    ElementsCons(x, v[..i - 1]);
    ElementsCons(x, tl[..j]);
  }

  /** Moving u to the front puts it in front of every other element. */
  lemma {:induction false} MovedPosition(r: seq<nat>, u: nat, j: nat) returns (i: nat)
    requires j < |r| && r[j] != u
    ensures i < |[u] + Without(r, u)| && ([u] + Without(r, u))[i] == r[j]
    ensures Elements(([u] + Without(r, u))[..i]) == {u} + Elements(r[..j])
  {
    hide Elements;
    var w := [u] + Without(r, u);
    if r[0] == u {
      i := j;
      assert w == r;
      ElementsCons(u, r[1..j]);
      assert r[..j] == [u] + r[1..j];
    } else if j == 0 {
      i := 1;
      assert w[..1] == [u] + [] && r[..0] == [];
      ElementsCons(u, []);
    } else {
      var tl := r[1..];
      var i' := MovedPosition(tl, u, j - 1);
      i := i' + 1;
      MovedStep(u, r[0], Without(tl, u), tl, j - 1, i');
      assert w == [u] + ([r[0]] + Without(tl, u));
      assert r[..j] == [r[0]] + tl[..j - 1];
    }
  }

  /** The tags in front of t in the recency order are those used since t. */
  lemma {:induction false} RecencyPosition(h: seq<nat>, t: nat) returns (i: nat)
    requires t in h
    ensures i < |Recency(h)| && Recency(h)[i] == t && i == |Since(h, t)|
    ensures Elements(Recency(h)[..i]) == Since(h, t)
  {
    var g, u := h[..|h| - 1], h[|h| - 1];
    if u == t {
      i := 0;
      assert Recency(h)[..0] == [];
    } else {
      assert h == g + [u];
      var j := RecencyPosition(g, t);
      i := MovedPosition(Recency(g), u, j);
      RecencyFacts(h);
      NoDupSize(Recency(h)[..i]);
    }
  }

  lemma {:induction false} SinceEver(h: seq<nat>, t: nat)
    requires t !in h
    ensures Since(h, t) == Elements(h)
  {
    if h != [] {
      assert h == h[..|h| - 1] + [h[|h| - 1]];
      SinceEver(h[..|h| - 1], t);
    }
  }

  /** When an access misses: a nonzero tag if it is new or `assoc` distinct other
      tags were used since; tag 0, which the zero fill already holds, only in the
      second case, counting from the start if it is new. */
  lemma MissExactly(assoc: nat, h: seq<nat>, t: nat)
    requires assoc > 0
    ensures t !in Play(assoc, h) <==> (t != 0 && t !in h) || |Since(h, t)| >= assoc
  {
    TrueLru(assoc, h);
    RecencyFacts(h);
    var r, z := Recency(h), Zeros(assoc);
    if t in h {
      var i := RecencyPosition(h, t);
      assert forall j :: 0 <= j < |r| && r[j] == t ==> j == i;
      if |r| < assoc {
        assert (r + z)[..assoc][i] == t;
      } else if i < assoc {
        assert (r + z)[..assoc][i] == t;
      }
    } else {
      SinceEver(h, t);
      assert Elements(r) == Elements(h);
      NoDupSize(r);
      if t == 0 && |r| < assoc {
        assert (r + z)[..assoc][|r|] == 0;
      }
    }
  }

  // ------------------------------------------------------------ whole caches

  /** Unsigned machine words have 64 bits. */
  function Wrap(x: int): nat {
    x % 0x1_0000_0000_0000_0000
  }

  datatype Cache = Cache(assoc: nat, setBits: nat, lineBits: nat, sets: seq<seq<nat>>)

  ghost predicate WellFormed(c: Cache) {
    && c.assoc > 0 && |c.sets| == Pow2(c.setBits)
    && forall i :: 0 <= i < |c.sets| ==> |c.sets[i]| == c.assoc
  }

  /** cachesim_initcache */
  function Empty(assoc: nat, setBits: nat, lineBits: nat): (c: Cache)
    requires assoc > 0
    ensures WellFormed(c)
  {
    Cache(assoc, setBits, lineBits, seq(Pow2(setBits), _ => Zeros(assoc)))
  }

  /** block & sets_min_1 */
  function SetIndex(setBits: nat, block: nat): (i: nat)
    ensures i < Pow2(setBits) && i == block % Pow2(setBits)
  {
    AndMask(block, setBits);
    And(block, Pow2(setBits) - 1)
  }

  function SetOf(c: Cache, block: nat): seq<nat>
    requires |c.sets| == Pow2(c.setBits)
  {
    c.sets[SetIndex(c.setBits, block)]
  }

  /** The block is its own tag. */
  predicate Misses(c: Cache, block: nat)
    requires |c.sets| == Pow2(c.setBits)
  {
    block !in SetOf(c, block)
  }

  function SetRef(c: Cache, block: nat): (r: Cache)
    requires WellFormed(c)
    ensures WellFormed(r) && r.assoc == c.assoc && r.setBits == c.setBits && r.lineBits == c.lineBits
  {
    var i := SetIndex(c.setBits, block);
    c.(sets := c.sets[i := Touch(c.sets[i], block)])
  }

  /** Panic is VG_(tool_panic) on a reference to more than two lines. */
  datatype RefResult = Panic | Ref(cache: Cache, miss: bool)

  function FirstBlock(lineBits: nat, a: nat): nat {
    Shr(a, lineBits)
  }

  function LastBlock(lineBits: nat, a: nat, size: nat): nat {
    Shr(Wrap(a + size - 1), lineBits)
  }

  /** cachesim_ref_is_miss */
  function RefIsMiss(c: Cache, a: nat, size: nat): (r: RefResult)
    requires WellFormed(c)
    ensures r.Ref? ==>
      && WellFormed(r.cache) && r.cache.assoc == c.assoc
      && r.cache.setBits == c.setBits && r.cache.lineBits == c.lineBits
  {
    var b1, b2 := FirstBlock(c.lineBits, a), LastBlock(c.lineBits, a, size);
    if b1 == b2 then Ref(SetRef(c, b1), Misses(c, b1))
    else if Wrap(b1 + 1) == b2 then
      var c1 := SetRef(c, b1);
      Ref(SetRef(c1, b2), Misses(c, b1) || Misses(c1, b2))
    else Panic
  }

  // -------------------------------------------------------- stack inclusion

  /** c has the geometry of d but fewer ways, and each set of c is the most recent
      part of the same set of d. */
  ghost predicate Included(c: Cache, d: Cache) {
    && WellFormed(c) && WellFormed(d)
    && c.setBits == d.setBits && c.lineBits == d.lineBits && c.assoc <= d.assoc
    && forall i :: 0 <= i < |c.sets| ==> c.sets[i] == d.sets[i][..c.assoc]
  }

  lemma IncludedShapes(c: Cache, d: Cache)
    requires Included(c, d)
    ensures WellFormed(c) && WellFormed(d) && c.lineBits == d.lineBits
  {
  }

  lemma SetRefIncluded(c: Cache, d: Cache, block: nat)
    requires Included(c, d)
    ensures Included(SetRef(c, block), SetRef(d, block))
    ensures Misses(d, block) ==> Misses(c, block)
  {
    var i := SetIndex(c.setBits, block);
    TouchPrefix(d.sets[i], c.assoc, block);
  }

  lemma RefIncluded(c: Cache, d: Cache, a: nat, size: nat)
    requires Included(c, d)
    ensures RefIsMiss(c, a, size).Panic? <==> RefIsMiss(d, a, size).Panic?
    ensures RefIsMiss(c, a, size).Ref? ==>
      && Included(RefIsMiss(c, a, size).cache, RefIsMiss(d, a, size).cache)
      && (RefIsMiss(d, a, size).miss ==> RefIsMiss(c, a, size).miss)
  {
    hide Included, WellFormed, SetRef, Misses, SetIndex;
    IncludedShapes(c, d);
    var b1, b2 := FirstBlock(c.lineBits, a), LastBlock(c.lineBits, a, size);
    SetRefIncluded(c, d, b1);
    SetRefIncluded(SetRef(c, b1), SetRef(d, b1), b2);
  }

  /** A reference: address and size. */
  datatype Access = Access(addr: nat, size: nat)

  datatype RunResult = Aborted | Finished(cache: Cache, misses: nat)

  /** All references of a sequence in turn, counting the misses. */
  function RunRefs(c: Cache, refs: seq<Access>): (r: RunResult)
    requires WellFormed(c)
    ensures r.Finished? ==>
      && WellFormed(r.cache) && r.cache.assoc == c.assoc
      && r.cache.setBits == c.setBits && r.cache.lineBits == c.lineBits
    decreases |refs|
  {
    if refs == [] then Finished(c, 0)
    else
      var x := RefIsMiss(c, refs[0].addr, refs[0].size);
      if x.Panic? then Aborted
      else
        var y := RunRefs(x.cache, refs[1..]);
        if y.Aborted? then Aborted else Finished(y.cache, y.misses + if x.miss then 1 else 0)
  }

  /** Stack inclusion: with more ways, after any reference sequence every set holds
      at least what it held with fewer, and there are no more misses. */
  lemma {:induction false} StackInclusion(c: Cache, d: Cache, refs: seq<Access>)
    requires Included(c, d)
    ensures RunRefs(c, refs).Aborted? <==> RunRefs(d, refs).Aborted?
    ensures RunRefs(c, refs).Finished? ==>
      && Included(RunRefs(c, refs).cache, RunRefs(d, refs).cache)
      && RunRefs(d, refs).misses <= RunRefs(c, refs).misses
    decreases |refs|
  {
    if refs != [] {
      RefIncluded(c, d, refs[0].addr, refs[0].size);
      var x, y := RefIsMiss(c, refs[0].addr, refs[0].size), RefIsMiss(d, refs[0].addr, refs[0].size);
      if x.Ref? {
        StackInclusion(x.cache, y.cache, refs[1..]);
      }
    }
  }

  lemma EmptyIncluded(assoc: nat, more: nat, setBits: nat, lineBits: nat)
    requires 0 < assoc <= more
    ensures Included(Empty(assoc, setBits, lineBits), Empty(more, setBits, lineBits))
  {
    assert Zeros(more)[..assoc] == Zeros(assoc);
  }

  /** More ways, same sets and lines, from the start: never more misses. */
  lemma MoreWaysFewerMisses(assoc: nat, more: nat, setBits: nat, lineBits: nat, refs: seq<Access>)
    requires 0 < assoc <= more
    ensures
      var x, y := RunRefs(Empty(assoc, setBits, lineBits), refs), RunRefs(Empty(more, setBits, lineBits), refs);
      (x.Finished? <==> y.Finished?) && (x.Finished? ==> y.misses <= x.misses)
  {
    EmptyIncluded(assoc, more, setBits, lineBits);
    StackInclusion(Empty(assoc, setBits, lineBits), Empty(more, setBits, lineBits), refs);
  }

  // ----------------------------------------------- LRU for the whole cache

  /** The blocks that a reference sequence touches, in order. */
  function BlocksOf(lineBits: nat, refs: seq<Access>): seq<nat> {
    if refs == [] then []
    else
      var r := refs[|refs| - 1];
      var b1, b2 := FirstBlock(lineBits, r.addr), LastBlock(lineBits, r.addr, r.size);
      BlocksOf(lineBits, refs[..|refs| - 1]) + (if b1 == b2 then [b1] else [b1, b2])
  }

  /** The part of h that falls into set i. */
  function InSet(setBits: nat, h: seq<nat>, i: nat): seq<nat> {
    if h == [] then []
    else
      InSet(setBits, h[..|h| - 1], i) + (if SetIndex(setBits, h[|h| - 1]) == i then [h[|h| - 1]] else [])
  }

  /** Every set is the LRU set of the blocks that fell into it. */
  ghost predicate Tracks(c: Cache, h: seq<nat>) {
    WellFormed(c) && forall i: nat :: i < |c.sets| ==> c.sets[i] == Play(c.assoc, InSet(c.setBits, h, i))
  }

  lemma PlaySnoc(assoc: nat, f: seq<nat>, block: nat)
    requires assoc > 0
    ensures Play(assoc, f + [block]) == Touch(Play(assoc, f), block)
  {
    var g := f + [block];
    assert g[..|g| - 1] == f && g[|g| - 1] == block;
  }

  lemma InSetSnoc(setBits: nat, h: seq<nat>, block: nat, i: nat)
    ensures InSet(setBits, h + [block], i) ==
      InSet(setBits, h, i) + (if SetIndex(setBits, block) == i then [block] else [])
  {
    var g := h + [block];
    assert g[..|g| - 1] == h && g[|g| - 1] == block;
  }

  lemma SetRefTracks(c: Cache, h: seq<nat>, block: nat)
    requires Tracks(c, h)
    ensures Tracks(SetRef(c, block), h + [block])
  {
    hide Touch, Play, InSet, SetIndex;
    var d := SetRef(c, block);
    forall i: nat | i < |d.sets| ensures d.sets[i] == Play(d.assoc, InSet(d.setBits, h + [block], i)) {
      InSetSnoc(c.setBits, h, block, i);
      PlaySnoc(c.assoc, InSet(c.setBits, h, i), block);
      assert InSet(c.setBits, h, i) + [] == InSet(c.setBits, h, i);
    }
  }

  lemma RefTracks(c: Cache, h: seq<nat>, r: Access)
    requires Tracks(c, h) && RefIsMiss(c, r.addr, r.size).Ref?
    ensures
      var b1, b2 := FirstBlock(c.lineBits, r.addr), LastBlock(c.lineBits, r.addr, r.size);
      Tracks(RefIsMiss(c, r.addr, r.size).cache, h + (if b1 == b2 then [b1] else [b1, b2]))
  {
    var b1, b2 := FirstBlock(c.lineBits, r.addr), LastBlock(c.lineBits, r.addr, r.size);
    SetRefTracks(c, h, b1);
    if b1 != b2 {
      SetRefTracks(SetRef(c, b1), h + [b1], b2);
      assert h + [b1] + [b2] == h + [b1, b2];
    }
  }

  lemma {:induction false} RunSplit(c: Cache, x: seq<Access>, y: seq<Access>)
    requires WellFormed(c)
    ensures RunRefs(c, x + y) ==
      match RunRefs(c, x)
      case Aborted => Aborted
      case Finished(d, m) =>
        match RunRefs(d, y)
        case Aborted => Aborted
        case Finished(e, n) => Finished(e, m + n)
    decreases |x|
  {
    if x == [] {
      assert x + y == y;
    } else {
      assert (x + y)[0] == x[0] && (x + y)[1..] == x[1..] + y;
      var r := RefIsMiss(c, x[0].addr, x[0].size);
      if r.Ref? {
        RunSplit(r.cache, x[1..], y);
      }
    }
  }

  /** One more reference at the end. */
  lemma RunSnoc(c: Cache, refs: seq<Access>, r: Access)
    requires WellFormed(c)
    ensures RunRefs(c, refs + [r]) ==
      match RunRefs(c, refs)
      case Aborted => Aborted
      case Finished(d, m) =>
        match RefIsMiss(d, r.addr, r.size)
        case Panic => Aborted
        case Ref(e, miss) => Finished(e, m + if miss then 1 else 0)
  {
    hide WellFormed, RefIsMiss;
    RunSplit(c, refs, [r]);
    var x := RunRefs(c, refs);
    if x.Finished? {
      assert [r][1..] == [];
      var y := RefIsMiss(x.cache, r.addr, r.size);
      if y.Ref? {
        assert RunRefs(y.cache, []) == Finished(y.cache, 0);
      }
    }
  }

  /** After any reference sequence, straddling references included, every set of an
      initially empty cache is the LRU set of its own blocks. */
  lemma {:induction false} CacheIsLru(assoc: nat, setBits: nat, lineBits: nat, refs: seq<Access>)
    requires assoc > 0
    requires RunRefs(Empty(assoc, setBits, lineBits), refs).Finished?
    ensures Tracks(RunRefs(Empty(assoc, setBits, lineBits), refs).cache, BlocksOf(lineBits, refs))
    ensures
      var c := RunRefs(Empty(assoc, setBits, lineBits), refs).cache;
      c.assoc == assoc && c.setBits == setBits && c.lineBits == lineBits
    decreases |refs|
  {
    var c := Empty(assoc, setBits, lineBits);
    if refs != [] {
      var front, last := refs[..|refs| - 1], refs[|refs| - 1];
      assert refs == front + [last];
      RunSplit(c, front, [last]);
      CacheIsLru(assoc, setBits, lineBits, front);
      var d := RunRefs(c, front).cache;
      assert RunRefs(d, [last]).Finished?;
      assert RunRefs(d, [last]).cache == RefIsMiss(d, last.addr, last.size).cache;
      RefTracks(d, BlocksOf(lineBits, front), last);
    }
  }

  /** When the next access of a block misses, in terms of the references so far. */
  lemma CacheMissExactly(assoc: nat, setBits: nat, lineBits: nat, refs: seq<Access>, block: nat)
    requires assoc > 0 && RunRefs(Empty(assoc, setBits, lineBits), refs).Finished?
    ensures
      var c := RunRefs(Empty(assoc, setBits, lineBits), refs).cache;
      var h := InSet(setBits, BlocksOf(lineBits, refs), SetIndex(setBits, block));
      WellFormed(c) && c.setBits == setBits &&
      (Misses(c, block) <==> (block != 0 && block !in h) || |Since(h, block)| >= assoc)
  {
    CacheIsLru(assoc, setBits, lineBits, refs);
    MissExactly(assoc, InSet(setBits, BlocksOf(lineBits, refs), SetIndex(setBits, block)), block);
  }

  // ------------------------------------------------------- two-level access

  datatype DorefResult = Abort | Done(l1: Cache, ll: Cache, m1: nat, mL: nat)

  /** cachesim_I1_doref_Gen and cachesim_D1_doref: the second level is consulted on
      a first-level miss only; m1 and mL are the increments of the miss counters. */
  function Doref(l1: Cache, ll: Cache, a: nat, size: nat): (r: DorefResult)
    requires WellFormed(l1) && WellFormed(ll)
    ensures r.Done? ==>
      WellFormed(r.l1) && WellFormed(r.ll) && r.l1.lineBits == l1.lineBits && r.ll.lineBits == ll.lineBits
  {
    var x := RefIsMiss(l1, a, size);
    if x.Panic? then Abort
    else if !x.miss then Done(x.cache, ll, 0, 0)
    else
      var y := RefIsMiss(ll, a, size);
      if y.Panic? then Abort else Done(x.cache, y.cache, 1, if y.miss then 1 else 0)
  }

  /** cachesim_I1_doref_NoX: one block number serves both levels. */
  function DorefNoX(l1: Cache, ll: Cache, a: nat): (r: DorefResult)
    requires WellFormed(l1) && WellFormed(ll)
    ensures r.Done? && WellFormed(r.l1) && WellFormed(r.ll)
    ensures r.l1.lineBits == l1.lineBits && r.ll.lineBits == ll.lineBits
  {
    var block := FirstBlock(l1.lineBits, a);
    if !Misses(l1, block) then Done(SetRef(l1, block), ll, 0, 0)
    else Done(SetRef(l1, block), SetRef(ll, block), 1, if Misses(ll, block) then 1 else 0)
  }

  /** cachesim_is_IrNoX */
  predicate IsNoX(i1Bits: nat, llBits: nat, a: nat, size: nat) {
    i1Bits == llBits && FirstBlock(i1Bits, a) == LastBlock(i1Bits, a, size)
  }

  /** The fast path agrees with the generic one wherever it may be taken. */
  lemma NoXAgrees(l1: Cache, ll: Cache, a: nat, size: nat)
    requires WellFormed(l1) && WellFormed(ll) && IsNoX(l1.lineBits, ll.lineBits, a, size)
    ensures DorefNoX(l1, ll, a) == Doref(l1, ll, a, size)
  {
  }

  /** The references of a sequence that miss in c. */
  function MissStream(c: Cache, refs: seq<Access>): seq<Access>
    requires WellFormed(c)
    decreases |refs|
  {
    if refs == [] then []
    else
      var x := RefIsMiss(c, refs[0].addr, refs[0].size);
      if x.Panic? then []
      else (if x.miss then [refs[0]] else []) + MissStream(x.cache, refs[1..])
  }

  datatype TwoLevelResult = Stopped | Ran(l1: Cache, ll: Cache, m1: nat, mL: nat)

  /** All references of a sequence through both levels, adding up the counters. */
  function RunDoref(l1: Cache, ll: Cache, refs: seq<Access>): TwoLevelResult
    requires WellFormed(l1) && WellFormed(ll)
    decreases |refs|
  {
    if refs == [] then Ran(l1, ll, 0, 0)
    else
      var x := Doref(l1, ll, refs[0].addr, refs[0].size);
      if x.Abort? then Stopped
      else
        var y := RunDoref(x.l1, x.ll, refs[1..]);
        if y.Stopped? then Stopped else Ran(y.l1, y.ll, x.m1 + y.m1, x.mL + y.mL)
  }

  /** The last level sees exactly the first level's misses: a run through both levels
      is a run of the first level by itself and a run of the last level over the
      first one's miss stream, and the counters are the misses of these two runs. */
  lemma {:induction false} LastLevelSeesMisses(l1: Cache, ll: Cache, refs: seq<Access>)
    requires WellFormed(l1) && WellFormed(ll)
    ensures
      var x, y := RunRefs(l1, refs), RunRefs(ll, MissStream(l1, refs));
      && (RunDoref(l1, ll, refs).Ran? <==> x.Finished? && y.Finished?)
      && (RunDoref(l1, ll, refs).Ran? ==> RunDoref(l1, ll, refs) == Ran(x.cache, y.cache, x.misses, y.misses))
      && (x.Finished? ==> x.misses == |MissStream(l1, refs)|)
    decreases |refs|
  {
    hide RefIsMiss, WellFormed;
    if refs != [] {
      var x := RefIsMiss(l1, refs[0].addr, refs[0].size);
      if x.Ref? {
        var rest := MissStream(x.cache, refs[1..]);
        if x.miss {
          assert ([refs[0]] + rest)[1..] == rest;
          var y := RefIsMiss(ll, refs[0].addr, refs[0].size);
          if y.Ref? {
            LastLevelSeesMisses(x.cache, y.cache, refs[1..]);
          } else {
            LastLevelSeesMisses(x.cache, ll, refs[1..]);
          }
        } else {
          assert [] + rest == rest;
          LastLevelSeesMisses(x.cache, ll, refs[1..]);
        }
      }
    }
  }
}
