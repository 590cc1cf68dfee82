/** Families of lists over numbered nodes: the values that the intrusive lists of
    list.h stand for. */
module Lists {

  /** list_add: push at the front. */
  function Push(lists: seq<seq<nat>>, k: nat, p: nat): seq<seq<nat>>
    requires k < |lists|
  {
    lists[k := [p] + lists[k]]
  }

  /** A list without its first p. */
  function Without(l: seq<nat>, p: nat): (r: seq<nat>)
    ensures p !in l ==> r == l
  {
    if l == [] then [] else if l[0] == p then l[1..] else [l[0]] + Without(l[1..], p)
  }

  /** list_del_init: the entry leaves whichever list holds it. */
  function Unlink(lists: seq<seq<nat>>, p: nat): (r: seq<seq<nat>>)
    ensures |r| == |lists|
    ensures forall k :: 0 <= k < |lists| ==> r[k] == Without(lists[k], p)
  {
    seq(|lists|, k requires 0 <= k < |lists| => Without(lists[k], p))
  }

  ghost predicate NoDup<T>(l: seq<T>) {
    forall i, j :: 0 <= i < j < |l| ==> l[i] != l[j]
  }

  /** No list mentions x. */
  ghost predicate Absent(lists: seq<seq<nat>>, x: nat) {
    forall k: nat :: k < |lists| ==> x !in lists[k]
  }

  lemma {:induction false} WithoutFacts(l: seq<nat>, p: nat)
    requires NoDup(l)
    ensures forall x: nat :: x in Without(l, p) <==> x in l && x != p
    ensures NoDup(Without(l, p))
    ensures |Without(l, p)| == |l| - (if p in l then 1 else 0)
  {
    if l != [] {
      var t := l[1..];
      WithoutFacts(t, p);
      assert l == [l[0]] + t;
      assert l[0] !in t;
    }
  }

  lemma NoDupPush<T>(l: seq<T>, p: T)
    requires NoDup(l) && p !in l
    ensures NoDup([p] + l)
  {
  }

  lemma {:induction false} WithoutLen(l: seq<nat>, x: nat)
    ensures |Without(l, x)| == |l| - (if x in l then 1 else 0)
  {
    if l != [] {
      WithoutLen(l[1..], x);
      assert l == [l[0]] + l[1..];
    }
  }

  lemma {:induction false} WithoutFirst(l: seq<nat>, i: nat)
    requires i < |l| && forall j :: 0 <= j < i ==> l[j] != l[i]
    ensures Without(l, l[i]) == l[..i] + l[i + 1..]
  {
    if i > 0 {
      assert l[0] != l[i];
      WithoutFirst(l[1..], i - 1);
    }
  }

  // ------------------------------------------------------- first occurrences

  /** The distinct elements of s in the order of their first occurrence. */
  function Distinct<T(==)>(s: seq<T>): seq<T> {
    if s == [] then []
    else
      var before := Distinct(s[..|s| - 1]);
      if s[|s| - 1] in before then before else before + [s[|s| - 1]]
  }

  lemma {:induction false} DistinctFacts<T>(s: seq<T>)
    ensures NoDup(Distinct(s))
    ensures forall x: T :: x in Distinct(s) <==> x in s
  {
    if s != [] {
      DistinctFacts(s[..|s| - 1]);
      assert s == s[..|s| - 1] + [s[|s| - 1]];
    }
  }

  lemma {:induction false} DistinctGrows<T>(s: seq<T>, i: nat)
    requires i <= |s|
    ensures Distinct(s[..i]) <= Distinct(s)
    decreases |s| - i
  {
    if i == |s| {
      assert s[..i] == s;
    } else {
      assert s[..i + 1][..i] == s[..i];
      DistinctGrows(s, i + 1);
    }
  }

  lemma DistinctNext<T>(s: seq<T>, i: nat)
    requires i < |s|
    ensures Distinct(s[..i + 1]) == if s[i] in Distinct(s[..i]) then Distinct(s[..i]) else Distinct(s[..i]) + [s[i]]
    ensures Distinct(s[..i + 1]) <= Distinct(s)
  {
    assert s[..i + 1][..i] == s[..i];
    DistinctGrows(s, i + 1);
  }
}
