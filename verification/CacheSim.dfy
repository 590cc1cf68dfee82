/** cg_sim.c: the tag array shuffled in place, and the two-level references. */
module CacheSim {
  import opened Bits
  import opened CacheSpec

  /** Where set i starts in the flat tag array. */
  function Base(assoc: nat, i: nat): nat {
    i * assoc
  }

  /** Slots of different sets do not meet in the flat tag array. */
  lemma SlotApart(i: nat, n: nat, assoc: nat, j: nat)
    requires i != n && j < assoc
    ensures Base(assoc, i) + j < Base(assoc, n) || Base(assoc, n) + assoc <= Base(assoc, i) + j
  {
    if i < n {
      MulGap(i, n, assoc);
    } else {
      MulGap(n, i, assoc);
    }
  }

  lemma Rotated(t: seq<nat>, s: seq<nat>, i: nat, tag: nat)
    requires |t| == |s| && i < |s| && t[0] == tag
    requires forall j :: 0 < j <= i ==> t[j] == s[j - 1]
    requires forall j :: i < j < |s| ==> t[j] == s[j]
    ensures t == [tag] + s[..i] + s[i + 1..]
  {
  }

  class TagArray {
    const assoc: nat
    const setBits: nat
    const lineBits: nat
    const tags: array<nat>
    ghost var sets: seq<seq<nat>>

    ghost function Abs(): Cache
      reads this
    {
      Cache(assoc, setBits, lineBits, sets)
    }

    ghost predicate Valid()
      reads this, tags
    {
      && WellFormed(Abs())
      && tags.Length == |sets| * assoc
      && forall i: nat {:trigger sets[i]} :: i < |sets| ==> Holds(i, sets[i])
    }

    /** Set i of the flat array holds s. */
    ghost predicate Holds(i: nat, s: seq<nat>)
      reads this, tags
    {
      Base(assoc, i) + assoc <= tags.Length && |s| == assoc && tags[Base(assoc, i)..Base(assoc, i) + assoc] == s
    }

    /** cachesim_initcache */
    constructor (assoc: nat, setBits: nat, lineBits: nat)
      requires assoc > 0
      ensures Valid() && Abs() == Empty(assoc, setBits, lineBits) && fresh(tags)
    {
      this.assoc := assoc;
      this.setBits := setBits;
      this.lineBits := lineBits;
      tags := new nat[Pow2(setBits) * assoc];
      sets := Empty(assoc, setBits, lineBits).sets;
      new;
      var i := 0;
      while i < tags.Length
        invariant 0 <= i <= tags.Length
        invariant forall j :: 0 <= j < i ==> tags[j] == 0
        invariant fresh(tags) && sets == Empty(assoc, setBits, lineBits).sets
      {
        tags[i] := 0;
        i := i + 1;
      }
      forall k: nat | k < |sets| ensures Holds(k, sets[k]) {
        SlotInArray(k, |sets|);
        assert sets[k] == Zeros(assoc);
        assert tags[k * assoc..k * assoc + assoc] == Zeros(assoc);
      }
    }

    lemma SlotInArray(k: nat, n: nat)
      requires k < n
      ensures k * assoc + assoc <= n * assoc
    {
      MulGap(k, n, assoc);
    }

    /** The shuffling loop: positions 0 .. i-1 move down by one, the tag goes to the front. */
    method Shuffle(base: nat, i: nat, tag: nat)
      requires base + i < tags.Length
      modifies tags
      ensures tags[base] == tag
      ensures forall x :: base < x <= base + i ==> tags[x] == old(tags[x - 1])
      ensures forall x :: 0 <= x < tags.Length && !(base <= x <= base + i) ==> tags[x] == old(tags[x])
    {
      var j := i;
      while j > 0
        invariant 0 <= j <= i
        invariant forall x :: base + j < x <= base + i ==> tags[x] == old(tags[x - 1])
        invariant forall x :: 0 <= x < tags.Length && !(base + j < x <= base + i) ==> tags[x] == old(tags[x])
      {
        tags[base + j] := tags[base + j - 1];
        j := j - 1;
      }
      tags[base] := tag;
    }

    /** The body of cachesim_setref_is_miss for the set that starts at `base`. */
    method RefAt(base: nat, tag: nat, ghost s: seq<nat>) returns (miss: bool)
      requires assoc > 0 && base + assoc <= tags.Length && s == tags[base..base + assoc]
      modifies tags
      ensures tags[base..base + assoc] == Touch(s, tag) && miss == (tag !in s)
      ensures forall x :: 0 <= x < tags.Length && !(base <= x < base + assoc) ==> tags[x] == old(tags[x])
    {
      hide Touch;
      assert forall j: nat :: j < assoc ==> tags[base + j] == s[j];
      if tag == tags[base] {
        TouchHit(s, 0);
        assert [s[0]] + s[..0] + s[1..] == s;
        return false;
      }
      var i := 1;
      while i < assoc && tag != tags[base + i]
        invariant 1 <= i <= assoc
        invariant forall j: nat :: j < i ==> s[j] != tag
        modifies {}
      {
        i := i + 1;
      }
      if i < assoc {
        TouchHit(s, i);
        Shuffle(base, i, tag);
        miss := false;
        Rotated(tags[base..base + assoc], s, i, tag);
      } else {
        TouchMiss(s, tag);
        Shuffle(base, assoc - 1, tag);
        miss := true;
        Rotated(tags[base..base + assoc], s, assoc - 1, tag);
        assert [tag] + s[..assoc - 1] + s[assoc..] == [tag] + s[..assoc - 1];
      }
    }

    /** cachesim_setref_is_miss */
    method SetRefIsMiss(setNo: nat, tag: nat) returns (miss: bool)
      requires Valid() && setNo == SetIndex(setBits, tag)
      modifies this, tags
      ensures Valid()
      ensures miss == Misses(old(Abs()), tag) && Abs() == SetRef(old(Abs()), tag)
    {
      hide Base, SetIndex, Touch;
      ghost var s := sets[setNo];
      ghost var was := tags[..];
      assert Holds(setNo, s);
      assert forall i: nat :: i < |sets| ==>
        Holds(i, sets[i]) && was[Base(assoc, i)..Base(assoc, i) + assoc] == sets[i];
      miss := RefAt(Base(assoc, setNo), tag, s);
      forall i: nat | i < |sets| && i != setNo ensures Holds(i, sets[i]) {
        Untouched(setNo, i, sets[i], was);
      }
      sets := sets[setNo := Touch(s, tag)];
    }

    /** A write confined to set n leaves set i as it was. */
    lemma Untouched(n: nat, i: nat, s: seq<nat>, was: seq<nat>)
      requires i != n && |was| == tags.Length && Base(assoc, i) + assoc <= |was|
      requires |s| == assoc && was[Base(assoc, i)..Base(assoc, i) + assoc] == s
      requires forall x :: 0 <= x < tags.Length && !(Base(assoc, n) <= x < Base(assoc, n) + assoc) ==> tags[x] == was[x]
      ensures Holds(i, s)
    {
      hide Base;
      forall j: nat | j < assoc ensures tags[Base(assoc, i) + j] == s[j] {
        SlotApart(i, n, assoc, j);
        assert was[Base(assoc, i)..Base(assoc, i) + assoc][j] == s[j];
      }
    }

    /** cachesim_ref_is_miss; Panic stands for the call of VG_(tool_panic). */
    method RefIsMiss(a: nat, size: nat) returns (panic: bool, miss: bool)
      requires Valid()
      modifies this, tags
      ensures Valid()
      ensures
        match CacheSpec.RefIsMiss(old(Abs()), a, size)
        case Panic => panic && Abs() == old(Abs())
        case Ref(c, m) => !panic && Abs() == c && miss == m
    {
      hide SetIndex, Touch, Base;
      var block1 := Shr(a, lineBits);
      var block2 := Shr(Wrap(a + size - 1), lineBits);
      var set1 := SetIndex(setBits, block1);
      if block1 == block2 {
        miss := SetRefIsMiss(set1, block1);
        return false, miss;
      } else if Wrap(block1 + 1) == block2 {
        var set2 := SetIndex(setBits, block2);
        miss := SetRefIsMiss(set1, block1);
        if miss {
          var _ := SetRefIsMiss(set2, block2);
          return false, true;
        }
        miss := SetRefIsMiss(set2, block2);
        return false, miss;
      }
      return true, true;
    }
  }

  /** cachesim_I1_doref_Gen and cachesim_D1_doref, returning the increments of the
      two miss counters. */
  method DorefGen(l1: TagArray, ll: TagArray, a: nat, size: nat) returns (panic: bool, m1: nat, mL: nat)
    requires l1 != ll && l1.tags != ll.tags && l1.Valid() && ll.Valid()
    modifies l1, l1.tags, ll, ll.tags
    ensures l1.Valid() && ll.Valid()
    ensures
      match Doref(old(l1.Abs()), old(ll.Abs()), a, size)
      case Abort => panic
      case Done(c, d, x, y) => !panic && l1.Abs() == c && ll.Abs() == d && m1 == x && mL == y
  {
    m1, mL := 0, 0;
    var miss;
    panic, miss := l1.RefIsMiss(a, size);
    if !panic && miss {
      m1 := 1;
      panic, miss := ll.RefIsMiss(a, size);
      if miss {
        mL := 1;
      }
    }
  }

  /** cachesim_I1_doref_NoX */
  method DorefFast(l1: TagArray, ll: TagArray, a: nat) returns (m1: nat, mL: nat)
    requires l1 != ll && l1.tags != ll.tags && l1.Valid() && ll.Valid()
    modifies l1, l1.tags, ll, ll.tags
    ensures l1.Valid() && ll.Valid()
    ensures Done(l1.Abs(), ll.Abs(), m1, mL) == DorefNoX(old(l1.Abs()), old(ll.Abs()), a)
  {
    m1, mL := 0, 0;
    var block := Shr(a, l1.lineBits);
    var miss := l1.SetRefIsMiss(SetIndex(l1.setBits, block), block);
    if miss {
      m1 := 1;
      miss := ll.SetRefIsMiss(SetIndex(ll.setBits, block), block);
      if miss {
        mL := 1;
      }
    }
  }
}
