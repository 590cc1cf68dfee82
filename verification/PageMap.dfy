/** lab8/VM_addr_map.c: demand paging with frames handed out in order. */
module PageMap {
  import opened Bits
  import opened Lists

  function Pages(refs: seq<nat>, pageBits: nat): (r: seq<nat>)
    ensures |r| == |refs| && forall i :: 0 <= i < |refs| ==> r[i] == Shr(refs[i], pageBits)
  {
    seq(|refs|, i requires 0 <= i < |refs| => Shr(refs[i], pageBits))
  }

  /** frame * 2^p + offset */
  function Physical(frame: nat, addr: nat, pageBits: nat): nat {
    frame * Pow2(pageBits) + addr % Pow2(pageBits)
  }

  /** The shift, mask and or of the code compute frame * 2^p + offset. */
  lemma FormAddress(frame: nat, addr: nat, pageBits: nat)
    ensures Or(Shl(frame, pageBits), And(addr, Pow2(pageBits) - 1)) == Physical(frame, addr, pageBits)
  {
    AndMask(addr, pageBits);
    OrShl(frame, addr % Pow2(pageBits), pageBits);
    ShlIsMul(frame, pageBits);
  }

  /** A physical address lies inside the physical address space. */
  lemma InSpace(frame: nat, addr: nat, pageBits: nat, phyBits: nat)
    requires pageBits <= phyBits && frame < Pow2(phyBits - pageBits)
    ensures Physical(frame, addr, pageBits) < Pow2(phyBits)
  {
    var d := Pow2(pageBits);
    AndMask(addr, pageBits);
    MulGap(frame, Pow2(phyBits - pageBits), d);
    PowSum(phyBits - pageBits, pageBits);
  }

  /** Frame and offset can be read back from a physical address. */
  lemma PhysicalInjective(f: nat, x: nat, g: nat, y: nat, pageBits: nat)
    ensures Physical(f, x, pageBits) == Physical(g, y, pageBits) <==> f == g && x % Pow2(pageBits) == y % Pow2(pageBits)
  {
    var d := Pow2(pageBits);
    AndMask(x, pageBits);
    AndMask(y, pageBits);
    DivUnique(Physical(f, x, pageBits), d, f);
    DivUnique(Physical(g, y, pageBits), d, g);
  }

  datatype Outcome = OutOfFrames | Translated(phys: seq<nat>)

  class Mmu {
    const logBits: nat
    const phyBits: nat
    const pageBits: nat
    const pageTable: array<int>
    const memMap: array<int>
    ghost var mapped: seq<nat>

    ghost predicate Valid()
      reads this, pageTable, memMap
    {
      && pageBits <= logBits && pageBits <= phyBits && pageTable != memMap
      && pageTable.Length == Pow2(logBits - pageBits) && memMap.Length == Pow2(phyBits - pageBits)
      && NoDup(mapped) && |mapped| <= memMap.Length
      && (forall k :: 0 <= k < |mapped| ==> mapped[k] < pageTable.Length && pageTable[mapped[k]] == k)
      && (forall p: nat :: p < pageTable.Length && p !in mapped ==> pageTable[p] == -1)
      && (forall f :: 0 <= f < memMap.Length ==> memMap[f] == if f < |mapped| then 1 else 0)
    }

    constructor (logBits: nat, phyBits: nat, pageBits: nat)
      requires pageBits <= logBits && pageBits <= phyBits
      ensures Valid() && mapped == [] && fresh(pageTable) && fresh(memMap)
      ensures this.logBits == logBits && this.phyBits == phyBits && this.pageBits == pageBits
    {
      this.logBits := logBits;
      this.phyBits := phyBits;
      this.pageBits := pageBits;
      pageTable := new int[Pow2(logBits - pageBits)](_ => -1);
      memMap := new int[Pow2(phyBits - pageBits)](_ => 0);
      mapped := [];
    }

    /** One pass of the reference loop.  Without a free frame the code would write
        behind mem_map; that is the outcome !ok. */
    method Reference(addr: nat) returns (ok: bool, phys: nat, ghost k: nat)
      requires Valid() && addr < Pow2(logBits)
      modifies this`mapped, pageTable, memMap
      ensures var page := Shr(addr, pageBits);
        ok <==> page in old(mapped) || |old(mapped)| < Pow2(phyBits - pageBits)
      ensures var page := Shr(addr, pageBits);
        ok ==> Valid() && mapped == (if page in old(mapped) then old(mapped) else old(mapped) + [page])
      ensures ok ==> k < |mapped| && mapped[k] == Shr(addr, pageBits) && phys == Physical(k, addr, pageBits)
    {
      hide Pow2, Shr, Shl, And, Or, Physical;
      PageInTable(addr);
      var offset := And(addr, Pow2(pageBits) - 1);
      var page := Shr(addr, pageBits);
      var frame: nat;
      if pageTable[page] == -1 {
        frame := 0;
        while frame < memMap.Length && memMap[frame] != 0
          invariant 0 <= frame <= |mapped| && frame <= memMap.Length
          modifies {}
        {
          frame := frame + 1;
        }
        if frame == memMap.Length {
          return false, 0, 0;
        }
        assert frame == |mapped|;
        pageTable[page] := frame;
        memMap[frame] := 1;
        mapped := mapped + [page];
        assert mapped[frame] == page;
      } else {
        frame := pageTable[page];
        assert mapped[frame] == page;
      }
      FormAddress(frame, addr, pageBits);
      return true, Or(Shl(frame, pageBits), offset), frame;
    }

    lemma FramesSuffice()
      requires Valid()
      ensures pageBits <= phyBits && |mapped| <= Pow2(phyBits - pageBits)
    {
    }

    lemma PageInTable(addr: nat)
      requires Valid() && addr < Pow2(logBits)
      ensures Shr(addr, pageBits) < pageTable.Length
    {
      ShrAdd(addr, pageBits, logBits - pageBits);
      ShrZero(addr, logBits);
      ShrZero(Shr(addr, pageBits), logBits - pageBits);
    }
  }

  /** Reference i goes to the frame whose number is the rank of its page among the
      distinct pages in order of first use, with its own offset. */
  ghost predicate MapsTo(refs: seq<nat>, pageBits: nat, i: nat, phys: nat)
    requires i < |refs|
  {
    var d := Distinct(Pages(refs, pageBits));
    exists k: nat :: k < |d| && d[k] == Shr(refs[i], pageBits) && phys == Physical(k, refs[i], pageBits)
  }

  lemma MapsBy(refs: seq<nat>, pageBits: nat, i: nat, k: nat, phys: nat)
    requires i < |refs|
    requires var d := Distinct(Pages(refs, pageBits)); k < |d| && d[k] == Shr(refs[i], pageBits)
    requires phys == Physical(k, refs[i], pageBits)
    ensures MapsTo(refs, pageBits, i, phys)
  {
  }

  lemma NoneDistinct()
    ensures Distinct<nat>([]) == []
  {
  }

  /** The reference loop over a whole input. */
  method TranslateAll(logBits: nat, phyBits: nat, pageBits: nat, refs: seq<nat>) returns (r: Outcome)
    requires pageBits <= logBits && pageBits <= phyBits && forall i :: 0 <= i < |refs| ==> refs[i] < Pow2(logBits)
    ensures r.Translated? <==> |Distinct(Pages(refs, pageBits))| <= Pow2(phyBits - pageBits)
    ensures r.Translated? ==> |r.phys| == |refs|
    ensures r.Translated? ==> forall i :: 0 <= i < |refs| ==> MapsTo(refs, pageBits, i, r.phys[i])
  {
    hide Pow2, Shr, Physical, Distinct, MapsTo, Mmu.Valid, Pages;
    var mmu := new Mmu(logBits, phyBits, pageBits);
    ghost var pages := Pages(refs, pageBits);
    var phys: seq<nat> := [];
    NoneDistinct();
    assert pages[..0] == [];
    var i := 0;
    while i < |refs|
      invariant 0 <= i <= |refs| && |phys| == i && mmu.Valid()
      invariant fresh(mmu) && fresh(mmu.pageTable) && fresh(mmu.memMap)
      invariant mmu.logBits == logBits && mmu.phyBits == phyBits && mmu.pageBits == pageBits
      invariant mmu.mapped == Distinct(pages[..i])
      invariant forall j :: 0 <= j < i ==> MapsTo(refs, pageBits, j, phys[j])
    {
      DistinctNext(pages, i);
      var ok, p, k := mmu.Reference(refs[i]);
      if !ok {
        return OutOfFrames;
      }
      MapsBy(refs, pageBits, i, k, p);
      phys := phys + [p];
      i := i + 1;
    }
    assert pages[..i] == pages;
    mmu.FramesSuffice();
    return Translated(phys);
  }

  /** Translation is a function and injective: equal logical addresses get equal
      physical ones, different ones different ones, and all lie inside memory. */
  lemma TranslationInjective(refs: seq<nat>, pageBits: nat, phyBits: nat, i: nat, x: nat, j: nat, y: nat)
    requires i < |refs| && j < |refs| && MapsTo(refs, pageBits, i, x) && MapsTo(refs, pageBits, j, y)
    requires pageBits <= phyBits && |Distinct(Pages(refs, pageBits))| <= Pow2(phyBits - pageBits)
    ensures x == y <==> refs[i] == refs[j]
    ensures x < Pow2(phyBits)
  {
    hide Shr, Physical;
    var d := Distinct(Pages(refs, pageBits));
    DistinctFacts(Pages(refs, pageBits));
    var k: nat :| k < |d| && d[k] == Shr(refs[i], pageBits) && x == Physical(k, refs[i], pageBits);
    var m: nat :| m < |d| && d[m] == Shr(refs[j], pageBits) && y == Physical(m, refs[j], pageBits);
    PhysicalInjective(k, refs[i], m, refs[j], pageBits);
    ShrIsDiv(refs[i], pageBits);
    ShrIsDiv(refs[j], pageBits);
    InSpace(k, refs[i], pageBits, phyBits);
  }
}
