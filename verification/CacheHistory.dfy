/** When references miss, told by the history of references alone: bytes, lines and
    sets by division, and how many other lines of the set came in between. */
module CacheHistory {
  import opened Bits
  import opened CacheSpec

  // ----------------------------------------------------------- lines touched

  /** Whole division of addresses by a line size. */
  function LineOf(x: nat, lineBits: nat): nat {
    ShrIsDiv(x, lineBits);
    x / Pow2(lineBits)
  }

  function FirstLine(lineBits: nat, r: Access): nat {
    LineOf(r.addr, lineBits)
  }

  /** The line of the last byte; addresses are 64-bit words. */
  function LastLine(lineBits: nat, r: Access): nat {
    LineOf((r.addr + r.size - 1) % 0x1_0000_0000_0000_0000, lineBits)
  }

  /** The lines that a reference touches, in order. */
  function LinesAt(lineBits: nat, r: Access): seq<nat> {
    var x, y := FirstLine(lineBits, r), LastLine(lineBits, r);
    if x == y then [x] else [x, y]
  }

  function LinesOf(lineBits: nat, refs: seq<Access>): seq<nat> {
    if refs == [] then [] else LinesOf(lineBits, refs[..|refs| - 1]) + LinesAt(lineBits, refs[|refs| - 1])
  }

  /** The reference touches one line or two neighbouring ones. */
  predicate Accepted(lineBits: nat, r: Access) {
    var x, y := FirstLine(lineBits, r), LastLine(lineBits, r);
    y == x || y == (x + 1) % 0x1_0000_0000_0000_0000
  }

  lemma LinesAgree(lineBits: nat, r: Access)
    ensures FirstBlock(lineBits, r.addr) == FirstLine(lineBits, r)
    ensures LastBlock(lineBits, r.addr, r.size) == LastLine(lineBits, r)
  {
    ShrIsDiv(r.addr, lineBits);
    ShrIsDiv(Wrap(r.addr + r.size - 1), lineBits);
  }

  lemma {:induction false} LinesAreBlocks(lineBits: nat, refs: seq<Access>)
    ensures LinesOf(lineBits, refs) == BlocksOf(lineBits, refs)
  {
    hide FirstBlock, LastBlock, FirstLine, LastLine;
    if refs != [] {
      LinesAreBlocks(lineBits, refs[..|refs| - 1]);
      LinesAgree(lineBits, refs[|refs| - 1]);
    }
  }

  lemma {:induction false} DivMono(x: nat, y: nat, d: nat)
    requires d > 0 && x <= y
    ensures x / d <= y / d
  {
    if y / d < x / d {
      MulGap(y / d, x / d, d);
      assert false;
    }
  }

  /** In terms of bytes: an accepted reference that stays inside the address space
      touches exactly the lines of its bytes. */
  lemma TouchedBytes(lineBits: nat, r: Access, line: nat) returns (y: nat)
    requires r.size >= 1 && r.addr + r.size <= 0x1_0000_0000_0000_0000 && Accepted(lineBits, r)
    ensures line in LinesAt(lineBits, r) ==> r.addr <= y < r.addr + r.size && LineOf(y, lineBits) == line
    ensures line !in LinesAt(lineBits, r) ==>
      forall b: nat :: r.addr <= b < r.addr + r.size ==> LineOf(b, lineBits) != line
  {
    hide Pow2;
    var d := Pow2(lineBits);
    var e := r.addr + r.size - 1;
    assert e % 0x1_0000_0000_0000_0000 == e;
    y := if line == FirstLine(lineBits, r) then r.addr else e;
    DivMono(r.addr, e, d);
    forall b: nat | r.addr <= b < r.addr + r.size ensures r.addr / d <= b / d <= e / d {
      DivMono(r.addr, b, d);
      DivMono(b, e, d);
    }
  }

  // ------------------------------------------------------------------ misses

  /** A line misses behind the lines of h: it is not the zero tag and new to its set, or
      `assoc` other lines of its set were used since its last use. */
  predicate LineMisses(assoc: nat, setBits: nat, h: seq<nat>, line: nat) {
    var mine := InSet(setBits, h, line % Pow2(setBits));
    (line != 0 && line !in mine) || |Since(mine, line)| >= assoc
  }

  /** A reference misses behind the lines of h: its first line does, or its second one
      behind the first. */
  predicate RefMisses(assoc: nat, setBits: nat, lineBits: nat, h: seq<nat>, r: Access) {
    var x, y := FirstLine(lineBits, r), LastLine(lineBits, r);
    LineMisses(assoc, setBits, h, x) || (y != x && LineMisses(assoc, setBits, h + [x], y))
  }

  /** How many references of a sequence miss. */
  function MissCount(assoc: nat, setBits: nat, lineBits: nat, refs: seq<Access>): nat {
    if refs == [] then 0
    else
      var front := refs[..|refs| - 1];
      MissCount(assoc, setBits, lineBits, front) +
      if RefMisses(assoc, setBits, lineBits, LinesOf(lineBits, front), refs[|refs| - 1]) then 1 else 0
  }

  lemma TrackedMisses(c: Cache, h: seq<nat>, line: nat)
    requires Tracks(c, h)
    ensures Misses(c, line) <==> LineMisses(c.assoc, c.setBits, h, line)
  {
    MissExactly(c.assoc, InSet(c.setBits, h, SetIndex(c.setBits, line)), line);
  }

  lemma TracksShape(c: Cache, h: seq<nat>)
    requires Tracks(c, h)
    ensures WellFormed(c)
  {
  }

  lemma TrackedRef(c: Cache, h: seq<nat>, r: Access)
    requires Tracks(c, h)
    ensures RefIsMiss(c, r.addr, r.size).Ref? <==> Accepted(c.lineBits, r)
    ensures RefIsMiss(c, r.addr, r.size).Ref? ==>
      (RefIsMiss(c, r.addr, r.size).miss <==> RefMisses(c.assoc, c.setBits, c.lineBits, h, r))
  {
    hide WellFormed, SetRef, Misses, FirstBlock, LastBlock, LineMisses, FirstLine, LastLine, Tracks;
    TracksShape(c, h);
    var x := FirstLine(c.lineBits, r);
    LinesAgree(c.lineBits, r);
    TrackedMisses(c, h, x);
    SetRefTracks(c, h, x);
    TrackedMisses(SetRef(c, x), h + [x], LastLine(c.lineBits, r));
  }

  /** Behind any sequence of references from an empty cache, the next one misses exactly
      as the history says. */
  lemma RefMissExactly(assoc: nat, setBits: nat, lineBits: nat, refs: seq<Access>, r: Access)
    requires assoc > 0 && RunRefs(Empty(assoc, setBits, lineBits), refs).Finished?
    ensures
      var x := RefIsMiss(RunRefs(Empty(assoc, setBits, lineBits), refs).cache, r.addr, r.size);
      && (x.Ref? <==> Accepted(lineBits, r))
      && (x.Ref? ==> (x.miss <==> RefMisses(assoc, setBits, lineBits, LinesOf(lineBits, refs), r)))
  {
    hide Tracks, RefIsMiss, RunRefs, LinesOf, BlocksOf, Empty, RefMisses, Accepted;
    CacheIsLru(assoc, setBits, lineBits, refs);
    LinesAreBlocks(lineBits, refs);
    TrackedRef(RunRefs(Empty(assoc, setBits, lineBits), refs).cache, LinesOf(lineBits, refs), r);
  }

  lemma NoRefs(c: Cache)
    requires WellFormed(c)
    ensures RunRefs(c, []) == Finished(c, 0)
  {
  }

  /** The run goes through exactly if every reference is accepted, and then its miss
      count is the number of references that miss by their history. */
  lemma {:induction false} MissCountExactly(assoc: nat, setBits: nat, lineBits: nat, refs: seq<Access>)
    requires assoc > 0
    ensures
      var run := RunRefs(Empty(assoc, setBits, lineBits), refs);
      && (run.Finished? <==> forall i :: 0 <= i < |refs| ==> Accepted(lineBits, refs[i]))
      && (run.Finished? ==> run.misses == MissCount(assoc, setBits, lineBits, refs))
    decreases |refs|
  {
    hide RefIsMiss, RunRefs, LinesOf, Empty, RefMisses, Accepted;
    var c := Empty(assoc, setBits, lineBits);
    if refs == [] {
      NoRefs(c);
    } else {
      var front, last := refs[..|refs| - 1], refs[|refs| - 1];
      assert refs == front + [last];
      RunSnoc(c, front, last);
      MissCountExactly(assoc, setBits, lineBits, front);
      assert forall i :: 0 <= i < |front| ==> refs[i] == front[i];
      if RunRefs(c, front).Finished? {
        RefMissExactly(assoc, setBits, lineBits, front, last);
      }
    }
  }
}
