/** jumps.c: the hash table of jump cost centers with its two LRU shortcuts.

    A jCC is named by its number in order of creation; its key never changes and
    its next_hash pointer is next[j], with NIL for NULL. */
module JccTable {
  import Bits
  import opened Lists

  const NIL: int := -1

  /** A call arc; BBCCs are named by their addresses. */
  datatype Key = Key(from: nat, jmp: nat, to: nat)

  /** jcc_hash_idx: the sum is cut to 32 bits before the remainder is taken. */
  function Hash(k: Key, size: nat): (i: nat)
    requires size > 0
    ensures i < size
  {
    (k.from + 7 * k.to + 13 * k.jmp) % 0x1_0000_0000 % size
  }

  // ------------------------------------------------------------------ chains

  lemma HashSmall(k: Key, size: nat)
    requires size > 0 && k.from + 7 * k.to + 13 * k.jmp < 0x1_0000_0000
    ensures Hash(k, size) == (k.from + 7 * k.to + 13 * k.jmp) % size
  {
    var x := k.from + 7 * k.to + 13 * k.jmp;
    assert x % 0x1_0000_0000 == x;
  }

  lemma HashWraps(k: Key, size: nat)
    requires size > 0
    ensures Hash(k.(from := k.from + 0x1_0000_0000), size) == Hash(k, size)
  {
    var x := k.from + 7 * k.to + 13 * k.jmp;
    assert (x + 0x1_0000_0000) % 0x1_0000_0000 == x % 0x1_0000_0000;
  }

  lemma ModStep(x: nat, y: nat, d: nat)
    requires d > 0
    ensures (x + y) % d == (x % d + y) % d
  {
    var q, r := x / d, x % d;
    var p, t := (r + y) / d, (r + y) % d;
    assert x + y == (q + p) * d + t;
    Bits.DivUnique(x + y, d, q + p);
  }

  /** What determines the hash: it is 0 for the zero key, moves by 1, 7 and 13 buckets
      for the next caller, callee and jump, and looks at 32 bits of the sum only. */
  lemma HashMoves(k: Key, size: nat)
    requires size > 0
    ensures Hash(Key(0, 0, 0), size) == 0
    ensures k.from + 7 * k.to + 13 * k.jmp + 13 < 0x1_0000_0000 ==>
      && Hash(k.(from := k.from + 1), size) == (Hash(k, size) + 1) % size
      && Hash(k.(to := k.to + 1), size) == (Hash(k, size) + 7) % size
      && Hash(k.(jmp := k.jmp + 1), size) == (Hash(k, size) + 13) % size
    ensures Hash(k.(from := k.from + 0x1_0000_0000), size) == Hash(k, size)
  {
    hide Hash;
    var x := k.from + 7 * k.to + 13 * k.jmp;
    HashSmall(Key(0, 0, 0), size);
    Bits.DivUnique(0, size, 0);
    if x + 13 < 0x1_0000_0000 {
      HashSmall(k, size);
      HashSmall(k.(from := k.from + 1), size);
      HashSmall(k.(to := k.to + 1), size);
      HashSmall(k.(jmp := k.jmp + 1), size);
      ModStep(x, 1, size);
      ModStep(x, 7, size);
      ModStep(x, 13, size);
    }
    HashWraps(k, size);
  }

  /** Following next from h visits the nodes of c in order and ends. */
  ghost predicate Chain(next: seq<int>, h: int, c: seq<nat>)
    decreases |c|
  {
    if c == [] then h == NIL
    else h == c[0] && c[0] < |next| && Chain(next, next[c[0]], c[1..])
  }

  lemma {:induction false} ChainFrame(next: seq<int>, next': seq<int>, h: int, c: seq<nat>)
    requires Chain(next, h, c) && |next| <= |next'|
    requires forall n: nat :: n in c && n < |next| ==> next'[n] == next[n]
    ensures Chain(next', h, c)
    decreases |c|
  {
    if c != [] {
      assert c[0] in c;
      forall n: nat | n in c[1..] && n < |next| ensures next'[n] == next[n] {
        assert n in c;
      }
      ChainFrame(next, next', next[c[0]], c[1..]);
    }
  }

  lemma ChainPush(next: seq<int>, h: int, c: seq<nat>, n: nat)
    requires Chain(next, h, c) && n < |next| && n !in c
    ensures Chain(next[n := h], n, [n] + c)
  {
    ChainFrame(next, next[n := h], h, c);
    assert ([n] + c)[1..] == c;
  }

  /** The chains hold exactly the jCCs of dom, each in the bucket of its hash, once. */
  ghost predicate Placed(keys: seq<Key>, chains: seq<seq<nat>>, dom: set<nat>) {
    && |chains| > 0
    && (forall n: nat :: n in dom ==> n < |keys|)
    && (forall b: nat {:trigger NoDup(chains[b])} :: b < |chains| ==> NoDup(chains[b]))
    && (forall b: nat, n: nat {:trigger n in chains[b]} :: b < |chains| ==>
          (n in chains[b] <==> n in dom && Hash(keys[n], |chains|) == b))
  }

  /** heads and next represent the chains. */
  ghost predicate Linked(next: seq<int>, heads: seq<int>, chains: seq<seq<nat>>) {
    |heads| == |chains| && forall b: nat {:trigger chains[b]} :: b < |chains| ==> Chain(next, heads[b], chains[b])
  }

  function All(n: nat): (s: set<nat>)
    ensures forall i: nat :: i in s <==> i < n
  {
    if n == 0 then {} else All(n - 1) + {n - 1}
  }

  lemma PushPlaced(keys: seq<Key>, chains: seq<seq<nat>>, dom: set<nat>, n: nat)
    requires Placed(keys, chains, dom) && n < |keys| && n !in dom
    ensures
      var b := Hash(keys[n], |chains|);
      Placed(keys, chains[b := [n] + chains[b]], dom + {n})
  {
    var b := Hash(keys[n], |chains|);
    assert NoDup(chains[b]);
    NoDupPush(chains[b], n);
    var chains' := chains[b := [n] + chains[b]];
    forall c: nat, m: nat | c < |chains| ensures m in chains'[c] <==> m in dom + {n} && Hash(keys[m], |chains|) == c {
      assert m in chains[c] <==> m in dom && Hash(keys[m], |chains|) == c;
    }
  }

  lemma PushLinked(keys: seq<Key>, next: seq<int>, heads: seq<int>, chains: seq<seq<nat>>, dom: set<nat>,
                   n: nat, b: nat)
    requires Placed(keys, chains, dom) && Linked(next, heads, chains) && n < |next| && n !in dom && b < |chains|
    ensures Linked(next[n := heads[b]], heads[b := n], chains[b := [n] + chains[b]])
  {
    var chains' := chains[b := [n] + chains[b]];
    forall c: nat | c < |chains| ensures Chain(next[n := heads[b]], heads[b := n][c], chains'[c]) {
      assert n !in chains[c];
      if c == b {
        ChainPush(next, heads[b], chains[b], n);
      } else {
        ChainFrame(next, next[n := heads[b]], heads[c], chains[c]);
      }
    }
  }

  /** What is still to be moved in a resize: the rest of bucket i and all later ones. */
  ghost predicate Pending(next: seq<int>, heads: seq<int>, chains: seq<seq<nat>>, i: nat, curr: int, rest: seq<nat>) {
    && |heads| == |chains| && i < |chains| && Chain(next, curr, rest)
    && NoDup(rest) && (forall n: nat :: n in rest ==> n in chains[i])
    && (forall b: nat {:trigger chains[b]} :: i < b < |chains| ==> Chain(next, heads[b], chains[b]))
  }

  lemma PendingStep(keys: seq<Key>, next: seq<int>, heads: seq<int>, chains: seq<seq<nat>>,
                    i: nat, curr: int, rest: seq<nat>, v: int)
    requires Placed(keys, chains, All(|keys|)) && |next| == |keys|
    requires Pending(next, heads, chains, i, curr, rest) && rest != []
    ensures rest[0] < |next| && Pending(next[rest[0] := v], heads, chains, i, next[rest[0]], rest[1..])
  {
    var n := rest[0];
    assert n in rest;
    var next' := next[n := v];
    assert n !in rest[1..];
    ChainFrame(next, next', next[n], rest[1..]);
    forall b: nat | i < b < |chains| ensures Chain(next', heads[b], chains[b]) {
      assert n in chains[i] && n !in chains[b];
      ChainFrame(next, next', heads[b], chains[b]);
    }
  }

  /** dom is what a resize has moved when `rest` of bucket i is still to come. */
  ghost predicate MovedIs(keys: seq<Key>, size: nat, i: nat, rest: seq<nat>, dom: set<nat>)
    requires size > 0
  {
    forall n: nat {:trigger keys[n]} :: n < |keys| ==>
      (n in dom <==> Hash(keys[n], size) < i || (Hash(keys[n], size) == i && n !in rest))
  }

  lemma MovedStep(keys: seq<Key>, chains: seq<seq<nat>>, i: nat, rest: seq<nat>, dom: set<nat>)
    requires Placed(keys, chains, All(|keys|)) && i < |chains| && rest != [] && NoDup(rest)
    requires (forall n: nat :: n in rest ==> n in chains[i]) && MovedIs(keys, |chains|, i, rest, dom)
    ensures rest[0] < |keys| && rest[0] !in dom && MovedIs(keys, |chains|, i, rest[1..], dom + {rest[0]})
  {
    var n := rest[0];
    assert n in rest && n in chains[i];
    assert Hash(keys[n], |chains|) == i;
    assert n !in rest[1..];
    assert rest == [n] + rest[1..];
  }

  /** At a bucket boundary. */
  lemma MovedBucket(keys: seq<Key>, chains: seq<seq<nat>>, i: nat, dom: set<nat>)
    requires Placed(keys, chains, All(|keys|)) && i < |chains|
    ensures MovedIs(keys, |chains|, i, chains[i], dom) <==>
      forall n: nat {:trigger keys[n]} :: n < |keys| ==> (n in dom <==> Hash(keys[n], |chains|) < i)
    ensures MovedIs(keys, |chains|, i, [], dom) <==>
      forall n: nat {:trigger keys[n]} :: n < |keys| ==> (n in dom <==> Hash(keys[n], |chains|) < i + 1)
  {
    forall n: nat | n < |keys| ensures n in chains[i] <==> Hash(keys[n], |chains|) == i {
    }
  }

  /** The fill test of new_jcc fails: integer division makes it a limit of 90%. */
  predicate Roomy(entries: nat, size: nat) {
    10 * entries < 9 * size
  }

  lemma FillTest(entries: nat, size: nat)
    requires size > 0
    ensures 10 * entries / size > 8 <==> !Roomy(entries, size)
  {
    var q := 10 * entries / size;
    assert q * size <= 10 * entries < q * size + size;
    if q > 8 {
      Bits.MulGap(8, q, size);
    } else if q < 8 {
      Bits.MulGap(q, 8, size);
    }
  }

  /** Room for one more jCC, linked in at the head of its bucket. */
  lemma Extended(keys: seq<Key>, next: seq<int>, heads: seq<int>, chains: seq<seq<nat>>, k: Key)
    requires |next| == |keys| && Placed(keys, chains, All(|keys|)) && Linked(next, heads, chains)
    ensures |chains| > 0 && |heads| == |chains|
    ensures
      var b, n := Hash(k, |chains|), |keys|;
      && Placed(keys + [k], chains[b := [n] + chains[b]], All(n + 1))
      && Linked(next + [heads[b]], heads[b := n], chains[b := [n] + chains[b]])
  {
    var b, n := Hash(k, |chains|), |keys|;
    var keys', next' := keys + [k], next + [heads[b]];
    assert Placed(keys', chains, All(n));
    assert Linked(next', heads, chains) by {
      forall c: nat | c < |chains| ensures Chain(next', heads[c], chains[c]) {
        ChainFrame(next, next', heads[c], chains[c]);
      }
    }
    PushPlaced(keys', chains, All(n), n);
    PushLinked(keys', next', heads, chains, All(n), n, b);
    assert next'[n := heads[b]] == next';
    assert All(n) + {n} == All(n + 1);
  }

  lemma ChainHead(next: seq<int>, h: int, c: seq<nat>)
    requires Chain(next, h, c) && c != []
    ensures h == c[0] && c[0] < |next| && Chain(next, next[c[0]], c[1..])
  {
  }

  lemma ChainEnd(next: seq<int>, h: int, c: seq<nat>)
    requires Chain(next, h, c)
    ensures h == NIL <==> c == []
  {
  }

  lemma EmptyTable(keys: seq<Key>, next: seq<int>, heads: seq<int>, chains: seq<seq<nat>>)
    requires |heads| == |chains| > 0 && (forall b :: 0 <= b < |heads| ==> heads[b] == NIL && chains[b] == [])
    ensures Placed(keys, chains, {}) && Linked(next, heads, chains)
  {
  }

  lemma NoDupMore(keys: seq<Key>, k: Key)
    requires NoDup(keys) && k !in keys
    ensures NoDup(keys + [k])
  {
  }

  lemma RoomyAfter(entries: nat, size: nat)
    requires entries > 0 && Roomy(entries - 1, size)
    ensures Roomy(entries, 2 * size + 3)
  {
  }

  /** current_jccs, the jCCs, and the LRU fields of the BBCCs. */
  class JccHash {
    var size: nat
    var entries: nat
    var table: array<int>
    var keys: seq<Key>
    var next: seq<int>
    var lruTo: map<nat, nat>
    var lruFrom: map<nat, nat>
    ghost var chains: seq<seq<nat>>

    /** The hash table alone. */
    ghost predicate TableOk()
      reads this, table
    {
      && 0 < size == table.Length == |chains| && |next| == |keys|
      && Placed(keys, chains, All(|keys|)) && Linked(next, table[..], chains)
    }

    ghost predicate Valid()
      reads this, table
    {
      && TableOk() && entries == |keys| && NoDup(keys) && Roomy(entries, size)
      && (forall b: nat :: b in lruTo ==> lruTo[b] < |keys| && keys[lruTo[b]].to == b)
      && (forall b: nat :: b in lruFrom ==> lruFrom[b] < |keys| && keys[lruFrom[b]].from == b)
    }

    /** init_jcc_hash with the given number of buckets */
    constructor (n: nat)
      requires n > 0
      ensures Valid() && keys == [] && size == n && fresh(table)
    {
      size, entries := n, 0;
      table := new int[n](_ => NIL);
      keys, next := [], [];
      lruTo, lruFrom := map[], map[];
      chains := seq(n, _ => []);
      new;
      EmptyTable(keys, next, table[..], chains);
      assert All(0) == {};
    }

    /** The inner loop of resize_jcc_table: relink one old chain into the new table. */
    method MoveChain(i: nat, newTable: array<int>, ghost moved: seq<seq<nat>>, ghost dom: set<nat>)
      returns (ghost moved': seq<seq<nat>>, ghost dom': set<nat>)
      requires i < size == table.Length == |chains| && |next| == |keys| && newTable != table
      requires Placed(keys, chains, All(|keys|)) && Pending(next, table[..], chains, i, table[i], chains[i])
      requires newTable.Length == |moved| > 0 && Placed(keys, moved, dom) && Linked(next, newTable[..], moved)
      requires MovedIs(keys, size, i, chains[i], dom)
      modifies this`next, newTable
      ensures |next| == |keys| && |moved'| == |moved| && Pending(next, table[..], chains, i, NIL, [])
      ensures Placed(keys, moved', dom') && Linked(next, newTable[..], moved') && MovedIs(keys, size, i, [], dom')
    {
      hide Placed, Linked, Chain, MovedIs;
      moved', dom' := moved, dom;
      ghost var rest := chains[i];
      ghost var heads := table[..];
      var curr := table[i];
      ChainEnd(next, curr, rest);
      while curr != NIL
        invariant |next| == |keys| && |moved'| == |moved| && heads == table[..]
        invariant Pending(next, heads, chains, i, curr, rest) && (curr == NIL <==> rest == [])
        invariant Placed(keys, moved', dom') && Linked(next, newTable[..], moved') && MovedIs(keys, size, i, rest, dom')
        decreases |rest|
      {
        ChainHead(next, curr, rest);
        ghost var n: nat := rest[0];
        MovedStep(keys, chains, i, rest, dom');
        var nextJcc := next[curr];
        var idx := Hash(keys[curr], newTable.Length);
        PendingStep(keys, next, heads, chains, i, curr, rest, newTable[idx]);
        PushPlaced(keys, moved', dom', n);
        PushLinked(keys, next, newTable[..], moved', dom', n, idx);
        next := next[curr := newTable[idx]];
        newTable[idx] := curr;
        moved' := moved'[idx := [n] + moved'[idx]];
        dom' := dom' + {n};
        curr := nextJcc;
        rest := rest[1..];
        ChainEnd(next, curr, rest);
      }
    }

    /** resize_jcc_table: relink every jCC into a table of 2 * size + 3 buckets. */
    method Resize()
      requires TableOk()
      modifies this`size, this`table, this`next, this`chains
      ensures TableOk() && size == 2 * old(size) + 3 && fresh(table)
    {
      hide Chain;
      var newSize := 2 * size + 3;
      var newTable := new int[newSize](_ => NIL);
      ghost var moved: seq<seq<nat>> := seq(newSize, _ => []);
      ghost var dom: set<nat> := {};
      EmptyTable(keys, next, newTable[..], moved);
      var i := 0;
      while i < size
        invariant 0 <= i <= size == old(size) == table.Length == |chains| && |next| == |keys|
        invariant newTable.Length == newSize == |moved| && fresh(newTable) && newTable != table
        invariant Placed(keys, chains, All(|keys|))
        invariant forall b: nat {:trigger chains[b]} :: i <= b < |chains| ==> Chain(next, table[b], chains[b])
        invariant Placed(keys, moved, dom) && Linked(next, newTable[..], moved)
        invariant forall n: nat {:trigger keys[n]} :: n < |keys| ==> (n in dom <==> Hash(keys[n], size) < i)
      {
        MovedBucket(keys, chains, i, dom);
        assert NoDup(chains[i]);
        assert Pending(next, table[..], chains, i, table[i], chains[i]);
        moved, dom := MoveChain(i, newTable, moved, dom);
        MovedBucket(keys, chains, i, dom);
        i := i + 1;
      }
      assert dom == All(|keys|) by {
        forall n: nat | n < |keys| ensures n in dom {
          assert keys[n] == keys[n];
        }
      }
      size, table, chains := newSize, newTable, moved;
    }

    /** new_jcc: a table that is not roomy with one more entry is resized first. */
    method NewJcc(k: Key) returns (j: nat)
      requires Valid() && k !in keys
      modifies this`size, this`table, this`next, this`chains, this`entries, this`keys, table
      ensures Valid() && keys == old(keys) + [k] && j == |old(keys)| && (table == old(table) || fresh(table))
      ensures size == if 10 * |keys| < 9 * old(size) then old(size) else 2 * old(size) + 3
    {
      hide Chain, Placed, Linked, Hash, NoDup;
      NoDupMore(keys, k);
      entries := entries + 1;
      FillTest(entries, size);
      if 10 * entries / size > 8 {
        RoomyAfter(entries, size);
        Resize();
      }
      var idx := Hash(k, size);
      Extended(keys, next, table[..], chains, k);
      j := |keys|;
      keys := keys + [k];
      next := next + [table[idx]];
      chains := chains[idx := [j] + chains[idx]];
      table[idx] := j;
    }

    /** The chain search of get_jcc. */
    method Search(k: Key) returns (j: int)
      requires TableOk()
      ensures j == NIL ==> k !in keys
      ensures j != NIL ==> 0 <= j < |keys| && keys[j] == k
    {
      hide Chain;
      var idx := Hash(k, size);
      ghost var c := chains[idx];
      ghost var rest := c;
      j := table[idx];
      ChainEnd(next, j, rest);
      while j != NIL
        invariant Chain(next, j, rest) && (j == NIL <==> rest == [])
        invariant forall n: nat :: n in rest ==> n in c
        invariant forall n: nat :: n in c && n !in rest && n < |keys| ==> keys[n] != k
        decreases |rest|
      {
        ChainHead(next, j, rest);
        assert rest == [rest[0]] + rest[1..];
        assert rest[0] in chains[idx];
        if keys[j] == k {
          return;
        }
        j := next[j];
        rest := rest[1..];
        ChainEnd(next, j, rest);
      }
      forall n: nat | n < |keys| ensures keys[n] != k {
        assert n in chains[idx] <==> Hash(keys[n], |chains|) == idx;
      }
    }

    /** No two jCCs for one arc. */
    lemma OnePerArc()
      requires Valid()
      ensures NoDup(keys)
    {
    }

    /** One of the two last-used shortcuts leads to the jCC of k. */
    ghost predicate Remembered(k: Key)
      requires Valid()
      reads this, table
    {
      || (k.to in lruTo && keys[lruTo[k.to]] == k)
      || (k.from in lruFrom && keys[lruFrom[k.from]] == k)
    }

    /** get_jcc: a memo function on call arcs. */
    method GetJcc(from: nat, jmp: nat, to: nat) returns (j: nat)
      requires Valid()
      modifies this, table
      ensures Valid() && j < |keys| && keys[j] == Key(from, jmp, to)
      ensures if Key(from, jmp, to) in old(keys) then keys == old(keys) else keys == old(keys) + [Key(from, jmp, to)]
      ensures table == old(table) || fresh(table)
      ensures size == if keys == old(keys) || 10 * |keys| < 9 * old(size) then old(size) else 2 * old(size) + 3
      ensures
        if old(Remembered(Key(from, jmp, to))) then lruTo == old(lruTo) && lruFrom == old(lruFrom)
        else lruTo == old(lruTo)[to := j] && lruFrom == old(lruFrom)[from := j]
      ensures Remembered(Key(from, jmp, to))
    {
      hide Chain, Placed, Linked, Hash, Roomy, NoDup;
      var k := Key(from, jmp, to);
      if to in lruTo {
        j := lruTo[to];
        if keys[j].from == from && keys[j].jmp == jmp {
          return;
        }
      }
      if from in lruFrom {
        j := lruFrom[from];
        if keys[j].to == to && keys[j].jmp == jmp {
          return;
        }
      }
      var found := Search(k);
      if found == NIL {
        j := NewJcc(k);
      } else {
        j := found;
      }
      lruFrom := lruFrom[from := j];
      lruTo := lruTo[to := j];
    }
  }

  // -------------------------------------------------------------------- runs

  lemma NothingYet()
    ensures Distinct<Key>([]) == []
  {
  }

  lemma SameArc(keys: seq<Key>, ks: seq<Key>, js: seq<nat>)
    requires NoDup(keys) && |js| == |ks| && forall i :: 0 <= i < |ks| ==> js[i] < |keys| && keys[js[i]] == ks[i]
    ensures forall i, j :: 0 <= i < |ks| && 0 <= j < |ks| ==> (js[i] == js[j] <==> ks[i] == ks[j])
  {
  }

  /** A run of get_jcc from an empty table, whatever its size: equal arcs get the same
      jCC, different arcs different ones, and nothing else exists. */
  method GetAll(n: nat, ks: seq<Key>) returns (js: seq<nat>)
    requires n > 0
    ensures |js| == |ks| && NoDup(Distinct(ks))
    ensures forall i :: 0 <= i < |ks| ==> js[i] < |Distinct(ks)| && Distinct(ks)[js[i]] == ks[i]
    ensures forall i, j :: 0 <= i < |ks| && 0 <= j < |ks| ==> (js[i] == js[j] <==> ks[i] == ks[j])
  {
    hide JccHash.Valid, JccHash.Remembered, Hash, NoDup, Distinct;
    NothingYet();
    assert ks[..0] == [];
    var h := new JccHash(n);
    js := [];
    var i := 0;
    while i < |ks|
      invariant 0 <= i <= |ks| && |js| == i && h.Valid() && fresh(h) && fresh(h.table)
      invariant h.keys == Distinct(ks[..i])
      invariant forall j :: 0 <= j < i ==> js[j] < |h.keys| && h.keys[js[j]] == ks[j]
    {
      DistinctNext(ks, i);
      var j := h.GetJcc(ks[i].from, ks[i].jmp, ks[i].to);
      js := js + [j];
      i := i + 1;
    }
    assert ks[..i] == ks;
    h.OnePerArc();
    SameArc(h.keys, ks, js);
  }
}
