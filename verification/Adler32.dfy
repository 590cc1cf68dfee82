/** adler32 of valgrind-di-server.c: deferred reduction against the definition in
    section 2.2 of RFC 1950. */
module Adler32 {
  import opened Bits

  const BASE: nat := 65521
  const NMAX: nat := 5552

  type Byte = b: nat | b < 256

  // --------------------------------------------------- RFC 1950, section 2.2

  /** s1 and s2 */
  datatype Sums = Sums(s1: nat, s2: nat)

  /** One byte: both sums are kept modulo 65521. */
  function Feed(x: Sums, b: Byte): Sums {
    var s1 := (x.s1 + b) % BASE;
    Sums(s1, (x.s2 + s1) % BASE)
  }

  function FeedAll(x: Sums, buf: seq<Byte>): Sums {
    if buf == [] then x else Feed(FeedAll(x, buf[..|buf| - 1]), buf[|buf| - 1])
  }

  /** s2 * 65536 + s1 */
  function Pack(x: Sums): nat {
    x.s2 * 65536 + x.s1
  }

  function Halves(adler: nat): Sums {
    Sums(adler % 65536, adler / 65536 % 65536)
  }

  function Residues(x: Sums): Sums {
    Sums(x.s1 % BASE, x.s2 % BASE)
  }

  /** The checksum of a buffer, continued from an earlier checksum. */
  function Checksum(adler: nat, buf: seq<Byte>): nat {
    Pack(FeedAll(Residues(Halves(adler)), buf))
  }

  lemma {:induction false} FeedConcat(x: Sums, p: seq<Byte>, q: seq<Byte>)
    ensures FeedAll(x, p + q) == FeedAll(FeedAll(x, p), q)
    decreases |q|
  {
    if q == [] {
      assert p + q == p;
    } else {
      var w := p + q;
      assert w[..|w| - 1] == p + q[..|q| - 1] && w[|w| - 1] == q[|q| - 1];
      FeedConcat(x, p, q[..|q| - 1]);
    }
  }

  lemma {:induction false} FeedReduced(x: Sums, buf: seq<Byte>)
    requires x.s1 < BASE && x.s2 < BASE
    ensures FeedAll(x, buf).s1 < BASE && FeedAll(x, buf).s2 < BASE
  {
    if buf != [] {
      FeedReduced(x, buf[..|buf| - 1]);
    }
  }

  lemma HalvesPack(x: Sums)
    requires x.s1 < BASE && x.s2 < BASE
    ensures Halves(Pack(x)) == x
  {
  }

  lemma ResiduesReduced(x: Sums)
    ensures Residues(x).s1 < BASE && Residues(x).s2 < BASE
    ensures x.s1 < BASE && x.s2 < BASE ==> Residues(x) == x
  {
  }

  /** Checksumming x and then y is checksumming x followed by y. */
  lemma ChecksumConcat(adler: nat, p: seq<Byte>, q: seq<Byte>)
    ensures Checksum(Checksum(adler, p), q) == Checksum(adler, p + q)
  {
    hide FeedAll, Pack, Halves, Residues;
    var r := Residues(Halves(adler));
    ResiduesReduced(Halves(adler));
    var x := FeedAll(r, p);
    FeedReduced(r, p);
    HalvesPack(x);
    ResiduesReduced(x);
    FeedConcat(r, p, q);
  }

  // --------------------------------------------------------- unreduced sums

  /** One byte without reduction: DO1. */
  function Raw(x: Sums, b: Byte): Sums {
    Sums(x.s1 + b, x.s2 + x.s1 + b)
  }

  function RawAll(x: Sums, buf: seq<Byte>): Sums {
    if buf == [] then x else Raw(RawAll(x, buf[..|buf| - 1]), buf[|buf| - 1])
  }

  lemma {:induction false} Multiple(a: nat, q: nat)
    ensures (a + BASE * q) % BASE == a % BASE
  {
    if q > 0 {
      Multiple(a, q - 1);
      assert BASE * q == BASE * (q - 1) + BASE;
    }
  }

  lemma ModAdd(x: nat, y: nat)
    ensures (x + y) % BASE == (x % BASE + y % BASE) % BASE
    ensures (x + y) % BASE == (x % BASE + y) % BASE
  {
    var p, q := x / BASE, y / BASE;
    assert x == BASE * p + x % BASE && y == BASE * q + y % BASE;
    Multiple(x % BASE + y, p);
    Multiple(x % BASE + y % BASE, q);
  }

  lemma RawFeed(x: Sums, b: Byte)
    ensures Residues(Raw(x, b)) == Feed(Residues(x), b)
  {
    ModAdd(x.s1, b);
    ModAdd(x.s2, x.s1 + b);
  }

  /** Reduction may be put off to the end. */
  lemma {:induction false} Deferred(x: Sums, buf: seq<Byte>)
    ensures Residues(RawAll(x, buf)) == FeedAll(Residues(x), buf)
  {
    hide Feed, Raw, Residues;
    if buf != [] {
      var front, b := buf[..|buf| - 1], buf[|buf| - 1];
      Deferred(x, front);
      RawFeed(RawAll(x, front), b);
    }
  }

  /** Largest possible s2 after k bytes from halves of 16 bits. */
  function Limit(k: nat): nat {
    if k == 0 then 65535 else Limit(k - 1) + 65535 + 255 * k
  }

  lemma {:induction false} LimitIs(k: nat)
    ensures 2 * Limit(k) == 131070 * (k + 1) + 255 * (k * (k + 1))
  {
    if k > 0 {
      LimitIs(k - 1);
      assert k * (k + 1) == (k - 1) * k + 2 * k;
    }
  }

  lemma {:induction false} LimitMono(j: nat, k: nat)
    requires j <= k
    ensures Limit(j) <= Limit(k)
  {
    if j < k {
      LimitMono(j, k - 1);
    }
  }

  lemma {:induction false} RawBound(x: Sums, buf: seq<Byte>)
    requires x.s1 <= 65535 && x.s2 <= 65535
    ensures RawAll(x, buf).s1 <= 65535 + 255 * |buf| && RawAll(x, buf).s2 <= Limit(|buf|)
  {
    if buf != [] {
      RawBound(x, buf[..|buf| - 1]);
    }
  }

  /** No sum overflows 32 bits within NMAX bytes. */
  lemma NoOverflow(x: Sums, buf: seq<Byte>)
    requires x.s1 <= 65535 && x.s2 <= 65535 && |buf| <= NMAX
    ensures RawAll(x, buf).s1 < 0x1_0000_0000 && RawAll(x, buf).s2 < 0x1_0000_0000
  {
    hide Limit, RawAll;
    RawBound(x, buf);
    LimitMono(|buf|, NMAX);
    LimitIs(NMAX);
  }

  // ----------------------------------------------------- MOD, MOD4 and 32 bits

  /** Unsigned 32-bit addition. */
  function Add32(x: nat, y: nat): nat {
    (x + y) % 0x1_0000_0000
  }

  /** The lines `if (a >= (BASE << i)) a -= (BASE << i)` for i from k down to 0. */
  function Reduce(a: nat, k: nat): nat {
    var d := BASE * Pow2(k);
    var a' := if a >= d then a - d else a;
    if k == 0 then a' else Reduce(a', k - 1)
  }

  /** Conditional subtraction is the remainder as long as a < BASE << (k + 1). */
  lemma {:induction false} ReduceIsMod(a: nat, k: nat)
    requires a < BASE * Pow2(k + 1)
    ensures Reduce(a, k) == a % BASE
  {
    var d := BASE * Pow2(k);
    assert BASE * Pow2(k + 1) == 2 * d;
    var a' := if a >= d then a - d else a;
    Multiple(a', Pow2(k));
    if k > 0 {
      ReduceIsMod(a', k - 1);
    }
  }

  function Mod(a: nat): nat {
    Reduce(a, 16)
  }

  function Mod4(a: nat): nat {
    Reduce(a, 4)
  }

  lemma ModIsMod(a: nat)
    ensures a < 0x1_0000_0000 ==> Mod(a) == a % BASE
    ensures a < 32 * BASE ==> Mod4(a) == a % BASE
  {
    assert Pow2(5) == 32 && Pow2(10) == 1024 && Pow2(17) == 131072;
    if a < 0x1_0000_0000 {
      ReduceIsMod(a, 16);
    }
    if a < 32 * BASE {
      ReduceIsMod(a, 4);
    }
  }

  /** adler | (sum2 << 16) */
  lemma Recombine(s1: nat, s2: nat)
    requires s1 < 65536
    ensures Or(s1, Shl(s2, 16)) == Pack(Sums(s1, s2))
  {
    Pow16();
    OrShl(s2, s1, 16);
    ShlIsMul(s2, 16);
  }

  /** The split of the incoming checksum by shift and mask. */
  lemma SplitIs(adler: nat)
    ensures And(adler, 0xffff) == Halves(adler).s1 && And(Shr(adler, 16), 0xffff) == Halves(adler).s2
  {
    Pow16();
    AndMask(adler, 16);
    ShrIsDiv(adler, 16);
    AndMask(Shr(adler, 16), 16);
  }

  // ------------------------------------------------------------- the function

  lemma RawSnoc(x: Sums, buf: seq<Byte>, i: int, j: int)
    requires 0 <= i <= j < |buf|
    ensures RawAll(x, buf[i..j + 1]) == Raw(RawAll(x, buf[i..j]), buf[j])
  {
    var s := buf[i..j + 1];
    assert s[..|s| - 1] == buf[i..j] && s[|s| - 1] == buf[j];
  }

  /** DO1 on the bytes from `from` to `to`, in 32-bit arithmetic; the sums started at
      x before byte `start`. */
  method Accumulate(adler: nat, sum2: nat, buf: seq<Byte>, from: nat, to: nat, ghost x: Sums, ghost start: nat)
    returns (adler': nat, sum2': nat)
    requires start <= from <= to <= |buf| && to - start <= NMAX && x.s1 <= 65535 && x.s2 <= 65535
    requires Sums(adler, sum2) == RawAll(x, buf[start..from])
    ensures Sums(adler', sum2') == RawAll(x, buf[start..to])
    ensures adler' < 0x1_0000_0000 && sum2' < 0x1_0000_0000
  {
    hide Limit, RawAll;
    adler', sum2' := adler, sum2;
    var i := from;
    NoOverflow(x, buf[start..from]);
    while i < to
      invariant from <= i <= to && Sums(adler', sum2') == RawAll(x, buf[start..i])
      invariant adler' < 0x1_0000_0000 && sum2' < 0x1_0000_0000
    {
      RawSnoc(x, buf, start, i);
      NoOverflow(x, buf[start..i + 1]);
      adler' := Add32(adler', buf[i]);
      sum2' := Add32(sum2', adler');
      i := i + 1;
    }
  }

  /** Sums reduced after a block agree with the definition up to the block's end. */
  lemma BlockDone(x: Sums, y: Sums, buf: seq<Byte>, i: nat, j: nat)
    requires i <= j <= |buf| && Residues(y) == FeedAll(Residues(x), buf[..i])
    ensures Residues(RawAll(y, buf[i..j])) == FeedAll(Residues(x), buf[..j])
  {
    hide RawAll, FeedAll, Residues;
    Deferred(y, buf[i..j]);
    FeedConcat(Residues(x), buf[..i], buf[i..j]);
    assert buf[..i] + buf[i..j] == buf[..j];
  }

  /** The inputs on which the code meets the definition: all but those single bytes
      for which one subtraction does not reduce the second sum. */
  predicate Exact(adler: nat, buf: seq<Byte>) {
    var x := Halves(adler);
    |buf| == 1 ==> x.s2 + (x.s1 + buf[0]) % 65521 < 2 * 65521
  }

  lemma OneSubtraction(a: nat)
    ensures a < 2 * BASE ==> (if a >= BASE then a - BASE else a) == a % BASE
    ensures a >= 2 * BASE ==> a - BASE > a % BASE
  {
  }

  lemma FeedOne(x: Sums, b: Byte)
    ensures FeedAll(x, [b]) == Feed(x, b)
  {
    assert [b][..0] == [];
  }

  lemma FeedOnce(x: Sums, b: Byte)
    ensures FeedAll(Residues(x), [b]) == Sums((x.s1 + b) % BASE, (x.s2 + (x.s1 + b) % BASE) % BASE)
  {
    FeedOne(Residues(x), b);
    ModAdd(x.s1, b);
    ModAdd(x.s2, (x.s1 + b) % BASE);
  }

  lemma PackInjective(s1: nat, s2: nat, t2: nat)
    ensures Pack(Sums(s1, s2)) == Pack(Sums(s1, t2)) <==> s2 == t2
  {
  }

  /** The branch for a single byte. */
  method SingleByte(x: Sums, b: Byte) returns (r: nat)
    requires x.s1 <= 65535 && x.s2 <= 65535
    ensures r == Pack(FeedAll(Residues(x), [b])) <==> x.s2 + (x.s1 + b) % BASE < 2 * BASE
  {
    hide Or, Shl, FeedAll, Pack, Residues;
    FeedOnce(x, b);
    OneSubtraction(x.s1 + b);
    ghost var f := (x.s1 + b) % BASE;
    OneSubtraction(x.s2 + f);
    var adler, sum2 := Add32(x.s1, b), x.s2;
    if adler >= BASE {
      adler := adler - BASE;
    }
    assert adler == f;
    sum2 := Add32(sum2, adler);
    if sum2 >= BASE {
      sum2 := sum2 - BASE;
    }
    PackInjective(f, sum2, (x.s2 + f) % BASE);
    Recombine(adler, sum2);
    return Or(adler, Shl(sum2, 16));
  }

  // ------------------------------------------------------------- closed form

  function Times(n: nat, x: nat): nat {
    n * x
  }

  lemma TimesMore(n: nat, x: nat)
    ensures Times(n + 1, x) == Times(n, x) + x
  {
    assert (n + 1) * x == n * x + x;
  }

  /** The bytes of buf from i on, added up. */
  function SumFrom(buf: seq<Byte>, i: nat): nat
    requires i <= |buf|
    decreases |buf| - i
  {
    if i == |buf| then 0 else buf[i] + SumFrom(buf, i + 1)
  }

  /** The same, each byte counted once for itself and for every byte behind it. */
  function WeightedFrom(buf: seq<Byte>, i: nat): nat
    requires i <= |buf|
    decreases |buf| - i
  {
    if i == |buf| then 0 else Times(|buf| - i, buf[i]) + WeightedFrom(buf, i + 1)
  }

  /** Section 2.2 of RFC 1950 without its recurrence: the low half is the sum of the bytes
      and the old low half, the high half adds up all the partial sums. */
  function ClosedForm(adler: nat, buf: seq<Byte>): nat {
    var a, b, n := adler % 65536, adler / 65536 % 65536, |buf|;
    (b + n * a + WeightedFrom(buf, 0)) % 65521 * 65536 + (a + SumFrom(buf, 0)) % 65521
  }

  lemma NoTimes(x: nat)
    ensures Times(0, x) == 0
  {
  }

  lemma {:induction false} SumSnoc(buf: seq<Byte>, x: Byte, i: nat)
    requires i <= |buf|
    ensures SumFrom(buf + [x], i) == SumFrom(buf, i) + x
    ensures WeightedFrom(buf + [x], i) == WeightedFrom(buf, i) + SumFrom(buf, i) + x
    decreases |buf| - i
  {
    hide Times;
    var more := buf + [x];
    if i < |buf| {
      SumSnoc(buf, x, i + 1);
      assert more[i] == buf[i];
      TimesMore(|buf| - i, buf[i]);
    } else {
      TimesMore(0, x);
      NoTimes(x);
      assert SumFrom(more, i + 1) == 0 && WeightedFrom(more, i + 1) == 0;
    }
  }

  lemma NoSums()
    ensures SumFrom([], 0) == 0 && WeightedFrom([], 0) == 0
  {
  }

  lemma {:induction false} RawClosed(x: Sums, buf: seq<Byte>)
    ensures RawAll(x, buf) == Sums(x.s1 + SumFrom(buf, 0), x.s2 + Times(|buf|, x.s1) + WeightedFrom(buf, 0))
  {
    hide Times, SumFrom, WeightedFrom;
    if buf == [] {
      NoTimes(x.s1);
      NoSums();
    } else {
      var front, last := buf[..|buf| - 1], buf[|buf| - 1];
      RawClosed(x, front);
      assert buf == front + [last];
      SumSnoc(front, last, 0);
      TimesMore(|front|, x.s1);
    }
  }

  /** The recurrence of the definition and the closed form agree. */
  lemma ChecksumClosed(adler: nat, buf: seq<Byte>)
    ensures Checksum(adler, buf) == ClosedForm(adler, buf)
  {
    hide RawAll, FeedAll;
    Deferred(Halves(adler), buf);
    RawClosed(Halves(adler), buf);
  }

  lemma NoSmallDivisor(d: nat)
    requires 2 <= d <= 256
    ensures 65521 % d != 0
  {
  }

  /** One of two factors of a number below 257 * 257 is at most 256. */
  lemma SmallCofactor(n: nat, q: nat, d: nat)
    requires q * d == n < 257 * 257 && 256 < d < n
    ensures 2 <= q <= 256
  {
    if q > 256 {
      MulGap(256, q, d);
      assert false;
    }
    if q < 2 {
      assert false;
    }
  }

  /** The modulus is a prime number. */
  lemma ModulusIsPrime(d: nat)
    requires 2 <= d < BASE
    ensures BASE % d != 0
  {
    if BASE % d == 0 {
      var q := BASE / d;
      assert q * d == BASE;
      if d <= 256 {
        NoSmallDivisor(d);
      } else {
        SmallCofactor(BASE, q, d);
        DivUnique(BASE, q, d);
        NoSmallDivisor(q);
      }
      assert false;
    }
  }

  /** And it is the largest one below 65536. */
  lemma LargestModulus(n: nat) returns (d: nat)
    requires BASE < n < 65536
    ensures 2 <= d < n && n % d == 0
  {
    d := if n % 2 == 0 then 2 else if n % 3 == 0 then 3 else if n % 5 == 0 then 5
         else if n == 65527 then 7 else if n == 65531 then 19 else 13;
    assert 65527 == 7 * 9361 && 65531 == 19 * 3449 && 65533 == 13 * 5041;
  }

  /** NMAX is the largest length that the bound of 32 bits allows. */
  lemma LargestBlock(n: nat)
    ensures 255 * n * (n + 1) / 2 + (n + 1) * 65520 <= 0xffff_ffff <==> n <= NMAX
  {
    if n <= 5552 {
      assert n * (n + 1) <= 5552 * 5553 by {
        if n < 5552 {
          MulGap(n, 5552, n + 1);
          MulGap(n, 5552, 5553);
        }
      }
    } else {
      assert n * (n + 1) >= 5553 * 5554;
    }
    assert 255 * n * (n + 1) == 255 * (n * (n + 1));
  }

  /** The buffer argument: NULL, or a pointer to some bytes. */
  datatype Buffer = Null | Bytes(data: seq<Byte>)

  lemma EmptySums(x: Sums)
    ensures RawAll(x, []) == x && FeedAll(x, []) == x
  {
  }

  /** Fifteen bytes add few multiples of BASE. */
  lemma ShortBound(x: Sums, buf: seq<Byte>)
    requires x.s1 <= 65535 && x.s2 <= 65535 && |buf| < 16
    ensures RawAll(x, buf).s1 < 2 * BASE && RawAll(x, buf).s2 < 32 * BASE
  {
    hide Limit, RawAll;
    RawBound(x, buf);
    LimitMono(|buf|, 15);
    LimitIs(15);
  }

  /** The branch for fewer than 16 bytes. */
  method ShortBuffer(adler0: nat, sum20: nat, buf: seq<Byte>) returns (r: nat)
    requires adler0 <= 65535 && sum20 <= 65535 && |buf| < 16
    ensures r == Pack(FeedAll(Residues(Sums(adler0, sum20)), buf))
  {
    hide Or, Shl, Reduce, FeedAll, RawAll, Mod4, Pack;
    ghost var x := Sums(adler0, sum20);
    var adler, sum2 := adler0, sum20;
    EmptySums(x);
    assert buf[0..0] == [];
    adler, sum2 := Accumulate(adler, sum2, buf, 0, |buf|, x, 0);
    assert buf[0..|buf|] == buf;
    ShortBound(x, buf);
    Deferred(x, buf);
    OneSubtraction(adler);
    if adler >= BASE {
      adler := adler - BASE;
    }
    ModIsMod(sum2);
    sum2 := Mod4(sum2);
    Recombine(adler, sum2);
    return Or(adler, Shl(sum2, 16));
  }

  /** The blocks of NMAX bytes and the rest. */
  method LongBuffer(adler0: nat, sum20: nat, buf: seq<Byte>) returns (r: nat)
    requires adler0 <= 65535 && sum20 <= 65535 && |buf| >= 16
    ensures r == Pack(FeedAll(Residues(Sums(adler0, sum20)), buf))
  {
    hide Or, Shl, Reduce, FeedAll, RawAll, Limit, Mod, Pack;
    ghost var x := Sums(adler0, sum20);
    var adler: nat, sum2: nat, pos: nat := adler0, sum20, 0;
    var len: nat := |buf|;
    EmptySums(Residues(x));
    assert buf[..0] == [];
    while len >= NMAX
      invariant pos + len == |buf| && adler <= 65535 && sum2 <= 65535
      invariant Residues(Sums(adler, sum2)) == FeedAll(Residues(x), buf[..pos])
      invariant pos > 0 ==> adler < BASE && sum2 < BASE
    {
      len := len - NMAX;
      ghost var y, start := Sums(adler, sum2), pos;
      EmptySums(y);
      assert buf[start..start] == [];
      var n := NMAX / 16;
      while n > 0
        invariant 0 <= n <= NMAX / 16 && pos == start + 16 * (NMAX / 16 - n)
        invariant Sums(adler, sum2) == RawAll(y, buf[start..pos])
        invariant adler < 0x1_0000_0000 && sum2 < 0x1_0000_0000
      {
        adler, sum2 := Accumulate(adler, sum2, buf, pos, pos + 16, y, start);
        pos := pos + 16;
        n := n - 1;
      }
      BlockDone(x, y, buf, start, pos);
      ModIsMod(adler);
      ModIsMod(sum2);
      adler := Mod(adler);
      sum2 := Mod(sum2);
    }
    if len > 0 {
      ghost var y, start := Sums(adler, sum2), pos;
      EmptySums(y);
      assert buf[start..start] == [];
      while len >= 16
        invariant 0 <= len && pos + len == |buf| && start <= pos
        invariant Sums(adler, sum2) == RawAll(y, buf[start..pos])
        invariant adler < 0x1_0000_0000 && sum2 < 0x1_0000_0000
      {
        len := len - 16;
        adler, sum2 := Accumulate(adler, sum2, buf, pos, pos + 16, y, start);
        pos := pos + 16;
      }
      adler, sum2 := Accumulate(adler, sum2, buf, pos, pos + len, y, start);
      pos := pos + len;
      BlockDone(x, y, buf, start, pos);
      ModIsMod(adler);
      ModIsMod(sum2);
      adler := Mod(adler);
      sum2 := Mod(sum2);
    }
    assert buf[..pos] == buf;
    Recombine(adler, sum2);
    return Or(adler, Shl(sum2, 16));
  }

  /** adler32 of the first `len` bytes.  A NULL buffer may come with any length but 1,
      for which the code would read through it. */
  method Update(adler0: nat, buf: Buffer, len: nat) returns (r: nat)
    requires adler0 < 0x1_0000_0000
    requires match buf case Null => len != 1 case Bytes(data) => len <= |data|
    ensures buf.Null? ==> r == 1
    ensures buf.Bytes? ==> (r == ClosedForm(adler0, buf.data[..len]) <==> Exact(adler0, buf.data[..len]))
    ensures buf.Bytes? ==> (r == Checksum(adler0, buf.data[..len]) <==> Exact(adler0, buf.data[..len]))
  {
    hide ClosedForm;
    if buf.Bytes? {
      ChecksumClosed(adler0, buf.data[..len]);
    }
    hide Or, Shl, Shr, And, Reduce, RawAll, FeedAll, Limit;
    SplitIs(adler0);
    ghost var x := Halves(adler0);
    var sum2 := And(Shr(adler0, 16), 0xffff);
    var adler := And(adler0, 0xffff);
    if len == 1 {
      assert buf.data[..len] == [buf.data[0]];
      r := SingleByte(Sums(adler, sum2), buf.data[0]);
      return;
    }
    if buf == Null {
      return 1;
    }
    if len < 16 {
      r := ShortBuffer(adler, sum2, buf.data[..len]);
      return;
    }
    r := LongBuffer(adler, sum2, buf.data[..len]);
  }

  /** A checksum that the code itself could have produced is never the exception. */
  lemma ReducedIsExact(adler: nat, buf: seq<Byte>)
    requires Halves(adler).s1 < BASE && Halves(adler).s2 < BASE
    ensures Exact(adler, buf)
  {
  }

  lemma ChecksumIsReduced(adler: nat, buf: seq<Byte>)
    ensures Halves(Checksum(adler, buf)).s1 < BASE && Halves(Checksum(adler, buf)).s2 < BASE
  {
    hide FeedAll, Pack, Halves, Residues;
    ResiduesReduced(Halves(adler));
    FeedReduced(Residues(Halves(adler)), buf);
    HalvesPack(FeedAll(Residues(Halves(adler)), buf));
  }

  /** The exception exists: halves 65520 and 65535 and the byte 0. */
  lemma UnreducedCanFail()
    ensures !Exact(65535 * 65536 + 65520, [0])
  {
  }
}
