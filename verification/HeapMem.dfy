/**
 packages/ti/sysbios/heaps/HeapMem.c: the first-fit allocator whose free list lives in the headers of the
 free blocks themselves.

 Memory is modelled by the headers it holds, by address. The header of the heap object, &obj->head, is at the
 address HEAD outside the buffer: its `next` starts the free list and its `size` is the size of the buffer.
 `x & (p - 1)` for a power of two p is written `x % p`; sums are reduced modulo 2^32 as the code does.
 */
module HeapMem {
  import opened Arithmetic
  import opened Base
  import opened HeapBlocks

  const NULL: int := 0
  const HEAD: int := -1
  const TWO32: int := 0x1_0000_0000

  function U32(x: int): int {
    x % TWO32
  }

  lemma NoWrap(x: int)
    requires 0 <= x < TWO32
    ensures U32(x) == x
  {
  }

  datatype Header = Header(next: int, size: int)

  /** Lines 276-278 and 404-406: a size rounded up to a multiple of minBlockAlign. */
  function AdjSize(size: int, unit: int): (r: int)
    requires unit > 0
    ensures size <= r < size + unit && r % unit == 0
  {
    var offset := size % unit;
    if offset != 0 then
      RoundUp(size, unit);
      size + (unit - offset)
    else size
  }

  /** Lines 267-271: the alignment used, at least minBlockAlign. */
  function AdjAlign(align: int, unit: int): (r: int)
    requires unit > 0 && align > 0
    ensures r > 0 && r % unit == 0
  {
    if align % unit != 0 then UnitMultiple(unit); unit else align
  }

  /** For powers of two the multiples of the alignment used are the multiples of both the one asked for and minBlockAlign. */
  lemma AdjAlignIsBoth(align: int, unit: int, a: int)
    requires PowerOfTwo(align) && PowerOfTwo(unit)
    ensures a % AdjAlign(align, unit) == 0 <==> a % align == 0 && a % unit == 0
  {
    AdjAlignIs(align, unit);
    hide AdjAlign, PowerOfTwo;
    if align < unit {
      if a % unit == 0 { DividesOn(a, unit, align); }
    } else {
      if a % align == 0 { DividesOn(a, align, unit); }
    }
  }

  /** The larger of the two, which the smaller divides. */
  lemma AdjAlignIs(align: int, unit: int)
    requires PowerOfTwo(align) && PowerOfTwo(unit)
    ensures 0 < align && 0 < unit
    ensures align < unit ==> AdjAlign(align, unit) == unit && unit % align == 0
    ensures unit <= align ==> AdjAlign(align, unit) == align && align % unit == 0
  {
    if align < unit {
      PowersDivide(align, unit);
      DivUnique(align, unit, 0, align);
    } else {
      PowersDivide(unit, align);
    }
  }

  /** Lines 296-299: the distance from an address to the next aligned one. */
  function Offset(addr: int, align: int): (r: int)
    requires align > 0
    ensures 0 <= r < align
  {
    var offset := addr % align;
    if offset != 0 then align - offset else 0
  }

  /** The 32-bit rounding is right exactly for sizes up to 2^32 - unit. Above that it wraps to 0. */
  lemma RoundingWrapsIff(size: int, unit: int)
    requires 0 < unit && 0 < size < TWO32 && TWO32 % unit == 0
    ensures U32(AdjSize(size, unit)) == AdjSize(size, unit) <==> size <= TWO32 - unit
    ensures size > TWO32 - unit ==> U32(AdjSize(size, unit)) == 0
  {
    var adj := AdjSize(size, unit);
    var q, k := TWO32 / unit, adj / unit;
    assert TWO32 == q * unit && adj == k * unit;
    assert (k - q) * unit == adj - TWO32;
    if adj > TWO32 - unit {
      SmallMultiple(k - q, unit);
    }
  }

  lemma UnitMultiple(unit: int)
    requires unit > 0
    ensures unit % unit == 0
  {
  }

  lemma RoundUp(x: int, a: int)
    requires a > 0
    ensures (x + (a - x % a)) % a == 0
  {
    var q := x / a;
    assert x == q * a + x % a;
    assert x + (a - x % a) == (q + 1) * a;
    MultipleMod(q + 1, a);
  }

  lemma MultipleMod(q: int, a: int)
    requires a > 0
    ensures (q * a) % a == 0
  {
    var m := q * a;
    assert (q - m / a) * a == m % a;
    SmallMultiple(q - m / a, a);
  }

  lemma SmallMultiple(k: int, a: int)
    requires a > 0 && -a < k * a < a
    ensures k == 0
  {
  }

  /** Offset leads to the first aligned address at or above addr. */
  lemma OffsetIsLeast(addr: int, align: int, a: int)
    requires align > 0
    ensures (addr + Offset(addr, align)) % align == 0
    ensures a >= addr && a % align == 0 ==> a >= addr + Offset(addr, align)
  {
    RoundUp(addr, align);
    if a >= addr && a % align == 0 && addr % align != 0 {
      var k, q := a / align, addr / align;
      assert a == k * align && addr == q * align + addr % align;
      if k > q {
        Scale(q + 1, k, align);
        Distribute(q, 1, align);
      } else {
        Scale(k, q, align);
      }
    }
  }

  lemma {:induction false} SumMultiple(x: int, y: int, a: int)
    requires a > 0 && x % a == 0 && y % a == 0
    ensures (x + y) % a == 0 && (x - y) % a == 0
  {
    var p, q := x / a, y / a;
    assert x == p * a && y == q * a;
    assert x + y == (p + q) * a && x - y == (p - q) * a;
    MultipleMod(p + q, a);
    MultipleMod(p - q, a);
  }

  /** An offset towards an alignment that is a multiple of unit is a multiple of unit itself. */
  lemma OffsetMultiple(addr: int, align: int, unit: int)
    requires unit > 0 && align > 0 && addr % unit == 0 && align % unit == 0
    ensures Offset(addr, align) % unit == 0
  {
    var q, u := addr / align, align / unit;
    assert align == u * unit;
    assert addr % align == addr - q * align;
    assert q * align == (q * u) * unit;
    MultipleMod(q * u, unit);
    SumMultiple(addr, q * align, unit);
    SumMultiple(align, addr % align, unit);
  }

  // ---------------------------------------------------------------- first fit

  /** Block b can serve a request of n bytes at the alignment. */
  ghost predicate Fits(b: Block, n: int, align: int)
    requires align > 0
  {
    b.size >= n + Offset(b.addr, align)
  }

  lemma RunFits(free: seq<Block>, a: int, n: int, align: int) returns (i: int)
    requires Separated(free) && n > 0 && align > 0 && a % align == 0 && IsRun(free, a, n)
    ensures 0 <= i < |free| && Fits(free[i], n, align) && free[i].addr + Offset(free[i].addr, align) <= a
  {
    i := RunInOneBlock(free, a, n);
    OffsetIsLeast(free[i].addr, align, a);
  }

  /** The first block that fits holds the lowest aligned run of free bytes there is. */
  lemma FirstFitIsLeast(free: seq<Block>, i: int, n: int, align: int)
    requires Separated(free) && n > 0 && align > 0 && 0 <= i < |free| && Fits(free[i], n, align)
    requires forall j :: 0 <= j < i ==> !Fits(free[j], n, align)
    ensures Lowest(free, n, align, free[i].addr + Offset(free[i].addr, align))
  {
    var r := free[i].addr + Offset(free[i].addr, align);
    OffsetIsLeast(free[i].addr, align, r);
    assert forall x :: r <= x < r + n ==> free[i].Has(x);
    forall a | a % align == 0 && IsRun(free, a, n) ensures r <= a {
      var k := RunFits(free, a, n, align);
      assert k >= i;
      if k > i {
        assert free[i].End() < free[k].addr;
      }
    }
  }

  lemma NothingFits(free: seq<Block>, n: int, align: int)
    requires Separated(free) && n > 0 && align > 0
    requires forall j :: 0 <= j < |free| ==> !Fits(free[j], n, align)
    ensures NoRun(free, n, align)
  {
    forall a | a % align == 0 ensures !IsRun(free, a, n) {
      if IsRun(free, a, n) {
        var k := RunFits(free, a, n, align);
      }
    }
  }

  // ---------------------------------------------------------------- the test of the search in 32 bits

  /** Line 305: the test as the code makes it, on a sum that may wrap. */
  ghost predicate Accepts(b: Block, n: int, align: int)
    requires align > 0
  {
    b.size >= U32(n + Offset(b.addr, align))
  }

  /** It is right unless the sum wraps to no more than the block holds. */
  lemma TestRightIff(b: Block, n: int, align: int)
    requires align > 0 && n > 0 && 0 < b.size < TWO32
    ensures (Accepts(b, n, align) <==> Fits(b, n, align)) <==>
              n + Offset(b.addr, align) < TWO32 || b.size < U32(n + Offset(b.addr, align))
  {
  }

  ghost predicate NoneFits(free: seq<Block>, i: int, n: int, align: int)
    requires align > 0
  {
    forall j :: 0 <= j < i && j < |free| ==> !Fits(free[j], n, align)
  }

  /** The test is right at every block up to the first that fits. */
  ghost predicate SearchRight(free: seq<Block>, n: int, align: int)
    requires align > 0
  {
    forall i :: 0 <= i < |free| && NoneFits(free, i, n, align) ==> (Accepts(free[i], n, align) <==> Fits(free[i], n, align))
  }

  /** The position at which the search stops, from position i on. */
  ghost function Stop(free: seq<Block>, n: int, align: int, i: nat): (r: nat)
    requires align > 0 && i <= |free|
    ensures i <= r <= |free| && (r < |free| ==> Accepts(free[r], n, align))
    ensures forall j :: i <= j < r ==> !Accepts(free[j], n, align)
    decreases |free| - i
  {
    if i == |free| || Accepts(free[i], n, align) then i else Stop(free, n, align, i + 1)
  }

  /** What the search answers is right: there is no run, or n bytes are free from the address it returns on. */
  ghost predicate AnswerRight(free: seq<Block>, n: int, align: int)
    requires align > 0
  {
    var i := Stop(free, n, align, 0);
    if i < |free| then IsRun(free, free[i].addr + Offset(free[i].addr, align), n) else NoRun(free, n, align)
  }

  /** A block that does not fit is accepted only where its run would end outside the 32-bit address space. */
  lemma WronglyAccepted(free: seq<Block>, i: int, n: int, align: int, lo: int, hi: int, unit: int)
    requires Separated(free) && align > 0 && n > 0 && unit > 0 && 0 < lo && hi <= TWO32 && Aligned(free, lo, hi, unit)
    requires 0 <= i < |free| && Accepts(free[i], n, align) && !Fits(free[i], n, align)
    ensures !IsRun(free, free[i].addr + Offset(free[i].addr, align), n)
  {
    var r := free[i].addr + Offset(free[i].addr, align);
    assert forall k :: 0 <= k < |free| ==> free[k].End() <= hi;
    if IsRun(free, r, n) {
      var k := RunInOneBlock(free, r, n);
    }
  }

  /** allocUnprotected finds what it should, for every request there is, exactly if the test is right up to the first fit. */
  lemma AnswerRightIff(free: seq<Block>, n: int, align: int, lo: int, hi: int, unit: int)
    requires Separated(free) && align > 0 && n > 0 && unit > 0 && 0 < lo && hi <= TWO32 && Aligned(free, lo, hi, unit)
    ensures AnswerRight(free, n, align) <==> SearchRight(free, n, align)
  {
    hide *;
    if SearchRight(free, n, align) {
      RightSearchAnswers(free, n, align);
    } else {
      WrongSearchAnswers(free, n, align, lo, hi, unit);
    }
  }

  lemma RightSearchAnswers(free: seq<Block>, n: int, align: int)
    requires Separated(free) && align > 0 && n > 0 && SearchRight(free, n, align)
    ensures AnswerRight(free, n, align)
  {
    hide Accepts, Fits, Separated, Offset, U32, IsRun, SearchRight;
    var i := Stop(free, n, align, 0);
    StopFits(free, n, align, i);
    if i < |free| {
      FirstFitIsLeast(free, i, n, align);
    } else {
      NothingFits(free, n, align);
    }
  }

  lemma WrongSearchAnswers(free: seq<Block>, n: int, align: int, lo: int, hi: int, unit: int)
    requires Separated(free) && align > 0 && n > 0 && unit > 0 && 0 < lo && hi <= TWO32 && Aligned(free, lo, hi, unit)
    requires !SearchRight(free, n, align)
    ensures !AnswerRight(free, n, align)
  {
    var i := Stop(free, n, align, 0);
    hide Accepts, Fits, Aligned, Offset, U32, IsRun;
    var k :| 0 <= k < |free| && NoneFits(free, k, n, align) && !(Accepts(free[k], n, align) <==> Fits(free[k], n, align));
    AlignedAt(free, k, lo, hi, unit);
    FitsAccepted(free[k], n, align, lo, hi);
    assert i <= k;
    WronglyAccepted(free, i, n, align, lo, hi, unit);
  }

  lemma FitsAccepted(b: Block, n: int, align: int, lo: int, hi: int)
    requires align > 0 && n > 0 && 0 < b.size && 0 < lo <= b.addr && b.End() <= hi <= TWO32
    ensures Fits(b, n, align) ==> Accepts(b, n, align)
  {
  }

  /** While the test is right, no block before the stop fits. */
  lemma {:induction false} StopFits(free: seq<Block>, n: int, align: int, i: nat)
    requires align > 0 && SearchRight(free, n, align) && i <= |free| && forall j :: 0 <= j < i ==> !Accepts(free[j], n, align)
    ensures NoneFits(free, i, n, align)
    ensures i < |free| && Accepts(free[i], n, align) ==> Fits(free[i], n, align)
  {
    hide Accepts, Fits;
    if i > 0 {
      StopFits(free, n, align, i - 1);
    }
  }

  /**
   A request that the test gets wrong: 2^32 - 16 bytes at alignment 32, units of 8. The rounded size does not wrap; with a
   header 16 bytes past a multiple of 32 the sum does, to 0, and a block of 64 bytes is taken for large enough.
   */
  lemma WrappedSumAccepts()
    ensures var free := [Block(0x1010, 64)];
            var n := AdjSize(TWO32 - 16, 8);
            && n == TWO32 - 16 && U32(n) == n && Separated(free) && Aligned(free, 0x1010, 0x1050, 8)
            && Stop(free, n, 32, 0) == 0 && !SearchRight(free, n, 32) && !AnswerRight(free, n, 32)
  {
    var free := [Block(0x1010, 64)];
    var n := TWO32 - 16;
    assert Offset(0x1010, 32) == 16;
    assert Accepts(free[0], n, 32) && !Fits(free[0], n, 32) && NoneFits(free, 0, n, 32);
    WronglyAccepted(free, 0, n, 32, 0x1010, 0x1050, 8);
  }

  // ---------------------------------------------------------------- replacing a stretch of the list

  ghost function Splice(free: seq<Block>, p: int, q: int, mid: seq<Block>): seq<Block>
    requires 0 <= p <= q <= |free|
  {
    free[..p] + mid + free[q..]
  }

  lemma CoversConcat(a: seq<Block>, b: seq<Block>, x: int)
    ensures Covers(a + b, x) <==> Covers(a, x) || Covers(b, x)
  {
    var c := a + b;
    if Covers(c, x) {
      var i :| 0 <= i < |c| && c[i].Has(x);
      assert if i < |a| then a[i].Has(x) else b[i - |a|].Has(x);
    }
    if Covers(a, x) {
      var i :| 0 <= i < |a| && a[i].Has(x);
      assert c[i].Has(x);
    }
    if Covers(b, x) {
      var i :| 0 <= i < |b| && b[i].Has(x);
      assert c[|a| + i].Has(x);
    }
  }

  /** Only the replaced stretch matters to what is covered. */
  lemma SpliceCovers(free: seq<Block>, p: int, q: int, mid: seq<Block>, x: int)
    requires 0 <= p <= q <= |free|
    ensures Covers(Splice(free, p, q, mid), x) <==> Covers(free[..p], x) || Covers(mid, x) || Covers(free[q..], x)
    ensures Covers(free, x) <==> Covers(free[..p], x) || Covers(free[p..q], x) || Covers(free[q..], x)
  {
    CoversConcat(free[..p] + mid, free[q..], x);
    CoversConcat(free[..p], mid, x);
    CoversConcat(free[..p] + free[p..q], free[q..], x);
    CoversConcat(free[..p], free[p..q], x);
    assert free == free[..p] + free[p..q] + free[q..];
  }

  /** mid lies strictly between its neighbours. */
  ghost predicate Nested(free: seq<Block>, p: int, q: int, mid: seq<Block>)
    requires 0 <= p <= q <= |free|
  {
    && (0 < p ==> forall k :: 0 <= k < |mid| ==> free[p - 1].End() < mid[k].addr)
    && (q < |free| ==> forall k :: 0 <= k < |mid| ==> mid[k].End() < free[q].addr)
  }

  lemma SpliceSeparated(free: seq<Block>, p: int, q: int, mid: seq<Block>)
    requires 0 <= p <= q <= |free| && Separated(free) && Separated(mid) && Nested(free, p, q, mid)
    ensures Separated(Splice(free, p, q, mid))
  {
    var r := Splice(free, p, q, mid);
    var n := |mid|;
    forall i | 0 <= i < |r| ensures r[i].size > 0 {
    }
    forall i, j | 0 <= i < j < |r| ensures r[i].End() < r[j].addr {
      if j < p {
      } else if i < p && j < p + n {
        assert free[i].End() <= free[p - 1].End();
      } else if i < p {
        assert r[j] == free[j - p - n + q];
      } else if j < p + n {
      } else if i < p + n {
        assert r[j] == free[j - p - n + q] && free[q].addr <= r[j].addr;
      } else {
        assert r[i] == free[i - p - n + q] && r[j] == free[j - p - n + q];
      }
    }
  }

  lemma SpliceAligned(free: seq<Block>, p: int, q: int, mid: seq<Block>, lo: int, hi: int, unit: int)
    requires unit > 0 && 0 <= p <= q <= |free| && Aligned(free, lo, hi, unit) && Aligned(mid, lo, hi, unit)
    ensures Aligned(Splice(free, p, q, mid), lo, hi, unit)
  {
  }

  ghost function AddrAt(free: seq<Block>, i: int): int
    requires 0 <= i
  {
    if i < |free| then free[i].addr else NULL
  }

  /** The headers in memory spell the list `free`; the head records the size of the buffer. */
  ghost predicate Spells(mem: map<int, Header>, free: seq<Block>, total: int) {
    && HEAD in mem && mem[HEAD] == Header(AddrAt(free, 0), total)
    && forall i :: 0 <= i < |free| ==>
         free[i].addr in mem && mem[free[i].addr] == Header(AddrAt(free, i + 1), free[i].size)
  }

  /** The header that points at position p. */
  ghost function Pred(free: seq<Block>, p: int): int
    requires 0 <= p <= |free|
  {
    if p == 0 then HEAD else free[p - 1].addr
  }

  lemma SpliceAddr(free: seq<Block>, p: int, q: int, mid: seq<Block>, i: int)
    requires 0 <= p <= q <= |free| && 0 <= i
    ensures var r := Splice(free, p, q, mid);
            && (i < p ==> i < |r| && r[i] == free[i] && AddrAt(r, i) == free[i].addr)
            && (p <= i < p + |mid| ==> i < |r| && r[i] == mid[i - p] && AddrAt(r, i) == mid[i - p].addr)
            && (p + |mid| <= i < |r| ==> r[i] == free[i - p - |mid| + q])
            && (p + |mid| <= i ==> AddrAt(r, i) == AddrAt(free, i - p - |mid| + q))
  {
  }

  /** The header found at position i of a list in memory. */
  lemma HeaderAt(mem: map<int, Header>, free: seq<Block>, total: int, i: int)
    requires Spells(mem, free, total) && 0 <= i <= |free|
    ensures Pred(free, i) in mem && mem[Pred(free, i)].next == AddrAt(free, i)
    ensures mem[Pred(free, i)].size == if i == 0 then total else free[i - 1].size
    ensures i < |free| ==> free[i].addr in mem && mem[free[i].addr] == Header(AddrAt(free, i + 1), free[i].size)
  {
  }

  /** What block k of a stretch that continues at `far` must point to. */
  ghost function NextAddr(mid: seq<Block>, k: int, far: int): int
    requires 0 <= k < |mid|
  {
    if k + 1 < |mid| then mid[k + 1].addr else far
  }

  /** The headers outside the stretch [p, q) and its predecessor are as before. */
  ghost predicate Kept(mem: map<int, Header>, mem': map<int, Header>, free: seq<Block>, p: int, q: int)
    requires 0 <= p <= q <= |free|
  {
    && (forall j :: 0 <= j < |free| && (j < p - 1 || q <= j) && free[j].addr in mem ==>
          free[j].addr in mem' && mem'[free[j].addr] == mem[free[j].addr])
    && (p > 0 && HEAD in mem ==> HEAD in mem' && mem'[HEAD] == mem[HEAD])
  }

  /** The header at prev leads into the blocks mid, and they lead on to `far`. */
  ghost predicate Linked(mem: map<int, Header>, prev: int, prevSize: int, mid: seq<Block>, far: int) {
    && prev in mem && mem[prev] == Header(if mid == [] then far else mid[0].addr, prevSize)
    && (forall k :: 0 <= k < |mid| ==>
          mid[k].addr in mem && mem[mid[k].addr] == Header(NextAddr(mid, k, far), mid[k].size))
  }

  ghost predicate Rewritten(mem: map<int, Header>, mem': map<int, Header>, free: seq<Block>, p: int, q: int, mid: seq<Block>, total: int)
    requires 0 <= p <= q <= |free|
  {
    Kept(mem, mem', free, p, q) && Linked(mem', Pred(free, p), if p == 0 then total else free[p - 1].size, mid, AddrAt(free, q))
  }

  /** Rewriting the predecessor of a stretch and the headers of the stretch itself replaces the stretch. */
  lemma SpliceSpells(mem: map<int, Header>, mem': map<int, Header>, free: seq<Block>, p: int, q: int, mid: seq<Block>, total: int)
    requires 0 <= p <= q <= |free| && Spells(mem, free, total) && Rewritten(mem, mem', free, p, q, mid, total)
    ensures Spells(mem', Splice(free, p, q, mid), total)
  {
    var r := Splice(free, p, q, mid);
    SpliceAddr(free, p, q, mid, 0);
    HeaderAt(mem, free, total, 0);
    forall i | 0 <= i < |r|
      ensures r[i].addr in mem' && mem'[r[i].addr] == Header(AddrAt(r, i + 1), r[i].size)
    {
      SpliceNode(mem, mem', free, p, q, mid, total, i);
    }
  }

  lemma SpliceNode(mem: map<int, Header>, mem': map<int, Header>, free: seq<Block>, p: int, q: int, mid: seq<Block>, total: int, i: int)
    requires 0 <= p <= q <= |free| && Spells(mem, free, total) && Rewritten(mem, mem', free, p, q, mid, total)
    requires 0 <= i < |Splice(free, p, q, mid)|
    ensures var r := Splice(free, p, q, mid);
            r[i].addr in mem' && mem'[r[i].addr] == Header(AddrAt(r, i + 1), r[i].size)
  {
    SpliceAddr(free, p, q, mid, i);
    SpliceAddr(free, p, q, mid, i + 1);
    hide Splice;
    if i < p {
      HeaderAt(mem, free, total, i);
      if i == p - 1 {
        assert Pred(free, p) == free[i].addr;
      }
    } else if i < p + |mid| {
      var k := i - p;
      assert mid[k].addr in mem' && mem'[mid[k].addr].size == mid[k].size;
      if k + 1 == |mid| {
        assert i + 1 - p - |mid| + q == q;
      }
    } else {
      HeaderAt(mem, free, total, i - p - |mid| + q);
    }
  }

  // ---------------------------------------------------------------- carving

  /** What is left of block b when n bytes at `offset` are taken out of it. */
  ghost function Pieces(b: Block, offset: int, n: int): seq<Block> {
    (if offset != 0 then [Block(b.addr, offset)] else []) +
    (if b.size - n - offset != 0 then [Block(b.addr + offset + n, b.size - n - offset)] else [])
  }

  ghost function CarvedList(free: seq<Block>, i: int, offset: int, n: int): seq<Block>
    requires 0 <= i < |free|
  {
    Splice(free, i, i + 1, Pieces(free[i], offset, n))
  }

  lemma PiecesCover(b: Block, offset: int, n: int, x: int)
    requires 0 <= offset && 0 < n && offset + n <= b.size
    ensures Covers(Pieces(b, offset, n), x) <==> b.Has(x) && !(b.addr + offset <= x < b.addr + offset + n)
  {
    var pieces := Pieces(b, offset, n);
    var rest := b.size - n - offset;
    assert offset != 0 ==> pieces[0] == Block(b.addr, offset);
    assert rest != 0 ==> pieces[|pieces| - 1] == Block(b.addr + offset + n, rest);
    if b.Has(x) && x < b.addr + offset {
      assert pieces[0].Has(x);
    }
    if b.Has(x) && x >= b.addr + offset + n {
      assert pieces[|pieces| - 1].Has(x);
    }
  }

  lemma PiecesAligned(b: Block, offset: int, n: int, lo: int, hi: int, unit: int)
    requires unit > 0 && Aligned([b], lo, hi, unit)
    requires 0 <= offset && 0 < n && offset % unit == 0 && n % unit == 0 && offset + n <= b.size
    ensures Aligned(Pieces(b, offset, n), lo, hi, unit) && Separated(Pieces(b, offset, n))
  {
    assert [b][0] == b;
    SumMultiple(b.addr, offset, unit);
    SumMultiple(b.addr + offset, n, unit);
    SumMultiple(b.size, n, unit);
    SumMultiple(b.size - n, offset, unit);
  }

  lemma CarveList(free: seq<Block>, i: int, offset: int, n: int, lo: int, hi: int, unit: int)
    requires unit > 0 && Separated(free) && Aligned(free, lo, hi, unit) && 0 <= i < |free|
    requires 0 <= offset && 0 < n && offset % unit == 0 && n % unit == 0 && offset + n <= free[i].size
    ensures Separated(CarvedList(free, i, offset, n)) && Aligned(CarvedList(free, i, offset, n), lo, hi, unit)
    ensures Taken(free, CarvedList(free, i, offset, n), free[i].addr + offset, n)
  {
    var b := free[i];
    var pieces := Pieces(b, offset, n);
    assert Aligned([b], lo, hi, unit);
    PiecesAligned(b, offset, n, lo, hi, unit);
    SpliceSeparated(free, i, i + 1, pieces);
    SpliceAligned(free, i, i + 1, pieces, lo, hi, unit);
    forall x ensures Covers(CarvedList(free, i, offset, n), x) <==>
                       Covers(free, x) && !(b.addr + offset <= x < b.addr + offset + n)
    {
      CarveCovers(free, i, offset, n, x);
    }
    assert forall x :: b.addr + offset <= x < b.addr + offset + n ==> b.Has(x);
  }

  lemma CarveCovers(free: seq<Block>, i: int, offset: int, n: int, x: int)
    requires Separated(free) && 0 <= i < |free| && 0 <= offset && 0 < n && offset + n <= free[i].size
    ensures Covers(CarvedList(free, i, offset, n), x) <==>
              Covers(free, x) && !(free[i].addr + offset <= x < free[i].addr + offset + n)
  {
    SpliceCovers(free, i, i + 1, Pieces(free[i], offset, n), x);
    PiecesCover(free[i], offset, n, x);
    OneBlock(free, i, x);
  }

  /** A byte of block i is in no other block. */
  lemma OneBlock(free: seq<Block>, i: int, x: int)
    requires Separated(free) && 0 <= i < |free|
    ensures Covers(free[i..i + 1], x) <==> free[i].Has(x)
    ensures free[i].Has(x) ==> !Covers(free[..i], x) && !Covers(free[i + 1..], x)
  {
    assert free[i..i + 1][0] == free[i];
    if free[i].Has(x) {
      forall j | 0 <= j < i ensures !free[..i][j].Has(x) {
        assert free[j].End() < free[i].addr;
      }
      var tail := free[i + 1..];
      forall j | 0 <= j < |tail| ensures !tail[j].Has(x) {
        assert tail[j] == free[i + 1 + j];
      }
    }
  }

  // ---------------------------------------------------------------- coalescing

  ghost predicate JoinsUp(free: seq<Block>, i: int, b: Block)
    requires 0 <= i <= |free|
  {
    i < |free| && b.End() == free[i].addr
  }

  ghost predicate JoinsDown(free: seq<Block>, i: int, b: Block)
    requires 0 <= i <= |free|
  {
    0 < i && free[i - 1].End() == b.addr
  }

  ghost function JoinedBlock(free: seq<Block>, i: int, b: Block): Block
    requires 0 <= i <= |free|
  {
    Block(if JoinsDown(free, i, b) then free[i - 1].addr else b.addr,
          b.size + (if JoinsUp(free, i, b) then free[i].size else 0) + (if JoinsDown(free, i, b) then free[i - 1].size else 0))
  }

  ghost function JoinLo(free: seq<Block>, i: int, b: Block): int
    requires 0 <= i <= |free|
  {
    if JoinsDown(free, i, b) then i - 1 else i
  }

  ghost function JoinHi(free: seq<Block>, i: int, b: Block): int
    requires 0 <= i <= |free|
  {
    if JoinsUp(free, i, b) then i + 1 else i
  }

  /** The list with b put before position i and merged with the neighbours it touches. */
  ghost function JoinedList(free: seq<Block>, i: int, b: Block): seq<Block>
    requires 0 <= i <= |free|
  {
    Splice(free, JoinLo(free, i, b), JoinHi(free, i, b), [JoinedBlock(free, i, b)])
  }

  /** b belongs between the blocks i - 1 and i. */
  ghost predicate Between(free: seq<Block>, i: int, b: Block)
    requires 0 <= i <= |free|
  {
    (0 < i ==> free[i - 1].End() <= b.addr) && (i < |free| ==> b.End() <= free[i].addr)
  }

  lemma NeighboursClear(free: seq<Block>, i: int, b: Block)
    requires Separated(free) && 0 <= i <= |free| && b.size > 0
    requires forall x :: b.Has(x) ==> !Covers(free, x)
    requires forall j :: 0 <= j < i ==> free[j].addr < b.addr
    requires i < |free| ==> b.addr <= free[i].addr
    ensures Between(free, i, b)
  {
    if 0 < i && b.addr < free[i - 1].End() {
      assert free[i - 1].Has(b.addr) && b.Has(b.addr);
    }
    if i < |free| && free[i].addr < b.End() {
      assert free[i].Has(free[i].addr) && b.Has(free[i].addr);
    }
  }

  lemma JoinedAligned(free: seq<Block>, i: int, b: Block, lo: int, hi: int, unit: int)
    requires unit > 0 && Aligned(free, lo, hi, unit) && 0 <= i <= |free| && Separated(free)
    requires b.size > 0 && lo <= b.addr && b.End() <= hi && b.addr % unit == 0 && b.size % unit == 0
    ensures Aligned([JoinedBlock(free, i, b)], lo, hi, unit)
  {
    var up := if JoinsUp(free, i, b) then free[i].size else 0;
    var down := if JoinsDown(free, i, b) then free[i - 1].size else 0;
    UnitMultiple(unit);
    SumMultiple(b.size, up, unit);
    SumMultiple(b.size + up, down, unit);
  }

  lemma JoinList(free: seq<Block>, i: int, b: Block, lo: int, hi: int, unit: int)
    requires unit > 0 && Separated(free) && Aligned(free, lo, hi, unit) && 0 <= i <= |free| && Between(free, i, b)
    requires b.size > 0 && lo <= b.addr && b.End() <= hi && b.addr % unit == 0 && b.size % unit == 0
    requires forall x :: b.Has(x) ==> !Covers(free, x)
    ensures Separated(JoinedList(free, i, b)) && Aligned(JoinedList(free, i, b), lo, hi, unit)
    ensures Given(free, JoinedList(free, i, b), b.addr, b.size)
  {
    var mid := [JoinedBlock(free, i, b)];
    JoinedAligned(free, i, b, lo, hi, unit);
    JoinedNested(free, i, b);
    SpliceSeparated(free, JoinLo(free, i, b), JoinHi(free, i, b), mid);
    SpliceAligned(free, JoinLo(free, i, b), JoinHi(free, i, b), mid, lo, hi, unit);
    forall x ensures Covers(JoinedList(free, i, b), x) <==> Covers(free, x) || b.addr <= x < b.addr + b.size {
      JoinCovers(free, i, b, x);
    }
    assert forall x :: b.addr <= x < b.addr + b.size ==> b.Has(x);
  }

  /** Coalescing is complete: after it the block touches neither neighbour. */
  lemma JoinedNested(free: seq<Block>, i: int, b: Block)
    requires Separated(free) && 0 <= i <= |free| && Between(free, i, b) && b.size > 0
    ensures Nested(free, JoinLo(free, i, b), JoinHi(free, i, b), [JoinedBlock(free, i, b)])
    ensures Separated([JoinedBlock(free, i, b)])
  {
  }

  lemma JoinCovers(free: seq<Block>, i: int, b: Block, x: int)
    requires Separated(free) && 0 <= i <= |free| && Between(free, i, b) && b.size > 0
    ensures Covers(JoinedList(free, i, b), x) <==> Covers(free, x) || b.Has(x)
  {
    var p, q := JoinLo(free, i, b), JoinHi(free, i, b);
    var mid := [JoinedBlock(free, i, b)];
    SpliceCovers(free, p, q, mid, x);
    assert Covers(mid, x) <==> mid[0].Has(x);
    JoinMiddle(free, i, b, x);
  }

  lemma JoinMiddle(free: seq<Block>, i: int, b: Block, x: int)
    requires Separated(free) && 0 <= i <= |free| && Between(free, i, b) && b.size > 0
    ensures JoinedBlock(free, i, b).Has(x) <==>
              b.Has(x) || Covers(free[JoinLo(free, i, b)..JoinHi(free, i, b)], x)
  {
    var p, q := JoinLo(free, i, b), JoinHi(free, i, b);
    var mid := free[p..q];
    assert JoinsDown(free, i, b) ==> mid[0] == free[i - 1];
    assert JoinsUp(free, i, b) ==> mid[|mid| - 1] == free[i];
    if JoinsDown(free, i, b) && free[i - 1].Has(x) {
      assert mid[0].Has(x);
    }
    if JoinsUp(free, i, b) && free[i].Has(x) {
      assert mid[|mid| - 1].Has(x);
    }
    if Covers(mid, x) {
      var k :| 0 <= k < |mid| && mid[k].Has(x);
      assert mid[k] == free[p + k];
    }
  }

  /** r is the lowest aligned address at which n bytes are free. */
  ghost predicate Lowest(free: seq<Block>, n: int, align: int, r: int)
    requires align > 0
  {
    && r % align == 0 && IsRun(free, r, n)
    && forall a :: a % align == 0 && IsRun(free, a, n) ==> r <= a
  }

  ghost predicate NoRun(free: seq<Block>, n: int, align: int)
    requires align > 0
  {
    forall a :: a % align == 0 ==> !IsRun(free, a, n)
  }

  /** The contract of an allocation of n bytes at the alignment, r being the address returned. */
  ghost predicate Allocated(free: seq<Block>, free': seq<Block>, n: int, align: int, r: int)
    requires align > 0
  {
    if r == NULL then free' == free && NoRun(free, n, align)
    else Taken(free, free', r, n) && Lowest(free, n, align, r)
  }

  /** n free bytes from a on, at the alignment asked for and at minBlockAlign. */
  ghost predicate RunFor(free: seq<Block>, n: int, align: int, unit: int, a: int)
    requires align > 0 && unit > 0
  {
    a % align == 0 && a % unit == 0 && IsRun(free, a, n)
  }

  /** What the alignment used means for the caller. */
  lemma AllocatedFor(free: seq<Block>, free': seq<Block>, n: int, align: int, unit: int, r: int)
    requires PowerOfTwo(align) && PowerOfTwo(unit) && Allocated(free, free', n, AdjAlign(align, unit), r)
    ensures r != NULL ==> RunFor(free, n, align, unit, r) && forall a :: RunFor(free, n, align, unit, a) ==> r <= a
    ensures r == NULL <==> forall a :: !RunFor(free, n, align, unit, a)
  {
    hide IsRun, AdjAlign, Taken;
    forall a ensures a % AdjAlign(align, unit) == 0 <==> a % align == 0 && a % unit == 0 {
      AdjAlignIsBoth(align, unit, a);
    }
  }

  lemma AllocatedFields(free: seq<Block>, free': seq<Block>, n: int, align: int, r: int)
    requires align > 0 && Allocated(free, free', n, align, r)
    ensures (r == NULL ==> free' == free) && (r != NULL ==> Taken(free, free', r, n))
  {
  }

  /** The free list and the blocks that are allocated. */
  datatype Snapshot = Snapshot(free: seq<Block>, live: set<Block>)

  /** One call of alloc: n bytes at the alignment, rounded, at address r. */
  ghost predicate AllocStep(s: Snapshot, t: Snapshot, n: int, align: int, r: int) {
    && n > 0 && align > 0 && Separated(t.free)
    && Allocated(s.free, t.free, n, align, r)
    && t.live == if r == NULL then s.live else s.live + {Block(r, n)}
  }

  /** One call of free on a live block. */
  ghost predicate FreeStep(s: Snapshot, t: Snapshot, b: Block) {
    && b in s.live && Separated(t.free)
    && Given(s.free, t.free, b.addr, b.size)
    && t.live == s.live - {b}
  }

  /** Distinct blocks have distinct headers, none inside another block. */
  lemma AddrsApart(free: seq<Block>, i: int, j: int)
    requires Separated(free) && 0 <= i < |free| && 0 <= j < |free|
    ensures free[i].Has(free[j].addr) ==> i == j
    ensures i < j ==> free[i].End() < free[j].addr
  {
  }

  ghost predicate Positive(free: seq<Block>) {
    forall i :: 0 <= i < |free| ==> 0 < free[i].addr
  }

  /** Lines 308-363: the headers after block i has given up n bytes following `offset` bytes that stay free. */
  function CarvedMem(mem: map<int, Header>, prev: int, cur: int, offset: int, n: int): map<int, Header>
    requires prev in mem && cur in mem
  {
    var far := mem[cur].next;
    var rest := mem[cur].size - n - offset;
    var newHeader := cur + offset + n;
    if offset != 0 then
      if rest != 0 then mem[cur := Header(newHeader, offset)][newHeader := Header(far, rest)]
      else mem[cur := Header(far, offset)]
    else
      if rest != 0 then mem[newHeader := Header(far, rest)][prev := Header(newHeader, mem[prev].size)]
      else mem[prev := Header(far, mem[prev].size)]
  }

  lemma CarveSpells(mem: map<int, Header>, free: seq<Block>, total: int, i: int, offset: int, n: int)
    requires Spells(mem, free, total) && Separated(free) && Positive(free)
    requires 0 <= i < |free| && 0 <= offset && 0 < n && offset + n <= free[i].size
    ensures Pred(free, i) in mem && free[i].addr in mem
    ensures Spells(CarvedMem(mem, Pred(free, i), free[i].addr, offset, n), CarvedList(free, i, offset, n), total)
  {
    HeaderAt(mem, free, total, i);
    var pieces := Pieces(free[i], offset, n);
    var mem' := CarvedMem(mem, Pred(free, i), free[i].addr, offset, n);
    CarveRewrites(mem, free, total, i, offset, n);
    SpliceSpells(mem, mem', free, i, i + 1, pieces, total);
  }

  lemma CarveRewrites(mem: map<int, Header>, free: seq<Block>, total: int, i: int, offset: int, n: int)
    requires Spells(mem, free, total) && Separated(free) && Positive(free)
    requires 0 <= i < |free| && 0 <= offset && 0 < n && offset + n <= free[i].size
    requires Pred(free, i) in mem && free[i].addr in mem
    ensures Rewritten(mem, CarvedMem(mem, Pred(free, i), free[i].addr, offset, n), free, i, i + 1, Pieces(free[i], offset, n), total)
  {
    HeaderAt(mem, free, total, i);
    PredBelow(free, i);
    CarveKeeps(mem, free, i, offset, n);
    CarveNew(mem, Pred(free, i), free[i], AddrAt(free, i + 1), offset, n);
    hide Spells, Separated, Pieces, CarvedMem, Kept, Linked;
  }

  lemma CarveKeeps(mem: map<int, Header>, free: seq<Block>, i: int, offset: int, n: int)
    requires Separated(free) && Positive(free)
    requires 0 <= i < |free| && 0 <= offset && 0 < n && offset + n <= free[i].size
    requires Pred(free, i) in mem && free[i].addr in mem && mem[free[i].addr].size == free[i].size
    ensures Kept(mem, CarvedMem(mem, Pred(free, i), free[i].addr, offset, n), free, i, i + 1)
  {
    PredBelow(free, i);
    var prev, cur := Pred(free, i), free[i].addr;
    var mem' := CarvedMem(mem, prev, cur, offset, n);
    forall j | 0 <= j < |free| && (j < i - 1 || i + 1 <= j) && free[j].addr in mem
      ensures free[j].addr in mem' && mem'[free[j].addr] == mem[free[j].addr]
    {
      CarveApart(free, i, offset, n, j);
      hide Separated;
    }
  }

  /** The old headers apart from the block's own and its predecessor's are out of reach of the update. */
  lemma CarveApart(free: seq<Block>, i: int, offset: int, n: int, j: int)
    requires Separated(free) && Positive(free) && 0 <= i < |free| && 0 <= j < |free| && j != i && j != i - 1
    requires 0 <= offset && 0 < n && offset + n <= free[i].size
    ensures free[j].addr != free[i].addr && free[j].addr != Pred(free, i)
    ensures offset + n < free[i].size ==> free[j].addr != free[i].addr + offset + n
  {
    AddrsApart(free, i, j);
    if i > 0 {
      AddrsApart(free, j, i - 1);
      AddrsApart(free, i - 1, j);
    }
  }

  lemma PredBelow(free: seq<Block>, i: int)
    requires Separated(free) && Positive(free) && 0 <= i < |free|
    ensures Pred(free, i) < free[i].addr && 0 < free[i].addr
    ensures i > 0 ==> 0 < Pred(free, i)
  {
  }

  lemma CarveNew(mem: map<int, Header>, prev: int, b: Block, far: int, offset: int, n: int)
    requires prev in mem && b.addr in mem && mem[prev].next == b.addr && mem[b.addr] == Header(far, b.size)
    requires prev < b.addr && 0 <= offset && 0 < n && offset + n <= b.size
    ensures Linked(CarvedMem(mem, prev, b.addr, offset, n), prev, mem[prev].size, Pieces(b, offset, n), far)
  {
    var rest := b.size - n - offset;
    var newHeader := b.addr + offset + n;
    assert Pieces(b, offset, n) == if offset != 0 then
                                     if rest != 0 then [Block(b.addr, offset), Block(newHeader, rest)] else [Block(b.addr, offset)]
                                   else
                                     if rest != 0 then [Block(newHeader, rest)] else [];
  }

  /** Lines 434-462: the headers after [addr, addr + size) was linked between prev and next and joined with them. */
  function InsertedMem(mem: map<int, Header>, prev: int, next: int, addr: int, size: int): map<int, Header>
    requires prev in mem && (next != NULL ==> next in mem)
  {
    var here := if next != NULL && addr + size == next then Header(mem[next].next, size + mem[next].size) else Header(next, size);
    if prev != HEAD && prev + mem[prev].size == addr then
      mem[addr := here][prev := Header(here.next, mem[prev].size + here.size)]
    else
      mem[addr := here][prev := Header(addr, mem[prev].size)]
  }

  lemma InsertSpells(mem: map<int, Header>, free: seq<Block>, total: int, i: int, b: Block)
    requires Spells(mem, free, total) && Separated(free) && Positive(free)
    requires 0 <= i <= |free| && Between(free, i, b) && b.size > 0 && b.addr > 0
    ensures Pred(free, i) in mem && (AddrAt(free, i) != NULL ==> AddrAt(free, i) in mem)
    ensures Spells(InsertedMem(mem, Pred(free, i), AddrAt(free, i), b.addr, b.size), JoinedList(free, i, b), total)
  {
    HeaderAt(mem, free, total, i);
    var mem' := InsertedMem(mem, Pred(free, i), AddrAt(free, i), b.addr, b.size);
    InsertRewrites(mem, free, total, i, b);
    SpliceSpells(mem, mem', free, JoinLo(free, i, b), JoinHi(free, i, b), [JoinedBlock(free, i, b)], total);
  }

  lemma InsertRewrites(mem: map<int, Header>, free: seq<Block>, total: int, i: int, b: Block)
    requires Spells(mem, free, total) && Separated(free) && Positive(free)
    requires 0 <= i <= |free| && Between(free, i, b) && b.size > 0 && b.addr > 0
    requires Pred(free, i) in mem && (AddrAt(free, i) != NULL ==> AddrAt(free, i) in mem)
    ensures Rewritten(mem, InsertedMem(mem, Pred(free, i), AddrAt(free, i), b.addr, b.size), free,
                      JoinLo(free, i, b), JoinHi(free, i, b), [JoinedBlock(free, i, b)], total)
  {
    InsertFacts(mem, free, total, i, b);
    InsertKeeps(mem, free, i, b);
    InsertNew(mem, free, total, i, b);
    var p := JoinLo(free, i, b);
    var mem' := InsertedMem(mem, Pred(free, i), AddrAt(free, i), b.addr, b.size);
    LinkedOne(mem', Pred(free, p), if p == 0 then total else free[p - 1].size, JoinedBlock(free, i, b), AddrAt(free, JoinHi(free, i, b)));
    hide InsertedMem, JoinedBlock, Spells, Separated, Between, Pred, Linked, Kept;
  }

  lemma LinkedOne(mem: map<int, Header>, prev: int, prevSize: int, b: Block, far: int)
    requires prev in mem && mem[prev] == Header(b.addr, prevSize)
    requires b.addr in mem && mem[b.addr] == Header(far, b.size)
    ensures Linked(mem, prev, prevSize, [b], far)
  {
  }

  lemma InsertKeeps(mem: map<int, Header>, free: seq<Block>, i: int, b: Block)
    requires Separated(free) && Positive(free)
    requires 0 <= i <= |free| && Between(free, i, b) && b.size > 0 && b.addr > 0
    requires Pred(free, i) in mem && (AddrAt(free, i) != NULL ==> AddrAt(free, i) in mem)
    requires JoinsDown(free, i, b) <==> Pred(free, i) != HEAD && Pred(free, i) + mem[Pred(free, i)].size == b.addr
    ensures Kept(mem, InsertedMem(mem, Pred(free, i), AddrAt(free, i), b.addr, b.size), free, JoinLo(free, i, b), JoinHi(free, i, b))
  {
    var p, q := JoinLo(free, i, b), JoinHi(free, i, b);
    var mem' := InsertedMem(mem, Pred(free, i), AddrAt(free, i), b.addr, b.size);
    forall j | 0 <= j < |free| && (j < p - 1 || q <= j) && free[j].addr in mem
      ensures free[j].addr in mem' && mem'[free[j].addr] == mem[free[j].addr]
    {
      InsertApart(free, i, b, j);
    }
    if 0 < i {
      InsertApart(free, i, b, i - 1);
    }
  }

  /** The header of b is apart from the others, and they from the predecessor of b. */
  lemma InsertApart(free: seq<Block>, i: int, b: Block, j: int)
    requires Separated(free) && Positive(free) && 0 <= i <= |free| && Between(free, i, b) && b.size > 0 && 0 <= j < |free|
    ensures free[j].addr != b.addr
    ensures j < i ==> free[j].addr < b.addr
    ensures j != i - 1 ==> free[j].addr != Pred(free, i)
  {
    if 0 < i {
      AddrsApart(free, i - 1, j);
      AddrsApart(free, j, i - 1);
    }
    if i < |free| {
      AddrsApart(free, i, j);
      AddrsApart(free, j, i);
    }
  }

  lemma InsertNew(mem: map<int, Header>, free: seq<Block>, total: int, i: int, b: Block)
    requires Spells(mem, free, total) && Separated(free) && Positive(free)
    requires 0 <= i <= |free| && Between(free, i, b) && b.size > 0 && b.addr > 0
    requires Pred(free, i) in mem && (AddrAt(free, i) != NULL ==> AddrAt(free, i) in mem)
    ensures var p, q := JoinLo(free, i, b), JoinHi(free, i, b);
            var mem' := InsertedMem(mem, Pred(free, i), AddrAt(free, i), b.addr, b.size);
            var mid := JoinedBlock(free, i, b);
            && Pred(free, p) in mem'
            && mem'[Pred(free, p)] == Header(mid.addr, if p == 0 then total else free[p - 1].size)
            && mid.addr in mem' && mem'[mid.addr] == Header(AddrAt(free, q), mid.size)
  {
    hide Spells, Separated, Between;
    InsertFacts(mem, free, total, i, b);
    if JoinsDown(free, i, b) {
      assert Pred(free, i) == free[i - 1].addr;
      if 1 < i {
        assert Pred(free, i - 1) == free[i - 2].addr;
      }
    } else if 0 < i {
      assert Pred(free, i) == free[i - 1].addr;
    }
  }

  /** The headers next to the place of insertion, and where they lie. */
  lemma InsertFacts(mem: map<int, Header>, free: seq<Block>, total: int, i: int, b: Block)
    requires Spells(mem, free, total) && Separated(free) && Positive(free)
    requires 0 <= i <= |free| && Between(free, i, b) && b.size > 0 && b.addr > 0
    ensures Pred(free, i) in mem && HEAD in mem && mem[HEAD].size == total
    ensures i < |free| ==> free[i].addr in mem && mem[free[i].addr] == Header(AddrAt(free, i + 1), free[i].size) && 0 < free[i].addr
    ensures 0 < i ==> 0 < free[i - 1].addr < b.addr && free[i - 1].addr in mem && mem[free[i - 1].addr] == Header(AddrAt(free, i), free[i - 1].size)
    ensures 1 < i ==> 0 < free[i - 2].addr < free[i - 1].addr && free[i - 2].addr in mem && mem[free[i - 2].addr] == Header(free[i - 1].addr, free[i - 2].size)
    ensures i == 1 ==> mem[HEAD] == Header(free[0].addr, total)
  {
    HeaderAt(mem, free, total, i);
    HeaderAt(mem, free, total, 0);
    if 0 < i {
      HeaderAt(mem, free, total, i - 1);
      InsertApart(free, i, b, i - 1);
    }
    if 1 < i {
      HeaderAt(mem, free, total, i - 2);
      AddrsApart(free, i - 2, i - 1);
      PredBelow(free, i - 1);
    }
  }

  /** The statistics of the list from position i on. */
  ghost function RestSum(free: seq<Block>, i: int): int
    requires 0 <= i <= |free|
  {
    SumSizes(free[i..])
  }

  ghost function RestLargest(free: seq<Block>, i: int): int
    requires 0 <= i <= |free|
  {
    Largest(free[i..])
  }

  lemma RestStats(free: seq<Block>, i: int)
    requires Separated(free) && 0 <= i <= |free|
    ensures 0 <= RestSum(free, i) && 0 <= RestLargest(free, i)
    ensures i < |free| ==> 0 < free[i].size
    ensures RestSum(free, i) == if i == |free| then 0 else free[i].size + RestSum(free, i + 1)
    ensures RestLargest(free, i) == if i == |free| then 0 else Max(free[i].size, RestLargest(free, i + 1))
    ensures i == 0 ==> RestSum(free, i) == SumSizes(free) && RestLargest(free, i) == Largest(free)
  {
    SumNonNegative(free, i);
    LargestIs(free[i..]);
    if i < |free| {
      assert free[i..][1..] == free[i + 1..];
    }
    if i == 0 {
      assert free[i..] == free;
    }
  }

  /** The running sum and maximum after the first i blocks. */
  ghost predicate SoFar(free: seq<Block>, i: int, sum: int, largest: int)
    requires 0 <= i <= |free|
  {
    && 0 <= sum && sum + RestSum(free, i) == SumSizes(free)
    && 0 <= largest && Max(largest, RestLargest(free, i)) == Largest(free)
  }

  lemma StatsStep(free: seq<Block>, i: int, sum: int, largest: int)
    requires Separated(free) && 0 <= i < |free| && SoFar(free, i, sum, largest) && SumSizes(free) < TWO32
    ensures SoFar(free, i + 1, U32(sum + free[i].size), Max(largest, free[i].size))
  {
    hide Separated, SumSizes, Largest, RestSum, RestLargest, U32;
    RestStats(free, i);
    RestStats(free, i + 1);
    NoWrap(sum + free[i].size);
  }

  lemma StatsEnds(free: seq<Block>)
    requires Separated(free)
    ensures SoFar(free, 0, 0, 0)
    ensures forall sum, largest :: SoFar(free, |free|, sum, largest) ==> sum == SumSizes(free) && largest == Largest(free)
  {
    hide Separated, SumSizes, Largest, RestSum, RestLargest;
    RestStats(free, 0);
    RestStats(free, |free|);
  }

  /** Block b overlaps none of the live blocks. */
  ghost predicate Apart(live: set<Block>, b: Block) {
    forall c :: c in live ==> c.End() <= b.addr || b.End() <= c.addr
  }

  predicate Divides(unit: int, x: int)
    requires unit > 0
  {
    x % unit == 0
  }

  ghost predicate LiveAligned(live: set<Block>, unit: int)
    requires unit > 0
  {
    forall b :: b in live ==> b.addr % unit == 0 && b.size % unit == 0
  }

  class Heap {
    const buf: int
    const total: int
    const unit: int                      // minBlockAlign
    var mem: map<int, Header>
    ghost var free: seq<Block>
    ghost var live: set<Block>

    ghost predicate Valid()
      reads this
    {
      && PowerOfTwo(unit) && 0 < buf && 0 < total && buf + total <= TWO32
      && Divides(unit, buf) && Divides(unit, total)
      && Spells(mem, free, total)
      && Separated(free) && Aligned(free, buf, buf + total, unit)
      && Tiles(free, live, buf, buf + total)
      && LiveAligned(live, unit)
    }

    /** HeapMem_restore on a buffer that HeapMem_Instance_init has aligned and trimmed. */
    constructor (buf: int, total: int, unit: int)
      requires PowerOfTwo(unit) && 0 < buf && 0 < total && buf + total <= TWO32
      requires buf % unit == 0 && total % unit == 0
      ensures Valid() && this.buf == buf && this.total == total && this.unit == unit
      ensures live == {} && free == [Block(buf, total)]
    {
      this.buf := buf;
      this.total := total;
      this.unit := unit;
      this.mem := map[buf := Header(NULL, total), HEAD := Header(buf, total)];
      this.free := [Block(buf, total)];
      this.live := {};
      new;
      assert forall x :: free[0].Has(x) <==> Covers(free, x);
    }

    ghost function Snap(): Snapshot
      reads this
    {
      Snapshot(free, live)
    }

    /**
     HeapMem_allocUnprotected. NULL exactly when no run of free bytes at the alignment asked for, and at minBlockAlign, is
     long enough; otherwise the lowest such run, which is inside the buffer, disjoint from every live block and no longer
     free. The requests left out are those that AnswerRightIff says the code gets wrong.
     */
    method Alloc(reqSize: int, reqAlign: int) returns (r: int)
      requires Valid() && 0 < reqSize < TWO32 && PowerOfTwo(reqAlign) && reqAlign < TWO32
      requires SearchRight(free, AdjSize(reqSize, unit), AdjAlign(reqAlign, unit))
      modifies this`mem, this`free, this`live
      ensures Valid()
      ensures AllocStep(old(Snap()), Snap(), AdjSize(reqSize, unit), AdjAlign(reqAlign, unit), r)
      ensures var n := AdjSize(reqSize, unit);
              && (r == NULL <==> forall a :: !RunFor(old(free), n, reqAlign, unit, a))
              && (r != NULL ==> RunFor(old(free), n, reqAlign, unit, r) && forall a :: RunFor(old(free), n, reqAlign, unit, a) ==> r <= a)
              && (r != NULL ==> Taken(old(free), free, r, n) && live == old(live) + {Block(r, n)})
      ensures r == NULL ==> mem == old(mem) && free == old(free) && live == old(live)
      ensures r != NULL ==> buf <= r && r + AdjSize(reqSize, unit) <= buf + total
      ensures r != NULL ==> Apart(old(live), Block(r, AdjSize(reqSize, unit)))
    {
      hide Apart, LiveAligned, Spells, Separated, Aligned, Tiles, Allocated;
      var adjAlign := reqAlign;
      if adjAlign % unit != 0 {
        adjAlign := unit;
      }
      var adjSize := reqSize;
      var offset := adjSize % unit;
      if offset != 0 {
        adjSize := U32(adjSize + (unit - offset));
      }
      assert adjSize == U32(AdjSize(reqSize, unit)) && adjAlign == AdjAlign(reqAlign, unit) by {
        NoWrap(reqSize);
      }
      r := FirstFit(adjSize, adjAlign, AdjSize(reqSize, unit));
      AllocatedFor(old(free), free, AdjSize(reqSize, unit), reqAlign, unit, r);
      assert (r == NULL ==> free == old(free)) && (r != NULL ==> Taken(old(free), free, r, AdjSize(reqSize, unit))) by {
        AllocatedFields(old(free), free, AdjSize(reqSize, unit), adjAlign, r);
      }
      assert Separated(free) by { assert Valid(); }
    }

    /** The loop over the free list, lines 285-374; adjSize is the rounded size n in 32 bits. */
    method FirstFit(adjSize: int, adjAlign: int, ghost n: int) returns (r: int)
      requires Valid() && 0 < n && 0 < adjAlign && n % unit == 0 && adjAlign % unit == 0 && adjSize == U32(n)
      requires SearchRight(free, n, adjAlign)
      modifies this`mem, this`free, this`live
      ensures Valid()
      ensures Allocated(old(free), free, n, adjAlign, r)
      ensures r == NULL ==> live == old(live) && mem == old(mem)
      ensures r != NULL ==> live == old(live) + {Block(r, n)}
      ensures r != NULL ==> buf <= r && r + n <= buf + total
      ensures r != NULL ==> Apart(old(live), Block(r, n))
    {
      hide Apart, LiveAligned, Spells, Separated, Aligned, Tiles, Taken, IsRun, Covers, Lowest, NoRun, Fits, Accepts;
      AllAddrs(free, buf, buf + total, unit);
      var prev := HEAD;
      HeaderAt(mem, free, total, 0);
      var cur := mem[prev].next;
      ghost var i := 0;
      while cur != NULL
        invariant Valid() && mem == old(mem) && free == old(free) && live == old(live)
        invariant 0 <= i <= |free| && cur == AddrAt(free, i) && prev == Pred(free, i)
        invariant NoneFits(free, i, n, adjAlign)
        decreases |free| - i
      {
        HeaderAt(mem, free, total, i);
        HeaderAt(mem, free, total, i + 1);
        var curSize := mem[cur].size;
        var offset := cur % adjAlign;
        if offset != 0 {
          offset := adjAlign - offset;
        }
        assert offset == Offset(cur, adjAlign);
        AlignedAt(free, i, buf, buf + total, unit);
        FitsAt(free[i], n, adjAlign, adjSize);
        if curSize >= U32(adjSize + offset) {
          r := cur + offset;
          FirstFitIsLeast(free, i, n, adjAlign);
          OffsetMultiple(cur, adjAlign, unit);
          Carve(prev, cur, offset, adjSize, i);
          return r;
        }
        prev := cur;
        cur := mem[cur].next;
        i := i + 1;
      }
      NothingFits(free, n, adjAlign);
      return NULL;
    }

    /** Lines 308-363: the block at cur gives up adjSize bytes after `offset` bytes that stay free. */
    method Carve(prev: int, cur: int, offset: int, adjSize: int, ghost i: int)
      requires Valid() && 0 <= i < |free| && cur == free[i].addr && prev == Pred(free, i)
      requires 0 <= offset && 0 < adjSize && offset % unit == 0 && adjSize % unit == 0
      requires offset + adjSize <= free[i].size
      modifies this`mem, this`free, this`live
      ensures Valid() && Taken(old(free), free, cur + offset, adjSize)
      ensures live == old(live) + {Block(cur + offset, adjSize)}
      ensures buf <= cur + offset && cur + offset + adjSize <= buf + total
      ensures Apart(old(live), Block(cur + offset, adjSize))
    {
      hide Spells, Separated, Aligned, Tiles, Taken, IsRun, Covers, CarvedList;
      ghost var block := Block(cur + offset, adjSize);
      CarveList(free, i, offset, adjSize, buf, buf + total, unit);
      AlignedAt(free, i, buf, buf + total, unit);
      SumMultiple(cur, offset, unit);
      Relink(prev, cur, offset, adjSize, i);
      live := live + {block};
      TakenTiles(old(free), free, old(live), buf, buf + total, block);
    }

    /** The header updates of Carve, in the order of the code. */
    method Relink(prev: int, cur: int, offset: int, adjSize: int, ghost i: int)
      requires Spells(mem, free, total) && Separated(free) && Positive(free)
      requires 0 <= i < |free| && cur == free[i].addr && prev == Pred(free, i)
      requires 0 <= offset && 0 < adjSize && offset + adjSize <= free[i].size
      modifies this`mem, this`free
      ensures free == CarvedList(old(free), i, offset, adjSize) && Spells(mem, free, total)
    {
      hide Spells, Separated, CarvedList;
      CarveSpells(mem, free, total, i, offset, adjSize);
      HeaderAt(mem, free, total, i);
      PredBelow(free, i);
      var allocAddr := cur + offset;
      var remainSize := mem[cur].size - adjSize - offset;
      var newHeader := allocAddr + adjSize;
      if offset != 0 {
        mem := mem[cur := mem[cur].(size := offset)];
        if remainSize != 0 {
          mem := mem[newHeader := Header(mem[cur].next, remainSize)];
          mem := mem[cur := mem[cur].(next := newHeader)];
        }
      } else {
        if remainSize != 0 {
          mem := mem[newHeader := Header(mem[cur].next, remainSize)];
          mem := mem[prev := mem[prev].(next := newHeader)];
        } else {
          mem := mem[prev := mem[prev].(next := mem[cur].next)];
        }
      }
      assert mem == CarvedMem(old(mem), prev, cur, offset, adjSize);
      free := CarvedList(free, i, offset, adjSize);
    }

    /**
     HeapMem_freeUnprotected of a live block: its bytes become free again, and the list is again sorted with no two
     touching blocks.
     */
    method Free(addr: int, size: int)
      requires Valid() && size > 0 && Block(addr, AdjSize(size, unit)) in live
      modifies this`mem, this`free, this`live
      ensures Valid()
      ensures FreeStep(old(Snap()), Snap(), Block(addr, AdjSize(size, unit)))
    {
      hide Spells, Separated, Aligned, Tiles, IsRun, Given, Covers, Between, JoinedList;
      var adj := size;
      var offset := adj % unit;
      ghost var b := Block(addr, AdjSize(size, unit));
      LiveInside(free, live, buf, buf + total, b);
      LiveNotFree(free, live, buf, buf + total, b);
      if offset != 0 {
        adj := U32(adj + (unit - offset));
      }
      assert adj == b.size;
      var cur := HEAD;
      HeaderAt(mem, free, total, 0);
      var next := mem[cur].next;
      assert addr >= buf && addr + (adj - 1) <= buf + (total - 1);
      ghost var i := 0;
      while next != NULL && next < addr
        invariant Valid() && mem == old(mem) && free == old(free) && live == old(live)
        invariant 0 <= i <= |free| && next == AddrAt(free, i) && cur == Pred(free, i)
        invariant forall j :: 0 <= j < i ==> free[j].addr < addr
        decreases |free| - i
      {
        HeaderAt(mem, free, total, i);
        HeaderAt(mem, free, total, i + 1);
        EndBefore(free, i, b);
        assert addr >= next + mem[next].size;
        cur := next;
        next := mem[next].next;
        i := i + 1;
      }
      AllAddrs(free, buf, buf + total, unit);
      NeighboursClear(free, i, b);
      JoinList(free, i, b, buf, buf + total, unit);
      Insert(cur, next, addr, adj, i);
      GivenTiles(old(free), free, old(live), buf, buf + total, b);
      live := live - {b};
      assert Separated(free) by { assert Valid(); }
    }

    /** Lines 434-462: the block is linked between cur and next and joined with the neighbours it touches. */
    method Insert(cur: int, next: int, addr: int, size: int, ghost i: int)
      requires Spells(mem, free, total) && Separated(free) && Positive(free)
      requires size > 0 && 0 < addr
      requires 0 <= i <= |free| && Between(free, i, Block(addr, size))
      requires next == AddrAt(free, i) && cur == Pred(free, i)
      modifies this`mem, this`free
      ensures free == JoinedList(old(free), i, Block(addr, size)) && Spells(mem, free, total)
    {
      hide Spells, Separated, JoinedList;
      ghost var b := Block(addr, size);
      InsertSpells(mem, free, total, i, b);
      HeaderAt(mem, free, total, i);
      if 0 < i {
        InsertApart(free, i, b, i - 1);
      }
      mem := mem[addr := Header(next, size)];
      mem := mem[cur := mem[cur].(next := addr)];
      if next != NULL {
        assert addr + size <= next;
        if addr + size == next {
          mem := mem[addr := Header(mem[next].next, mem[addr].size + mem[next].size)];
        }
      }
      if cur != HEAD && cur + mem[cur].size == addr {
        mem := mem[cur := Header(mem[addr].next, mem[cur].size + mem[addr].size)];
      }
      assert mem == InsertedMem(old(mem), cur, next, addr, size);
      free := JoinedList(free, i, b);
    }

    /** HeapMem_getStats. The sum cannot wrap: it is the number of free bytes of the buffer. */
    method GetStats() returns (totalSize: int, totalFreeSize: int, largestFreeSize: int)
      requires Valid()
      ensures totalSize == total
      ensures totalFreeSize == |Bytes(free, buf, buf + total)|
      ensures largestFreeSize == Largest(free)
    {
      hide Separated, Aligned, Spells, Bytes, SumSizes, Largest, SoFar, LiveAligned, Covers, U32;
      SumCounts(free, buf, buf + total);
      SumFits(free, buf, buf + total);
      AllAddrs(free, buf, buf + total, unit);
      StatsEnds(free);
      hide Tiles;
      totalSize := total;
      totalFreeSize, largestFreeSize := 0, 0;
      HeaderAt(mem, free, total, 0);
      var cur := mem[HEAD].next;
      ghost var i := 0;
      while cur != NULL
        invariant 0 <= i <= |free| && cur == AddrAt(free, i)
        invariant SoFar(free, i, totalFreeSize, largestFreeSize)
        decreases |free| - i
      {
        HeaderAt(mem, free, total, i);
        HeaderAt(mem, free, total, i + 1);
        StatsStep(free, i, totalFreeSize, largestFreeSize);
        totalFreeSize := U32(totalFreeSize + mem[cur].size);
        if largestFreeSize < mem[cur].size {
          largestFreeSize := mem[cur].size;
        }
        cur := mem[cur].next;
        i := i + 1;
      }
    }
  }

  lemma AlignedAt(free: seq<Block>, i: int, lo: int, hi: int, unit: int)
    requires unit > 0 && Aligned(free, lo, hi, unit) && 0 <= i < |free| && 0 < lo
    ensures free[i].addr % unit == 0 && lo <= free[i].addr && free[i].End() <= hi
    ensures Positive(free)
  {
  }

  /** The test on the size in 32 bits is the test on the size; a block that fits shows that the size was not cut. */
  lemma FitsAt(b: Block, n: int, align: int, adjSize: int)
    requires align > 0 && n > 0 && adjSize == U32(n) && 0 < b.addr && b.End() <= TWO32
    ensures Accepts(b, n, align) <==> b.size >= U32(adjSize + Offset(b.addr, align))
    ensures Fits(b, n, align) ==> n == adjSize && n + Offset(b.addr, align) <= b.size
  {
    hide Offset;
    WrapInner(n, Offset(b.addr, align));
    if n < TWO32 {
      NoWrap(n);
    }
  }

  lemma WrapInner(x: int, y: int)
    ensures U32(U32(x) + y) == U32(x + y)
  {
  }

  /** A NULL link is the end of the list. */
  lemma AllAddrs(free: seq<Block>, lo: int, hi: int, unit: int)
    requires unit > 0 && Aligned(free, lo, hi, unit) && 0 < lo
    ensures forall i :: 0 <= i <= |free| ==> (AddrAt(free, i) == NULL <==> i == |free|)
    ensures Positive(free)
  {
  }

  lemma LiveInside(free: seq<Block>, live: set<Block>, lo: int, hi: int, b: Block)
    requires Tiles(free, live, lo, hi) && b in live
    ensures b.size > 0 && lo <= b.addr && b.End() <= hi
  {
  }

  lemma EndBefore(free: seq<Block>, i: int, b: Block)
    requires 0 <= i < |free| && free[i].addr < b.addr && b.size > 0
    requires forall x :: b.Has(x) ==> !Covers(free, x)
    ensures free[i].End() <= b.addr
  {
    if b.addr < free[i].End() {
      assert free[i].Has(b.addr) && b.Has(b.addr);
    }
  }
}
