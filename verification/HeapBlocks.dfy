/**
 Free lists of packages/ti/sysbios/heaps/HeapMem.c as mathematical objects: address-sorted blocks, the bytes
 they cover, and why a sorted list without touching blocks is determined by those bytes.
 */
module HeapBlocks {

  datatype Block = Block(addr: int, size: int) {
    function End(): int { addr + size }
    ghost predicate Has(x: int) { addr <= x < addr + size }
  }

  /** Byte x lies in some block of the list. */
  ghost predicate Covers(free: seq<Block>, x: int) {
    exists i :: 0 <= i < |free| && free[i].Has(x)
  }

  /** Sorted by address, no empty block, and a gap of at least one byte between neighbours. */
  ghost predicate Separated(free: seq<Block>) {
    && (forall i :: 0 <= i < |free| ==> free[i].size > 0)
    && (forall i, j :: 0 <= i < j < |free| ==> free[i].End() < free[j].addr)
  }

  /** All blocks are aligned on `unit` and lie in [lo, hi). */
  ghost predicate Aligned(free: seq<Block>, lo: int, hi: int, unit: int)
    requires unit > 0
  {
    forall i :: 0 <= i < |free| ==>
      && lo <= free[i].addr && free[i].End() <= hi
      && free[i].addr % unit == 0 && free[i].size % unit == 0
  }

  /** The n bytes from a on are all free. */
  ghost predicate IsRun(free: seq<Block>, a: int, n: int) {
    forall x :: a <= x < a + n ==> Covers(free, x)
  }

  /** free' is what is left of free once the n bytes from a on are taken. */
  ghost predicate Taken(free: seq<Block>, free': seq<Block>, a: int, n: int) {
    && IsRun(free, a, n)
    && forall x :: Covers(free', x) <==> Covers(free, x) && !(a <= x < a + n)
  }

  /** free' is free with the n bytes from a on given back. */
  ghost predicate Given(free: seq<Block>, free': seq<Block>, a: int, n: int) {
    && (forall x :: a <= x < a + n ==> !Covers(free, x))
    && forall x :: Covers(free', x) <==> Covers(free, x) || a <= x < a + n
  }

  lemma CoversHead(free: seq<Block>, x: int)
    requires Separated(free) && free != []
    ensures Covers(free, x) <==> free[0].Has(x) || Covers(free[1..], x)
    ensures Covers(free[1..], x) ==> free[0].End() < x
  {
    if Covers(free, x) && !free[0].Has(x) {
      var i :| 0 <= i < |free| && free[i].Has(x);
      assert free[1..][i - 1].Has(x);
    }
    if Covers(free[1..], x) {
      var i :| 0 <= i < |free[1..]| && free[1..][i].Has(x);
      assert free[i + 1].Has(x);
    }
  }

  /** A sorted free list without touching blocks depends only on which bytes are free. */
  lemma {:induction false} CanonicalUnique(a: seq<Block>, b: seq<Block>)
    requires Separated(a) && Separated(b)
    requires forall x :: Covers(a, x) <==> Covers(b, x)
    ensures a == b
    decreases |a|
  {
    if a == [] {
      if b != [] {
        HeadCovered(b);
      }
    } else if b == [] {
      HeadCovered(a);
    } else {
      SameHead(a, b);
      SameHead(b, a);
      forall x ensures Covers(a[1..], x) <==> Covers(b[1..], x) {
        CoversHead(a, x);
        CoversHead(b, x);
      }
      CanonicalUnique(a[1..], b[1..]);
      assert a == [a[0]] + a[1..] && b == [b[0]] + b[1..];
    }
  }

  lemma HeadCovered(free: seq<Block>)
    requires Separated(free) && free != []
    ensures Covers(free, free[0].addr)
  {
    assert free[0].Has(free[0].addr);
  }

  lemma SameHead(a: seq<Block>, b: seq<Block>)
    requires Separated(a) && Separated(b) && a != [] && b != []
    requires forall x :: Covers(a, x) <==> Covers(b, x)
    ensures b[0].addr <= a[0].addr
    ensures a[0].addr == b[0].addr ==> a[0].End() <= b[0].End()
  {
    assert a[0].Has(a[0].addr);
    CoversHead(b, a[0].addr);
    if a[0].addr == b[0].addr && b[0].End() < a[0].End() {
      assert a[0].Has(b[0].End());
      assert Covers(b, b[0].End());
      CoversHead(b, b[0].End());
    }
  }

  /** A run of free bytes never crosses from one block to the next. */
  lemma RunInOneBlock(free: seq<Block>, a: int, n: int) returns (i: int)
    requires Separated(free) && IsRun(free, a, n) && n > 0
    ensures 0 <= i < |free| && free[i].addr <= a && a + n <= free[i].End()
  {
    assert Covers(free, a);
    i :| 0 <= i < |free| && free[i].Has(a);
    var end := free[i].End();
    EndNotCovered(free, i);
    assert end < a + n ==> Covers(free, end);
  }

  lemma EndNotCovered(free: seq<Block>, i: int)
    requires Separated(free) && 0 <= i < |free|
    ensures !Covers(free, free[i].End())
  {
    forall j | 0 <= j < |free| ensures !free[j].Has(free[i].End()) {
      assert j < i || j == i || i < j;
    }
  }

  /** Freeing what was just allocated gives back the very same list. */
  lemma FreeUndoesAlloc(before: seq<Block>, between: seq<Block>, after: seq<Block>, a: int, n: int)
    requires Separated(before) && Separated(after)
    requires Taken(before, between, a, n) && Given(between, after, a, n)
    ensures after == before
  {
    CanonicalUnique(before, after);
  }

  // ---------------------------------------------------------------- free and live bytes

  /** free and live blocks tile [lo, hi) exactly. */
  ghost predicate Tiles(free: seq<Block>, live: set<Block>, lo: int, hi: int) {
    && (forall b :: b in live ==> b.size > 0 && lo <= b.addr && b.End() <= hi)
    && (forall b, c, x :: b in live && c in live && b.Has(x) && c.Has(x) ==> b == c)
    && (forall x :: lo <= x < hi ==> (Covers(free, x) <==> !exists b :: b in live && b.Has(x)))
    && (forall x :: Covers(free, x) ==> lo <= x < hi)
  }

  /** When nothing is live the free list is the initial one: a single block spanning the buffer. */
  lemma AllFreed(free: seq<Block>, lo: int, hi: int)
    requires Separated(free) && Tiles(free, {}, lo, hi) && lo < hi
    ensures free == [Block(lo, hi - lo)]
  {
    var whole := [Block(lo, hi - lo)];
    forall x ensures Covers(free, x) <==> Covers(whole, x) {
      assert lo <= x < hi <==> whole[0].Has(x);
    }
    CanonicalUnique(free, whole);
  }

  /** The same live blocks always mean the same free list, whatever the history. */
  lemma LiveDetermines(f: seq<Block>, g: seq<Block>, live: set<Block>, lo: int, hi: int)
    requires Separated(f) && Separated(g) && Tiles(f, live, lo, hi) && Tiles(g, live, lo, hi)
    ensures f == g
  {
    forall x ensures Covers(f, x) <==> Covers(g, x) {
    }
    CanonicalUnique(f, g);
  }

  lemma TakenTiles(free: seq<Block>, free': seq<Block>, live: set<Block>, lo: int, hi: int, b: Block)
    requires Tiles(free, live, lo, hi) && Taken(free, free', b.addr, b.size) && b.size > 0
    ensures Tiles(free', live + {b}, lo, hi)
    ensures b !in live
    ensures lo <= b.addr && b.End() <= hi
    ensures forall c :: c in live ==> c.End() <= b.addr || b.End() <= c.addr
  {
    assert Covers(free, b.addr) && Covers(free, b.End() - 1);
    assert forall x :: b.Has(x) ==> Covers(free, x);
    forall c | c in live ensures c.End() <= b.addr || b.End() <= c.addr {
      if c.addr < b.End() && b.addr < c.End() {
        var x := if c.addr <= b.addr then b.addr else c.addr;
        assert b.Has(x) && c.Has(x);
      }
    }
    var live' := live + {b};
    forall x | lo <= x < hi ensures Covers(free', x) <==> !exists c :: c in live' && c.Has(x) {
      if b.Has(x) {
        assert b in live';
      } else if exists c :: c in live && c.Has(x) {
        var c :| c in live && c.Has(x);
        assert c in live';
      }
    }
  }

  lemma GivenTiles(free: seq<Block>, free': seq<Block>, live: set<Block>, lo: int, hi: int, b: Block)
    requires Tiles(free, live, lo, hi) && b in live && Given(free, free', b.addr, b.size)
    ensures Tiles(free', live - {b}, lo, hi)
  {
    var live' := live - {b};
    forall x | lo <= x < hi ensures Covers(free', x) <==> !exists c :: c in live' && c.Has(x) {
      if b.Has(x) {
      } else if exists c :: c in live && c.Has(x) {
        var c :| c in live && c.Has(x);
        assert c in live';
      }
    }
    forall x | Covers(free', x) ensures lo <= x < hi {
    }
  }

  /** A live block is free nowhere, which is what free's own assertions can only partly check. */
  lemma LiveNotFree(free: seq<Block>, live: set<Block>, lo: int, hi: int, b: Block)
    requires Tiles(free, live, lo, hi) && b in live
    ensures forall x :: b.Has(x) ==> !Covers(free, x)
  {
  }

  // ---------------------------------------------------------------- counting bytes

  ghost function Bytes(free: seq<Block>, lo: int, hi: int): set<int> {
    set x | lo <= x < hi && Covers(free, x)
  }

  /** The sum of the sizes in the headers. */
  ghost function SumSizes(free: seq<Block>): int {
    if free == [] then 0 else free[0].size + SumSizes(free[1..])
  }

  ghost function Largest(free: seq<Block>): int {
    if free == [] then 0
    else if free[0].size > Largest(free[1..]) then free[0].size
    else Largest(free[1..])
  }

  lemma {:induction false} LargestIs(free: seq<Block>)
    ensures forall i :: 0 <= i < |free| ==> free[i].size <= Largest(free)
    ensures 0 <= Largest(free)
    ensures Largest(free) > 0 ==> exists i :: 0 <= i < |free| && free[i].size == Largest(free)
  {
    if free != [] {
      var rest := free[1..];
      LargestIs(rest);
      forall i | 0 <= i < |free| ensures free[i].size <= Largest(free) {
        if i > 0 {
          assert free[i] == rest[i - 1];
        }
      }
      if free[0].size >= Largest(rest) {
        assert free[0].size == Largest(free) || Largest(free) == Largest(rest);
        assert Largest(free) == free[0].size;
      } else if Largest(rest) > 0 {
        var i :| 0 <= i < |rest| && rest[i].size == Largest(rest);
        assert free[i + 1].size == Largest(free);
      }
    }
  }

  ghost function Interval(a: int, n: int): set<int> {
    set x | a <= x < a + n && Block(a, n).Has(x)
  }

  lemma {:induction false} IntervalSize(a: int, n: nat)
    ensures |Interval(a, n)| == n
  {
    if n == 0 {
      assert Interval(a, 0) == {};
    } else {
      IntervalSize(a, n - 1);
      var all, rest := Interval(a, n), Interval(a, n - 1);
      forall x ensures x in all <==> x in rest || x == a + n - 1 {
        assert x in all <==> Block(a, n).Has(x);
        assert x in rest <==> Block(a, n - 1).Has(x);
      }
      assert all == rest + {a + n - 1};
    }
  }

  lemma DisjointSum(a: set<int>, b: set<int>, c: set<int>)
    requires forall x :: x in c <==> x in a || x in b
    requires forall x :: x in a ==> x !in b
    ensures |c| == |a| + |b|
  {
    var u, v := a + b, a * b;
    assert forall x :: x in u <==> x in c;
    assert c == u;
    forall x ensures x !in v {
      assert x in v ==> x in a && x in b;
    }
    assert v == {};
    assert |u| == |a| + |b|;
  }

  /** The sizes in the headers add up to the number of free bytes. */
  lemma {:induction false} SumCounts(free: seq<Block>, lo: int, hi: int)
    requires Separated(free) && forall x :: Covers(free, x) ==> lo <= x < hi
    ensures SumSizes(free) == |Bytes(free, lo, hi)|
  {
    if free == [] {
      assert Bytes(free, lo, hi) == {};
    } else {
      var rest := free[1..];
      var all, head, tail := Bytes(free, lo, hi), Interval(free[0].addr, free[0].size), Bytes(rest, lo, hi);
      assert Separated(rest);
      forall x ensures x in all <==> x in head || x in tail
               ensures x in head ==> x !in tail
               ensures Covers(rest, x) ==> lo <= x < hi
      {
        HeadBytes(free, lo, hi, x);
      }
      SumCounts(rest, lo, hi);
      IntervalSize(free[0].addr, free[0].size);
      DisjointSum(head, tail, all);
    }
  }

  lemma HeadBytes(free: seq<Block>, lo: int, hi: int, x: int)
    requires Separated(free) && free != [] && forall y :: Covers(free, y) ==> lo <= y < hi
    ensures x in Bytes(free, lo, hi) <==> x in Interval(free[0].addr, free[0].size) || x in Bytes(free[1..], lo, hi)
    ensures x in Interval(free[0].addr, free[0].size) ==> x !in Bytes(free[1..], lo, hi)
    ensures Covers(free[1..], x) ==> lo <= x < hi
  {
    CoversHead(free, x);
    assert x in Interval(free[0].addr, free[0].size) <==> free[0].Has(x);
  }

  /** An allocation lowers the total free size by exactly what it hands out. */
  lemma TakenSum(free: seq<Block>, free': seq<Block>, lo: int, hi: int, a: int, n: nat)
    requires Separated(free) && Separated(free') && Taken(free, free', a, n)
    requires forall x :: Covers(free, x) ==> lo <= x < hi
    ensures SumSizes(free') == SumSizes(free) - n
  {
    SumCounts(free, lo, hi);
    SumCounts(free', lo, hi);
    IntervalSize(a, n);
    var all, rest, given := Bytes(free, lo, hi), Bytes(free', lo, hi), Interval(a, n);
    forall x ensures x in all <==> x in rest || x in given
             ensures x in rest ==> x !in given
    {
      assert x in given <==> Block(a, n).Has(x);
      assert x in all <==> Covers(free, x);
      assert x in rest <==> Covers(free', x);
    }
    hide Taken, Covers, Separated, SumSizes;
    DisjointSum(rest, given, all);
  }

  /** A free raises it by exactly what it takes back. */
  lemma GivenSum(free: seq<Block>, free': seq<Block>, lo: int, hi: int, a: int, n: nat)
    requires Separated(free) && Separated(free') && Given(free, free', a, n)
    requires forall x :: Covers(free', x) ==> lo <= x < hi
    ensures SumSizes(free') == SumSizes(free) + n
  {
    SumCounts(free, lo, hi);
    SumCounts(free', lo, hi);
    IntervalSize(a, n);
    var all, rest, given := Bytes(free', lo, hi), Bytes(free, lo, hi), Interval(a, n);
    forall x ensures x in all <==> x in rest || x in given
             ensures x in rest ==> x !in given
    {
      assert x in given <==> Block(a, n).Has(x);
      assert x in all <==> Covers(free', x);
      assert x in rest <==> Covers(free, x);
    }
    hide Given, Covers, Separated, SumSizes;
    DisjointSum(rest, given, all);
  }

  lemma {:induction false} SumNonNegative(free: seq<Block>, k: nat)
    requires Separated(free) && k <= |free|
    ensures 0 <= SumSizes(free[k..])
    decreases |free| - k
  {
    if k < |free| {
      assert free[k..][1..] == free[k + 1..];
      SumNonNegative(free, k + 1);
    }
  }

  /** The free bytes fit in the buffer. */
  lemma SumFits(free: seq<Block>, lo: int, hi: int)
    requires Separated(free) && lo <= hi && forall x :: Covers(free, x) ==> lo <= x < hi
    ensures 0 <= SumSizes(free) <= hi - lo
  {
    SumCounts(free, lo, hi);
    IntervalSize(lo, hi - lo);
    forall x | x in Bytes(free, lo, hi) ensures x in Interval(lo, hi - lo) {
      assert Block(lo, hi - lo).Has(x);
    }
    Subset(Bytes(free, lo, hi), Interval(lo, hi - lo));
  }

  lemma Subset(a: set<int>, b: set<int>)
    requires a <= b
    ensures |a| <= |b|
  {
    assert b == a + (b - a);
  }
}
