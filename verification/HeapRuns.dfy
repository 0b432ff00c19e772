/**
 Whole runs of a HeapMem heap, and what its statistics mean.
 */
module HeapRuns {
  import opened HeapBlocks
  import opened HeapMem

  /** The largest free size is exactly the largest request that can be served at the least alignment. */
  lemma LargestServes(free: seq<Block>, lo: int, hi: int, unit: int, n: int)
    requires unit > 0 && Separated(free) && Aligned(free, lo, hi, unit) && n > 0
    ensures NoRun(free, n, unit) <==> n > Largest(free)
  {
    LargestIs(free);
    if n <= Largest(free) {
      var i :| 0 <= i < |free| && free[i].size == Largest(free);
      assert free[i].addr % unit == 0;
      assert forall x :: free[i].addr <= x < free[i].addr + n ==> free[i].Has(x);
      assert IsRun(free, free[i].addr, n);
    } else {
      forall a | a % unit == 0 ensures !IsRun(free, a, n) {
        if IsRun(free, a, n) {
          var i := RunInOneBlock(free, a, n);
        }
      }
    }
  }

  // ---------------------------------------------------------------- runs

  /** Heap.Alloc and Heap.Free make these steps. */
  ghost predicate Step(s: Snapshot, t: Snapshot) {
    || (exists n, align, r :: AllocStep(s, t, n, align, r))
    || (exists b :: FreeStep(s, t, b))
  }

  /** A history of the heap from its initial state. */
  ghost predicate History(run: seq<Snapshot>, lo: int, hi: int) {
    && run != [] && run[0] == Snapshot([Block(lo, hi - lo)], {})
    && forall i :: 0 <= i < |run| - 1 ==> Step(run[i], run[i + 1])
  }

  ghost function Last(run: seq<Snapshot>): Snapshot
    requires run != []
  {
    run[|run| - 1]
  }

  lemma {:induction false} HistoryTiles(run: seq<Snapshot>, lo: int, hi: int)
    requires lo < hi && History(run, lo, hi)
    ensures Separated(Last(run).free) && Tiles(Last(run).free, Last(run).live, lo, hi)
    decreases |run|
  {
    if |run| == 1 {
      var whole := [Block(lo, hi - lo)];
      forall x ensures Covers(whole, x) <==> lo <= x < hi {
        assert whole[0].Has(x) <==> lo <= x < hi;
      }
    } else {
      var before := run[..|run| - 1];
      var s, t := Last(before), Last(run);
      HistoryTiles(before, lo, hi);
      assert Step(run[|run| - 2], run[|run| - 1]);
      StepTiles(s, t, lo, hi);
    }
  }

  lemma StepTiles(s: Snapshot, t: Snapshot, lo: int, hi: int)
    requires Tiles(s.free, s.live, lo, hi) && Step(s, t)
    ensures Separated(t.free) && Tiles(t.free, t.live, lo, hi)
  {
    if n, align, r :| AllocStep(s, t, n, align, r) {
      if r != NULL {
        TakenTiles(s.free, t.free, s.live, lo, hi, Block(r, n));
      }
    } else {
      var b :| FreeStep(s, t, b);
      GivenTiles(s.free, t.free, s.live, lo, hi, b);
    }
  }

  /** Two histories of the same heap that end with the same live blocks end with the same free list. */
  lemma HistoryIrrelevant(run: seq<Snapshot>, other: seq<Snapshot>, lo: int, hi: int)
    requires lo < hi && History(run, lo, hi) && History(other, lo, hi)
    requires Last(run).live == Last(other).live
    ensures Last(run).free == Last(other).free
  {
    HistoryTiles(run, lo, hi);
    HistoryTiles(other, lo, hi);
    LiveDetermines(Last(run).free, Last(other).free, Last(run).live, lo, hi);
  }

  /** Freeing everything, in any order and after any history, gives back the initial block. */
  lemma EverythingFreed(run: seq<Snapshot>, lo: int, hi: int)
    requires lo < hi && History(run, lo, hi) && Last(run).live == {}
    ensures Last(run) == run[0]
  {
    HistoryTiles(run, lo, hi);
    AllFreed(Last(run).free, lo, hi);
  }

  /** Freeing a block right after its allocation restores the free list exactly. */
  lemma FreeRestores(s: Snapshot, t: Snapshot, u: Snapshot, n: int, align: int, r: int, lo: int, hi: int)
    requires Separated(s.free) && Tiles(s.free, s.live, lo, hi)
    requires AllocStep(s, t, n, align, r) && r != NULL && FreeStep(t, u, Block(r, n))
    ensures u == s
  {
    TakenTiles(s.free, t.free, s.live, lo, hi, Block(r, n));
    FreeUndoesAlloc(s.free, t.free, u.free, r, n);
  }

  /** Free and live bytes always add up to the size of the buffer. */
  lemma FreeSizeFollows(s: Snapshot, t: Snapshot, lo: int, hi: int)
    requires Separated(s.free) && Tiles(s.free, s.live, lo, hi) && Step(s, t)
    ensures t.live == s.live ==> SumSizes(t.free) == SumSizes(s.free)
    ensures forall b :: b in t.live && b !in s.live ==> SumSizes(t.free) == SumSizes(s.free) - b.size
    ensures forall b :: b in s.live && b !in t.live ==> SumSizes(t.free) == SumSizes(s.free) + b.size
  {
    StepTiles(s, t, lo, hi);
    if n, align, r :| AllocStep(s, t, n, align, r) {
      if r != NULL {
        TakenTiles(s.free, t.free, s.live, lo, hi, Block(r, n));
        TakenSum(s.free, t.free, lo, hi, r, n);
      }
    } else {
      var b :| FreeStep(s, t, b);
      GivenSum(s.free, t.free, lo, hi, b.addr, b.size);
    }
  }
}
