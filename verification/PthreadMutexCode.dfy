/**
 The functions of packages/ti/posix/tirtos/pthread_mutex.c over the thread and mutex tables they update in
 place, each proved against the step of the state machine it implements.
 */
module PthreadMutexCode {
  import opened Base
  import opened PthreadMutex
  import opened PriorityWithdrawal
  import opened MutexToken

  class MutexModule {
    var th: seq<Thread>
    var mx: seq<Mutex>
    ghost var locks: multiset<(Tid, Mid)>

    ghost function S(): State
      reads this
    {
      State(th, mx, locks)
    }

    method SetPrioCeiling(m: Mid) returns (priority: int)
      requires Refs(S()) && m < |mx|
      modifies `mx
      ensures S() == SetCeiling(old(S()), m)
      ensures priority == LastWaiter(th, mx[m].waitList)
    {
      var waitList := mx[m].waitList;
      priority := 0;
      mx := mx[m := mx[m].(ceiling := 0)];
      assert waitList[..0] == [];
      for i := 0 to |waitList|
        invariant forall t :: t in waitList ==> t < |th|
        invariant forall t :: t in waitList[..i] ==> t in waitList
        invariant |mx| == |old(mx)|
        invariant mx == old(mx)[m := old(mx)[m].(ceiling := HighestWaiter(th, waitList[..i]))]
        invariant priority == LastWaiter(th, waitList[..i])
      {
        assert waitList[i] in waitList;
        assert waitList[..i + 1][..i] == waitList[..i];
        assert forall t :: t in waitList[..i + 1] ==> t in waitList;
        priority := th[waitList[i]].pri;
        if priority > mx[m].ceiling {
          mx := mx[m := mx[m].(ceiling := priority)];
        }
      }
      assert waitList[..|waitList|] == waitList;
    }

    method GetMaxPrioCeiling(t: Tid) returns (maxPri: int)
      requires Refs(S()) && t < |th|
      ensures maxPri == MaxCeiling(mx, th[t].held)
      ensures maxPri >= 0 && forall m :: m in th[t].held ==> mx[m].ceiling <= maxPri
    {
      var held := th[t].held;
      maxPri := 0;
      assert held[..0] == [];
      for i := 0 to |held|
        invariant forall m :: m in held ==> m < |mx|
        invariant forall m :: m in held[..i] ==> m in held
        invariant maxPri == MaxCeiling(mx, held[..i])
      {
        assert held[i] in held;
        assert held[..i + 1][..i] == held[..i];
        assert forall m :: m in held[..i + 1] ==> m in held;
        var pri := mx[held[i]].ceiling;
        maxPri := if pri > maxPri then pri else maxPri;
      }
      assert held[..|held|] == held;
    }

    /** adjustPri */
    method Adjust(t: Tid)
      requires Refs(S()) && t < |th|
      modifies `th
      ensures S() == AdjustPri(old(S()), t)
    {
      var priority := th[t].base;
      var maxCeiling := GetMaxPrioCeiling(t);
      priority := if maxCeiling > priority then maxCeiling else priority;
      th := th[t := th[t].(pri := priority)];
    }

    /** setInheritPriority: ends on every ownership graph. */
    method SetInheritPriority(m: Mid, priority: int)
      requires Refs(S()) && m < |mx|
      modifies `th, `mx
      ensures S() == Donate(old(S()), Some(m), priority)
    {
      var next: Option<Mid> := Some(m);
      var owner := mx[m].owner;
      while owner.Some?
        invariant Refs(S()) && |th| == |old(th)| && |mx| == |old(mx)| && locks == old(locks)
        invariant next.Some? ==> next.value < |mx|
        invariant owner == if next.Some? then mx[next.value].owner else None
        invariant Donate(S(), next, priority) == Donate(old(S()), Some(m), priority)
        decreases Below(S(), priority)
      {
        var o := owner.value;
        var ownerPri := th[o].pri;
        ghost var before := S();
        if ownerPri < priority {
          th := th[o := th[o].(pri := priority)];
          mx := mx[next.value := mx[next.value].(ceiling := priority)];
        } else {
          break;
        }
        assert S() == Boost(before, next.value, o, priority);
        assert Below(S(), priority) <= Below(before, priority) && o in Below(before, priority) && o !in Below(S(), priority);
        next := th[o].blocked;
        owner := if next.None? then None else mx[next.value].owner;
      }
    }

    /** The body of the loop of resetInheritPriority: true when it takes the break. */
    method ResetOnce(m: Mid, o: Tid) returns (stop: bool)
      requires Refs(S()) && m < |mx| && mx[m].owner == Some(o)
      modifies `th, `mx
      ensures Refs(old(S())) && Refs(S())
      ensures stop <==> old(th[o].pri) <= LastWaiter(old(th), old(mx[m].waitList))
      ensures S() == if stop then SetCeiling(old(S()), m) else RoundEnd(old(S()), m, o)
      ensures |th| == |old(th)| && |mx| == |old(mx)| && th[o].blocked == old(th[o].blocked)
    {
      RoundShape(S(), m, o);
      var ownerPri := th[o].pri;
      var priority := SetPrioCeiling(m);
      if ownerPri <= priority {
        return true;
      }
      Adjust(o);
      return false;
    }

    /**
     resetInheritPriority, wherever it ends: `n` bounds its rounds. ResetEnds and ResetEndsIff say which states have
     such a bound.
     */
    method ResetInheritPriority(m: Mid, ghost n: nat)
      requires Refs(S()) && m < |mx| && ResetWithin(S(), Some(m), n).Some?
      modifies `th, `mx
      ensures Refs(old(S())) && ResetsTo(old(S()), m, S())
    {
      hide HighestWaiter, MaxCeiling, AdjustPri;
      var owner: Option<Tid> := mx[m].owner;
      var next: Option<Mid> := Some(m);
      ghost var start, cur, left := S(), S(), n;
      assert Outcome(start, Some(m), n).Some?;
      hide Outcome, SetCeiling, RoundEnd, LastWaiter, ResetsTo, ResetWithin, HighestWaiter, MaxCeiling;
      while owner.Some?
        invariant cur == S() && Refs(cur) && (next.Some? ==> next.value < |cur.mx|)
        invariant owner == if next.Some? then cur.mx[next.value].owner else None
        invariant Outcome(cur, next, left) == Outcome(start, Some(m), n) && Outcome(cur, next, left).Some?
        decreases left
      {
        ghost var rest := left - 1;
        OutcomeRound(cur, next.value, left);
        var stop := ResetOnce(next.value, owner.value);
        cur := S();
        if stop {
          ResetsToIntro(start, m, n, cur);
          return;
        }
        next := th[owner.value].blocked;
        owner := if next.None? then None else mx[next.value].owner;
        left := rest;
      }
      OutcomeStops(cur, next, left);
      ResetsToIntro(start, m, n, cur);
    }

    /** The code after the semaphore was obtained: owner, lockCnt, ceiling, mutexList and priority. */
    method BecomeOwner(t: Tid, m: Mid)
      requires Refs(S()) && t < |th| && m < |mx| && mx[m].owner.None? && mx[m].lockCnt == 0
      modifies this
      ensures S() == TakeOwnership(old(S()), t, m)
    {
      hide HighestWaiter;
      ghost var x, y := mx[m], th[t];
      mx := mx[m := mx[m].(owner := Some(t), lockCnt := 1, granted := None)];
      th := th[t := th[t].(phase := Running)];
      locks := locks + multiset{(t, m)};
      ghost var ceiling := if x.protocol.PrioInherit? then HighestWaiter(old(th), x.waitList) else x.ceiling;
      assert Refs(S());
      if mx[m].protocol.PrioInherit? {
        SameHighest(old(th), th, mx[m].waitList);
        var last := SetPrioCeiling(m);
      }
      assert mx == old(mx)[m := x.(owner := Some(t), lockCnt := 1, granted := None, ceiling := ceiling)];
      if !mx[m].protocol.PrioNone? {
        th := th[t := th[t].(held := th[t].held + [m])];
        var thisThreadPri := th[t].pri;
        if mx[m].ceiling > thisThreadPri {
          th := th[t := th[t].(pri := mx[m].ceiling)];
        }
        assert th == old(th)[t := y.(phase := Running, held := y.held + [m], pri := Max(y.pri, ceiling))];
      }
    }

    /** The first region of acquireMutexPriority; noWait is a timeout of 0. */
    method AcquireMutexPriority(t: Tid, m: Mid, noWait: bool) returns (code: Code)
      requires Refs(S()) && Token(S()) && t < |th| && m < |mx| && !mx[m].protocol.PrioNone?
      modifies this
      ensures (S(), code) == TryLock(old(S()), t, m, noWait)
    {
      assert MutexOk(S(), m);
      var thisThreadPri := th[t].pri;
      if mx[m].protocol.PrioProtect? && mx[m].ceiling < th[t].base {
        return Invalid;
      }
      if mx[m].owner == Some(t) {
        if mx[m].kind.ErrorCheck? {
          return Deadlock;
        }
        if mx[m].kind.Recursive? {
          mx := mx[m := mx[m].(lockCnt := mx[m].lockCnt + 1)];
          locks := locks + multiset{(t, m)};
          return Ok;
        }
      }
      if mx[m].count > 0 {
        mx := mx[m := mx[m].(count := mx[m].count - 1)];
        assert Refs(S());
        BecomeOwner(t, m);
        return Ok;
      }
      if noWait {
        return Busy;
      }
      if mx[m].protocol.PrioInherit? {
        SetInheritPriority(m, thisThreadPri);
        mx := mx[m := mx[m].(waitList := mx[m].waitList + [t])];
        th := th[t := th[t].(blocked := Some(m))];
        assert S() == Join(Donate(old(S()), Some(m), thisThreadPri), t, m);
      }
      th := th[t := th[t].(phase := WillPend(m))];
      return Blocks;
    }

    /** acquireMutexNone up to the first semaphore operation. */
    method AcquireMutexNone(t: Tid, m: Mid, noWait: bool) returns (code: Code)
      requires Refs(S()) && t < |th| && m < |mx| && mx[m].protocol.PrioNone?
      modifies this
      ensures (S(), code) == TryLock(old(S()), t, m, noWait)
    {
      if mx[m].owner == Some(t) {
        if mx[m].kind.ErrorCheck? {
          return Deadlock;
        }
        if mx[m].kind.Recursive? {
          mx := mx[m := mx[m].(lockCnt := mx[m].lockCnt + 1)];
          locks := locks + multiset{(t, m)};
          return Ok;
        }
      }
      if mx[m].count > 0 {
        mx := mx[m := mx[m].(count := mx[m].count - 1)];
        mx := mx[m := mx[m].(granted := Some(t))];
        th := th[t := th[t].(phase := Granted(m))];
        return Blocks;
      }
      if noWait {
        return Busy;
      }
      th := th[t := th[t].(phase := WillPend(m))];
      return Blocks;
    }

    /** The thread with the semaphore token becomes owner; the code asserts what is proved here first. */
    method FinishAcquire(t: Tid)
      requires Refs(S()) && Token(S()) && t < |th| && th[t].phase.Granted? && th[t].phase.m < |mx|
      modifies this
      ensures S() == Finish(old(S()), t)
    {
      var m := th[t].phase.m;
      assert ThreadOk(S(), t) && MutexOk(S(), m);
      assert mx[m].owner.None? && mx[m].lockCnt == 0;
      LeaveRefs(S(), t, m);
      if mx[m].protocol.PrioInherit? {
        th := th[t := th[t].(blocked := None)];
        mx := mx[m := mx[m].(waitList := Without(mx[m].waitList, t))];
      }
      BecomeOwner(t, m);
    }

    /** Lines 516-527 of pthread_mutex_unlock with removeMutex. */
    method ReleaseMutex(t: Tid, m: Mid)
      requires Refs(S()) && t < |th| && m < |mx|
      modifies `mx, `th
      ensures S() == Release(old(S()), t, m)
    {
      ReleaseRefs(S(), t, m);
      ghost var x := mx[m];
      mx := mx[m := mx[m].(owner := None, lockCnt := 0)];
      if mx[m].protocol.PrioInherit? {
        mx := mx[m := mx[m].(ceiling := 0)];
      }
      assert mx == old(mx)[m := x.(owner := None, lockCnt := 0, ceiling := if x.protocol.PrioInherit? then 0 else x.ceiling)];
      if !mx[m].protocol.PrioNone? {
        WithoutSubset(th[t].held, m);
        th := th[t := th[t].(held := Without(th[t].held, m))];
        Adjust(t);
      }
    }

    /** pthread_mutex_unlock */
    method MutexUnlock(t: Tid, m: Mid) returns (code: Code)
      requires Refs(S()) && t < |th| && m < |mx|
      modifies this
      ensures (S(), code) == Unlock(old(S()), t, m)
    {
      if mx[m].owner != Some(t) {
        return NotOwner;
      }
      locks := locks - multiset{(t, m)};
      ghost var s1 := S();
      if mx[m].lockCnt - 1 == 0 {
        ReleaseRefs(s1, t, m);
        ReleaseMutex(t, m);
        SemaphorePost(m);
      } else {
        mx := mx[m := mx[m].(lockCnt := mx[m].lockCnt - 1)];
      }
      return Ok;
    }

    /** Semaphore_post on the binary semaphore of m. */
    method SemaphorePost(m: Mid)
      requires Refs(S()) && m < |mx|
      modifies `mx, `th
      ensures S() == Post(old(S()), m)
    {
      if mx[m].pendQ == [] {
        mx := mx[m := mx[m].(count := 1)];
      } else {
        var elem := mx[m].pendQ[0];
        assert elem in mx[m].pendQ;
        mx := mx[m := mx[m].(pendQ := mx[m].pendQ[1..], granted := Some(elem))];
        th := th[elem := th[elem].(phase := Granted(m))];
      }
    }
  }
}
