/**
 Where the priority inheritance of pthread_mutex.c falls short of POSIX, and exactly when: a donation that stops at an
 uncovered mutex leaves a ceiling stale, and a later release relies on it.
 */
module PriorityInversion {
  import opened Base
  import opened PthreadMutex
  import opened MutexToken
  import opened PriorityInheritance
  import opened PriorityWithdrawal

  /**
   What the stored ceilings are worth. When a thread lets go of mutex a, it stays at or above the threads blocked on a
   mutex k that it keeps if and only if its base, or the highest ceiling stored in the mutexes it keeps, covers them.
   */
  lemma StaleCeilingInverts(s: State, o: Tid, a: Mid, k: Mid)
    requires Links(s) && Token(s) && o < |s.th| && s.th[o].phase.Running?
    requires a < |s.mx| && k < |s.mx| && a != k && s.mx[a].owner == Some(o) && s.mx[k].owner == Some(o)
    requires s.mx[k].protocol.PrioInherit? && !s.mx[a].protocol.PrioNone? && s.mx[a].lockCnt == 1
    ensures Refs(Unlock(s, o, a).0) && forall j: Mid :: j in Without(s.th[o].held, a) ==> j < |s.mx|
    ensures Dom(Unlock(s, o, a).0, k) <==>
              forall t :: t in s.mx[k].waitList ==>
                s.th[t].pri <= Max(s.th[o].base, MaxCeiling(s.mx, Without(s.th[o].held, a)))
  {
    var s1 := s.(locks := s.locks - multiset{(o, a)});
    ShapeFree(s, s1);
    ReleaseFields(s1, o, a);
    var r := Release(s1, o, a);
    HeldLeft(s, o, a);
    assert k in r.th[o].held by { assert MutexLinks(s, k); }
    assert r.th[o].held == Without(s.th[o].held, a);
    ReleasedDom(s1, r, o, a, k);
    PostPriorities(r, a, k);
  }

  /**
   So the last unlock of a mutex leaves its thread at the POSIX priority if and only if base and remaining ceilings
   cover everyone blocked on the mutexes it keeps, however many these are.
   */
  lemma UnlockPosixIff(s: State, o: Tid, a: Mid)
    requires Sound(s) && Token(s) && o < |s.th| && s.th[o].phase.Running?
    requires a < |s.mx| && s.mx[a].owner == Some(o) && s.mx[a].lockCnt == 1 && !s.mx[a].protocol.PrioNone?
    ensures Refs(Unlock(s, o, a).0) && |Unlock(s, o, a).0.th| == |s.th|
    ensures forall j: Mid :: j in Without(s.th[o].held, a) ==> j < |s.mx|
    ensures PosixPriority(Unlock(s, o, a).0, o) <==> Suffices(s, o, Without(s.th[o].held, a))
  {
    hide Unlock, ThreadLinks, MutexLinks, MaxCeiling, PosixPriority, Token, Tight, Dom, NoExcess;
    UnlockKeeps(s, o, a);
    HeldLeft(s, o, a);
    UnlockFields(s, o, a);
    if Suffices(s, o, Without(s.th[o].held, a)) {
      SoundIsPosix(Unlock(s, o, a).0, o);
    } else {
      var k, u :| k in Without(s.th[o].held, a) && s.mx[k].protocol.PrioInherit? && u in s.mx[k].waitList && u != o
                  && s.th[u].pri > Max(s.th[o].base, MaxCeiling(s.mx, Without(s.th[o].held, a)));
      UnlockInverts(s, o, a, k, u);
    }
  }

  lemma UnlockInverts(s: State, o: Tid, a: Mid, k: Mid, u: Tid)
    requires Links(s) && Token(s) && o < |s.th| && s.th[o].phase.Running? && u < |s.th|
    requires a < |s.mx| && s.mx[a].owner == Some(o) && s.mx[a].lockCnt == 1 && !s.mx[a].protocol.PrioNone?
    requires k < |s.mx| && k != a && k in s.th[o].held && s.mx[k].protocol.PrioInherit? && u in s.mx[k].waitList
    requires forall j: Mid :: j in Without(s.th[o].held, a) ==> j < |s.mx|
    requires s.th[u].pri > Max(s.th[o].base, MaxCeiling(s.mx, Without(s.th[o].held, a)))
    requires Links(Unlock(s, o, a).0)
    ensures |Unlock(s, o, a).0.th| == |s.th| && !PosixPriority(Unlock(s, o, a).0, o)
  {
    hide Unlock, MaxCeiling;
    assert ThreadLinks(s, o);
    var s' := Unlock(s, o, a).0;
    StaleCeilingInverts(s, o, a, k);
    UnlockFields(s, o, a);
    assert !Dom(s', k) && MutexLinks(s', k);
  }

  lemma UnlockFields(s: State, o: Tid, a: Mid)
    requires Refs(s) && o < |s.th| && a < |s.mx|
    ensures var s' := Unlock(s, o, a).0;
            && |s'.th| == |s.th| && |s'.mx| == |s.mx|
            && forall k :: 0 <= k < |s.mx| && k != a ==> s'.mx[k] == s.mx[k]
  {
    var s1 := s.(locks := s.locks - multiset{(o, a)});
    ReleaseRefs(s1, o, a);
    ReleasePhases(s1, o, a);
    PostFields(Release(s1, o, a), a);
  }

  lemma PostPriorities(r: State, a: Mid, k: Mid)
    requires Refs(r) && a < |r.mx| && k < |r.mx| && a != k
    ensures Refs(Post(r, a)) && Post(r, a).mx[k] == r.mx[k]
    ensures Dom(Post(r, a), k) <==> Dom(r, k)
  {
    var q := r.mx[a].pendQ;
    if q != [] {
      assert q[0] in q && forall u :: u in q[1..] ==> u in q;
    }
    var s' := Post(r, a);
    assert |s'.th| == |r.th| && |s'.mx| == |r.mx|;
    assert forall u :: 0 <= u < |r.th| ==> s'.th[u] == r.th[u].(phase := s'.th[u].phase);
  }

  lemma ShapeFree(s: State, s1: State)
    requires Links(s) && s1.th == s.th && s1.mx == s.mx
    ensures Links(s1)
  {
    forall t | 0 <= t < |s1.th| ensures ThreadLinks(s1, t) {
      assert ThreadLinks(s, t);
    }
    forall m | 0 <= m < |s1.mx| ensures MutexLinks(s1, m) {
      assert MutexLinks(s, m);
    }
  }

  // ---------------------------------------------------------------- a run with an inversion

  ghost function FreshThread(base: int): Thread {
    Thread(base, base, None, [], Running)
  }

  ghost function FreshMutex(): Mutex {
    Mutex(PrioInherit, ErrorCheck, None, 0, 0, [], 1, [], None)
  }

  ghost function OwnedMutex(o: Tid, ceiling: int, waitList: seq<Tid>): Mutex {
    Mutex(PrioInherit, ErrorCheck, Some(o), 1, ceiling, waitList, 0, [], None)
  }

  ghost function S0(): State {
    State([FreshThread(1), FreshThread(9), FreshThread(5)], [FreshMutex(), FreshMutex()], multiset{})
  }

  /** Thread 0 holds both mutexes. */
  ghost function S2(): State {
    State([Thread(1, 1, None, [0, 1], Running), FreshThread(9), FreshThread(5)],
          [OwnedMutex(0, 0, []), OwnedMutex(0, 0, [])], multiset{(0, 0), (0, 1)})
  }

  /** Thread 1 (priority 9) waits for mutex 0 and has boosted thread 0. */
  ghost function S3(): State {
    State([Thread(1, 9, None, [0, 1], Running), Thread(9, 9, Some(0), [], WillPend(0)), FreshThread(5)],
          [OwnedMutex(0, 9, [1]), OwnedMutex(0, 0, [])], multiset{(0, 0), (0, 1)})
  }

  /** Thread 2 (priority 5) waits for mutex 1; its donation stopped at once and stored nothing. */
  ghost function S4(): State {
    State([Thread(1, 9, None, [0, 1], Running), Thread(9, 9, Some(0), [], WillPend(0)), Thread(5, 5, Some(1), [], WillPend(1))],
          [OwnedMutex(0, 9, [1]), OwnedMutex(0, 0, [2])], multiset{(0, 0), (0, 1)})
  }

  /** Thread 0 released mutex 0: it runs at 1 although thread 2 (priority 5) waits for mutex 1, which it still holds. */
  ghost function S5(): State {
    State([Thread(1, 1, None, [1], Running), Thread(9, 9, Some(0), [], WillPend(0)), Thread(5, 5, Some(1), [], WillPend(1))],
          [Mutex(PrioInherit, ErrorCheck, None, 0, 0, [1], 1, [], None), OwnedMutex(0, 0, [2])], multiset{(0, 1)})
  }

  ghost function S1(): State {
    State([Thread(1, 1, None, [0], Running), FreshThread(9), FreshThread(5)],
          [OwnedMutex(0, 0, []), FreshMutex()], multiset{(0, 0)})
  }

  /** A reachable state in which a thread of priority 1 holds an inherit mutex a thread of priority 5 waits for. */
  lemma InversionRun()
    ensures Run([S0(), S1(), S2(), S3(), S4(), S5()],
                [Lock(0, 0, false), Lock(0, 1, false), Lock(1, 0, false), Lock(2, 1, false), UnlockBy(0, 0)])
    ensures Refs(S5()) && !PosixPriority(S5(), 0)
    ensures CoveredStep(S2(), Lock(1, 0, false)) && !CoveredStep(S3(), Lock(2, 1, false))
  {
    FirstSteps();
    ThirdStep();
    FourthStep();
    FifthStep();
    Inverted();
    StartsInitial();
    FiveSteps(S0(), S1(), S2(), S3(), S4(), S5(),
              Lock(0, 0, false), Lock(0, 1, false), Lock(1, 0, false), Lock(2, 1, false), UnlockBy(0, 0));
  }

  lemma StartsInitial()
    ensures Initial(S0())
  {
  }

  lemma Inverted()
    ensures Refs(S5()) && !PosixPriority(S5(), 0)
  {
    var s := S5();
    assert s.th[0].held[0] == 1 && s.mx[1].waitList[0] == 2;
    assert 1 in s.th[0].held && s.mx[1].protocol.PrioInherit? && 2 in s.mx[1].waitList && s.th[2].pri > s.th[0].pri;
  }

  lemma FiveSteps(s0: State, s1: State, s2: State, s3: State, s4: State, s5: State,
                  e0: Event, e1: Event, e2: Event, e3: Event, e4: Event)
    requires Initial(s0)
    requires Next(s0, e0, s1) && Next(s1, e1, s2) && Next(s2, e2, s3) && Next(s3, e3, s4) && Next(s4, e4, s5)
    ensures Run([s0, s1, s2, s3, s4, s5], [e0, e1, e2, e3, e4])
  {
    hide Next, Initial;
  }

  lemma FirstSteps()
    ensures Next(S0(), Lock(0, 0, false), S1()) && Next(S1(), Lock(0, 1, false), S2())
  {
    FirstStep();
    SecondStep();
  }

  lemma FirstStep()
    ensures Next(S0(), Lock(0, 0, false), S1())
  {
    var a := TryLock(S0(), 0, 0, false).0;
    assert a.th[0].held == [0] && a.th == S1().th && a.mx == S1().mx && a.locks == S1().locks;
  }

  lemma SecondStep()
    ensures Next(S1(), Lock(0, 1, false), S2())
  {
    var b := TryLock(S1(), 0, 1, false).0;
    assert b.th[0].held == [0, 1] && b.th == S2().th && b.mx == S2().mx && b.locks == S2().locks;
  }

  lemma ThirdStep()
    ensures Next(S2(), Lock(1, 0, false), S3()) && CoveredStep(S2(), Lock(1, 0, false))
  {
    ThirdDonation();
    hide Donate, Covered;
    var r := TryLock(S2(), 1, 0, false).0;
    assert r.mx[0].waitList == [1] && r.th == S3().th && r.mx == S3().mx;
  }

  lemma ThirdDonation()
    ensures Refs(S2())
    ensures Donate(S2(), Some(0), 9) == Boost(S2(), 0, 0, 9) && Covered(S2(), Some(0), 9)
  {
    var b := Boost(S2(), 0, 0, 9);
    assert Refs(S2()) && Refs(b);
    assert Donate(b, None, 9) == b;
  }

  lemma FourthStep()
    ensures Next(S3(), Lock(2, 1, false), S4()) && !CoveredStep(S3(), Lock(2, 1, false))
  {
    FourthDonation();
    hide Donate, Covered;
    var r := TryLock(S3(), 2, 1, false).0;
    assert r.mx[1].waitList == [2] && r.th == S4().th && r.mx == S4().mx;
    assert BlocksOn(S3(), 2, 1);
  }

  lemma FourthDonation()
    ensures Refs(S3())
    ensures Donate(S3(), Some(1), 5) == S3() && !Covered(S3(), Some(1), 5)
  {
  }

  lemma FifthStep()
    ensures Next(S4(), UnlockBy(0, 0), S5())
  {
    var s := S4().(locks := multiset{(0, 1)});
    assert S4().locks - multiset{(0, 0)} == s.locks;
    FifthRelease(s);
    var r := Release(s, 0, 0);
    var p := Post(r, 0);
    assert p.th == S5().th && p.mx == S5().mx;
  }

  lemma FifthRelease(s: State)
    requires s == S4().(locks := multiset{(0, 1)})
    ensures Refs(s) && Refs(Release(s, 0, 0))
    ensures Release(s, 0, 0).th == S5().th
    ensures Release(s, 0, 0).mx == [Mutex(PrioInherit, ErrorCheck, None, 0, 0, [1], 0, [], None), OwnedMutex(0, 0, [2])]
    ensures Release(s, 0, 0).locks == s.locks
  {
    assert Refs(s);
    ReleaseRefs(s, 0, 0);
    var held := s.th[0].held;
    assert held[0] == 0 && held[1..] == [1];
    assert Without(held, 0) == [1];
    var mx := [Mutex(PrioInherit, ErrorCheck, None, 0, 0, [1], 0, [], None), OwnedMutex(0, 0, [2])];
    var r := Release(s, 0, 0);
    assert r.mx == mx;
    assert [1][..0] == [];
    assert MaxCeiling(mx, [1]) == 0;
  }
}
