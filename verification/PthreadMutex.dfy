/**
 The pthread mutex of packages/ti/posix/tirtos/pthread_mutex.c as a state machine.

 Threads and mutexes are numbered. A step is a region of code that runs with the task scheduler
 disabled, one semaphore operation, or the expiry of a semaphore timeout; between two steps any
 other thread may run.
 */
module PthreadMutex {
  import opened Base

  type Tid = nat
  type Mid = nat

  datatype Protocol = PrioNone | PrioInherit | PrioProtect
  datatype Kind = Normal | Recursive | ErrorCheck

  /** Where a thread is inside a lock call on a mutex it could not take at once. */
  datatype Phase =
    | Running              // outside every lock call
    | WillPend(m: Mid)     // about to pend on the semaphore
    | Waiting(m: Mid)      // on the semaphore's pend queue
    | Granted(m: Mid)      // owns the semaphore token, not yet the owner of the mutex
    | TimedOut(m: Mid)     // its pend failed, the clean-up has not run yet

  datatype Thread = Thread(
    base: int,                  // scheduled priority
    pri: int,                   // running priority
    blocked: Option<Mid>,       // blockedMutex
    held: seq<Mid>,             // mutexList
    phase: Phase)

  datatype Mutex = Mutex(
    protocol: Protocol,
    kind: Kind,
    owner: Option<Tid>,
    lockCnt: int,
    ceiling: int,               // prioceiling
    waitList: seq<Tid>,
    count: nat,                 // count of the binary semaphore
    pendQ: seq<Tid>,            // FIFO pend queue of the semaphore
    granted: Option<Tid>)       // thread that has the token but has not become owner yet

  /** `locks` is the history of the clients: one entry per lock call that returned 0 and is not unlocked yet. */
  datatype State = State(th: seq<Thread>, mx: seq<Mutex>, locks: multiset<(Tid, Mid)>)

  datatype Code = Ok | Blocks | Busy | Deadlock | Invalid | NotOwner

  /** References stay inside the tables. */
  ghost predicate Refs(s: State) {
    && (forall m :: 0 <= m < |s.mx| && s.mx[m].owner.Some? ==> s.mx[m].owner.value < |s.th|)
    && (forall t :: 0 <= t < |s.th| && s.th[t].blocked.Some? ==> s.th[t].blocked.value < |s.mx|)
    && (forall t, m :: 0 <= t < |s.th| && m in s.th[t].held ==> m < |s.mx|)
    && (forall m, t :: 0 <= m < |s.mx| && t in s.mx[m].waitList ==> t < |s.th|)
    && (forall m, t :: 0 <= m < |s.mx| && t in s.mx[m].pendQ ==> t < |s.th|)
  }

  // ---------------------------------------------------------------- priorities

  /** setPrioCeiling: the highest priority on the wait list, 0 if it is empty. */
  ghost function HighestWaiter(th: seq<Thread>, waitList: seq<Tid>): (r: int)
    requires forall t :: t in waitList ==> t < |th|
    ensures r >= 0
    ensures forall t :: t in waitList ==> th[t].pri <= r
    ensures r == 0 || exists t :: t in waitList && th[t].pri == r
  {
    if waitList == [] then 0
    else
      var last := waitList[|waitList| - 1];
      var rest := waitList[..|waitList| - 1];
      assert waitList == rest + [last];
      assert last in waitList && forall t :: t in rest ==> t in waitList;
      Max(HighestWaiter(th, rest), th[last].pri)
  }

  /** What setPrioCeiling returns: the priority of the last waiter, whatever the others are. */
  ghost function LastWaiter(th: seq<Thread>, waitList: seq<Tid>): int
    requires forall t :: t in waitList ==> t < |th|
  {
    if waitList == [] then 0 else assert waitList[|waitList| - 1] in waitList; th[waitList[|waitList| - 1]].pri
  }

  /** _pthread_getMaxPrioCeiling */
  ghost function MaxCeiling(mx: seq<Mutex>, held: seq<Mid>): (r: int)
    requires forall m :: m in held ==> m < |mx|
    ensures r >= 0
    ensures forall m :: m in held ==> mx[m].ceiling <= r
    ensures r == 0 || exists m :: m in held && mx[m].ceiling == r
  {
    if held == [] then 0
    else
      var last := held[|held| - 1];
      var rest := held[..|held| - 1];
      assert held == rest + [last];
      assert last in held && forall m :: m in rest ==> m in held;
      Max(MaxCeiling(mx, rest), mx[last].ceiling)
  }

  ghost function SetCeiling(s: State, m: Mid): State
    requires Refs(s) && m < |s.mx|
  {
    s.(mx := s.mx[m := s.mx[m].(ceiling := HighestWaiter(s.th, s.mx[m].waitList))])
  }

  ghost function AdjustPri(s: State, t: Tid): State
    requires Refs(s) && t < |s.th|
  {
    s.(th := s.th[t := s.th[t].(pri := Max(s.th[t].base, MaxCeiling(s.mx, s.th[t].held)))])
  }

  /** One round of setInheritPriority: the owner o of m runs at p and m remembers it. */
  ghost function Boost(s: State, m: Mid, o: Tid, p: int): State
    requires m < |s.mx| && o < |s.th|
  {
    s.(th := s.th[o := s.th[o].(pri := p)], mx := s.mx[m := s.mx[m].(ceiling := p)])
  }

  /** The threads that a donation of p can still raise. */
  ghost function Below(s: State, p: int): set<Tid> {
    set t | 0 <= t < |s.th| && s.th[t].pri < p
  }

  lemma RaisesOne(s: State, m: Mid, o: Tid, p: int)
    requires m < |s.mx| && o < |s.th| && s.th[o].pri < p
    ensures Below(Boost(s, m, o, p), p) < Below(s, p)
  {
    var s' := Boost(s, m, o, p);
    assert Below(s', p) <= Below(s, p) && o in Below(s, p) && o !in Below(s', p);
  }

  /** setInheritPriority. No condition on the ownership graph: every round raises one more thread to p. */
  ghost function Donate(s: State, next: Option<Mid>, p: int): (r: State)
    requires Refs(s) && (next.Some? ==> next.value < |s.mx|)
    ensures |r.th| == |s.th| && |r.mx| == |s.mx|
    decreases Below(s, p)
  {
    if next.None? || s.mx[next.value].owner.None? then s
    else
      var o := s.mx[next.value].owner.value;
      if s.th[o].pri < p then
        var s' := Boost(s, next.value, o, p);
        RaisesOne(s, next.value, o, p);
        Donate(s', s.th[o].blocked, p)
      else s
  }

  /** resetInheritPriority, stopped after n rounds: None when the loop has not ended by then. */
  ghost function ResetWithin(s: State, next: Option<Mid>, n: nat): (r: Option<State>)
    requires Refs(s) && (next.Some? ==> next.value < |s.mx|)
    decreases n
  {
    if next.None? || s.mx[next.value].owner.None? then Some(s)
    else if n == 0 then None
    else
      var m := next.value;
      var o := s.mx[m].owner.value;
      var s1 := SetCeiling(s, m);
      if s.th[o].pri <= LastWaiter(s.th, s.mx[m].waitList) then Some(s1)
      else
        var s2 := AdjustPri(s1, o);
        ResetWithin(s2, s2.th[o].blocked, n - 1)
  }

  /** resetInheritPriority(m) ends, and s' is the state it leaves. */
  ghost predicate ResetsTo(s: State, m: Mid, s': State)
    requires Refs(s) && m < |s.mx|
  {
    exists n: nat :: ResetWithin(s, Some(m), n) == Some(s')
  }

  // ---------------------------------------------------------------- the steps

  ghost function SetPhase(s: State, t: Tid, ph: Phase): State
    requires t < |s.th|
  {
    s.(th := s.th[t := s.th[t].(phase := ph)])
  }

  /** Lines 779-805 and 650-651: t becomes the owner of m. */
  ghost function TakeOwnership(s: State, t: Tid, m: Mid): State
    requires Refs(s) && t < |s.th| && m < |s.mx|
  {
    var x := s.mx[m];
    var ceiling := if x.protocol.PrioInherit? then HighestWaiter(s.th, x.waitList) else x.ceiling;
    var x' := x.(owner := Some(t), lockCnt := 1, granted := None, ceiling := ceiling);
    var y := s.th[t].(phase := Running);
    var y' := if x.protocol.PrioNone? then y
              else y.(held := y.held + [m], pri := Max(y.pri, ceiling));
    State(s.th[t := y'], s.mx[m := x'], s.locks + multiset{(t, m)})
  }

  /** Line 732-733: t goes to the end of the wait list of m. */
  ghost function Join(s: State, t: Tid, m: Mid): State
    requires t < |s.th| && m < |s.mx|
  {
    s.(th := s.th[t := s.th[t].(blocked := Some(m))],
       mx := s.mx[m := s.mx[m].(waitList := s.mx[m].waitList + [t])])
  }

  /** Lines 745-748 and 768-773. */
  ghost function Leave(s: State, t: Tid, m: Mid): State
    requires t < |s.th| && m < |s.mx|
  {
    s.(th := s.th[t := s.th[t].(blocked := None)],
       mx := s.mx[m := s.mx[m].(waitList := Without(s.mx[m].waitList, t))])
  }

  /** The first region of acquireMutexNone and acquireMutexPriority. */
  ghost function TryLock(s: State, t: Tid, m: Mid, noWait: bool): (State, Code)
    requires Refs(s) && t < |s.th| && m < |s.mx|
  {
    var x := s.mx[m];
    if x.protocol.PrioProtect? && x.ceiling < s.th[t].base then (s, Invalid)
    else if x.owner == Some(t) && x.kind.ErrorCheck? then (s, Deadlock)
    else if x.owner == Some(t) && x.kind.Recursive? then
      (s.(mx := s.mx[m := x.(lockCnt := x.lockCnt + 1)], locks := s.locks + multiset{(t, m)}), Ok)
    else if x.count > 0 then
      var s1 := s.(mx := s.mx[m := x.(count := x.count - 1)]);
      if x.protocol.PrioNone? then
        // preemption is possible between the pend and the assignment of the owner
        (SetPhase(s1.(mx := s1.mx[m := s1.mx[m].(granted := Some(t))]), t, Granted(m)), Blocks)
      else (TakeOwnership(s1, t, m), Ok)
    else if noWait then (s, Busy)
    else
      var s1 := if x.protocol.PrioInherit? then Join(Donate(s, Some(m), s.th[t].pri), t, m) else s;
      (SetPhase(s1, t, WillPend(m)), Blocks)
  }

  /** Semaphore_pend of a thread that found the mutex taken. */
  ghost function Pend(s: State, t: Tid): State
    requires t < |s.th| && s.th[t].phase.WillPend? && s.th[t].phase.m < |s.mx|
  {
    var m := s.th[t].phase.m;
    var x := s.mx[m];
    if x.count > 0 then
      SetPhase(s.(mx := s.mx[m := x.(count := x.count - 1, granted := Some(t))]), t, Granted(m))
    else
      SetPhase(s.(mx := s.mx[m := x.(pendQ := x.pendQ + [t])]), t, Waiting(m))
  }

  /** The semaphore timeout of a waiting thread expires. */
  ghost function Expire(s: State, t: Tid): State
    requires t < |s.th| && s.th[t].phase.Waiting? && s.th[t].phase.m < |s.mx|
  {
    var m := s.th[t].phase.m;
    SetPhase(s.(mx := s.mx[m := s.mx[m].(pendQ := Without(s.mx[m].pendQ, t))]), t, TimedOut(m))
  }

  /** Lines 766-805 (and 645-651): the thread with the token becomes the owner. */
  ghost function Finish(s: State, t: Tid): State
    requires Refs(s) && t < |s.th| && s.th[t].phase.Granted? && s.th[t].phase.m < |s.mx|
  {
    var m := s.th[t].phase.m;
    var s1 := if s.mx[m].protocol.PrioInherit? then Leave(s, t, m) else s;
    assert Refs(s1) by { LeaveRefs(s, t, m); }
    TakeOwnership(s1, t, m)
  }

  /** Lines 741-756 up to the call of resetInheritPriority. */
  ghost function GiveUp(s: State, t: Tid): State
    requires t < |s.th| && s.th[t].phase.TimedOut? && s.th[t].phase.m < |s.mx|
  {
    var m := s.th[t].phase.m;
    SetPhase(if s.mx[m].protocol.PrioInherit? then Leave(s, t, m) else s, t, Running)
  }

  /** Semaphore_post on the binary semaphore of m. */
  ghost function Post(s: State, m: Mid): State
    requires Refs(s) && m < |s.mx|
  {
    var x := s.mx[m];
    if x.pendQ == [] then s.(mx := s.mx[m := x.(count := 1)])
    else
      assert x.pendQ[0] in x.pendQ;
      SetPhase(s.(mx := s.mx[m := x.(pendQ := x.pendQ[1..], granted := Some(x.pendQ[0]))]), x.pendQ[0], Granted(m))
  }

  /** Lines 516-527: the owner t lets go of m, before the post. */
  ghost function Release(s: State, t: Tid, m: Mid): State
    requires Refs(s) && t < |s.th| && m < |s.mx|
  {
    var x := s.mx[m];
    var x' := x.(owner := None, lockCnt := 0, ceiling := if x.protocol.PrioInherit? then 0 else x.ceiling);
    var s1 := s.(mx := s.mx[m := x']);
    if x.protocol.PrioNone? then s1
    else
      var s2 := s1.(th := s1.th[t := s1.th[t].(held := Without(s1.th[t].held, m))]);
      assert Refs(s2) by { WithoutSubset(s1.th[t].held, m); }
      AdjustPri(s2, t)
  }

  ghost function Unlock(s: State, t: Tid, m: Mid): (State, Code)
    requires Refs(s) && t < |s.th| && m < |s.mx|
  {
    var x := s.mx[m];
    if x.owner != Some(t) then (s, NotOwner)
    else
      var s1 := s.(locks := s.locks - multiset{(t, m)});
      if x.lockCnt - 1 != 0 then (s1.(mx := s.mx[m := x.(lockCnt := x.lockCnt - 1)]), Ok)
      else
        assert Refs(Release(s1, t, m)) by { ReleaseRefs(s1, t, m); }
        (Post(Release(s1, t, m), m), Ok)
  }

  lemma {:induction false} WithoutSubset<T>(s: seq<T>, x: T)
    ensures forall y :: y in Without(s, x) ==> y in s
  {
    if s != [] && s[0] != x {
      WithoutSubset(s[1..], x);
      assert forall y :: y in s[1..] ==> y in s;
    }
  }

  lemma LeaveRefs(s: State, t: Tid, m: Mid)
    requires Refs(s) && t < |s.th| && m < |s.mx|
    ensures Refs(Leave(s, t, m))
  {
    WithoutSubset(s.mx[m].waitList, t);
  }

  lemma ReleaseRefs(s: State, t: Tid, m: Mid)
    requires Refs(s) && t < |s.th| && m < |s.mx|
    ensures Refs(Release(s, t, m))
  {
    WithoutSubset(s.th[t].held, m);
  }
}
