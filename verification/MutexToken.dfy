/**
 The ownership token: in every interleaving of lock, timed lock, try lock and unlock calls each mutex
 is free, granted to one thread on its way to ownership, or owned, and the two assertions made when a
 thread becomes owner hold.
 */
module MutexToken {
  import opened Base
  import opened PthreadMutex

  datatype Event =
    | Lock(t: Tid, m: Mid, noWait: bool)
    | PendOn(t: Tid)
    | Expires(t: Tid)
    | Acquire(t: Tid)
    | Abandon(t: Tid)
    | UnlockBy(t: Tid, m: Mid)

  ghost predicate Enabled(s: State, e: Event) {
    && Refs(s)
    && e.t < |s.th|
    && match e {
         case Lock(t, m, _) => m < |s.mx| && s.th[t].phase.Running?
         case PendOn(t) => s.th[t].phase.WillPend? && s.th[t].phase.m < |s.mx|
         case Expires(t) => s.th[t].phase.Waiting? && s.th[t].phase.m < |s.mx|
         case Acquire(t) => s.th[t].phase.Granted? && s.th[t].phase.m < |s.mx|
         case Abandon(t) => s.th[t].phase.TimedOut? && s.th[t].phase.m < |s.mx|
         case UnlockBy(t, m) => m < |s.mx| && s.th[t].phase.Running?
       }
  }

  /** s' is the state after e. Only Abandon may have no such state: resetInheritPriority need not end. */
  ghost predicate Next(s: State, e: Event, s': State) {
    && Enabled(s, e)
    && match e {
         case Lock(t, m, noWait) => s' == TryLock(s, t, m, noWait).0
         case PendOn(t) => s' == Pend(s, t)
         case Expires(t) => s' == Expire(s, t)
         case Acquire(t) => s' == Finish(s, t)
         case Abandon(t) =>
           var m := s.th[t].phase.m;
           var g := GiveUp(s, t);
           if s.mx[m].protocol.PrioInherit? then Refs(g) && ResetsTo(g, m, s') else s' == g
         case UnlockBy(t, m) => s' == Unlock(s, t, m).0
       }
  }

  // ---------------------------------------------------------------- the invariant

  ghost predicate FreeState(x: Mutex) {
    x.count == 1 && x.granted.None? && x.owner.None? && x.lockCnt == 0 && x.pendQ == []
  }

  ghost predicate GrantedState(x: Mutex) {
    x.count == 0 && x.granted.Some? && x.owner.None? && x.lockCnt == 0
  }

  ghost predicate OwnedState(x: Mutex) {
    x.count == 0 && x.granted.None? && x.owner.Some? && x.lockCnt >= 1
  }

  ghost predicate MutexOk(s: State, m: Mid)
    requires m < |s.mx|
  {
    var x := s.mx[m];
    && (FreeState(x) || GrantedState(x) || OwnedState(x))
    && Distinct(x.pendQ)
    && (forall t :: t in x.pendQ ==> t < |s.th| && s.th[t].phase == Waiting(m))
    && (x.granted.Some? ==> x.granted.value < |s.th| && s.th[x.granted.value].phase == Granted(m))
    && (x.owner.Some? ==> x.owner.value < |s.th|)
  }

  ghost predicate ThreadOk(s: State, t: Tid)
    requires t < |s.th|
  {
    match s.th[t].phase
    case Running => true
    case WillPend(m) => m < |s.mx|
    case Waiting(m) => m < |s.mx| && t in s.mx[m].pendQ
    case Granted(m) => m < |s.mx| && s.mx[m].granted == Some(t)
    case TimedOut(m) => m < |s.mx|
  }

  /** The number of times t holds m according to the mutex object. */
  ghost function Depth(s: State, t: Tid, m: Mid): int {
    if m < |s.mx| && s.mx[m].owner == Some(t) then s.mx[m].lockCnt else 0
  }

  ghost predicate Token(s: State) {
    && (forall m :: 0 <= m < |s.mx| ==> MutexOk(s, m))
    && (forall t :: 0 <= t < |s.th| ==> ThreadOk(s, t))
    && (forall t: nat, m: nat :: s.locks[(t, m)] == Depth(s, t, m))
  }

  /** s and s' differ in running priorities and stored ceilings only. */
  ghost predicate SameShape(s: State, s': State) {
    && |s'.th| == |s.th| && |s'.mx| == |s.mx| && s'.locks == s.locks
    && (forall t :: 0 <= t < |s.th| ==> s'.th[t] == s.th[t].(pri := s'.th[t].pri))
    && (forall m :: 0 <= m < |s.mx| ==> s'.mx[m] == s.mx[m].(ceiling := s'.mx[m].ceiling))
  }

  lemma {:induction false} DonateShape(s: State, next: Option<Mid>, p: int)
    requires Refs(s) && (next.Some? ==> next.value < |s.mx|)
    ensures SameShape(s, Donate(s, next, p))
    decreases Below(s, p)
  {
    if next.Some? && s.mx[next.value].owner.Some? {
      var o := s.mx[next.value].owner.value;
      if s.th[o].pri < p {
        var s' := Boost(s, next.value, o, p);
        RaisesOne(s, next.value, o, p);
        DonateShape(s', s.th[o].blocked, p);
      }
    }
  }

  lemma {:induction false} ResetShape(s: State, next: Option<Mid>, n: nat)
    requires Refs(s) && (next.Some? ==> next.value < |s.mx|)
    requires ResetWithin(s, next, n).Some?
    ensures SameShape(s, ResetWithin(s, next, n).value)
    decreases n
  {
    if next.Some? && s.mx[next.value].owner.Some? && n > 0 {
      var m := next.value;
      var o := s.mx[m].owner.value;
      if s.th[o].pri > LastWaiter(s.th, s.mx[m].waitList) {
        var s2 := RoundEnd(s, m, o);
        RoundShape(s, m, o);
        ResetShape(s2, s2.th[o].blocked, n - 1);
        ShapeTransitive(s, s2, ResetWithin(s, next, n).value);
      }
    }
  }

  /** One round of resetInheritPriority on m and its owner o. */
  ghost function RoundEnd(s: State, m: Mid, o: Tid): State
    requires Refs(s) && m < |s.mx| && o < |s.th|
  {
    AdjustPri(SetCeiling(s, m), o)
  }

  lemma RoundShape(s: State, m: Mid, o: Tid)
    requires Refs(s) && m < |s.mx| && o < |s.th|
    ensures SameShape(s, RoundEnd(s, m, o)) && Refs(RoundEnd(s, m, o))
  {
  }

  lemma ShapeTransitive(a: State, b: State, c: State)
    requires SameShape(a, b) && SameShape(b, c)
    ensures SameShape(a, c)
  {
  }

  lemma ShapeToken(s: State, s': State)
    requires Token(s) && SameShape(s, s')
    ensures Token(s')
  {
    forall m | 0 <= m < |s'.mx| ensures MutexOk(s', m) {
      assert MutexOk(s, m);
    }
    forall t | 0 <= t < |s'.th| ensures ThreadOk(s', t) {
      assert ThreadOk(s, t);
    }
    forall t: nat, m: nat ensures s'.locks[(t, m)] == Depth(s', t, m) {
      assert s.locks[(t, m)] == Depth(s, t, m);
    }
  }

  // ---------------------------------------------------------------- every step keeps it

  /** Joining or leaving a wait list and changing the phase of a thread outside the semaphore keep the token. */
  lemma QuietToken(s: State, s': State, t: Tid)
    requires Token(s) && |s'.th| == |s.th| && |s'.mx| == |s.mx| && s'.locks == s.locks && t < |s.th|
    requires forall u :: 0 <= u < |s.th| && u != t ==> s'.th[u].phase == s.th[u].phase
    requires forall m :: 0 <= m < |s.mx| ==>
               s'.mx[m] == s.mx[m].(ceiling := s'.mx[m].ceiling, waitList := s'.mx[m].waitList)
    requires !s.th[t].phase.Waiting? && !s.th[t].phase.Granted?
    requires s'.th[t].phase.Running? || (s'.th[t].phase.WillPend? && s'.th[t].phase.m < |s.mx|)
    ensures Token(s')
  {
    forall m | 0 <= m < |s'.mx| ensures MutexOk(s', m) {
      assert MutexOk(s, m);
    }
    forall u | 0 <= u < |s'.th| ensures ThreadOk(s', u) {
      assert ThreadOk(s, u);
    }
    forall u: nat, m: nat ensures s'.locks[(u, m)] == Depth(s', u, m) {
      assert s.locks[(u, m)] == Depth(s, u, m);
    }
  }

  /** Whoever takes the ownership finds the two assertions of lines 647-648 and 776-777 true, and keeps the token. */
  lemma TakeToken(s: State, t: Tid, m: Mid, s0: State)
    requires Refs(s) && t < |s.th| && m < |s.mx|
    requires |s0.th| == |s.th| && |s0.mx| == |s.mx| && s0.locks == s.locks && Token(s0)
    requires forall u :: 0 <= u < |s.th| ==> s.th[u].phase == s0.th[u].phase
    requires forall k :: 0 <= k < |s.mx| && k != m ==> s.mx[k] == s0.mx[k]
    requires s.mx[m].pendQ == s0.mx[m].pendQ && s.mx[m].owner == s0.mx[m].owner
    requires s.mx[m].lockCnt == s0.mx[m].lockCnt && s.mx[m].count == 0
    requires || (s0.mx[m].count == 1 && s0.th[t].phase.Running?)
             || s0.th[t].phase == Granted(m)
    ensures s.mx[m].owner.None? && s.mx[m].lockCnt == 0
    ensures Token(TakeOwnership(s, t, m))
  {
    var s' := TakeOwnership(s, t, m);
    assert MutexOk(s0, m) && ThreadOk(s0, t);
    forall k | 0 <= k < |s'.mx| ensures MutexOk(s', k) {
      assert MutexOk(s0, k);
    }
    forall u | 0 <= u < |s'.th| ensures ThreadOk(s', u) {
      assert ThreadOk(s0, u);
    }
    forall u: nat, k: nat ensures s'.locks[(u, k)] == Depth(s', u, k) {
      assert s0.locks[(u, k)] == Depth(s0, u, k);
    }
  }

  lemma TryLockToken(s: State, t: Tid, m: Mid, noWait: bool)
    requires Token(s) && Refs(s) && t < |s.th| && m < |s.mx| && s.th[t].phase.Running?
    ensures Token(TryLock(s, t, m, noWait).0)
  {
    var x := s.mx[m];
    var (s', code) := TryLock(s, t, m, noWait);
    assert MutexOk(s, m);
    if s' == s {
    } else if x.owner == Some(t) && x.kind.Recursive? {
      LockCountToken(s, s', t, m);
    } else if x.count > 0 {
      var s1 := s.(mx := s.mx[m := x.(count := x.count - 1)]);
      if x.protocol.PrioNone? {
        GrantToken(s, s', t, m);
      } else {
        TakeToken(s1, t, m, s);
      }
    } else if x.protocol.PrioInherit? {
      DonateShape(s, Some(m), s.th[t].pri);
      ShapeToken(s, Donate(s, Some(m), s.th[t].pri));
      QuietToken(Donate(s, Some(m), s.th[t].pri), s', t);
    } else {
      QuietToken(s, s', t);
    }
  }

  /** A nested lock of a recursive mutex. */
  lemma LockCountToken(s: State, s': State, t: Tid, m: Mid)
    requires Token(s) && t < |s.th| && m < |s.mx| && s.mx[m].owner == Some(t)
    requires s' == s.(mx := s.mx[m := s.mx[m].(lockCnt := s.mx[m].lockCnt + 1)], locks := s.locks + multiset{(t, m)})
    ensures Token(s')
  {
    forall k | 0 <= k < |s'.mx| ensures MutexOk(s', k) {
      assert MutexOk(s, k);
    }
    forall u | 0 <= u < |s'.th| ensures ThreadOk(s', u) {
      assert ThreadOk(s, u);
    }
    forall u: nat, k: nat ensures s'.locks[(u, k)] == Depth(s', u, k) {
      assert s.locks[(u, k)] == Depth(s, u, k);
    }
  }

  /** The token goes from the semaphore count to a thread. */
  lemma GrantToken(s: State, s': State, t: Tid, m: Mid)
    requires Token(s) && t < |s.th| && m < |s.mx| && s.mx[m].count > 0
    requires s.th[t].phase.Running? || s.th[t].phase.WillPend?
    requires s'.mx == s.mx[m := s.mx[m].(count := s.mx[m].count - 1, granted := Some(t))]
    requires s'.th == s.th[t := s.th[t].(phase := Granted(m))] && s'.locks == s.locks
    ensures Token(s')
  {
    assert MutexOk(s, m);
    forall k | 0 <= k < |s'.mx| ensures MutexOk(s', k) {
      assert MutexOk(s, k);
    }
    forall u | 0 <= u < |s'.th| ensures ThreadOk(s', u) {
      assert ThreadOk(s, u);
    }
    forall u: nat, k: nat ensures s'.locks[(u, k)] == Depth(s', u, k) {
      assert s.locks[(u, k)] == Depth(s, u, k);
    }
  }

  lemma PendToken(s: State, t: Tid)
    requires Token(s) && t < |s.th| && s.th[t].phase.WillPend? && s.th[t].phase.m < |s.mx|
    ensures Token(Pend(s, t))
  {
    var m := s.th[t].phase.m;
    var s' := Pend(s, t);
    assert MutexOk(s, m);
    if s.mx[m].count > 0 {
      GrantToken(s, s', t, m);
    } else {
      AppendDistinct(s.mx[m].pendQ, t);
      SemaphoreToken(s, s', t, m);
    }
  }

  /** A thread enters or leaves the pend queue of m. */
  lemma SemaphoreToken(s: State, s': State, t: Tid, m: Mid)
    requires Token(s) && t < |s.th| && m < |s.mx| && s.mx[m].count == 0 && s'.locks == s.locks
    requires !s.th[t].phase.Granted? && (s.th[t].phase.Waiting? ==> s.th[t].phase.m == m)
    requires |s'.th| == |s.th| && s'.th == s.th[t := s.th[t].(phase := s'.th[t].phase)]
    requires |s'.mx| == |s.mx| && s'.mx == s.mx[m := s.mx[m].(pendQ := s'.mx[m].pendQ)]
    requires Distinct(s'.mx[m].pendQ)
    requires forall u :: u in s'.mx[m].pendQ <==> (if u == t then s'.th[t].phase == Waiting(m) else u in s.mx[m].pendQ)
    requires s'.th[t].phase == Waiting(m) || s'.th[t].phase == TimedOut(m)
    ensures Token(s')
  {
    forall k | 0 <= k < |s'.mx| ensures MutexOk(s', k) {
      assert MutexOk(s, k);
    }
    forall u | 0 <= u < |s'.th| ensures ThreadOk(s', u) {
      assert ThreadOk(s, u);
    }
    forall u: nat, k: nat ensures s'.locks[(u, k)] == Depth(s', u, k) {
      assert s.locks[(u, k)] == Depth(s, u, k);
    }
  }

  lemma ExpireToken(s: State, t: Tid)
    requires Token(s) && t < |s.th| && s.th[t].phase.Waiting? && s.th[t].phase.m < |s.mx|
    ensures Token(Expire(s, t))
  {
    var m := s.th[t].phase.m;
    assert MutexOk(s, m) && ThreadOk(s, t);
    WithoutMembers(s.mx[m].pendQ, t);
    SemaphoreToken(s, Expire(s, t), t, m);
  }

  lemma FinishToken(s: State, t: Tid)
    requires Token(s) && Refs(s) && t < |s.th| && s.th[t].phase.Granted? && s.th[t].phase.m < |s.mx|
    ensures s.mx[s.th[t].phase.m].owner.None? && s.mx[s.th[t].phase.m].lockCnt == 0
    ensures Token(Finish(s, t))
  {
    var m := s.th[t].phase.m;
    assert MutexOk(s, m) && ThreadOk(s, t);
    LeaveRefs(s, t, m);
    TakeToken(if s.mx[m].protocol.PrioInherit? then Leave(s, t, m) else s, t, m, s);
  }

  lemma AbandonToken(s: State, t: Tid, s': State)
    requires Token(s) && Next(s, Abandon(t), s')
    ensures Token(s')
  {
    var m := s.th[t].phase.m;
    var g := GiveUp(s, t);
    QuietToken(s, g, t);
    if s.mx[m].protocol.PrioInherit? {
      var n: nat :| ResetWithin(g, Some(m), n) == Some(s');
      ResetShape(g, Some(m), n);
      ShapeToken(g, s');
    }
  }

  /** The last unlock: the token goes to the head of the pend queue, or back to the count. */
  lemma HandOverToken(s: State, s': State, t: Tid, m: Mid)
    requires Token(s) && m < |s.mx| && s.mx[m].owner == Some(t) && s.mx[m].lockCnt == 1
    requires |s'.th| == |s.th| && |s'.mx| == |s.mx| && s'.locks == s.locks - multiset{(t, m)}
    requires forall k :: 0 <= k < |s.mx| && k != m ==> s'.mx[k] == s.mx[k]
    requires s'.mx[m].owner.None? && s'.mx[m].lockCnt == 0
    requires s.mx[m].pendQ == [] ==> s'.mx[m].count == 1 && s'.mx[m].granted.None? && s'.mx[m].pendQ == []
    requires s.mx[m].pendQ != [] ==>
               && s'.mx[m].count == 0 && s'.mx[m].granted == Some(s.mx[m].pendQ[0]) && s'.mx[m].pendQ == s.mx[m].pendQ[1..]
    requires forall u :: 0 <= u < |s.th| ==>
               s'.th[u].phase == if s.mx[m].pendQ != [] && u == s.mx[m].pendQ[0] then Granted(m) else s.th[u].phase
    ensures Token(s')
  {
    var q := s.mx[m].pendQ;
    assert MutexOk(s, m);
    if q != [] {
      assert q[0] in q && q == [q[0]] + q[1..];
      assert Distinct(q[1..]);
      forall t | t in q[1..] ensures t in q && t != q[0] {
      }
    }
    assert MutexOk(s', m);
    forall k | 0 <= k < |s'.mx| && k != m ensures MutexOk(s', k) {
      assert MutexOk(s, k);
    }
    forall u | 0 <= u < |s'.th| ensures ThreadOk(s', u) {
      assert ThreadOk(s, u);
    }
    forall u: nat, k: nat ensures s'.locks[(u, k)] == Depth(s', u, k) {
      assert s.locks[(u, k)] == Depth(s, u, k);
    }
  }

  /** The inner unlock of a recursive mutex. */
  lemma NestedUnlockToken(s: State, s': State, t: Tid, m: Mid)
    requires Token(s) && m < |s.mx| && s.mx[m].owner == Some(t) && s.mx[m].lockCnt > 1
    requires s' == s.(mx := s.mx[m := s.mx[m].(lockCnt := s.mx[m].lockCnt - 1)], locks := s.locks - multiset{(t, m)})
    ensures Token(s')
  {
    forall k | 0 <= k < |s'.mx| ensures MutexOk(s', k) {
      assert MutexOk(s, k);
    }
    forall u | 0 <= u < |s'.th| ensures ThreadOk(s', u) {
      assert ThreadOk(s, u);
    }
    forall u: nat, k: nat ensures s'.locks[(u, k)] == Depth(s', u, k) {
      assert s.locks[(u, k)] == Depth(s, u, k);
    }
  }

  lemma LastUnlockToken(s: State, t: Tid, m: Mid)
    requires Token(s) && Refs(s) && t < |s.th| && m < |s.mx| && s.mx[m].owner == Some(t) && s.mx[m].lockCnt == 1
    ensures Token(Unlock(s, t, m).0)
  {
    var s1 := s.(locks := s.locks - multiset{(t, m)});
    ReleaseRefs(s1, t, m);
    var r := Release(s1, t, m);
    assert Unlock(s, t, m).0 == Post(r, m);
    ReleasePhases(s1, t, m);
    PostFields(r, m);
    assert MutexOk(s, m);
    hide Release, Post, ThreadOk;
    HandOverToken(s, Post(r, m), t, m);
  }

  lemma ReleasePhases(s: State, t: Tid, m: Mid)
    requires Refs(s) && t < |s.th| && m < |s.mx|
    ensures var r := Release(s, t, m);
            && |r.th| == |s.th| && |r.mx| == |s.mx| && r.locks == s.locks
            && (forall k :: 0 <= k < |s.mx| && k != m ==> r.mx[k] == s.mx[k])
            && (forall u :: 0 <= u < |s.th| ==> r.th[u].phase == s.th[u].phase)
            && r.mx[m] == s.mx[m].(owner := None, lockCnt := 0, ceiling := r.mx[m].ceiling)
  {
    WithoutSubset(s.th[t].held, m);
  }

  lemma PostFields(s: State, m: Mid)
    requires Refs(s) && m < |s.mx|
    ensures var r := Post(s, m);
            var q := s.mx[m].pendQ;
            && |r.th| == |s.th| && |r.mx| == |s.mx| && r.locks == s.locks
            && (forall k :: 0 <= k < |s.mx| && k != m ==> r.mx[k] == s.mx[k])
            && (forall u :: 0 <= u < |s.th| ==>
                  r.th[u] == s.th[u].(phase := if q != [] && u == q[0] then Granted(m) else s.th[u].phase))
            && r.mx[m] == if q == [] then s.mx[m].(count := 1) else s.mx[m].(pendQ := q[1..], granted := Some(q[0]))
  {
    if s.mx[m].pendQ != [] {
      assert s.mx[m].pendQ[0] in s.mx[m].pendQ;
    }
  }

  /** A thread with no outstanding lock call on m gets EPERM and changes nothing; any other unlock keeps the token. */
  lemma UnlockToken(s: State, t: Tid, m: Mid)
    requires Token(s) && Refs(s) && t < |s.th| && m < |s.mx|
    ensures Token(Unlock(s, t, m).0)
    ensures (t, m) !in s.locks <==> Unlock(s, t, m) == (s, NotOwner)
  {
    var x := s.mx[m];
    assert MutexOk(s, m);
    assert s.locks[(t, m)] == Depth(s, t, m);
    if x.owner == Some(t) {
      if x.lockCnt > 1 {
        NestedUnlockToken(s, Unlock(s, t, m).0, t, m);
      } else {
        LastUnlockToken(s, t, m);
      }
    }
  }

  lemma NextToken(s: State, e: Event, s': State)
    requires Token(s) && Next(s, e, s')
    ensures Token(s')
  {
    match e
    case Lock(t, m, noWait) => TryLockToken(s, t, m, noWait);
    case PendOn(t) => PendToken(s, t);
    case Expires(t) => ExpireToken(s, t);
    case Acquire(t) => FinishToken(s, t);
    case Abandon(t) => AbandonToken(s, t, s');
    case UnlockBy(t, m) => UnlockToken(s, t, m);
  }

  // ---------------------------------------------------------------- what the codes mean

  /** Somebody has the mutex, or has been handed the semaphore and will. */
  ghost predicate Taken(x: Mutex) {
    x.owner.Some? || x.granted.Some?
  }

  /** t asks again for a mutex it owns, of a type that has an answer to that. */
  ghost predicate Relock(x: Mutex, t: Tid) {
    x.owner == Some(t) && !x.kind.Normal?
  }

  ghost predicate TooHigh(s: State, t: Tid, m: Mid)
    requires t < |s.th| && m < |s.mx|
  {
    s.mx[m].protocol.PrioProtect? && s.mx[m].ceiling < s.th[t].base
  }

  /**
   The code of a lock call's first region, by what becomes of the locks held. 0: one more lock of m is held by t, who owns
   m. Any code but 0: no lock is gained, and with EBUSY, EDEADLK and EINVAL nothing at all has changed. Which code comes
   when is exact; a call that goes on to the semaphore has it granted already, or is about to pend.
   */
  lemma TryLockCodes(s: State, t: Tid, m: Mid, noWait: bool)
    requires Token(s) && Refs(s) && t < |s.th| && m < |s.mx| && s.th[t].phase.Running?
    ensures var (s', code) := TryLock(s, t, m, noWait);
            var x := s.mx[m];
            && |s'.th| == |s.th| && |s'.mx| == |s.mx|
            && s'.locks == (if code == Ok then s.locks + multiset{(t, m)} else s.locks)
            && (code == Ok ==> s'.mx[m].owner == Some(t))
            && (code == Busy || code == Deadlock || code == Invalid ==> s' == s)
            && code != NotOwner
            && (code == Invalid <==> TooHigh(s, t, m))
            && (code == Deadlock <==> !TooHigh(s, t, m) && Relock(x, t) && x.kind.ErrorCheck?)
            && (code == Busy <==> !TooHigh(s, t, m) && !Relock(x, t) && Taken(x) && noWait)
            && (code == Blocks <==> s'.th[t].phase == Granted(m) || s'.th[t].phase == WillPend(m))
            && (s'.th[t].phase == WillPend(m) <==> !TooHigh(s, t, m) && !Relock(x, t) && Taken(x) && !noWait)
            && (s'.th[t].phase == Granted(m) <==> !Relock(x, t) && !Taken(x) && x.protocol.PrioNone?)
  {
    assert MutexOk(s, m);
    if s.mx[m].protocol.PrioInherit? {
      DonateShape(s, Some(m), s.th[t].pri);
    }
  }

  /** A call that went to the semaphore ends with the lock, or without a change of the locks held. */
  lemma FinishCodes(s: State, t: Tid)
    requires Token(s) && Refs(s) && t < |s.th| && s.th[t].phase.Granted? && s.th[t].phase.m < |s.mx|
    ensures var m := s.th[t].phase.m;
            var s' := Finish(s, t);
            && |s'.th| == |s.th| && |s'.mx| == |s.mx|
            && s'.locks == s.locks + multiset{(t, m)} && s'.mx[m].owner == Some(t) && s'.th[t].phase == Running
  {
    LeaveRefs(s, t, s.th[t].phase.m);
  }

  lemma AbandonCodes(s: State, t: Tid, s': State)
    requires Next(s, Abandon(t), s')
    ensures s'.locks == s.locks && |s'.th| == |s.th| && s'.th[t].phase == Running
  {
    AbandonShape(s, t, s');
  }

  /**
   The code of an unlock: 0 exactly if t held a lock of m, of which it then holds one fewer; else EPERM and no change.
   When it held one, the mutex goes to the thread that has pended longest, or nobody has it any more.
   */
  lemma UnlockCodes(s: State, t: Tid, m: Mid)
    requires Token(s) && Refs(s) && t < |s.th| && m < |s.mx|
    ensures var (s', code) := Unlock(s, t, m);
            && |s'.th| == |s.th| && |s'.mx| == |s.mx|
            && (code == Ok <==> (t, m) in s.locks) && (code == NotOwner <==> (t, m) !in s.locks)
            && (code == Ok ==> s'.locks == s.locks - multiset{(t, m)})
            && (code == NotOwner ==> s' == s)
            && (code == Ok && s.locks[(t, m)] == 1 ==> s'.mx[m].ceiling == if s.mx[m].protocol.PrioInherit? then 0 else s.mx[m].ceiling)
            && (code == Ok ==>
                  if s.locks[(t, m)] > 1 then s'.mx[m].owner == Some(t)
                  else if s.mx[m].pendQ == [] then !Taken(s'.mx[m])
                  else s'.mx[m].owner.None? && s'.mx[m].granted == Some(s.mx[m].pendQ[0])
                       && s.mx[m].pendQ[0] < |s.th| && s'.th[s.mx[m].pendQ[0]].phase == Granted(m))
  {
    assert MutexOk(s, m);
    assert s.locks[(t, m)] == Depth(s, t, m);
    if s.mx[m].owner == Some(t) && s.mx[m].lockCnt == 1 {
      var s1 := s.(locks := s.locks - multiset{(t, m)});
      ReleaseRefs(s1, t, m);
      ReleasePhases(s1, t, m);
      assert s.mx[m].pendQ != [] ==> s.mx[m].pendQ[0] in s.mx[m].pendQ;
      PostFields(Release(s1, t, m), m);
    }
  }

  /** What a step does to the pend queue of m: a thread joins it last, times out of it, or is handed the mutex from its head. */
  lemma PendQueueMoves(s: State, e: Event, s': State, m: Mid)
    requires Token(s) && Next(s, e, s') && m < |s.mx|
    ensures |s'.mx| == |s.mx|
    ensures var q, q' := s.mx[m].pendQ, s'.mx[m].pendQ;
            match e
            case PendOn(t) => q' == if s.th[t].phase.m == m && Taken(s.mx[m]) then q + [t] else q
            case Expires(t) => q' == if s.th[t].phase.m == m then Without(q, t) else q
            case UnlockBy(t, k) => q' == if k == m && s.locks[(t, m)] == 1 && q != [] then q[1..] else q
            case _ => q' == q
  {
    assert MutexOk(s, m);
    match e
    case Lock(t, k, noWait) => LockQueue(s, t, k, noWait, m);
    case Acquire(t) => LeaveRefs(s, t, s.th[t].phase.m);
    case Abandon(t) => AbandonShape(s, t, s');
    case UnlockBy(t, k) => UnlockQueue(s, t, k, m);
    case _ =>
  }

  lemma LockQueue(s: State, t: Tid, k: Mid, noWait: bool, m: Mid)
    requires Refs(s) && t < |s.th| && k < |s.mx| && m < |s.mx|
    ensures var s' := TryLock(s, t, k, noWait).0; |s'.mx| == |s.mx| && s'.mx[m].pendQ == s.mx[m].pendQ
  {
    if s.mx[k].protocol.PrioInherit? {
      DonateShape(s, Some(k), s.th[t].pri);
    }
  }

  lemma UnlockQueue(s: State, t: Tid, k: Mid, m: Mid)
    requires Token(s) && Refs(s) && t < |s.th| && k < |s.mx| && m < |s.mx|
    ensures var s' := Unlock(s, t, k).0;
            var q := s.mx[m].pendQ;
            |s'.mx| == |s.mx| && s'.mx[m].pendQ == if k == m && s.locks[(t, m)] == 1 && q != [] then q[1..] else q
  {
    hide Release, Post, Refs;
    assert s.locks[(t, k)] == Depth(s, t, k) && MutexOk(s, k);
    if s.mx[k].owner == Some(t) && s.mx[k].lockCnt == 1 {
      var s1 := s.(locks := s.locks - multiset{(t, k)});
      UnlockReleases(s, t, k);
      ReleasePhases(s1, t, k);
      PostFields(Release(s1, t, k), k);
    }
  }

  lemma UnlockReleases(s: State, t: Tid, m: Mid)
    requires Refs(s) && t < |s.th| && m < |s.mx| && s.mx[m].owner == Some(t) && s.mx[m].lockCnt == 1
    ensures var s1 := s.(locks := s.locks - multiset{(t, m)});
            Refs(s1) && Refs(Release(s1, t, m)) && Unlock(s, t, m).0 == Post(Release(s1, t, m), m)
  {
    ReleaseRefs(s.(locks := s.locks - multiset{(t, m)}), t, m);
  }

  lemma AbandonShape(s: State, t: Tid, s': State)
    requires Next(s, Abandon(t), s')
    ensures SameShape(GiveUp(s, t), s')
  {
    var m := s.th[t].phase.m;
    if s.mx[m].protocol.PrioInherit? {
      var n: nat :| ResetWithin(GiveUp(s, t), Some(m), n) == Some(s');
      ResetShape(GiveUp(s, t), Some(m), n);
    }
  }

  // ---------------------------------------------------------------- whole runs

  /** All mutexes as pthread_mutex_init leaves them, no thread inside a lock call. */
  ghost predicate Initial(s: State) {
    && s.locks == multiset{}
    && (forall t :: 0 <= t < |s.th| ==>
          && s.th[t].base >= 0 && s.th[t].pri == s.th[t].base
          && s.th[t].blocked.None? && s.th[t].held == [] && s.th[t].phase.Running?)
    && (forall m :: 0 <= m < |s.mx| ==>
          && FreeState(s.mx[m]) && s.mx[m].waitList == []
          && (!s.mx[m].protocol.PrioProtect? ==> s.mx[m].ceiling == 0))
  }

  ghost predicate Run(states: seq<State>, events: seq<Event>) {
    && |states| == |events| + 1
    && Initial(states[0])
    && forall i :: 0 <= i < |events| ==> Next(states[i], events[i], states[i + 1])
  }

  /**
   In every state of every run each mutex is in exactly one of the three states, lockCnt is the number of
   lock calls its owner has not undone, and a thread that is about to become owner finds owner == NULL
   and lockCnt == 0.
   */
  lemma {:induction false} TokenInEveryRun(states: seq<State>, events: seq<Event>, i: nat)
    requires Run(states, events) && i < |states|
    ensures Token(states[i])
    ensures forall m :: 0 <= m < |states[i].mx| ==>
              || (FreeState(states[i].mx[m]) && !GrantedState(states[i].mx[m]) && !OwnedState(states[i].mx[m]))
              || (!FreeState(states[i].mx[m]) && GrantedState(states[i].mx[m]) && !OwnedState(states[i].mx[m]))
              || (!FreeState(states[i].mx[m]) && !GrantedState(states[i].mx[m]) && OwnedState(states[i].mx[m]))
    ensures forall t: nat, m: nat :: states[i].locks[(t, m)] ==
              if m < |states[i].mx| && states[i].mx[m].owner == Some(t) then states[i].mx[m].lockCnt else 0
    ensures forall t :: 0 <= t < |states[i].th| && states[i].th[t].phase.Granted? ==>
              && states[i].th[t].phase.m < |states[i].mx|
              && states[i].mx[states[i].th[t].phase.m].owner.None?
              && states[i].mx[states[i].th[t].phase.m].lockCnt == 0
  {
    hide Next, Initial;
    if i == 0 {
      InitialToken(states[0]);
    } else {
      TokenInEveryRun(states, events, i - 1);
      NextToken(states[i - 1], events[i - 1], states[i]);
    }
    var s := states[i];
    forall m | 0 <= m < |s.mx|
      ensures || (FreeState(s.mx[m]) && !GrantedState(s.mx[m]) && !OwnedState(s.mx[m]))
              || (!FreeState(s.mx[m]) && GrantedState(s.mx[m]) && !OwnedState(s.mx[m]))
              || (!FreeState(s.mx[m]) && !GrantedState(s.mx[m]) && OwnedState(s.mx[m]))
    {
      assert MutexOk(s, m);
    }
    forall t | 0 <= t < |s.th| && s.th[t].phase.Granted?
      ensures s.th[t].phase.m < |s.mx| && s.mx[s.th[t].phase.m].owner.None? && s.mx[s.th[t].phase.m].lockCnt == 0
    {
      assert ThreadOk(s, t);
      assert MutexOk(s, s.th[t].phase.m);
    }
  }

  lemma InitialToken(s: State)
    requires Initial(s)
    ensures Token(s)
  {
    forall m | 0 <= m < |s.mx| ensures MutexOk(s, m) {
    }
    forall t | 0 <= t < |s.th| ensures ThreadOk(s, t) {
    }
  }

  /** Mutual exclusion in the words of the clients: two threads never hold the same mutex. */
  lemma MutualExclusion(states: seq<State>, events: seq<Event>, i: nat, t: Tid, u: Tid, m: Mid)
    requires Run(states, events) && i < |states|
    requires (t, m) in states[i].locks && (u, m) in states[i].locks
    ensures t == u
  {
    TokenInEveryRun(states, events, i);
  }
}
