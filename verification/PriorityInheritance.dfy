/**
 Priority inheritance between pthread mutexes: what setInheritPriority, resetInheritPriority, the
 acquisition and the release of a mutex do to running priorities, over every ownership graph.

 The reference is the definition of POSIX (IEEE Std 1003.1-2017, section 3 of System Interfaces,
 pthread_mutexattr_getprotocol): a thread runs at the highest of its own priority, the ceilings of the
 PRIO_PROTECT mutexes it holds and the priorities of the threads blocked on the PRIO_INHERIT mutexes it holds.
 */
module PriorityInheritance {
  import opened Base
  import opened PthreadMutex
  import opened MutexToken

  /** The POSIX definition. It mentions no stored ceiling of an inherit mutex. */
  ghost predicate PosixPriority(s: State, t: Tid)
    requires Refs(s) && t < |s.th|
  {
    var x := s.th[t];
    && x.base <= x.pri
    && (forall m :: m in x.held && s.mx[m].protocol.PrioProtect? ==> s.mx[m].ceiling <= x.pri)
    && (forall m, u :: m in x.held && s.mx[m].protocol.PrioInherit? && u in s.mx[m].waitList ==> s.th[u].pri <= x.pri)
    && (|| x.base == x.pri
        || (exists m :: m in x.held && s.mx[m].protocol.PrioProtect? && s.mx[m].ceiling == x.pri)
        || (exists m, u :: m in x.held && s.mx[m].protocol.PrioInherit? && u in s.mx[m].waitList && s.th[u].pri == x.pri))
  }

  // ---------------------------------------------------------------- the invariant

  ghost predicate ThreadLinks(s: State, t: Tid)
    requires t < |s.th|
  {
    var x := s.th[t];
    && x.base >= 0
    && Distinct(x.held)
    && (forall m :: m in x.held ==> m < |s.mx| && !s.mx[m].protocol.PrioNone? && s.mx[m].owner == Some(t))
    && (x.blocked.Some? ==>
          && x.blocked.value < |s.mx| && s.mx[x.blocked.value].protocol.PrioInherit?
          && t in s.mx[x.blocked.value].waitList
          && !x.phase.Running? && x.phase.m == x.blocked.value)
    && (!x.phase.Running? && x.phase.m < |s.mx| && s.mx[x.phase.m].protocol.PrioInherit? ==> x.blocked == Some(x.phase.m))
  }

  ghost predicate MutexLinks(s: State, m: Mid)
    requires m < |s.mx|
  {
    var x := s.mx[m];
    && (x.owner.Some? ==> x.owner.value < |s.th| && (!x.protocol.PrioNone? ==> m in s.th[x.owner.value].held))
    && Distinct(x.waitList)
    && (forall t :: t in x.waitList ==> t < |s.th| && s.th[t].blocked == Some(m))
  }

  /** mutexList, waitList, owner and blockedMutex describe one graph. */
  ghost predicate Links(s: State) {
    && Refs(s)
    && (forall t :: 0 <= t < |s.th| ==> ThreadLinks(s, t))
    && (forall m :: 0 <= m < |s.mx| ==> MutexLinks(s, m))
  }

  /** m is an inherit mutex with an owner. */
  ghost predicate Inherited(s: State, m: Mid)
    requires m < |s.mx|
  {
    s.mx[m].protocol.PrioInherit? && s.mx[m].owner.Some?
  }

  /** t runs at the maximum of its base and the stored ceilings of the mutexes it holds. */
  ghost predicate Tight(s: State, t: Tid)
    requires Refs(s) && t < |s.th|
  {
    var x := s.th[t];
    && x.base <= x.pri
    && (forall m :: m in x.held ==> s.mx[m].ceiling <= x.pri)
    && (x.base == x.pri || exists m :: m in x.held && s.mx[m].ceiling == x.pri)
  }

  /** The owner of m runs at or above every thread blocked on m. */
  ghost predicate Dom(s: State, m: Mid)
    requires Refs(s) && m < |s.mx|
  {
    Inherited(s, m) ==> forall t :: t in s.mx[m].waitList ==> s.th[t].pri <= s.th[s.mx[m].owner.value].pri
  }

  /** The stored ceiling of m, or the base of its owner, covers every thread blocked on m. */
  ghost predicate Ceil(s: State, m: Mid)
    requires Refs(s) && m < |s.mx|
  {
    Inherited(s, m) ==>
      forall t :: t in s.mx[m].waitList ==> s.th[t].pri <= Max(s.th[s.mx[m].owner.value].base, s.mx[m].ceiling)
  }

  /** The stored ceiling of m is owed to some thread blocked on m. */
  ghost predicate NoExcess(s: State, m: Mid)
    requires Refs(s) && m < |s.mx|
  {
    Inherited(s, m) ==> s.mx[m].ceiling <= 0 || exists t :: t in s.mx[m].waitList && s.mx[m].ceiling <= s.th[t].pri
  }

  ghost predicate AllTight(s: State) requires Refs(s) { forall t :: 0 <= t < |s.th| ==> Tight(s, t) }
  ghost predicate AllDom(s: State) requires Refs(s) { forall m :: 0 <= m < |s.mx| ==> Dom(s, m) }
  ghost predicate AllCeil(s: State) requires Refs(s) { forall m :: 0 <= m < |s.mx| ==> Ceil(s, m) }
  ghost predicate AllNoExcess(s: State) requires Refs(s) { forall m :: 0 <= m < |s.mx| ==> NoExcess(s, m) }

  /** The stored ceilings give every thread its rightful priority now. */
  ghost predicate Sound(s: State) {
    Links(s) && AllTight(s) && AllDom(s) && AllNoExcess(s)
  }

  /** And they will still do so once a thread has released any of its mutexes. */
  ghost predicate Good(s: State) {
    Sound(s) && AllCeil(s)
  }

  /** The stored ceilings implement the POSIX definition. */
  lemma SoundIsPosix(s: State, t: Tid)
    requires Sound(s) && t < |s.th|
    ensures PosixPriority(s, t)
  {
    var x := s.th[t];
    assert Tight(s, t) && ThreadLinks(s, t);
    forall m, u | m in x.held && s.mx[m].protocol.PrioInherit? && u in s.mx[m].waitList
      ensures s.th[u].pri <= x.pri
    {
      assert Dom(s, m);
    }
    if x.base != x.pri {
      var m :| m in x.held && s.mx[m].ceiling == x.pri;
      assert NoExcess(s, m) && Dom(s, m);
      if s.mx[m].protocol.PrioInherit? {
        var u :| u in s.mx[m].waitList && s.mx[m].ceiling <= s.th[u].pri;
        assert s.th[u].pri == x.pri;
      }
    }
  }

  lemma ShapeLinks(s: State, s': State)
    requires Links(s) && SameShape(s, s')
    ensures Links(s')
  {
    forall t | 0 <= t < |s'.th| ensures ThreadLinks(s', t) {
      assert ThreadLinks(s, t);
    }
    forall m | 0 <= m < |s'.mx| ensures MutexLinks(s', m) {
      assert MutexLinks(s, m);
    }
  }

  // ---------------------------------------------------------------- donation

  lemma BoostLinks(s: State, m: Mid, o: Tid, p: int)
    requires Links(s) && m < |s.mx| && s.mx[m].owner == Some(o) && o < |s.th|
    ensures Links(Boost(s, m, o, p))
  {
    ShapeLinks(s, Boost(s, m, o, p));
  }

  /** Every mutex but m is dominated by its owner; the threads blocked on m run at most at p if not dominated. */
  ghost predicate DomExcept(s: State, m: Mid, p: int)
    requires Refs(s) && m < |s.mx|
  {
    && (forall k :: 0 <= k < |s.mx| && k != m ==> Dom(s, k))
    && (Inherited(s, m) ==>
          forall t :: t in s.mx[m].waitList ==> s.th[t].pri <= Max(s.th[s.mx[m].owner.value].pri, p))
  }

  /** Donation of p along the chain that starts at m gives every owner the priority of all its waiters, on any graph. */
  lemma {:induction false} DonateDom(s: State, m: Mid, p: int)
    requires Links(s) && m < |s.mx| && DomExcept(s, m, p)
    ensures Refs(Donate(s, Some(m), p)) && AllDom(Donate(s, Some(m), p))
    decreases Below(s, p)
  {
    if s.mx[m].owner.Some? {
      var o := s.mx[m].owner.value;
      if s.th[o].pri < p {
        var s' := Boost(s, m, o, p);
        RaisesOne(s, m, o, p);
        BoostLinks(s, m, o, p);
        BoostDom(s, m, o, p);
        if s.th[o].blocked.Some? {
          DonateDom(s', s.th[o].blocked.value, p);
        }
      }
    }
  }

  lemma BoostDom(s: State, m: Mid, o: Tid, p: int)
    requires Links(s) && m < |s.mx| && o < |s.th| && s.mx[m].owner == Some(o) && s.th[o].pri < p && DomExcept(s, m, p)
    ensures Links(Boost(s, m, o, p))
    ensures match s.th[o].blocked
            case None => AllDom(Boost(s, m, o, p))
            case Some(next) => DomExcept(Boost(s, m, o, p), next, p)
  {
    var s' := Boost(s, m, o, p);
    BoostLinks(s, m, o, p);
    forall k | 0 <= k < |s'.mx| && Some(k) != s.th[o].blocked ensures Dom(s', k) {
      assert k != m ==> Dom(s, k);
      assert MutexLinks(s, k);
    }
    if s.th[o].blocked.Some? {
      var next := s.th[o].blocked.value;
      assert next != m ==> Dom(s, next);
    }
  }

  lemma {:induction false} DonateTight(s: State, m: Mid, p: int)
    requires Links(s) && m < |s.mx| && s.mx[m].protocol.PrioInherit? && AllTight(s)
    ensures Refs(Donate(s, Some(m), p)) && AllTight(Donate(s, Some(m), p))
    decreases Below(s, p)
  {
    if s.mx[m].owner.Some? {
      var o := s.mx[m].owner.value;
      if s.th[o].pri < p {
        var s' := Boost(s, m, o, p);
        RaisesOne(s, m, o, p);
        BoostLinks(s, m, o, p);
        BoostTight(s, m, o, p);
        if s.th[o].blocked.Some? {
          assert ThreadLinks(s, o);
          DonateTight(s', s.th[o].blocked.value, p);
        }
      }
    }
  }

  lemma BoostTight(s: State, m: Mid, o: Tid, p: int)
    requires Links(s) && m < |s.mx| && o < |s.th| && s.mx[m].protocol.PrioInherit? && s.mx[m].owner == Some(o)
    requires AllTight(s) && s.th[o].pri < p
    ensures Refs(Boost(s, m, o, p)) && AllTight(Boost(s, m, o, p))
  {
    var s' := Boost(s, m, o, p);
    BoostLinks(s, m, o, p);
    forall t | 0 <= t < |s'.th| ensures Tight(s', t) {
      assert Tight(s, t) && ThreadLinks(s, t);
      if t == o {
        assert MutexLinks(s, m);
        assert m in s'.th[t].held && s'.mx[m].ceiling == s'.th[t].pri;
      } else {
        assert m !in s.th[t].held;
        if s.th[t].base != s.th[t].pri {
          var k :| k in s.th[t].held && s.mx[k].ceiling == s.th[t].pri;
          assert k in s'.th[t].held && s'.mx[k].ceiling == s'.th[t].pri;
        }
      }
    }
  }

  /** Some thread blocked on m runs at p or above. */
  ghost predicate WaiterAt(s: State, m: Mid, p: int)
    requires Refs(s) && m < |s.mx|
  {
    exists t :: t in s.mx[m].waitList && s.th[t].pri >= p
  }

  lemma {:induction false} DonateNoExcess(s: State, m: Mid, p: int)
    requires Links(s) && m < |s.mx| && AllNoExcess(s) && WaiterAt(s, m, p)
    ensures Refs(Donate(s, Some(m), p)) && AllNoExcess(Donate(s, Some(m), p))
    decreases Below(s, p)
  {
    if s.mx[m].owner.Some? {
      var o := s.mx[m].owner.value;
      if s.th[o].pri < p {
        var s' := Boost(s, m, o, p);
        RaisesOne(s, m, o, p);
        BoostLinks(s, m, o, p);
        BoostNoExcess(s, m, o, p);
        if s.th[o].blocked.Some? {
          BoostWaiter(s, m, o, p);
          DonateNoExcess(s', s.th[o].blocked.value, p);
        }
      }
    }
  }

  lemma BoostWaiter(s: State, m: Mid, o: Tid, p: int)
    requires Links(s) && m < |s.mx| && o < |s.th| && s.mx[m].owner == Some(o) && s.th[o].blocked.Some?
    ensures Refs(Boost(s, m, o, p)) && WaiterAt(Boost(s, m, o, p), s.th[o].blocked.value, p)
    ensures s.mx[s.th[o].blocked.value].protocol.PrioInherit?
  {
    BoostLinks(s, m, o, p);
    assert ThreadLinks(s, o);
    assert o in Boost(s, m, o, p).mx[s.th[o].blocked.value].waitList;
  }

  lemma BoostNoExcess(s: State, m: Mid, o: Tid, p: int)
    requires Links(s) && m < |s.mx| && o < |s.th| && s.mx[m].owner == Some(o) && s.th[o].pri < p
    requires AllNoExcess(s) && WaiterAt(s, m, p)
    ensures Refs(Boost(s, m, o, p)) && AllNoExcess(Boost(s, m, o, p))
  {
    var s' := Boost(s, m, o, p);
    BoostLinks(s, m, o, p);
    forall k | 0 <= k < |s'.mx| ensures NoExcess(s', k) {
      assert NoExcess(s, k);
      if Inherited(s', k) {
        if k == m {
          var t :| t in s.mx[m].waitList && s.th[t].pri >= p;
          assert t in s'.mx[k].waitList && s'.mx[k].ceiling <= s'.th[t].pri;
        } else if s.mx[k].ceiling > 0 {
          var t :| t in s.mx[k].waitList && s.mx[k].ceiling <= s.th[t].pri;
          assert t in s'.mx[k].waitList && s'.mx[k].ceiling <= s'.th[t].pri;
        }
      }
    }
  }

  /**
   The guard that setInheritPriority leaves untested when it stops: at the mutex whose owner already runs at
   p or above, is the stored ceiling, or the owner's own priority, at least p?
   */
  ghost predicate Covered(s: State, next: Option<Mid>, p: int)
    requires Refs(s) && (next.Some? ==> next.value < |s.mx|)
    decreases Below(s, p)
  {
    next.None? || s.mx[next.value].owner.None? ||
    var o := s.mx[next.value].owner.value;
    if s.th[o].pri < p then
      var s' := Boost(s, next.value, o, p);
      RaisesOne(s, next.value, o, p);
      Covered(s', s.th[o].blocked, p)
    else p <= Max(s.th[o].base, s.mx[next.value].ceiling)
  }

  ghost predicate CeilExcept(s: State, m: Mid, p: int)
    requires Refs(s) && m < |s.mx|
  {
    && (forall k :: 0 <= k < |s.mx| && k != m ==> Ceil(s, k))
    && (Inherited(s, m) ==>
          forall t :: t in s.mx[m].waitList ==>
            s.th[t].pri <= Max(Max(s.th[s.mx[m].owner.value].base, s.mx[m].ceiling), p))
  }

  /** Donation leaves every stored ceiling sufficient exactly when the mutex it stops at is covered. */
  lemma {:induction false} DonateCeil(s: State, m: Mid, p: int)
    requires Links(s) && m < |s.mx| && s.mx[m].protocol.PrioInherit? && AllTight(s)
    requires CeilExcept(s, m, p) && WaiterAt(s, m, p)
    ensures Refs(Donate(s, Some(m), p))
    ensures AllCeil(Donate(s, Some(m), p)) <==> Covered(s, Some(m), p)
    decreases Below(s, p)
  {
    if s.mx[m].owner.Some? {
      var o := s.mx[m].owner.value;
      if s.th[o].pri < p {
        var s' := Boost(s, m, o, p);
        RaisesOne(s, m, o, p);
        BoostLinks(s, m, o, p);
        BoostTight(s, m, o, p);
        BoostCeil(s, m, o, p);
        if s.th[o].blocked.Some? {
          BoostWaiter(s, m, o, p);
          DonateCeil(s', s.th[o].blocked.value, p);
        }
      } else {
        assert AllCeil(s) <==> Ceil(s, m);
        var t :| t in s.mx[m].waitList && s.th[t].pri >= p;
      }
    }
  }

  lemma BoostCeil(s: State, m: Mid, o: Tid, p: int)
    requires Links(s) && m < |s.mx| && o < |s.th| && s.mx[m].protocol.PrioInherit? && s.mx[m].owner == Some(o)
    requires s.th[o].pri < p && AllTight(s) && CeilExcept(s, m, p)
    ensures Links(Boost(s, m, o, p))
    ensures match s.th[o].blocked
            case None => AllCeil(Boost(s, m, o, p))
            case Some(next) => CeilExcept(Boost(s, m, o, p), next, p)
  {
    var s' := Boost(s, m, o, p);
    BoostLinks(s, m, o, p);
    assert Tight(s, o) && MutexLinks(s, m);
    assert s.mx[m].ceiling < p && s.th[o].base < p;
    forall k | 0 <= k < |s'.mx| && Some(k) != s.th[o].blocked ensures Ceil(s', k) {
      assert k != m ==> Ceil(s, k);
      assert MutexLinks(s, k);
    }
    if s.th[o].blocked.Some? {
      var next := s.th[o].blocked.value;
      assert next != m ==> Ceil(s, next);
    }
  }

  // ---------------------------------------------------------------- the blocking branch of acquireMutexPriority

  /** t is on the wait list of m and about to pend. */
  ghost function JoinWait(s: State, t: Tid, m: Mid): State
    requires t < |s.th| && m < |s.mx|
  {
    SetPhase(Join(s, t, m), t, WillPend(m))
  }

  /** Donating before joining the wait list, as the code does, is the same as joining first. */
  lemma {:induction false} DonateThenJoin(s: State, t: Tid, m: Mid, next: Option<Mid>, p: int)
    requires Refs(s) && t < |s.th| && m < |s.mx| && (next.Some? ==> next.value < |s.mx|) && s.th[t].pri >= p
    ensures Refs(JoinWait(s, t, m))
    ensures JoinWait(Donate(s, next, p), t, m) == Donate(JoinWait(s, t, m), next, p)
    ensures Covered(s, next, p) <==> Covered(JoinWait(s, t, m), next, p)
    decreases Below(s, p)
  {
    var j := JoinWait(s, t, m);
    if next.Some? && s.mx[next.value].owner.Some? {
      var o := s.mx[next.value].owner.value;
      if s.th[o].pri < p {
        var s' := Boost(s, next.value, o, p);
        RaisesOne(s, next.value, o, p);
        assert JoinWait(s', t, m) == Boost(j, next.value, o, p);
        DonateThenJoin(s', t, m, s.th[o].blocked, p);
      }
    }
  }

  lemma JoinLinks(s: State, t: Tid, m: Mid)
    requires Links(s) && t < |s.th| && m < |s.mx| && s.mx[m].protocol.PrioInherit? && s.th[t].phase.Running?
    ensures Links(JoinWait(s, t, m))
    ensures t !in s.mx[m].waitList
  {
    var j := JoinWait(s, t, m);
    assert ThreadLinks(s, t) && MutexLinks(s, m);
    AppendDistinct(s.mx[m].waitList, t);
    forall u | 0 <= u < |j.th| ensures ThreadLinks(j, u) {
      assert ThreadLinks(s, u);
    }
    forall k | 0 <= k < |j.mx| ensures MutexLinks(j, k) {
      assert MutexLinks(s, k);
    }
  }

  lemma JoinTight(s: State, t: Tid, m: Mid)
    requires t < |s.th| && m < |s.mx| && Refs(s) && Refs(JoinWait(s, t, m)) && AllTight(s)
    ensures AllTight(JoinWait(s, t, m))
  {
    var j := JoinWait(s, t, m);
    forall u | 0 <= u < |j.th| ensures Tight(j, u) {
      assert Tight(s, u);
      if s.th[u].base != s.th[u].pri {
        var k :| k in s.th[u].held && s.mx[k].ceiling == s.th[u].pri;
        assert k in j.th[u].held && j.mx[k].ceiling == j.th[u].pri;
      }
    }
  }

  lemma JoinNoExcess(s: State, t: Tid, m: Mid)
    requires t < |s.th| && m < |s.mx| && Refs(s) && Refs(JoinWait(s, t, m)) && AllNoExcess(s)
    ensures AllNoExcess(JoinWait(s, t, m))
  {
    var j := JoinWait(s, t, m);
    forall k | 0 <= k < |j.mx| ensures NoExcess(j, k) {
      assert NoExcess(s, k);
      if Inherited(s, k) && s.mx[k].ceiling > 0 {
        var u :| u in s.mx[k].waitList && s.mx[k].ceiling <= s.th[u].pri;
        assert u in j.mx[k].waitList && j.mx[k].ceiling <= j.th[u].pri;
      }
    }
  }

  lemma JoinKeeps(s: State, t: Tid, m: Mid)
    requires Sound(s)
    requires t < |s.th| && m < |s.mx| && s.mx[m].protocol.PrioInherit? && s.th[t].phase.Running?
    ensures Links(JoinWait(s, t, m)) && AllTight(JoinWait(s, t, m)) && AllNoExcess(JoinWait(s, t, m))
    ensures DomExcept(JoinWait(s, t, m), m, s.th[t].pri)
    ensures WaiterAt(JoinWait(s, t, m), m, s.th[t].pri)
    ensures AllCeil(s) ==> CeilExcept(JoinWait(s, t, m), m, s.th[t].pri)
  {
    var j := JoinWait(s, t, m);
    JoinLinks(s, t, m);
    JoinTight(s, t, m);
    JoinNoExcess(s, t, m);
    assert t in j.mx[m].waitList && j.th[t].pri >= s.th[t].pri;
    forall k | 0 <= k < |j.mx| && k != m ensures Dom(j, k) {
      assert Dom(s, k);
    }
    assert Dom(s, m);
    if AllCeil(s) {
      forall k | 0 <= k < |j.mx| && k != m ensures Ceil(j, k) {
        assert Ceil(s, k);
      }
      assert Ceil(s, m);
    }
  }

  /** t finds the inherit mutex m taken and is prepared to wait. */
  ghost predicate BlocksOn(s: State, t: Tid, m: Mid) {
    && t < |s.th| && m < |s.mx|
    && s.th[t].phase.Running?
    && s.mx[m].protocol.PrioInherit?
    && s.mx[m].count == 0
    && !(s.mx[m].owner == Some(t) && !s.mx[m].kind.Normal?)
  }

  /**
   Priority donation. On every ownership graph, cycles included: if owners ran at or above their waiters, they
   still do once t has joined the wait list of m; and no running priority is lowered.
   */
  lemma DonationDominates(s: State, t: Tid, m: Mid)
    requires Sound(s) && BlocksOn(s, t, m)
    ensures var s' := TryLock(s, t, m, false).0;
            && Sound(s')
            && s'.th[t].blocked == Some(m) && s'.th[t].pri == s.th[t].pri
            && forall u :: 0 <= u < |s.th| ==> s'.th[u].pri == s.th[u].pri || s.th[u].pri < s'.th[u].pri == s.th[t].pri
  {
    var p := s.th[t].pri;
    var j := JoinWait(s, t, m);
    JoinKeeps(s, t, m);
    DonateThenJoin(s, t, m, Some(m), p);
    assert TryLock(s, t, m, false).0 == Donate(j, Some(m), p);
    DonateShape(j, Some(m), p);
    ShapeLinks(j, Donate(j, Some(m), p));
    DonateDom(j, m, p);
    DonateTight(j, m, p);
    DonateNoExcess(j, m, p);
    DonateRaises(j, Some(m), p);
  }

  lemma {:induction false} DonateRaises(s: State, next: Option<Mid>, p: int)
    requires Refs(s) && (next.Some? ==> next.value < |s.mx|)
    ensures forall u :: 0 <= u < |s.th| ==>
              var r := Donate(s, next, p).th[u].pri; r == s.th[u].pri || s.th[u].pri < r == p
    decreases Below(s, p)
  {
    if next.Some? && s.mx[next.value].owner.Some? {
      var o := s.mx[next.value].owner.value;
      if s.th[o].pri < p {
        var s' := Boost(s, next.value, o, p);
        RaisesOne(s, next.value, o, p);
        DonateRaises(s', s.th[o].blocked, p);
      }
    }
  }

  /** The stored ceilings stay sufficient exactly when the donation stops at a covered mutex. */
  lemma DonationCovers(s: State, t: Tid, m: Mid)
    requires Good(s) && BlocksOn(s, t, m)
    ensures Good(TryLock(s, t, m, false).0) <==> Covered(s, Some(m), s.th[t].pri)
  {
    var p := s.th[t].pri;
    var j := JoinWait(s, t, m);
    DonationDominates(s, t, m);
    JoinKeeps(s, t, m);
    DonateThenJoin(s, t, m, Some(m), p);
    assert TryLock(s, t, m, false).0 == Donate(j, Some(m), p);
    DonateCeil(j, m, p);
  }
}
