/**
 Taking inherited priority back: the timed-out waiter (resetInheritPriority), the new owner and the
 release of a mutex, and the POSIX running priority over whole runs.
 */
module PriorityWithdrawal {
  import opened Base
  import opened PthreadMutex
  import opened MutexToken
  import opened PriorityInheritance

  // ---------------------------------------------------------------- resetInheritPriority

  /** Sound, except that the stored ceiling of `next` may still be owed to a thread that left or was lowered. */
  ghost predicate SoundBut(s: State, next: Option<Mid>) {
    && Links(s) && AllTight(s) && AllDom(s)
    && (next.Some? ==> next.value < |s.mx|)
    && forall k :: 0 <= k < |s.mx| && next != Some(k) ==> NoExcess(s, k)
  }

  /**
   What adjustPri needs of the stored ceilings of the mutexes `held`, which o keeps: together with the base of o they
   cover every other thread blocked on one of them.
   */
  ghost predicate Suffices(s: State, o: Tid, held: seq<Mid>)
    requires Refs(s) && o < |s.th| && forall k: Mid :: k in held ==> k < |s.mx|
  {
    forall k, u :: k in held && s.mx[k].protocol.PrioInherit? && u in s.mx[k].waitList && u != o ==>
      s.th[u].pri <= Max(s.th[o].base, MaxCeiling(s.mx, held))
  }

  /** If every stored ceiling, or the base of its owner, covers the waiters, this is always so. */
  lemma CeilSuffices(s: State, o: Tid, held: seq<Mid>)
    requires Links(s) && AllCeil(s) && o < |s.th| && forall k: Mid :: k in held ==> k in s.th[o].held
    ensures forall k: Mid :: k in held ==> k < |s.mx|
    ensures Suffices(s, o, held)
  {
    assert ThreadLinks(s, o);
    forall k, u | k in held && s.mx[k].protocol.PrioInherit? && u in s.mx[k].waitList && u != o
      ensures s.th[u].pri <= Max(s.th[o].base, MaxCeiling(s.mx, held))
    {
      assert Ceil(s, k);
    }
  }

  /** setPrioCeiling alone: nothing but the tightness of the owner is at risk. */
  lemma SetCeilingKeeps(s: State, m: Mid, o: Tid)
    requires SoundBut(s, Some(m)) && s.mx[m].protocol.PrioInherit? && s.mx[m].owner == Some(o)
    ensures Links(SetCeiling(s, m)) && AllDom(SetCeiling(s, m)) && AllNoExcess(SetCeiling(s, m))
    ensures AllCeil(s) ==> AllCeil(SetCeiling(s, m))
    ensures forall t :: 0 <= t < |s.th| && t != o ==> Tight(SetCeiling(s, m), t)
    ensures HighestWaiter(s.th, s.mx[m].waitList) <= s.th[o].pri
  {
    hide HighestWaiter;
    var s1 := SetCeiling(s, m);
    ShapeLinks(s, s1);
    assert Dom(s, m) && Tight(s, o) && ThreadLinks(s, o);
    forall k | 0 <= k < |s1.mx| ensures Dom(s1, k) && (AllCeil(s) ==> Ceil(s1, k)) && NoExcess(s1, k) {
      assert Dom(s, k) && (AllCeil(s) ==> Ceil(s, k));
      if k == m {
        var h := HighestWaiter(s.th, s.mx[m].waitList);
        if h > 0 {
          var t :| t in s.mx[m].waitList && s.th[t].pri == h;
          assert t in s1.mx[m].waitList && s1.mx[m].ceiling <= s1.th[t].pri;
        }
      } else {
        assert NoExcess(s, k);
        if Inherited(s, k) && s.mx[k].ceiling > 0 {
          var t :| t in s.mx[k].waitList && s.mx[k].ceiling <= s.th[t].pri;
          assert t in s1.mx[k].waitList && s1.mx[k].ceiling <= s1.th[t].pri;
        }
      }
    }
    forall t | 0 <= t < |s1.th| && t != o ensures Tight(s1, t) {
      assert Tight(s, t) && ThreadLinks(s, t);
      assert m !in s.th[t].held;
      if s.th[t].base != s.th[t].pri {
        var k :| k in s.th[t].held && s.mx[k].ceiling == s.th[t].pri;
        assert k in s1.th[t].held && s1.mx[k].ceiling == s1.th[t].pri;
      }
    }
  }

  /** The early exit compares with the last waiter, yet it is taken only when the owner keeps its priority. */
  lemma EarlyExit(s: State, m: Mid, o: Tid)
    requires SoundBut(s, Some(m)) && s.mx[m].protocol.PrioInherit? && s.mx[m].owner == Some(o)
    requires s.th[o].pri <= LastWaiter(s.th, s.mx[m].waitList)
    ensures Sound(SetCeiling(s, m)) && (AllCeil(s) ==> AllCeil(SetCeiling(s, m)))
  {
    var s1 := SetCeiling(s, m);
    SetCeilingKeeps(s, m, o);
    var w := s.mx[m].waitList;
    assert Tight(s, o) && ThreadLinks(s, o) && MutexLinks(s, m);
    if w != [] {
      assert w[|w| - 1] in w;
    }
    forall t | 0 <= t < |s1.th| ensures Tight(s1, t) {
      if t == o {
        if s.th[o].base != s.th[o].pri {
          assert m in s1.th[o].held && s1.mx[m].ceiling == s1.th[o].pri;
        }
        forall k | k in s1.th[o].held ensures s1.mx[k].ceiling <= s1.th[o].pri {
        }
      }
    }
  }

  /**
   A full round: the owner o runs at the maximum of its base and the ceilings it holds, never higher than before. It
   still runs at or above all its waiters exactly if those ceilings suffice.
   */
  lemma RoundKeeps(s: State, m: Mid, o: Tid)
    requires SoundBut(s, Some(m)) && s.mx[m].protocol.PrioInherit? && s.mx[m].owner == Some(o)
    ensures Links(RoundEnd(s, m, o)) && RoundEnd(s, m, o).th[o].pri <= s.th[o].pri
    ensures Refs(SetCeiling(s, m)) && forall k: Mid :: k in s.th[o].held ==> k < |s.mx|
    ensures SoundBut(RoundEnd(s, m, o), s.th[o].blocked) <==> Suffices(SetCeiling(s, m), o, s.th[o].held)
    ensures AllCeil(s) ==> Suffices(SetCeiling(s, m), o, s.th[o].held) && AllCeil(RoundEnd(s, m, o))
    ensures s.th[o].blocked.Some? ==> RoundEnd(s, m, o).mx[s.th[o].blocked.value].protocol.PrioInherit?
  {
    hide HighestWaiter, MutexLinks, Dom, Ceil, NoExcess, Suffices;
    var s1 := SetCeiling(s, m);
    SetCeilingKeeps(s, m, o);
    RoundShape(s, m, o);
    ShapeLinks(s, RoundEnd(s, m, o));
    assert Tight(s, o) && ThreadLinks(s, o);
    AdjustTight(s1, o);
    RoundDom(s1, o);
    AdjustNoExcess(s1, o);
    if AllCeil(s) {
      CeilSuffices(s1, o, s.th[o].held);
    }
  }

  lemma AdjustTight(s: State, o: Tid)
    requires Refs(s) && o < |s.th| && s.th[o].base >= 0
    requires forall t :: 0 <= t < |s.th| && t != o ==> Tight(s, t)
    ensures Refs(AdjustPri(s, o)) && AllTight(AdjustPri(s, o))
  {
    var s2 := AdjustPri(s, o);
    forall t | 0 <= t < |s2.th| ensures Tight(s2, t) {
      if t == o {
        var c := MaxCeiling(s.mx, s.th[o].held);
      } else {
        assert Tight(s, t);
        if s.th[t].base != s.th[t].pri {
          var k :| k in s.th[t].held && s.mx[k].ceiling == s.th[t].pri;
          assert k in s2.th[t].held && s2.mx[k].ceiling == s2.th[t].pri;
        }
      }
    }
  }

  /** Only the mutex o is blocked on can lose the thread its ceiling is owed to. */
  lemma AdjustNoExcess(s: State, o: Tid)
    requires Links(s) && AllNoExcess(s) && o < |s.th|
    ensures Refs(AdjustPri(s, o))
    ensures forall k :: 0 <= k < |s.mx| && s.th[o].blocked != Some(k) ==> NoExcess(AdjustPri(s, o), k)
  {
    var s2 := AdjustPri(s, o);
    forall k | 0 <= k < |s2.mx| && s.th[o].blocked != Some(k) ensures NoExcess(s2, k) {
      assert NoExcess(s, k) && MutexLinks(s, k);
      if Inherited(s, k) && s.mx[k].ceiling > 0 {
        var t :| t in s.mx[k].waitList && s.mx[k].ceiling <= s.th[t].pri;
        assert t in s2.mx[k].waitList && s2.mx[k].ceiling <= s2.th[t].pri;
      }
    }
  }

  /** adjustPri lowers o and leaves it at or above the waiters of everything it holds exactly if the ceilings suffice. */
  lemma RoundDom(s: State, o: Tid)
    requires Links(s) && AllDom(s) && o < |s.th|
    requires AdjustPri(s, o).th[o].pri <= s.th[o].pri
    ensures Refs(AdjustPri(s, o)) && forall k: Mid :: k in s.th[o].held ==> k < |s.mx|
    ensures AllDom(AdjustPri(s, o)) <==> Suffices(s, o, s.th[o].held)
    ensures AllCeil(s) ==> AllCeil(AdjustPri(s, o))
  {
    var s2 := AdjustPri(s, o);
    assert ThreadLinks(s, o);
    if Suffices(s, o, s.th[o].held) {
      forall k | 0 <= k < |s2.mx| ensures Dom(s2, k) {
        assert Dom(s, k) && MutexLinks(s, k);
      }
    }
    if AllDom(s2) {
      forall k, u | k in s.th[o].held && s.mx[k].protocol.PrioInherit? && u in s.mx[k].waitList && u != o
        ensures s.th[u].pri <= s2.th[o].pri
      {
        assert Dom(s2, k);
      }
    }
    if AllCeil(s) {
      forall k | 0 <= k < |s2.mx| ensures Ceil(s2, k) {
        assert Ceil(s, k);
      }
    }
  }

  /** resetInheritPriority unfolded by one round. */
  lemma ResetRound(s: State, m: Mid, n: nat)
    requires Refs(s) && m < |s.mx|
    ensures s.mx[m].owner.None? ==> ResetWithin(s, Some(m), n) == Some(s)
    ensures s.mx[m].owner.Some? && n > 0 && s.th[s.mx[m].owner.value].pri <= LastWaiter(s.th, s.mx[m].waitList) ==>
              ResetWithin(s, Some(m), n) == Some(SetCeiling(s, m))
    ensures s.mx[m].owner.Some? && n > 0 && s.th[s.mx[m].owner.value].pri > LastWaiter(s.th, s.mx[m].waitList) ==>
              var o := s.mx[m].owner.value;
              Refs(RoundEnd(s, m, o)) && ResetWithin(s, Some(m), n) == ResetWithin(RoundEnd(s, m, o), s.th[o].blocked, n - 1)
  {
    if s.mx[m].owner.Some? {
      RoundShape(s, m, s.mx[m].owner.value);
    }
  }

  lemma NoRounds(s: State, m: Mid)
    requires Refs(s) && m < |s.mx| && s.mx[m].owner.Some?
    ensures ResetWithin(s, Some(m), 0).None?
  {
  }

  lemma ResetStops(s: State, next: Option<Mid>, n: nat)
    requires Refs(s) && (next.Some? ==> next.value < |s.mx|)
    requires next.None? || s.mx[next.value].owner.None?
    ensures ResetWithin(s, next, n) == Some(s)
  {
  }

  /** In each of the first n rounds of resetInheritPriority the ceilings the adjusted owner holds suffice. */
  ghost predicate RoundsSuffice(s: State, next: Option<Mid>, n: nat)
    requires Links(s) && (next.Some? ==> next.value < |s.mx|)
    decreases n
  {
    next.None? || s.mx[next.value].owner.None? || n == 0 ||
    var m := next.value;
    var o := s.mx[m].owner.value;
    RoundLinks(s, m, o);
    || s.th[o].pri <= LastWaiter(s.th, s.mx[m].waitList)
    || (Suffices(SetCeiling(s, m), o, s.th[o].held) && RoundsSuffice(RoundEnd(s, m, o), s.th[o].blocked, n - 1))
  }

  lemma RoundLinks(s: State, m: Mid, o: Tid)
    requires Links(s) && m < |s.mx| && s.mx[m].owner == Some(o)
    ensures o < |s.th| && Links(RoundEnd(s, m, o)) && Refs(SetCeiling(s, m))
    ensures SetCeiling(s, m).th == s.th && |SetCeiling(s, m).mx| == |s.mx| && |RoundEnd(s, m, o).mx| == |s.mx|
    ensures forall k: Mid :: k in s.th[o].held ==> k < |s.mx|
    ensures s.th[o].blocked.Some? ==> s.th[o].blocked.value < |s.mx|
  {
    assert MutexLinks(s, m) && ThreadLinks(s, o);
    RoundShape(s, m, o);
    ShapeLinks(s, RoundEnd(s, m, o));
  }

  /** RoundsSuffice unfolded by one round. */
  lemma SufficeRound(s: State, m: Mid, o: Tid, n: nat)
    requires Links(s) && m < |s.mx| && s.mx[m].owner == Some(o) && n > 0
    requires o < |s.th| && s.th[o].pri > LastWaiter(s.th, s.mx[m].waitList) && RoundsSuffice(s, Some(m), n)
    ensures Links(RoundEnd(s, m, o)) && Refs(SetCeiling(s, m)) && forall k: Mid :: k in s.th[o].held ==> k < |s.mx|
    ensures s.th[o].blocked.Some? ==> s.th[o].blocked.value < |RoundEnd(s, m, o).mx|
    ensures Suffices(SetCeiling(s, m), o, s.th[o].held) && RoundsSuffice(RoundEnd(s, m, o), s.th[o].blocked, n - 1)
  {
    hide Suffices, SetCeiling, RoundEnd, ThreadLinks, MutexLinks;
    RoundLinks(s, m, o);
  }

  /**
   Priority withdrawal: whenever resetInheritPriority ends, on whatever graph, every owner runs at or above all
   its waiters and no boost outlives the waiter it came from, if the ceilings sufficed in every round; and they do
   if they covered all waiters before.
   */
  lemma {:induction false} ResetRestores(s: State, next: Option<Mid>, n: nat)
    requires SoundBut(s, next) && (next.Some? ==> s.mx[next.value].protocol.PrioInherit?)
    requires AllCeil(s) || RoundsSuffice(s, next, n)
    requires ResetWithin(s, next, n).Some?
    ensures Sound(ResetWithin(s, next, n).value)
    ensures AllCeil(s) ==> AllCeil(ResetWithin(s, next, n).value)
    decreases n
  {
    hide ResetWithin, RoundEnd, SetCeiling, LastWaiter, ThreadLinks, MutexLinks, Tight, Dom, Ceil, Suffices, RoundsSuffice;
    if next.None? || s.mx[next.value].owner.None? {
      ResetStops(s, next, n);
      assert forall k :: 0 <= k < |s.mx| ==> NoExcess(s, k);
    } else {
      var m := next.value;
      var o := s.mx[m].owner.value;
      NoRounds(s, m);
      ResetRound(s, m, n);
      if s.th[o].pri <= LastWaiter(s.th, s.mx[m].waitList) {
        EarlyExit(s, m, o);
      } else {
        RoundKeeps(s, m, o);
        if !AllCeil(s) {
          SufficeRound(s, m, o, n);
        }
        ResetRestores(RoundEnd(s, m, o), s.th[o].blocked, n - 1);
      }
    }
  }

  /** The chain of owners and the mutexes they are blocked on ends after at most n owners. */
  ghost predicate ChainEnds(s: State, next: Option<Mid>, n: nat)
    requires Refs(s) && (next.Some? ==> next.value < |s.mx|)
    decreases n
  {
    next.None? || s.mx[next.value].owner.None? ||
    (n > 0 && ChainEnds(s, s.th[s.mx[next.value].owner.value].blocked, n - 1))
  }

  lemma {:induction false} ChainShape(s: State, s': State, next: Option<Mid>, n: nat)
    requires Refs(s) && Refs(s') && SameShape(s, s') && (next.Some? ==> next.value < |s.mx|)
    ensures ChainEnds(s', next, n) == ChainEnds(s, next, n)
    decreases n
  {
    if next.Some? && s.mx[next.value].owner.Some? && n > 0 {
      ChainShape(s, s', s.th[s.mx[next.value].owner.value].blocked, n - 1);
    }
  }

  /** Where the wait chain ends, the loop does: in any state, whatever other threads are blocked on. */
  lemma {:induction false} ResetEnds(s: State, next: Option<Mid>, n: nat)
    requires Refs(s) && (next.Some? ==> next.value < |s.mx|) && ChainEnds(s, next, n)
    ensures ResetWithin(s, next, n).Some?
    decreases n
  {
    hide HighestWaiter, MaxCeiling;
    if next.Some? && s.mx[next.value].owner.Some? {
      var m := next.value;
      var o := s.mx[m].owner.value;
      if s.th[o].pri > LastWaiter(s.th, s.mx[m].waitList) {
        var s2 := RoundEnd(s, m, o);
        RoundShape(s, m, o);
        ChainShape(s, s2, s.th[o].blocked, n - 1);
        ResetEnds(s2, s2.th[o].blocked, n - 1);
      }
    }
  }

  /** ResetWithin behind a name that the loop of the method can treat as a black box. */
  ghost function Outcome(s: State, next: Option<Mid>, n: nat): Option<State>
    requires Refs(s) && (next.Some? ==> next.value < |s.mx|)
  {
    ResetWithin(s, next, n)
  }

  /** One round of the loop, seen from its caller. */
  lemma OutcomeRound(s: State, m: Mid, n: nat)
    requires Refs(s) && m < |s.mx| && s.mx[m].owner.Some? && Outcome(s, Some(m), n).Some?
    ensures var o := s.mx[m].owner.value;
            && n > 0 && o < |s.th| && Refs(SetCeiling(s, m)) && Refs(RoundEnd(s, m, o))
            && (s.th[o].blocked.Some? ==> s.th[o].blocked.value < |RoundEnd(s, m, o).mx|)
            && Outcome(s, Some(m), n) ==
               if s.th[o].pri <= LastWaiter(s.th, s.mx[m].waitList) then Some(SetCeiling(s, m))
               else Outcome(RoundEnd(s, m, o), s.th[o].blocked, n - 1)
  {
    NoRounds(s, m);
    ResetRound(s, m, n);
    RoundShape(s, m, s.mx[m].owner.value);
  }

  lemma ResetsToIntro(s: State, m: Mid, n: nat, s': State)
    requires Refs(s) && m < |s.mx| && Outcome(s, Some(m), n) == Some(s')
    ensures ResetsTo(s, m, s')
  {
  }

  lemma OutcomeStops(s: State, next: Option<Mid>, n: nat)
    requires Refs(s) && (next.Some? ==> next.value < |s.mx|)
    requires next.None? || s.mx[next.value].owner.None?
    ensures Outcome(s, next, n) == Some(s)
  {
  }

  /** The loop is deterministic: more rounds never change the result. */
  lemma {:induction false} ResetUnique(s: State, next: Option<Mid>, n: nat, k: nat)
    requires Refs(s) && (next.Some? ==> next.value < |s.mx|) && n <= k && ResetWithin(s, next, n).Some?
    ensures ResetWithin(s, next, k) == ResetWithin(s, next, n)
    decreases n
  {
    hide HighestWaiter, MaxCeiling;
    if next.Some? && s.mx[next.value].owner.Some? && n > 0 {
      var m := next.value;
      var o := s.mx[m].owner.value;
      if s.th[o].pri > LastWaiter(s.th, s.mx[m].waitList) {
        var s2 := RoundEnd(s, m, o);
        RoundShape(s, m, o);
        ResetUnique(s2, s2.th[o].blocked, n - 1, k - 1);
      }
    }
  }

  /** The whole time-out path of acquireMutexPriority. */
  lemma WithdrawalRestores(s: State, t: Tid, s': State)
    requires Sound(s) && Token(s) && Next(s, Abandon(t), s') && (AllCeil(s) || SufficientStep(s, Abandon(t)))
    ensures Sound(s') && (AllCeil(s) ==> AllCeil(s'))
    ensures forall m :: 0 <= m < |s'.mx| ==> t !in s'.mx[m].waitList
  {
    var m := s.th[t].phase.m;
    var g := GiveUp(s, t);
    GiveUpKeeps(s, t);
    if s.mx[m].protocol.PrioInherit? {
      var n: nat :| ResetWithin(g, Some(m), n) == Some(s');
      ResetRestores(g, Some(m), n);
      ResetShape(g, Some(m), n);
    } else {
      assert forall k :: 0 <= k < |g.mx| ==> NoExcess(g, k);
    }
    assert g.th[t].blocked.None? by { assert ThreadLinks(s, t); }
    forall k | 0 <= k < |s'.mx| ensures t !in s'.mx[k].waitList {
      assert MutexLinks(s', k);
    }
  }

  lemma LeaveLinks(s: State, t: Tid, m: Mid, ph: Phase)
    requires Links(s) && t < |s.th| && m < |s.mx| && s.th[t].blocked == Some(m) && ph.Running?
    ensures Links(SetPhase(Leave(s, t, m), t, ph))
  {
    var g := SetPhase(Leave(s, t, m), t, ph);
    assert ThreadLinks(s, t) && MutexLinks(s, m);
    WithoutMembers(s.mx[m].waitList, t);
    forall u | 0 <= u < |g.th| ensures ThreadLinks(g, u) {
      assert ThreadLinks(s, u);
    }
    forall k | 0 <= k < |g.mx| ensures MutexLinks(g, k) {
      assert MutexLinks(s, k);
    }
  }

  lemma PhaseOnlyLinks(s: State, t: Tid, ph: Phase)
    requires Links(s) && t < |s.th| && s.th[t].blocked.None?
    requires ph.Running? || (ph.m < |s.mx| && !s.mx[ph.m].protocol.PrioInherit?)
    ensures Links(SetPhase(s, t, ph))
  {
    var g := SetPhase(s, t, ph);
    forall u | 0 <= u < |g.th| ensures ThreadLinks(g, u) {
      assert ThreadLinks(s, u);
    }
    forall k | 0 <= k < |g.mx| ensures MutexLinks(g, k) {
      assert MutexLinks(s, k);
    }
  }

  /** g has the priorities, ceilings and ownership of s, and no waiter that s does not have. */
  ghost predicate FewerWaiters(s: State, g: State) {
    && |g.th| == |s.th| && |g.mx| == |s.mx|
    && (forall u :: 0 <= u < |s.th| ==>
          g.th[u].base == s.th[u].base && g.th[u].pri == s.th[u].pri && g.th[u].held == s.th[u].held)
    && (forall k :: 0 <= k < |s.mx| ==>
          && g.mx[k].ceiling == s.mx[k].ceiling && g.mx[k].owner == s.mx[k].owner && g.mx[k].protocol == s.mx[k].protocol
          && forall u :: u in g.mx[k].waitList ==> u in s.mx[k].waitList)
  }

  lemma FewerWaitersKeeps(s: State, g: State)
    requires Refs(s) && Refs(g) && FewerWaiters(s, g) && AllTight(s) && AllDom(s)
    ensures AllTight(g) && AllDom(g)
    ensures AllCeil(s) ==> AllCeil(g)
  {
    forall u | 0 <= u < |g.th| ensures Tight(g, u) {
      assert Tight(s, u);
      if s.th[u].base != s.th[u].pri {
        var k :| k in s.th[u].held && s.mx[k].ceiling == s.th[u].pri;
        assert k in g.th[u].held && g.mx[k].ceiling == g.th[u].pri;
      }
    }
    forall k | 0 <= k < |g.mx| ensures Dom(g, k) {
      assert Dom(s, k);
    }
    if AllCeil(s) {
      forall k | 0 <= k < |g.mx| ensures Ceil(g, k) {
        assert Ceil(s, k);
      }
    }
  }

  lemma SameWaitersNoExcess(s: State, g: State, k: Mid)
    requires Refs(s) && Refs(g) && FewerWaiters(s, g) && k < |s.mx| && NoExcess(s, k) && g.mx[k].waitList == s.mx[k].waitList
    ensures NoExcess(g, k)
  {
    if Inherited(s, k) && s.mx[k].ceiling > 0 {
      var t :| t in s.mx[k].waitList && s.mx[k].ceiling <= s.th[t].pri;
      assert t in g.mx[k].waitList && g.mx[k].ceiling <= g.th[t].pri;
    }
  }

  lemma GiveUpKeeps(s: State, t: Tid)
    requires Sound(s) && t < |s.th| && s.th[t].phase.TimedOut? && s.th[t].phase.m < |s.mx|
    ensures AllCeil(s) ==> Refs(GiveUp(s, t)) && AllCeil(GiveUp(s, t))
    ensures SoundBut(GiveUp(s, t), if s.mx[s.th[t].phase.m].protocol.PrioInherit? then Some(s.th[t].phase.m) else None)
  {
    var m := s.th[t].phase.m;
    var g := GiveUp(s, t);
    assert ThreadLinks(s, t);
    if s.mx[m].protocol.PrioInherit? {
      WithoutSubset(s.mx[m].waitList, t);
      LeaveLinks(s, t, m, Running);
    } else {
      PhaseOnlyLinks(s, t, Running);
    }
    FewerWaitersKeeps(s, g);
    forall k | 0 <= k < |g.mx| && !(s.mx[m].protocol.PrioInherit? && k == m) ensures NoExcess(g, k) {
      assert NoExcess(s, k);
      SameWaitersNoExcess(s, g, k);
    }
  }

  // ---------------------------------------------------------------- becoming the owner

  /** The new owner recomputes the ceiling from the wait list and runs at least there. */
  lemma OwnershipKeeps(s: State, t: Tid, m: Mid)
    requires Sound(s) && t < |s.th| && m < |s.mx| && s.mx[m].owner.None?
    requires s.th[t].blocked.None?
    ensures Sound(TakeOwnership(s, t, m)) && (AllCeil(s) ==> AllCeil(TakeOwnership(s, t, m)))
  {
    var s' := TakeOwnership(s, t, m);
    assert ThreadLinks(s, t) && MutexLinks(s, m);
    assert m !in s.th[t].held;
    AppendDistinct(s.th[t].held, m);
    forall u | 0 <= u < |s'.th| ensures ThreadLinks(s', u) {
      assert ThreadLinks(s, u);
    }
    forall k | 0 <= k < |s'.mx| ensures MutexLinks(s', k) {
      assert MutexLinks(s, k);
    }
    OwnershipPriorities(s, t, m);
  }

  lemma OwnershipPriorities(s: State, t: Tid, m: Mid)
    requires Sound(s) && t < |s.th| && m < |s.mx| && s.mx[m].owner.None? && s.th[t].blocked.None?
    requires Refs(TakeOwnership(s, t, m))
    ensures AllTight(TakeOwnership(s, t, m)) && AllDom(TakeOwnership(s, t, m)) && AllNoExcess(TakeOwnership(s, t, m))
    ensures AllCeil(s) ==> AllCeil(TakeOwnership(s, t, m))
  {
    hide HighestWaiter;
    var s' := TakeOwnership(s, t, m);
    forall u | 0 <= u < |s'.th| ensures Tight(s', u) {
      assert Tight(s, u) && ThreadLinks(s, u);
      if s.th[u].base != s.th[u].pri {
        var k :| k in s.th[u].held && s.mx[k].ceiling == s.th[u].pri;
        assert k in s'.th[u].held && s'.mx[k].ceiling == s.th[u].pri;
      }
      if u == t && !s.mx[m].protocol.PrioNone? {
        assert m in s'.th[t].held;
      }
    }
    forall k | 0 <= k < |s'.mx| ensures Dom(s', k) && (AllCeil(s) ==> Ceil(s', k)) && NoExcess(s', k) {
      assert Dom(s, k) && (AllCeil(s) ==> Ceil(s, k)) && NoExcess(s, k) && MutexLinks(s, k);
      if Inherited(s', k) && s'.mx[k].ceiling > 0 {
        if k == m {
          var h := HighestWaiter(s.th, s.mx[m].waitList);
          var u :| u in s.mx[m].waitList && s.th[u].pri == h;
          assert u in s'.mx[k].waitList && s'.mx[k].ceiling <= s'.th[u].pri;
        } else {
          var u :| u in s.mx[k].waitList && s.mx[k].ceiling <= s.th[u].pri;
          assert u in s'.mx[k].waitList && s'.mx[k].ceiling <= s'.th[u].pri;
        }
      }
    }
  }

  lemma LeaveKeeps(s: State, t: Tid, m: Mid)
    requires Sound(s) && t < |s.th| && m < |s.mx| && s.th[t].blocked == Some(m) && s.mx[m].owner.None?
    ensures Sound(SetPhase(Leave(s, t, m), t, Running))
    ensures AllCeil(s) ==> AllCeil(SetPhase(Leave(s, t, m), t, Running))
  {
    var g := SetPhase(Leave(s, t, m), t, Running);
    WithoutSubset(s.mx[m].waitList, t);
    LeaveLinks(s, t, m, Running);
    FewerWaitersKeeps(s, g);
    forall k | 0 <= k < |g.mx| ensures NoExcess(g, k) {
      assert NoExcess(s, k);
      if k != m { SameWaitersNoExcess(s, g, k); }
    }
  }

  lemma FinishKeeps(s: State, t: Tid)
    requires Sound(s) && Token(s) && t < |s.th| && s.th[t].phase.Granted? && s.th[t].phase.m < |s.mx|
    ensures Sound(Finish(s, t)) && (AllCeil(s) ==> AllCeil(Finish(s, t)))
  {
    var m := s.th[t].phase.m;
    assert ThreadOk(s, t) && MutexOk(s, m) && ThreadLinks(s, t);
    LeaveRefs(s, t, m);
    if s.mx[m].protocol.PrioInherit? {
      LeaveKeeps(s, t, m);
      var g := SetPhase(Leave(s, t, m), t, Running);
      OwnershipKeeps(g, t, m);
      SamePhaseOwnership(Leave(s, t, m), t, m);
    } else {
      OwnershipKeeps(s, t, m);
    }
  }

  /** The phase a thread comes from does not matter to TakeOwnership. */
  lemma SamePhaseOwnership(s: State, t: Tid, m: Mid)
    requires Refs(s) && t < |s.th| && m < |s.mx|
    ensures Refs(SetPhase(s, t, Running))
    ensures TakeOwnership(SetPhase(s, t, Running), t, m) == TakeOwnership(s, t, m)
  {
    var g := SetPhase(s, t, Running);
    SameHighest(s.th, g.th, s.mx[m].waitList);
  }

  lemma {:induction false} SameHighest(a: seq<Thread>, b: seq<Thread>, w: seq<Tid>)
    requires |a| == |b| && forall t :: t in w ==> t < |a|
    requires forall t :: 0 <= t < |a| ==> a[t].pri == b[t].pri
    ensures HighestWaiter(a, w) == HighestWaiter(b, w)
  {
    if w != [] {
      var rest := w[..|w| - 1];
      assert forall t :: t in rest ==> t in w;
      SameHighest(a, b, rest);
    }
  }

  // ---------------------------------------------------------------- release

  /** r is s after its owner t let go of m, field by field. */
  ghost predicate Released(s: State, r: State, t: Tid, m: Mid)
    requires Refs(s) && t < |s.th| && m < |s.mx|
  {
    && Refs(r)
    && |r.th| == |s.th| && |r.mx| == |s.mx|
    && (forall u :: 0 <= u < |s.th| && u != t ==> r.th[u] == s.th[u])
    && (forall k :: 0 <= k < |s.mx| && k != m ==> r.mx[k] == s.mx[k])
    && r.mx[m].owner.None? && r.mx[m].waitList == s.mx[m].waitList && r.mx[m].protocol == s.mx[m].protocol
    && r.th[t] == s.th[t].(held := r.th[t].held, pri := r.th[t].pri)
    && Distinct(r.th[t].held)
    && (forall k :: k in r.th[t].held <==> k in s.th[t].held && k != m)
    && r.th[t].pri == if s.mx[m].protocol.PrioNone? then s.th[t].pri else Max(s.th[t].base, MaxCeiling(r.mx, r.th[t].held))
  }

  lemma ReleaseFields(s: State, t: Tid, m: Mid)
    requires Links(s) && t < |s.th| && m < |s.mx| && s.mx[m].owner == Some(t)
    ensures Released(s, Release(s, t, m), t, m)
  {
    ReleaseRefs(s, t, m);
    assert ThreadLinks(s, t) && MutexLinks(s, m);
    WithoutMembers(s.th[t].held, m);
  }

  lemma ReleasedLinks(s: State, r: State, t: Tid, m: Mid)
    requires Links(s) && t < |s.th| && m < |s.mx| && s.mx[m].owner == Some(t) && Released(s, r, t, m)
    ensures Links(r)
  {
    forall u | 0 <= u < |r.th| ensures ThreadLinks(r, u) {
      assert ThreadLinks(s, u);
      hide Links, MutexLinks;
    }
    forall k | 0 <= k < |r.mx| ensures MutexLinks(r, k) {
      assert MutexLinks(s, k);
      hide Links, ThreadLinks;
    }
  }

  lemma ReleasedTight(s: State, r: State, t: Tid, m: Mid)
    requires Links(s) && AllTight(s) && t < |s.th| && m < |s.mx| && s.mx[m].owner == Some(t) && Released(s, r, t, m)
    ensures AllTight(r)
  {
    assert ThreadLinks(s, t);
    forall u | 0 <= u < |r.th| ensures Tight(r, u) {
      assert Tight(s, u) && ThreadLinks(s, u);
      if u == t && !s.mx[m].protocol.PrioNone? {
        var c := MaxCeiling(r.mx, r.th[t].held);
      } else {
        assert m !in s.th[u].held;
        if s.th[u].base != s.th[u].pri {
          var k :| k in s.th[u].held && s.mx[k].ceiling == s.th[u].pri;
          assert k in r.th[u].held && r.mx[k].ceiling == r.th[u].pri;
        }
      }
    }
  }

  lemma {:induction false} SameCeilings(a: seq<Mutex>, b: seq<Mutex>, held: seq<Mid>)
    requires |a| == |b| && forall k :: k in held ==> k < |a| && a[k].ceiling == b[k].ceiling
    ensures MaxCeiling(a, held) == MaxCeiling(b, held)
  {
    if held != [] {
      var rest := held[..|held| - 1];
      assert held[|held| - 1] in held && forall k :: k in rest ==> k in held;
      SameCeilings(a, b, rest);
    }
  }

  lemma ReleasedNoExcess(s: State, r: State, t: Tid, m: Mid)
    requires Sound(s) && t < |s.th| && m < |s.mx| && s.mx[m].owner == Some(t) && s.th[t].phase.Running?
    requires Released(s, r, t, m)
    ensures AllNoExcess(r) && (AllCeil(s) ==> AllCeil(r))
  {
    assert ThreadLinks(s, t);
    forall k | 0 <= k < |r.mx| ensures NoExcess(r, k) && (AllCeil(s) ==> Ceil(r, k)) {
      assert NoExcess(s, k) && (AllCeil(s) ==> Ceil(s, k)) && MutexLinks(s, k);
      if Inherited(r, k) {
        assert t !in s.mx[k].waitList;
        if s.mx[k].ceiling > 0 {
          var u :| u in s.mx[k].waitList && s.mx[k].ceiling <= s.th[u].pri;
          assert u in r.mx[k].waitList && r.mx[k].ceiling <= r.th[u].pri;
        }
      }
    }
  }

  /** What the release of m asks of the mutexes that t keeps. */
  ghost predicate ReleaseSuffices(s: State, t: Tid, m: Mid)
    requires Links(s) && t < |s.th| && m < |s.mx|
  {
    s.mx[m].protocol.PrioNone? ||
    (HeldLeft(s, t, m);
     Suffices(s, t, Without(s.th[t].held, m)))
  }

  lemma HeldLeft(s: State, t: Tid, m: Mid)
    requires Links(s) && t < |s.th|
    ensures forall k: Mid :: k in Without(s.th[t].held, m) ==> k < |s.mx| && k in s.th[t].held && k != m
  {
    assert ThreadLinks(s, t);
    WithoutMembers(s.th[t].held, m);
  }

  /** The mutex k that t keeps stays dominated exactly if base and remaining ceilings of t cover its waiters. */
  lemma ReleasedDom(s: State, r: State, t: Tid, m: Mid, k: Mid)
    requires Links(s) && t < |s.th| && m < |s.mx| && s.mx[m].owner == Some(t) && s.th[t].phase.Running?
    requires Released(s, r, t, m) && r.th[t].held == Without(s.th[t].held, m) && !s.mx[m].protocol.PrioNone?
    requires k in r.th[t].held && s.mx[k].protocol.PrioInherit?
    ensures forall j: Mid :: j in Without(s.th[t].held, m) ==> j < |s.mx|
    ensures Dom(r, k) <==> forall u :: u in s.mx[k].waitList ==>
                             s.th[u].pri <= Max(s.th[t].base, MaxCeiling(s.mx, Without(s.th[t].held, m)))
  {
    hide MaxCeiling;
    assert ThreadLinks(s, t) && MutexLinks(s, k);
    HeldLeft(s, t, m);
    SameCeilings(r.mx, s.mx, r.th[t].held);
    assert t !in s.mx[k].waitList;
  }

  lemma ReleasedAllDom(s: State, r: State, t: Tid, m: Mid)
    requires Sound(s) && t < |s.th| && m < |s.mx| && s.mx[m].owner == Some(t) && s.th[t].phase.Running?
    requires Released(s, r, t, m) && (!s.mx[m].protocol.PrioNone? ==> r.th[t].held == Without(s.th[t].held, m))
    ensures AllDom(r) <==> ReleaseSuffices(s, t, m)
  {
    hide MaxCeiling;
    forall k | 0 <= k < |r.mx| && !(k in r.th[t].held && s.mx[k].protocol.PrioInherit? && !s.mx[m].protocol.PrioNone?)
      ensures Dom(r, k)
    {
      ReleasedOtherDom(s, r, t, m, k);
    }
    if !s.mx[m].protocol.PrioNone? {
      HeldLeft(s, t, m);
      var held := Without(s.th[t].held, m);
      forall k | k in held && s.mx[k].protocol.PrioInherit?
        ensures Dom(r, k) <==> forall u :: u in s.mx[k].waitList ==> s.th[u].pri <= Max(s.th[t].base, MaxCeiling(s.mx, held))
        ensures t !in s.mx[k].waitList
      {
        ReleasedDom(s, r, t, m, k);
        assert ThreadLinks(s, t) && MutexLinks(s, k);
      }
    }
  }

  lemma ReleasedOtherDom(s: State, r: State, t: Tid, m: Mid, k: Mid)
    requires Sound(s) && t < |s.th| && m < |s.mx| && s.mx[m].owner == Some(t) && s.th[t].phase.Running?
    requires Released(s, r, t, m) && k < |r.mx|
    requires !(k in r.th[t].held && s.mx[k].protocol.PrioInherit? && !s.mx[m].protocol.PrioNone?)
    ensures Dom(r, k)
  {
    hide MaxCeiling;
    assert ThreadLinks(s, t) && MutexLinks(s, k) && Dom(s, k);
  }

  /** A running thread that lets go of a mutex keeps the boosts owed to the mutexes it still holds exactly if they suffice. */
  lemma ReleaseKeeps(s: State, t: Tid, m: Mid)
    requires Sound(s) && t < |s.th| && m < |s.mx| && s.mx[m].owner == Some(t) && s.th[t].phase.Running?
    ensures Sound(Release(s, t, m)) <==> ReleaseSuffices(s, t, m)
    ensures Links(Release(s, t, m)) && AllTight(Release(s, t, m)) && AllNoExcess(Release(s, t, m))
    ensures AllCeil(s) ==> ReleaseSuffices(s, t, m) && AllCeil(Release(s, t, m))
  {
    var r := Release(s, t, m);
    ReleaseFields(s, t, m);
    ReleasedLinks(s, r, t, m);
    ReleasedTight(s, r, t, m);
    ReleasedNoExcess(s, r, t, m);
    ReleasedAllDom(s, r, t, m);
    if AllCeil(s) && !s.mx[m].protocol.PrioNone? {
      HeldLeft(s, t, m);
      CeilSuffices(s, t, Without(s.th[t].held, m));
    }
  }

  /** The semaphore post changes phases and the semaphore only. */
  lemma PostKeeps(s: State, s': State)
    requires Links(s) && AllTight(s) && AllNoExcess(s)
    requires |s'.th| == |s.th| && |s'.mx| == |s.mx|
    requires forall u :: 0 <= u < |s.th| ==> s'.th[u] == s.th[u].(phase := s'.th[u].phase)
    requires forall u :: 0 <= u < |s.th| && s'.th[u].phase != s.th[u].phase ==>
               !s.th[u].phase.Running? && !s'.th[u].phase.Running? && s'.th[u].phase.m == s.th[u].phase.m
    requires forall k :: 0 <= k < |s.mx| ==>
               && s'.mx[k].owner == s.mx[k].owner && s'.mx[k].protocol == s.mx[k].protocol
               && s'.mx[k].ceiling == s.mx[k].ceiling && s'.mx[k].waitList == s.mx[k].waitList
               && (forall u :: u in s'.mx[k].pendQ ==> u < |s.th|)
    ensures Links(s') && AllTight(s') && AllNoExcess(s')
    ensures AllDom(s') <==> AllDom(s)
    ensures AllCeil(s) ==> AllCeil(s')
  {
    forall u | 0 <= u < |s'.th| ensures ThreadLinks(s', u) && Tight(s', u) {
      assert ThreadLinks(s, u) && Tight(s, u);
      if s.th[u].base != s.th[u].pri {
        var k :| k in s.th[u].held && s.mx[k].ceiling == s.th[u].pri;
        assert k in s'.th[u].held && s'.mx[k].ceiling == s'.th[u].pri;
      }
    }
    forall k | 0 <= k < |s'.mx| ensures MutexLinks(s', k) && (Dom(s', k) <==> Dom(s, k)) && (Ceil(s, k) ==> Ceil(s', k)) {
      assert MutexLinks(s, k);
    }
    forall k | 0 <= k < |s'.mx| ensures NoExcess(s', k) {
      assert NoExcess(s, k);
      SameWaitersNoExcess(s, s', k);
    }
  }

  lemma HandOverKeeps(r: State, m: Mid)
    requires Links(r) && AllTight(r) && AllNoExcess(r) && m < |r.mx|
    requires forall u :: u in r.mx[m].pendQ ==> r.th[u].phase == Waiting(m)
    ensures Links(Post(r, m)) && AllTight(Post(r, m)) && AllNoExcess(Post(r, m))
    ensures AllDom(Post(r, m)) <==> AllDom(r)
    ensures AllCeil(r) ==> AllCeil(Post(r, m))
  {
    var q := r.mx[m].pendQ;
    var s' := Post(r, m);
    if q != [] {
      assert q[0] in q;
      assert forall u :: u in q[1..] ==> u in q;
    }
    PostKeeps(r, s');
  }

  lemma LastUnlockKeeps(s: State, t: Tid, m: Mid)
    requires Sound(s) && Token(s) && t < |s.th| && m < |s.mx| && s.th[t].phase.Running?
    requires s.mx[m].owner == Some(t) && s.mx[m].lockCnt == 1
    ensures var s' := Unlock(s, t, m).0;
            && Links(s') && AllTight(s') && AllNoExcess(s') && (AllDom(s') <==> ReleaseSuffices(s, t, m))
            && (AllCeil(s) ==> ReleaseSuffices(s, t, m) && AllCeil(s'))
  {
    hide ThreadLinks, MutexLinks, Tight, Dom, Ceil, NoExcess, ThreadOk;
    var s1 := s.(locks := s.locks - multiset{(t, m)});
    PostKeeps(s, s1);
    ReleaseKeeps(s1, t, m);
    LocksIrrelevant(s, s1, t, m);
    var r := Release(s1, t, m);
    assert MutexOk(s, m);
    ReleasePhases(s1, t, m);
    hide Release, ReleaseSuffices;
    HandOverKeeps(r, m);
  }

  /**
   An unlock leaves every thread its rightful priority exactly if the ceilings of the mutexes kept suffice: for a thread
   that holds any number of mutexes, in any state with the right priorities.
   */
  lemma UnlockKeeps(s: State, t: Tid, m: Mid)
    requires Sound(s) && Token(s) && t < |s.th| && m < |s.mx| && s.th[t].phase.Running?
    ensures Sound(Unlock(s, t, m).0) <==> SufficientStep(s, UnlockBy(t, m))
    ensures Links(Unlock(s, t, m).0) && AllTight(Unlock(s, t, m).0) && AllNoExcess(Unlock(s, t, m).0)
    ensures AllCeil(s) ==> SufficientStep(s, UnlockBy(t, m)) && AllCeil(Unlock(s, t, m).0)
  {
    var x := s.mx[m];
    assert MutexOk(s, m);
    hide Links, AllTight, AllDom, AllNoExcess, AllCeil, ReleaseSuffices, Release;
    if x.owner == Some(t) {
      if x.lockCnt > 1 {
        PostKeeps(s, Unlock(s, t, m).0);
      } else {
        LastUnlockKeeps(s, t, m);
      }
    }
  }

  lemma LocksIrrelevant(s: State, s1: State, t: Tid, m: Mid)
    requires Links(s) && Links(s1) && s1.th == s.th && s1.mx == s.mx && t < |s.th| && m < |s.mx|
    ensures ReleaseSuffices(s1, t, m) <==> ReleaseSuffices(s, t, m)
  {
  }

  // ---------------------------------------------------------------- whole runs

  /** A lock call that has to wait for an inherit mutex donates along a chain that ends covered. */
  ghost predicate CoveredStep(s: State, e: Event) {
    e.Lock? && !e.noWait && Refs(s) && BlocksOn(s, e.t, e.m) ==> Covered(s, Some(e.m), s.th[e.t].pri)
  }

  /** The ceilings suffice wherever e takes a boost back. */
  ghost predicate SufficientStep(s: State, e: Event) {
    Links(s) && Enabled(s, e) ==>
      match e
      case UnlockBy(t, m) => s.mx[m].owner == Some(t) && s.mx[m].lockCnt == 1 ==> ReleaseSuffices(s, t, m)
      case Abandon(t) => s.mx[s.th[t].phase.m].protocol.PrioInherit? ==> WithdrawalSuffices(s, t)
      case _ => true
  }

  ghost predicate WithdrawalSuffices(s: State, t: Tid)
    requires Links(s) && t < |s.th| && s.th[t].phase.TimedOut? && s.th[t].phase.m < |s.mx|
    requires s.mx[s.th[t].phase.m].protocol.PrioInherit?
  {
    assert ThreadLinks(s, t);
    LeaveLinks(s, t, s.th[t].phase.m, Running);
    forall n: nat :: RoundsSuffice(GiveUp(s, t), Some(s.th[t].phase.m), n)
  }

  /** A lock call keeps the right priorities whatever it donates; the ceilings cover all waiters after it if it ends covered. */
  lemma TryLockKeeps(s: State, t: Tid, m: Mid, noWait: bool)
    requires Sound(s) && Token(s) && t < |s.th| && m < |s.mx| && s.th[t].phase.Running?
    ensures Sound(TryLock(s, t, m, noWait).0)
    ensures AllCeil(s) && CoveredStep(s, Lock(t, m, noWait)) ==> AllCeil(TryLock(s, t, m, noWait).0)
  {
    hide Links, AllTight, AllDom, AllCeil, AllNoExcess, Token, Donate, HighestWaiter, MaxCeiling, Covered;
    Unblocked(s, t, m);
    var x := s.mx[m];
    var s' := TryLock(s, t, m, noWait).0;
    if s' == s {
    } else if x.owner == Some(t) && x.kind.Recursive? {
      PostKeeps(s, s');
    } else if x.count > 0 {
      var s1 := s.(mx := s.mx[m := x.(count := x.count - 1)]);
      PostKeeps(s, s1);
      if x.protocol.PrioNone? {
        var s2 := s1.(mx := s1.mx[m := s1.mx[m].(granted := Some(t))]);
        PostKeeps(s1, s2);
        QuietPhase(s2, t, Granted(m));
      } else {
        OwnershipKeeps(s1, t, m);
      }
    } else if x.protocol.PrioInherit? {
      DonationDominates(s, t, m);
      if AllCeil(s) {
        DonationCovers(s, t, m);
      }
    } else {
      QuietPhase(s, t, WillPend(m));
    }
  }

  lemma Unblocked(s: State, t: Tid, m: Mid)
    requires Links(s) && Token(s) && t < |s.th| && m < |s.mx| && s.th[t].phase.Running?
    ensures Refs(s) && MutexOk(s, m) && s.th[t].blocked.None?
  {
    assert ThreadLinks(s, t);
  }

  lemma QuietPhase(s: State, t: Tid, ph: Phase)
    requires Sound(s) && t < |s.th| && s.th[t].blocked.None? && !ph.Running? && ph.m < |s.mx| && !s.mx[ph.m].protocol.PrioInherit?
    ensures Sound(SetPhase(s, t, ph)) && (AllCeil(s) ==> AllCeil(SetPhase(s, t, ph)))
  {
    var g := SetPhase(s, t, ph);
    PhaseOnlyLinks(s, t, ph);
    FewerWaitersKeeps(s, g);
    forall k | 0 <= k < |g.mx| ensures NoExcess(g, k) {
      assert NoExcess(s, k);
      SameWaitersNoExcess(s, g, k);
    }
  }

  lemma NextSound(s: State, e: Event, s': State)
    requires Sound(s) && Token(s) && Next(s, e, s') && (AllCeil(s) || SufficientStep(s, e))
    ensures Sound(s')
    ensures AllCeil(s) && CoveredStep(s, e) ==> AllCeil(s')
  {
    match e
    case Lock(t, m, noWait) => TryLockKeeps(s, t, m, noWait);
    case PendOn(t) => PostKeeps(s, s');
    case Expires(t) =>
      WithoutSubset(s.mx[s.th[t].phase.m].pendQ, t);
      PostKeeps(s, s');
    case Acquire(t) => FinishKeeps(s, t);
    case Abandon(t) => WithdrawalRestores(s, t, s');
    case UnlockBy(t, m) => UnlockKeeps(s, t, m);
  }

  lemma InitialGood(s: State)
    requires Initial(s)
    ensures Good(s)
  {
    forall t | 0 <= t < |s.th| ensures ThreadLinks(s, t) && Tight(s, t) {
    }
    forall m | 0 <= m < |s.mx| ensures MutexLinks(s, m) && Dom(s, m) && Ceil(s, m) && NoExcess(s, m) {
    }
  }

  /**
   In every run in which the ceilings suffice wherever a boost is taken back, every thread runs exactly at the priority
   POSIX prescribes, after every step: lock, try lock, timed lock, time-out, grant and unlock, in any interleaving.
   */
  lemma {:induction false} PosixPriorityInEveryRun(states: seq<State>, events: seq<Event>, i: nat, t: Tid)
    requires Run(states, events) && i < |states| && t < |states[i].th|
    requires forall k :: 0 <= k < i ==> SufficientStep(states[k], events[k])
    ensures Refs(states[i]) && PosixPriority(states[i], t)
  {
    RunSound(states, events, i);
    SoundIsPosix(states[i], t);
  }

  lemma {:induction false} RunSound(states: seq<State>, events: seq<Event>, i: nat)
    requires Run(states, events) && i < |states|
    requires forall k :: 0 <= k < i ==> SufficientStep(states[k], events[k])
    ensures Sound(states[i]) && Token(states[i])
  {
    hide Next, SufficientStep;
    TokenInEveryRun(states, events, i);
    if i == 0 {
      InitialGood(states[0]);
    } else {
      RunSound(states, events, i - 1);
      NextSound(states[i - 1], events[i - 1], states[i]);
    }
  }

  /** If all donations end covered, the ceilings cover all waiters throughout, and so always suffice. */
  lemma {:induction false} CoveredRunGood(states: seq<State>, events: seq<Event>, i: nat)
    requires Run(states, events) && i < |states|
    requires forall k :: 0 <= k < i ==> CoveredStep(states[k], events[k])
    ensures Good(states[i]) && Token(states[i])
  {
    hide Next, CoveredStep;
    TokenInEveryRun(states, events, i);
    if i == 0 {
      InitialGood(states[0]);
    } else {
      CoveredRunGood(states, events, i - 1);
      NextSound(states[i - 1], events[i - 1], states[i]);
    }
  }

  /** POSIX priorities from a condition on the donations alone. */
  lemma CoveredRunPosix(states: seq<State>, events: seq<Event>, i: nat, t: Tid)
    requires Run(states, events) && i < |states| && t < |states[i].th|
    requires forall k :: 0 <= k < i ==> CoveredStep(states[k], events[k])
    ensures Refs(states[i]) && PosixPriority(states[i], t)
  {
    CoveredRunGood(states, events, i);
    SoundIsPosix(states[i], t);
  }
}
