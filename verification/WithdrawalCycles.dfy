/**
 When resetInheritPriority of pthread_mutex.c ends. It ends where the wait chain does; on a chain that leads into a
 cycle it ends exactly if some mutex on the way, or on the cycle, takes the early exit, whose test looks at the last
 waiter only.
 */
module WithdrawalCycles {
  import opened Base
  import opened PthreadMutex
  import opened MutexToken
  import opened PriorityInheritance
  import opened PriorityWithdrawal

  /** The test of the early exit at m. */
  ghost predicate Exits(s: State, m: Mid)
    requires Refs(s)
  {
    m < |s.mx| && s.mx[m].owner.Some? && s.th[s.mx[m].owner.value].pri <= LastWaiter(s.th, s.mx[m].waitList)
  }

  /** m is owned by a thread that is blocked on next. */
  ghost predicate LeadsTo(s: State, m: Mid, next: Mid)
    requires Refs(s)
  {
    m < |s.mx| && s.mx[m].owner.Some? && s.th[s.mx[m].owner.value].blocked == Some(next)
  }

  /** The wait chain goes along p to c[0] and then round the cycle c for ever. */
  ghost predicate Lasso(s: State, p: seq<Mid>, c: seq<Mid>)
    requires Refs(s)
  {
    var w := p + c;
    c != [] && (forall k :: 0 <= k < |w| ==> LeadsTo(s, w[k], Following(w, c, k)))
  }

  ghost function Following(w: seq<Mid>, c: seq<Mid>, k: nat): Mid
    requires k < |w| && c != []
  {
    if k + 1 < |w| then w[k + 1] else c[0]
  }

  ghost predicate Cycle(s: State, c: seq<Mid>)
    requires Refs(s)
  {
    c != [] && forall k :: 0 <= k < |c| ==> LeadsTo(s, c[k], c[After(k, |c|)])
  }

  ghost function After(k: nat, n: nat): nat
    requires k < n
  {
    if k + 1 < n then k + 1 else 0
  }

  ghost function OwnerPri(s: State, m: Mid): int
    requires Refs(s) && m < |s.mx| && s.mx[m].owner.Some?
  {
    s.th[s.mx[m].owner.value].pri
  }

  // ---------------------------------------------------------------- a cycle

  lemma CycleShape(s: State, s': State, c: seq<Mid>)
    requires Refs(s) && Refs(s') && SameShape(s, s') && Cycle(s, c)
    ensures Cycle(s', c)
  {
    forall k | 0 <= k < |c| ensures LeadsTo(s', c[k], c[After(k, |c|)]) {
      assert LeadsTo(s, c[k], c[After(k, |c|)]);
    }
  }

  /** The owner of m is a waiter of the mutex m leads to. */
  lemma Waits(s: State, m: Mid, next: Mid)
    requires Links(s) && AllDom(s) && LeadsTo(s, m, next)
    ensures next < |s.mx| && s.mx[next].protocol.PrioInherit? && s.mx[m].owner.value in s.mx[next].waitList
    ensures s.mx[next].owner.Some? ==> OwnerPri(s, m) <= OwnerPri(s, next)
  {
    assert ThreadLinks(s, s.mx[m].owner.value) && Dom(s, next);
  }

  lemma {:induction false} Ascending(s: State, c: seq<Mid>, i: nat, j: nat)
    requires Links(s) && AllDom(s) && Cycle(s, c) && i <= j < |c|
    ensures LeadsTo(s, c[i], c[After(i, |c|)]) && LeadsTo(s, c[j], c[After(j, |c|)])
    ensures OwnerPri(s, c[i]) <= OwnerPri(s, c[j])
    decreases j - i
  {
    assert LeadsTo(s, c[i], c[After(i, |c|)]);
    if i < j {
      Ascending(s, c, i, j - 1);
      assert LeadsTo(s, c[j - 1], c[After(j - 1, |c|)]) && LeadsTo(s, c[j], c[After(j, |c|)]);
      Waits(s, c[j - 1], c[j]);
    }
  }

  /** Where owners run at or above their waiters, all the owners on a cycle run at the same priority. */
  lemma CycleLevel(s: State, c: seq<Mid>, i: nat)
    requires Links(s) && AllDom(s) && Cycle(s, c) && i < |c|
    ensures LeadsTo(s, c[i], c[After(i, |c|)]) && LeadsTo(s, c[After(i, |c|)], c[After(After(i, |c|), |c|)])
    ensures OwnerPri(s, c[i]) == OwnerPri(s, c[After(i, |c|)])
  {
    var n := |c|;
    assert LeadsTo(s, c[i], c[After(i, n)]) && LeadsTo(s, c[After(i, n)], c[After(After(i, n), n)]);
    Waits(s, c[i], c[After(i, n)]);
    assert LeadsTo(s, c[n - 1], c[After(n - 1, n)]);
    if i + 1 < n {
      Ascending(s, c, i + 1, n - 1);
      Waits(s, c[n - 1], c[0]);
      Ascending(s, c, 0, i);
    } else {
      Ascending(s, c, 0, i);
    }
  }

  /** A round on a cycle changes no priority: the owner before is the highest waiter. */
  lemma CycleRound(s: State, c: seq<Mid>, i: nat)
    requires Refs(s) && Cycle(s, c) && i < |c| && SoundBut(s, Some(c[i]))
    ensures LeadsTo(s, c[i], c[After(i, |c|)]) && s.mx[c[i]].protocol.PrioInherit?
    ensures var r := RoundEnd(s, c[i], s.mx[c[i]].owner.value);
            && r.th == s.th && SameShape(s, r) && SoundBut(r, Some(c[After(i, |c|)])) && Cycle(r, c)
  {
    var n := |c|;
    var b := if i == 0 then n - 1 else i - 1;
    assert After(b, n) == i;
    CycleLevel(s, c, b);
    Waits(s, c[b], c[i]);
    LevelRound(s, c[i], s.mx[c[b]].owner.value);
    RoundShape(s, c[i], s.mx[c[i]].owner.value);
    CycleShape(s, RoundEnd(s, c[i], s.mx[c[i]].owner.value), c);
  }

  /** A round at m, one of whose waiters runs as high as the owner. */
  lemma LevelRound(s: State, m: Mid, u: Tid)
    requires SoundBut(s, Some(m)) && s.mx[m].protocol.PrioInherit? && s.mx[m].owner.Some?
    requires u in s.mx[m].waitList && s.th[u].pri == OwnerPri(s, m)
    ensures var o := s.mx[m].owner.value;
            RoundEnd(s, m, o).th == s.th && SoundBut(RoundEnd(s, m, o), s.th[o].blocked)
  {
    hide HighestWaiter, MaxCeiling;
    var o := s.mx[m].owner.value;
    var s1 := SetCeiling(s, m);
    RoundKeeps(s, m, o);
    assert m in s.th[o].held by { assert MutexLinks(s, m); }
    assert s.th[u].pri <= s1.mx[m].ceiling <= MaxCeiling(s1.mx, s.th[o].held);
    var r := RoundEnd(s, m, o);
    assert r.th[o] == s.th[o].(pri := Max(s.th[o].base, MaxCeiling(s1.mx, s.th[o].held)));
    assert r.th[o].pri == s.th[o].pri;
    assert r.th == s.th;
    forall k, v | k in s.th[o].held && s1.mx[k].protocol.PrioInherit? && v in s1.mx[k].waitList && v != o
      ensures s1.th[v].pri <= Max(s1.th[o].base, MaxCeiling(s1.mx, s.th[o].held))
    {
      assert ThreadLinks(s, o) && Dom(s, k);
    }
  }

  lemma {:induction false} CycleSpins(s: State, c: seq<Mid>, i: nat, n: nat)
    requires Refs(s) && Cycle(s, c) && i < |c| && SoundBut(s, Some(c[i]))
    requires forall k :: 0 <= k < |c| ==> !Exits(s, c[k])
    ensures ResetWithin(s, Some(c[i]), n).None?
    decreases n
  {
    hide ResetWithin, RoundEnd, LastWaiter, SoundBut;
    assert LeadsTo(s, c[i], c[After(i, |c|)]) && !Exits(s, c[i]);
    if n == 0 {
      NoRounds(s, c[i]);
    } else {
      CycleRound(s, c, i);
      ResetRound(s, c[i], n);
      var r := RoundEnd(s, c[i], s.mx[c[i]].owner.value);
      forall k | 0 <= k < |c| ensures !Exits(r, c[k]) {
        assert !Exits(s, c[k]) && LeadsTo(s, c[k], c[After(k, |c|)]);
      }
      CycleSpins(r, c, After(i, |c|), n - 1);
    }
  }

  lemma {:induction false} CycleStops(s: State, c: seq<Mid>, i: nat, k: nat)
    requires Refs(s) && Cycle(s, c) && i <= k < |c| && SoundBut(s, Some(c[i]))
    requires Exits(s, c[k])
    ensures ResetWithin(s, Some(c[i]), k - i + 1).Some?
    decreases k - i
  {
    hide ResetWithin, RoundEnd, LastWaiter, SoundBut;
    assert LeadsTo(s, c[i], c[After(i, |c|)]);
    ResetRound(s, c[i], k - i + 1);
    if !Exits(s, c[i]) {
      CycleRound(s, c, i);
      CycleStops(RoundEnd(s, c[i], s.mx[c[i]].owner.value), c, i + 1, k);
    }
  }

  /**
   On a cycle of any number of mutexes the loop ends if and only if some owner on the cycle runs no higher than the last
   waiter of its mutex.
   */
  lemma CycleEndsIff(s: State, c: seq<Mid>)
    requires Refs(s) && Cycle(s, c) && SoundBut(s, Some(c[0]))
    ensures (exists n: nat :: ResetWithin(s, Some(c[0]), n).Some?) <==> exists k :: 0 <= k < |c| && Exits(s, c[k])
  {
    if k :| 0 <= k < |c| && Exits(s, c[k]) {
      CycleStops(s, c, 0, k);
    } else {
      forall n: nat ensures ResetWithin(s, Some(c[0]), n).None? {
        CycleSpins(s, c, 0, n);
      }
    }
  }

  // ---------------------------------------------------------------- any chain

  /**
   The loop from (p + c)[0] takes the early exit at no mutex of p, each looked at in the state the rounds before leave,
   and then at none of the cycle c.
   */
  ghost predicate Spins(s: State, p: seq<Mid>, c: seq<Mid>)
    requires Refs(s)
    decreases |p|
  {
    if p == [] then Cycle(s, c) && forall k :: 0 <= k < |c| ==> !Exits(s, c[k])
    else
      && c != [] && LeadsTo(s, p[0], (p[1..] + c)[0]) && !Exits(s, p[0])
      && Spins(AfterRound(s, p[0]), p[1..], c)
  }

  ghost function AfterRound(s: State, m: Mid): (r: State)
    requires Refs(s) && m < |s.mx| && s.mx[m].owner.Some?
    ensures Refs(r) && SameShape(s, r)
  {
    RoundShape(s, m, s.mx[m].owner.value);
    RoundEnd(s, m, s.mx[m].owner.value)
  }

  /** The owners and waiters agree, and every boost the loop takes back it replaces by enough. */
  ghost predicate Withdrawable(s: State, m: Mid) {
    && SoundBut(s, Some(m)) && s.mx[m].protocol.PrioInherit?
    && (AllCeil(s) || forall n: nat :: RoundsSuffice(s, Some(m), n))
  }

  lemma RoundWithdrawable(s: State, m: Mid, next: Mid)
    requires Withdrawable(s, m) && LeadsTo(s, m, next) && !Exits(s, m)
    ensures Withdrawable(AfterRound(s, m), next)
  {
    hide SetCeiling, Suffices, RoundsSuffice, ThreadLinks, MutexLinks, LastWaiter;
    var o := s.mx[m].owner.value;
    RoundKeeps(s, m, o);
    RoundLinks(s, m, o);
    if !AllCeil(s) {
      assert RoundsSuffice(s, Some(m), 1);
      SufficeRound(s, m, o, 1);
      forall n: nat ensures RoundsSuffice(RoundEnd(s, m, o), Some(next), n) {
        assert RoundsSuffice(s, Some(m), n + 1);
        SufficeRound(s, m, o, n + 1);
      }
    }
  }

  /** Where Spins holds the loop never ends. */
  lemma {:induction false} SpinsForever(s: State, p: seq<Mid>, c: seq<Mid>, n: nat)
    requires Refs(s) && c != [] && Withdrawable(s, (p + c)[0]) && Spins(s, p, c)
    ensures ResetWithin(s, Some((p + c)[0]), n).None?
    decreases |p|
  {
    hide ResetWithin, RoundEnd, LastWaiter, SoundBut, RoundsSuffice;
    if p == [] {
      assert p + c == c;
      CycleSpins(s, c, 0, n);
    } else if n == 0 {
      NoRounds(s, p[0]);
    } else {
      var next := (p[1..] + c)[0];
      RoundWithdrawable(s, p[0], next);
      ResetRound(s, p[0], n);
      SpinsForever(AfterRound(s, p[0]), p[1..], c, n - 1);
    }
  }

  lemma LassoShape(s: State, s': State, p: seq<Mid>, c: seq<Mid>)
    requires Refs(s) && Refs(s') && SameShape(s, s') && Lasso(s, p, c)
    ensures Lasso(s', p, c)
  {
    var w := p + c;
    forall k | 0 <= k < |w| ensures LeadsTo(s', w[k], Following(w, c, k)) {
      assert LeadsTo(s, w[k], Following(w, c, k));
    }
  }

  lemma LassoRest(s: State, p: seq<Mid>, c: seq<Mid>)
    requires Refs(s) && Lasso(s, p, c) && p != []
    ensures Lasso(s, p[1..], c) && LeadsTo(s, p[0], (p[1..] + c)[0])
  {
    hide LeadsTo;
    var w, v := p + c, p[1..] + c;
    assert w[1..] == v;
    assert LeadsTo(s, w[0], Following(w, c, 0));
    forall k | 0 <= k < |v| ensures LeadsTo(s, v[k], Following(v, c, k)) {
      assert v[k] == w[k + 1] && Following(v, c, k) == Following(w, c, k + 1);
      assert LeadsTo(s, w[k + 1], Following(w, c, k + 1));
    }
  }

  lemma LassoCycle(s: State, c: seq<Mid>)
    requires Refs(s) && Lasso(s, [], c)
    ensures Cycle(s, c)
  {
    var w := [] + c;
    assert w == c;
    forall k | 0 <= k < |c| ensures LeadsTo(s, c[k], c[After(k, |c|)]) {
      assert LeadsTo(s, w[k], Following(w, c, k));
    }
  }

  /** And if the loop never ends, though the chain leads into a cycle, Spins holds. */
  lemma {:induction false} NeverEndsSpins(s: State, p: seq<Mid>, c: seq<Mid>)
    requires Refs(s) && c != [] && Lasso(s, p, c) && Withdrawable(s, (p + c)[0])
    requires forall n: nat :: ResetWithin(s, Some((p + c)[0]), n).None?
    ensures Spins(s, p, c)
    decreases |p|
  {
    hide ResetWithin, RoundEnd, LastWaiter, SoundBut, RoundsSuffice, Lasso;
    if p == [] {
      assert p + c == c;
      LassoCycle(s, c);
      CycleEndsIff(s, c);
    } else {
      LassoRest(s, p, c);
      var next := (p[1..] + c)[0];
      ResetRound(s, p[0], 1);
      assert ResetWithin(s, Some(p[0]), 1).None?;
      RoundWithdrawable(s, p[0], next);
      var r := AfterRound(s, p[0]);
      forall n: nat ensures ResetWithin(r, Some(next), n).None? {
        ResetRound(s, p[0], n + 1);
        assert ResetWithin(s, Some(p[0]), n + 1).None?;
      }
      LassoShape(s, r, p[1..], c);
      NeverEndsSpins(r, p[1..], c);
    }
  }

  /** The first n steps of a chain that does not end before. */
  lemma {:induction false} Walk(s: State, m: Mid, n: nat) returns (w: seq<Mid>)
    requires Refs(s) && m < |s.mx| && !ChainEnds(s, Some(m), n)
    ensures |w| == n + 1 && w[0] == m && forall k :: 0 <= k <= n ==> w[k] < |s.mx|
    ensures forall k :: 0 <= k < n ==> LeadsTo(s, w[k], w[k + 1])
    decreases n
  {
    if n == 0 {
      w := [m];
    } else {
      var rest := Walk(s, s.th[s.mx[m].owner.value].blocked.value, n - 1);
      w := [m] + rest;
      forall k | 0 <= k < n ensures LeadsTo(s, w[k], w[k + 1]) {
        if k > 0 {
          assert LeadsTo(s, rest[k - 1], rest[k]);
        }
      }
    }
  }

  lemma Repeats(w: seq<Mid>, n: nat) returns (i: nat, j: nat)
    requires |w| > n && forall k :: 0 <= k < |w| ==> w[k] < n
    ensures i < j < |w| && w[i] == w[j]
  {
    if Distinct(w) {
      DistinctInside(w, Numbers(n));
      assert false;
    } else {
      i, j :| 0 <= i < j < |w| && w[i] == w[j];
    }
  }

  ghost function Numbers(n: nat): (r: set<nat>)
    ensures |r| == n && forall k: nat :: k in r <==> k < n
  {
    if n == 0 then {} else Numbers(n - 1) + {n - 1}
  }

  /** A chain that does not end leads into a cycle. */
  lemma EndlessIsLasso(s: State, m: Mid) returns (p: seq<Mid>, c: seq<Mid>)
    requires Refs(s) && m < |s.mx| && !ChainEnds(s, Some(m), |s.mx|)
    ensures c != [] && (p + c)[0] == m && Lasso(s, p, c)
  {
    var w := Walk(s, m, |s.mx|);
    var i, j := Repeats(w, |s.mx|);
    p, c := w[..i], w[i..j];
    var v := p + c;
    assert v == w[..j];
    forall k | 0 <= k < |v| ensures LeadsTo(s, v[k], Following(v, c, k)) {
      assert LeadsTo(s, w[k], w[k + 1]);
    }
  }

  /** The loop from m finds its way round a cycle without ever taking the early exit. */
  ghost predicate StuckOn(s: State, m: Mid, p: seq<Mid>, c: seq<Mid>)
    requires Refs(s)
  {
    c != [] && (p + c)[0] == m && Spins(s, p, c)
  }

  lemma EndsOrStuck(s: State, m: Mid)
    requires Refs(s) && Withdrawable(s, m)
    ensures (exists s' :: ResetsTo(s, m, s')) || exists p, c :: StuckOn(s, m, p, c)
  {
    if ChainEnds(s, Some(m), |s.mx|) {
      ResetEnds(s, Some(m), |s.mx|);
      assert ResetsTo(s, m, ResetWithin(s, Some(m), |s.mx|).value);
    } else {
      var p, c := EndlessIsLasso(s, m);
      if forall n: nat :: ResetWithin(s, Some(m), n).None? {
        NeverEndsSpins(s, p, c);
        assert StuckOn(s, m, p, c);
      } else {
        var n: nat :| ResetWithin(s, Some(m), n).Some?;
        assert ResetsTo(s, m, ResetWithin(s, Some(m), n).value);
      }
    }
  }

  /** When resetInheritPriority ends, for every wait chain: exactly if it is not stuck on a cycle. */
  lemma ResetEndsIff(s: State, m: Mid)
    requires Refs(s) && Withdrawable(s, m)
    ensures (exists s' :: ResetsTo(s, m, s')) <==> !exists p, c :: StuckOn(s, m, p, c)
  {
    EndsOrStuck(s, m);
    forall p, c, s' | StuckOn(s, m, p, c) ensures !ResetsTo(s, m, s') {
      StuckNever(s, m, p, c, s');
    }
  }

  lemma StuckNever(s: State, m: Mid, p: seq<Mid>, c: seq<Mid>, s': State)
    requires Refs(s) && Withdrawable(s, m) && StuckOn(s, m, p, c)
    ensures !ResetsTo(s, m, s')
  {
    if ResetsTo(s, m, s') {
      var n: nat :| ResetWithin(s, Some(m), n) == Some(s');
      SpinsForever(s, p, c, n);
    }
  }

  /** So the time-out path of a lock call comes to its end exactly if the withdrawal is not stuck on a cycle. */
  lemma AbandonEndsIff(s: State, t: Tid)
    requires Sound(s) && Enabled(s, Abandon(t)) && (AllCeil(s) || SufficientStep(s, Abandon(t)))
    requires s.mx[s.th[t].phase.m].protocol.PrioInherit?
    ensures Refs(GiveUp(s, t))
    ensures (exists s' :: Next(s, Abandon(t), s')) <==> !exists p, c :: StuckOn(GiveUp(s, t), s.th[t].phase.m, p, c)
  {
    var m := s.th[t].phase.m;
    var g := GiveUp(s, t);
    GiveUpKeeps(s, t);
    assert g.mx[m].protocol.PrioInherit? && (AllCeil(g) || forall n: nat :: RoundsSuffice(g, Some(m), n));
    hide StuckOn, ResetsTo, Withdrawable;
    assert Withdrawable(g, m) by { WithdrawableIntro(g, m); }
    ResetEndsIff(g, m);
    if s' :| ResetsTo(g, m, s') {
      assert Next(s, Abandon(t), s');
    }
    forall s' | Next(s, Abandon(t), s') ensures ResetsTo(g, m, s') {
    }
  }

  lemma WithdrawableIntro(s: State, m: Mid)
    requires SoundBut(s, Some(m)) && s.mx[m].protocol.PrioInherit?
    requires AllCeil(s) || forall n: nat :: RoundsSuffice(s, Some(m), n)
    ensures Withdrawable(s, m)
  {
  }

  // ---------------------------------------------------------------- a chain that ends

  lemma {:induction false} ChainLonger(s: State, next: Option<Mid>, n: nat)
    requires Refs(s) && (next.Some? ==> next.value < |s.mx|) && ChainEnds(s, next, n)
    ensures ChainEnds(s, next, n + 1)
    decreases n
  {
    if next.Some? && s.mx[next.value].owner.Some? {
      ChainLonger(s, s.th[s.mx[next.value].owner.value].blocked, n - 1);
    }
  }

  lemma {:induction false} ShortestChain(s: State, next: Option<Mid>, n: nat) returns (c: nat)
    requires Refs(s) && (next.Some? ==> next.value < |s.mx|) && ChainEnds(s, next, n)
    ensures ChainEnds(s, next, c) && (c > 0 ==> !ChainEnds(s, next, c - 1))
    decreases n
  {
    if n > 0 && ChainEnds(s, next, n - 1) {
      c := ShortestChain(s, next, n - 1);
    } else {
      c := n;
    }
  }

  /** A thread u that outranks the owner o of the mutex k it is blocked on, and a chain on which o comes no more. */
  ghost predicate LeftBehind(s: State, next: Option<Mid>, c: nat, o: Tid, k: Mid, u: Tid) {
    && Links(s) && (next.Some? ==> next.value < |s.mx|) && ChainEnds(s, next, c)
    && o < |s.th| && (c > 0 ==> !ChainEnds(s, s.th[o].blocked, c - 1))
    && k < |s.mx| && s.mx[k].protocol.PrioInherit? && s.mx[k].owner == Some(o) && u in s.mx[k].waitList
    && s.th[u].pri > s.th[o].pri
  }

  /** The owner of `next` is neither of them. */
  lemma NotOnChain(s: State, m: Mid, c: nat, o: Tid, k: Mid, u: Tid)
    requires LeftBehind(s, Some(m), c, o, k, u) && s.mx[m].owner.Some?
    ensures c > 0 && s.mx[m].owner.value != o && s.mx[m].owner.value != u
  {
    assert MutexLinks(s, k);
    assert c > 0 && ChainEnds(s, s.th[s.mx[m].owner.value].blocked, c - 1);
    assert ChainEnds(s, Some(k), c - 1) ==> c > 1 && ChainEnds(s, s.th[o].blocked, c - 2);
    if c > 1 && ChainEnds(s, s.th[o].blocked, c - 2) {
      ChainLonger(s, s.th[o].blocked, c - 2);
    }
  }

  /** So what one round left behind, the later ones do. */
  lemma {:induction false} StaysBehind(s: State, next: Option<Mid>, c: nat, n: nat, o: Tid, k: Mid, u: Tid)
    requires LeftBehind(s, next, c, o, k, u) && ResetWithin(s, next, n).Some?
    ensures Refs(ResetWithin(s, next, n).value) && !AllDom(ResetWithin(s, next, n).value)
    decreases n
  {
    hide RoundEnd, SetCeiling, LastWaiter, ThreadLinks, MutexLinks, HighestWaiter, MaxCeiling, Tight, Ceil, NoExcess;
    if next.None? || s.mx[next.value].owner.None? {
      ResetStops(s, next, n);
      assert !Dom(s, k);
    } else {
      var m := next.value;
      var w := s.mx[m].owner.value;
      NotOnChain(s, m, c, o, k, u);
      NoRounds(s, m);
      ResetRound(s, m, n);
      RoundChanges(s, m, w);
      if s.th[w].pri <= LastWaiter(s.th, s.mx[m].waitList) {
        assert !Dom(SetCeiling(s, m), k);
      } else {
        var r := RoundEnd(s, m, w);
        ChainShape(s, r, s.th[w].blocked, c - 1);
        ChainShape(s, r, s.th[o].blocked, c - 1);
        if c > 1 {
          ChainShape(s, r, s.th[o].blocked, c - 2);
          if ChainEnds(s, s.th[o].blocked, c - 2) {
            ChainLonger(s, s.th[o].blocked, c - 2);
          }
        }
        assert LeftBehind(r, s.th[w].blocked, c - 1, o, k, u);
        StaysBehind(r, s.th[w].blocked, c - 1, n - 1, o, k, u);
      }
    }
  }

  lemma RoundChanges(s: State, m: Mid, w: Tid)
    requires Links(s) && m < |s.mx| && s.mx[m].owner == Some(w)
    ensures w < |s.th|
    ensures Refs(SetCeiling(s, m)) && SetCeiling(s, m).th == s.th && SameShape(s, SetCeiling(s, m))
    ensures Links(RoundEnd(s, m, w)) && SameShape(s, RoundEnd(s, m, w))
    ensures forall t :: 0 <= t < |s.th| && t != w ==> RoundEnd(s, m, w).th[t] == s.th[t]
    ensures s.th[w].blocked.Some? ==> s.th[w].blocked.value < |s.mx|
  {
    RoundLinks(s, m, w);
    RoundShape(s, m, w);
  }

  lemma HolderOwns(s: State, o: Tid, k: Mid)
    requires Links(s) && o < |s.th| && k in s.th[o].held
    ensures k < |s.mx| && s.mx[k].owner == Some(o)
  {
    assert ThreadLinks(s, o);
  }

  /** A round whose ceilings do not suffice leaves some waiter above the adjusted owner. */
  lemma LeavesBehind(s: State, m: Mid, o: Tid, c: nat) returns (k: Mid, u: Tid)
    requires SoundBut(s, Some(m)) && s.mx[m].protocol.PrioInherit? && s.mx[m].owner == Some(o)
    requires Refs(SetCeiling(s, m)) && forall k: Mid :: k in s.th[o].held ==> k < |s.mx|
    requires !Suffices(SetCeiling(s, m), o, s.th[o].held)
    requires s.th[o].blocked.Some? ==> s.th[o].blocked.value < |s.mx|
    requires ChainEnds(s, s.th[o].blocked, c) && (c > 0 ==> !ChainEnds(s, s.th[o].blocked, c - 1))
    ensures LeftBehind(RoundEnd(s, m, o), s.th[o].blocked, c, o, k, u)
  {
    hide HighestWaiter, MaxCeiling, Tight, Dom, Ceil, NoExcess, MutexLinks, ThreadLinks, ChainEnds;
    var s1, r := SetCeiling(s, m), RoundEnd(s, m, o);
    RoundChanges(s, m, o);
    k, u :| k in s.th[o].held && s1.mx[k].protocol.PrioInherit? && u in s1.mx[k].waitList && u != o
            && s1.th[u].pri > Max(s1.th[o].base, MaxCeiling(s1.mx, s.th[o].held));
    HolderOwns(s, o, k);
    assert r.th[o].pri == Max(s1.th[o].base, MaxCeiling(s1.mx, s.th[o].held));
    hide SetCeiling, RoundEnd, Suffices, SoundBut, Links;
    ChainShape(s, r, s.th[o].blocked, c);
    if c > 0 {
      ChainShape(s, r, s.th[o].blocked, c - 1);
    }
  }

  /**
   Where the wait chain ends, the withdrawal leaves the right priorities if and only if the ceilings suffice in each of
   its rounds.
   */
  lemma {:induction false} ResetRestoresIff(s: State, next: Option<Mid>, c: nat, n: nat)
    requires SoundBut(s, next) && (next.Some? ==> s.mx[next.value].protocol.PrioInherit?)
    requires ChainEnds(s, next, c) && ResetWithin(s, next, n).Some?
    ensures Sound(ResetWithin(s, next, n).value) <==> RoundsSuffice(s, next, n)
    decreases n
  {
    if RoundsSuffice(s, next, n) {
      ResetRestores(s, next, n);
    } else {
      InsufficientBreaks(s, next, c, n);
    }
  }

  lemma {:induction false} InsufficientBreaks(s: State, next: Option<Mid>, c: nat, n: nat)
    requires SoundBut(s, next) && (next.Some? ==> s.mx[next.value].protocol.PrioInherit?)
    requires ChainEnds(s, next, c) && ResetWithin(s, next, n).Some? && !RoundsSuffice(s, next, n)
    ensures !Sound(ResetWithin(s, next, n).value)
    decreases n
  {
    hide SetCeiling, RoundEnd, LastWaiter, Suffices, ThreadLinks, MutexLinks, Tight, Dom, Ceil, NoExcess;
    var m := next.value;
    var o := s.mx[m].owner.value;
    RoundLinks(s, m, o);
    ResetRound(s, m, n);
    RoundKeeps(s, m, o);
    RoundChanges(s, m, o);
    var r := RoundEnd(s, m, o);
    if Suffices(SetCeiling(s, m), o, s.th[o].held) {
      ChainShape(s, r, s.th[o].blocked, c - 1);
      InsufficientBreaks(r, s.th[o].blocked, c - 1, n - 1);
    } else {
      var d := ShortestChain(s, s.th[o].blocked, c - 1);
      var k, u := LeavesBehind(s, m, o, d);
      StaysBehind(r, s.th[o].blocked, d, n - 1, o, k, u);
    }
  }

  // ---------------------------------------------------------------- a run into a withdrawal that never ends

  /** A thread of priority `pri` that owns `held` and, if `blocked`, waits for m. */
  ghost function Member(pri: int, held: seq<Mid>, blocked: bool, m: Mid): Thread {
    Thread(pri, pri, if blocked then Some(m) else None, held, if blocked then WillPend(m) else Running)
  }

  ghost function Guarded(owner: Option<Tid>, waitList: seq<Tid>): Mutex {
    if owner.None? then Mutex(PrioInherit, Normal, None, 0, 0, waitList, 1, [], None)
    else Mutex(PrioInherit, Normal, owner, 1, 0, waitList, 0, [], None)
  }

  /**
   The states of the run: threads 0 and 1 (priority 5) lock mutexes 0 and 1 and then each other's; threads 2 and 3
   (priority 1) wait behind them, and thread 4 waits for mutex 0 with a timeout.
   */
  ghost function Stage(k: nat): State {
    State([Member(5, if k >= 1 then [0] else [], k >= 3, 1), Member(5, if k >= 2 then [1] else [], k >= 4, 0),
           Member(1, [], k >= 5, 0), Member(1, [], k >= 6, 1), Member(1, [], k >= 7, 0)],
          [Guarded(if k >= 1 then Some(0) else None,
                   if k < 4 then [] else if k == 4 then [1] else if k < 7 then [1, 2] else [1, 2, 4]),
           Guarded(if k >= 2 then Some(1) else None, if k < 3 then [] else if k < 6 then [0] else [0, 3])],
          if k == 0 then multiset{} else if k == 1 then multiset{(0, 0)} else multiset{(0, 0), (1, 1)})
  }

  ghost function Steps(): seq<Event> {
    [Lock(0, 0, false), Lock(1, 1, false), Lock(0, 1, false), Lock(1, 0, false), Lock(2, 0, false), Lock(3, 1, false),
     Lock(4, 0, false), PendOn(4), Expires(4)]
  }

  ghost function Pending(): State {
    Stage(7).(th := Stage(7).th[4 := Stage(7).th[4].(phase := Waiting(0))],
              mx := Stage(7).mx[0 := Stage(7).mx[0].(pendQ := [4])])
  }

  ghost function Expired(): State {
    Stage(7).(th := Stage(7).th[4 := Stage(7).th[4].(phase := TimedOut(0))])
  }

  ghost function States(): seq<State> {
    [Stage(0), Stage(1), Stage(2), Stage(3), Stage(4), Stage(5), Stage(6), Stage(7), Pending(), Expired()]
  }

  lemma StageRefs(k: nat)
    requires k <= 7
    ensures Refs(Stage(k))
  {
  }

  lemma Taken(k: nat)
    requires k < 2
    ensures Next(Stage(k), Steps()[k], Stage(k + 1)) && CoveredStep(Stage(k), Steps()[k])
  {
    StageRefs(k);
    StageTaken(k);
    TakesFree(Stage(k), k, k);
    hide Stage, TryLock;
    assert TryLock(Stage(k), k, k, false).0 == Stage(k + 1);
    assert !BlocksOn(Stage(k), k, k);
  }

  /** Taking a free mutex without waiters. */
  lemma TakesFree(s: State, t: Tid, m: Mid)
    requires Refs(s) && t < |s.th| && m < |s.mx| && s.mx[m] == Guarded(None, []) && s.th[t] == Member(5, [], false, m)
    ensures var r := TryLock(s, t, m, false).0;
            && r.th == s.th[t := Member(5, [m], false, m)] && r.mx == s.mx[m := Guarded(Some(t), [])]
            && r.locks == s.locks + multiset{(t, m)}
  {
    assert HighestWaiter(s.th, []) == 0;
    assert [] + [m] == [m];
  }

  lemma StageTaken(k: nat)
    requires k < 2
    ensures |Stage(k).th| == 5 && |Stage(k).mx| == 2
    ensures Stage(k).mx[k] == Guarded(None, []) && Stage(k).th[k] == Member(5, [], false, k)
    ensures Stage(k + 1).th == Stage(k).th[k := Member(5, [k], false, k)]
    ensures Stage(k + 1).mx == Stage(k).mx[k := Guarded(Some(k), [])]
    ensures Stage(k + 1).locks == Stage(k).locks + multiset{(k, k)}
  {
  }

  /** A lock call that finds an owner of no lower priority donates nothing. */
  lemma Joins(s: State, t: Tid, m: Mid)
    requires Refs(s) && BlocksOn(s, t, m) && s.mx[m].owner.Some?
    requires s.th[t].pri <= s.th[s.mx[m].owner.value].pri && s.th[t].pri <= s.th[s.mx[m].owner.value].base
    ensures Next(s, Lock(t, m, false), JoinWait(s, t, m)) && CoveredStep(s, Lock(t, m, false))
  {
  }

  lemma StageThreads(k: nat, t: Tid, m: Mid)
    requires 2 <= k < 7 && Steps()[k] == Lock(t, m, false)
    ensures t < 5 && m < 2 && Stage(k + 1).th == Stage(k).th[t := Stage(k).th[t].(blocked := Some(m), phase := WillPend(m))]
    ensures Stage(k + 1).locks == Stage(k).locks && BlocksOn(Stage(k), t, m)
    ensures Stage(k).mx[m].owner.Some? && Stage(k).mx[m].owner.value < 2
    ensures Stage(k).th[t].pri <= Stage(k).th[Stage(k).mx[m].owner.value].pri
    ensures Stage(k).th[t].pri <= Stage(k).th[Stage(k).mx[m].owner.value].base
  {
  }

  lemma StageMutexes(k: nat, t: Tid, m: Mid)
    requires 2 <= k < 7 && Steps()[k] == Lock(t, m, false)
    ensures m < 2 && Stage(k + 1).mx == Stage(k).mx[m := Stage(k).mx[m].(waitList := Stage(k).mx[m].waitList + [t])]
  {
    assert Stage(k + 1).mx[m].waitList == Stage(k).mx[m].waitList + [t];
  }

  lemma Blocked(k: nat, t: Tid, m: Mid)
    requires 2 <= k < 7 && Steps()[k] == Lock(t, m, false)
    ensures Next(Stage(k), Steps()[k], Stage(k + 1)) && CoveredStep(Stage(k), Steps()[k])
  {
    StageRefs(k);
    StageThreads(k, t, m);
    StageMutexes(k, t, m);
    assert |Stage(k).th| == 5 && |Stage(k).mx| == 2;
    hide Next, CoveredStep, Stage;
    Joins(Stage(k), t, m);
    assert JoinWait(Stage(k), t, m) == Stage(k + 1);
  }

  lemma TimeOut()
    ensures Next(Stage(7), PendOn(4), Pending()) && Next(Pending(), Expires(4), Expired())
  {
    StageRefs(7);
    assert Pend(Stage(7), 4).mx[0].pendQ == [4];
    assert Pend(Stage(7), 4) == Pending();
    assert Without([4], 4) == [];
    var e := Expire(Pending(), 4);
    assert e.th == Expired().th && e.mx == Expired().mx;
  }

  lemma EachStep(k: nat)
    requires k < 9
    ensures Next(States()[k], Steps()[k], States()[k + 1]) && CoveredStep(States()[k], Steps()[k])
  {
    hide Next, CoveredStep, Stage, Pending, Expired;
    if k < 2 {
      Taken(k);
    } else if k < 7 {
      Blocked(k, Steps()[k].t, Steps()[k].m);
    } else {
      TimeOut();
      assert CoveredStep(Stage(7), PendOn(4)) && CoveredStep(Pending(), Expires(4)) by {
        NothingToCover(Stage(7), PendOn(4));
        NothingToCover(Pending(), Expires(4));
      }
    }
  }

  lemma NothingToCover(s: State, e: Event)
    requires !e.Lock?
    ensures CoveredStep(s, e)
  {
  }

  lemma DeadlockRun()
    ensures Run(States(), Steps())
    ensures forall k :: 0 <= k < 9 ==> CoveredStep(States()[k], Steps()[k])
  {
    assert Initial(Stage(0));
    hide Next, CoveredStep, Initial, Stage, Pending, Expired;
    forall k | 0 <= k < 9 ensures Next(States()[k], Steps()[k], States()[k + 1]) && CoveredStep(States()[k], Steps()[k]) {
      EachStep(k);
    }
  }

  /**
   A run, all of whose donations end covered, after which thread 4 finds its time up and its withdrawal never ends: every
   owner runs at or above its waiters, but the last waiter of either mutex is one of low priority.
   */
  lemma WithdrawalSpins()
    ensures Run(States(), Steps()) && Enabled(Expired(), Abandon(4)) && States()[9] == Expired()
    ensures Good(Expired()) && Token(Expired())
    ensures !exists s' :: Next(Expired(), Abandon(4), s')
  {
    DeadlockRun();
    CoveredRunGood(States(), Steps(), 9);
    SpinsThere();
    AbandonEndsIff(Expired(), 4);
    assert StuckOn(GiveUp(Expired(), 4), 0, [], [0, 1]);
  }

  lemma GivenUp()
    requires Refs(GiveUp(Expired(), 4))
    ensures var g := GiveUp(Expired(), 4);
            && |g.th| == 5 && |g.mx| == 2 && g.mx[0].waitList == [1, 2] && g.mx[1].waitList == [0, 3]
            && g.mx[0].owner == Some(0) && g.mx[1].owner == Some(1)
            && g.th[0].blocked == Some(1) && g.th[1].blocked == Some(0)
            && g.th[0].pri == 5 && g.th[1].pri == 5 && g.th[2].pri == 1 && g.th[3].pri == 1
  {
    var w := [1, 2, 4];
    assert w[0] != 4 && w[1..] == [2, 4] && [2, 4][1..] == [4] && [4][1..] == [];
    assert Without([4], 4) == [] && Without([2, 4], 4) == [2] && Without(w, 4) == [1, 2];
  }

  lemma SpinsThere()
    requires Good(Expired())
    ensures Refs(GiveUp(Expired(), 4)) && StuckOn(GiveUp(Expired(), 4), 0, [], [0, 1])
  {
    GiveUpKeeps(Expired(), 4);
    var g := GiveUp(Expired(), 4);
    assert Refs(g);
    GivenUp();
    hide GiveUp, Sound, SoundBut, Links, AllTight, AllDom, AllCeil, AllNoExcess, Refs;
    var c: seq<Mid> := [0, 1];
    assert LeadsTo(g, 0, 1) && LeadsTo(g, 1, 0);
    assert c[0] == 0 && c[1] == 1;
    assert Cycle(g, c);
    assert !Exits(g, 0) && !Exits(g, 1);
    assert [] + c == c;
  }
}
