/**
 packages/ti/sysbios/gates/GateMutexPri.c: one gate and the tasks that enter and leave it. Task priorities are changed by
 the gate alone; `base` is what they were before.
 */
module GateMutexPri {
  import opened Base
  import opened PriorityQueue

  datatype Key = FIRST_ENTER | NESTED_ENTER | BLOCKS

  datatype State = State(
    mutexCnt: nat,
    owner: Tid,                 // keeps its last value when the gate is free
    ownerOrigPri: int,
    pendQ: seq<Tid>,
    pri: seq<int>,              // current priorities
    ticket: seq<int>,           // when each task last came to wait
    waits: nat)

  /** GateMutexPri_enter (lines 127-178): the key, or that the task blocks until it owns the gate. */
  function EnterStep(s: State, t: Tid): (State, Key)
    requires t < |s.pri| == |s.ticket|
  {
    if s.mutexCnt == 1 then (s.(mutexCnt := 0, owner := t, ownerOrigPri := s.pri[t]), FIRST_ENTER)
    else if s.owner == t then (s, NESTED_ENTER)
    else
      (s.(pendQ := Inserted(s.pendQ, s.pri, t), ticket := s.ticket[t := s.waits], waits := s.waits + 1,
          pri := if s.owner < |s.pri| && s.pri[t] > s.pri[s.owner] then s.pri[s.owner := s.pri[t]] else s.pri), BLOCKS)
  }

  /** GateMutexPri_leave (lines 223-263) with the key of the enter. */
  function LeaveStep(s: State, t: Tid, key: Key): State
    requires t < |s.pri|
  {
    if !key.FIRST_ENTER? then s
    else
      var pri := if s.ownerOrigPri < s.pri[t] then s.pri[t := s.ownerOrigPri] else s.pri;
      if s.pendQ != [] then s.(pri := pri, pendQ := s.pendQ[1..], owner := s.pendQ[0], ownerOrigPri := Of(pri, s.pendQ[0]))
      else s.(pri := pri, mutexCnt := 1)
  }

  // ---------------------------------------------------------------- the invariant

  /** p is the maximum of the owner's original priority and those of all waiters. */
  ghost predicate Maximum(base: seq<int>, q: seq<Tid>, owner: Tid, p: int) {
    && Of(base, owner) <= p && (forall i :: 0 <= i < |q| ==> Of(base, q[i]) <= p)
    && (p == Of(base, owner) || exists i :: 0 <= i < |q| && p == Of(base, q[i]))
  }

  /** The wait queue is stably sorted by the original priorities, which only the owner does not run at. */
  ghost predicate Queue(s: State, base: seq<int>) {
    && Distinct(s.pendQ) && Ordered(s.pendQ, base, s.ticket)
    && (forall i :: 0 <= i < |s.pendQ| ==> s.pendQ[i] < |s.pri| && Of(s.ticket, s.pendQ[i]) < s.waits)
    && (forall t: Tid :: t < |s.pri| && (s.mutexCnt == 1 || t != s.owner) ==> s.pri[t] == Of(base, t))
  }

  ghost predicate Good(s: State, base: seq<int>) {
    && |s.pri| == |s.ticket| == |base| && s.mutexCnt <= 1
    && Queue(s, base)
    && (s.mutexCnt == 1 ==> s.pendQ == [])
    && (s.mutexCnt == 0 ==>
          && s.owner < |s.pri| && s.owner !in s.pendQ && s.ownerOrigPri == Of(base, s.owner)
          && Maximum(base, s.pendQ, s.owner, s.pri[s.owner]))
  }

  /** The queue's place by current priorities is its place by original ones, as the waiters run at theirs. */
  lemma {:induction false} SamePlace(q: seq<Tid>, pri: seq<int>, base: seq<int>, p: int)
    requires forall i :: 0 <= i < |q| ==> Of(pri, q[i]) == Of(base, q[i])
    ensures Place(q, pri, p) == Place(q, base, p)
  {
  }

  lemma EnterGood(s: State, base: seq<int>, t: Tid)
    requires Good(s, base) && t < |s.pri| && t !in s.pendQ
    ensures Good(EnterStep(s, t).0, base)
  {
    if s.mutexCnt != 1 && s.owner != t {
      EnterBlocks(s, base, t);
    }
  }

  lemma EnterBlocks(s: State, base: seq<int>, t: Tid)
    requires Good(s, base) && t < |s.pri| && t !in s.pendQ && s.mutexCnt == 0 && s.owner != t
    ensures Good(EnterStep(s, t).0, base)
  {
    EnterQueue(s, base, t);
    var r := EnterStep(s, t).0;
    assert s.pri[t] == Of(base, t);
    hide Queue, Inserted, Maximum;
    MaximumJoins(s, base, t, r.pendQ);
  }

  lemma EnterQueue(s: State, base: seq<int>, t: Tid)
    requires Good(s, base) && t < |s.pri| && t !in s.pendQ && s.mutexCnt == 0 && s.owner != t
    ensures var r := EnterStep(s, t).0;
            Queue(r, base) && forall u :: u in r.pendQ <==> u in s.pendQ || u == t
  {
    hide Maximum;
    var r := EnterStep(s, t).0;
    forall i | 0 <= i < |s.pendQ|
      ensures Of(s.pri, s.pendQ[i]) == Of(base, s.pendQ[i]) && Of(r.ticket, s.pendQ[i]) == Of(s.ticket, s.pendQ[i])
    {
      assert s.pendQ[i] in s.pendQ;
    }
    SamePlace(s.pendQ, s.pri, base, s.pri[t]);
    assert r.pendQ == Inserted(s.pendQ, base, t);
    InsertedMembers(s.pendQ, base, t);
    OrderedTickets(s.pendQ, base, s.ticket, r.ticket);
    InsertedOrdered(s.pendQ, base, r.ticket, t);
    hide Inserted, Ordered, Distinct, Place;
    forall i | 0 <= i < |r.pendQ|
      ensures r.pendQ[i] < |r.pri| && Of(r.ticket, r.pendQ[i]) < r.waits
    {
      assert r.pendQ[i] in r.pendQ;
      if r.pendQ[i] != t {
        var k :| 0 <= k < |s.pendQ| && s.pendQ[k] == r.pendQ[i];
      }
    }
  }

  /** The donation makes the owner's priority the maximum again. */
  lemma MaximumJoins(s: State, base: seq<int>, t: Tid, q: seq<Tid>)
    requires Maximum(base, s.pendQ, s.owner, Of(s.pri, s.owner)) && forall u :: u in q <==> u in s.pendQ || u == t
    ensures Maximum(base, q, s.owner, if Of(base, t) > Of(s.pri, s.owner) then Of(base, t) else Of(s.pri, s.owner))
  {
    var was := Of(s.pri, s.owner);
    var p := if Of(base, t) > was then Of(base, t) else was;
    forall i | 0 <= i < |q| ensures Of(base, q[i]) <= p {
      assert q[i] in q;
      if q[i] != t {
        var k :| 0 <= k < |s.pendQ| && s.pendQ[k] == q[i];
      }
    }
    if p != Of(base, s.owner) {
      if p == was {
        var k :| 0 <= k < |s.pendQ| && p == Of(base, s.pendQ[k]);
        assert s.pendQ[k] in q;
        var i :| 0 <= i < |q| && q[i] == s.pendQ[k];
      } else {
        assert t in q;
        var i :| 0 <= i < |q| && q[i] == t;
      }
    }
  }

  /** Leaving restores the owner's original priority and hands the gate to a waiter none of the others outranks. */
  lemma LeaveGood(s: State, base: seq<int>, t: Tid, key: Key)
    requires Good(s, base) && s.mutexCnt == 0 && t == s.owner
    ensures Good(LeaveStep(s, t, key), base)
    ensures key.FIRST_ENTER? ==> LeaveStep(s, t, key).pri[t] == Of(base, t)
    ensures key.FIRST_ENTER? && s.pendQ != [] ==>
              var n := LeaveStep(s, t, key).owner;
              n in s.pendQ && forall u :: u in s.pendQ && u != n ==> Precedes(base, s.ticket, n, u)
  {
    if key.FIRST_ENTER? && s.pendQ != [] {
      var r := LeaveStep(s, t, key);
      var n := s.pendQ[0];
      assert n in s.pendQ;
      PopMembers(s.pendQ);
      forall u | u in s.pendQ && u != n ensures Precedes(base, s.ticket, n, u) {
        HeadFirst(s.pendQ, base, s.ticket, u);
      }
      assert Without(s.pendQ, n) == r.pendQ;
      WithoutOrdered(s.pendQ, base, s.ticket, n);
      hide Ordered, Distinct, Without;
      forall i | 0 <= i < |r.pendQ| ensures Of(base, r.pendQ[i]) <= Of(base, n) {
        assert r.pendQ[i] in r.pendQ;
      }
    }
  }

  // ---------------------------------------------------------------- runs

  datatype Event = EEnter(t: Tid) | ELeave(t: Tid, key: Key)

  /** A blocked task does nothing; the outermost leave is the owner's. */
  predicate Enabled(s: State, e: Event) {
    match e
    case EEnter(t) => t < |s.pri| == |s.ticket| && t !in s.pendQ
    case ELeave(t, key) => t < |s.pri| && s.mutexCnt == 0 && t == s.owner
  }

  ghost predicate Next(s: State, e: Event, s': State) {
    Enabled(s, e) && s' == match e { case EEnter(t) => EnterStep(s, t).0 case ELeave(t, key) => LeaveStep(s, t, key) }
  }

  /** A run of the gate from its creation, with the tasks at their original priorities. */
  ghost predicate Run(base: seq<int>, states: seq<State>, events: seq<Event>) {
    && |states| == |events| + 1
    && states[0] == State(1, states[0].owner, 0, [], base, states[0].ticket, 0) && |states[0].ticket| == |base|
    && forall i :: 0 <= i < |events| ==> Next(states[i], events[i], states[i + 1])
  }

  lemma {:induction false} RunGood(base: seq<int>, states: seq<State>, events: seq<Event>, k: nat)
    requires Run(base, states, events) && k <= |events|
    ensures Good(states[k], base)
    decreases k
  {
    if k > 0 {
      var i := k - 1;
      RunGood(base, states, events, i);
      assert Next(states[i], events[i], states[i + 1]);
      match events[i] {
        case EEnter(t) => EnterGood(states[i], base, t);
        case ELeave(t, key) => LeaveGood(states[i], base, t, key);
      }
    }
  }

  /**
   In every reachable state the wait queue is sorted by priority and FIFO among equals, and the owner runs at exactly the
   maximum of its own original priority and all the waiters'; every other task runs at its original priority.
   */
  lemma OwnerRunsAtMaximum(base: seq<int>, states: seq<State>, events: seq<Event>, k: nat)
    requires Run(base, states, events) && k <= |events|
    ensures var s := states[k];
            && Ordered(s.pendQ, base, s.ticket)
            && (s.mutexCnt == 0 ==> s.owner < |s.pri| && Maximum(base, s.pendQ, s.owner, s.pri[s.owner]))
            && (forall t: Tid :: t < |s.pri| && (s.mutexCnt == 1 || t != s.owner) ==> s.pri[t] == Of(base, t))
  {
    RunGood(base, states, events, k);
  }

  // ---------------------------------------------------------------- what the calls answer and do

  /** The key says what the enter did: took a free gate, found it its own, or queued the task behind its owner. */
  lemma EnterAnswers(s: State, base: seq<int>, t: Tid)
    requires Good(s, base) && t < |s.pri| && t !in s.pendQ
    ensures var (r, key) := EnterStep(s, t);
            && r.mutexCnt == 0
            && (key == FIRST_ENTER <==> s.mutexCnt == 1)
            && (key == FIRST_ENTER ==> r.owner == t && r.ownerOrigPri == s.pri[t] && r.pri == s.pri && r.pendQ == [])
            && (key == NESTED_ENTER <==> s.mutexCnt == 0 && s.owner == t) && (key == NESTED_ENTER ==> r == s)
            && (key == BLOCKS <==> t in r.pendQ)
            && (key == BLOCKS ==> s.mutexCnt == 0 && r.owner == s.owner != t && r.ownerOrigPri == s.ownerOrigPri)
  {
    if s.mutexCnt != 1 && s.owner != t {
      EnterQueue(s, base, t);
    }
  }

  /** A nested leave does nothing; the outermost frees the gate exactly if nobody waits, and else hands it to one who no longer does. */
  lemma LeaveEffects(s: State, base: seq<int>, t: Tid, key: Key)
    requires Good(s, base) && s.mutexCnt == 0 && t == s.owner
    ensures var r := LeaveStep(s, t, key);
            && |r.pri| == |s.pri| && (key != FIRST_ENTER ==> r == s)
            && (key == FIRST_ENTER ==>
                  && (r.mutexCnt == 1 <==> s.pendQ == [])
                  && (s.pendQ != [] ==> r.owner in s.pendQ && r.ownerOrigPri == Of(base, r.owner)
                                        && forall u :: u in r.pendQ <==> u in s.pendQ && u != r.owner)
                  && forall u :: 0 <= u < |s.pri| ==> r.pri[u] == Of(base, u))
  {
    if key == FIRST_ENTER {
      LeaveGood(s, base, t, key);
      if s.pendQ != [] {
        PopMembers(s.pendQ);
        assert s.pendQ[0] in s.pendQ;
      }
    }
  }

  /** Who owns the gate owns it until its outermost leave, whatever the others enter and however deeply it nests. */
  lemma {:induction false} HeldUntilLeft(base: seq<int>, states: seq<State>, events: seq<Event>, i: nat, j: nat)
    requires Run(base, states, events) && i <= j <= |events| && states[i].mutexCnt == 0
    requires forall k :: i <= k < j ==> events[k] != ELeave(states[i].owner, FIRST_ENTER)
    ensures states[j].mutexCnt == 0 && states[j].owner == states[i].owner && states[j].ownerOrigPri == states[i].ownerOrigPri
    decreases j
  {
    if i < j {
      var k := j - 1;
      HeldUntilLeft(base, states, events, i, k);
      assert Next(states[k], events[k], states[j]);
    }
  }

  // ---------------------------------------------------------------- the functions

  class Gate {
    var mutexCnt: nat
    var owner: Tid
    var ownerOrigPri: int
    var pendQ: seq<Tid>
    var pri: seq<int>
    ghost var ticket: seq<int>
    ghost var waits: nat

    ghost function S(): State
      reads this
    {
      State(mutexCnt, owner, ownerOrigPri, pendQ, pri, ticket, waits)
    }

    constructor (base: seq<int>)
      ensures S() == State(1, 0, 0, [], base, ticket, 0) && |ticket| == |base|
    {
      mutexCnt, owner, ownerOrigPri, pendQ, pri := 1, 0, 0, [], base;
      ticket, waits := seq(|base|, i => 0), 0;
    }

    /** GateMutexPri_insertPri. */
    method InsertPri(t: Tid, newPri: int)
      requires newPri == Of(pri, t)
      modifies this`pendQ
      ensures pendQ == Inserted(old(pendQ), pri, t)
    {
      var i := 0;
      while i < |pendQ|
        invariant 0 <= i <= |pendQ| && pendQ == old(pendQ) && forall j :: 0 <= j < i ==> Of(pri, pendQ[j]) >= newPri
      {
        if newPri > Of(pri, pendQ[i]) {
          assert i == Place(pendQ, pri, newPri);
          pendQ := pendQ[..i] + [t] + pendQ[i..];
          return;
        }
        i := i + 1;
      }
      assert |pendQ| == Place(pendQ, pri, newPri);
      assert pendQ[..|pendQ|] + [t] + pendQ[|pendQ|..] == pendQ + [t];
      pendQ := pendQ + [t];
    }

    /** GateMutexPri_enter. */
    method Enter(t: Tid, ghost base: seq<int>) returns (key: Key)
      requires Good(S(), base) && t < |pri| && t !in pendQ
      modifies this
      ensures (S(), key) == EnterStep(old(S()), t) && Good(S(), base)
    {
      EnterGood(S(), base, t);
      hide Queue, Maximum, Inserted;
      var tskPri := pri[t];
      if mutexCnt == 1 {
        mutexCnt := 0;
        owner := t;
        ownerOrigPri := tskPri;
        return FIRST_ENTER;
      }
      if owner == t {
        return NESTED_ENTER;
      }
      InsertPri(t, tskPri);
      ticket := ticket[t := waits];
      waits := waits + 1;
      if tskPri > pri[owner] {
        pri := pri[owner := tskPri];
      }
      return BLOCKS;
    }

    /** GateMutexPri_leave. */
    method Leave(t: Tid, key: Key, ghost base: seq<int>)
      requires Good(S(), base) && mutexCnt == 0 && t == owner
      modifies this
      ensures S() == LeaveStep(old(S()), t, key) && Good(S(), base)
    {
      LeaveGood(S(), base, t, key);
      hide Queue, Maximum;
      if !key.FIRST_ENTER? {
        return;
      }
      if ownerOrigPri < pri[t] {
        pri := pri[t := ownerOrigPri];
      }
      if pendQ != [] {
        var newOwner := pendQ[0];
        pendQ := pendQ[1..];
        owner := newOwner;
        ownerOrigPri := Of(pri, newOwner);
      } else {
        mutexCnt := 1;
      }
    }
  }
}
