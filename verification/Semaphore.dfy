/**
 packages/ti/sysbios/knl/Semaphore.c without events and without reset: any number of threads pend, with or without a
 time-out, and anybody posts; a clock may call Semaphore_pendTimeout for a pend at any time until that pend returns.
 */
module Semaphore {
  import opened Base
  import opened PriorityQueue

  const NO_WAIT: int := 0
  const FOREVER: int := 0xFFFF_FFFF
  const MAX_COUNT: int := 0xFFFF

  datatype PendState = TIMEOUT | POSTED | CLOCK_WAIT | WAIT_FOREVER

  /** A thread is inside a pend that has blocked, or not. */
  datatype Thread = Idle | Pending(state: PendState)

  /** The semaphore's mode, its initial count, and the priorities of the threads. */
  datatype Config = Config(binary: bool, priority: bool, init: nat, pri: seq<int>)

  /** What has happened so far: posts, pends granted at once, by hand-off, and timed out; posts a binary count absorbed. */
  datatype Tally = Tally(posts: nat, immediate: nat, handoffs: nat, timeouts: nat, absorbed: nat, blocked: nat)

  datatype State = State(count: nat, pendQ: seq<Tid>, th: seq<Thread>, ticket: seq<int>, tally: Tally)

  datatype Result = Granted | Refused | Blocks

  predicate Waits(x: Thread) {
    x.Pending? && (x.state.CLOCK_WAIT? || x.state.WAIT_FOREVER?)
  }

  predicate Resolved(x: Thread) {
    x.Pending? && (x.state.POSTED? || x.state.TIMEOUT?)
  }

  /** Semaphore_pend up to the point where it returns or blocks (lines 213-280 and 313-322). */
  function PendStep(c: Config, s: State, t: Tid, timeout: int): (State, Result)
    requires t < |s.th| == |s.ticket|
  {
    if s.count == 0 then
      if timeout == NO_WAIT then (s, Refused)
      else
        var q := if c.priority then Inserted(s.pendQ, c.pri, t) else s.pendQ + [t];
        (State(s.count, q, s.th[t := Pending(if timeout == FOREVER then WAIT_FOREVER else CLOCK_WAIT)],
               s.ticket[t := s.tally.blocked], s.tally.(blocked := s.tally.blocked + 1)), Blocks)
    else (s.(count := s.count - 1, tally := s.tally.(immediate := s.tally.immediate + 1)), Granted)
  }

  /** Semaphore_post (lines 347-382). */
  function PostStep(c: Config, s: State): State {
    var tally := s.tally.(posts := s.tally.posts + 1);
    if s.pendQ == [] then
      if c.binary then s.(count := 1, tally := tally.(absorbed := s.tally.absorbed + s.count))
      else s.(count := (s.count + 1) % (MAX_COUNT + 1), tally := tally)
    else if s.pendQ[0] < |s.th| then
      s.(pendQ := s.pendQ[1..], th := s.th[s.pendQ[0] := Pending(POSTED)], tally := tally.(handoffs := s.tally.handoffs + 1))
    else s
  }

  /** Semaphore_pendTimeout (lines 145-170). */
  function TimeoutStep(s: State, t: Tid): State
    requires t < |s.th|
  {
    if s.th[t] == Pending(CLOCK_WAIT) then
      s.(pendQ := Without(s.pendQ, t), th := s.th[t := Pending(TIMEOUT)], tally := s.tally.(timeouts := s.tally.timeouts + 1))
    else s
  }

  /** A pend that was blocked returns (lines 284-301). */
  function Return(s: State, t: Tid): (State, Result)
    requires t < |s.th| && Resolved(s.th[t])
  {
    (s.(th := s.th[t := Idle]), if s.th[t].state.POSTED? then Granted else Refused)
  }

  // ---------------------------------------------------------------- the invariant

  ghost predicate Queued(s: State) {
    && Distinct(s.pendQ)
    && forall t: Tid :: t in s.pendQ <==> t < |s.th| && Waits(s.th[t])
  }

  /** Every unit is accounted for: what was there and was posted is there, or was granted, or was absorbed. */
  ghost predicate Conserved(c: Config, s: State) {
    && c.init + s.tally.posts == s.count + s.tally.immediate + s.tally.handoffs + s.tally.absorbed
    && (!c.binary ==> s.tally.absorbed == 0)
    && s.count <= MAX_COUNT && (c.binary && c.init <= 1 ==> s.count <= 1)
  }

  /** Every pend that blocked waits, or was handed a unit, or timed out: one of them, once. */
  ghost predicate EachOnce(s: State) {
    s.tally.blocked == |s.pendQ| + s.tally.handoffs + s.tally.timeouts
  }

  /** The priorities the queue goes by: none in FIFO mode. */
  function Priorities(c: Config): seq<int> {
    if c.priority then c.pri else []
  }

  /** In priority mode the queue is sorted by priority and FIFO among equals, else FIFO. */
  ghost predicate InOrder(c: Config, s: State) {
    && (forall i :: 0 <= i < |s.pendQ| ==> Of(s.ticket, s.pendQ[i]) < s.tally.blocked)
    && Ordered(s.pendQ, Priorities(c), s.ticket)
  }

  ghost predicate Good(c: Config, s: State) {
    && |s.th| == |s.ticket|
    && Queued(s) && Conserved(c, s) && EachOnce(s) && InOrder(c, s)
    && (s.count > 0 ==> s.pendQ == [])
  }

  lemma PendGood(c: Config, s: State, t: Tid, timeout: int)
    requires Good(c, s) && t < |s.th| && s.th[t].Idle?
    ensures Good(c, PendStep(c, s, t, timeout).0)
  {
    if s.count == 0 && timeout != NO_WAIT {
      PendBlocks(c, s, t, timeout);
    }
  }

  lemma PendBlocks(c: Config, s: State, t: Tid, timeout: int)
    requires Good(c, s) && t < |s.th| && s.th[t].Idle? && s.count == 0 && timeout != NO_WAIT
    ensures Good(c, PendStep(c, s, t, timeout).0)
  {
    var r := PendStep(c, s, t, timeout).0;
    var pri := Priorities(c);
    AppendIsInsert(s.pendQ, t);
    assert r.pendQ == Inserted(s.pendQ, pri, t);
    assert t !in s.pendQ;
    InsertedMembers(s.pendQ, pri, t);
    forall i | 0 <= i < |s.pendQ| ensures Of(r.ticket, s.pendQ[i]) == Of(s.ticket, s.pendQ[i]) {
      assert s.pendQ[i] in s.pendQ;
    }
    OrderedTickets(s.pendQ, pri, s.ticket, r.ticket);
    InsertedOrdered(s.pendQ, pri, r.ticket, t);
    hide Inserted, Ordered, Distinct, Place;
    forall i | 0 <= i < |r.pendQ| ensures Of(r.ticket, r.pendQ[i]) < r.tally.blocked {
      assert r.pendQ[i] in r.pendQ;
      if r.pendQ[i] != t {
        var k :| 0 <= k < |s.pendQ| && s.pendQ[k] == r.pendQ[i];
      }
    }
  }

  lemma PostGood(c: Config, s: State)
    requires Good(c, s) && (c.binary || s.pendQ != [] || s.count < MAX_COUNT)
    ensures Good(c, PostStep(c, s))
  {
    if s.pendQ != [] {
      var h := s.pendQ[0];
      assert h in s.pendQ;
      PopMembers(s.pendQ);
      assert Without(s.pendQ, h) == s.pendQ[1..];
      WithoutInOrder(c, s, h);
      hide Ordered, Distinct, Without;
    }
  }

  lemma WithoutInOrder(c: Config, s: State, t: Tid)
    requires InOrder(c, s)
    ensures var q := Without(s.pendQ, t);
            && (forall i :: 0 <= i < |q| ==> Of(s.ticket, q[i]) < s.tally.blocked) && Ordered(q, Priorities(c), s.ticket)
  {
    WithoutOrdered(s.pendQ, Priorities(c), s.ticket, t);
    var q := Without(s.pendQ, t);
    forall i | 0 <= i < |q| ensures Of(s.ticket, q[i]) < s.tally.blocked {
      assert q[i] in q && q[i] in s.pendQ;
    }
  }

  lemma PendTimeoutGood(c: Config, s: State, t: Tid)
    requires Good(c, s) && t < |s.th|
    ensures Good(c, TimeoutStep(s, t))
  {
    if s.th[t] == Pending(CLOCK_WAIT) {
      assert t in s.pendQ;
      WithoutMembers(s.pendQ, t);
      WithoutInOrder(c, s, t);
      hide Ordered, Distinct, Without;
    }
  }

  // ---------------------------------------------------------------- runs

  datatype Event = EPend(t: Tid, timeout: int) | EPost | EPendTimeout(t: Tid) | EReturn(t: Tid)

  /** A post must not overflow the count; a clock's call comes for a pend that is not over. */
  predicate Enabled(c: Config, s: State, e: Event) {
    match e
    case EPend(t, timeout) => t < |s.th| && s.th[t].Idle?
    case EPost => c.binary || s.pendQ != [] || s.count < MAX_COUNT
    case EPendTimeout(t) => t < |s.th| && s.th[t].Pending?
    case EReturn(t) => t < |s.th| && Resolved(s.th[t])
  }

  function Step(c: Config, s: State, e: Event): State
    requires Enabled(c, s, e) && |s.th| == |s.ticket|
  {
    match e
    case EPend(t, timeout) => PendStep(c, s, t, timeout).0
    case EPost => PostStep(c, s)
    case EPendTimeout(t) => TimeoutStep(s, t)
    case EReturn(t) => Return(s, t).0
  }

  lemma StepGood(c: Config, s: State, e: Event)
    requires Good(c, s) && Enabled(c, s, e)
    ensures Good(c, Step(c, s, e))
  {
    match e {
      case EPend(t, timeout) => PendGood(c, s, t, timeout);
      case EPost => PostGood(c, s);
      case EPendTimeout(t) => PendTimeoutGood(c, s, t);
      case EReturn(t) =>
    }
  }

  ghost predicate Init(c: Config, s: State) {
    && |s.th| == |s.ticket| && c.init <= MAX_COUNT
    && s.count == c.init && s.pendQ == [] && s.tally == Tally(0, 0, 0, 0, 0, 0)
    && forall t :: 0 <= t < |s.th| ==> s.th[t].Idle?
  }

  ghost predicate Next(c: Config, s: State, e: Event, s': State) {
    Enabled(c, s, e) && (Good(c, s) ==> s' == Step(c, s, e))
  }

  ghost predicate Run(c: Config, states: seq<State>, events: seq<Event>) {
    && |states| == |events| + 1 && Init(c, states[0])
    && forall i :: 0 <= i < |events| ==> Next(c, states[i], events[i], states[i + 1])
  }

  lemma {:induction false} RunGood(c: Config, states: seq<State>, events: seq<Event>, k: nat)
    requires Run(c, states, events) && k <= |events|
    ensures Good(c, states[k])
    decreases k
  {
    if k > 0 {
      var i := k - 1;
      RunGood(c, states, events, i);
      assert Next(c, states[i], events[i], states[i + 1]);
      StepGood(c, states[i], events[i]);
    }
  }

  /** In counting mode, the initial count and the posts are the count and the grants; and a count leaves nobody waiting. */
  lemma CountsAddUp(c: Config, states: seq<State>, events: seq<Event>, k: nat)
    requires Run(c, states, events) && k <= |events| && !c.binary
    ensures var s := states[k];
            && c.init + s.tally.posts == s.count + (s.tally.immediate + s.tally.handoffs)
            && (s.count > 0 ==> forall t :: 0 <= t < |s.th| ==> !Waits(s.th[t]))
  {
    RunGood(c, states, events, k);
  }

  /** What one step does to a thread whose pend has blocked. */
  lemma BlockedStep(c: Config, s: State, e: Event, t: Tid)
    requires Good(c, s) && Enabled(c, s, e) && t < |s.th| && s.th[t].Pending?
    ensures var s' := Step(c, s, e);
            && |s'.th| == |s.th|
            && (Resolved(s.th[t]) && e != EReturn(t) ==> s'.th[t] == s.th[t])
            && (Waits(s.th[t]) ==>
                  || s'.th[t] == s.th[t]
                  || (e == EPost && s.pendQ != [] && s.pendQ[0] == t && s'.th[t] == Pending(POSTED))
                  || (e == EPendTimeout(t) && s.th[t].state.CLOCK_WAIT? && s'.th[t] == Pending(TIMEOUT)))
  {
    assert s.pendQ != [] ==> s.pendQ[0] in s.pendQ;
  }

  /** The pend of t that blocked before states[from] was resolved by step m. */
  ghost predicate ResolvedAt(states: seq<State>, events: seq<Event>, t: Tid, from: nat, m: nat, end: nat)
    requires |states| == |events| + 1 && from <= m < end <= |events|
  {
    && (events[m] == EPost || events[m] == EPendTimeout(t))
    && (events[m] == EPost ==> states[m].pendQ != [] && states[m].pendQ[0] == t)
    && (forall k :: from <= k <= m ==> t < |states[k].th| && Waits(states[k].th[t]))
    && (forall k :: m < k <= end ==>
          t < |states[k].th| && states[k].th[t] == Pending(if events[m] == EPost then POSTED else TIMEOUT))
  }

  lemma {:induction false} WaitsOrResolved(c: Config, states: seq<State>, events: seq<Event>, t: Tid, from: nat, end: nat)
    requires Run(c, states, events) && from <= end <= |events| && t < |states[from].th| && Waits(states[from].th[t])
    requires forall k :: from <= k < end ==> events[k] != EReturn(t)
    ensures (forall k :: from <= k <= end ==> t < |states[k].th| && Waits(states[k].th[t])) ||
            (exists m :: from <= m < end && ResolvedAt(states, events, t, from, m, end))
    decreases end
  {
    if from < end {
      var last := end - 1;
      WaitsOrResolved(c, states, events, t, from, last);
      RunGood(c, states, events, last);
      assert Next(c, states[last], events[last], states[end]);
      BlockedStep(c, states[last], events[last], t);
      if m :| from <= m < last && ResolvedAt(states, events, t, from, m, last) {
        assert ResolvedAt(states, events, t, from, m, end);
      } else if !Waits(states[end].th[t]) {
        assert ResolvedAt(states, events, t, from, last, end);
      }
    }
  }

  /**
   A blocked pend is resolved exactly once between its blocking and its return, under any race of posts and clock calls:
   it waits up to one step, a post that hands it a unit or its own clock's call, and after that step nothing changes it;
   it returns TRUE exactly if that step was the post.
   */
  lemma ResolvedOnce(c: Config, states: seq<State>, events: seq<Event>, i: nat, j: nat, t: Tid) returns (m: nat)
    requires Run(c, states, events) && i < j < |events|
    requires events[i].EPend? && events[i].t == t && t < |states[i + 1].th| && Waits(states[i + 1].th[t])
    requires events[j] == EReturn(t) && forall k :: i < k < j ==> events[k] != EReturn(t)
    ensures i < m < j && ResolvedAt(states, events, t, i + 1, m, j)
    ensures t < |states[j].th| && Resolved(states[j].th[t]) && (Return(states[j], t).1 == Granted <==> events[m] == EPost)
  {
    WaitsOrResolved(c, states, events, t, i + 1, j);
    assert Next(c, states[j], events[j], states[j + 1]);
    m :| i + 1 <= m < j && ResolvedAt(states, events, t, i + 1, m, j);
  }

  /** All pends that ever blocked and do not wait any more were granted by hand-off or timed out. */
  lemma BlockedAddUp(c: Config, states: seq<State>, events: seq<Event>, k: nat)
    requires Run(c, states, events) && k <= |events|
    ensures states[k].tally.blocked == |states[k].pendQ| + states[k].tally.handoffs + states[k].tally.timeouts
  {
    RunGood(c, states, events, k);
  }

  /** A post that finds waiters serves the one of highest priority that came first; without priority, the one that came first. */
  lemma PostServesFirst(c: Config, states: seq<State>, events: seq<Event>, k: nat, u: Tid)
    requires Run(c, states, events) && k <= |events| && u in states[k].pendQ
    ensures var s := states[k];
            var h := s.pendQ[0];
            && h < |s.th| && PostStep(c, s).th[h] == Pending(POSTED)
            && (u != h ==> if c.priority then Precedes(c.pri, s.ticket, h, u) else Of(s.ticket, h) < Of(s.ticket, u))
  {
    RunGood(c, states, events, k);
    var s := states[k];
    assert s.pendQ[0] in s.pendQ;
    if u != s.pendQ[0] {
      HeadFirst(s.pendQ, Priorities(c), s.ticket, u);
    }
  }

  // ---------------------------------------------------------------- what the calls answer and do

  /** What a pend answers is what it did: TRUE with one unit less, FALSE with nothing changed, or it waits as it was asked to. */
  lemma PendAnswers(c: Config, s: State, t: Tid, timeout: int)
    requires Good(c, s) && t < |s.th| && s.th[t].Idle?
    ensures var (r, answer) := PendStep(c, s, t, timeout);
            && |r.th| == |s.th| && (forall u :: 0 <= u < |s.th| && u != t ==> r.th[u] == s.th[u])
            && (answer == Granted <==> s.count > 0) && (answer == Granted ==> r.count == s.count - 1)
            && (answer == Refused <==> s.count == 0 && timeout == NO_WAIT) && (answer == Refused ==> r == s)
            && (answer == Blocks <==> r.th[t] == Pending(if timeout == FOREVER then WAIT_FOREVER else CLOCK_WAIT))
            && (answer == Blocks ==> r.count == 0 && t in r.pendQ) && (answer != Blocks ==> r.th == s.th && r.pendQ == s.pendQ)
  {
    PendGood(c, s, t, timeout);
  }

  /** A post wakes the head of the queue and leaves the count alone; with nobody waiting it leaves one unit, or one unit more. */
  lemma PostEffects(c: Config, s: State)
    requires Good(c, s) && (c.binary || s.pendQ != [] || s.count < MAX_COUNT)
    ensures var r := PostStep(c, s);
            && |r.th| == |s.th|
            && (forall u :: 0 <= u < |s.th| && (s.pendQ == [] || u != s.pendQ[0]) ==> r.th[u] == s.th[u])
            && (s.pendQ == [] ==> r.pendQ == [] && r.count == if c.binary then 1 else s.count + 1)
            && (s.pendQ != [] ==> r.count == 0 && s.pendQ == [s.pendQ[0]] + r.pendQ
                                  && s.pendQ[0] < |s.th| && r.th[s.pendQ[0]] == Pending(POSTED))
  {
    assert s.pendQ != [] ==> s.pendQ[0] in s.pendQ;
  }

  /** The clock takes a pend that waits with a time-out off the queue, and nobody else; for any other pend it comes too late. */
  lemma TimeoutEffects(c: Config, s: State, t: Tid)
    requires Good(c, s) && t < |s.th|
    ensures var r := TimeoutStep(s, t);
            && r.count == s.count && |r.th| == |s.th| && (forall u :: 0 <= u < |s.th| && u != t ==> r.th[u] == s.th[u])
            && (s.th[t] == Pending(CLOCK_WAIT) ==>
                  r.th[t] == Pending(TIMEOUT) && forall u :: u in r.pendQ <==> u in s.pendQ && u != t)
            && (s.th[t] != Pending(CLOCK_WAIT) ==> r == s)
  {
    WithoutMembers(s.pendQ, t);
  }

  /** The calls that returned TRUE in the first k steps, at once or after they had blocked. */
  ghost function Successes(c: Config, states: seq<State>, events: seq<Event>, k: nat): nat
    requires |states| == |events| + 1 && k <= |events|
  {
    if k == 0 then 0 else Successes(c, states, events, k - 1) + Success(c, states[k - 1], events[k - 1])
  }

  ghost function Success(c: Config, s: State, e: Event): nat {
    match e
    case EPend(t, timeout) => if t < |s.th| == |s.ticket| && PendStep(c, s, t, timeout).1 == Granted then 1 else 0
    case EReturn(t) => if t < |s.th| && Resolved(s.th[t]) && Return(s, t).1 == Granted then 1 else 0
    case _ => 0
  }

  ghost function Posts(events: seq<Event>, k: nat): nat
    requires k <= |events|
  {
    if k == 0 then 0 else Posts(events, k - 1) + (if events[k - 1].EPost? then 1 else 0)
  }

  predicate IsPosted(x: Thread) {
    x == Pending(POSTED)
  }

  lemma UnitsStep(c: Config, s: State, e: Event)
    requires Good(c, s) && Enabled(c, s, e) && !c.binary
    ensures var r := Step(c, s, e);
            s.count + Count(s.th, IsPosted) + (if e.EPost? then 1 else 0) == r.count + Count(r.th, IsPosted) + Success(c, s, e)
  {
    hide Count, InOrder, Conserved, EachOnce;
    var r := Step(c, s, e);
    match e {
      case EPend(t, timeout) => CountPut(s.th, t, r.th[t], IsPosted);
      case EPost =>
        if s.pendQ != [] {
          assert s.pendQ[0] in s.pendQ;
          CountPut(s.th, s.pendQ[0], Pending(POSTED), IsPosted);
        }
      case EPendTimeout(t) => CountPut(s.th, t, r.th[t], IsPosted);
      case EReturn(t) => CountPut(s.th, t, Idle, IsPosted);
    }
  }

  /**
   In counting mode the units are conserved from the callers' side: the initial count and the posts are the count, the
   pends that returned TRUE, and those that will as soon as they run again.
   */
  lemma {:induction false} UnitsInRuns(c: Config, states: seq<State>, events: seq<Event>, k: nat)
    requires Run(c, states, events) && k <= |events| && !c.binary
    ensures c.init + Posts(events, k) ==
            states[k].count + Successes(c, states, events, k) + Count(states[k].th, IsPosted)
    decreases k
  {
    hide Good, Step, Success;
    if k == 0 {
      CountNone(states[0].th, IsPosted);
    } else {
      var i := k - 1;
      UnitsInRuns(c, states, events, i);
      RunGood(c, states, events, i);
      assert Next(c, states[i], events[i], states[k]);
      UnitsStep(c, states[i], events[i]);
    }
  }

  // ---------------------------------------------------------------- the functions

  class SemaphoreObject {
    const c: Config
    var count: nat
    var pendQ: seq<Tid>
    var th: seq<Thread>                // the pend elements of the threads
    ghost var ticket: seq<int>
    ghost var tally: Tally

    ghost function S(): State
      reads this
    {
      State(count, pendQ, th, ticket, tally)
    }

    constructor (c: Config, threads: nat)
      requires c.init <= MAX_COUNT
      ensures this.c == c && Init(c, S()) && |th| == threads
    {
      this.c, count, pendQ := c, c.init, [];
      th := seq(threads, i => Idle);
      ticket := seq(threads, i => 0);
      tally := Tally(0, 0, 0, 0, 0, 0);
    }

    /** Semaphore_pend up to the point where it returns or blocks. */
    method Pend(t: Tid, timeout: int) returns (r: Result)
      requires Good(c, S()) && t < |th| && th[t].Idle?
      modifies this
      ensures (S(), r) == PendStep(c, old(S()), t, timeout) && Good(c, S())
    {
      PendGood(c, S(), t, timeout);
      hide Queued, Conserved, EachOnce, InOrder;
      if count == 0 {
        if timeout == NO_WAIT {
          return Refused;
        }
        var state := if timeout == FOREVER then WAIT_FOREVER else CLOCK_WAIT;
        if c.priority {
          var selfPri := Of(c.pri, t);
          var i := 0;
          while i < |pendQ| && !(selfPri > Of(c.pri, pendQ[i]))
            invariant 0 <= i <= |pendQ| && forall j :: 0 <= j < i ==> Of(c.pri, pendQ[j]) >= selfPri
          {
            i := i + 1;
          }
          assert i == Place(pendQ, c.pri, selfPri);
          pendQ := pendQ[..i] + [t] + pendQ[i..];
        } else {
          pendQ := pendQ + [t];
        }
        th := th[t := Pending(state)];
        ticket := ticket[t := tally.blocked];
        tally := tally.(blocked := tally.blocked + 1);
        return Blocks;
      } else {
        count := count - 1;
        tally := tally.(immediate := tally.immediate + 1);
        return Granted;
      }
    }

    /** Semaphore_post. */
    method Post()
      requires Good(c, S()) && (c.binary || pendQ != [] || count < MAX_COUNT)
      modifies this
      ensures S() == PostStep(c, old(S())) && Good(c, S())
    {
      PostGood(c, S());
      assert pendQ != [] ==> pendQ[0] in pendQ;
      hide Conserved, EachOnce, InOrder;
      if pendQ == [] {
        if c.binary {
          tally := tally.(absorbed := tally.absorbed + count);
          count := 1;
        } else {
          count := (count + 1) % (MAX_COUNT + 1);
          assert count != 0;
        }
        tally := tally.(posts := tally.posts + 1);
        return;
      }
      var elem := pendQ[0];
      pendQ := pendQ[1..];
      th := th[elem := Pending(POSTED)];
      tally := tally.(posts := tally.posts + 1, handoffs := tally.handoffs + 1);
    }

    /** Semaphore_pendTimeout. */
    method PendTimeout(t: Tid)
      requires Good(c, S()) && t < |th|
      modifies this
      ensures S() == TimeoutStep(old(S()), t) && Good(c, S())
    {
      PendTimeoutGood(c, S(), t);
      hide Queued, Conserved, EachOnce, InOrder, Without;
      if th[t] == Pending(CLOCK_WAIT) {
        pendQ := Without(pendQ, t);
        th := th[t := Pending(TIMEOUT)];
        tally := tally.(timeouts := tally.timeouts + 1);
      }
    }
  }
}
