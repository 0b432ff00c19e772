/**
 The timeout of a reader over whole runs of the read-write lock, with the true, unbounded time beside the 32-bit tick
 counter that rdlockAcquire reads. The semaphore's own clock is taken to let a pend expire no sooner than asked.
 */
module RwLockTimes {
  import opened Base
  import opened RwLock

  /** When a reader blocked, when it last read the counter, when it last pended, and the timeout of its call. */
  datatype Wait = Wait(start: int, last: int, pend: int, timeout: int)

  datatype Timed = Timed(s: State, now: int, waits: seq<Wait>)

  predicate Counting(ph: Phase) {
    ph.RdPrePend? || ph.RdWait? || ph.RdWoken?
  }

  /** A step at the true time `time`. Between two readings of the counter fewer than 2^32 ticks pass. */
  ghost predicate TimedNext(a: Timed, e: Event, time: int, b: Timed) {
    && |a.waits| == |a.s.th| && 0 <= a.now <= time == b.now && Next(a.s, e, b.s)
    && match e
       case ERdEnter(t, timeout, now) =>
         && now == time % TWO32
         && b.waits == if RdEnter(a.s, t, timeout, now).1 == Blocks then a.waits[t := Wait(time, time, time, timeout)] else a.waits
       case ERdPend(t) => b.waits == a.waits[t := a.waits[t].(pend := time)]
       case ERdExpire(t) => time >= a.waits[t].pend + a.s.th[t].phase.left && b.waits == a.waits
       case ERdResume(t, now) =>
         && now == time % TWO32
         && (a.s.th[t].phase.left != FOREVER ==> time < a.waits[t].last + TWO32)
         && b.waits == if a.s.th[t].phase.left != FOREVER then a.waits[t := a.waits[t].(last := time)] else a.waits
       case _ => b.waits == a.waits
  }

  /** What is left of a reader's timeout is what the time from its blocking to its last reading leaves. */
  ghost predicate OnTime(a: Timed, t: Tid)
    requires |a.waits| == |a.s.th| && t < |a.s.th|
  {
    var ph, w := a.s.th[t].phase, a.waits[t];
    Counting(ph) && ph.left != FOREVER ==>
      && 0 <= w.start <= w.last <= a.now && w.timeout < FOREVER
      && 0 < ph.left == w.timeout - (w.last - w.start) && ph.cur == w.last % TWO32
      && (!ph.RdPrePend? ==> w.last <= w.pend)
  }

  ghost predicate AllOnTime(a: Timed) {
    |a.waits| == |a.s.th| && forall t :: 0 <= t < |a.s.th| ==> OnTime(a, t)
  }

  lemma DeltaExact(time: int, later: int)
    requires time <= later < time + TWO32
    ensures Delta(time % TWO32, later % TWO32) == later - time
  {
  }

  /** A step changes the phase of another thread only by waking it. */
  lemma OthersWoken(s: State, e: Event, s': State, u: Tid)
    requires Next(s, e, s') && u < |s.th| && (u != e.t || e.EUnlock? || e.EPostOne? || e.EUnlockEnd?)
    ensures |s'.th| == |s.th|
    ensures s'.th[u].phase == s.th[u].phase || s'.th[u].phase == Woken(s.th[u]).phase || s'.th[u].phase.WrGranted?
  {
  }

  lemma OtherKeeps(a: Timed, e: Event, time: int, b: Timed, u: Tid)
    requires AllOnTime(a) && TimedNext(a, e, time, b) && u < |a.s.th| && (u != e.t || e.EUnlock? || e.EPostOne? || e.EUnlockEnd?)
    ensures |b.waits| == |b.s.th| == |a.s.th| && OnTime(b, u)
  {
    assert OnTime(a, u);
    OthersWoken(a.s, e, b.s, u);
    hide Next;
  }

  lemma OwnKeeps(a: Timed, e: Event, time: int, b: Timed)
    requires AllOnTime(a) && TimedNext(a, e, time, b) && !(e.EUnlock? || e.EPostOne? || e.EUnlockEnd?)
    ensures |b.waits| == |b.s.th| == |a.s.th| && e.t < |a.s.th| && OnTime(b, e.t)
  {
    assert OnTime(a, e.t);
    if e.ERdResume? && a.s.th[e.t].phase.left != FOREVER {
      DeltaExact(a.waits[e.t].last, time);
    }
  }

  lemma KeepsOnTime(a: Timed, e: Event, time: int, b: Timed)
    requires AllOnTime(a) && TimedNext(a, e, time, b)
    ensures AllOnTime(b)
  {
    forall u | 0 <= u < |b.s.th| ensures |b.waits| == |b.s.th| && OnTime(b, u) {
      if u != e.t || e.EUnlock? || e.EPostOne? || e.EUnlockEnd? {
        OtherKeeps(a, e, time, b, u);
      } else {
        OwnKeeps(a, e, time, b);
      }
    }
  }

  ghost predicate TimedRun(states: seq<Timed>, events: seq<Event>, times: seq<int>) {
    && |states| == |events| + 1 && |times| == |events|
    && Init(states[0].s) && states[0].now == 0 && |states[0].waits| == |states[0].s.th|
    && forall i :: 0 <= i < |events| ==> TimedNext(states[i], events[i], times[i], states[i + 1])
  }

  lemma {:induction false} RunOnTime(states: seq<Timed>, events: seq<Event>, times: seq<int>, k: nat)
    requires TimedRun(states, events, times) && k < |states|
    ensures AllOnTime(states[k])
    decreases k
  {
    hide TimedNext, OnTime;
    if k == 0 {
      StartsOnTime(states[0]);
    } else {
      RunOnTime(states, events, times, k - 1);
      KeepsOnTime(states[k - 1], events[k - 1], times[k - 1], states[k]);
    }
  }

  lemma StartsOnTime(a: Timed)
    requires Init(a.s) && |a.waits| == |a.s.th|
    ensures AllOnTime(a)
  {
  }

  /**
   The timeout is total. In every timed run, however often a reader is woken and finds the lock taken again: it gives up,
   in its pend or in the loop, only when the ticks since it blocked have reached the timeout of its call; and a turn of
   the loop that does not get the lock gives up exactly then.
   */
  lemma TimeoutIsTotal(states: seq<Timed>, events: seq<Event>, times: seq<int>, k: nat, t: Tid)
    requires TimedRun(states, events, times) && k < |events|
    requires events[k] == ERdExpire(t) || (events[k].ERdResume? && events[k].t == t)
    ensures t < |states[k].s.th| && t < |states[k].waits| && (events[k].ERdResume? ==> states[k].s.th[t].phase.RdWoken?)
    ensures var elapsed := times[k] - states[k].waits[t].start;
            var timeout := states[k].waits[t].timeout;
            && (events[k].ERdExpire? ==> elapsed >= timeout)
            && (events[k].ERdResume? && states[k].s.th[t].phase.left != FOREVER ==>
                  var r := RdResume(states[k].s, t, events[k].now).1;
                  && (r == TimedOut ==> elapsed >= timeout)
                  && (r == Retries ==> elapsed < timeout)
                  && (r == Acquired <==> states[k].s.active > 0 || states[k].s.count > 0))
  {
    RunOnTime(states, events, times, k);
    assert TimedNext(states[k], events[k], times[k], states[k + 1]);
    assert OnTime(states[k], t);
    if events[k].ERdResume? && states[k].s.th[t].phase.left != FOREVER {
      DeltaExact(states[k].waits[t].last, times[k]);
    }
  }

  /** `start` and `timeout` are what they are called: set when the call blocks, and kept until it returns. */
  lemma {:induction false} WaitsSince(states: seq<Timed>, events: seq<Event>, times: seq<int>, i: nat, k: nat, t: Tid)
    requires TimedRun(states, events, times) && i < k < |states| && t < |states[i].s.th|
    requires events[i].ERdEnter? && events[i].t == t
    requires RdEnter(states[i].s, t, events[i].timeout, events[i].now).1 == Blocks
    requires forall m :: i < m < k ==> !(events[m].ERdEnter? && events[m].t == t)
    ensures t < |states[k].waits| && states[k].waits[t].start == times[i] && states[k].waits[t].timeout == events[i].timeout
    decreases k
  {
    assert TimedNext(states[k - 1], events[k - 1], times[k - 1], states[k]);
    if i + 1 < k {
      WaitsSince(states, events, times, i, k - 1, t);
    }
  }
}
