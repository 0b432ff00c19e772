/**
 What becomes of one clock object over a run of dynamic mode: when it is called, and what it is set to then.
 */
module ClockPeriods {
  import opened Base
  import opened Arithmetic
  import opened ClockQueue
  import opened ClockRuns

  /** The step from s to s' called the handler of object i. */
  ghost predicate CalledIn(s: Sys, s': Sys, i: nat) {
    && s.work.Some? && s'.work.Some? && |s.work.value.l.calls| <= |s'.work.value.l.calls|
    && exists c :: c in s'.work.value.l.calls[|s.work.value.l.calls|..] && c.index == i
  }

  /** One call of each object at most, in the order of the queue. */
  ghost predicate InOrder(calls: seq<Call>) {
    forall a, b :: 0 <= a < b < |calls| ==> calls[a].index < calls[b].index
  }

  lemma {:induction false} CallsMembers(q: seq<Clock>, tick: U32, n: nat)
    requires n <= |q|
    ensures forall c :: c in CallsFrom(q, tick, n) <==> n <= c.index < |q| && c.tick == tick && Expires(q[c.index], tick)
    ensures InOrder(CallsFrom(q, tick, n))
    decreases |q| - n
  {
    if n < |q| {
      CallsMembers(q, tick, n + 1);
      var rest := CallsFrom(q, tick, n + 1);
      forall k | 0 <= k < |rest| ensures rest[k].index > n {
        assert rest[k] in rest;
      }
      forall c ensures c in CallsFrom(q, tick, n) <==> n <= c.index < |q| && c.tick == tick && Expires(q[c.index], tick) {
        assert c in CallsFrom(q, tick, n) <==> (Expires(q[n], tick) && c == Call(tick, n)) || c in CallsFrom(q, tick, n + 1);
      }
    }
  }

  /** What one walk of a service does to object i. */
  lemma WalkEffects(s: Sys, i: nat)
    requires Good(s) && Enabled(s, Walk) && i < |s.m.q|
    ensures |s.due| == |s.m.q| && |WalkOnce(s).m.q| == |s.m.q| && |WalkOnce(s).due| == |s.m.q|
    ensures var t := WalkOnce(s);
            var at := s.work.value.at + s.work.value.l.distance;
            var o, o' := s.m.q[i], t.m.q[i];
            && t.work.Some? && t.work.value.at == at && s.work.value.at <= at <= s.work.value.begun
            && (CalledIn(s, t, i) <==> o.active && s.due[i] == at)
            && (!CalledIn(s, t, i) ==> o' == o && t.due[i] == s.due[i])
            && (CalledIn(s, t, i) && o.period == 0 ==> !o'.active)
            && (CalledIn(s, t, i) && o.period > 0 ==> o'.active && t.due[i] == s.due[i] + o.period)
            && o'.period == o.period
    ensures var calls := WalkOnce(s).work.value.l.calls;
            |s.work.value.l.calls| <= |calls| && InOrder(calls[|s.work.value.l.calls|..])
  {
    var t := WalkOnce(s);
    var w := s.work.value;
    var at := w.at + w.l.distance;
    WalkGood(s);
    CallsMembers(s.m.q, Wrap(at), 0);
    Sum(w.at, w.l.distance);
    TurnFields(w.l.(q := s.m.q));
    hide Good, Wrap, Walked, Calls, Distance, Turn;
    assert t.work.value.l.calls == w.l.calls + Calls(s.m.q, Wrap(at));
    assert t.work.value.l.calls[|w.l.calls|..] == Calls(s.m.q, Wrap(at));
    if Expires(s.m.q[i], Wrap(at)) {
      assert Call(Wrap(at), i) in Calls(s.m.q, Wrap(at));
    }
  }

  /** No other step calls anything, and it leaves an object that it does not start or stop. */
  lemma OtherSteps(s: Sys, e: Event, s': Sys, maxSkippable: U32, i: nat)
    requires Good(s) && Next(s, e, s', maxSkippable) && !e.Walk? && i < |s.m.q|
    requires !(e.Start? && e.i == i) && !(e.Stop? && e.i == i)
    ensures |s.due| == |s.m.q| && |s'.m.q| == |s.m.q| && |s'.due| == |s.m.q|
    ensures s'.m.q[i] == s.m.q[i] && s'.due[i] == s.due[i]
  {
    hide Wrap, Distance;
  }

  lemma Starts(s: Sys, i: nat, timeout: U32, time: int, s': Sys, maxSkippable: U32)
    requires Good(s) && Next(s, Start(i, timeout, time), s', maxSkippable)
    ensures i < |s'.m.q| == |s'.due| == |s.m.q|
    ensures s'.m.q[i].active && s'.due[i] == time + timeout && s'.m.q[i].period == s.m.q[i].period
  {
    hide Wrap;
  }

  lemma Stops(s: Sys, i: nat, s': Sys, maxSkippable: U32)
    requires Good(s) && Next(s, Stop(i), s', maxSkippable)
    ensures i < |s'.m.q| && !s'.m.q[i].active
  {
  }

  lemma GoodAt(states: seq<Sys>, events: seq<Event>, maxSkippable: U32, k: nat)
    requires Run(states, events, maxSkippable) && k <= |events|
    ensures Good(states[k])
  {
    var ss, es := states[..k + 1], events[..k];
    forall i | 0 <= i < k ensures Next(ss[i], es[i], ss[i + 1], maxSkippable) {
      assert Next(states[i], events[i], states[i + 1], maxSkippable);
    }
    RunGood(ss, es, maxSkippable);
  }

  /** The true ticks of the walks in steps j to k that called object i. */
  ghost function CallTimes(states: seq<Sys>, events: seq<Event>, i: nat, j: nat, k: nat): seq<int>
    requires j <= k <= |events| < |states|
    decreases k - j
  {
    if j == k then []
    else
      var last := if events[k - 1] == Walk && CalledIn(states[k - 1], states[k], i) then [states[k].work.value.at] else [];
      CallTimes(states, events, i, j, k - 1) + last
  }

  /** Object i has been called n times, at start, start + period and so on; it is due again a period later, or off. */
  ghost predicate OnSchedule(s: Sys, i: nat, start: int, times: seq<int>) {
    && i < |s.m.q| == |s.due|
    && var o, n := s.m.q[i], |times|;
    && (forall c :: 0 <= c < n ==> times[c] == start + c * o.period)
    && (if o.period == 0 then n <= 1 && (o.active <==> n == 0) else o.active)
    && (o.active ==> s.due[i] == start + n * o.period)
  }

  lemma KeepsSchedule(s: Sys, e: Event, s': Sys, maxSkippable: U32, i: nat, start: int, times: seq<int>)
    requires Good(s) && Next(s, e, s', maxSkippable) && OnSchedule(s, i, start, times)
    requires !(e.Start? && e.i == i) && !(e.Stop? && e.i == i)
    ensures e == Walk && CalledIn(s, s', i) ==> s'.work.Some?
    ensures OnSchedule(s', i, start, times + if e == Walk && CalledIn(s, s', i) then [s'.work.value.at] else [])
  {
    if e.Walk? {
      WalkEffects(s, i);
      hide Good, Next, CalledIn, WalkOnce;
      Distribute(|times|, 1, s.m.q[i].period);
    } else {
      OtherSteps(s, e, s', maxSkippable, i);
      hide Good, Next, CalledIn;
      assert times + [] == times;
    }
  }

  /**
   An object started at time t with timeout d and period p, and neither stopped nor started again, is called at exactly
   t + d, t + d + p, t + d + 2p and so on, once each, as far as services have come; with period 0 once. So it is still on
   while more calls are to come, and what is to come lies after the time any service that ends began at.
   */
  lemma {:induction false} PeriodicCalls(states: seq<Sys>, events: seq<Event>, maxSkippable: U32, i: nat, j: nat, k: nat)
    requires Run(states, events, maxSkippable) && j < k <= |events| && events[j].Start? && events[j].i == i
    requires forall m :: j < m < k ==> !(events[m].Start? && events[m].i == i) && !(events[m].Stop? && events[m].i == i)
    ensures var start := events[j].time + events[j].timeout;
            var times := CallTimes(states, events, i, j + 1, k);
            var s := states[k];
            && OnSchedule(s, i, start, times)
            && (s.m.q[i].active && Enabled(s, Finish) ==> s.work.value.begun < start + |times| * s.m.q[i].period)
            && (s.m.q[i].active && s.work.None? ==> s.next <= start + |times| * s.m.q[i].period)
    decreases k
  {
    hide Next, Enabled, CalledIn, Good, OnSchedule;
    var start := events[j].time + events[j].timeout;
    GoodAt(states, events, maxSkippable, k - 1);
    assert Next(states[k - 1], events[k - 1], states[k], maxSkippable);
    if k == j + 1 {
      Starts(states[j], i, events[j].timeout, events[j].time, states[k], maxSkippable);
      JustStarted(states[k], i, start);
    } else {
      PeriodicCalls(states, events, maxSkippable, i, j, k - 1);
      KeepsSchedule(states[k - 1], events[k - 1], states[k], maxSkippable, i, start, CallTimes(states, events, i, j + 1, k - 1));
    }
    GoodAt(states, events, maxSkippable, k);
    StillToCome(states[k], i, start, CallTimes(states, events, i, j + 1, k));
  }

  lemma JustStarted(s: Sys, i: nat, start: int)
    requires i < |s.m.q| == |s.due| && s.m.q[i].active && s.due[i] == start
    ensures OnSchedule(s, i, start, [])
  {
  }

  lemma StillToCome(s: Sys, i: nat, start: int, times: seq<int>)
    requires Good(s) && OnSchedule(s, i, start, times)
    ensures i < |s.m.q|
    ensures s.m.q[i].active && Enabled(s, Finish) ==> s.work.value.begun < start + |times| * s.m.q[i].period
    ensures s.m.q[i].active && s.work.None? ==> s.next <= start + |times| * s.m.q[i].period
  {
    if s.m.q[i].active && Enabled(s, Finish) {
      FinishDistance(s, i);
    }
    if s.m.q[i].active && s.work.None? {
      assert DueIn(s, i, s.next);
    }
  }
}
