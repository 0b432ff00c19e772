/**
 Dynamic clock mode over whole runs. Beside the 32-bit state a run carries the true, unbounded times it stands for:
 `due` of each object, the recorded next tick, the last serviced tick, and the tick the timer interrupt is set to.
 */
module ClockRuns {
  import opened Base
  import opened ClockQueue

  /** A workFuncDynamic in progress: its loop variables, the true time it began at and the true serviceTick. */
  datatype Work = Work(l: Loop, begun: int, at: int)

  datatype Sys = Sys(
    m: Module,
    work: Option<Work>,
    due: seq<int>,            // true expiry of each object
    now: int,                 // true time of the last event
    next: int,                // what nextScheduledTick stands for
    base: int,                // what ticks stands for
    armed: int)               // when the timer interrupt will come

  /** `time` is what the timer reads as getCurrentTick, reduced to 32 bits. */
  datatype Event =
    | Begin(time: int)
    | Walk
    | Finish
    | Start(i: nat, timeout: U32, time: int)
    | Stop(i: nat)

  /** No service or start comes 2^32 ticks or more after the last serviced tick. */
  predicate Prompt(s: Sys, time: int) {
    s.now <= time && time - s.base < TWO32
  }

  /** Starting now, while the recorded next tick is overdue, does not reach round to that tick again. */
  predicate Reaches(s: Sys, time: int, timeout: U32) {
    time - s.next + timeout < TWO32
  }

  predicate Enabled(s: Sys, e: Event) {
    match e
    case Begin(time) => s.work.None? && Prompt(s, time)
    case Walk => s.work.Some? && s.work.value.l.left >= s.work.value.l.distance
    case Finish => s.work.Some? && s.work.value.l.left < s.work.value.l.distance
    case Start(i, timeout, time) =>
      i < |s.m.q| && i < |s.due| && timeout != 0 && Prompt(s, time) && Reaches(s, time, timeout)
    case Stop(i) => i < |s.m.q|
  }

  /** The due times after a walk at the true tick `at`. */
  function DueAfter(q: seq<Clock>, due: seq<int>, at: int): (r: seq<int>)
    requires |q| == |due|
    ensures |r| == |due|
    ensures forall i :: 0 <= i < |q| ==> r[i] == if Expires(q[i], Wrap(at)) then due[i] + q[i].period else due[i]
  {
    if q == [] then []
    else [if Expires(q[0], Wrap(at)) then due[0] + q[0].period else due[0]] + DueAfter(q[1..], due[1..], at)
  }

  function BeginAt(s: Sys, time: int): Sys {
    var m := s.m.(startDuring := false);
    if Spurious(s.m, Wrap(time)) then s.(m := m, now := time)
    else
      var l := Loop(m.q, m.next, Wrap(Wrap(time) - m.next), 0, []);
      s.(m := m.(inWorkFunc := true), work := Some(Work(l, time, s.next)), now := time)
  }

  function WalkOnce(s: Sys): Sys
    requires Enabled(s, Walk) && |s.m.q| == |s.due|
  {
    var w := s.work.value;
    var l := Turn(w.l.(q := s.m.q));
    var at := w.at + w.l.distance;
    s.(m := s.m.(q := l.q), work := Some(Work(l, w.begun, at)), due := DueAfter(s.m.q, s.due, at))
  }

  function FinishWith(s: Sys, maxSkippable: U32): Sys
    requires s.work.Some?
  {
    var w := s.work.value;
    var f := Finished(s.m, w.l, maxSkippable);
    s.(m := f.0, work := None, next := w.at + f.1, base := w.at, armed := w.begun + f.1)
  }

  function StartAt(s: Sys, i: nat, timeout: U32, time: int): Sys
    requires i < |s.m.q| && i < |s.due|
  {
    var r := Started(s.m, i, timeout, Wrap(time));
    var t := s.(m := r.0, due := s.due[i := time + timeout], now := time);
    if r.1.Some? then t.(next := time + timeout, armed := time + timeout) else t
  }

  function StopAt(s: Sys, i: nat): Sys
    requires i < |s.m.q|
  {
    s.(m := s.m.(q := s.m.q[i := s.m.q[i].(active := false)]))
  }

  ghost predicate Next(s: Sys, e: Event, s': Sys, maxSkippable: U32) {
    && Enabled(s, e) && |s.m.q| == |s.due|
    && match e {
         case Begin(time) => s' == BeginAt(s, time)
         case Walk => s' == WalkOnce(s)
         case Finish => s' == FinishWith(s, maxSkippable)
         case Start(i, timeout, time) => s' == StartAt(s, i, timeout, time)
         case Stop(i) => s' == StopAt(s, i)
       }
  }

  // ---------------------------------------------------------------- the invariant

  /** Object i of the queue is due at the time its 32-bit timeout stands for, in [lo, lo + 2^32). */
  ghost predicate DueIn(s: Sys, i: nat, lo: int)
    requires i < |s.m.q| && |s.due| == |s.m.q|
  {
    s.m.q[i].active ==>
      && s.m.q[i].cur == Wrap(s.due[i]) && lo <= s.due[i] < lo + TWO32 && s.due[i] < s.now + TWO32
  }

  ghost predicate Times(s: Sys) {
    && s.m.ticks == Wrap(s.base) && s.m.next == Wrap(s.next)
    && s.base <= s.next < s.base + TWO32 && s.base <= s.now < s.base + TWO32
    && (s.m.inWorkFunc <==> s.work.Some?)
    && (!s.m.ticking ==> s.next <= s.now + 1)
  }

  /** Between services: the recorded next tick is never later than any active timeout. */
  ghost predicate Resting(s: Sys)
    requires |s.due| == |s.m.q|
  {
    forall i :: 0 <= i < |s.m.q| ==> DueIn(s, i, s.next)
  }

  /** What the service in progress has still to do for object i: nothing before the next walk, or nothing at all. */
  ghost predicate Served(s: Sys, w: Work, i: nat)
    requires i < |s.m.q| && |s.due| == |s.m.q|
  {
    s.m.q[i].active ==> w.at + w.l.distance <= s.due[i] || (s.m.startDuring && w.begun < s.due[i])
  }

  /** During a service that has reached the true tick `at`. */
  ghost predicate Serving(s: Sys, w: Work)
    requires |s.due| == |s.m.q|
  {
    && w.l.tick == Wrap(w.at) && w.l.left == w.begun - w.at && w.begun <= s.now
    && s.next <= w.at && s.base <= w.at
    && (forall i :: 0 <= i < |s.m.q| ==> DueIn(s, i, w.at))
    && (forall i :: 0 <= i < |s.m.q| ==> Served(s, w, i))
  }

  ghost predicate Good(s: Sys) {
    && |s.due| == |s.m.q| && Times(s)
    && match s.work {
         case None => Resting(s)
         case Some(w) => Serving(s, w)
       }
  }

  ghost predicate Init(s: Sys) {
    && |s.due| == |s.m.q| && s.m == Module(s.m.q, 0, 1, false, false, false) && s.work.None?
    && s.now == 0 && s.next == 1 && s.base == 0 && s.armed == 1
    && forall i :: 0 <= i < |s.m.q| ==> !s.m.q[i].active
  }

  // ---------------------------------------------------------------- 32-bit differences of true times

  lemma Difference(a: int, b: int)
    requires a <= b < a + TWO32
    ensures Wrap(Wrap(b) - Wrap(a)) == b - a
  {
  }

  lemma SameTick(a: int, b: int)
    requires a <= b < a + TWO32
    ensures Wrap(a) == Wrap(b) <==> a == b
  {
  }

  // ---------------------------------------------------------------- every step keeps the invariant

  /** An interrupt is taken for spurious exactly when the recorded next tick has not come yet. */
  lemma SpuriousIff(s: Sys, time: int)
    requires Times(s) && Prompt(s, time)
    ensures Spurious(s.m, Wrap(time)) <==> time < s.next
  {
    Difference(s.base, s.next);
    Difference(s.base, time);
  }

  lemma BeginGood(s: Sys, time: int)
    requires Good(s) && Enabled(s, Begin(time))
    ensures Good(BeginAt(s, time))
  {
    hide Wrap;
    SpuriousIff(s, time);
    var t := BeginAt(s, time);
    if t.work.Some? {
      Difference(s.next, time);
      var w := t.work.value;
      forall i | 0 <= i < |s.m.q| ensures DueIn(t, i, w.at) && Served(t, w, i) {
        assert DueIn(s, i, s.next);
      }
    } else {
      forall i | 0 <= i < |s.m.q| ensures DueIn(t, i, t.next) {
        assert DueIn(s, i, s.next);
      }
    }
  }

  /** One object across a walk at the true tick `at` which it is not before: it is called exactly at its due time. */
  lemma WalkOne(o: Clock, due: int, at: int, now: int)
    requires o.active && o.cur == Wrap(due) && at <= due < at + TWO32 && due < now + TWO32 && at <= now
    ensures Expires(o, Wrap(at)) <==> due == at
    ensures var o' := Serviced(o, Wrap(at));
            var due' := if due == at then due + o.period else due;
            o'.active ==>
              && o'.cur == Wrap(due') && at < due' < at + TWO32 && due' < now + TWO32
              && Ahead(o', Wrap(at)) == due' - at
  {
    SameTick(at, due);
    Sum(due, o.period);
    var due' := if due == at then due + o.period else due;
    if Serviced(o, Wrap(at)).active {
      Difference(at, due');
    }
  }

  lemma WalkGood(s: Sys)
    requires Good(s) && Enabled(s, Walk)
    ensures Good(WalkOnce(s))
    ensures var at := s.work.value.at + s.work.value.l.distance;
            forall i :: 0 <= i < |s.m.q| && s.m.q[i].active ==> (Expires(s.m.q[i], Wrap(at)) <==> s.due[i] == at)
  {
    hide Wrap, Walked, Distance, DueAfter;
    var w := s.work.value;
    var at := w.at + w.l.distance;
    var t := WalkOnce(s);
    TurnFields(w.l.(q := s.m.q));
    Sum(w.at, w.l.distance);
    DistanceIs(t.m.q, Wrap(at));
    var w' := t.work.value;
    assert w'.at == at && w'.l.distance == Distance(t.m.q, Wrap(at));
    forall i | 0 <= i < |s.m.q|
      ensures DueIn(t, i, at) && Served(t, w', i)
      ensures s.m.q[i].active ==> (Expires(s.m.q[i], Wrap(at)) <==> s.due[i] == at)
    {
      assert DueIn(s, i, w.at) && Served(s, w, i);
      assert t.m.q[i] == Serviced(s.m.q[i], Wrap(at));
      if s.m.q[i].active {
        WalkOne(s.m.q[i], s.due[i], at, s.now);
      }
    }
  }

  /** The distance the end of a service uses is no more than the way to any active timeout, all of which are still to come. */
  lemma FinishDistance(s: Sys, i: nat)
    requires Good(s) && Enabled(s, Finish) && i < |s.m.q| && s.m.q[i].active
    ensures var w := s.work.value;
            var distance := if s.m.startDuring then Distance(s.m.q, w.l.tick) else w.l.distance;
            && distance <= s.due[i] - w.at && w.begun < s.due[i]
            && (s.m.startDuring ==> Ahead(s.m.q[i], w.l.tick) == s.due[i] - w.at)
  {
    hide Wrap, Distance;
    var w := s.work.value;
    assert DueIn(s, i, w.at) && Served(s, w, i);
    Difference(w.at, s.due[i]);
    DistanceIs(s.m.q, w.l.tick);
  }

  /** If the distance is measured anew it is still more than the ticks left. */
  lemma FinishLeft(s: Sys)
    requires Good(s) && Enabled(s, Finish)
    ensures var w := s.work.value;
            var distance := if s.m.startDuring then Distance(s.m.q, w.l.tick) else w.l.distance;
            w.l.left < distance || distance == MAX32
  {
    hide Wrap, Distance;
    var w := s.work.value;
    DistanceIs(s.m.q, w.l.tick);
    if s.m.startDuring && Distance(s.m.q, w.l.tick) != MAX32 {
      var i :| 0 <= i < |s.m.q| && s.m.q[i].active && Distance(s.m.q, w.l.tick) == Ahead(s.m.q[i], w.l.tick);
      FinishDistance(s, i);
    }
  }

  lemma FinishGood(s: Sys, maxSkippable: U32)
    requires Good(s) && Enabled(s, Finish)
    ensures Good(FinishWith(s, maxSkippable))
  {
    var w := s.work.value;
    var t := FinishWith(s, maxSkippable);
    FinishLeft(s);
    var distance := if s.m.startDuring then Distance(s.m.q, w.l.tick) else w.l.distance;
    var skip := Skippable(distance, w.l.left, maxSkippable);
    assert 0 <= skip <= distance && skip < TWO32;
    hide Distance, Skippable, Wrap;
    Sum(w.at, skip);
    forall i | 0 <= i < |s.m.q| ensures DueIn(t, i, t.next) {
      assert DueIn(s, i, w.at);
      if s.m.q[i].active {
        FinishDistance(s, i);
      }
    }
  }

  lemma StartGood(s: Sys, i: nat, timeout: U32, time: int)
    requires Good(s) && Enabled(s, Start(i, timeout, time))
    ensures Good(StartAt(s, i, timeout, time))
    ensures s.work.None? && s.m.ticking ==>
              (Started(s.m, i, timeout, Wrap(time)).1.Some? <==> time + timeout < s.next)
  {
    hide Wrap;
    Sum(time, timeout);
    Difference(s.base, time);
    Difference(s.base, s.next);
    if time <= s.next {
      Difference(time, s.next);
    }
    var t := StartAt(s, i, timeout, time);
    match s.work {
      case None =>
        forall k | 0 <= k < |s.m.q| ensures DueIn(t, k, t.next) {
          assert DueIn(s, k, s.next);
        }
      case Some(w) =>
        forall k | 0 <= k < |s.m.q| ensures DueIn(t, k, w.at) && Served(t, w, k) {
          assert DueIn(s, k, w.at) && Served(s, w, k);
        }
    }
  }

  lemma StopGood(s: Sys, i: nat)
    requires Good(s) && i < |s.m.q|
    ensures Good(StopAt(s, i))
  {
    hide Wrap;
    var t := StopAt(s, i);
    match s.work {
      case None =>
        forall k | 0 <= k < |s.m.q| ensures DueIn(t, k, t.next) {
          assert DueIn(s, k, s.next);
        }
      case Some(w) =>
        forall k | 0 <= k < |s.m.q| ensures DueIn(t, k, w.at) && Served(t, w, k) {
          assert DueIn(s, k, w.at) && Served(s, w, k);
        }
    }
  }

  lemma NextGood(s: Sys, e: Event, s': Sys, maxSkippable: U32)
    requires Good(s) && Next(s, e, s', maxSkippable)
    ensures Good(s')
  {
    hide Good, BeginAt, WalkOnce, FinishWith, StartAt, StopAt;
    match e {
      case Begin(time) => BeginGood(s, time);
      case Walk => WalkGood(s);
      case Finish => FinishGood(s, maxSkippable);
      case Start(i, timeout, time) => StartGood(s, i, timeout, time);
      case Stop(i) => StopGood(s, i);
    }
  }

  // ---------------------------------------------------------------- runs

  ghost predicate Run(states: seq<Sys>, events: seq<Event>, maxSkippable: U32) {
    && |states| == |events| + 1 && Init(states[0])
    && forall i :: 0 <= i < |events| ==> Next(states[i], events[i], states[i + 1], maxSkippable)
  }

  lemma {:induction false} RunGood(states: seq<Sys>, events: seq<Event>, maxSkippable: U32)
    requires Run(states, events, maxSkippable)
    ensures Good(states[|events|])
    decreases |events|
  {
    if |events| > 0 {
      var n := |events| - 1;
      var ss, es := states[..n + 1], events[..n];
      forall i | 0 <= i < n ensures Next(ss[i], es[i], ss[i + 1], maxSkippable) {
        assert Next(states[i], events[i], states[i + 1], maxSkippable);
      }
      RunGood(ss, es, maxSkippable);
      assert Next(states[n], events[n], states[n + 1], maxSkippable);
      NextGood(states[n], events[n], states[n + 1], maxSkippable);
    } else {
      var s := states[0];
      forall i | 0 <= i < |s.m.q| ensures DueIn(s, i, s.next) {
      }
    }
  }

  /**
   No timeout is missed and none comes early: a service calls an object exactly in the walk of the true tick it is due
   at, and when the service ends every timeout that is still active lies after the time it began at.
   */
  lemma EveryTimeoutOnItsTick(states: seq<Sys>, events: seq<Event>, maxSkippable: U32)
    requires Run(states, events, maxSkippable)
    ensures var s := states[|events|];
            && |s.due| == |s.m.q|
            && (Enabled(s, Walk) ==>
                  var at := s.work.value.at + s.work.value.l.distance;
                  forall i :: 0 <= i < |s.m.q| && s.m.q[i].active ==> (Expires(s.m.q[i], Wrap(at)) <==> s.due[i] == at))
            && (Enabled(s, Finish) ==>
                  forall i :: 0 <= i < |s.m.q| && s.m.q[i].active ==> s.work.value.begun < s.due[i])
  {
    RunGood(states, events, maxSkippable);
    var s := states[|events|];
    if Enabled(s, Walk) {
      WalkGood(s);
    }
    if Enabled(s, Finish) {
      forall i | 0 <= i < |s.m.q| && s.m.q[i].active ensures s.work.value.begun < s.due[i] {
        FinishDistance(s, i);
      }
    }
  }

  /** Between services the recorded next tick is never later than the earliest active timeout. */
  lemma NextNeverLate(states: seq<Sys>, events: seq<Event>, maxSkippable: U32, i: nat)
    requires Run(states, events, maxSkippable) && states[|events|].work.None?
    requires i < |states[|events|].m.q| && states[|events|].m.q[i].active
    ensures var s := states[|events|];
            |s.due| == |s.m.q| && s.m.next == Wrap(s.next) && s.next <= s.due[i]
  {
    RunGood(states, events, maxSkippable);
    var s := states[|events|];
    assert DueIn(s, i, s.next);
  }

  // ---------------------------------------------------------------- the timer interrupt

  /** Some active object is due before the timer interrupt comes. */
  ghost predicate LateFor(s: Sys) {
    exists i :: 0 <= i < |s.m.q| && i < |s.due| && s.m.q[i].active && s.due[i] < s.armed
  }

  /** The two kinds of step that set, or leave, the interrupt too late. */
  ghost predicate LateStep(s: Sys, e: Event, maxSkippable: U32)
    requires |s.due| == |s.m.q|
  {
    match e
    case Finish =>
      s.work.Some? &&
      var w := s.work.value;
      && w.l.left + maxSkippable > MAX32
      && (s.m.startDuring ==> Distance(s.m.q, w.l.tick) == MAX32)
      && (!s.m.startDuring ==> w.l.distance == MAX32)
      && exists i :: 0 <= i < |s.m.q| && s.m.q[i].active && s.due[i] == w.at + MAX32
    case Start(i, timeout, time) => s.work.None? && s.m.ticking && s.next <= time + timeout < s.armed
    case _ => false
  }

  lemma SkippableIs(distance: U32, left: U32, maxSkippable: U32)
    requires left < distance || distance == MAX32
    ensures Skippable(distance, left, maxSkippable) <= maxSkippable
    ensures distance != MAX32 ==> Skippable(distance, left, maxSkippable) == Min(distance - left, maxSkippable)
    ensures distance == MAX32 ==> Skippable(distance, left, maxSkippable) == maxSkippable
  {
  }

  /**
   The interrupt is counted from the time the service began at, but for no object to wait for, ~0 stands in the
   distance. So the end of a service sets the interrupt too late exactly when that ~0 is a real distance and the ticks
   the service lagged behind, added to maxSkippable, exceed it.
   */
  lemma FinishLateIff(s: Sys, maxSkippable: U32)
    requires Good(s) && Enabled(s, Finish)
    ensures LateFor(FinishWith(s, maxSkippable)) <==> LateStep(s, Finish, maxSkippable)
  {
    hide Distance, Skippable, Wrap;
    var w := s.work.value;
    var t := FinishWith(s, maxSkippable);
    FinishLeft(s);
    var distance := if s.m.startDuring then Distance(s.m.q, w.l.tick) else w.l.distance;
    var skip := Skippable(distance, w.l.left, maxSkippable);
    SkippableIs(distance, w.l.left, maxSkippable);
    forall i | 0 <= i < |s.m.q| && s.m.q[i].active
      ensures distance <= s.due[i] - w.at < TWO32
    {
      FinishDistance(s, i);
      assert DueIn(s, i, w.at);
    }
    if LateFor(t) {
      var i :| 0 <= i < |t.m.q| && i < |t.due| && t.m.q[i].active && t.due[i] < t.armed;
      assert s.due[i] == w.at + MAX32;
    } else if exists i :: 0 <= i < |s.m.q| && s.m.q[i].active && s.due[i] == w.at + MAX32 {
      var i :| 0 <= i < |s.m.q| && s.m.q[i].active && s.due[i] == w.at + MAX32;
      assert t.due[i] >= t.armed;
    }
  }

  /**
   No tick more than needed is left in either: with the distance of the last walk still true, or measured anew, the
   interrupt is set for an active timeout itself, or as far ahead as the timer goes. The next tick is recorded as many
   ticks earlier as the service lagged behind.
   */
  lemma FinishExact(s: Sys, maxSkippable: U32)
    requires Good(s) && Enabled(s, Finish)
    requires s.m.startDuring || s.work.value.l.distance == Distance(s.m.q, s.work.value.l.tick)
    ensures var t := FinishWith(s, maxSkippable);
            var w := s.work.value;
            && t.armed <= w.begun + maxSkippable && t.next == t.armed - w.l.left
            && (t.armed == w.begun + maxSkippable || exists i :: 0 <= i < |t.m.q| && t.m.q[i].active && t.due[i] == t.armed)
  {
    hide Distance, Skippable, Wrap;
    var w := s.work.value;
    var t := FinishWith(s, maxSkippable);
    FinishLeft(s);
    var distance := Distance(s.m.q, w.l.tick);
    SkippableIs(distance, w.l.left, maxSkippable);
    DistanceIs(s.m.q, w.l.tick);
    if distance != MAX32 && Skippable(distance, w.l.left, maxSkippable) != maxSkippable {
      var i :| 0 <= i < |s.m.q| && s.m.q[i].active && distance == Ahead(s.m.q[i], w.l.tick);
      assert DueIn(s, i, w.at);
      Difference(w.at, s.due[i]);
      assert t.m.q[i].active && t.due[i] == t.armed;
    }
  }

  /**
   Because Clock_startI compares with the recorded next tick and not with the interrupt, a start between services sets
   no earlier interrupt for a timeout between the two; exactly then the interrupt comes too late for the new timeout.
   */
  lemma StartLateIff(s: Sys, i: nat, timeout: U32, time: int, maxSkippable: U32)
    requires Good(s) && s.work.None? && s.m.ticking && Enabled(s, Start(i, timeout, time))
    requires !LateFor(StopAt(s, i))
    ensures LateFor(StartAt(s, i, timeout, time)) <==> LateStep(s, Start(i, timeout, time), maxSkippable)
  {
    StartGood(s, i, timeout, time);
    var u, t := StopAt(s, i), StartAt(s, i, timeout, time);
    assert t.m.q[i].active && t.due[i] == time + timeout;
    forall k | 0 <= k < |s.m.q| && k != i && t.m.q[k].active ensures s.armed <= t.due[k] && s.next <= t.due[k] {
      assert u.m.q[k] == s.m.q[k] && u.due[k] == s.due[k] && t.due[k] == s.due[k];
      assert DueIn(s, k, s.next);
    }
  }

  /** Between services no interrupt is late; and before the first service, whose interrupt comes at tick 1, none is either. */
  ghost predicate InTime(s: Sys) {
    && (s.work.None? ==> !LateFor(s)) && 0 <= s.now
    && (!s.m.ticking ==> s.armed == 1 && forall i :: 0 <= i < |s.m.q| && i < |s.due| && s.m.q[i].active ==> 1 <= s.due[i])
  }

  lemma StepInTime(s: Sys, e: Event, s': Sys, maxSkippable: U32)
    requires Good(s) && InTime(s) && Next(s, e, s', maxSkippable) && !LateStep(s, e, maxSkippable)
    ensures InTime(s')
  {
    hide Wrap, Distance, Skippable;
    match e {
      case Begin(time) =>
      case Walk => WalkGood(s);
      case Finish => FinishLateIff(s, maxSkippable);
      case Start(i, timeout, time) =>
        StartsInTime(s, i, timeout, time, maxSkippable);
      case Stop(i) =>
    }
  }

  lemma StartsInTime(s: Sys, i: nat, timeout: U32, time: int, maxSkippable: U32)
    requires Good(s) && InTime(s) && Enabled(s, Start(i, timeout, time)) && !LateStep(s, Start(i, timeout, time), maxSkippable)
    ensures InTime(StartAt(s, i, timeout, time))
  {
    hide Wrap;
    if s.work.None? && s.m.ticking {
      StartLateIff(s, i, timeout, time, maxSkippable);
    }
  }

  /**
   Over a whole run: unless the run takes a step of one of the two kinds, at every point between services the timer
   interrupt comes no later than any active timeout.
   */
  lemma {:induction false} NeverLate(states: seq<Sys>, events: seq<Event>, maxSkippable: U32)
    requires Run(states, events, maxSkippable)
    requires forall i :: 0 <= i < |events| && |states[i].due| == |states[i].m.q| ==> !LateStep(states[i], events[i], maxSkippable)
    ensures InTime(states[|events|])
    decreases |events|
  {
    hide LateStep, Good;
    if |events| > 0 {
      var n := |events| - 1;
      var ss, es := states[..n + 1], events[..n];
      forall i | 0 <= i < n ensures Next(ss[i], es[i], ss[i + 1], maxSkippable) {
        assert Next(states[i], events[i], states[i + 1], maxSkippable);
      }
      assert Next(states[n], events[n], states[n + 1], maxSkippable);
      hide Next;
      NeverLate(ss, es, maxSkippable);
      RunGood(ss, es, maxSkippable);
      GoodSizes(states[n]);
      StepInTime(states[n], events[n], states[n + 1], maxSkippable);
    }
  }

  lemma GoodSizes(s: Sys)
    requires Good(s)
    ensures |s.due| == |s.m.q|
  {
  }

  /**
   It does happen. A service that begins two ticks late calls object 0 at tick 1 and sets the interrupt to tick 103, but
   records tick 101; object 1 started for tick 102 then gets its interrupt one tick late.
   */
  lemma LateInterrupt() returns (states: seq<Sys>, events: seq<Event>)
    ensures |states| == |events| + 1 && Run(states, events, 100)
    ensures states[|events|].work.None? && LateFor(states[|events|])
  {
    hide Run, Walked, Distance, DueAfter, Calls, Turn;
    var idle := Clock(false, 0, 0);
    var s0 := Sys(Module([idle, idle], 0, 1, false, false, false), None, [0, 0], 0, 1, 0, 1);
    states, events := Begun(s0, 100);
    var m := Module([Clock(true, 0, 1), idle], 0, 1, false, false, false);
    var s1 := Sys(m, None, [1, 0], 0, 1, 0, 1);
    assert StartAt(s0, 0, 1, 0) == s1;
    states, events := Extended(states, events, Start(0, 1, 0), s1, 100);
    var l := Loop(m.q, 1, 2, 0, []);
    var s2 := Sys(m.(inWorkFunc := true), Some(Work(l, 3, 1)), [1, 0], 3, 1, 0, 1);
    assert BeginAt(s1, 3) == s2;
    states, events := Extended(states, events, Begin(3), s2, 100);
    LateWalk(l);
    var q := [Clock(false, 0, 1), idle];
    var s3 := Sys(s2.m.(q := q), Some(Work(Loop(q, 1, 2, MAX32, [Call(1, 0)]), 3, 1)), [1, 0], 3, 1, 0, 1);
    assert WalkOnce(s2) == s3;
    states, events := Extended(states, events, Walk, s3, 100);
    var s4 := Sys(Module(q, 1, 101, true, false, false), None, [1, 0], 3, 101, 1, 103);
    assert FinishWith(s3, 100) == s4;
    states, events := Extended(states, events, Finish, s4, 100);
    var s5 := Sys(s4.m.(q := [q[0], Clock(true, 0, 102)]), None, [1, 102], 3, 101, 1, 103);
    assert StartAt(s4, 1, 99, 3) == s5;
    states, events := Extended(states, events, Start(1, 99, 3), s5, 100);
    assert s5.m.q[1].active && s5.due[1] < s5.armed;
  }

  lemma Begun(s: Sys, maxSkippable: U32) returns (states: seq<Sys>, events: seq<Event>)
    requires Init(s)
    ensures |states| == |events| + 1 && Run(states, events, maxSkippable) && states[|events|] == s
  {
    states, events := [s], [];
  }

  lemma Extended(states: seq<Sys>, events: seq<Event>, e: Event, s: Sys, maxSkippable: U32)
    returns (states': seq<Sys>, events': seq<Event>)
    requires |states| == |events| + 1 && Run(states, events, maxSkippable) && Next(states[|events|], e, s, maxSkippable)
    ensures |states'| == |events'| + 1 && Run(states', events', maxSkippable) && states'[|events'|] == s
  {
    states', events' := states + [s], events + [e];
    forall i | 0 <= i < |events'| ensures Next(states'[i], events'[i], states'[i + 1], maxSkippable) {
      if i < |events| {
        assert Next(states[i], events[i], states[i + 1], maxSkippable);
      }
    }
  }

  lemma LateWalk(l: Loop)
    requires l == Loop([Clock(true, 0, 1), Clock(false, 0, 0)], 1, 2, 0, [])
    ensures Turn(l) == Loop([Clock(false, 0, 1), Clock(false, 0, 0)], 1, 2, MAX32, [Call(1, 0)])
    ensures DueAfter(l.q, [1, 0], 1) == [1, 0]
  {
    var q := [Clock(false, 0, 1), Clock(false, 0, 0)];
    assert Walked(l.q, 1) == q;
    assert q[1..] == [Clock(false, 0, 0)];
    assert Distance(q[1..], 1) == MAX32;
    assert CallsFrom(l.q, 1, 2) == [];
    assert CallsFrom(l.q, 1, 1) == [];
    assert CallsFrom(l.q, 1, 0) == [Call(1, 0)];
  }
}
