/**
 The functions of packages/ti/sysbios/knl/Clock.c on the module's state. The timer is the argument nowTick of the
 functions that read it, and the field `programmed`: the ticks of the last setNextTick.
 */
module ClockCode {
  import opened Base
  import opened ClockQueue

  class ClockModule {
    const maxSkippable: U32
    var queue: seq<Clock>
    var ticks: U32
    var swiCount: U32
    var nextScheduledTick: U32
    var ticking: bool
    var inWorkFunc: bool
    var startDuringWorkFunc: bool
    var programmed: Option<U32>
    ghost var calls: seq<Call>          // the handlers called so far

    ghost function M(): Module
      reads this
    {
      Module(queue, ticks, nextScheduledTick, ticking, inWorkFunc, startDuringWorkFunc)
    }

    constructor (queue: seq<Clock>, maxSkippable: U32)
      ensures M() == Module(queue, 0, 1, false, false, false) && this.maxSkippable == maxSkippable && calls == []
    {
      this.queue, this.maxSkippable := queue, maxSkippable;
      ticks, nextScheduledTick, swiCount := 0, 1, 0;
      ticking, inWorkFunc, startDuringWorkFunc := false, false, false;
      programmed, calls := None, [];
    }

    /** Clock_walkQueueDynamic. */
    method WalkQueueDynamic(service: bool, thisTick: U32) returns (distance: U32)
      modifies this`queue, this`calls
      ensures queue == if service then Walked(old(queue), thisTick) else old(queue)
      ensures calls == if service then old(calls) + Calls(old(queue), thisTick) else old(calls)
      ensures distance == Distance(queue, thisTick)
    {
      hide CallsFrom, Walked, Distance, DistanceFrom;
      distance := MAX32;
      ghost var was, all := queue, if service then Walked(queue, thisTick) else queue;
      DistanceEnds(all, thisTick);
      CallsEnd(was, thisTick);
      assert old(calls) + Calls(was, thisTick) == calls + CallsFrom(was, thisTick, 0);
      var n := 0;
      while n < |queue|
        invariant n <= |queue| == |was| == |all|
        invariant forall i :: 0 <= i < n ==> queue[i] == all[i]
        invariant forall i :: n <= i < |was| ==> queue[i] == was[i]
        invariant service ==> calls + CallsFrom(was, thisTick, n) == old(calls) + Calls(was, thisTick)
        invariant !service ==> calls == old(calls)
        invariant Min(distance, DistanceFrom(all, thisTick, n)) == Distance(all, thisTick)
      {
        CallsNext(was, thisTick, n);
        DistanceNext(all, thisTick, n);
        if queue[n].active {
          if service {
            if queue[n].cur == thisTick {
              ghost var rest := CallsFrom(was, thisTick, n + 1);
              assert calls + ([Call(thisTick, n)] + rest) == (calls + [Call(thisTick, n)]) + rest;
              if queue[n].period == 0 {
                queue := queue[n := queue[n].(active := false)];
              } else {
                queue := queue[n := queue[n].(cur := Wrap(queue[n].cur + queue[n].period))];
              }
              calls := calls + [Call(thisTick, n)];
            }
          }
          if queue[n].active {
            var delta := Wrap(queue[n].cur - thisTick);
            if delta < distance {
              distance := delta;
            }
          }
        }
        n := n + 1;
      }
      assert queue == all;
    }

    /** Clock_workFunc: the periodic mode walks each of the swiCount ticks up to `ticks` in turn. */
    method WorkFunc()
      modifies this`queue, this`calls, this`swiCount
      ensures var all := EveryTick(old(queue), Wrap(ticks - old(swiCount) + 1), old(swiCount));
              queue == all.q && calls == old(calls) + all.calls
      ensures swiCount == 0
    {
      hide Calls, Walked, Distance, EveryTick;
      var count: int := swiCount;
      swiCount := 0;
      var compare: int := Wrap(ticks - count);
      ghost var start := Wrap(ticks - count + 1);
      assert Wrap(compare + 1) == start;
      ghost var all := EveryTick(queue, start, count);
      ghost var was := calls;
      while count != 0
        invariant 0 <= compare < TWO32 && 0 <= count && swiCount == 0 && ticks == old(ticks)
        invariant var rest := EveryTick(queue, Wrap(compare + 1), count);
                  rest.q == all.q && calls + rest.calls == was + all.calls
        decreases count
      {
        ghost var before := queue;
        ghost var left: nat := count - 1;
        assert Wrap(Wrap(compare + 1) + 1) == Wrap(compare + 2);
        EveryTickStep(queue, Wrap(compare + 1), left);
        compare := Wrap(compare + 1);
        count := count - 1;
        ghost var rest := EveryTick(Walked(before, compare), Wrap(compare + 1), left);
        assert (calls + Calls(before, compare)) + rest.calls == calls + (Calls(before, compare) + rest.calls);
        var _ := WalkQueueDynamic(true, compare);
      }
      EveryTickStep(queue, Wrap(compare + 1), 0);
      assert calls + [] == calls;
    }

    /** Clock_workFuncDynamic, when no clock is started while it runs. */
    method WorkFuncDynamic(nowTick: U32)
      modifies this
      ensures Spurious(old(M()), nowTick) ==>
                M() == old(M()).(startDuring := false, inWorkFunc := false) && calls == old(calls) && programmed == old(programmed)
      ensures !Spurious(old(M()), nowTick) ==>
                var m := old(M());
                var l := Skipping(Loop(m.q, m.next, Wrap(nowTick - m.next), 0, old(calls)));
                var f := Finished(m.(q := l.q, startDuring := false), l, maxSkippable);
                M() == f.0 && programmed == Some(f.1) && calls == l.calls
    {
      hide Calls, Walked, Distance, Skipping;
      inWorkFunc := true;
      startDuringWorkFunc := false;
      var serviceTick: U32 := nextScheduledTick;
      var ticksToService: U32 := Wrap(nowTick - serviceTick);
      var serviceDelta := Wrap(serviceTick - ticks);
      var nowDelta := Wrap(nowTick - ticks);
      if serviceDelta > nowDelta {
        inWorkFunc := false;
        return;
      }
      var distance: U32 := 0;
      ghost var l := Loop(queue, serviceTick, ticksToService, distance, calls);
      ghost var end := Skipping(l);
      ghost var m := M();
      while ticksToService >= distance
        invariant Skipping(Loop(queue, serviceTick, ticksToService, distance, calls)) == end
        invariant M() == m.(q := queue) && programmed == old(programmed)
        decreases ticksToService, if distance == 0 then 1 else 0
      {
        ghost var here := Loop(queue, serviceTick, ticksToService, distance, calls);
        SkippingStep(here);
        TurnFields(here);
        serviceTick := Wrap(serviceTick + distance);
        ticksToService := ticksToService - distance;
        distance := WalkQueueDynamic(true, serviceTick);
        assert Turn(here) == Loop(queue, serviceTick, ticksToService, distance, calls);
      }
      SkippingStep(Loop(queue, serviceTick, ticksToService, distance, calls));
      var skippable: U32;
      var nextTick: U32;
      if distance == MAX32 {
        skippable := maxSkippable;
        nextTick := Wrap(serviceTick + skippable);
      } else {
        skippable := Wrap(distance - ticksToService);
        if skippable > maxSkippable {
          skippable := maxSkippable;
        }
        nextTick := Wrap(serviceTick + skippable);
      }
      ScheduleNextTick(skippable, nextTick);
      ticking := true;
      inWorkFunc := false;
      ticks := serviceTick;
    }

    /** Clock_scheduleNextTick. */
    method ScheduleNextTick(deltaTicks: U32, absTick: U32)
      modifies this`programmed, this`nextScheduledTick
      ensures programmed == Some(deltaTicks) && nextScheduledTick == absTick
    {
      programmed := Some(deltaTicks);
      nextScheduledTick := absTick;
    }

    /** Clock_startI in dynamic mode. */
    method StartI(i: nat, timeout: U32, nowTick: U32)
      requires i < |queue|
      modifies this
      ensures var s := Started(old(M()), i, timeout, nowTick);
              M() == s.0 && programmed == if s.1.Some? then s.1 else old(programmed)
      ensures calls == old(calls)
    {
      var objectServiced := false;
      if ticking && !inWorkFunc {
        var nowDelta := Wrap(nowTick - ticks);
        var scheduledDelta := Wrap(nextScheduledTick - ticks);
        if nowDelta <= scheduledDelta {
          objectServiced := true;
          queue := queue[i := queue[i].(active := true, cur := Wrap(nowTick + timeout))];
          var scheduledTick := nextScheduledTick;
          var remainingTicks := Wrap(scheduledTick - nowTick);
          if timeout < remainingTicks {
            ScheduleNextTick(timeout, queue[i].cur);
          }
        }
      }
      if !objectServiced {
        queue := queue[i := queue[i].(active := true, cur := Wrap(nowTick + timeout))];
        if inWorkFunc {
          startDuringWorkFunc := true;
        }
      }
    }
  }

  // ---------------------------------------------------------------- the loop of a walk

  ghost function DistanceFrom(q: seq<Clock>, tick: U32, n: nat): U32
    requires n <= |q|
  {
    Distance(q[n..], tick)
  }

  lemma DistanceEnds(q: seq<Clock>, tick: U32)
    ensures DistanceFrom(q, tick, 0) == Distance(q, tick) && DistanceFrom(q, tick, |q|) == MAX32
  {
    assert q[0..] == q;
  }

  lemma DistanceNext(q: seq<Clock>, tick: U32, n: nat)
    requires n < |q|
    ensures DistanceFrom(q, tick, n) ==
            if q[n].active then Min(Ahead(q[n], tick), DistanceFrom(q, tick, n + 1)) else DistanceFrom(q, tick, n + 1)
  {
    assert q[n..][1..] == q[n + 1..];
  }

  lemma CallsNext(q: seq<Clock>, tick: U32, n: nat)
    requires n < |q|
    ensures CallsFrom(q, tick, n) == (if Expires(q[n], tick) then [Call(tick, n)] else []) + CallsFrom(q, tick, n + 1)
    ensures !Expires(q[n], tick) ==> CallsFrom(q, tick, n) == CallsFrom(q, tick, n + 1)
  {
    assert [] + CallsFrom(q, tick, n + 1) == CallsFrom(q, tick, n + 1);
  }

  lemma CallsEnd(q: seq<Clock>, tick: U32)
    ensures CallsFrom(q, tick, |q|) == []
  {
  }
}
