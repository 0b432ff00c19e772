/**
 The clock queue of packages/ti/sysbios/knl/Clock.c in dynamic tick mode, on 32-bit ticks. The handlers a service
 calls are taken not to touch clock objects; which handlers are called, and at which tick, is recorded in a trace.
 */
module ClockQueue {
  import opened Base

  const TWO32: int := 0x1_0000_0000
  const MAX32: int := 0xFFFF_FFFF

  type U32 = x: int | 0 <= x < 0x1_0000_0000

  function Wrap(x: int): U32 {
    x % TWO32
  }

  /** A clock object: active, period and currTimeout. */
  datatype Clock = Clock(active: bool, period: U32, cur: U32)

  /** The handler of the object at `index` was called at `tick`. */
  datatype Call = Call(tick: U32, index: nat)

  predicate Expires(o: Clock, tick: U32) {
    o.active && o.cur == tick
  }

  /** What a service at `tick` does to one object. */
  function Serviced(o: Clock, tick: U32): Clock {
    if !Expires(o, tick) then o
    else if o.period == 0 then o.(active := false)
    else o.(cur := Wrap(o.cur + o.period))
  }

  function Walked(q: seq<Clock>, tick: U32): (r: seq<Clock>)
    ensures |r| == |q| && forall i :: 0 <= i < |q| ==> r[i] == Serviced(q[i], tick)
  {
    if q == [] then [] else [Serviced(q[0], tick)] + Walked(q[1..], tick)
  }

  /** The calls a walk makes, for the objects from the n-th on. */
  function CallsFrom(q: seq<Clock>, tick: U32, n: nat): seq<Call>
    requires n <= |q|
    decreases |q| - n
  {
    if n == |q| then []
    else (if Expires(q[n], tick) then [Call(tick, n)] else []) + CallsFrom(q, tick, n + 1)
  }

  function Calls(q: seq<Clock>, tick: U32): seq<Call> {
    CallsFrom(q, tick, 0)
  }

  /** How far ahead of `tick` the object's timeout lies. */
  function Ahead(o: Clock, tick: U32): U32 {
    Wrap(o.cur - tick)
  }

  function Min(a: int, b: int): int {
    if a < b then a else b
  }

  /** The distance a walk returns: the soonest active timeout, or ~0 if there is none. */
  function Distance(q: seq<Clock>, tick: U32): U32 {
    if q == [] then MAX32
    else if q[0].active then Min(Ahead(q[0], tick), Distance(q[1..], tick))
    else Distance(q[1..], tick)
  }

  lemma {:induction false} DistanceIs(q: seq<Clock>, tick: U32)
    ensures forall i :: 0 <= i < |q| && q[i].active ==> Distance(q, tick) <= Ahead(q[i], tick)
    ensures Distance(q, tick) == MAX32 || exists i :: 0 <= i < |q| && q[i].active && Distance(q, tick) == Ahead(q[i], tick)
  {
    if q != [] {
      var rest := q[1..];
      DistanceIs(rest, tick);
      forall i | 0 <= i < |q| && q[i].active ensures Distance(q, tick) <= Ahead(q[i], tick) {
        if i > 0 {
          assert q[i] == rest[i - 1];
        }
      }
      if Distance(q, tick) != MAX32 {
        if !(q[0].active && Distance(q, tick) == Ahead(q[0], tick)) {
          var i :| 0 <= i < |rest| && rest[i].active && Distance(rest, tick) == Ahead(rest[i], tick);
          assert q[i + 1] == rest[i];
        }
      }
    }
  }

  /** An object just serviced is never due at the same tick again. */
  lemma ServicedAhead(o: Clock, tick: U32)
    ensures Serviced(o, tick).active ==> Ahead(Serviced(o, tick), tick) >= 1
  {
  }

  /** So a walk that services always leaves at least one tick to skip to: the service loop cannot stand still. */
  lemma ServicedDistance(q: seq<Clock>, tick: U32)
    ensures Distance(Walked(q, tick), tick) >= 1
  {
    var r := Walked(q, tick);
    DistanceIs(r, tick);
    if Distance(r, tick) == 0 {
      var i :| 0 <= i < |r| && r[i].active && Distance(r, tick) == Ahead(r[i], tick);
      ServicedAhead(q[i], tick);
    }
  }

  // ---------------------------------------------------------------- every tick, one by one

  datatype Service = Service(q: seq<Clock>, calls: seq<Call>)

  /** The objects and the calls after n consecutive ticks from `tick` on have been walked (Clock_workFunc, lines 344-379). */
  function EveryTick(q: seq<Clock>, tick: U32, n: nat): Service
    decreases n
  {
    if n == 0 then Service(q, [])
    else
      var rest := EveryTick(Walked(q, tick), Wrap(tick + 1), n - 1);
      Service(rest.q, Calls(q, tick) + rest.calls)
  }

  // ---------------------------------------------------------------- the skipping loop

  /** The state of the service loop: serviceTick, ticksToService and distance, with the objects and the calls so far. */
  datatype Loop = Loop(q: seq<Clock>, tick: U32, left: U32, distance: U32, calls: seq<Call>)

  /** One turn of the loop in lines 499-503. */
  function Turn(l: Loop): Loop
    requires l.left >= l.distance
  {
    var tick := Wrap(l.tick + l.distance);
    var q := Walked(l.q, tick);
    Loop(q, tick, l.left - l.distance, Distance(q, tick), l.calls + Calls(l.q, tick))
  }

  /** The loop run to its end. */
  function Skipping(l: Loop): (r: Loop)
    ensures r.left < r.distance
    decreases l.left, if l.distance == 0 then 1 else 0
  {
    if l.left < l.distance then l
    else
      ServicedDistance(l.q, Wrap(l.tick + l.distance));
      Skipping(Turn(l))
  }

  // ---------------------------------------------------------------- the two agree

  /** No active object is due at the tick `k` after `tick`. */
  ghost predicate QuietAt(q: seq<Clock>, tick: U32, k: int) {
    forall i :: 0 <= i < |q| ==> !Expires(q[i], Wrap(tick + k))
  }

  lemma DistanceQuiet(q: seq<Clock>, tick: U32, k: int)
    requires 0 < k < Distance(q, tick)
    ensures QuietAt(q, tick, k)
  {
    DistanceIs(q, tick);
    forall i | 0 <= i < |q| ensures !Expires(q[i], Wrap(tick + k)) {
      if Expires(q[i], Wrap(tick + k)) {
        AheadOf(tick, k);
      }
    }
  }

  lemma AheadOf(tick: U32, k: int)
    requires 0 <= k < TWO32
    ensures Wrap(Wrap(tick + k) - tick) == k
  {
  }

  lemma {:induction false} QuietCalls(q: seq<Clock>, tick: U32, n: nat)
    requires n <= |q| && forall i :: 0 <= i < |q| ==> !Expires(q[i], tick)
    ensures CallsFrom(q, tick, n) == [] && Walked(q, tick) == q
    decreases |q| - n
  {
    if n < |q| {
      QuietCalls(q, tick, n + 1);
    }
  }

  /** Ticks before the distance do nothing. */
  lemma {:induction false} SkipQuiet(q: seq<Clock>, tick: U32, k: nat, quiet: nat, n: nat)
    requires 1 <= k && k + quiet <= Distance(q, tick) && quiet <= n
    ensures EveryTick(q, Wrap(tick + k), n) == EveryTick(q, Wrap(tick + k + quiet), n - quiet)
    decreases quiet
  {
    if quiet > 0 {
      DistanceQuiet(q, tick, k);
      QuietCalls(q, Wrap(tick + k), 0);
      assert Wrap(Wrap(tick + k) + 1) == Wrap(tick + (k + 1));
      SkipQuiet(q, tick, k + 1, quiet - 1, n - 1);
      assert tick + (k + 1) + (quiet - 1) == tick + k + quiet;
      assert (n - 1) - (quiet - 1) == n - quiet;
      var rest := EveryTick(q, Wrap(tick + (k + 1)), n - 1);
      assert EveryTick(q, Wrap(tick + k), n) == Service(rest.q, [] + rest.calls);
      assert [] + rest.calls == rest.calls;
    }
  }

  lemma EveryTickStep(q: seq<Clock>, tick: U32, n: nat)
    ensures var rest := EveryTick(Walked(q, tick), Wrap(tick + 1), n);
            EveryTick(q, tick, n + 1) == Service(rest.q, Calls(q, tick) + rest.calls)
    ensures EveryTick(q, tick, 0) == Service(q, [])
  {
  }

  lemma SkippingStep(l: Loop)
    ensures Skipping(l) == if l.left < l.distance then l else Skipping(Turn(l))
  {
  }

  lemma TurnFields(l: Loop)
    requires l.left >= l.distance
    ensures var t := Turn(l);
            && t.tick == Wrap(l.tick + l.distance) && t.left == l.left - l.distance && t.q == Walked(l.q, t.tick)
            && t.distance == Distance(t.q, t.tick) && t.distance >= 1 && t.calls == l.calls + Calls(l.q, t.tick)
  {
    ServicedDistance(l.q, Wrap(l.tick + l.distance));
  }

  /** The loop from l on makes the same calls as walking n ticks from `tick`, and ends with the true distance. */
  ghost predicate Agrees(l: Loop, tick: U32, n: nat) {
    var r, all := Skipping(l), EveryTick(l.q, tick, n);
    && r.q == all.q && r.calls == l.calls + all.calls
    && r.distance == Distance(r.q, r.tick)
    && r.tick == Wrap(l.tick + l.left - r.left) && r.left <= l.left
  }

  /** From a loop state whose distance is the true one, the loop does what walking every remaining tick does. */
  lemma {:induction false} SkippingIsEveryTick(l: Loop)
    requires l.distance >= 1 && l.distance == Distance(l.q, l.tick)
    ensures Agrees(l, Wrap(l.tick + 1), l.left)
    decreases l.left
  {
    hide Distance, Walked, Calls, EveryTick, Skipping, Turn;
    SkippingStep(l);
    if l.left < l.distance {
      SkipQuiet(l.q, l.tick, 1, l.left, l.left);
      EveryTickStep(l.q, Wrap(l.tick + 1 + l.left), 0);
      assert l.calls + [] == l.calls;
    } else {
      var d := l.distance;
      var next := Turn(l);
      TurnFields(l);
      SkippingIsEveryTick(next);
      SkipQuiet(l.q, l.tick, 1, d - 1, l.left);
      assert 1 + (d - 1) == d && l.left - (d - 1) == next.left + 1;
      assert EveryTick(l.q, Wrap(l.tick + 1), l.left) == EveryTick(l.q, next.tick, next.left + 1);
      EveryTickStep(l.q, next.tick, next.left);
      Joined(l, next, next.left);
    }
  }

  lemma Sum(a: int, b: int)
    ensures Wrap(Wrap(a) + b) == Wrap(a + b)
    ensures Wrap(Wrap(a) + Wrap(b)) == Wrap(a + b)
  {
  }

  lemma Joined(l: Loop, next: Loop, n: nat)
    requires Skipping(l) == Skipping(next) && Agrees(next, Wrap(next.tick + 1), n)
    requires next.calls == l.calls + Calls(l.q, next.tick) && next.q == Walked(l.q, next.tick)
    requires next.tick == Wrap(l.tick + l.distance) && next.left == l.left - l.distance
    ensures var r, all := Skipping(l), EveryTick(l.q, next.tick, n + 1);
            && r.q == all.q && r.calls == l.calls + all.calls
            && r.distance == Distance(r.q, r.tick) && r.tick == Wrap(l.tick + l.left - r.left) && r.left <= l.left
  {
    hide Distance, Walked, Calls, Skipping, EveryTick, Turn;
    EveryTickStep(l.q, next.tick, n);
    Sum(l.tick + l.distance, next.left - Skipping(l).left);
    hide Wrap;
    var rest := EveryTick(next.q, Wrap(next.tick + 1), n);
    assert (l.calls + Calls(l.q, next.tick)) + rest.calls == l.calls + (Calls(l.q, next.tick) + rest.calls);
  }

  /**
   The service of workFuncDynamic, which starts with distance 0 at nextScheduledTick, makes the same calls at the same
   ticks in the same order as walking every tick from there to the current one, and leaves the same objects.
   */
  lemma ServiceRefines(q: seq<Clock>, serviceTick: U32, ticksToService: U32)
    ensures var r := Skipping(Loop(q, serviceTick, ticksToService, 0, []));
            var all := EveryTick(q, serviceTick, ticksToService + 1);
            && r.q == all.q && r.calls == all.calls
            && r.distance == Distance(r.q, r.tick)
            && r.tick == Wrap(serviceTick + ticksToService - r.left) && r.left <= ticksToService
  {
    hide Distance, Walked, Calls, EveryTick, Skipping, Turn;
    var l := Loop(q, serviceTick, ticksToService, 0, []);
    SkippingStep(l);
    TurnFields(l);
    var first := Turn(l);
    assert first.tick == serviceTick;
    SkippingIsEveryTick(first);
    Joined(l, first, ticksToService);
    var all := EveryTick(q, serviceTick, ticksToService + 1);
    assert [] + all.calls == all.calls;
  }

  // ---------------------------------------------------------------- what follows the loop

  /** The values workFuncDynamic ends with: skippable, and nextTick. */
  function Skippable(distance: U32, left: U32, maxSkippable: U32): U32 {
    if distance == MAX32 then maxSkippable
    else if Wrap(distance - left) > maxSkippable then maxSkippable
    else Wrap(distance - left)
  }

  /** The module's fields besides the queue. */
  datatype Module = Module(q: seq<Clock>, ticks: U32, next: U32, ticking: bool, inWorkFunc: bool, startDuring: bool)

  /** Whether workFuncDynamic takes its interrupt for a spurious one (lines 485-492). */
  function Spurious(m: Module, now: U32): bool {
    Wrap(m.next - m.ticks) > Wrap(now - m.ticks)
  }

  /** Lines 508-533, after the loop has ended in l: the new module state, and the argument of setNextTick. */
  function Finished(m: Module, l: Loop, maxSkippable: U32): (Module, U32) {
    var distance := if m.startDuring then Distance(m.q, l.tick) else l.distance;
    var skippable := Skippable(distance, l.left, maxSkippable);
    (m.(next := Wrap(l.tick + skippable), ticking := true, inWorkFunc := false, ticks := l.tick), skippable)
  }

  /** Clock_startI in dynamic mode (lines 665-722): the new state, and the argument of setNextTick if it is called. */
  function Started(m: Module, i: nat, timeout: U32, now: U32): (Module, Option<U32>)
    requires i < |m.q|
  {
    var o := m.q[i].(active := true, cur := Wrap(now + timeout));
    var q := m.q[i := o];
    if m.ticking && !m.inWorkFunc && Wrap(now - m.ticks) <= Wrap(m.next - m.ticks) then
      if timeout < Wrap(m.next - now) then (m.(q := q, next := o.cur), Some(timeout))
      else (m.(q := q), None)
    else (m.(q := q, startDuring := m.startDuring || m.inWorkFunc), None)
  }
}
