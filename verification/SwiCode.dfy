/**
 The functions of packages/ti/sysbios/knl/Swi.c on the module's state. Swi_run is in two halves, before and after the call
 of the Swi's function; the saved locals of its activations are `frames`.
 */
module SwiCode {
  import opened Base
  import opened Bitmap
  import opened SwiScheduler

  class SwiModule {
    var readyQ: seq<seq<Sid>>
    var curSet: set<nat>
    var curQ: Option<nat>
    var curSwi: Option<Sid>
    var curTrigger: int
    var locked: bool
    var swis: seq<Swi>
    var frames: seq<Frame>

    ghost function S(): State
      reads this
    {
      State(readyQ, curSet, curQ, curSwi, curTrigger, locked, swis, frames)
    }

    constructor (numPriorities: nat, swis: seq<Swi>)
      requires forall t :: 0 <= t < |swis| ==> !swis[t].posted && swis[t].priority < numPriorities
      ensures Init(S())
    {
      this.swis := swis;
      readyQ := seq(numPriorities, i => []);
      curSet, curQ, curSwi, curTrigger, locked, frames := {}, None, None, 0, true, [];
    }

    /** Swi_post up to the call of Swi_schedule, and whether that call is made. */
    method Post(t: Sid) returns (schedule: bool)
      requires Good(S()) && t < |swis|
      modifies this
      ensures S() == SwiScheduler.Post(old(S()), t) && Good(S())
      ensures schedule <==> !old(locked) && locked
    {
      PostGood(S(), t);
      hide Index, Nested, Calm;
      if swis[t].posted {
        return false;
      }
      swis := swis[t := swis[t].(posted := true)];
      var swiKey := locked;
      locked := true;
      var p := swis[t].priority;
      readyQ := readyQ[p := readyQ[p] + [t]];
      curSet := curSet + {p};
      schedule := !swiKey;
    }

    /** Swi_run up to the call of the Swi's function, in a loop entered at level `entry`. */
    method RunEnter(t: Sid, entry: Option<nat>)
      requires t < |swis|
      modifies this`curQ, this`curSwi, this`curTrigger, this`swis, this`locked, this`frames
      ensures var x := old(swis[t]);
              S() == old(S()).(curQ := Some(x.priority), curSwi := Some(t), curTrigger := x.trigger, locked := false,
                               swis := old(swis)[t := x.(posted := false, trigger := x.initTrigger)],
                               frames := old(frames) + [Frame(t, entry, old(curQ), old(curSwi), old(curTrigger))])
    {
      frames := frames + [Frame(t, entry, curQ, curSwi, curTrigger)];
      curQ := Some(swis[t].priority);
      curSwi := Some(t);
      curTrigger := swis[t].trigger;
      swis := swis[t := swis[t].(trigger := swis[t].initTrigger)];
      swis := swis[t := swis[t].(posted := false)];
      locked := false;
    }

    /** One test of the loop of Swi_runLoop or Swi_restoreHwi: the next Swi starts, or the scheduler is unlocked. */
    method LoopTest(entry: Option<nat>) returns (runs: bool)
      requires Good(S())
      modifies this
      ensures S() == Settle(old(S()), entry)
    {
      Heads(S());
      hide Queues, Index, Nested, Calm;
      if curSet != {} {
        var maxQ := MaxBitOf(curSet);
        if entry.None? || maxQ > entry.value {
          var t := readyQ[maxQ][0];
          readyQ := readyQ[maxQ := readyQ[maxQ][1..]];
          if readyQ[maxQ] == [] {
            curSet := curSet - {swis[t].priority};
          }
          RunEnter(t, entry);
          return true;
        }
      }
      locked := false;
      return false;
    }

    /** The second half of Swi_run, and the next test of the loop it was called from. */
    method RunLeave() returns (runs: bool)
      requires Good(S()) && frames != []
      modifies this
      ensures S() == End(old(S())) && Good(S())
    {
      EndGood(S());
      PoppedGood(S());
      hide Queues, Index, Nested, Calm;
      var f := frames[|frames| - 1];
      locked := true;
      curQ := f.savedQ;
      curSwi := f.savedSwi;
      curTrigger := f.savedTrigger;
      frames := frames[..|frames| - 1];
      runs := LoopTest(f.entry);
    }
  }
}
