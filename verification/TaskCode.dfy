/**
 The ready-list functions of packages/ti/sysbios/knl/Task.c on the module's state, each proved to be the step of the same
 name in TaskScheduler.
 */
module TaskCode {
  import opened Base
  import opened Bitmap
  import opened TaskScheduler

  // ---------------------------------------------------------------- Task_schedule with interrupts between its passes

  /** What an interrupt may do to tasks: make one ready, or change a priority to one that is not inactive. */
  predicate FromInterrupt(e: Event) {
    e.EUnblock? || (e.ESetPri? && e.priority >= 0)
  }

  /** The interrupts `es` may come one after the other in s. */
  ghost predicate Window(s: State, es: seq<Event>)
    decreases |es|
  {
    Good(s) && (es == [] || (FromInterrupt(es[0]) && Enabled(s, es[0]) && Window(Step(s, es[0]), es[1..])))
  }

  ghost function AfterWindow(s: State, es: seq<Event>): (r: State)
    requires Window(s, es)
    ensures Good(r) && (s.curSet != {} ==> r.curSet != {})
    decreases |es|
  {
    if es == [] then s
    else
      StaysReady(s, es[0]);
      AfterWindow(Step(s, es[0]), es[1..])
  }

  lemma StaysReady(s: State, e: Event)
    requires Good(s) && FromInterrupt(e) && Enabled(s, e)
    ensures s.curSet != {} ==> Step(s, e).curSet != {}
  {
    if s.curSet == {} {
    } else if e.ESetPri? {
      assert e.priority in Mask(e.priority);
    } else {
      var b :| b in s.curSet;
      assert b in Step(s, e).curSet;
    }
  }

  /** A pass switches tasks, and so enables interrupts, exactly if a queue above the current one has a task. */
  ghost predicate Switches(s: State)
    requires s.curSet != {}
  {
    s.curQ.None? || MaxBit(s.curSet) > s.curQ.value
  }

  /** The interrupts windows[0], windows[1], ... may come in the windows that Task_schedule opens. */
  ghost predicate Windows(s: State, windows: seq<seq<Event>>)
    requires Good(s) && s.curSet != {}
    decreases |windows|
  {
    windows == [] || !Switches(s) ||
    (PassGood(s);
     Window(Pass(s), windows[0]) &&
     var t := AfterWindow(Pass(s), windows[0]);
     t.workFlag ==> Windows(t, windows[1..]))
  }

  /** Passes and interrupts in turn, until a pass has left no work. */
  ghost function Scheduled(s: State, windows: seq<seq<Event>>): (r: State)
    requires Good(s) && s.curSet != {} && Windows(s, windows)
    ensures Good(r) && !r.workFlag
    decreases |windows|
  {
    PassGood(s);
    if windows == [] || !Switches(s) then Pass(s)
    else
      var t := AfterWindow(Pass(s), windows[0]);
      if t.workFlag then Scheduled(t, windows[1..]) else t
  }

  class TaskModule {
    var readyQ: seq<seq<Tid>>
    var inactiveQ: seq<Tid>
    var curSet: set<nat>
    var curQ: Option<nat>
    var curTask: Tid
    var workFlag: bool
    var tasks: seq<Task>

    ghost function S(): State
      reads this
    {
      State(readyQ, inactiveQ, curSet, curQ, curTask, workFlag, tasks)
    }

    constructor (numPriorities: nat, numTasks: nat)
      requires numTasks > 0
      ensures Init(S()) && |readyQ| == numPriorities && |tasks| == numTasks
    {
      readyQ := seq(numPriorities, i => []);
      inactiveQ, curSet, curQ, curTask, workFlag := [], {}, None, 0, true;
      tasks := seq(numTasks, i => Task(Absent, -1));
    }

    method Remove(t: Tid)
      requires Has(S(), t)
      modifies this`readyQ, this`inactiveQ, this`curSet
      ensures S() == Unlink(old(S()), t)
    {
      var p := tasks[t].priority;
      if p < 0 {
        inactiveQ := Without(inactiveQ, t);
        if inactiveQ == [] {
          curSet := curSet - Mask(p);
        }
      } else {
        readyQ := readyQ[p := Without(readyQ[p], t)];
        if readyQ[p] == [] {
          curSet := curSet - Mask(p);
        }
      }
    }

    /** Task_blockI. */
    method BlockI(t: Tid)
      requires Good(S()) && Has(S(), t) && tasks[t].mode.Ready?
      modifies this
      ensures S() == TaskScheduler.BlockI(old(S()), t) && Good(S())
    {
      BlockGood(S(), t);
      hide Good, Unlink;
      Remove(t);
      if curTask == t {
        curQ := None;
      }
      tasks := tasks[t := tasks[t].(mode := Blocked)];
      workFlag := true;
    }

    /** Task_unblockI. */
    method UnblockI(t: Tid)
      requires Good(S()) && Has(S(), t) && tasks[t].mode.Blocked?
      modifies this
      ensures S() == TaskScheduler.UnblockI(old(S()), t) && Good(S())
    {
      UnblockGood(S(), t);
      hide Good;
      var p := tasks[t].priority;
      if p < 0 {
        inactiveQ := inactiveQ + [t];
      } else {
        readyQ := readyQ[p := readyQ[p] + [t]];
      }
      curSet := curSet + Mask(p);
      tasks := tasks[t := tasks[t].(mode := Ready)];
      workFlag := true;
    }

    /** Task_setPri. */
    method SetPri(t: Tid, priority: int) returns (oldPri: int)
      requires Good(S()) && Has(S(), t) && -1 <= priority < |readyQ|
      modifies this
      ensures S() == TaskScheduler.SetPri(old(S()), t, priority) && Good(S())
      ensures oldPri == old(tasks[t].priority)
    {
      SetPriGood(S(), t, priority);
      hide Good, Unlink;
      oldPri := tasks[t].priority;
      if oldPri == priority {
        return;
      }
      if tasks[t].mode.Ready? {
        Remove(t);
        if curTask == t {
          curQ := if priority < 0 then None else Some(priority);
          if priority < 0 {
            inactiveQ := [t] + inactiveQ;
          } else {
            readyQ := readyQ[priority := [t] + readyQ[priority]];
          }
        } else {
          if priority < 0 {
            inactiveQ := inactiveQ + [t];
          } else {
            readyQ := readyQ[priority := readyQ[priority] + [t]];
          }
        }
        curSet := curSet + Mask(priority);
      }
      tasks := tasks[t := tasks[t].(priority := priority)];
      if priority < 0 {
        curQ := None;
      }
      workFlag := true;
    }

    /** Task_yield. */
    method Yield()
      requires Good(S())
      modifies this
      ensures S() == TaskScheduler.Yield(old(S())) && Good(S())
    {
      YieldGood(S());
      hide Queues, Index, Settled;
      if curQ.Some? {
        var q := readyQ[curQ.value];
        readyQ := readyQ[curQ.value := q[1..] + [q[0]]];
      }
      curQ := None;
      workFlag := true;
    }

    /** The ready-list part of Task_Instance_finalize. */
    method Delete(t: Tid)
      requires Good(S()) && Has(S(), t) && t != curTask
      modifies this
      ensures S() == TaskScheduler.Delete(old(S()), t) && Good(S())
    {
      DeleteGood(S(), t);
      hide Good, Unlink;
      if tasks[t].mode.Ready? {
        Remove(t);
      }
      tasks := tasks[t := tasks[t].(mode := Absent)];
    }

    /** Interrupts that come while they are enabled. */
    method Interrupts(es: seq<Event>)
      requires Window(S(), es)
      modifies this
      ensures S() == AfterWindow(old(S()), es)
    {
      ghost var all := AfterWindow(S(), es);
      var i := 0;
      assert es[0..] == es;
      while i < |es|
        invariant 0 <= i <= |es| && Window(S(), es[i..]) && AfterWindow(S(), es[i..]) == all
      {
        assert es[i..][0] == es[i] && es[i..][1..] == es[i + 1..];
        hide Good, TaskScheduler.UnblockI, TaskScheduler.SetPri;
        if es[i].EUnblock? {
          UnblockI(es[i].t);
        } else {
          var oldPri := SetPri(es[i].t, es[i].priority);
        }
        i := i + 1;
      }
    }

    /**
     Task_schedule, when a task is ready: `windows` are the interrupts that come while it has them enabled, in the order
     of its passes. It goes on while they leave work, and ends with the task that should run.
     */
    method Schedule(windows: seq<seq<Event>>)
      requires Good(S()) && curSet != {} && Windows(S(), windows)
      modifies this
      ensures S() == Scheduled(old(S()), windows) && Good(S())
      ensures Deserves(S(), curTask) && !workFlag
    {
      ghost var all := Scheduled(S(), windows);
      var rest := windows;
      var again := true;
      while again
        invariant again ==> Good(S()) && curSet != {} && Windows(S(), rest) && Scheduled(S(), rest) == all
        invariant !again ==> S() == all
        decreases |rest|, again
      {
        again := Turn(rest);
        if again {
          rest := rest[1..];
        }
      }
      DispatchedDeserves(S());
    }

    /** The body of the loop of Task_schedule: true if it goes round again. */
    method Turn(windows: seq<seq<Event>>) returns (again: bool)
      requires Good(S()) && curSet != {} && Windows(S(), windows)
      modifies this
      ensures again ==> windows != [] && Good(S()) && curSet != {} && Windows(S(), windows[1..])
                        && Scheduled(S(), windows[1..]) == Scheduled(old(S()), windows)
      ensures !again ==> S() == Scheduled(old(S()), windows)
    {
      PassGood(S());
      ghost var s := S();
      workFlag := false;
      var maxQ := MaxBitOf(curSet);
      if curQ.None? || maxQ > curQ.value {
        curQ := Some(maxQ);
        curTask := readyQ[maxQ][0];
        assert S() == Pass(s) && Switches(s);
        if windows != [] {
          Interrupts(windows[0]);
        }
      }
      return workFlag;
    }
  }
}
