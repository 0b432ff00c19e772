/**
 What the operations of packages/ti/sysbios/knl/Task.c do to the tasks and to their order in the queues, and who runs
 after a change of priority.
 */
module TaskEffects {
  import opened Base
  import opened Bitmap
  import opened TaskScheduler

  /** The queues of all priorities, and the inactive one, are as before. */
  ghost predicate SameQueuesAs(s: State, u: State) {
    |u.readyQ| == |s.readyQ| && forall p :: -1 <= p < |s.readyQ| ==> QueueOf(u, p) == QueueOf(s, p)
  }

  /** All queues but the two of these priorities are as before. */
  ghost predicate OtherQueues(s: State, u: State, p: int, q: int) {
    |u.readyQ| == |s.readyQ| && forall r :: -1 <= r < |s.readyQ| && r != p && r != q ==> QueueOf(u, r) == QueueOf(s, r)
  }

  /**
   Task_setPri changes the priority of the task and nothing else about tasks. A ready task leaves its queue, whose other
   tasks keep their order, and joins that of its new priority: last, or first if it is the running one.
   */
  lemma SetPriMoves(s: State, t: Tid, priority: int)
    requires Good(s) && Has(s, t) && -1 <= priority < |s.readyQ|
    ensures var u := SetPri(s, t, priority);
            var before := s.tasks[t].priority;
            && u.tasks == s.tasks[t := s.tasks[t].(priority := priority)] && u.curTask == s.curTask && |u.readyQ| == |s.readyQ|
            && (s.tasks[t].mode.Ready? && priority != before ==>
                  && QueueOf(u, before) == Without(QueueOf(s, before), t)
                  && QueueOf(u, priority) == (if t == s.curTask then [t] + QueueOf(s, priority) else QueueOf(s, priority) + [t])
                  && OtherQueues(s, u, before, priority))
            && (!s.tasks[t].mode.Ready? || priority == before ==> SameQueuesAs(s, u))
  {
    assert s.tasks[t].priority == priority ==> s.tasks[t].(priority := priority) == s.tasks[t];
  }

  /** Blocking takes the task out of its queue. */
  lemma BlockMoves(s: State, t: Tid)
    requires Good(s) && Has(s, t) && s.tasks[t].mode.Ready?
    ensures var u := BlockI(s, t);
            var p := s.tasks[t].priority;
            && u.tasks == s.tasks[t := s.tasks[t].(mode := Blocked)] && u.curTask == s.curTask && |u.readyQ| == |s.readyQ|
            && QueueOf(u, p) == Without(QueueOf(s, p), t) && OtherQueues(s, u, p, p)
  {
  }

  /** Unblocking puts it last in the queue of its priority. */
  lemma UnblockMoves(s: State, t: Tid)
    requires Good(s) && Has(s, t) && s.tasks[t].mode.Blocked?
    ensures var u := UnblockI(s, t);
            var p := s.tasks[t].priority;
            && u.tasks == s.tasks[t := s.tasks[t].(mode := Ready)] && u.curTask == s.curTask && |u.readyQ| == |s.readyQ|
            && QueueOf(u, p) == QueueOf(s, p) + [t] && OtherQueues(s, u, p, p)
  {
  }

  /** A yield changes no task, and moves the running one from the head of its queue to the end. */
  lemma YieldMoves(s: State)
    requires Good(s)
    ensures var u := Yield(s);
            && u.tasks == s.tasks && u.curTask == s.curTask && |u.readyQ| == |s.readyQ|
            && (s.curQ.None? ==> SameQueuesAs(s, u))
            && (s.curQ.Some? ==>
                  && s.curQ.value < |s.readyQ| && s.readyQ[s.curQ.value] != [] && s.readyQ[s.curQ.value][0] == s.curTask
                  && QueueOf(u, s.curQ.value) == QueueOf(s, s.curQ.value)[1..] + [s.curTask]
                  && OtherQueues(s, u, s.curQ.value, s.curQ.value))
  {
  }

  /** A new task is ready with its priority, last of its queue. */
  lemma CreateMoves(s: State, t: Tid, priority: int)
    requires Good(s) && t < |s.tasks| && s.tasks[t].mode.Absent? && -1 <= priority < |s.readyQ|
    ensures var u := Create(s, t, priority);
            && u.tasks == s.tasks[t := Task(Ready, priority)] && u.curTask == s.curTask && |u.readyQ| == |s.readyQ|
            && QueueOf(u, priority) == QueueOf(s, priority) + [t] && OtherQueues(s, u, priority, priority)
  {
  }

  /** A deleted task is in no queue any more; the others keep their order. */
  lemma DeleteMoves(s: State, t: Tid)
    requires Good(s) && Has(s, t) && t != s.curTask
    ensures var u := Delete(s, t);
            var p := s.tasks[t].priority;
            && u.tasks == s.tasks[t := s.tasks[t].(mode := Absent)] && u.curTask == s.curTask && |u.readyQ| == |s.readyQ|
            && QueueOf(u, p) == (if s.tasks[t].mode.Ready? then Without(QueueOf(s, p), t) else QueueOf(s, p))
            && OtherQueues(s, u, p, p)
  {
  }

  lemma ExitMoves(s: State)
    requires Good(s) && Has(s, s.curTask) && s.tasks[s.curTask].mode.Ready?
    ensures var u := Exit(s);
            var p := s.tasks[s.curTask].priority;
            && u.tasks == s.tasks[s.curTask := s.tasks[s.curTask].(mode := Terminated)] && |u.readyQ| == |s.readyQ|
            && QueueOf(u, p) == Without(QueueOf(s, p), s.curTask) && OtherQueues(s, u, p, p)
  {
  }

  // ---------------------------------------------------------------- who runs after a change of priority

  /** The running task of a settled state is ready at the level curQ points to, the highest there is. */
  lemma Running(s: State)
    requires Good(s) && !s.workFlag
    ensures s.curQ.Some? && s.curQ.value < |s.readyQ| && s.tasks[s.curTask] == Task(Ready, s.curQ.value)
    ensures s.curQ.value in s.curSet && forall p :: p in s.curSet ==> p <= s.curQ.value
  {
    var c := s.curQ.value;
    assert Lists(s, c, s.curTask);
    assert s.curTask in QueueOf(s, c);
  }

  /** After a pass the running task is the head of the highest level. */
  lemma Dispatched(s: State, m: nat)
    requires Good(s) && m in s.curSet && forall b :: b in s.curSet ==> b <= m
    ensures m < |s.readyQ| && s.readyQ[m] != [] && Pass(s).curTask == s.readyQ[m][0]
  {
    MaxBitIs(s, m);
    PassGood(s);
    assert Cache(Pass(s)) && Settled(Pass(s)) && Index(s);
  }

  /** Where a change of priority leaves the levels, when t is ready: below or at the running one's, but for the new one. */
  lemma LevelsAfter(s: State, t: Tid, priority: int)
    requires Good(s) && !s.workFlag && Has(s, t) && s.tasks[t].mode.Ready? && -1 <= priority < |s.readyQ|
    ensures s.curQ.Some? && s.curQ.value < |s.readyQ|
    ensures var u := SetPri(s, t, priority);
            && Good(u) && (forall b :: b in u.curSet ==> b <= s.curQ.value || b == priority)
            && (priority >= 0 ==> priority in u.curSet && |u.readyQ| == |s.readyQ| && t in u.readyQ[priority])
  {
    SetPriGood(s, t, priority);
    SetPriMoves(s, t, priority);
    Running(s);
    var u := SetPri(s, t, priority);
    var before := s.tasks[t].priority;
    hide SetPri, Settled, Cache;
    forall b | b in u.curSet ensures b <= s.curQ.value || b == priority {
      assert QueueOf(u, b) == u.readyQ[b] != [] && QueueOf(s, b) == s.readyQ[b];
      if b != priority && b == before && priority != before {
        WithoutHead(s.readyQ[b], t);
        assert s.readyQ[b] != [];
      }
      assert b != priority ==> s.readyQ[b] != [] && b in s.curSet;
    }
    if priority >= 0 {
      assert Lists(u, priority, t);
      assert t in QueueOf(u, priority);
    }
  }

  lemma {:induction false} WithoutHead(q: seq<Tid>, t: Tid)
    ensures Without(q, t) != [] ==> q != []
    ensures q != [] && q[0] != t ==> Without(q, t) != [] && Without(q, t)[0] == q[0]
  {
  }

  /** A ready task that does not run preempts the running one exactly if its new priority is above that one's. */
  lemma SetPriPreempts(s: State, t: Tid, priority: int)
    requires Good(s) && !s.workFlag && Has(s, t) && t != s.curTask && s.tasks[t].mode.Ready? && -1 <= priority < |s.readyQ|
    ensures var u := SetPri(s, t, priority);
            && Good(u) && u.curSet != {}
            && Pass(u).curTask == if priority > s.tasks[s.curTask].priority then t else s.curTask
  {
    LevelsAfter(s, t, priority);
    SetPriMoves(s, t, priority);
    Running(s);
    var u := SetPri(s, t, priority);
    var c := s.curQ.value;
    hide SetPri, Queues, Settled;
    assert QueueOf(u, c) == u.readyQ[c] && QueueOf(s, c) == s.readyQ[c];
    WithoutHead(s.readyQ[c], t);
    assert u.readyQ[c] != [] && u.readyQ[c][0] == s.curTask;
    assert c in u.curSet;
    if priority > c {
      assert priority !in s.curSet && s.readyQ[priority] == [] && QueueOf(s, priority) == [];
      assert u.readyQ[priority] == QueueOf(u, priority) == [t];
      Dispatched(u, priority);
    } else {
      Dispatched(u, c);
    }
  }

  /**
   The running task that changes its own priority gives way exactly if a ready task is above the new one; and a task that
   makes itself inactive gives way if any task is ready.
   */
  lemma SetPriGivesWay(s: State, priority: int)
    requires Good(s) && !s.workFlag && Has(s, s.curTask) && -1 <= priority < |s.readyQ|
    ensures var u := SetPri(s, s.curTask, priority);
            && Good(u) && (priority >= 0 ==> u.curSet != {})
            && (u.curSet != {} ==>
                  (Pass(u).curTask != s.curTask <==>
                     priority < 0 || exists v :: 0 <= v < |s.tasks| && v != s.curTask && s.tasks[v].mode.Ready? && s.tasks[v].priority > priority))
  {
    Running(s);
    SetPriGood(s, s.curTask, priority);
    SetPriMoves(s, s.curTask, priority);
    LevelsAfter(s, s.curTask, priority);
    var u := SetPri(s, s.curTask, priority);
    hide SetPri;
    if u.curSet != {} {
      var m := Highest(u);
      Dispatched(u, m);
      var v := u.readyQ[m][0];
      assert v in QueueOf(u, m) && Lists(u, m, v);
      assert u.tasks[v] == Task(Ready, m);
      if priority >= 0 {
        assert m >= priority;
        if m == priority {
          assert QueueOf(u, priority) == u.readyQ[priority];
          assert priority != s.tasks[s.curTask].priority ==> u.readyQ[priority][0] == s.curTask;
          assert priority == s.tasks[s.curTask].priority ==> QueueOf(u, priority) == QueueOf(s, priority) == s.readyQ[priority];
          assert v == s.curTask;
          forall w | 0 <= w < |s.tasks| && w != s.curTask && s.tasks[w].mode.Ready? ensures s.tasks[w].priority <= priority {
            if s.tasks[w].priority >= 0 {
              assert Lists(u, s.tasks[w].priority, w);
              assert w in QueueOf(u, s.tasks[w].priority);
              assert s.tasks[w].priority in u.curSet;
            }
          }
        }
      }
    }
  }

  lemma Highest(s: State) returns (m: nat)
    requires Good(s) && s.curSet != {}
    ensures m in s.curSet && forall b :: b in s.curSet ==> b <= m
  {
    m := MaxBit(s.curSet);
  }
}
