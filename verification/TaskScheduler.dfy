/**
 The ready lists of packages/ti/sysbios/knl/Task.c. Each operation is one region with interrupts disabled. A bitmap of
 priorities is the set of its bits; curQ, a pointer into the array of ready queues, is the index of its queue, so that
 comparing pointers is comparing priorities and NULL is below them all.
 */
module TaskScheduler {
  import opened Base
  import opened Bitmap

  type Tid = nat

  /** Ready includes the running task. Absent tasks have not been created yet or have been deleted. */
  datatype Mode = Ready | Blocked | Terminated | Absent

  datatype Task = Task(mode: Mode, priority: int)

  datatype State = State(
    readyQ: seq<seq<Tid>>,
    inactiveQ: seq<Tid>,
    curSet: set<nat>,
    curQ: Option<nat>,
    curTask: Tid,
    workFlag: bool,
    tasks: seq<Task>)

  /** tsk->mask: the bit of the priority, or no bit for an inactive task. */
  function Mask(priority: int): set<nat> {
    if priority < 0 then {} else {priority}
  }

  /** tsk->readyQ. */
  function QueueOf(s: State, priority: int): seq<Tid>
    requires priority < |s.readyQ|
  {
    if priority < 0 then s.inactiveQ else s.readyQ[priority]
  }

  function SetQueue(s: State, priority: int, q: seq<Tid>): State
    requires priority < |s.readyQ|
  {
    if priority < 0 then s.(inactiveQ := q) else s.(readyQ := s.readyQ[priority := q])
  }

  function SetTask(s: State, t: Tid, x: Task): State
    requires t < |s.tasks|
  {
    s.(tasks := s.tasks[t := x])
  }

  /** Task t exists and its priority is one the module has. */
  predicate Has(s: State, t: Tid) {
    t < |s.tasks| && -1 <= s.tasks[t].priority < |s.readyQ|
  }

  // ---------------------------------------------------------------- the operations

  /** Queue_remove, and the bit of the queue if that was its last task. */
  function Unlink(s: State, t: Tid): State
    requires Has(s, t)
  {
    var p := s.tasks[t].priority;
    var q := Without(QueueOf(s, p), t);
    SetQueue(s, p, q).(curSet := if q == [] then s.curSet - Mask(p) else s.curSet)
  }

  /** Task_blockI (lines 1362-1373). */
  function BlockI(s: State, t: Tid): State
    requires Has(s, t)
  {
    var u := Unlink(s, t);
    SetTask(u, t, s.tasks[t].(mode := Blocked)).(curQ := if s.curTask == t then None else s.curQ, workFlag := true)
  }

  /** Task_unblockI (lines 1413-1417). */
  function UnblockI(s: State, t: Tid): State
    requires Has(s, t)
  {
    var p := s.tasks[t].priority;
    SetTask(SetQueue(s, p, QueueOf(s, p) + [t]), t, s.tasks[t].(mode := Ready))
    .(curSet := s.curSet + Mask(p), workFlag := true)
  }

  /** Task_setPri (lines 1226-1274). */
  function SetPri(s: State, t: Tid, priority: int): State
    requires Has(s, t) && -1 <= priority < |s.readyQ|
  {
    var x := s.tasks[t];
    if x.priority == priority then s
    else
      var moved :=
        if x.mode.Ready? then
          var u := Unlink(s, t);
          var q := QueueOf(u, priority);
          var linked := SetQueue(u, priority, if s.curTask == t then [t] + q else q + [t]);
          linked.(curSet := u.curSet + Mask(priority), curQ := if s.curTask == t && priority >= 0 then Some(priority) else s.curQ)
        else s;
      SetTask(moved, t, x.(priority := priority))
      .(curQ := if priority < 0 then None else moved.curQ, workFlag := true)
  }

  /** Task_yield (lines 686-692). */
  function Yield(s: State): State
    requires s.curQ.Some? ==> s.curQ.value < |s.readyQ| && s.readyQ[s.curQ.value] != []
  {
    var rotated :=
      if s.curQ.Some? then
        var q := s.readyQ[s.curQ.value];
        s.(readyQ := s.readyQ[s.curQ.value := q[1..] + [q[0]]])
      else s;
    rotated.(curQ := None, workFlag := true)
  }

  /** The ready-list part of Task_Instance_finalize (lines 1017-1024), for a task that is not running. */
  function Delete(s: State, t: Tid): State
    requires Has(s, t)
  {
    var u := if s.tasks[t].mode.Ready? then Unlink(s, t) else s;
    SetTask(u, t, s.tasks[t].(mode := Absent))
  }

  /** Task_postInit (lines 959-973). */
  function Create(s: State, t: Tid, priority: int): State
    requires t < |s.tasks| && -1 <= priority < |s.readyQ|
  {
    var u := SetTask(s, t, Task(Ready, priority));
    if priority < 0 then u.(inactiveQ := s.inactiveQ + [t]) else UnblockI(u, t)
  }

  /** Task_exit (lines 541-543). */
  function Exit(s: State): State
    requires Has(s, s.curTask)
  {
    var u := BlockI(s, s.curTask);
    SetTask(u, s.curTask, u.tasks[s.curTask].(mode := Terminated))
  }

  /** One pass of the loop of Task_schedule, up to the point where interrupts are enabled (lines 96-111). */
  ghost function Pass(s: State): State
    requires s.curSet != {} && forall b :: b in s.curSet ==> b < |s.readyQ| && s.readyQ[b] != []
  {
    var maxQ := MaxBit(s.curSet);
    if s.curQ.None? || maxQ > s.curQ.value then
      s.(workFlag := false, curQ := Some(maxQ), curTask := s.readyQ[maxQ][0])
    else s.(workFlag := false)
  }

  // ---------------------------------------------------------------- the invariant

  /** Task t is in the queue of a priority, or in the inactive queue, exactly if it is ready with that priority. */
  ghost predicate Lists(s: State, p: int, t: Tid)
    requires -1 <= p < |s.readyQ|
  {
    t in QueueOf(s, p) <==> t < |s.tasks| && s.tasks[t] == Task(Ready, p)
  }

  /** Every ready task is in its queue, once, and in no other. */
  ghost predicate Queues(s: State) {
    && (forall t :: 0 <= t < |s.tasks| ==> -1 <= s.tasks[t].priority < |s.readyQ|)
    && (forall p :: -1 <= p < |s.readyQ| ==> Distinct(QueueOf(s, p)))
    && (forall p, t: Tid :: -1 <= p < |s.readyQ| ==> Lists(s, p, t))
  }

  /** Bit p of curSet is set exactly when the ready queue of priority p is not empty. */
  ghost predicate Index(s: State) {
    forall p: nat :: p in s.curSet <==> p < |s.readyQ| && s.readyQ[p] != []
  }

  /** curQ is NULL or the ready queue whose head is curTask. */
  ghost predicate Cache(s: State) {
    s.curQ.Some? ==> s.curQ.value < |s.readyQ| && s.readyQ[s.curQ.value] != [] && s.readyQ[s.curQ.value][0] == s.curTask
  }

  /** With no work pending, the highest non-empty queue is the current one. */
  ghost predicate Settled(s: State) {
    !s.workFlag ==> s.curQ.Some? && forall p :: p in s.curSet ==> p <= s.curQ.value
  }

  ghost predicate Good(s: State) {
    s.curTask < |s.tasks| && Queues(s) && Index(s) && Cache(s) && Settled(s)
  }

  /** The task that should run: the first ready task, in FIFO order, of the highest priority that has any. */
  ghost predicate Deserves(s: State, t: Tid) {
    exists p :: 0 <= p < |s.readyQ| && s.readyQ[p] != [] && t == s.readyQ[p][0]
                && forall r :: p < r < |s.readyQ| ==> s.readyQ[r] == []
  }

  /** When Task_schedule ends with workFlag clear the running task is the one that should run. */
  lemma DispatchedDeserves(s: State)
    requires Good(s) && !s.workFlag
    ensures Deserves(s, s.curTask) && s.tasks[s.curTask].mode.Ready?
    ensures forall t :: 0 <= t < |s.tasks| && s.tasks[t].mode.Ready? ==> s.tasks[t].priority <= s.tasks[s.curTask].priority
  {
    var p := s.curQ.value;
    assert Lists(s, p, s.curTask);
    assert s.curTask in QueueOf(s, p);
    forall r | p < r < |s.readyQ| ensures s.readyQ[r] == [] {
      assert r !in s.curSet;
    }
    forall t: Tid | t < |s.tasks| && s.tasks[t].mode.Ready? ensures s.tasks[t].priority <= p {
      var r := s.tasks[t].priority;
      if r >= 0 {
        assert Lists(s, r, t);
        assert r in s.curSet;
      }
    }
  }

  // ---------------------------------------------------------------- every operation keeps it

  /** One queue replaced: the others are the same, and the bit follows. */
  lemma Replaced(s: State, p: int, q: seq<Tid>, bits: set<nat>)
    requires -1 <= p < |s.readyQ| && Index(s)
    requires bits == if q == [] then s.curSet - Mask(p) else s.curSet + Mask(p)
    ensures var u := SetQueue(s, p, q);
            && |u.readyQ| == |s.readyQ| && u == s.(readyQ := u.readyQ, inactiveQ := u.inactiveQ)
            && QueueOf(u, p) == q
            && forall r :: -1 <= r < |s.readyQ| && r != p ==> QueueOf(u, r) == QueueOf(s, r)
    ensures Index(SetQueue(s, p, q).(curSet := bits))
  {
  }

  /** Unlinking a ready task leaves every other task where it is, and no other head changes. */
  lemma UnlinkKeeps(s: State, t: Tid)
    requires Queues(s) && Index(s) && Has(s, t) && s.tasks[t].mode.Ready?
    ensures var u := Unlink(s, t);
            && |u.readyQ| == |s.readyQ| && u == s.(readyQ := u.readyQ, inactiveQ := u.inactiveQ, curSet := u.curSet)
            && Index(u)
            && (forall p :: -1 <= p < |s.readyQ| ==> Distinct(QueueOf(u, p)))
            && (forall p, v: Tid :: -1 <= p < |s.readyQ| ==> (v in QueueOf(u, p) <==> v in QueueOf(s, p) && v != t))
            && (forall p :: 0 <= p < |s.readyQ| && s.readyQ[p] != [] && s.readyQ[p][0] != t ==>
                  u.readyQ[p] != [] && u.readyQ[p][0] == s.readyQ[p][0])
  {
    var p := s.tasks[t].priority;
    assert Lists(s, p, t);
    var was := QueueOf(s, p);
    var q := Without(was, t);
    WithoutMembers(was, t);
    var u := Unlink(s, t);
    assert was != [] && (p >= 0 ==> p in s.curSet);
    var bits := if q == [] then s.curSet - Mask(p) else s.curSet + Mask(p);
    assert q != [] ==> s.curSet + Mask(p) == s.curSet;
    Replaced(s, p, q, bits);
    assert u == SetQueue(s, p, q).(curSet := bits);
    hide SetQueue, Unlink, Index;
    forall r | -1 <= r < |s.readyQ| ensures Distinct(QueueOf(u, r)) {
      assert QueueOf(u, r) == QueueOf(SetQueue(s, p, q), r);
    }
    forall r, v: Tid | -1 <= r < |s.readyQ| ensures v in QueueOf(u, r) <==> v in QueueOf(s, r) && v != t {
      assert QueueOf(u, r) == QueueOf(SetQueue(s, p, q), r);
      assert Lists(s, r, t);
    }
    forall r | 0 <= r < |s.readyQ| && s.readyQ[r] != [] && s.readyQ[r][0] != t
      ensures u.readyQ[r] != [] && u.readyQ[r][0] == s.readyQ[r][0]
    {
      assert QueueOf(u, r) == QueueOf(SetQueue(s, p, q), r);
    }
  }

  /** The head of the current queue survives unless it is the task unlinked. */
  lemma UnlinkCache(s: State, t: Tid)
    requires Good(s) && Has(s, t) && s.tasks[t].mode.Ready? && (s.curQ.Some? ==> t != s.curTask)
    ensures Cache(Unlink(s, t))
  {
    UnlinkKeeps(s, t);
    hide Unlink;
  }

  /** An unlinked task may take any mode but Ready. */
  lemma UnlinkedQueues(s: State, t: Tid, x: Task)
    requires Queues(s) && Index(s) && Has(s, t) && s.tasks[t].mode.Ready?
    requires !x.mode.Ready? && -1 <= x.priority < |s.readyQ|
    ensures Queues(SetTask(Unlink(s, t), t, x)) && Index(SetTask(Unlink(s, t), t, x))
  {
    UnlinkKeeps(s, t);
    var u := Unlink(s, t);
    hide Unlink;
    var r := SetTask(u, t, x);
    forall p, v: Tid | -1 <= p < |r.readyQ| ensures Lists(r, p, v) {
      assert Lists(s, p, v);
      assert QueueOf(r, p) == QueueOf(u, p);
    }
    forall p | -1 <= p < |r.readyQ| ensures Distinct(QueueOf(r, p)) {
      assert QueueOf(r, p) == QueueOf(u, p);
    }
  }

  /** A task that is in no queue put at either end of the queue of its new priority. */
  lemma LinkedQueues(s: State, t: Tid, priority: int, q: seq<Tid>)
    requires -1 <= priority < |s.readyQ| && t < |s.tasks| && !s.tasks[t].mode.Ready? && Queues(s) && Index(s)
    requires q == QueueOf(s, priority) + [t] || q == [t] + QueueOf(s, priority)
    ensures var r := SetTask(SetQueue(s, priority, q), t, Task(Ready, priority)).(curSet := s.curSet + Mask(priority));
            Queues(r) && Index(r)
  {
    var was := QueueOf(s, priority);
    var u := SetQueue(s, priority, q);
    var r := SetTask(u, t, Task(Ready, priority)).(curSet := s.curSet + Mask(priority));
    assert Lists(s, priority, t);
    assert Distinct(was);
    assert Distinct(q) && forall v :: v in q <==> v in was || v == t;
    Replaced(s, priority, q, s.curSet + Mask(priority));
    hide SetQueue, Index;
    assert Index(r) by {
      SameIndex(u.(curSet := s.curSet + Mask(priority)), r);
    }
    forall p, v: Tid | -1 <= p < |r.readyQ| ensures Lists(r, p, v) {
      assert Lists(s, p, v);
      assert QueueOf(r, p) == QueueOf(u, p);
    }
    forall p | -1 <= p < |r.readyQ| ensures Distinct(QueueOf(r, p)) {
      assert Distinct(QueueOf(s, p));
      assert QueueOf(r, p) == QueueOf(u, p);
    }
  }

  lemma SameIndex(s: State, r: State)
    requires Index(s) && r.readyQ == s.readyQ && r.curSet == s.curSet
    ensures Index(r)
  {
  }

  lemma SameQueues(s: State, r: State)
    requires Queues(s) && r.readyQ == s.readyQ && r.inactiveQ == s.inactiveQ && r.tasks == s.tasks
    ensures Queues(r)
  {
    forall p, v: Tid | -1 <= p < |r.readyQ| ensures Lists(r, p, v) {
      assert Lists(s, p, v);
      assert QueueOf(r, p) == QueueOf(s, p);
    }
    forall p | -1 <= p < |r.readyQ| ensures Distinct(QueueOf(r, p)) {
      assert Distinct(QueueOf(s, p));
      assert QueueOf(r, p) == QueueOf(s, p);
    }
  }

  /** A task that is in no queue may change its mode, unless to Ready, and its priority. */
  lemma ChangedTask(s: State, t: Tid, x: Task)
    requires Queues(s) && t < |s.tasks| && !s.tasks[t].mode.Ready? && !x.mode.Ready? && -1 <= x.priority < |s.readyQ|
    ensures Queues(SetTask(s, t, x))
  {
    var r := SetTask(s, t, x);
    forall p, v: Tid | -1 <= p < |r.readyQ| ensures Lists(r, p, v) {
      assert Lists(s, p, v);
      assert QueueOf(r, p) == QueueOf(s, p);
    }
    forall p | -1 <= p < |r.readyQ| ensures Distinct(QueueOf(r, p)) {
      assert Distinct(QueueOf(s, p));
      assert QueueOf(r, p) == QueueOf(s, p);
    }
  }

  lemma BlockGood(s: State, t: Tid)
    requires Good(s) && Has(s, t) && s.tasks[t].mode.Ready?
    ensures Good(BlockI(s, t))
  {
    UnlinkKeeps(s, t);
    UnlinkedQueues(s, t, s.tasks[t].(mode := Blocked));
    if s.curQ.Some? && s.curTask != t {
      UnlinkCache(s, t);
    }
    var u := SetTask(Unlink(s, t), t, s.tasks[t].(mode := Blocked));
    hide Unlink;
    SameQueues(u, BlockI(s, t));
    SameIndex(u, BlockI(s, t));
    hide Queues, Index;
  }

  lemma UnblockGood(s: State, t: Tid)
    requires Good(s) && Has(s, t) && s.tasks[t].mode.Blocked?
    ensures Good(UnblockI(s, t))
  {
    LinkGood(s, t, s.tasks[t].priority);
    assert UnblockI(s, t) == Linked(s, t, s.tasks[t].priority).(workFlag := true);
    SameQueues(Linked(s, t, s.tasks[t].priority), UnblockI(s, t));
    SameIndex(Linked(s, t, s.tasks[t].priority), UnblockI(s, t));
    hide Queues, Index, Linked;
  }

  /** Task t put at the end of the queue of its priority. */
  ghost function Linked(s: State, t: Tid, priority: int): State
    requires -1 <= priority < |s.readyQ| && t < |s.tasks|
  {
    SetTask(SetQueue(s, priority, QueueOf(s, priority) + [t]), t, Task(Ready, priority)).(curSet := s.curSet + Mask(priority))
  }

  lemma LinkGood(s: State, t: Tid, priority: int)
    requires Good(s) && -1 <= priority < |s.readyQ| && t < |s.tasks| && !s.tasks[t].mode.Ready?
    ensures var r := Linked(s, t, priority);
            && Queues(r) && Index(r) && Cache(r) && |r.tasks| == |s.tasks| && r.curTask == s.curTask
            && r.curQ == s.curQ && r.workFlag == s.workFlag && (priority < 0 ==> r.curSet == s.curSet)
  {
    LinkedQueues(s, t, priority, QueueOf(s, priority) + [t]);
    hide Queues, Index;
  }

  lemma CreateGood(s: State, t: Tid, priority: int)
    requires Good(s) && t < |s.tasks| && s.tasks[t].mode.Absent? && -1 <= priority < |s.readyQ|
    ensures Good(Create(s, t, priority))
  {
    LinkGood(s, t, priority);
    var r, c := Linked(s, t, priority), Create(s, t, priority);
    assert c.readyQ == r.readyQ && c.inactiveQ == r.inactiveQ && c.tasks == r.tasks && c.curSet == r.curSet;
    assert c.curQ == r.curQ && c.curTask == r.curTask;
    SameQueues(r, c);
    SameIndex(r, c);
    hide Queues, Index, Linked;
  }

  lemma DeleteGood(s: State, t: Tid)
    requires Good(s) && Has(s, t) && t != s.curTask
    ensures Good(Delete(s, t))
  {
    var x := s.tasks[t].(mode := Absent);
    if s.tasks[t].mode.Ready? {
      UnlinkKeeps(s, t);
      UnlinkedQueues(s, t, x);
      UnlinkCache(s, t);
      UnlinkBits(s, t);
    } else {
      ChangedTask(s, t, x);
    }
    hide Unlink, Queues;
  }

  lemma UnlinkBits(s: State, t: Tid)
    requires Has(s, t)
    ensures Unlink(s, t).curSet <= s.curSet
  {
  }

  lemma ExitGood(s: State)
    requires Good(s) && Has(s, s.curTask) && s.tasks[s.curTask].mode.Ready?
    ensures Good(Exit(s))
  {
    var t := s.curTask;
    UnlinkKeeps(s, t);
    UnlinkedQueues(s, t, s.tasks[t].(mode := Terminated));
    var u := SetTask(Unlink(s, t), t, s.tasks[t].(mode := Terminated));
    assert Exit(s) == u.(curQ := None, workFlag := true);
    hide Unlink;
    SameQueues(u, Exit(s));
    SameIndex(u, Exit(s));
    hide Queues, Index;
  }

  lemma YieldGood(s: State)
    requires Good(s)
    ensures Good(Yield(s))
  {
    var y := Yield(s);
    if s.curQ.Some? {
      var c := s.curQ.value;
      var q := s.readyQ[c];
      assert Distinct(QueueOf(s, c));
      PopMembers(q);
      AppendDistinct(q[1..], q[0]);
      forall p, v: Tid | -1 <= p < |y.readyQ| ensures Lists(y, p, v) {
        assert Lists(s, p, v);
        assert p != c ==> QueueOf(y, p) == QueueOf(s, p);
      }
      forall p | -1 <= p < |y.readyQ| ensures Distinct(QueueOf(y, p)) {
        assert Distinct(QueueOf(s, p));
        assert p != c ==> QueueOf(y, p) == QueueOf(s, p);
      }
    } else {
      SameQueues(s, y);
    }
    hide Queues;
  }

  lemma SetPriGood(s: State, t: Tid, priority: int)
    requires Good(s) && Has(s, t) && -1 <= priority < |s.readyQ|
    ensures Good(SetPri(s, t, priority))
  {
    var x := s.tasks[t];
    var r := SetPri(s, t, priority);
    if x.mode.Ready? {
      if x.priority != priority {
        SetPriReady(s, t, priority);
      }
    } else if x.priority != priority {
      ChangedTask(s, t, x.(priority := priority));
      SameQueues(SetTask(s, t, x.(priority := priority)), r);
      SameIndex(s, r);
      hide Queues, Index;
    }
  }

  lemma SetPriReady(s: State, t: Tid, priority: int)
    requires Good(s) && Has(s, t) && -1 <= priority < |s.readyQ|
    requires s.tasks[t].mode.Ready? && s.tasks[t].priority != priority
    ensures Good(SetPri(s, t, priority))
  {
    var off := s.tasks[t].(mode := Blocked);
    UnlinkKeeps(s, t);
    UnlinkedQueues(s, t, off);
    if s.curQ.Some? && s.curTask != t {
      UnlinkCache(s, t);
    }
    var u := Unlink(s, t);
    var v := SetTask(u, t, off);
    hide Unlink;
    var q := if s.curTask == t then [t] + QueueOf(u, priority) else QueueOf(u, priority) + [t];
    assert QueueOf(v, priority) == QueueOf(u, priority);
    LinkedQueues(v, t, priority, q);
    var w := SetTask(SetQueue(v, priority, q), t, Task(Ready, priority)).(curSet := v.curSet + Mask(priority));
    var r := SetPri(s, t, priority);
    hide Queues, Index;
    assert r.tasks == w.tasks;
    assert r.readyQ == w.readyQ && r.inactiveQ == w.inactiveQ && r.curSet == w.curSet;
    SameQueues(w, r);
    SameIndex(w, r);
    assert Cache(r);
  }

  lemma PassGood(s: State)
    requires Good(s) && s.curSet != {}
    ensures Good(Pass(s)) && !Pass(s).workFlag
  {
    var p := MaxBit(s.curSet);
    var t := s.readyQ[p][0];
    assert Lists(s, p, t);
    assert t in QueueOf(s, p);
    SameQueues(s, Pass(s));
    SameIndex(s, Pass(s));
  }

  // ---------------------------------------------------------------- runs

  datatype Event =
    | EBlock(t: Tid)
    | EUnblock(t: Tid)
    | ESetPri(t: Tid, priority: int)
    | EYield
    | ECreate(t: Tid, priority: int)
    | EDelete(t: Tid)
    | EExit
    | EPass                              // one pass of Task_schedule; between two of them interrupts may do the rest

  /** What the callers see to: the mode of the task operated on, and that the running task is not deleted. */
  ghost predicate Enabled(s: State, e: Event) {
    match e
    case EBlock(t) => Has(s, t) && s.tasks[t].mode.Ready?
    case EUnblock(t) => Has(s, t) && s.tasks[t].mode.Blocked?
    case ESetPri(t, priority) => Has(s, t) && !s.tasks[t].mode.Absent? && -1 <= priority < |s.readyQ|
    case EYield => true
    case ECreate(t, priority) => t < |s.tasks| && s.tasks[t].mode.Absent? && -1 <= priority < |s.readyQ|
    case EDelete(t) => Has(s, t) && t != s.curTask && !s.tasks[t].mode.Absent?
    case EExit => Has(s, s.curTask) && s.tasks[s.curTask].mode.Ready?
    case EPass => s.curSet != {}
  }

  ghost function Step(s: State, e: Event): State
    requires Good(s) && Enabled(s, e)
  {
    match e
    case EBlock(t) => BlockI(s, t)
    case EUnblock(t) => UnblockI(s, t)
    case ESetPri(t, priority) => SetPri(s, t, priority)
    case EYield => Yield(s)
    case ECreate(t, priority) => Create(s, t, priority)
    case EDelete(t) => Delete(s, t)
    case EExit => Exit(s)
    case EPass => Pass(s)
  }

  lemma StepGood(s: State, e: Event)
    requires Good(s) && Enabled(s, e)
    ensures Good(Step(s, e))
  {
    hide Good, BlockI, UnblockI, SetPri, Yield, Create, Delete, Exit, Pass;
    match e {
      case EBlock(t) => BlockGood(s, t);
      case EUnblock(t) => UnblockGood(s, t);
      case ESetPri(t, priority) => SetPriGood(s, t, priority);
      case EYield => YieldGood(s);
      case ECreate(t, priority) => CreateGood(s, t, priority);
      case EDelete(t) => DeleteGood(s, t);
      case EExit => ExitGood(s);
      case EPass => PassGood(s);
    }
  }

  /** Before the first dispatch: empty queues, and no current one. Task_startCore is the first pass. */
  ghost predicate Init(s: State) {
    && (forall p :: 0 <= p < |s.readyQ| ==> s.readyQ[p] == []) && s.inactiveQ == [] && s.curSet == {}
    && s.curQ.None? && s.workFlag && s.curTask < |s.tasks|
    && forall t :: 0 <= t < |s.tasks| ==> s.tasks[t] == Task(Absent, -1)
  }

  ghost predicate Next(s: State, e: Event, s': State) {
    Enabled(s, e) && (Good(s) ==> s' == Step(s, e))
  }

  ghost predicate Run(states: seq<State>, events: seq<Event>) {
    && |states| == |events| + 1 && Init(states[0])
    && forall i :: 0 <= i < |events| ==> Next(states[i], events[i], states[i + 1])
  }

  lemma {:induction false} RunGood(states: seq<State>, events: seq<Event>, k: nat)
    requires Run(states, events) && k <= |events|
    ensures Good(states[k])
    decreases k
  {
    if k == 0 {
      var s := states[0];
      forall p, t: Tid | -1 <= p < |s.readyQ| ensures Lists(s, p, t) {
      }
    } else {
      RunGood(states, events, k - 1);
      assert Next(states[k - 1], events[k - 1], states[k]) by {
        var i := k - 1;
        assert Next(states[i], events[i], states[i + 1]);
      }
      StepGood(states[k - 1], events[k - 1]);
    }
  }

  /**
   Whenever Task_schedule can end, that is whenever workFlag is clear, the running task is the FIFO head of the highest
   non-empty ready queue, and no ready task has a higher priority.
   */
  lemma RunningDeserves(states: seq<State>, events: seq<Event>, k: nat)
    requires Run(states, events) && k <= |events| && !states[k].workFlag
    ensures Deserves(states[k], states[k].curTask)
    ensures var s := states[k];
            s.curTask < |s.tasks| && forall t :: 0 <= t < |s.tasks| && s.tasks[t].mode.Ready? ==> s.tasks[t].priority <= s.tasks[s.curTask].priority
  {
    RunGood(states, events, k);
    DispatchedDeserves(states[k]);
  }

  // ---------------------------------------------------------------- who runs next

  /** The highest set bit is unique. */
  lemma MaxBitIs(s: State, p: nat)
    requires p in s.curSet && forall b :: b in s.curSet ==> b <= p
    ensures MaxBit(s.curSet) == p
  {
  }

  /** A task made ready preempts the running one exactly if its priority is higher. */
  lemma UnblockPreempts(s: State, t: Tid)
    requires Good(s) && !s.workFlag && Has(s, t) && s.tasks[t].mode.Blocked?
    ensures var u := UnblockI(s, t);
            && Good(u) && u.curSet != {}
            && Pass(u).curTask == if s.tasks[t].priority > s.tasks[s.curTask].priority then t else s.curTask
  {
    UnblockGood(s, t);
    DispatchedDeserves(s);
    var c := s.curQ.value;
    var u := UnblockI(s, t);
    assert Lists(s, c, s.curTask);
    assert s.curTask in QueueOf(s, c);
    assert s.tasks[s.curTask] == Task(Ready, c);
    var p := s.tasks[t].priority;
    if p > c {
      assert p !in s.curSet;
      assert s.readyQ[p] == [];
      MaxBitIs(u, p);
    } else {
      MaxBitIs(u, c);
    }
  }

  /** After a yield the next task of the same priority runs, and the yielding one is last of its queue. */
  lemma YieldRotates(s: State)
    requires Good(s) && !s.workFlag
    ensures var y := Yield(s);
            var c := s.curQ.value;
            && Good(y) && y.curSet != {} && c < |s.readyQ| && s.readyQ[c] != []
            && Pass(y).readyQ[c] == s.readyQ[c][1..] + [s.curTask]
            && Pass(y).curTask == if |s.readyQ[c]| > 1 then s.readyQ[c][1] else s.curTask
  {
    YieldGood(s);
    var c := s.curQ.value;
    assert c in s.curSet;
    MaxBitIs(Yield(s), c);
  }

  /** Changing its own priority the running task keeps the processor unless a ready task now has a higher one. */
  lemma SetPriKeepsRunning(s: State, priority: int)
    requires Good(s) && !s.workFlag && Has(s, s.curTask) && 0 <= priority < |s.readyQ|
    requires forall t :: 0 <= t < |s.tasks| && t != s.curTask && s.tasks[t].mode.Ready? ==> s.tasks[t].priority <= priority
    ensures var u := SetPri(s, s.curTask, priority);
            Good(u) && u.curSet != {} && Pass(u).curTask == s.curTask
  {
    SetPriGood(s, s.curTask, priority);
    DispatchedDeserves(s);
    var c := s.curQ.value;
    assert c in s.curSet && Lists(s, c, s.curTask);
    assert s.curTask in QueueOf(s, c);
    var u := SetPri(s, s.curTask, priority);
    assert u.curQ.Some? && u.curQ.value in u.curSet by {
      assert Cache(u) && Index(u);
    }
    hide SetPri;
    var m := MaxBit(u.curSet);
    if m > u.curQ.value {
      var t := u.readyQ[m][0];
      assert Lists(u, m, t);
      assert t in QueueOf(u, m);
    }
  }
}
