/**
 packages/ti/sysbios/knl/Swi.c as a state machine on what is true whenever interrupts are enabled. Swis nest: `frames` is
 the stack of Swi_run activations, innermost last, each with the locals it will restore the module's fields from.

 Every way into the scheduler locks it and later unlocks it: Swi_disable and Swi_restore, Swi_post of an unposted Swi and
 the Swi_schedule that follows, the interrupt dispatcher and Swi_restoreHwi. Between the two other interrupts may post.
 */
module SwiScheduler {
  import opened Base
  import opened Bitmap

  type Sid = nat

  datatype Frame = Frame(swi: Sid, entry: Option<nat>, savedQ: Option<nat>, savedSwi: Option<Sid>, savedTrigger: int)

  datatype Swi = Swi(priority: nat, posted: bool, trigger: int, initTrigger: int)

  datatype State = State(
    readyQ: seq<seq<Sid>>,
    curSet: set<nat>,                  // the bits of the bitmap
    curQ: Option<nat>,                 // the index of the queue curQ points to; NULL is below every queue
    curSwi: Option<Sid>,
    curTrigger: int,
    locked: bool,
    swis: seq<Swi>,
    frames: seq<Frame>)

  function Above(p: nat, q: Option<nat>): bool {
    q.None? || p > q.value
  }

  /** The bitmap with the bit of an emptied level cleared. */
  function Clear(bits: set<nat>, p: nat, q: seq<Sid>): set<nat> {
    if q == [] then bits - {p} else bits
  }

  /** Swi_post (lines 650-667), up to the call of Swi_schedule. */
  function Post(s: State, t: Sid): State
    requires t < |s.swis| && s.swis[t].priority < |s.readyQ|
  {
    if s.swis[t].posted then s
    else
      var p := s.swis[t].priority;
      s.(swis := s.swis[t := s.swis[t].(posted := true)], locked := true,
         readyQ := s.readyQ[p := s.readyQ[p] + [t]], curSet := s.curSet + {p})
  }

  /** Dequeue of the highest level and the first half of Swi_run (lines 83-104), in a loop entered at `entry`. */
  ghost function Dispatch(s: State, entry: Option<nat>): State
    requires s.curSet != {}
    requires var p := MaxBit(s.curSet); p < |s.readyQ| && s.readyQ[p] != [] && s.readyQ[p][0] < |s.swis|
  {
    var p := MaxBit(s.curSet);
    var t := s.readyQ[p][0];
    var x := s.swis[t];
    s.(readyQ := s.readyQ[p := s.readyQ[p][1..]], curSet := Clear(s.curSet, x.priority, s.readyQ[p][1..]),
       curQ := Some(x.priority), curSwi := Some(t), curTrigger := x.trigger, locked := false,
       swis := s.swis[t := x.(posted := false, trigger := x.initTrigger)],
       frames := s.frames + [Frame(t, entry, s.curQ, s.curSwi, s.curTrigger)])
  }

  /** The loop condition, and unlocking when it fails: Swi_schedule, Swi_runLoop and Swi_restoreHwi alike. */
  ghost function Settle(s: State, entry: Option<nat>): State
    requires Good(s)
  {
    if s.curSet != {} && Above(MaxBit(s.curSet), entry) then
      Heads(s);
      Dispatch(s, entry)
    else s.(locked := false)
  }

  /** The end of a Swi function: the second half of Swi_run (lines 130-140), and on with the loop it is in. */
  ghost function End(s: State): State
    requires Good(s) && s.frames != []
  {
    var f := s.frames[|s.frames| - 1];
    var u := s.(locked := true, curQ := f.savedQ, curSwi := f.savedSwi, curTrigger := f.savedTrigger,
                frames := s.frames[..|s.frames| - 1]);
    PoppedGood(s);
    Settle(u, f.entry)
  }

  // ---------------------------------------------------------------- the invariant

  ghost predicate Listed(s: State, p: nat, t: Sid)
    requires p < |s.readyQ|
  {
    t in s.readyQ[p] <==> t < |s.swis| && s.swis[t].posted && s.swis[t].priority == p
  }

  /** A Swi is posted exactly if it is in the ready queue of its priority, where it is once. */
  ghost predicate Queues(s: State) {
    && (forall t :: 0 <= t < |s.swis| ==> s.swis[t].priority < |s.readyQ|)
    && (forall p :: 0 <= p < |s.readyQ| ==> Distinct(s.readyQ[p]))
    && (forall p: nat, t: Sid :: p < |s.readyQ| ==> Listed(s, p, t))
  }

  /** curSet is the set of non-empty levels. */
  ghost predicate Index(s: State) {
    forall p: nat :: p in s.curSet <==> p < |s.readyQ| && s.readyQ[p] != []
  }

  /** The level and the Swi of the innermost of the first n frames. */
  ghost function LevelAt(s: State, n: nat): Option<nat>
    requires n <= |s.frames| && forall i :: 0 <= i < |s.frames| ==> s.frames[i].swi < |s.swis|
  {
    if n == 0 then None else Some(s.swis[s.frames[n - 1].swi].priority)
  }

  ghost function SwiAt(s: State, n: nat): Option<Sid>
    requires n <= |s.frames|
  {
    if n == 0 then None else Some(s.frames[n - 1].swi)
  }

  /** Each running Swi has preempted one of lower priority, and its frame holds what to go back to. */
  ghost predicate Nested(s: State) {
    && (forall i :: 0 <= i < |s.frames| ==> s.frames[i].swi < |s.swis|)
    && (forall i :: 0 <= i < |s.frames| ==> FrameOk(s, i))
    && s.curQ == LevelAt(s, |s.frames|) && s.curSwi == SwiAt(s, |s.frames|)
  }

  ghost predicate FrameOk(s: State, i: nat)
    requires i < |s.frames| && forall i :: 0 <= i < |s.frames| ==> s.frames[i].swi < |s.swis|
  {
    var f := s.frames[i];
    f.entry == LevelAt(s, i) && f.savedQ == LevelAt(s, i) && f.savedSwi == SwiAt(s, i) && Above(s.swis[f.swi].priority, LevelAt(s, i))
  }

  /** While the scheduler is unlocked nothing above the running level is ready. */
  ghost predicate Calm(s: State) {
    !s.locked ==> forall p :: p in s.curSet ==> !Above(p, s.curQ)
  }

  ghost predicate Good(s: State) {
    Queues(s) && Index(s) && Nested(s) && Calm(s)
  }

  lemma Heads(s: State)
    requires Queues(s) && Index(s)
    ensures forall p :: p in s.curSet ==> p < |s.readyQ| && s.readyQ[p] != [] && s.readyQ[p][0] < |s.swis|
  {
    forall p | p in s.curSet ensures s.readyQ[p][0] < |s.swis| {
      assert Listed(s, p, s.readyQ[p][0]);
    }
  }

  // ---------------------------------------------------------------- every step keeps it

  lemma PostGood(s: State, t: Sid)
    requires Good(s) && t < |s.swis|
    ensures Good(Post(s, t))
  {
    var r := Post(s, t);
    if !s.swis[t].posted {
      var p := s.swis[t].priority;
      assert Listed(s, p, t);
      AppendDistinct(s.readyQ[p], t);
      forall q: nat, u: Sid | q < |r.readyQ| ensures Listed(r, q, u) {
        assert Listed(s, q, u);
      }
      SameNest(s, r);
    }
  }

  /** Frames stay right when only queues and postings change. */
  lemma SameNest(s: State, r: State)
    requires Nested(s) && r.frames == s.frames && r.curQ == s.curQ && r.curSwi == s.curSwi && |r.swis| == |s.swis|
    requires forall t :: 0 <= t < |s.swis| ==> r.swis[t].priority == s.swis[t].priority
    ensures Nested(r)
  {
    forall i | 0 <= i < |r.frames| ensures FrameOk(r, i) {
      assert FrameOk(s, i);
    }
  }

  lemma PoppedGood(s: State)
    requires Good(s) && s.frames != []
    ensures var f := s.frames[|s.frames| - 1];
            Good(s.(locked := true, curQ := f.savedQ, curSwi := f.savedSwi, curTrigger := f.savedTrigger, frames := s.frames[..|s.frames| - 1]))
    ensures s.frames[|s.frames| - 1].entry == s.frames[|s.frames| - 1].savedQ
  {
    var n := |s.frames| - 1;
    var f := s.frames[n];
    var u := s.(locked := true, curQ := f.savedQ, curSwi := f.savedSwi, curTrigger := f.savedTrigger, frames := s.frames[..n]);
    assert FrameOk(s, n);
    forall i | 0 <= i < |u.frames| ensures FrameOk(u, i) {
      assert FrameOk(s, i);
      assert u.frames[i] == s.frames[i];
    }
    SameQueues(s, u);
  }

  lemma SameQueues(s: State, r: State)
    requires Queues(s) && Index(s) && r.readyQ == s.readyQ && r.curSet == s.curSet && r.swis == s.swis
    ensures Queues(r) && Index(r)
  {
    forall p: nat, t: Sid | p < |r.readyQ| ensures Listed(r, p, t) {
      assert Listed(s, p, t);
    }
  }

  /** A dispatch takes the FIFO head of the highest level, and runs it above whatever was running. */
  lemma DispatchGood(s: State)
    requires Good(s) && s.curSet != {} && Above(MaxBit(s.curSet), s.curQ)
    requires forall p :: p in s.curSet ==> p < |s.readyQ| && s.readyQ[p] != [] && s.readyQ[p][0] < |s.swis|
    ensures Good(Dispatch(s, s.curQ))
    ensures var d := Dispatch(s, s.curQ);
            && d.curSwi == Some(s.readyQ[MaxBit(s.curSet)][0])
            && forall t :: 0 <= t < |s.swis| && s.swis[t].posted ==> s.swis[t].priority <= s.swis[d.curSwi.value].priority
  {
    var p := MaxBit(s.curSet);
    var t := s.readyQ[p][0];
    var d := Dispatch(s, s.curQ);
    assert Listed(s, p, t);
    PopMembers(s.readyQ[p]);
    forall q: nat, u: Sid | q < |d.readyQ| ensures Listed(d, q, u) {
      assert Listed(s, q, u);
    }
    forall i | 0 <= i < |d.frames| ensures FrameOk(d, i) {
      if i < |s.frames| {
        assert FrameOk(s, i);
        assert d.frames[i] == s.frames[i];
      }
    }
    forall u | 0 <= u < |s.swis| && s.swis[u].posted ensures s.swis[u].priority <= p {
      assert Listed(s, s.swis[u].priority, u);
    }
  }

  lemma SettleGood(s: State)
    requires Good(s)
    ensures Good(Settle(s, s.curQ))
    ensures !Settle(s, s.curQ).locked
  {
    Heads(s);
    if s.curSet != {} && Above(MaxBit(s.curSet), s.curQ) {
      DispatchGood(s);
    } else {
      var r := s.(locked := false);
      SameQueues(s, r);
      SameNest(s, r);
    }
  }

  lemma EndGood(s: State)
    requires Good(s) && s.frames != []
    ensures Good(End(s)) && !End(s).locked
  {
    PoppedGood(s);
    var f := s.frames[|s.frames| - 1];
    SettleGood(s.(locked := true, curQ := f.savedQ, curSwi := f.savedSwi, curTrigger := f.savedTrigger, frames := s.frames[..|s.frames| - 1]));
  }

  // ---------------------------------------------------------------- runs

  datatype Event =
    | ELock                        // Swi_disable, or an interrupt, while the scheduler is unlocked
    | EPost(t: Sid)
    | EUnlock                      // Swi_schedule, Swi_restore or Swi_restoreHwi of who locked it
    | EEnd                         // the running Swi's function returns
    | ETrigger(t: Sid, v: int)     // Swi_or, Swi_andn, Swi_inc, Swi_dec before they post

  ghost predicate Enabled(s: State, e: Event) {
    match e
    case ELock => !s.locked
    case EPost(t) => t < |s.swis|
    case EUnlock => s.locked
    case EEnd => s.frames != [] && !s.locked
    case ETrigger(t, v) => t < |s.swis|
  }

  ghost function Step(s: State, e: Event): State
    requires Good(s) && Enabled(s, e)
  {
    match e
    case ELock => s.(locked := true)
    case EPost(t) => Post(s, t)
    case EUnlock => Settle(s, s.curQ)
    case EEnd => End(s)
    case ETrigger(t, v) => s.(swis := s.swis[t := s.swis[t].(trigger := v)])
  }

  lemma StepGood(s: State, e: Event)
    requires Good(s) && Enabled(s, e)
    ensures Good(Step(s, e))
  {
    match e {
      case ELock =>
        SameQueues(s, s.(locked := true));
        SameNest(s, s.(locked := true));
      case EPost(t) => PostGood(s, t);
      case EUnlock => SettleGood(s);
      case EEnd => EndGood(s);
      case ETrigger(t, v) =>
        var r := s.(swis := s.swis[t := s.swis[t].(trigger := v)]);
        forall p: nat, u: Sid | p < |r.readyQ| ensures Listed(r, p, u) {
          assert Listed(s, p, u);
        }
        SameNest(s, r);
    }
  }

  ghost predicate Init(s: State) {
    && (forall p :: 0 <= p < |s.readyQ| ==> s.readyQ[p] == []) && s.curSet == {} && s.curQ.None? && s.curSwi.None?
    && s.locked && s.frames == []
    && forall t :: 0 <= t < |s.swis| ==> !s.swis[t].posted && s.swis[t].priority < |s.readyQ|
  }

  ghost predicate Next(s: State, e: Event, s': State) {
    Enabled(s, e) && (Good(s) ==> s' == Step(s, e))
  }

  ghost predicate Run(states: seq<State>, events: seq<Event>) {
    && |states| == |events| + 1 && Init(states[0])
    && forall i :: 0 <= i < |events| ==> Next(states[i], events[i], states[i + 1])
  }

  lemma {:induction false} RunGood(states: seq<State>, events: seq<Event>, k: nat)
    requires Run(states, events) && k <= |events|
    ensures Good(states[k])
    decreases k
  {
    if k == 0 {
      var s := states[0];
      forall p: nat, t: Sid | p < |s.readyQ| ensures Listed(s, p, t) {
      }
    } else {
      var i := k - 1;
      RunGood(states, events, i);
      assert Next(states[i], events[i], states[i + 1]);
      StepGood(states[i], events[i]);
    }
  }

  /** At every point where interrupts are enabled: posted means queued, and the bitmap is right. */
  lemma PostedMeansQueued(states: seq<State>, events: seq<Event>, k: nat, t: Sid)
    requires Run(states, events) && k <= |events| && t < |states[k].swis|
    ensures var s := states[k];
            var p := s.swis[t].priority;
            && p < |s.readyQ| && (s.swis[t].posted <==> t in s.readyQ[p])
            && (s.swis[t].posted ==> p in s.curSet) && (p in s.curSet ==> s.readyQ[p] != [])
  {
    RunGood(states, events, k);
    assert Listed(states[k], states[k].swis[t].priority, t);
  }

  /** Running Swis have strictly increasing priorities, so no more of them can be nested than there are levels. */
  lemma {:induction false} DepthBounded(s: State, i: nat)
    requires Good(s) && i < |s.frames|
    ensures i <= s.swis[s.frames[i].swi].priority < |s.readyQ|
    ensures i > 0 ==> s.swis[s.frames[i - 1].swi].priority < s.swis[s.frames[i].swi].priority
  {
    assert FrameOk(s, i);
    if i > 0 {
      DepthBounded(s, i - 1);
    }
  }

  lemma NestingBounded(states: seq<State>, events: seq<Event>, k: nat)
    requires Run(states, events) && k <= |events|
    ensures |states[k].frames| <= |states[k].readyQ|
  {
    RunGood(states, events, k);
    var s := states[k];
    if s.frames != [] {
      DepthBounded(s, |s.frames| - 1);
    }
  }

  /** While the scheduler is unlocked, the running Swi has at least the priority of every posted one; with none running, none is posted. */
  lemma NothingReadyAbove(states: seq<State>, events: seq<Event>, k: nat, t: Sid)
    requires Run(states, events) && k <= |events| && !states[k].locked
    requires t < |states[k].swis| && states[k].swis[t].posted
    ensures var s := states[k];
            && s.frames != [] && s.curSwi == Some(s.frames[|s.frames| - 1].swi) && s.curSwi.value < |s.swis|
            && s.swis[t].priority <= s.swis[s.curSwi.value].priority
  {
    RunGood(states, events, k);
    var s := states[k];
    assert Listed(s, s.swis[t].priority, t);
    assert s.swis[t].priority in s.curSet;
  }

  /** What an unlock or the end of a Swi starts, if anything, is the head of the highest level; and what it leaves is below the level it returns to. */
  lemma EndPicksHead(s: State)
    requires Good(s) && s.frames != []
    ensures var n := |s.frames| - 1;
            var below := LevelAt(s, n);
            var e := End(s);
            if exists p :: p in s.curSet && Above(p, below) then
              && s.curSet != {} && MaxBit(s.curSet) < |s.readyQ| && s.readyQ[MaxBit(s.curSet)] != []
              && e.curSwi == Some(s.readyQ[MaxBit(s.curSet)][0]) && |e.frames| == |s.frames| && e.frames[..n] == s.frames[..n]
              && e.frames[n].savedSwi == SwiAt(s, n) && e.frames[n].savedQ == below
            else
              e.curQ == below && e.curSwi == SwiAt(s, n) && e.curTrigger == s.frames[n].savedTrigger && e.frames == s.frames[..n]
  {
    var n := |s.frames| - 1;
    assert FrameOk(s, n);
    PoppedGood(s);
    Heads(s);
  }

  /** s runs Swis on top of what ran in s0, and the lowest of them will restore the fields of s0. */
  ghost predicate OnTopOf(s: State, s0: State) {
    var n := |s0.frames|;
    && |s.frames| > n && s.frames[..n] == s0.frames
    && s.frames[n].savedQ == s0.curQ && s.frames[n].savedSwi == s0.curSwi && s.frames[n].savedTrigger == s0.curTrigger
  }

  /** The same Swis run, at the same level and with the same trigger. */
  ghost predicate SameRunning(s: State, s0: State) {
    s.frames == s0.frames && s.curQ == s0.curQ && s.curSwi == s0.curSwi && s.curTrigger == s0.curTrigger
  }

  lemma PreemptionStarts(s: State, e: Event)
    requires Good(s) && Enabled(s, e) && |Step(s, e).frames| > |s.frames|
    ensures OnTopOf(Step(s, e), s)
  {
    Heads(s);
    if e.EEnd? {
      PoppedGood(s);
    }
  }

  lemma PreemptionGoesOn(s: State, e: Event, s0: State)
    requires Good(s) && Enabled(s, e) && OnTopOf(s, s0)
    ensures var s' := Step(s, e);
            && |s'.frames| >= |s0.frames|
            && if |s'.frames| > |s0.frames| then OnTopOf(s', s0) else SameRunning(s', s0) && !s'.locked
  {
    var n := |s0.frames|;
    Heads(s);
    if e.EEnd? {
      PoppedGood(s);
      EndFrames(s);
      var rest := s.frames[..|s.frames| - 1];
      if |s.frames| > n + 1 {
        assert rest[..n] == s0.frames && rest[n] == s.frames[n];
      } else {
        assert rest == s0.frames;
      }
    }
  }

  /** What the end of a Swi does to the frames: it pops the last, and may push one that saves what the popped one restored. */
  lemma EndFrames(s: State)
    requires Good(s) && s.frames != []
    ensures var rest := s.frames[..|s.frames| - 1];
            var f := s.frames[|s.frames| - 1];
            var e := End(s);
            && !e.locked
            && if e.frames == rest then e.curQ == f.savedQ && e.curSwi == f.savedSwi && e.curTrigger == f.savedTrigger
               else && |e.frames| == |s.frames| && e.frames[..|rest|] == rest
                    && e.frames[|rest|].savedQ == f.savedQ && e.frames[|rest|].savedSwi == f.savedSwi
                    && e.frames[|rest|].savedTrigger == f.savedTrigger
  {
    PoppedGood(s);
    var f := s.frames[|s.frames| - 1];
    Heads(s.(locked := true, curQ := f.savedQ, curSwi := f.savedSwi, curTrigger := f.savedTrigger, frames := s.frames[..|s.frames| - 1]));
  }

  lemma {:induction false} Preempted(states: seq<State>, events: seq<Event>, i: nat, k: nat)
    requires Run(states, events) && i < k <= |events|
    requires forall m :: i < m <= k ==> |states[m].frames| > |states[i].frames|
    ensures OnTopOf(states[k], states[i])
    decreases k
  {
    RunGood(states, events, k - 1);
    assert Next(states[k - 1], events[k - 1], states[k]);
    if k == i + 1 {
      PreemptionStarts(states[i], events[i]);
    } else {
      Preempted(states, events, i, k - 1);
      PreemptionGoesOn(states[k - 1], events[k - 1], states[i]);
    }
  }

  /**
   A preemption leaves no trace in what was preempted, whatever is posted, nested, dispatched one after the other or
   triggered in between: when as many Swis run as before for the first time since, they are the same, at the same level
   and with the same trigger.
   */
  lemma PreemptionUndone(states: seq<State>, events: seq<Event>, i: nat, j: nat)
    requires Run(states, events) && i + 1 < j <= |events|
    requires |states[j].frames| == |states[i].frames|
    requires forall k :: i < k < j ==> |states[k].frames| > |states[i].frames|
    ensures SameRunning(states[j], states[i]) && !states[j].locked
  {
    Preempted(states, events, i, j - 1);
    RunGood(states, events, j - 1);
    assert Next(states[j - 1], events[j - 1], states[j]);
    PreemptionGoesOn(states[j - 1], events[j - 1], states[i]);
  }

  // ---------------------------------------------------------------- every post runs, in order

  /** The Swi a step starts, if any: at an unlock one more runs than before, at the end of another as many. */
  ghost function Starts(s: State, e: Event, s': State): Option<Sid> {
    if (e.EUnlock? && |s'.frames| == |s.frames| + 1) || (e.EEnd? && s.frames != [] && |s'.frames| == |s.frames|)
    then Some(s'.frames[|s'.frames| - 1].swi)
    else None
  }

  /** What a step posts on level p: nothing if it is posted already. */
  ghost function PostedBy(s: State, e: Event, p: nat): seq<Sid> {
    if e.EPost? && e.t < |s.swis| && s.swis[e.t].priority == p && !s.swis[e.t].posted then [e.t] else []
  }

  ghost function StartedBy(s: State, e: Event, s': State, p: nat): seq<Sid> {
    var t := Starts(s, e, s');
    if t.Some? && t.value < |s.swis| && s.swis[t.value].priority == p then [t.value] else []
  }

  /** The Swis of level p that the first k steps posted, in order. */
  ghost function PostedAt(states: seq<State>, events: seq<Event>, p: nat, k: nat): seq<Sid>
    requires |states| == |events| + 1 && k <= |events|
  {
    if k == 0 then [] else PostedAt(states, events, p, k - 1) + PostedBy(states[k - 1], events[k - 1], p)
  }

  /** The Swis of level p that the first k steps started, in order. */
  ghost function StartedAt(states: seq<State>, events: seq<Event>, p: nat, k: nat): seq<Sid>
    requires |states| == |events| + 1 && k <= |events|
  {
    if k == 0 then [] else StartedAt(states, events, p, k - 1) + StartedBy(states[k - 1], events[k - 1], states[k], p)
  }

  /** Levels are for ever. */
  lemma {:induction false} SameLevels(states: seq<State>, events: seq<Event>, k: nat)
    requires Run(states, events) && k <= |events|
    ensures |states[k].swis| == |states[0].swis| && |states[k].readyQ| == |states[0].readyQ|
    ensures forall t :: 0 <= t < |states[0].swis| ==> states[k].swis[t].priority == states[0].swis[t].priority
    decreases k
  {
    if k > 0 {
      SameLevels(states, events, k - 1);
      RunGood(states, events, k - 1);
      assert Next(states[k - 1], events[k - 1], states[k]);
      SameLevelsStep(states[k - 1], events[k - 1]);
    }
  }

  lemma SameLevelsStep(s: State, e: Event)
    requires Good(s) && Enabled(s, e)
    ensures var r := Step(s, e);
            && |r.swis| == |s.swis| && |r.readyQ| == |s.readyQ|
            && forall t :: 0 <= t < |s.swis| ==> r.swis[t].priority == s.swis[t].priority
  {
    Heads(s);
    if e.EEnd? {
      PoppedGood(s);
    }
  }

  /** A step appends to the queue of a level what it posts there, and takes from its front what it starts. */
  lemma QueueStep(s: State, e: Event, p: nat)
    requires Good(s) && Enabled(s, e) && p < |s.readyQ|
    ensures var r := Step(s, e);
            p < |r.readyQ| && s.readyQ[p] + PostedBy(s, e, p) == StartedBy(s, e, r, p) + r.readyQ[p]
  {
    Heads(s);
    if e.EEnd? {
      PoppedGood(s);
    }
    if s.curSet != {} {
      var m := MaxBit(s.curSet);
      assert Listed(s, m, s.readyQ[m][0]);
    }
  }

  lemma Associates(a: seq<Sid>, b: seq<Sid>, c: seq<Sid>)
    ensures a + b + c == a + (b + c)
  {
  }

  /**
   Within a level Swis run in the order they were posted, once for each post that found them unposted: what was posted is
   what was started and, after it, what is still queued.
   */
  lemma {:induction false} RunInPostOrder(states: seq<State>, events: seq<Event>, p: nat, k: nat)
    requires Run(states, events) && k <= |events| && p < |states[0].readyQ|
    ensures p < |states[k].readyQ|
    ensures PostedAt(states, events, p, k) == StartedAt(states, events, p, k) + states[k].readyQ[p]
    decreases k
  {
    hide Good, Step, Starts, PostedBy, StartedBy;
    if k > 0 {
      var i := k - 1;
      RunInPostOrder(states, events, p, i);
      RunGood(states, events, i);
      assert Next(states[i], events[i], states[k]);
      QueueStep(states[i], events[i], p);
      var started := StartedAt(states, events, p, i);
      Associates(started, states[i].readyQ[p], PostedBy(states[i], events[i], p));
      Associates(started, StartedBy(states[i], events[i], states[k], p), states[k].readyQ[p]);
    }
  }

  /** When the scheduler is unlocked and no Swi runs, every post has had its run. */
  lemma AllPostsRun(states: seq<State>, events: seq<Event>, p: nat, k: nat)
    requires Run(states, events) && k <= |events| && p < |states[0].readyQ|
    requires !states[k].locked && states[k].frames == []
    ensures StartedAt(states, events, p, k) == PostedAt(states, events, p, k)
  {
    RunInPostOrder(states, events, p, k);
    RunGood(states, events, k);
    assert Calm(states[k]) && Index(states[k]);
    assert p !in states[k].curSet;
  }

  /** The Swi that starts sees the trigger it was posted with, which is set back for the next post; nobody else's changes. */
  lemma StartTakesTrigger(s: State, e: Event)
    requires Good(s) && Enabled(s, e) && Starts(s, e, Step(s, e)).Some?
    ensures var t := Starts(s, e, Step(s, e)).value;
            var r := Step(s, e);
            && t < |s.swis| == |r.swis| && s.swis[t].posted && !r.swis[t].posted
            && r.curSwi == Some(t) && r.curQ == Some(s.swis[t].priority) && r.curTrigger == s.swis[t].trigger
            && r.swis[t].trigger == s.swis[t].initTrigger
            && forall u :: 0 <= u < |s.swis| && u != t ==> r.swis[u] == s.swis[u]
  {
    Heads(s);
    if e.EEnd? {
      PoppedGood(s);
    }
    var m := MaxBit(s.curSet);
    assert Listed(s, m, s.readyQ[m][0]);
  }

  /** Until the next unlock a post changes nothing but its Swi's posting: what runs goes on. */
  lemma PostOnlyPosts(s: State, t: Sid)
    requires Good(s) && t < |s.swis|
    ensures var r := Post(s, t);
            && SameRunning(r, s) && |r.swis| == |s.swis|
            && r.swis[t] == s.swis[t].(posted := true)
            && (forall u :: 0 <= u < |s.swis| && u != t ==> r.swis[u] == s.swis[u])
            && (s.swis[t].posted ==> r == s) && (!s.swis[t].posted ==> r.locked)
  {
    assert Listed(s, s.swis[t].priority, t);
  }
}
