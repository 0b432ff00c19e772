/**
 packages/ti/posix/tirtos/pthread_rwlock.c as a state machine. A step is what a thread does between two points at
 which others may run: a region under Task_disable, one semaphore call, or one expiry of a pend's clock. The writer's
 unlock posts its semaphores one by one: while it does the scheduler is locked, but pends may still expire.
 */
module RwLock {
  import opened Base

  type Tid = nat

  const FOREVER: int := 0xFFFF_FFFF
  const TWO32: int := 0x1_0000_0000

  /** Where a thread is inside the lock's functions. `left` and `cur` are timeout and curTicks of rdlockAcquire. */
  datatype Phase =
    | Idle
    | RdPrePend(left: int, cur: int)     // about to pend on readSem
    | RdWait(left: int, cur: int)        // blocked on readSem
    | RdWoken(left: int, cur: int)       // got a readSem token, has not looked at the lock yet
    | RdTimedOut                         // its pend on readSem expired
    | WrWait(left: int)                  // blocked on sem
    | WrGranted                          // got sem, is not owner yet

  /** A thread, and how many read and write locks it holds. */
  datatype Thread = Thread(phase: Phase, rd: nat, wr: nat)

  /** A writer inside its unlock with `posts` posts of readSem done. */
  datatype Poster = Poster(t: Tid, posts: nat)

  datatype State = State(
    count: nat, semQ: seq<Tid>,          // sem
    rdCount: nat, rdQ: seq<Tid>,         // readSem
    active: int, blocked: int,           // activeReaderCnt, blockedReaderCnt
    owner: Option<Tid>,
    posting: Option<Poster>,
    th: seq<Thread>)

  datatype Outcome = Acquired | Busy | TimedOut | Blocks | Retries

  function Put(s: State, t: Tid, x: Thread): State
    requires t < |s.th|
  {
    s.(th := s.th[t := x])
  }

  // ---------------------------------------------------------------- the steps

  /** rdlockAcquire up to its loop (lines 294-326). */
  function RdEnter(s: State, t: Tid, timeout: int, now: int): (State, Outcome)
    requires t < |s.th|
  {
    var x := s.th[t];
    if s.active > 0 then
      (Put(s, t, x.(rd := x.rd + 1)).(active := s.active + 1), Acquired)
    else if s.count > 0 then
      (Put(s, t, x.(rd := x.rd + 1)).(count := s.count - 1, active := s.active + 1, owner := Some(t)), Acquired)
    else if timeout == 0 then
      (s, Busy)
    else
      (Put(s, t, x.(phase := RdPrePend(timeout, now))).(blocked := s.blocked + 1), Blocks)
  }

  /** The pend on readSem (line 329). */
  function RdPend(s: State, t: Tid): State
    requires t < |s.th| && s.th[t].phase.RdPrePend?
  {
    var x := s.th[t];
    if s.rdCount > 0 then
      Put(s, t, x.(phase := RdWoken(x.phase.left, x.phase.cur))).(rdCount := s.rdCount - 1)
    else
      Put(s, t, x.(phase := RdWait(x.phase.left, x.phase.cur))).(rdQ := s.rdQ + [t])
  }

  /** The clock of a blocked reader's pend expires. */
  function RdExpire(s: State, t: Tid): State
    requires t < |s.th|
  {
    Put(s, t, s.th[t].(phase := RdTimedOut)).(rdQ := Without(s.rdQ, t))
  }

  /** Lines 330-333: a reader whose pend timed out gives up. */
  function RdQuit(s: State, t: Tid): State
    requires t < |s.th|
  {
    Put(s, t, s.th[t].(phase := Idle)).(blocked := s.blocked - 1)
  }

  /** The ticks between two readings of a 32-bit counter. */
  function Delta(prev: int, now: int): int {
    (now - prev) % TWO32
  }

  /** Lines 336-379: a reader that got a token looks at the lock again. */
  function RdResume(s: State, t: Tid, now: int): (State, Outcome)
    requires t < |s.th| && s.th[t].phase.RdWoken?
  {
    var x := s.th[t];
    var left, cur := x.phase.left, x.phase.cur;
    if s.active > 0 then
      (Put(s, t, x.(phase := Idle, rd := x.rd + 1)).(blocked := s.blocked - 1, active := s.active + 1), Acquired)
    else if s.count > 0 then
      (Put(s, t, x.(phase := Idle, rd := x.rd + 1))
       .(count := s.count - 1, blocked := s.blocked - 1, active := s.active + 1, owner := Some(t)), Acquired)
    else if left != FOREVER && Delta(cur, now) >= left then
      (Put(s, t, x.(phase := Idle)).(blocked := s.blocked - 1), TimedOut)
    else
      (Put(s, t, x.(phase := if left != FOREVER then RdPrePend(left - Delta(cur, now), now) else RdPrePend(left, cur))), Retries)
  }

  /** The pend on sem of the three write-lock calls (lines 181, 208 and 269). */
  function WrEnter(s: State, t: Tid, timeout: int): (State, Outcome)
    requires t < |s.th|
  {
    var x := s.th[t];
    if s.count > 0 then (Put(s, t, x.(phase := WrGranted)).(count := s.count - 1), Acquired)
    else if timeout == 0 then (s, Busy)
    else (Put(s, t, x.(phase := WrWait(timeout))).(semQ := s.semQ + [t]), Blocks)
  }

  /** The clock of a blocked writer's pend expires; the call returns ETIMEDOUT. */
  function WrExpire(s: State, t: Tid): State
    requires t < |s.th|
  {
    Put(s, t, s.th[t].(phase := Idle)).(semQ := Without(s.semQ, t))
  }

  /** Lines 182-184: the writer that got sem becomes owner. */
  function WrOwn(s: State, t: Tid): State
    requires t < |s.th|
  {
    Put(s, t, s.th[t].(phase := Idle, wr := s.th[t].wr + 1)).(owner := Some(t))
  }

  /** Semaphore_post of sem: hand-off to the first waiting writer, else a count. */
  function PostSem(s: State): State {
    if s.semQ != [] && s.semQ[0] < |s.th| then
      Put(s, s.semQ[0], s.th[s.semQ[0]].(phase := WrGranted)).(semQ := s.semQ[1..])
    else s.(count := s.count + 1)
  }

  function Woken(x: Thread): Thread {
    if x.phase.RdWait? then x.(phase := RdWoken(x.phase.left, x.phase.cur)) else x
  }

  /** Semaphore_post of readSem. */
  function PostRead(s: State): State {
    if s.rdQ != [] && s.rdQ[0] < |s.th| then
      Put(s, s.rdQ[0], Woken(s.th[s.rdQ[0]])).(rdQ := s.rdQ[1..])
    else s.(rdCount := s.rdCount + 1)
  }

  /** pthread_rwlock_unlock up to the loop: lines 229-237, or the post of sem in line 245. */
  function Unlock(s: State, t: Tid): State
    requires t < |s.th| && (if s.active > 0 then s.th[t].rd > 0 else s.th[t].wr > 0)
  {
    var x := s.th[t];
    if s.active > 0 then
      var s1 := Put(s, t, x.(rd := x.rd - 1)).(active := s.active - 1);
      if s1.active == 0 then PostSem(s1.(owner := None)) else s1
    else
      PostSem(Put(s, t, x.(wr := x.wr - 1))).(posting := Some(Poster(t, 0)))
  }

  /** One turn of the loop in lines 248-250. */
  function PostOne(s: State): State
    requires s.posting.Some?
  {
    PostRead(s).(posting := Some(Poster(s.posting.value.t, s.posting.value.posts + 1)))
  }

  /** Lines 252-254: the end of a writer's unlock. */
  function UnlockEnd(s: State): State {
    s.(owner := None, posting := None)
  }

  // ---------------------------------------------------------------- runs

  datatype Event =
    | ERdEnter(t: Tid, timeout: int, now: int)
    | ERdPend(t: Tid)
    | ERdExpire(t: Tid)
    | ERdQuit(t: Tid)
    | ERdResume(t: Tid, now: int)
    | EWrEnter(t: Tid, timeout: int)
    | EWrExpire(t: Tid)
    | EWrOwn(t: Tid)
    | EUnlock(t: Tid)
    | EPostOne(t: Tid)
    | EUnlockEnd(t: Tid)

  /** While a writer posts, the scheduler is locked: only it and the clocks run. */
  predicate Enabled(s: State, e: Event) {
    && e.t < |s.th|
    && var ph := s.th[e.t].phase;
       match e {
         case ERdEnter(t, timeout, now) => s.posting.None? && ph.Idle? && 0 <= timeout <= FOREVER && 0 <= now < TWO32
         case ERdPend(t) => s.posting.None? && ph.RdPrePend?
         case ERdExpire(t) => ph.RdWait? && ph.left != FOREVER
         case ERdQuit(t) => s.posting.None? && ph.RdTimedOut?
         case ERdResume(t, now) => s.posting.None? && ph.RdWoken? && 0 <= now < TWO32
         case EWrEnter(t, timeout) => s.posting.None? && ph.Idle? && 0 <= timeout <= FOREVER
         case EWrExpire(t) => ph.WrWait? && ph.left != FOREVER
         case EWrOwn(t) => s.posting.None? && ph.WrGranted?
         case EUnlock(t) => s.posting.None? && ph.Idle? && (s.th[t].rd > 0 || s.th[t].wr > 0)
         case EPostOne(t) => s.posting.Some? && s.posting.value.t == t && s.posting.value.posts < s.blocked
         case EUnlockEnd(t) => s.posting.Some? && s.posting.value.t == t && s.posting.value.posts >= s.blocked
       }
  }

  /** The state after e. An unlock by a thread without the kind of lock that is held has no meaning. */
  ghost predicate Next(s: State, e: Event, s': State) {
    && Enabled(s, e)
    && match e {
         case ERdEnter(t, timeout, now) => s' == RdEnter(s, t, timeout, now).0
         case ERdPend(t) => s' == RdPend(s, t)
         case ERdExpire(t) => s' == RdExpire(s, t)
         case ERdQuit(t) => s' == RdQuit(s, t)
         case ERdResume(t, now) => s' == RdResume(s, t, now).0
         case EWrEnter(t, timeout) => s' == WrEnter(s, t, timeout).0
         case EWrExpire(t) => s' == WrExpire(s, t)
         case EWrOwn(t) => s' == WrOwn(s, t)
         case EUnlock(t) => (if s.active > 0 then s.th[t].rd > 0 else s.th[t].wr > 0) && s' == Unlock(s, t)
         case EPostOne(t) => s' == PostOne(s)
         case EUnlockEnd(t) => s' == UnlockEnd(s)
       }
  }

  // ---------------------------------------------------------------- counting threads

  datatype Measure = Reads | Writers | PrePends | Waits | Blockeds

  function Weight(x: Thread, k: Measure): nat {
    match k
    case Reads => x.rd
    case Writers => x.wr + (if x.phase.WrGranted? then 1 else 0)
    case PrePends => if x.phase.RdPrePend? then 1 else 0
    case Waits => if x.phase.RdWait? then 1 else 0
    case Blockeds => if x.phase.RdPrePend? || x.phase.RdWait? || x.phase.RdWoken? || x.phase.RdTimedOut? then 1 else 0
  }

  function Total(th: seq<Thread>, k: Measure): nat {
    if th == [] then 0 else Weight(th[0], k) + Total(th[1..], k)
  }

  lemma {:induction false} TotalPut(th: seq<Thread>, t: Tid, x: Thread, k: Measure)
    requires t < |th|
    ensures Total(th[t := x], k) == Total(th, k) - Weight(th[t], k) + Weight(x, k)
    ensures Weight(th[t], k) <= Total(th, k)
  {
    var th' := th[t := x];
    if t == 0 {
      assert th'[1..] == th[1..];
    } else {
      TotalPut(th[1..], t - 1, x, k);
      assert th'[1..] == th[1..][t - 1 := x];
    }
  }

  lemma {:induction false} TotalZero(th: seq<Thread>, k: Measure)
    requires Total(th, k) == 0
    ensures forall t :: 0 <= t < |th| ==> Weight(th[t], k) == 0
  {
    forall t | 0 <= t < |th| ensures Weight(th[t], k) == 0 {
      TotalPut(th, t, th[t], k);
    }
  }

  /** When the total is one, all of it is one thread's. */
  lemma {:induction false} TotalOne(th: seq<Thread>, t: Tid, k: Measure)
    requires t < |th| && Weight(th[t], k) >= 1 && Total(th, k) <= 1
    ensures Weight(th[t], k) == 1 && forall u :: 0 <= u < |th| && u != t ==> Weight(th[u], k) == 0
  {
    var none := Thread(Idle, 0, 0);
    TotalPut(th, t, none, k);
    TotalZero(th[t := none], k);
    forall u | 0 <= u < |th| && u != t ensures Weight(th[u], k) == 0 {
      assert th[t := none][u] == th[u];
    }
  }

  // ---------------------------------------------------------------- the invariant

  function Bit(b: bool): int {
    if b then 1 else 0
  }

  /** sem's count, "some reader is active" and "a writer is granted or holds" sum to one. */
  ghost predicate OneHolder(s: State) {
    s.count + Bit(s.active > 0) + Total(s.th, Writers) == 1
  }

  ghost predicate Counts(s: State) {
    && s.active == Total(s.th, Reads)
    && s.blocked == Total(s.th, Blockeds)
    && |s.rdQ| == Total(s.th, Waits)
  }

  ghost predicate Queues(s: State) {
    && Distinct(s.rdQ) && Distinct(s.semQ)
    && (forall t: Tid :: t in s.rdQ <==> t < |s.th| && s.th[t].phase.RdWait?)
    && (forall t: Tid :: t in s.semQ <==> t < |s.th| && s.th[t].phase.WrWait?)
    && (s.count > 0 ==> s.semQ == [])
    && (s.rdCount > 0 ==> s.rdQ == [])
  }

  /** Posts of readSem the unlocking writer has still to make. */
  ghost function Pending(s: State): int {
    if s.posting.Some? then s.blocked - s.posting.value.posts else 0
  }

  /** Without a writer, every reader on its way to readSem or waiting there is covered by a token or a post to come. */
  ghost predicate Covered(s: State) {
    && 0 <= Pending(s)
    && (Total(s.th, Writers) == 0 ==> |s.rdQ| + Total(s.th, PrePends) <= s.rdCount + Pending(s))
  }

  ghost predicate OwnerOk(s: State) {
    && (s.posting.Some? ==> s.active == 0 && s.owner == Some(s.posting.value.t) && Total(s.th, Writers) + s.count == 1)
    && (s.posting.Some? ==> forall u :: 0 <= u < |s.th| ==> s.th[u].wr == 0)
    && (s.posting.None? ==>
          && (s.active > 0 ==> s.owner.Some?)
          && (forall u: Tid :: u < |s.th| && s.th[u].wr > 0 ==> s.owner == Some(u))
          && (s.active == 0 && (forall u :: 0 <= u < |s.th| ==> s.th[u].wr == 0) ==> s.owner.None?))
  }

  ghost predicate Good(s: State) {
    OneHolder(s) && Counts(s) && Queues(s) && Covered(s) && OwnerOk(s)
  }

  ghost predicate Init(s: State) {
    && s.count == 1 && s.semQ == [] && s.rdCount == 0 && s.rdQ == [] && s.active == 0 && s.blocked == 0
    && s.owner == None && s.posting == None
    && forall t :: 0 <= t < |s.th| ==> s.th[t] == Thread(Idle, 0, 0)
  }

  lemma {:induction false} IdleTotals(th: seq<Thread>, k: Measure)
    requires forall t :: 0 <= t < |th| ==> th[t] == Thread(Idle, 0, 0)
    ensures Total(th, k) == 0
  {
    if th != [] {
      IdleTotals(th[1..], k);
    }
  }

  lemma InitGood(s: State)
    requires Init(s)
    ensures Good(s)
  {
    IdleTotals(s.th, Reads);
    IdleTotals(s.th, Writers);
    IdleTotals(s.th, PrePends);
    IdleTotals(s.th, Waits);
    IdleTotals(s.th, Blockeds);
  }

  // ---------------------------------------------------------------- every step keeps the invariant

  /** How all five totals move when thread t becomes x. */
  lemma Moves(s: State, t: Tid, x: Thread)
    requires t < |s.th|
    ensures var th' := Put(s, t, x).th;
            && Total(th', Reads) == Total(s.th, Reads) - s.th[t].rd + x.rd
            && Total(th', Writers) == Total(s.th, Writers) - Weight(s.th[t], Writers) + Weight(x, Writers)
            && Total(th', PrePends) == Total(s.th, PrePends) - Weight(s.th[t], PrePends) + Weight(x, PrePends)
            && Total(th', Waits) == Total(s.th, Waits) - Weight(s.th[t], Waits) + Weight(x, Waits)
            && Total(th', Blockeds) == Total(s.th, Blockeds) - Weight(s.th[t], Blockeds) + Weight(x, Blockeds)
    ensures s.th[t].rd <= Total(s.th, Reads) && Weight(s.th[t], Writers) <= Total(s.th, Writers)
    ensures Weight(s.th[t], PrePends) + Weight(s.th[t], Waits) <= Total(s.th, PrePends) + Total(s.th, Waits)
  {
    TotalPut(s.th, t, x, Reads);
    TotalPut(s.th, t, x, Writers);
    TotalPut(s.th, t, x, PrePends);
    TotalPut(s.th, t, x, Waits);
    TotalPut(s.th, t, x, Blockeds);
  }

  /** Readers on their way to readSem or waiting there are blocked readers. */
  lemma {:induction false} BlockedsCover(th: seq<Thread>)
    ensures Total(th, PrePends) + Total(th, Waits) <= Total(th, Blockeds)
  {
    if th != [] {
      BlockedsCover(th[1..]);
    }
  }

  /** With no writer counted nobody holds a write lock or is about to. */
  lemma NoWriter(s: State)
    ensures Total(s.th, Writers) == 0 ==> forall u :: 0 <= u < |s.th| ==> s.th[u].wr == 0 && !s.th[u].phase.WrGranted?
  {
    if Total(s.th, Writers) == 0 {
      TotalZero(s.th, Writers);
      forall u | 0 <= u < |s.th| ensures s.th[u].wr == 0 && !s.th[u].phase.WrGranted? {
        assert Weight(s.th[u], Writers) == 0;
      }
    }
  }

  /** A granted writer is the only writer there is. */
  lemma OnlyWriter(s: State, t: Tid)
    requires OneHolder(s) && t < |s.th| && Weight(s.th[t], Writers) >= 1
    ensures s.count == 0 && s.active <= 0 && Weight(s.th[t], Writers) == 1
    ensures forall u :: 0 <= u < |s.th| && u != t ==> s.th[u].wr == 0 && !s.th[u].phase.WrGranted?
  {
    TotalPut(s.th, t, s.th[t], Writers);
    TotalOne(s.th, t, Writers);
    forall u | 0 <= u < |s.th| && u != t ensures s.th[u].wr == 0 && !s.th[u].phase.WrGranted? {
      assert Weight(s.th[u], Writers) == 0;
    }
  }

  lemma RdEnterGood(s: State, t: Tid, timeout: int, now: int)
    requires Good(s) && s.posting.None? && t < |s.th| && s.th[t].phase.Idle?
    ensures Good(RdEnter(s, t, timeout, now).0)
    ensures s.active == 0 && s.count > 0 ==> s.owner.None?
  {
    hide Total;
    NoWriter(s);
    Moves(s, t, s.th[t].(rd := s.th[t].rd + 1));
    Moves(s, t, s.th[t].(phase := RdPrePend(timeout, now)));
  }

  lemma RdPendGood(s: State, t: Tid)
    requires Good(s) && s.posting.None? && t < |s.th| && s.th[t].phase.RdPrePend?
    ensures Good(RdPend(s, t))
  {
    hide Total;
    var x := s.th[t];
    Moves(s, t, x.(phase := RdWoken(x.phase.left, x.phase.cur)));
    Moves(s, t, x.(phase := RdWait(x.phase.left, x.phase.cur)));
    AppendDistinct(s.rdQ, t);
  }

  lemma RdExpireGood(s: State, t: Tid)
    requires Good(s) && t < |s.th| && s.th[t].phase.RdWait?
    ensures Good(RdExpire(s, t))
  {
    hide Total;
    Moves(s, t, s.th[t].(phase := RdTimedOut));
    WithoutMembers(s.rdQ, t);
  }

  lemma RdQuitGood(s: State, t: Tid)
    requires Good(s) && s.posting.None? && t < |s.th| && s.th[t].phase.RdTimedOut?
    ensures Good(RdQuit(s, t))
  {
    hide Total;
    Moves(s, t, s.th[t].(phase := Idle));
  }

  lemma RdResumeGetsGood(s: State, t: Tid, now: int)
    requires Good(s) && s.posting.None? && t < |s.th| && s.th[t].phase.RdWoken? && (s.active > 0 || s.count > 0)
    ensures Good(RdResume(s, t, now).0)
    ensures s.active == 0 ==> s.owner.None?
  {
    hide Total, Delta;
    NoWriter(s);
    Moves(s, t, s.th[t].(phase := Idle, rd := s.th[t].rd + 1));
  }

  lemma RdResumeWaitsGood(s: State, t: Tid, now: int)
    requires Good(s) && s.posting.None? && t < |s.th| && s.th[t].phase.RdWoken? && s.active <= 0 && s.count == 0
    ensures Good(RdResume(s, t, now).0)
  {
    hide Total, Delta;
    var x := s.th[t];
    var left, cur := x.phase.left, x.phase.cur;
    Moves(s, t, x.(phase := Idle));
    Moves(s, t, x.(phase := RdPrePend(left - Delta(cur, now), now)));
    Moves(s, t, x.(phase := RdPrePend(left, cur)));
  }

  lemma WrEnterGood(s: State, t: Tid, timeout: int)
    requires Good(s) && s.posting.None? && t < |s.th| && s.th[t].phase.Idle?
    ensures Good(WrEnter(s, t, timeout).0)
  {
    hide Total;
    NoWriter(s);
    Moves(s, t, s.th[t].(phase := WrGranted));
    Moves(s, t, s.th[t].(phase := WrWait(timeout)));
    AppendDistinct(s.semQ, t);
  }

  lemma WrExpireGood(s: State, t: Tid)
    requires Good(s) && t < |s.th| && s.th[t].phase.WrWait?
    ensures Good(WrExpire(s, t))
  {
    hide Total;
    Moves(s, t, s.th[t].(phase := Idle));
    WithoutMembers(s.semQ, t);
  }

  /** The assertions of the new owner hold: nobody owns the lock and no reader is active. */
  lemma WrOwnGood(s: State, t: Tid)
    requires Good(s) && s.posting.None? && t < |s.th| && s.th[t].phase.WrGranted?
    ensures Good(WrOwn(s, t))
    ensures s.owner.None? && s.active == 0
  {
    hide Total;
    OnlyWriter(s, t);
    Moves(s, t, s.th[t].(phase := Idle, wr := s.th[t].wr + 1));
  }

  /** Posting sem makes room for one holder, and changes nothing else that the invariant mentions. */
  lemma PostSemMoves(s: State)
    requires Queues(s)
    ensures var p := PostSem(s);
            && p == s.(count := p.count, semQ := p.semQ, th := p.th) && |p.th| == |s.th|
            && p.count + Total(p.th, Writers) == s.count + Total(s.th, Writers) + 1
            && Total(p.th, Reads) == Total(s.th, Reads) && Total(p.th, Blockeds) == Total(s.th, Blockeds)
            && Total(p.th, Waits) == Total(s.th, Waits) && Total(p.th, PrePends) == Total(s.th, PrePends)
            && Queues(p)
            && forall u :: 0 <= u < |s.th| ==> p.th[u].wr == s.th[u].wr
  {
    hide Total;
    if s.semQ != [] {
      var w := s.semQ[0];
      assert w in s.semQ;
      Moves(s, w, s.th[w].(phase := WrGranted));
      PopMembers(s.semQ);
    }
  }

  lemma UnlockReaderGood(s: State, t: Tid)
    requires Good(s) && s.posting.None? && t < |s.th| && s.th[t].phase.Idle?
    requires s.active > 0 && s.th[t].rd > 0
    ensures Good(Unlock(s, t))
  {
    hide Total;
    NoWriter(s);
    var x := s.th[t].(rd := s.th[t].rd - 1);
    Moves(s, t, x);
    var s1 := Put(s, t, x).(active := s.active - 1);
    if s1.active == 0 {
      PostSemMoves(s1.(owner := None));
      NoWriter(s1);
    }
  }

  lemma UnlockWriterGood(s: State, t: Tid)
    requires Good(s) && s.posting.None? && t < |s.th| && s.th[t].phase.Idle?
    requires s.active <= 0 && s.th[t].wr > 0
    ensures Good(Unlock(s, t))
  {
    hide Total;
    OnlyWriter(s, t);
    var x := s.th[t].(wr := s.th[t].wr - 1);
    Moves(s, t, x);
    PostSemMoves(Put(s, t, x));
    BlockedsCover(PostSem(Put(s, t, x)).th);
  }

  lemma PostOneGood(s: State)
    requires Good(s) && s.posting.Some? && s.posting.value.posts < s.blocked
    ensures Good(PostOne(s))
  {
    hide Total;
    if s.rdQ != [] {
      var w := s.rdQ[0];
      assert w in s.rdQ;
      Moves(s, w, Woken(s.th[w]));
      PopMembers(s.rdQ);
    }
  }

  /** The unlocking writer is still owner when its posts are done, and leaves no reader waiting without a writer. */
  lemma UnlockEndGood(s: State)
    requires Good(s) && s.posting.Some? && s.posting.value.posts >= s.blocked
    ensures Good(UnlockEnd(s))
    ensures s.owner == Some(s.posting.value.t) && s.active == 0
  {
    hide Total;
  }

  lemma NextGood(s: State, e: Event, s': State)
    requires Good(s) && Next(s, e, s')
    ensures Good(s')
  {
    hide Good, RdEnter, RdPend, RdExpire, RdQuit, RdResume, WrEnter, WrExpire, WrOwn, Unlock, PostOne, UnlockEnd;
    match e {
      case ERdEnter(t, timeout, now) => RdEnterGood(s, t, timeout, now);
      case ERdPend(t) => RdPendGood(s, t);
      case ERdExpire(t) => RdExpireGood(s, t);
      case ERdQuit(t) => RdQuitGood(s, t);
      case ERdResume(t, now) =>
        if s.active > 0 || s.count > 0 {
          RdResumeGetsGood(s, t, now);
        } else {
          RdResumeWaitsGood(s, t, now);
        }
      case EWrEnter(t, timeout) => WrEnterGood(s, t, timeout);
      case EWrExpire(t) => WrExpireGood(s, t);
      case EWrOwn(t) => WrOwnGood(s, t);
      case EUnlock(t) =>
        if s.active > 0 {
          UnlockReaderGood(s, t);
        } else {
          UnlockWriterGood(s, t);
        }
      case EPostOne(t) => PostOneGood(s);
      case EUnlockEnd(t) => UnlockEndGood(s);
    }
  }

  // ---------------------------------------------------------------- what holds in every run

  ghost predicate Run(states: seq<State>, events: seq<Event>) {
    && |states| == |events| + 1 && Init(states[0])
    && forall i :: 0 <= i < |events| ==> Next(states[i], events[i], states[i + 1])
  }

  lemma {:induction false} RunGood(states: seq<State>, events: seq<Event>)
    requires Run(states, events)
    ensures Good(states[|events|])
    decreases |events|
  {
    if |events| == 0 {
      InitGood(states[0]);
    } else {
      var n := |events| - 1;
      var ss, es := states[..n + 1], events[..n];
      forall i | 0 <= i < n ensures Next(ss[i], es[i], ss[i + 1]) {
        assert Next(states[i], events[i], states[i + 1]);
      }
      RunGood(ss, es);
      assert Next(states[n], events[n], states[n + 1]);
      NextGood(states[n], events[n], states[n + 1]);
    }
  }

  /** Never two writers, never a writer with a reader: counting a granted writer as one. */
  lemma Exclusion(states: seq<State>, events: seq<Event>, t: Tid, u: Tid)
    requires Run(states, events)
    requires t < |states[|events|].th| && u < |states[|events|].th|
    ensures var s := states[|events|];
            (s.th[t].wr > 0 || s.th[t].phase.WrGranted?) ==>
              && s.th[u].rd == 0 && s.th[t].wr + Bit(s.th[t].phase.WrGranted?) == 1
              && (u != t ==> s.th[u].wr == 0 && !s.th[u].phase.WrGranted?)
  {
    RunGood(states, events);
    var s := states[|events|];
    if s.th[t].wr > 0 || s.th[t].phase.WrGranted? {
      OnlyWriter(s, t);
      TotalPut(s.th, u, s.th[u], Reads);
    }
  }

  ghost predicate NoWriterAround(s: State) {
    s.posting.None? && forall u :: 0 <= u < |s.th| ==> s.th[u].wr == 0 && !s.th[u].phase.WrGranted?
  }

  lemma {:induction false} NoWritersTotal(th: seq<Thread>)
    requires forall u :: 0 <= u < |th| ==> th[u].wr == 0 && !th[u].phase.WrGranted?
    ensures Total(th, Writers) == 0
  {
    if th != [] {
      NoWritersTotal(th[1..]);
    }
  }

  /**
   With no writer granted, holding or unlocking, no reader is stranded: none is blocked on readSem, each one about
   to pend finds a token, and each one that holds a token gets the lock at its next step.
   */
  lemma NoReaderStranded(states: seq<State>, events: seq<Event>, t: Tid, now: int)
    requires Run(states, events) && t < |states[|events|].th| && NoWriterAround(states[|events|])
    ensures var s := states[|events|];
            && !s.th[t].phase.RdWait?
            && Total(s.th, PrePends) <= s.rdCount
            && (s.th[t].phase.RdPrePend? ==> RdPend(s, t).th[t].phase.RdWoken?)
            && (s.th[t].phase.RdWoken? ==> RdResume(s, t, now).1 == Acquired)
  {
    RunGood(states, events);
    var s := states[|events|];
    NoWritersTotal(s.th);
    TotalPut(s.th, t, s.th[t], PrePends);
    TotalPut(s.th, t, s.th[t], Waits);
  }

  /** A writer waits only while somebody holds the lock, has been granted it, or has just let go of it. */
  lemma WriterWaitsForHolder(states: seq<State>, events: seq<Event>, t: Tid)
    requires Run(states, events) && t < |states[|events|].th| && states[|events|].th[t].phase.WrWait?
    ensures var s := states[|events|];
            s.active > 0 || exists u :: 0 <= u < |s.th| && (s.th[u].wr > 0 || s.th[u].phase.WrGranted?)
  {
    RunGood(states, events);
    var s := states[|events|];
    assert t in s.semQ;
    if !exists u :: 0 <= u < |s.th| && (s.th[u].wr > 0 || s.th[u].phase.WrGranted?) {
      NoWritersTotal(s.th);
    }
  }

  /** owner, the field pthread_rwlock_destroy looks at, is set exactly while somebody holds the lock. */
  lemma OwnerMeansHeld(states: seq<State>, events: seq<Event>)
    requires Run(states, events) && states[|events|].posting.None?
    ensures var s := states[|events|];
            s.owner.Some? <==> exists u :: 0 <= u < |s.th| && (s.th[u].rd > 0 || s.th[u].wr > 0)
  {
    RunGood(states, events);
    var s := states[|events|];
    if s.active > 0 {
      if forall u :: 0 <= u < |s.th| ==> s.th[u].rd == 0 {
        NoReadersTotal(s.th);
      }
    } else {
      TotalZero(s.th, Reads);
      forall u | 0 <= u < |s.th| ensures s.th[u].rd == 0 {
        assert Weight(s.th[u], Reads) == 0;
      }
    }
  }

  lemma {:induction false} NoReadersTotal(th: seq<Thread>)
    requires forall u :: 0 <= u < |th| ==> th[u].rd == 0
    ensures Total(th, Reads) == 0
  {
    if th != [] {
      NoReadersTotal(th[1..]);
    }
  }

  // ---------------------------------------------------------------- the assertion of line 230

  /** A reader between its wake-up or time-out and its next step, or about to pend. */
  predicate InTransit(x: Thread) {
    x.phase.RdPrePend? || x.phase.RdWoken? || x.phase.RdTimedOut?
  }

  /** A reader's unlock may assert that no reader is blocked exactly when no reader is in transit. */
  lemma BlockedAssertionIff(states: seq<State>, events: seq<Event>)
    requires Run(states, events) && states[|events|].active > 0
    ensures var s := states[|events|];
            s.blocked == 0 <==> forall u :: 0 <= u < |s.th| ==> !InTransit(s.th[u])
  {
    RunGood(states, events);
    var s := states[|events|];
    assert s.rdQ == [];
    if s.blocked == 0 {
      TotalZero(s.th, Blockeds);
      forall u | 0 <= u < |s.th| ensures !InTransit(s.th[u]) {
        assert Weight(s.th[u], Blockeds) == 0;
      }
    } else if forall u :: 0 <= u < |s.th| ==> !InTransit(s.th[u]) {
      forall u | 0 <= u < |s.th| ensures !s.th[u].phase.RdWait? {
        TotalPut(s.th, u, s.th[u], Waits);
      }
      NoneBlocked(s.th);
    }
  }

  lemma {:induction false} NoneBlocked(th: seq<Thread>)
    requires forall u :: 0 <= u < |th| ==> !InTransit(th[u]) && !th[u].phase.RdWait?
    ensures Total(th, Blockeds) == 0
  {
    if th != [] {
      NoneBlocked(th[1..]);
    }
  }

  /** A thread with no lock in the given phase. */
  function In(phase: Phase): Thread {
    Thread(phase, 0, 0)
  }

  lemma Extend(states: seq<State>, events: seq<Event>, e: Event, s: State) returns (states': seq<State>, events': seq<Event>)
    requires |states| == |events| + 1 && Run(states, events) && Next(states[|events|], e, s)
    ensures |states'| == |events'| + 1 && Run(states', events') && states'[|events'|] == s
  {
    states', events' := states + [s], events + [e];
    forall i | 0 <= i < |events'| ensures Next(states'[i], events'[i], states'[i + 1]) {
      if i < |events| {
        assert Next(states[i], events[i], states[i + 1]);
      }
    }
  }

  /** Thread 0 write-locks the lock and thread 1 blocks on readSem. */
  lemma ReaderBehindWriter() returns (states: seq<State>, events: seq<Event>)
    ensures |states| == |events| + 1 && Run(states, events)
    ensures states[|events|] == State(0, [], 0, [1], 0, 1, Some(0), None, [Thread(Idle, 0, 1), In(RdWait(FOREVER, 0)), In(Idle)])
  {
    hide Run;
    var s0 := State(1, [], 0, [], 0, 0, None, None, [In(Idle), In(Idle), In(Idle)]);
    states, events := Start(s0);
    var s1 := State(0, [], 0, [], 0, 0, None, None, [In(WrGranted), In(Idle), In(Idle)]);
    assert WrEnter(s0, 0, 0).0 == s1;
    states, events := Extend(states, events, EWrEnter(0, 0), s1);
    var s2 := State(0, [], 0, [], 0, 0, Some(0), None, [Thread(Idle, 0, 1), In(Idle), In(Idle)]);
    assert WrOwn(s1, 0) == s2;
    states, events := Extend(states, events, EWrOwn(0), s2);
    var s3 := State(0, [], 0, [], 0, 1, Some(0), None, [Thread(Idle, 0, 1), In(RdPrePend(FOREVER, 0)), In(Idle)]);
    assert RdEnter(s2, 1, FOREVER, 0).0 == s3;
    states, events := Extend(states, events, ERdEnter(1, FOREVER, 0), s3);
    var s4 := State(0, [], 0, [1], 0, 1, Some(0), None, [Thread(Idle, 0, 1), In(RdWait(FOREVER, 0)), In(Idle)]);
    assert RdPend(s3, 1) == s4;
    states, events := Extend(states, events, ERdPend(1), s4);
  }

  lemma Start(s: State) returns (states: seq<State>, events: seq<Event>)
    requires Init(s)
    ensures |states| == |events| + 1 && Run(states, events) && states[|events|] == s
  {
    states, events := [s], [];
  }

  /**
   The assertion does fail: a writer's unlock wakes a reader, and before that reader runs another one takes the lock
   and is about to release it.
   */
  lemma BlockedAssertionFails() returns (states: seq<State>, events: seq<Event>)
    ensures |states| == |events| + 1 && Run(states, events)
    ensures var s := states[|events|];
            |s.th| == 3 && Enabled(s, EUnlock(2)) && s.th[2].rd == 1 && s.active == 1 && s.blocked == 1
  {
    states, events := ReaderBehindWriter();
    var s4 := states[|events|];
    hide Run;
    var s5 := State(1, [], 0, [1], 0, 1, Some(0), Some(Poster(0, 0)), [In(Idle), In(RdWait(FOREVER, 0)), In(Idle)]);
    assert Unlock(s4, 0) == s5;
    states, events := Extend(states, events, EUnlock(0), s5);
    var s6 := State(1, [], 0, [], 0, 1, Some(0), Some(Poster(0, 1)), [In(Idle), In(RdWoken(FOREVER, 0)), In(Idle)]);
    assert PostOne(s5) == s6;
    states, events := Extend(states, events, EPostOne(0), s6);
    var s7 := UnlockEnd(s6);
    states, events := Extend(states, events, EUnlockEnd(0), s7);
    var s8 := State(0, [], 0, [], 1, 1, Some(2), None, [In(Idle), In(RdWoken(FOREVER, 0)), Thread(Idle, 1, 0)]);
    assert RdEnter(s7, 2, 0, 0).0 == s8;
    states, events := Extend(states, events, ERdEnter(2, 0, 0), s8);
  }
}
