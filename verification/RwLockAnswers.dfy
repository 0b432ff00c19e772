/**
 What the calls of pthread_rwlock.c answer, in terms of who holds the lock: for every state that a run can reach.
 */
module RwLockAnswers {
  import opened Base
  import opened RwLock

  /** Some thread holds the lock for writing or has been granted it. */
  ghost predicate WriterThere(s: State) {
    exists u :: 0 <= u < |s.th| && (s.th[u].wr > 0 || s.th[u].phase.WrGranted?)
  }

  ghost predicate ReaderThere(s: State) {
    exists u :: 0 <= u < |s.th| && s.th[u].rd > 0
  }

  /** Between unlocks the three words of the lock say who is there. */
  lemma WordsSay(s: State)
    requires Good(s) && s.posting.None?
    ensures WriterThere(s) <==> s.active <= 0 && s.count == 0
    ensures ReaderThere(s) <==> s.active > 0
    ensures s.count > 0 <==> !WriterThere(s) && !ReaderThere(s)
  {
    if u :| 0 <= u < |s.th| && (s.th[u].wr > 0 || s.th[u].phase.WrGranted?) {
      TotalPut(s.th, u, s.th[u], Writers);
    } else {
      NoWritersTotal(s.th);
    }
    if u :| 0 <= u < |s.th| && s.th[u].rd > 0 {
      TotalPut(s.th, u, s.th[u], Reads);
    } else {
      NoReadersTotal(s.th);
    }
  }

  /**
   A read-lock call up to its loop. 0 exactly when no writer is there, and then the thread holds one read lock more; EBUSY
   exactly when a writer is there and the call does not wait, and then nothing has changed; else it is counted as blocked.
   */
  lemma RdEnterAnswers(s: State, t: Tid, timeout: int, now: int)
    requires Good(s) && Enabled(s, ERdEnter(t, timeout, now))
    ensures var (s', r) := RdEnter(s, t, timeout, now);
            && |s'.th| == |s.th|
            && (r == Acquired <==> !WriterThere(s)) && (r == Acquired <==> s'.th[t].rd == s.th[t].rd + 1)
            && (r == Busy <==> WriterThere(s) && timeout == 0) && (r == Busy ==> s' == s)
            && (r == Blocks <==> WriterThere(s) && timeout != 0) && (r == Blocks <==> s'.th[t].phase.RdPrePend?)
            && (r == Blocks ==> s'.blocked == s.blocked + 1 && s'.th[t].rd == s.th[t].rd)
            && (r == Acquired || r == Busy || r == Blocks)
            && s'.th[t].wr == s.th[t].wr
  {
    WordsSay(s);
  }

  /** One turn of the loop of a reader that was woken: 0 exactly when no writer is there. */
  lemma RdResumeAnswers(s: State, t: Tid, now: int)
    requires Good(s) && Enabled(s, ERdResume(t, now))
    ensures var (s', r) := RdResume(s, t, now);
            && |s'.th| == |s.th|
            && (r == Acquired <==> !WriterThere(s)) && (r == Acquired <==> s'.th[t].rd == s.th[t].rd + 1)
            && (r != Acquired ==> s'.th[t].rd == s.th[t].rd)
            && (r == Retries <==> s'.th[t].phase.RdPrePend?) && (r != Retries <==> s'.th[t].phase.Idle?)
            && (r == Acquired || r == TimedOut || r == Retries)
            && s'.blocked == (if r == Retries then s.blocked else s.blocked - 1)
            && s'.th[t].wr == s.th[t].wr
  {
    WordsSay(s);
  }

  /** A write-lock call's pend on sem: obtained exactly when nobody is there; EBUSY exactly when somebody is and it does not wait. */
  lemma WrEnterAnswers(s: State, t: Tid, timeout: int)
    requires Good(s) && Enabled(s, EWrEnter(t, timeout))
    ensures var (s', r) := WrEnter(s, t, timeout);
            && |s'.th| == |s.th|
            && (r == Acquired <==> !WriterThere(s) && !ReaderThere(s)) && (r == Acquired <==> s'.th[t].phase.WrGranted?)
            && (r == Busy <==> (WriterThere(s) || ReaderThere(s)) && timeout == 0) && (r == Busy ==> s' == s)
            && (r == Blocks <==> (WriterThere(s) || ReaderThere(s)) && timeout != 0) && (r == Blocks <==> s'.th[t].phase.WrWait?)
            && (r == Blocks ==> s'.semQ == s.semQ + [t])
            && (r == Acquired || r == Busy || r == Blocks)
            && s'.th[t].rd == s.th[t].rd && s'.th[t].wr == s.th[t].wr
  {
    WordsSay(s);
  }

  /** What a step adds to the read locks and to the write locks of thread u. */
  ghost function ReadsGained(s: State, e: Event, u: Tid): int
    requires Enabled(s, e)
  {
    if e.t != u then 0
    else match e
      case ERdEnter(t, timeout, now) => if RdEnter(s, t, timeout, now).1 == Acquired then 1 else 0
      case ERdResume(t, now) => if RdResume(s, t, now).1 == Acquired then 1 else 0
      case EUnlock(t) => if s.active > 0 then -1 else 0
      case _ => 0
  }

  ghost function WritesGained(s: State, e: Event, u: Tid): int {
    if e.t != u then 0 else if e.EWrOwn? then 1 else if e.EUnlock? && s.active <= 0 then -1 else 0
  }

  lemma OthersBooks(s: State, e: Event, s': State, u: Tid)
    requires Good(s) && Next(s, e, s') && u < |s.th| && u != e.t
    ensures |s'.th| == |s.th| && s'.th[u].rd == s.th[u].rd && s'.th[u].wr == s.th[u].wr
  {
    HeadsThere(s);
    hide Good, Delta;
  }

  lemma OwnBooks(s: State, e: Event, s': State)
    requires Good(s) && Next(s, e, s')
    ensures e.t < |s.th| == |s'.th|
    ensures s'.th[e.t].rd == s.th[e.t].rd + ReadsGained(s, e, e.t)
    ensures s'.th[e.t].wr == s.th[e.t].wr + WritesGained(s, e, e.t)
  {
    HeadsThere(s);
    hide Good, Delta;
  }

  /**
   The books of the clients: in every step each thread gains and loses exactly the locks that the calls' answers say, a
   read lock with each 0 of a read-lock call, a write lock with each 0 of a write-lock call, one fewer with each unlock.
   */
  lemma BooksKept(s: State, e: Event, s': State, u: Tid)
    requires Good(s) && Next(s, e, s') && u < |s.th|
    ensures |s'.th| == |s.th|
    ensures s'.th[u].rd == s.th[u].rd + ReadsGained(s, e, u)
    ensures s'.th[u].wr == s.th[u].wr + WritesGained(s, e, u)
  {
    hide Next, Good;
    if u == e.t {
      OwnBooks(s, e, s');
    } else {
      OthersBooks(s, e, s', u);
    }
  }

  lemma HeadsThere(s: State)
    requires Good(s)
    ensures s.semQ != [] ==> s.semQ[0] < |s.th| && s.th[s.semQ[0]].phase.WrWait?
    ensures s.rdQ != [] ==> s.rdQ[0] < |s.th| && s.th[s.rdQ[0]].phase.RdWait?
  {
    assert s.semQ != [] ==> s.semQ[0] in s.semQ;
    assert s.rdQ != [] ==> s.rdQ[0] in s.rdQ;
  }

  /** An unlock that leaves the lock to nobody hands it to the writer that has waited longest, if one waits. */
  lemma UnlockHandsOn(s: State, t: Tid)
    requires Good(s) && s.posting.None? && t < |s.th| && (if s.active > 0 then s.active == 1 && s.th[t].rd > 0 else s.th[t].wr > 0)
    requires s.th[t].phase.Idle?
    ensures var s' := Unlock(s, t);
            && |s'.th| == |s.th| && s'.active == 0
            && (s.semQ == [] ==> s'.count == s.count + 1 && s'.semQ == [])
            && (s.semQ != [] ==> s.semQ[0] < |s.th| && s'.th[s.semQ[0]].phase.WrGranted? && s'.semQ == s.semQ[1..] && s'.count == s.count)
            && (s.active > 0 ==> s'.owner.None? && s'.posting.None?) && (s.active <= 0 ==> s'.posting == Some(Poster(t, 0)))
  {
    HeadsThere(s);
    if s.active <= 0 {
      TotalPut(s.th, t, s.th[t], Reads);
    }
  }

  /** A post of readSem wakes the reader that has waited longest, or is counted. */
  lemma PostWakesFirst(s: State)
    requires Good(s) && s.posting.Some?
    ensures var s' := PostOne(s);
            && |s'.th| == |s.th|
            && (s.rdQ == [] ==> s'.rdCount == s.rdCount + 1 && s'.rdQ == [])
            && (s.rdQ != [] ==> s.rdQ[0] < |s.th| && s'.th[s.rdQ[0]].phase.RdWoken? && s'.rdQ == s.rdQ[1..] && s'.rdCount == s.rdCount)
  {
    HeadsThere(s);
  }

  /** A pend on readSem takes a token if there is one and else joins the queue last; a time-out leaves the rest of it in order. */
  lemma ReadersQueue(s: State, t: Tid)
    requires Good(s) && t < |s.th|
    ensures s.th[t].phase.RdPrePend? ==>
              var s' := RdPend(s, t);
              if s.rdCount > 0 then s'.rdCount == s.rdCount - 1 && s'.rdQ == s.rdQ && |s'.th| == |s.th| && s'.th[t].phase.RdWoken?
              else s'.rdQ == s.rdQ + [t] && s'.rdCount == 0 && |s'.th| == |s.th| && s'.th[t].phase.RdWait?
    ensures s.th[t].phase.RdWait? ==> RdExpire(s, t).rdQ == Without(s.rdQ, t) && |RdExpire(s, t).th| == |s.th|
                                      && RdExpire(s, t).th[t].phase.RdTimedOut?
    ensures s.th[t].phase.WrWait? ==> WrExpire(s, t).semQ == Without(s.semQ, t) && |WrExpire(s, t).th| == |s.th|
                                      && WrExpire(s, t).th[t].phase.Idle?
  {
  }

  /** The calls that answer at once. */
  predicate Asks(e: Event) {
    e.ERdEnter? || e.ERdResume? || e.EWrEnter?
  }

  ghost function Answered(s: State, e: Event): (State, Outcome)
    requires Asks(e) && Enabled(s, e)
  {
    if e.ERdEnter? then RdEnter(s, e.t, e.timeout, e.now)
    else if e.ERdResume? then RdResume(s, e.t, e.now)
    else WrEnter(s, e.t, e.timeout)
  }

  /**
   Over runs: a read-lock call that answers 0 leaves its thread with a read lock beside no writer, and a write-lock call
   that answers 0 leaves it alone with the lock; EBUSY says that this was impossible.
   */
  lemma AnswersInRuns(states: seq<State>, events: seq<Event>, e: Event)
    requires Run(states, events) && Asks(e) && Enabled(states[|events|], e)
    ensures var s := states[|events|];
            var (s', r) := Answered(s, e);
            && |s'.th| == |s.th|
            && (r == Acquired && !e.EWrEnter? ==> s'.th[e.t].rd > 0 && !WriterThere(s'))
            && (r == Acquired && e.EWrEnter? ==>
                  !ReaderThere(s') && forall u :: 0 <= u < |s'.th| && u != e.t ==> s'.th[u].wr == 0 && !s'.th[u].phase.WrGranted?)
            && (r == Busy ==> s' == s && (WriterThere(s) || (e.EWrEnter? && ReaderThere(s))))
  {
    RunGood(states, events);
    var s := states[|events|];
    var s' := Answered(s, e).0;
    AnswerGood(s, e, s');
    hide Good;
    assert s'.posting.None?;
    WordsSay(s');
    if e.ERdEnter? {
      RdEnterAnswers(s, e.t, e.timeout, e.now);
      WordsSay(s);
    } else if e.ERdResume? {
      RdResumeAnswers(s, e.t, e.now);
      WordsSay(s);
    } else {
      WrEnterAnswers(s, e.t, e.timeout);
      if s'.th[e.t].phase.WrGranted? {
        WriterAlone(s', e.t);
      }
    }
  }

  lemma AnswerGood(s: State, e: Event, s': State)
    requires Good(s) && Asks(e) && Enabled(s, e) && s' == Answered(s, e).0
    ensures Good(s')
  {
    NextGood(s, e, s');
  }

  lemma WriterAlone(s: State, t: Tid)
    requires Good(s) && t < |s.th| && s.th[t].phase.WrGranted?
    ensures s.active <= 0
    ensures forall u :: 0 <= u < |s.th| && u != t ==> s.th[u].wr == 0 && !s.th[u].phase.WrGranted?
  {
    OnlyWriter(s, t);
  }
}
