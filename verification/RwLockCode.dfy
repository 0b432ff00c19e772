/**
 The functions of packages/ti/posix/tirtos/pthread_rwlock.c as code on the lock object: each method is one region that
 no other thread can enter, and does what the step of the same name in RwLock says. The assertions are the source's own,
 except the one of line 230, which does not hold.
 */
module RwLockCode {
  import opened Base
  import opened RwLock

  class Lock {
    var count: nat                  // sem
    var semQ: seq<Tid>
    var rdCount: nat                // readSem
    var rdQ: seq<Tid>
    var activeReaderCnt: int
    var blockedReaderCnt: int
    var owner: Option<Tid>
    ghost var posting: Option<Poster>
    ghost var th: seq<Thread>       // where the threads are, and what they hold

    ghost function S(): State
      reads this
    {
      State(count, semQ, rdCount, rdQ, activeReaderCnt, blockedReaderCnt, owner, posting, th)
    }

    /** pthread_rwlock_init, for threads that hold nothing yet. */
    constructor (ghost threads: nat)
      ensures Init(S()) && |S().th| == threads
    {
      count, semQ := 1, [];
      rdCount, rdQ := 0, [];
      activeReaderCnt, blockedReaderCnt := 0, 0;
      owner := None;
      posting := None;
      th := seq(threads, i => Thread(Idle, 0, 0));
    }

    /** Semaphore_post of sem. */
    method PostSem()
      requires semQ != [] ==> semQ[0] < |th|
      modifies this
      ensures S() == RwLock.PostSem(old(S()))
    {
      if semQ != [] {
        th := th[semQ[0] := th[semQ[0]].(phase := WrGranted)];
        semQ := semQ[1..];
      } else {
        count := count + 1;
      }
    }

    /** Semaphore_post of readSem. */
    method PostRead()
      requires rdQ != [] ==> rdQ[0] < |th|
      modifies this
      ensures S() == RwLock.PostRead(old(S()))
    {
      if rdQ != [] {
        th := th[rdQ[0] := Woken(th[rdQ[0]])];
        rdQ := rdQ[1..];
      } else {
        rdCount := rdCount + 1;
      }
    }

    /** Semaphore_pend of sem that does not wait. */
    method TrySem() returns (got: bool)
      modifies this`count
      ensures got <==> old(count) > 0
      ensures count == if got then old(count) - 1 else old(count)
    {
      got := count > 0;
      if got {
        count := count - 1;
      }
    }

    /** rdlockAcquire up to its loop. */
    method RdEnter(t: Tid, timeout: int, now: int) returns (r: Outcome)
      requires Good(S()) && posting.None? && t < |th| && th[t].phase.Idle?
      modifies this
      ensures (S(), r) == RwLock.RdEnter(old(S()), t, timeout, now)
      ensures Good(S())
    {
      RdEnterGood(S(), t, timeout, now);
      hide Good;
      if activeReaderCnt > 0 {
        activeReaderCnt := activeReaderCnt + 1;
        th := th[t := th[t].(rd := th[t].rd + 1)];
        return Acquired;
      }
      var got := TrySem();
      if got {
        activeReaderCnt := activeReaderCnt + 1;
        ActiveNotNegative(old(S()));
        assert activeReaderCnt == 1;
        assert owner == None;
        owner := Some(t);
        th := th[t := th[t].(rd := th[t].rd + 1)];
        return Acquired;
      }
      if timeout == 0 {
        return Busy;
      }
      blockedReaderCnt := blockedReaderCnt + 1;
      th := th[t := th[t].(phase := RdPrePend(timeout, now))];
      return Blocks;
    }

    /** One turn of the loop of rdlockAcquire, after the pend on readSem has succeeded. */
    method RdResume(t: Tid, timeout: int, curTicks: int, now: int) returns (r: Outcome, timeout': int, curTicks': int)
      requires Good(S()) && posting.None? && t < |th| && th[t].phase == RdWoken(timeout, curTicks)
      modifies this
      ensures (S(), r) == RwLock.RdResume(old(S()), t, now)
      ensures r == Retries ==> th[t].phase == RdPrePend(timeout', curTicks')
      ensures Good(S())
    {
      if activeReaderCnt > 0 || count > 0 {
        RdResumeGetsGood(S(), t, now);
      } else {
        RdResumeWaitsGood(S(), t, now);
      }
      hide Good, Delta;
      timeout', curTicks' := timeout, curTicks;
      if activeReaderCnt > 0 {
        blockedReaderCnt := blockedReaderCnt - 1;
        activeReaderCnt := activeReaderCnt + 1;
        th := th[t := th[t].(phase := Idle, rd := th[t].rd + 1)];
        return Acquired, timeout', curTicks';
      }
      var got := TrySem();
      if got {
        blockedReaderCnt := blockedReaderCnt - 1;
        activeReaderCnt := activeReaderCnt + 1;
        ActiveNotNegative(old(S()));
        assert activeReaderCnt == 1;
        assert owner == None;
        owner := Some(t);
        th := th[t := th[t].(phase := Idle, rd := th[t].rd + 1)];
        return Acquired, timeout', curTicks';
      }
      if timeout != FOREVER {
        var prevTicks := curTicks;
        curTicks' := now;
        var deltaTicks := Delta(prevTicks, curTicks');
        if deltaTicks >= timeout {
          blockedReaderCnt := blockedReaderCnt - 1;
          th := th[t := th[t].(phase := Idle)];
          return TimedOut, timeout', curTicks';
        }
        timeout' := timeout - deltaTicks;
      }
      th := th[t := th[t].(phase := RdPrePend(timeout', curTicks'))];
      return Retries, timeout', curTicks';
    }

    /** The writer that got sem becomes owner. */
    method WrOwn(t: Tid)
      requires Good(S()) && posting.None? && t < |th| && th[t].phase.WrGranted?
      modifies this
      ensures S() == RwLock.WrOwn(old(S()), t)
      ensures Good(S())
    {
      WrOwnGood(S(), t);
      hide Good;
      assert owner == None;
      owner := Some(t);
      assert activeReaderCnt == 0;
      th := th[t := th[t].(phase := Idle, wr := th[t].wr + 1)];
    }

    /** The loop of an unlocking writer: every blocked reader is given a token. */
    method PostReaders(ghost t: Tid)
      requires Good(S()) && posting == Some(Poster(t, 0))
      modifies this
      ensures S() == PostTimes(old(S()), old(blockedReaderCnt))
      ensures Good(S()) && posting == Some(Poster(t, blockedReaderCnt)) && blockedReaderCnt == old(blockedReaderCnt)
    {
      hide Good, PostOne;
      ghost var start := S();
      BlockedNotNegative(start);
      var i := 0;
      while i < blockedReaderCnt
        invariant 0 <= i <= blockedReaderCnt && blockedReaderCnt == start.blocked
        invariant Good(S()) && posting == Some(Poster(t, i)) && S() == PostTimes(start, i)
        decreases blockedReaderCnt - i
      {
        ghost var s := S();
        PostOneGood(s);
        QueueHeads(s);
        OnePost(s);
        PostRead();
        posting := Some(Poster(t, i + 1));
        assert S() == PostOne(s);
        i := i + 1;
      }
    }

    /** pthread_rwlock_unlock, when no pend expires meanwhile. */
    method Unlock(t: Tid)
      requires Good(S()) && posting.None? && t < |th| && th[t].phase.Idle?
      requires if activeReaderCnt > 0 then th[t].rd > 0 else th[t].wr > 0
      modifies this
      ensures S() == UnlockWhole(old(S()), t)
      ensures Good(S())
    {
      hide Good, PostTimes;
      ghost var before := S();
      QueueHeads(before);
      if activeReaderCnt > 0 {
        UnlockReaderGood(before, t);
        activeReaderCnt := activeReaderCnt - 1;
        th := th[t := th[t].(rd := th[t].rd - 1)];
        if activeReaderCnt == 0 {
          owner := None;
          PostSem();
        }
      } else {
        UnlockWriterGood(before, t);
        th := th[t := th[t].(wr := th[t].wr - 1)];
        PostSem();
        posting := Some(Poster(t, 0));
        assert S() == RwLock.Unlock(before, t);
        hide RwLock.Unlock;
        PostReaders(t);
        UnlockEndGood(S());
        assert owner == Some(t);
        owner := None;
        assert activeReaderCnt == 0;
        posting := None;
      }
    }
  }

  lemma ActiveNotNegative(s: State)
    requires Good(s)
    ensures 0 <= s.active
  {
  }

  lemma QueueHeads(s: State)
    requires Good(s)
    ensures s.rdQ != [] ==> s.rdQ[0] < |s.th|
    ensures s.semQ != [] ==> s.semQ[0] < |s.th|
  {
    assert s.rdQ != [] ==> s.rdQ[0] in s.rdQ;
    assert s.semQ != [] ==> s.semQ[0] in s.semQ;
  }

  lemma OnePost(s: State)
    requires s.posting.Some?
    ensures PostOne(s) == PostRead(s).(posting := Some(Poster(s.posting.value.t, s.posting.value.posts + 1)))
  {
  }

  lemma BlockedNotNegative(s: State)
    requires Good(s)
    ensures 0 <= s.blocked
  {
  }

  /** The first n posts of an unlocking writer. */
  ghost function PostTimes(s: State, n: int): State
    requires s.posting.Some?
    ensures PostTimes(s, n).posting.Some?
  {
    if n <= 0 then s else PostOne(PostTimes(s, n - 1))
  }

  /** The whole unlock: a writer wakes as many readers as are blocked. */
  ghost function UnlockWhole(s: State, t: Tid): State
    requires t < |s.th| && (if s.active > 0 then s.th[t].rd > 0 else s.th[t].wr > 0)
  {
    var s1 := RwLock.Unlock(s, t);
    if s.active > 0 then s1
    else UnlockEnd(PostTimes(s1, s1.blocked))
  }
}
