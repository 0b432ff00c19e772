/**
 packages/ti/sysbios/knl/Mailbox.c without events: any number of readers and writers, each at any point of Mailbox_pend or
 Mailbox_post. The two semaphores are their counts and the threads that hold a unit they have not used yet; which waiter a
 post serves is left open.
 */
module Mailbox {
  import opened Base

  type Tid = nat
  type Elem = nat
  type Msg = int

  datatype Phase =
    | Idle
    | RdWait                             // blocked on dataSem
    | RdGranted                          // has a unit of dataSem, before Queue_get
    | RdGot(elem: Elem, sent: Msg)       // has the element whose message was `sent`, before memcpy
    | RdCopied(elem: Elem, msg: Msg)     // has copied, before putting the element on freeQue
    | RdReturned                         // has put the element back, before posting freeSem
    | WrWait(msg: Msg)                   // blocked on freeSem
    | WrGranted(msg: Msg)                // has a unit of freeSem, before Queue_dequeue
    | WrGot(elem: Elem, msg: Msg)        // has an element, before memcpy
    | WrFilled(elem: Elem, msg: Msg)     // has copied, before putting the element on dataQue

  datatype State = State(
    dataCnt: nat, freeCnt: nat,          // the counts of the semaphores
    freeQue: seq<Elem>, dataQue: seq<Elem>,
    buf: seq<Msg>,                       // the message part of each element
    numFreeMsgs: int,
    th: seq<Phase>,
    sent: seq<Msg>, taken: seq<Msg>)     // messages in the order they were put on and taken off dataQue

  function At(s: State, t: Tid, x: Phase): State
    requires t < |s.th|
  {
    s.(th := s.th[t := x])
  }

  datatype Event =
    | EPend(t: Tid, noWait: bool)                 // Semaphore_pend of dataSem
    | EGet(t: Tid)                                // Queue_get of dataQue
    | ECopyOut(t: Tid)
    | EPutFree(t: Tid)                            // lines 252-261
    | EPostFree(t: Tid, served: Option<Tid>)      // Semaphore_post of freeSem
    | EPost(t: Tid, msg: Msg, noWait: bool)       // Semaphore_pend of freeSem
    | EDequeue(t: Tid)                            // lines 291-306
    | ECopyIn(t: Tid)
    | EPutData(t: Tid, served: Option<Tid>)       // lines 313-323
    | EExpire(t: Tid)                             // a blocked pend times out

  /** A semaphore post serves a thread that waits if there is one. */
  ghost predicate Serves(s: State, served: Option<Tid>, waits: Phase -> bool) {
    match served
    case Some(w) => w < |s.th| && waits(s.th[w])
    case None => forall w :: 0 <= w < |s.th| ==> !waits(s.th[w])
  }

  ghost predicate Enabled(s: State, e: Event) {
    && e.t < |s.th|
    && var x := s.th[e.t];
       match e {
         case EPend(t, noWait) => x.Idle?
         case EGet(t) => x.RdGranted?
         case ECopyOut(t) => x.RdGot? && x.elem < |s.buf|
         case EPutFree(t) => x.RdCopied?
         case EPostFree(t, served) => x.RdReturned? && Serves(s, served, IsWrWait)
         case EPost(t, msg, noWait) => x.Idle?
         case EDequeue(t) => x.WrGranted?
         case ECopyIn(t) => x.WrGot? && x.elem < |s.buf|
         case EPutData(t, served) => x.WrFilled? && Serves(s, served, IsRdWait)
         case EExpire(t) => x.RdWait? || x.WrWait?
       }
  }

  predicate IsRdWait(x: Phase) { x.RdWait? }
  predicate IsWrWait(x: Phase) { x.WrWait? }
  predicate IsRdGranted(x: Phase) { x.RdGranted? }
  predicate IsWrGranted(x: Phase) { x.WrGranted? }
  predicate IsRdReturned(x: Phase) { x.RdReturned? }
  predicate Holds(x: Phase) { x.RdGot? || x.RdCopied? || x.WrGot? || x.WrFilled? }

  /** The state after the event. Taking from an empty data queue would hand out the queue header: the element |buf|. */
  function Step(s: State, e: Event): State
    requires e.t < |s.th|
    requires e.EGet? ==> s.th[e.t].RdGranted?
    requires e.ECopyOut? ==> s.th[e.t].RdGot? && s.th[e.t].elem < |s.buf|
    requires e.EPutFree? ==> s.th[e.t].RdCopied?
    requires e.EPostFree? ==> e.served.Some? ==> e.served.value < |s.th| && s.th[e.served.value].WrWait?
    requires e.EDequeue? ==> s.th[e.t].WrGranted?
    requires e.ECopyIn? ==> s.th[e.t].WrGot? && s.th[e.t].elem < |s.buf|
    requires e.EPutData? ==> s.th[e.t].WrFilled? && (e.served.Some? ==> e.served.value < |s.th|)
  {
    var x := s.th[e.t];
    match e
    case EPend(t, noWait) =>
      if s.dataCnt > 0 then At(s, t, RdGranted).(dataCnt := s.dataCnt - 1)
      else if noWait then s else At(s, t, RdWait)
    case EGet(t) =>
      if s.dataQue == [] then At(s, t, RdGot(|s.buf|, 0))
      else
        var el := s.dataQue[0];
        var m := if el < |s.buf| then s.buf[el] else 0;
        At(s, t, RdGot(el, m)).(dataQue := s.dataQue[1..], taken := s.taken + [m])
    case ECopyOut(t) => At(s, t, RdCopied(x.elem, s.buf[x.elem]))
    case EPutFree(t) => At(s, t, RdReturned).(freeQue := s.freeQue + [x.elem], numFreeMsgs := s.numFreeMsgs + 1)
    case EPostFree(t, served) =>
      var u := At(s, t, Idle);
      if served.Some? then At(u, served.value, WrGranted(s.th[served.value].msg)) else u.(freeCnt := s.freeCnt + 1)
    case EPost(t, msg, noWait) =>
      if s.freeCnt > 0 then At(s, t, WrGranted(msg)).(freeCnt := s.freeCnt - 1)
      else if noWait then s else At(s, t, WrWait(msg))
    case EDequeue(t) =>
      if s.freeQue == [] then At(s, t, Idle)
      else At(s, t, WrGot(s.freeQue[0], x.msg)).(freeQue := s.freeQue[1..], numFreeMsgs := s.numFreeMsgs - 1)
    case ECopyIn(t) => At(s, t, WrFilled(x.elem, x.msg)).(buf := s.buf[x.elem := x.msg])
    case EPutData(t, served) =>
      var u := At(s, t, Idle).(dataQue := s.dataQue + [x.elem], sent := s.sent + [x.msg]);
      if served.Some? then At(u, served.value, RdGranted) else u.(dataCnt := s.dataCnt + 1)
    case EExpire(t) => At(s, t, Idle)
  }

  // ---------------------------------------------------------------- the invariant

  /** Element e is in one place: on freeQue, on dataQue, or in one thread's hand. */
  ghost predicate Placed(s: State, e: Elem) {
    && !(e in s.freeQue && e in s.dataQue)
    && forall t :: 0 <= t < |s.th| && Holds(s.th[t]) && s.th[t].elem == e ==>
         && e !in s.freeQue && e !in s.dataQue
         && forall u :: 0 <= u < |s.th| && Holds(s.th[u]) && s.th[u].elem == e ==> u == t
  }

  ghost predicate Places(s: State) {
    && Distinct(s.freeQue) && Distinct(s.dataQue)
    && (forall e :: Placed(s, e))
    && (forall i :: 0 <= i < |s.freeQue| ==> s.freeQue[i] < |s.buf|)
    && (forall i :: 0 <= i < |s.dataQue| ==> s.dataQue[i] < |s.buf|)
    && (forall t :: 0 <= t < |s.th| && Holds(s.th[t]) ==> s.th[t].elem < |s.buf|)
  }

  /** Elements and semaphore units are conserved; numFreeMsgs is the length of freeQue. */
  ghost predicate Units(s: State) {
    && |s.freeQue| + |s.dataQue| + Count(s.th, Holds) == |s.buf|
    && s.dataCnt + Count(s.th, IsRdGranted) == |s.dataQue|
    && s.freeCnt + Count(s.th, IsWrGranted) + Count(s.th, IsRdReturned) == |s.freeQue|
    && s.numFreeMsgs == |s.freeQue|
  }

  function Contents(q: seq<Elem>, buf: seq<Msg>): seq<Msg> {
    if q == [] then [] else [if q[0] < |buf| then buf[q[0]] else 0] + Contents(q[1..], buf)
  }

  /** Messages leave in the order they came, and each reader has the one it took. */
  ghost predicate InOrder(s: State) {
    && s.sent == s.taken + Contents(s.dataQue, s.buf)
    && forall t :: 0 <= t < |s.th| ==> Intact(s, t)
  }

  ghost predicate Intact(s: State, t: Tid)
    requires t < |s.th|
  {
    match s.th[t]
    case RdGot(e, m) => e < |s.buf| && s.buf[e] == m
    case WrFilled(e, m) => e < |s.buf| && s.buf[e] == m
    case _ => true
  }

  ghost predicate Good(s: State) {
    Places(s) && Units(s) && InOrder(s)
  }

  // ---------------------------------------------------------------- every step keeps it

  /** How the four counts move when thread t gets to x. */
  lemma Moves(th: seq<Phase>, t: Tid, x: Phase)
    requires t < |th|
    ensures Count(th[t := x], Holds) == Count(th, Holds) - One(Holds(th[t])) + One(Holds(x))
    ensures Count(th[t := x], IsRdGranted) == Count(th, IsRdGranted) - One(th[t].RdGranted?) + One(x.RdGranted?)
    ensures Count(th[t := x], IsWrGranted) == Count(th, IsWrGranted) - One(th[t].WrGranted?) + One(x.WrGranted?)
    ensures Count(th[t := x], IsRdReturned) == Count(th, IsRdReturned) - One(th[t].RdReturned?) + One(x.RdReturned?)
    ensures One(th[t].RdGranted?) <= Count(th, IsRdGranted) && One(th[t].WrGranted?) <= Count(th, IsWrGranted)
  {
    CountPut(th, t, x, Holds);
    CountPut(th, t, x, IsRdGranted);
    CountPut(th, t, x, IsWrGranted);
    CountPut(th, t, x, IsRdReturned);
  }

  function One(b: bool): int {
    if b then 1 else 0
  }

  /** Steps that move no element: the queues are the same, and whoever holds an element holds the same one. */
  lemma SamePlaces(s: State, r: State)
    requires Places(s) && r.freeQue == s.freeQue && r.dataQue == s.dataQue && |r.buf| == |s.buf| && |r.th| == |s.th|
    requires forall t :: 0 <= t < |s.th| ==> (Holds(r.th[t]) <==> Holds(s.th[t])) && (Holds(s.th[t]) ==> r.th[t].elem == s.th[t].elem)
    ensures Places(r)
  {
    forall e ensures Placed(r, e) {
      assert Placed(s, e);
    }
  }

  /** The head of a queue taken into the hand of a thread that held nothing. */
  lemma TakenPlaces(s: State, r: State, t: Tid)
    requires Places(s) && t < |s.th| && !Holds(s.th[t]) && |r.buf| == |s.buf| && |r.th| == |s.th| && Holds(r.th[t])
    requires || (s.freeQue != [] && r.freeQue == s.freeQue[1..] && r.dataQue == s.dataQue && r.th[t].elem == s.freeQue[0])
             || (s.dataQue != [] && r.dataQue == s.dataQue[1..] && r.freeQue == s.freeQue && r.th[t].elem == s.dataQue[0])
    requires forall u :: 0 <= u < |s.th| && u != t ==> r.th[u] == s.th[u]
    ensures Places(r)
  {
    var el := r.th[t].elem;
    if s.freeQue != [] {
      PopMembers(s.freeQue);
    }
    if s.dataQue != [] {
      PopMembers(s.dataQue);
    }
    assert Placed(s, el);
    forall e ensures Placed(r, e) {
      assert Placed(s, e);
    }
  }

  /** The element in a thread's hand put at the end of a queue; another thread may be served. */
  lemma GivenPlaces(s: State, r: State, t: Tid)
    requires Places(s) && t < |s.th| && Holds(s.th[t]) && |r.buf| == |s.buf| && |r.th| == |s.th| && !Holds(r.th[t])
    requires || (r.freeQue == s.freeQue + [s.th[t].elem] && r.dataQue == s.dataQue)
             || (r.dataQue == s.dataQue + [s.th[t].elem] && r.freeQue == s.freeQue)
    requires forall u :: 0 <= u < |s.th| && u != t ==> r.th[u] == s.th[u] || (!Holds(r.th[u]) && !Holds(s.th[u]))
    ensures Places(r)
  {
    var el := s.th[t].elem;
    assert Placed(s, el);
    AppendDistinct(s.freeQue, el);
    AppendDistinct(s.dataQue, el);
    forall e ensures Placed(r, e) {
      assert Placed(s, e);
    }
  }

  lemma {:induction false} ContentsAppend(q: seq<Elem>, e: Elem, buf: seq<Msg>)
    ensures Contents(q + [e], buf) == Contents(q, buf) + [if e < |buf| then buf[e] else 0]
  {
    if q != [] {
      assert (q + [e])[1..] == q[1..] + [e];
      ContentsAppend(q[1..], e, buf);
    }
  }

  /** Writing an element that is not queued changes nothing that is queued. */
  lemma {:induction false} ContentsKept(q: seq<Elem>, e: Elem, m: Msg, buf: seq<Msg>)
    requires e < |buf| && e !in q
    ensures Contents(q, buf[e := m]) == Contents(q, buf)
  {
    if q != [] {
      ContentsKept(q[1..], e, m, buf);
    }
  }

  /** Threads that only wait, or get or use a unit, have nothing to keep intact. */
  lemma SameOrder(s: State, r: State)
    requires InOrder(s) && r.dataQue == s.dataQue && r.buf == s.buf && r.sent == s.sent && r.taken == s.taken && |r.th| == |s.th|
    requires forall t :: 0 <= t < |s.th| ==> r.th[t] == s.th[t] || !(r.th[t].RdGot? || r.th[t].WrFilled?)
    ensures InOrder(r)
  {
    forall t | 0 <= t < |r.th| ensures Intact(r, t) {
      assert Intact(s, t);
    }
  }

  lemma PendGood(s: State, e: Event)
    requires Good(s) && Enabled(s, e) && (e.EPend? || e.EPost? || e.EExpire?)
    ensures Good(Step(s, e))
  {
    hide Count, Contents, Placed;
    var r := Step(s, e);
    Moves(s.th, e.t, r.th[e.t]);
    SamePlaces(s, r);
    SameOrder(s, r);
  }

  /** A reader with a unit finds an element: Queue_get never sees an empty queue. */
  lemma GetGood(s: State, e: Event)
    requires Good(s) && Enabled(s, e) && e.EGet?
    ensures s.dataQue != [] && Good(Step(s, e))
    ensures Step(s, e).taken == s.taken + [s.sent[|s.taken|]] && |s.taken| < |s.sent|
  {
    hide Count, Placed;
    var r := Step(s, e);
    Moves(s.th, e.t, r.th[e.t]);
    TakenPlaces(s, r, e.t);
    assert s.sent == r.taken + Contents(r.dataQue, r.buf);
    forall t | 0 <= t < |r.th| ensures Intact(r, t) {
      assert Intact(s, t);
    }
  }

  /** memcpy gives the reader the message it took. */
  lemma CopyOutGood(s: State, e: Event)
    requires Good(s) && Enabled(s, e) && e.ECopyOut?
    ensures Good(Step(s, e))
    ensures Step(s, e).th[e.t] == RdCopied(s.th[e.t].elem, s.th[e.t].sent)
  {
    hide Count, Contents, Placed;
    var r := Step(s, e);
    assert Intact(s, e.t);
    Moves(s.th, e.t, r.th[e.t]);
    SamePlaces(s, r);
    SameOrder(s, r);
  }

  lemma PutFreeGood(s: State, e: Event)
    requires Good(s) && Enabled(s, e) && e.EPutFree?
    ensures Good(Step(s, e))
  {
    hide Count, Contents, Placed;
    var r := Step(s, e);
    Moves(s.th, e.t, r.th[e.t]);
    GivenPlaces(s, r, e.t);
    SameOrder(s, r);
  }

  lemma PostFreeGood(s: State, e: Event)
    requires Good(s) && Enabled(s, e) && e.EPostFree?
    ensures Good(Step(s, e))
  {
    hide Count, Contents, Placed;
    var r := Step(s, e);
    Moves(s.th, e.t, Idle);
    if e.served.Some? {
      Moves(At(s, e.t, Idle).th, e.served.value, WrGranted(s.th[e.served.value].msg));
    }
    SamePlaces(s, r);
    SameOrder(s, r);
  }

  /** A writer with a unit finds a free element: the branch for an empty free queue is never taken. */
  lemma DequeueGood(s: State, e: Event)
    requires Good(s) && Enabled(s, e) && e.EDequeue?
    ensures s.freeQue != [] && Good(Step(s, e))
  {
    hide Count, Contents, Placed;
    var r := Step(s, e);
    Moves(s.th, e.t, r.th[e.t]);
    TakenPlaces(s, r, e.t);
    SameOrder(s, r);
  }

  lemma CopyInGood(s: State, e: Event)
    requires Good(s) && Enabled(s, e) && e.ECopyIn?
    ensures Good(Step(s, e))
  {
    var r := Step(s, e);
    var el := s.th[e.t].elem;
    assert Placed(s, el);
    ContentsKept(s.dataQue, el, s.th[e.t].msg, s.buf);
    forall t | 0 <= t < |r.th| ensures Intact(r, t) {
      assert Intact(s, t);
    }
    hide Count, Contents, Placed;
    Moves(s.th, e.t, r.th[e.t]);
    SamePlaces(s, r);
  }

  lemma PutDataGood(s: State, e: Event)
    requires Good(s) && Enabled(s, e) && e.EPutData?
    ensures Good(Step(s, e))
  {
    hide Count, Contents, Placed;
    var r := Step(s, e);
    var x := s.th[e.t];
    assert Intact(s, e.t);
    ContentsAppend(s.dataQue, x.elem, s.buf);
    assert s.taken + (Contents(s.dataQue, s.buf) + [x.msg]) == (s.taken + Contents(s.dataQue, s.buf)) + [x.msg];
    forall t | 0 <= t < |r.th| ensures Intact(r, t) {
      assert Intact(s, t);
    }
    Moves(s.th, e.t, Idle);
    if e.served.Some? {
      Moves(At(s, e.t, Idle).th, e.served.value, RdGranted);
    }
    GivenPlaces(s, r, e.t);
  }

  lemma StepGood(s: State, e: Event)
    requires Good(s) && Enabled(s, e)
    ensures Good(Step(s, e))
  {
    hide Good, Step;
    match e {
      case EPend(_, _) => PendGood(s, e);
      case EGet(_) => GetGood(s, e);
      case ECopyOut(_) => CopyOutGood(s, e);
      case EPutFree(_) => PutFreeGood(s, e);
      case EPostFree(_, _) => PostFreeGood(s, e);
      case EPost(_, _, _) => PendGood(s, e);
      case EDequeue(_) => DequeueGood(s, e);
      case ECopyIn(_) => CopyInGood(s, e);
      case EPutData(_, _) => PutDataGood(s, e);
      case EExpire(_) => PendGood(s, e);
    }
  }

  // ---------------------------------------------------------------- runs

  /** Mailbox_postInit: all elements on freeQue, in the order of the buffer. */
  function Free(n: nat): seq<Elem> {
    seq(n, i => i)
  }

  ghost predicate Init(s: State, numMsgs: nat) {
    && |s.buf| == numMsgs && s.freeQue == Free(numMsgs) && s.dataQue == [] && s.dataCnt == 0 && s.freeCnt == numMsgs
    && s.numFreeMsgs == numMsgs && s.sent == [] && s.taken == []
    && forall t :: 0 <= t < |s.th| ==> s.th[t].Idle?
  }

  lemma InitGood(s: State, numMsgs: nat)
    requires Init(s, numMsgs)
    ensures Good(s)
  {
    CountNone(s.th, Holds);
    CountNone(s.th, IsRdGranted);
    CountNone(s.th, IsWrGranted);
    CountNone(s.th, IsRdReturned);
    forall e ensures Placed(s, e) {
    }
  }

  ghost predicate Run(states: seq<State>, events: seq<Event>, numMsgs: nat) {
    && |states| == |events| + 1 && Init(states[0], numMsgs)
    && forall i :: 0 <= i < |events| ==> Next(states[i], events[i], states[i + 1])
  }

  ghost predicate Next(s: State, e: Event, s': State) {
    Enabled(s, e) && s' == Step(s, e)
  }

  lemma {:induction false} RunGood(states: seq<State>, events: seq<Event>, numMsgs: nat, k: nat)
    requires Run(states, events, numMsgs) && k <= |events|
    ensures Good(states[k]) && |states[k].buf| == numMsgs
    decreases k
  {
    hide Good, Step;
    if k == 0 {
      InitGood(states[0], numMsgs);
    } else {
      var i := k - 1;
      RunGood(states, events, numMsgs, i);
      assert Next(states[i], events[i], states[i + 1]);
      StepGood(states[i], events[i]);
      SameSize(states[i], events[i]);
    }
  }

  lemma SameSize(s: State, e: Event)
    requires Enabled(s, e)
    ensures |Step(s, e).buf| == |s.buf|
  {
  }

  /** Elements free, holding data and in hand always sum to numMsgs, and the counters say so. */
  lemma ElementsConserved(states: seq<State>, events: seq<Event>, numMsgs: nat, k: nat)
    requires Run(states, events, numMsgs) && k <= |events|
    ensures var s := states[k];
            && |s.freeQue| + |s.dataQue| + Count(s.th, Holds) == numMsgs
            && s.numFreeMsgs == |s.freeQue|
            && |s.dataQue| == s.dataCnt + Count(s.th, IsRdGranted)
            && |s.freeQue| == s.freeCnt + Count(s.th, IsWrGranted) + Count(s.th, IsRdReturned)
  {
    RunGood(states, events, numMsgs, k);
  }

  /** No reader ever takes from an empty data queue, and no writer ever finds the free queue empty. */
  lemma NeverEmpty(states: seq<State>, events: seq<Event>, numMsgs: nat, k: nat, t: Tid)
    requires Run(states, events, numMsgs) && k <= |events| && t < |states[k].th|
    ensures states[k].th[t].RdGranted? ==> states[k].dataQue != []
    ensures states[k].th[t].WrGranted? ==> states[k].freeQue != []
  {
    RunGood(states, events, numMsgs, k);
    Moves(states[k].th, t, Idle);
  }

  /** The messages taken are the messages sent, in the same order, up to those still queued; and each reader gets its own. */
  lemma FifoDelivery(states: seq<State>, events: seq<Event>, numMsgs: nat, k: nat, e: Event)
    requires Run(states, events, numMsgs) && k <= |events| && Enabled(states[k], e)
    ensures states[k].taken <= states[k].sent
    ensures e.EGet? ==> |states[k].taken| < |states[k].sent| && Step(states[k], e).th[e.t].RdGot?
                        && Step(states[k], e).th[e.t].sent == states[k].sent[|states[k].taken|]
    ensures e.ECopyOut? ==> Step(states[k], e).th[e.t].RdCopied? && Step(states[k], e).th[e.t].msg == states[k].th[e.t].sent
  {
    RunGood(states, events, numMsgs, k);
    var s := states[k];
    if e.EGet? {
      GetGood(s, e);
    }
    if e.ECopyOut? {
      CopyOutGood(s, e);
    }
  }

  // ---------------------------------------------------------------- from the caller of Mailbox_post to the caller of Mailbox_pend

  /** If t is anywhere in Mailbox_post, it is there with this message. */
  predicate Carries(x: Phase, msg: Msg) {
    (x.WrWait? || x.WrGranted? || x.WrGot? || x.WrFilled?) ==> x.msg == msg
  }

  lemma CarriesStep(s: State, e: Event, t: Tid, msg: Msg)
    requires Enabled(s, e) && t < |s.th| && |Step(s, e).th| == |s.th|
    requires if e.EPost? && e.t == t then e.msg == msg else Carries(s.th[t], msg)
    ensures Carries(Step(s, e).th[t], msg)
  {
  }

  lemma SameThreads(s: State, e: Event)
    requires Enabled(s, e)
    ensures |Step(s, e).th| == |s.th|
  {
  }

  /** Whatever happens since t called Mailbox_post with msg, it is msg that t waits, fetches, copies and enqueues with. */
  lemma {:induction false} CarriesInRuns(states: seq<State>, events: seq<Event>, numMsgs: nat, i: nat, k: nat, t: Tid, msg: Msg)
    requires Run(states, events, numMsgs) && i < k <= |events|
    requires events[i].EPost? && events[i].t == t && events[i].msg == msg
    requires forall m :: i < m < k ==> !(events[m].EPost? && events[m].t == t)
    ensures t < |states[k].th| && Carries(states[k].th[t], msg)
    decreases k
  {
    hide Step, Carries, Init;
    var m := k - 1;
    assert Next(states[m], events[m], states[k]);
    SameThreads(states[m], events[m]);
    if m > i {
      CarriesInRuns(states, events, numMsgs, i, m, t, msg);
    }
    CarriesStep(states[m], events[m], t, msg);
  }

  /** What is sent or taken stays so. */
  lemma {:induction false} HistoriesGrow(states: seq<State>, events: seq<Event>, numMsgs: nat, i: nat, k: nat)
    requires Run(states, events, numMsgs) && i <= k <= |events|
    ensures states[i].sent <= states[k].sent && states[i].taken <= states[k].taken
    decreases k
  {
    if i < k {
      HistoriesGrow(states, events, numMsgs, i, k - 1);
      assert Next(states[k - 1], events[k - 1], states[k]);
    }
  }

  /** A Mailbox_post that gets to its Queue_enqueue sends exactly the message it was called with. */
  lemma OwnMessage(states: seq<State>, events: seq<Event>, numMsgs: nat, i: nat, j: nat)
    requires Run(states, events, numMsgs) && i < j < |events|
    requires events[i].EPost? && events[j].EPutData? && events[j].t == events[i].t
    requires forall m :: i < m < j ==> !(events[m].EPost? && events[m].t == events[i].t)
    ensures states[j + 1].sent == states[j].sent + [events[i].msg]
  {
    CarriesInRuns(states, events, numMsgs, i, j, events[i].t, events[i].msg);
    assert Next(states[j], events[j], states[j + 1]);
  }

  /**
   End to end: if a call of Mailbox_post with msg sent the n-th message, the Mailbox_pend that takes the n-th, at any later
   time and in any thread, copies msg to its caller.
   */
  lemma Delivered(states: seq<State>, events: seq<Event>, numMsgs: nat, i: nat, j: nat, k: nat)
    requires Run(states, events, numMsgs) && i < j < k < |events|
    requires events[i].EPost? && events[j].EPutData? && events[j].t == events[i].t
    requires forall m :: i < m < j ==> !(events[m].EPost? && events[m].t == events[i].t)
    requires events[k].EGet? && |states[k].taken| == |states[j].sent|
    ensures events[k].t < |states[k + 1].th| && states[k + 1].th[events[k].t].RdGot?
            && states[k + 1].th[events[k].t].sent == events[i].msg
  {
    OwnMessage(states, events, numMsgs, i, j);
    HistoriesGrow(states, events, numMsgs, j + 1, k);
    assert Next(states[k], events[k], states[k + 1]);
    hide Step;
    FifoDelivery(states, events, numMsgs, k, events[k]);
    SameThreads(states[k], events[k]);
  }

  /**
   A call gets a unit, waits, or is refused with nothing changed: a pend finds no unit exactly if every message queued is
   spoken for by another reader, a post exactly if no element is free that is not.
   */
  lemma PendAnswers(s: State, e: Event)
    requires Good(s) && Enabled(s, e) && (e.EPend? || e.EPost?)
    ensures var r := Step(s, e);
            var units := if e.EPend? then s.dataCnt else s.freeCnt;
            && |r.th| == |s.th| && r.dataQue == s.dataQue && r.freeQue == s.freeQue && r.sent == s.sent && r.taken == s.taken
            && (r.th[e.t] == (if e.EPend? then RdGranted else WrGranted(e.msg)) <==> units > 0)
            && (units > 0 ==> (if e.EPend? then r.dataCnt else r.freeCnt) == units - 1)
            && (r.th[e.t] == (if e.EPend? then RdWait else WrWait(e.msg)) <==> units == 0 && !e.noWait)
            && (r == s <==> units == 0 && e.noWait)
            && (e.EPend? ==> (units == 0 <==> |s.dataQue| == Count(s.th, IsRdGranted)))
            && (e.EPost? ==> (units == 0 <==>
                  |s.dataQue| + Count(s.th, Holds) + Count(s.th, IsWrGranted) + Count(s.th, IsRdReturned) == |s.buf|))
  {
  }

  /**
   A blocked call goes on waiting until it is served by a post that names it, with what it came with, or times out; and a
   time-out touches nobody else.
   */
  lemma BlockedStep(s: State, e: Event, w: Tid)
    requires Good(s) && Enabled(s, e) && w < |s.th| && (s.th[w].RdWait? || s.th[w].WrWait?)
    ensures var r := Step(s, e);
            && |r.th| == |s.th|
            && (e == EExpire(w) ==> r.th[w] == Idle && forall u :: 0 <= u < |s.th| && u != w ==> r.th[u] == s.th[u])
            && (e == EPutData(e.t, Some(w)) ==> r.th[w] == RdGranted)
            && (e == EPostFree(e.t, Some(w)) ==> r.th[w] == WrGranted(s.th[w].msg))
            && (e != EExpire(w) && e != EPutData(e.t, Some(w)) && e != EPostFree(e.t, Some(w)) ==> r.th[w] == s.th[w])
  {
  }

  // ---------------------------------------------------------------- the functions, one thread at a time

  class MailboxObject {
    const numMsgs: nat
    var dataCnt: nat
    var freeCnt: nat
    var freeQue: seq<Elem>
    var dataQue: seq<Elem>
    var buf: seq<Msg>
    var numFreeMsgs: int

    /** The mailbox with no thread inside its functions, and the messages in it. */
    ghost function S(): State
      reads this
    {
      State(dataCnt, freeCnt, freeQue, dataQue, buf, numFreeMsgs, [], Contents(dataQue, buf), [])
    }

    ghost predicate Valid()
      reads this
    {
      |buf| == numMsgs && Places(S()) && Units(S())
    }

    ghost function Messages(): seq<Msg>
      reads this
    {
      Contents(dataQue, buf)
    }

    /** Mailbox_Instance_init with Mailbox_postInit, which puts every element on freeQue. */
    constructor (numMsgs: nat, memory: seq<Msg>)
      requires |memory| == numMsgs
      ensures Valid() && Messages() == [] && this.numMsgs == numMsgs && freeQue == Free(numMsgs)
    {
      this.numMsgs := numMsgs;
      dataCnt, freeCnt, numFreeMsgs, buf, dataQue, freeQue := 0, numMsgs, numMsgs, memory, [], [];
      new;
      var i := 0;
      while i < numMsgs
        invariant 0 <= i <= numMsgs && freeQue == Free(i)
        invariant dataCnt == 0 && freeCnt == numFreeMsgs == numMsgs && dataQue == [] && buf == memory
      {
        freeQue := freeQue + [i];
        i := i + 1;
      }
      InitGood(S(), numMsgs);
    }

    /** Mailbox_pend that does not wait: the oldest message, or false exactly if there is none. */
    method Pend() returns (ok: bool, msg: Msg)
      requires Valid()
      modifies this
      ensures Valid()
      ensures ok <==> old(Messages()) != []
      ensures ok ==> [msg] + Messages() == old(Messages())
      ensures !ok ==> S() == old(S())
    {
      ghost var s := S();
      ContentsLength(dataQue, buf);
      msg := 0;
      if dataCnt == 0 {
        return false, msg;
      }
      dataCnt := dataCnt - 1;
      var elem := dataQue[0];
      dataQue := dataQue[1..];
      msg := buf[elem];
      freeQue := freeQue + [elem];
      numFreeMsgs := numFreeMsgs + 1;
      freeCnt := freeCnt + 1;
      MovedPlaces(s, S());
      ok := true;
    }

    /** Mailbox_post that does not wait: the message goes in last, or false exactly if the mailbox is full. */
    method Post(msg: Msg) returns (ok: bool)
      requires Valid()
      modifies this
      ensures Valid()
      ensures ok <==> |old(Messages())| < numMsgs
      ensures ok ==> Messages() == old(Messages()) + [msg]
      ensures !ok ==> S() == old(S())
    {
      ghost var s := S();
      ContentsLength(dataQue, buf);
      if freeCnt == 0 {
        return false;
      }
      freeCnt := freeCnt - 1;
      var elem := freeQue[0];
      assert elem < |buf|;
      if elem == |buf| {
        return false;
      }
      freeQue := freeQue[1..];
      numFreeMsgs := numFreeMsgs - 1;
      assert Placed(s, elem);
      ContentsKept(dataQue, elem, msg, buf);
      buf := buf[elem := msg];
      ContentsAppend(dataQue, elem, buf);
      dataQue := dataQue + [elem];
      dataCnt := dataCnt + 1;
      MovedPlaces(s, S());
      ok := true;
    }
  }

  lemma {:induction false} ContentsLength(q: seq<Elem>, buf: seq<Msg>)
    ensures |Contents(q, buf)| == |q|
  {
    if q != [] {
      ContentsLength(q[1..], buf);
    }
  }

  /** The head of one queue moved to the end of the other. */
  lemma MovedPlaces(s: State, r: State)
    requires Places(s) && s.th == r.th == [] && |r.buf| == |s.buf|
    requires || (s.dataQue != [] && r.dataQue == s.dataQue[1..] && r.freeQue == s.freeQue + [s.dataQue[0]])
             || (s.freeQue != [] && r.freeQue == s.freeQue[1..] && r.dataQue == s.dataQue + [s.freeQue[0]])
    ensures Places(r)
  {
    if s.dataQue != [] {
      PopMembers(s.dataQue);
      assert Placed(s, s.dataQue[0]);
    }
    if s.freeQue != [] {
      PopMembers(s.freeQue);
      assert Placed(s, s.freeQue[0]);
    }
    forall e ensures Placed(r, e) {
      assert Placed(s, e);
    }
  }
}
