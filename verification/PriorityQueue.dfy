/**
 Wait queues in priority order: the insertion loops of packages/ti/sysbios/knl/Semaphore.c (lines 248-263) and of
 GateMutexPri_insertPri in packages/ti/sysbios/gates/GateMutexPri.c (lines 279-300) put a task before the first one of
 strictly lower priority. `pri` gives the priorities, `ticket` the order in which the waiters came.
 */
module PriorityQueue {
  import opened Base

  type Tid = nat

  /** The entry of thread t in a table. */
  function Of(table: seq<int>, t: Tid): int {
    if t < |table| then table[t] else 0
  }

  /** The position of the first waiter of lower priority. */
  function Place(q: seq<Tid>, pri: seq<int>, p: int): (i: nat)
    ensures i <= |q|
    ensures forall j :: 0 <= j < i ==> Of(pri, q[j]) >= p
    ensures i < |q| ==> Of(pri, q[i]) < p
  {
    if q == [] || p > Of(pri, q[0]) then 0
    else
      var rest := q[1..];
      var i := Place(rest, pri, p);
      assert forall j :: 0 < j < i + 1 ==> q[j] == rest[j - 1];
      i + 1
  }

  function Inserted(q: seq<Tid>, pri: seq<int>, t: Tid): seq<Tid> {
    var i := Place(q, pri, Of(pri, t));
    q[..i] + [t] + q[i..]
  }

  /** a is to be served before b: higher priority, or the same and earlier. */
  ghost predicate Precedes(pri: seq<int>, ticket: seq<int>, a: Tid, b: Tid) {
    Of(pri, a) > Of(pri, b) || (Of(pri, a) == Of(pri, b) && Of(ticket, a) < Of(ticket, b))
  }

  /** Sorted by priority and FIFO among equals. */
  ghost predicate Ordered(q: seq<Tid>, pri: seq<int>, ticket: seq<int>) {
    forall i, j :: 0 <= i < j < |q| ==> Precedes(pri, ticket, q[i], q[j])
  }

  lemma InsertedMembers(q: seq<Tid>, pri: seq<int>, t: Tid)
    requires Distinct(q) && t !in q
    ensures Distinct(Inserted(q, pri, t)) && |Inserted(q, pri, t)| == |q| + 1
    ensures forall u :: u in Inserted(q, pri, t) <==> u in q || u == t
  {
    var i := Place(q, pri, Of(pri, t));
    SplitMembers(q, i, t);
  }

  lemma SplitMembers(q: seq<Tid>, i: nat, t: Tid)
    requires Distinct(q) && t !in q && i <= |q|
    ensures var r := q[..i] + [t] + q[i..];
            Distinct(r) && |r| == |q| + 1 && forall u :: u in r <==> u in q || u == t
  {
    var r := q[..i] + [t] + q[i..];
    forall a, b | 0 <= a < b < |r| ensures r[a] != r[b] {
      var a', b' := if a < i then a else a - 1, if b < i then b else b - 1;
      if a == i {
        assert r[b] == q[b'];
      } else if b == i {
        assert r[a] == q[a'];
      } else {
        assert r[a] == q[a'] && r[b] == q[b'];
      }
    }
    forall u | u in q ensures u in r {
      var k :| 0 <= k < |q| && q[k] == u;
      assert r[if k < i then k else k + 1] == u;
    }
  }

  /** The newest ticket inserted keeps the order. */
  lemma InsertedOrdered(q: seq<Tid>, pri: seq<int>, ticket: seq<int>, t: Tid)
    requires Ordered(q, pri, ticket) && forall i :: 0 <= i < |q| ==> Of(ticket, q[i]) < Of(ticket, t)
    ensures Ordered(Inserted(q, pri, t), pri, ticket)
  {
    var i := Place(q, pri, Of(pri, t));
    var r := Inserted(q, pri, t);
    assert r == q[..i] + [t] + q[i..];
    hide Place, Inserted, Of;
    forall a, b | 0 <= a < b < |r| ensures Precedes(pri, ticket, r[a], r[b]) {
      var a', b' := if a < i then a else a - 1, if b < i then b else b - 1;
      if a == i {
        assert r[b] == q[b'];
        assert i < b' ==> Precedes(pri, ticket, q[i], q[b']);
      } else if b == i {
        assert r[a] == q[a'];
      } else {
        assert r[a] == q[a'] && r[b] == q[b'];
      }
    }
  }

  /** Taking any waiter out keeps the order. */
  lemma {:induction false} WithoutOrdered(q: seq<Tid>, pri: seq<int>, ticket: seq<int>, t: Tid)
    requires Ordered(q, pri, ticket)
    ensures Ordered(Without(q, t), pri, ticket)
    ensures forall u :: u in Without(q, t) ==> u in q
  {
    if q != [] {
      var rest := q[1..];
      hide Precedes;
      assert forall i :: 0 <= i < |rest| ==> rest[i] == q[i + 1];
      if q[0] != t {
        WithoutOrdered(rest, pri, ticket, t);
        PrependOrdered(q[0], Without(rest, t), rest, pri, ticket);
      }
    }
  }

  lemma PrependOrdered(h: Tid, w: seq<Tid>, rest: seq<Tid>, pri: seq<int>, ticket: seq<int>)
    requires Ordered(w, pri, ticket) && forall u :: u in w ==> u in rest
    requires forall i :: 0 <= i < |rest| ==> Precedes(pri, ticket, h, rest[i])
    ensures Ordered([h] + w, pri, ticket)
  {
    var r := [h] + w;
    forall i, j | 0 <= i < j < |r| ensures Precedes(pri, ticket, r[i], r[j]) {
      assert r[j] == w[j - 1] && w[j - 1] in rest;
      if i > 0 {
        assert r[i] == w[i - 1];
      }
    }
  }

  /** The head of an ordered queue precedes every other waiter. */
  lemma HeadFirst(q: seq<Tid>, pri: seq<int>, ticket: seq<int>, u: Tid)
    requires Ordered(q, pri, ticket) && u in q && u != q[0]
    ensures Precedes(pri, ticket, q[0], u)
  {
    var k :| 0 <= k < |q| && q[k] == u;
  }

  /** The order does not depend on the tickets of those who do not wait. */
  lemma OrderedTickets(q: seq<Tid>, pri: seq<int>, ticket: seq<int>, ticket': seq<int>)
    requires Ordered(q, pri, ticket) && forall i :: 0 <= i < |q| ==> Of(ticket', q[i]) == Of(ticket, q[i])
    ensures Ordered(q, pri, ticket')
  {
    forall i, j | 0 <= i < j < |q| ensures Precedes(pri, ticket', q[i], q[j]) {
      assert Precedes(pri, ticket, q[i], q[j]);
    }
  }

  /** FIFO is priority order with no priorities. */
  lemma AppendIsInsert(q: seq<Tid>, t: Tid)
    ensures Inserted(q, [], t) == q + [t]
  {
    assert forall u :: Of([], u) == 0;
    assert Place(q, [], 0) == |q|;
    assert q[..|q|] == q && q[|q|..] == [];
  }
}
