/**
 packages/ti/sysbios/knl/Queue.c on the heap. A queue is a ring of elements through its header; `ring` lists the elements
 from the header on, so that ring[1..] is the queue from head to tail. Every model that keeps a queue as a sequence rests
 on what is proved here: the pointer updates are the sequence operations, at any position, and touch no other element.
 */
module QueueRing {

  class Elem {
    var next: Elem
    var prev: Elem

    /** Queue_elemClear, and Queue_Instance_init for the element of a header. */
    constructor ()
      ensures next == this && prev == this && Ring([this])
    {
      next := this;
      prev := this;
    }
  }

  /** Following next from the header visits the elements of the ring in order and returns; prev goes the other way. */
  ghost predicate Ring(ring: seq<Elem>)
    reads ring
  {
    && |ring| > 0
    && (forall i, j :: 0 <= i < j < |ring| ==> ring[i] != ring[j])
    && (forall i :: 0 <= i < |ring| ==> ring[i].next == ring[After(i, |ring|)] && ring[After(i, |ring|)].prev == ring[i])
  }

  ghost function After(i: nat, n: nat): nat
    requires i < n
  {
    if i + 1 < n then i + 1 else 0
  }

  ghost function At(ring: seq<Elem>, i: int): Elem
    requires 0 <= i < |ring|
  {
    ring[i]
  }

  ghost function Before(i: nat, n: nat): nat
    requires i < n
  {
    if i > 0 then i - 1 else n - 1
  }

  lemma Neighbours(ring: seq<Elem>, i: nat)
    requires Ring(ring) && i < |ring|
    ensures ring[i].next == ring[After(i, |ring|)] && ring[i].prev == ring[Before(i, |ring|)]
  {
    assert After(Before(i, |ring|), |ring|) == i;
  }

  ghost function Put(ring: seq<Elem>, k: nat, elem: Elem): seq<Elem>
    requires k <= |ring|
  {
    ring[..k] + [elem] + ring[k..]
  }

  ghost function Cut(ring: seq<Elem>, k: nat): seq<Elem>
    requires k < |ring|
  {
    ring[..k] + ring[k + 1..]
  }

  /** Putting an element into a ring and cutting it out again gives back the ring. */
  lemma CutUndoesPut(ring: seq<Elem>, k: nat, elem: Elem)
    requires k <= |ring|
    ensures Cut(Put(ring, k, elem), k) == ring
  {
    assert Put(ring, k, elem)[..k] == ring[..k];
    assert Put(ring, k, elem)[k + 1..] == ring[k..];
    assert ring[..k] + ring[k..] == ring;
  }

  /** Queue_insert: before the element at position k, or at the end of the ring when that is the header. */
  method Insert(qelem: Elem, elem: Elem, ghost ring: seq<Elem>, ghost k: nat)
    requires Ring(ring) && 0 < k <= |ring| && qelem == ring[if k < |ring| then k else 0] && elem !in ring
    modifies elem, qelem`prev, At(ring, k - 1)`next
    ensures Ring(Put(ring, k, elem))
  {
    Neighbours(ring, if k < |ring| then k else 0);
    var prev := qelem.prev;
    elem.next := qelem;
    elem.prev := prev;
    prev.next := elem;
    qelem.prev := elem;
    ghost var r := Put(ring, k, elem);
    forall i | 0 <= i < |r| ensures r[i].next == r[After(i, |r|)] && r[After(i, |r|)].prev == r[i] {
      if i < k - 1 {
        assert r[i] == ring[i] && r[i + 1] == ring[i + 1];
        assert ring[i].next == ring[After(i, |ring|)];
      } else if i > k {
        assert r[i] == ring[i - 1] && r[After(i, |r|)] == ring[After(i - 1, |ring|)];
      }
    }
  }

  /** Queue_remove, for an element at any position but the header's. */
  method Remove(qelem: Elem, ghost ring: seq<Elem>, ghost k: nat)
    requires Ring(ring) && 0 < k < |ring| && qelem == ring[k]
    modifies At(ring, k - 1)`next, At(ring, After(k, |ring|))`prev
    ensures Ring(Cut(ring, k))
    ensures forall e :: e in ring && e != ring[k - 1] ==> e.next == old(e.next)
    ensures forall e :: e in ring && e != ring[After(k, |ring|)] ==> e.prev == old(e.prev)
  {
    Neighbours(ring, k);
    qelem.prev.next := qelem.next;
    qelem.next.prev := qelem.prev;
    ghost var r := Cut(ring, k);
    forall i | 0 <= i < |r| ensures r[i].next == r[After(i, |r|)] && r[After(i, |r|)].prev == r[i] {
      if i < k - 1 {
        assert r[i] == ring[i] && r[i + 1] == ring[i + 1];
        assert ring[i].next == ring[After(i, |ring|)];
      } else if i == k - 1 {
        assert r[i] == ring[k - 1] && r[After(i, |r|)] == ring[After(k, |ring|)];
      } else {
        assert r[i] == ring[i + 1] && r[After(i, |r|)] == ring[After(i + 1, |ring|)];
      }
    }
  }

  /** Queue_enqueue and Queue_put: at the tail. */
  method Enqueue(obj: Elem, elem: Elem, ghost ring: seq<Elem>)
    requires Ring(ring) && obj == ring[0] && elem !in ring
    modifies elem, obj`prev, At(ring, |ring| - 1)`next
    ensures Ring(ring + [elem])
  {
    Neighbours(ring, 0);
    assert Put(ring, |ring|, elem) == ring + [elem];
    Insert(obj, elem, ring, |ring|);
  }

  /** Queue_dequeue and Queue_get: the head, or the header itself when the queue is empty. */
  method Dequeue(obj: Elem, ghost ring: seq<Elem>) returns (elem: Elem)
    requires Ring(ring) && obj == ring[0]
    modifies obj`next, At(ring, After(if |ring| > 1 then 1 else 0, |ring|))`prev
    ensures elem == if |ring| > 1 then ring[1] else obj
    ensures Ring(if |ring| > 1 then Cut(ring, 1) else ring)
  {
    ghost var k := if |ring| > 1 then 1 else 0;
    Neighbours(ring, 0);
    Neighbours(ring, k);
    elem := obj.next;
    var next := elem.next;
    obj.next := next;
    next.prev := obj;
    if |ring| > 1 {
      ghost var r := Cut(ring, 1);
      forall i | 0 <= i < |r| ensures r[i].next == r[After(i, |r|)] && r[After(i, |r|)].prev == r[i] {
        if i == 0 {
          assert r[After(0, |r|)] == ring[After(1, |ring|)];
        } else {
          assert r[i] == ring[i + 1] && r[After(i, |r|)] == ring[After(i + 1, |ring|)];
        }
      }
      forall i, j | 0 <= i < j < |r| ensures r[i] != r[j] {
        assert r[j] == ring[j + 1] && r[i] == ring[if i == 0 then 0 else i + 1];
      }
    }
  }

  /** Queue_empty. */
  method Empty(obj: Elem, ghost ring: seq<Elem>) returns (empty: bool)
    requires Ring(ring) && obj == ring[0]
    ensures empty <==> ring[1..] == []
  {
    Neighbours(ring, 0);
    empty := obj.next == obj;
  }

  /** A walk by Queue_head and Queue_next until the header comes again visits the queue from head to tail. */
  method Walk(obj: Elem, ghost ring: seq<Elem>) returns (visited: seq<Elem>)
    requires Ring(ring) && obj == ring[0]
    ensures visited == ring[1..]
  {
    visited := [];
    Neighbours(ring, 0);
    var elem := obj.next;
    ghost var i := After(0, |ring|);
    while elem != obj
      invariant 0 <= i < |ring| && elem == ring[i]
      invariant i == 0 ==> visited == ring[1..]
      invariant i > 0 ==> visited == ring[1..i]
      decreases if i > 0 then |ring| - i else 0
    {
      Neighbours(ring, i);
      visited := visited + [elem];
      assert visited == ring[1..i + 1];
      elem := elem.next;
      i := After(i, |ring|);
    }
  }
}
