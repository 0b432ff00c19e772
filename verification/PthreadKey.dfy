/**
 packages/ti/posix/tirtos/pthread_key.c: thread-specific data as records that are each linked on two rings, that of the
 thread and that of the key. A ring is the sequence of its records; what Queue_put, Queue_get and Queue_remove do to it is
 proved in QueueRing. Memory_free of a record takes it out of `recs`.
 */
module PthreadKey {
  import opened Base

  type Tid = nat
  type Kid = nat
  type Rid = nat
  type Value = nat

  const NULL: Value := 0

  datatype Rec = Rec(thread: Tid, key: Kid, value: Value)

  /** The records, the ring of each thread, and the ring of each existing key. */
  datatype Index = Index(recs: map<Rid, Rec>, threads: map<Tid, seq<Rid>>, keys: map<Kid, seq<Rid>>)

  // ---------------------------------------------------------------- one finite map

  /** A record lies on exactly the ring of its thread and the ring of its key. */
  ghost predicate Linked(s: Index, r: Rid)
    requires r in s.recs
  {
    && s.recs[r].thread in s.threads && r in s.threads[s.recs[r].thread]
    && s.recs[r].key in s.keys && r in s.keys[s.recs[r].key]
  }

  ghost predicate ThreadRing(s: Index, t: Tid)
    requires t in s.threads
  {
    Distinct(s.threads[t]) && forall r :: r in s.threads[t] ==> r in s.recs && s.recs[r].thread == t
  }

  ghost predicate KeyRing(s: Index, k: Kid)
    requires k in s.keys
  {
    Distinct(s.keys[k]) && forall r :: r in s.keys[k] ==> r in s.recs && s.recs[r].key == k
  }

  /** No two records are for the same thread and key. */
  ghost predicate Unique(s: Index) {
    forall r, q :: r in s.recs && q in s.recs && s.recs[r].thread == s.recs[q].thread && s.recs[r].key == s.recs[q].key ==> r == q
  }

  ghost predicate Valid(s: Index) {
    && (forall r :: r in s.recs ==> Linked(s, r))
    && (forall t :: t in s.threads ==> ThreadRing(s, t))
    && (forall k :: k in s.keys ==> KeyRing(s, k))
    && Unique(s)
  }

  /** What the two rings mean together: the set of entries (thread, key, value). */
  ghost function Entries(s: Index): set<Rec> {
    set r | r in s.recs :: s.recs[r]
  }

  /** A thread and a key have at most one value. */
  ghost predicate Functional(m: set<Rec>) {
    forall x, y :: x in m && y in m && x.thread == y.thread && x.key == y.key ==> x == y
  }

  type Dictionary = map<(Tid, Kid), Value>

  ghost function AsMap(m: set<Rec>): Dictionary
    requires Functional(m)
  {
    map x | x in m :: (x.thread, x.key) := x.value
  }

  /** The records on their two rings are one finite map from thread and key to value. */
  lemma OneFiniteMap(s: Index)
    requires Valid(s)
    ensures Functional(Entries(s))
    ensures forall t: Tid, k: Kid, v: Value ::
              Rec(t, k, v) in Entries(s) <==> (t, k) in AsMap(Entries(s)) && AsMap(Entries(s))[(t, k)] == v
  {
    AsMapIs(Entries(s));
  }

  lemma AsMapIs(m: set<Rec>)
    requires Functional(m)
    ensures forall t: Tid, k: Kid, v: Value :: Rec(t, k, v) in m <==> (t, k) in AsMap(m) && AsMap(m)[(t, k)] == v
  {
    forall t: Tid, k: Kid, v: Value ensures Rec(t, k, v) in m <==> (t, k) in AsMap(m) && AsMap(m)[(t, k)] == v {
      if Rec(t, k, v) in m {
        assert (Rec(t, k, v).thread, Rec(t, k, v).key) in AsMap(m);
      }
      if (t, k) in AsMap(m) {
        var x :| x in m && (x.thread, x.key) == (t, k);
        assert x == Rec(t, k, x.value);
      }
    }
  }

  /** Two sets of entries whose members correspond as the maps a and b do. */
  lemma MapsAgree(m: set<Rec>, d: Dictionary)
    requires Functional(m)
    requires forall t: Tid, k: Kid, v: Value :: Rec(t, k, v) in m <==> (t, k) in d && d[(t, k)] == v
    ensures AsMap(m) == d
  {
    AsMapIs(m);
    var a := AsMap(m);
    forall p | p in a ensures p in d && d[p] == a[p] {
      assert Rec(p.0, p.1, a[p]) in m;
    }
    forall p | p in d ensures p in a {
      assert Rec(p.0, p.1, d[p]) in m;
    }
  }

  ghost function WithoutKey(d: Dictionary, k: Kid): Dictionary {
    map p | p in d && p.1 != k :: d[p]
  }

  ghost function WithoutThread(d: Dictionary, t: Tid): Dictionary {
    map p | p in d && p.0 != t :: d[p]
  }

  /** The map that the records stand for. */
  ghost function Dict(s: Index): Dictionary
    requires Valid(s)
  {
    OneFiniteMap(s);
    AsMap(Entries(s))
  }

  lemma SetIsUpdate(s: Index, s': Index, t: Tid, k: Kid, v: Value)
    requires Valid(s) && Valid(s') && Entries(s') == Others(Entries(s), t, k) + {Rec(t, k, v)}
    ensures Dict(s') == Dict(s)[(t, k) := v]
  {
    hide Valid, Entries;
    OneFiniteMap(s);
    OneFiniteMap(s');
    MapsAgree(Entries(s'), Dict(s)[(t, k) := v]);
  }

  lemma DeleteIsRestriction(s: Index, s': Index, k: Kid)
    requires Valid(s) && Valid(s') && Entries(s') == NotOfKey(Entries(s), k)
    ensures Dict(s') == WithoutKey(Dict(s), k)
  {
    hide Valid, Entries;
    OneFiniteMap(s);
    OneFiniteMap(s');
    MapsAgree(Entries(s'), WithoutKey(Dict(s), k));
  }

  lemma EndIsRestriction(s: Index, s': Index, t: Tid)
    requires Valid(s) && Valid(s') && Entries(s') == NotOfThread(Entries(s), t)
    ensures Dict(s') == WithoutThread(Dict(s), t)
  {
    hide Valid, Entries;
    OneFiniteMap(s);
    OneFiniteMap(s');
    MapsAgree(Entries(s'), WithoutThread(Dict(s), t));
  }

  // ---------------------------------------------------------------- linking and unlinking

  /** A record unlinked from both of its rings and freed. */
  function Drop(s: Index, r: Rid): Index
    requires r in s.recs && s.recs[r].thread in s.threads && s.recs[r].key in s.keys
  {
    var x := s.recs[r];
    Index(s.recs - {r}, s.threads[x.thread := Without(s.threads[x.thread], r)], s.keys[x.key := Without(s.keys[x.key], r)])
  }

  /** A new record at the ends of both of its rings. */
  function Link(s: Index, r: Rid, x: Rec): Index
    requires x.thread in s.threads && x.key in s.keys
  {
    Index(s.recs[r := x], s.threads[x.thread := s.threads[x.thread] + [r]], s.keys[x.key := s.keys[x.key] + [r]])
  }

  /** Unlinking changes no ring but the two the record is on. */
  lemma DropRings(s: Index, r: Rid)
    requires Valid(s) && r in s.recs
    ensures Linked(s, r)
    ensures var d := Drop(s, r);
            && d.threads.Keys == s.threads.Keys && d.keys.Keys == s.keys.Keys
            && (forall t :: t in s.threads ==> d.threads[t] == Without(s.threads[t], r) && Distinct(d.threads[t]))
            && (forall k :: k in s.keys ==> d.keys[k] == Without(s.keys[k], r) && Distinct(d.keys[k]))
            && (forall t, q :: t in s.threads ==> (q in d.threads[t] <==> q in s.threads[t] && q != r))
            && (forall k, q :: k in s.keys ==> (q in d.keys[k] <==> q in s.keys[k] && q != r))
  {
    assert Linked(s, r);
    var d := Drop(s, r);
    hide Unique;
    forall t | t in s.threads
      ensures d.threads[t] == Without(s.threads[t], r) && Distinct(d.threads[t])
      ensures forall q :: q in d.threads[t] <==> q in s.threads[t] && q != r
    {
      assert ThreadRing(s, t);
      WithoutMembers(s.threads[t], r);
      if t != s.recs[r].thread {
        assert r !in s.threads[t];
      }
    }
    forall k | k in s.keys
      ensures d.keys[k] == Without(s.keys[k], r) && Distinct(d.keys[k])
      ensures forall q :: q in d.keys[k] <==> q in s.keys[k] && q != r
    {
      assert KeyRing(s, k);
      WithoutMembers(s.keys[k], r);
      if k != s.recs[r].key {
        assert r !in s.keys[k];
      }
    }
  }

  /** Unlinking a record takes exactly its entry out of the map. */
  lemma DropValid(s: Index, r: Rid)
    requires Valid(s) && r in s.recs && Linked(s, r)
    ensures Valid(Drop(s, r)) && Entries(Drop(s, r)) == Entries(s) - {s.recs[r]}
  {
    DropRings(s, r);
    var d := Drop(s, r);
    assert d.recs == s.recs - {r};
    DropEntries(s, r, d);
    hide Drop, Entries, Unique, Without, Distinct;
    forall q | q in d.recs ensures Linked(d, q) {
      assert Linked(s, q);
    }
    forall t | t in d.threads ensures ThreadRing(d, t) {
      assert ThreadRing(s, t);
    }
    forall k | k in d.keys ensures KeyRing(d, k) {
      assert KeyRing(s, k);
    }
  }

  lemma DropEntries(s: Index, r: Rid, d: Index)
    requires Unique(s) && r in s.recs && d.recs == s.recs - {r}
    ensures Unique(d) && Entries(d) == Entries(s) - {s.recs[r]}
  {
    forall x ensures x in Entries(d) <==> x in Entries(s) && x != s.recs[r] {
      if x in Entries(s) && x != s.recs[r] {
        var q :| q in s.recs && s.recs[q] == x;
        assert q in d.recs;
      }
    }
  }

  lemma LinkValid(s: Index, r: Rid, x: Rec)
    requires Valid(s) && r !in s.recs && x.thread in s.threads && x.key in s.keys
    requires forall w :: Rec(x.thread, x.key, w) !in Entries(s)
    ensures Valid(Link(s, r, x)) && Entries(Link(s, r, x)) == Entries(s) + {x}
  {
    var l := Link(s, r, x);
    LinkEntries(s, r, x, l);
    hide Entries, Unique;
    LinkRings(s, r, x);
    hide Distinct, ThreadRing, KeyRing;
    forall q | q in l.recs ensures Linked(l, q) {
      assert q in s.recs ==> Linked(s, q);
    }
  }

  lemma LinkRings(s: Index, r: Rid, x: Rec)
    requires r !in s.recs && x.thread in s.threads && x.key in s.keys
    requires forall t :: t in s.threads ==> ThreadRing(s, t)
    requires forall k :: k in s.keys ==> KeyRing(s, k)
    ensures var l := Link(s, r, x);
            && (forall t :: t in l.threads ==> ThreadRing(l, t))
            && (forall k :: k in l.keys ==> KeyRing(l, k))
  {
    var l := Link(s, r, x);
    assert ThreadRing(s, x.thread) && KeyRing(s, x.key);
    AppendDistinct(s.threads[x.thread], r);
    AppendDistinct(s.keys[x.key], r);
    forall t | t in l.threads ensures ThreadRing(l, t) {
      assert ThreadRing(s, t);
    }
    forall k | k in l.keys ensures KeyRing(l, k) {
      assert KeyRing(s, k);
    }
  }

  lemma LinkEntries(s: Index, r: Rid, x: Rec, l: Index)
    requires Unique(s) && r !in s.recs && l.recs == s.recs[r := x] && forall w :: Rec(x.thread, x.key, w) !in Entries(s)
    ensures Unique(l) && Entries(l) == Entries(s) + {x}
  {
    forall q | q in s.recs ensures s.recs[q].thread != x.thread || s.recs[q].key != x.key {
      assert s.recs[q] in Entries(s);
      assert s.recs[q] == Rec(s.recs[q].thread, s.recs[q].key, s.recs[q].value);
    }
    forall y ensures y in Entries(l) <==> y in Entries(s) || y == x {
      if y in Entries(s) {
        var q :| q in s.recs && s.recs[q] == y;
        assert q in l.recs && l.recs[q] == y;
      }
      if y == x {
        assert l.recs[r] == x;
      }
    }
  }

  /** Assigning a record's value assigns its entry. */
  lemma AssignValid(s: Index, r: Rid, v: Value)
    requires Valid(s) && r in s.recs
    ensures var a := s.(recs := s.recs[r := s.recs[r].(value := v)]);
            Valid(a) && Entries(a) == Entries(s) - {s.recs[r]} + {s.recs[r].(value := v)}
  {
    var a := s.(recs := s.recs[r := s.recs[r].(value := v)]);
    AssignEntries(s, r, v, a);
    hide Entries, Unique;
    forall q | q in a.recs ensures Linked(a, q) {
      assert Linked(s, q);
    }
    forall t | t in a.threads ensures ThreadRing(a, t) {
      assert ThreadRing(s, t);
    }
    forall k | k in a.keys ensures KeyRing(a, k) {
      assert KeyRing(s, k);
    }
  }

  lemma AssignEntries(s: Index, r: Rid, v: Value, a: Index)
    requires Unique(s) && r in s.recs && a.recs == s.recs[r := s.recs[r].(value := v)]
    ensures Unique(a) && Entries(a) == Entries(s) - {s.recs[r]} + {s.recs[r].(value := v)}
  {
    var x := s.recs[r].(value := v);
    forall y ensures y in Entries(a) <==> (y in Entries(s) && y != s.recs[r]) || y == x {
      if y in Entries(s) && y != s.recs[r] {
        var q :| q in s.recs && s.recs[q] == y;
        assert a.recs[q] == y;
      }
      if y == x {
        assert a.recs[r] == x;
      }
      if y in Entries(a) && y != x {
        var q :| q in a.recs && a.recs[q] == y;
        assert s.recs[q] == y;
      }
    }
  }

  /** The entries that are not of thread t, or not of key k. */
  ghost function NotOfThread(m: set<Rec>, t: Tid): set<Rec> {
    set x | x in m && x.thread != t
  }

  ghost function NotOfKey(m: set<Rec>, k: Kid): set<Rec> {
    set x | x in m && x.key != k
  }

  /** A thread whose ring is empty has no entries, and so for a key. */
  lemma EmptyRings(s: Index, t: Tid, k: Kid)
    requires Valid(s)
    ensures t in s.threads && s.threads[t] == [] ==> NotOfThread(Entries(s), t) == Entries(s)
    ensures k in s.keys && s.keys[k] == [] ==> NotOfKey(Entries(s), k) == Entries(s)
  {
    forall x | x in Entries(s)
      ensures t in s.threads && s.threads[t] == [] ==> x.thread != t
      ensures k in s.keys && s.keys[k] == [] ==> x.key != k
    {
      var q :| q in s.recs && s.recs[q] == x;
      assert Linked(s, q);
    }
  }

  // ---------------------------------------------------------------- destructor calls

  /** A call of a key's destructor with a thread's value. */
  datatype Call = Call(key: Kid, value: Value)

  /** The calls that ending the thread makes for the records of a ring, in its order. */
  function CallsFor(s: Index, hasDestructor: set<Kid>, ring: seq<Rid>): seq<Call>
    requires forall r :: r in ring ==> r in s.recs
  {
    if ring == [] then []
    else
      var x := s.recs[ring[0]];
      (if x.key in hasDestructor && x.value != NULL then [Call(x.key, x.value)] else []) + CallsFor(s, hasDestructor, ring[1..])
  }

  /** A key's destructor is called exactly if it has one and the thread's value is not null. */
  lemma {:induction false} CallsMembers(s: Index, hasDestructor: set<Kid>, ring: seq<Rid>, c: Call)
    requires forall r :: r in ring ==> r in s.recs
    ensures c in CallsFor(s, hasDestructor, ring) <==>
              && c.key in hasDestructor && c.value != NULL
              && exists r :: r in ring && s.recs[r].key == c.key && s.recs[r].value == c.value
  {
    if ring != [] {
      var rest := ring[1..];
      CallsMembers(s, hasDestructor, rest, c);
      assert ring == [ring[0]] + rest;
    }
  }

  /** A value set under a new key has its destructor called after those of all keys the thread has. */
  lemma {:induction false} LinkedLast(s: Index, hasDestructor: set<Kid>, r: Rid, x: Rec, ring: seq<Rid>)
    requires r !in s.recs && x.thread in s.threads && x.key in s.keys && forall q :: q in ring ==> q in s.recs
    ensures var s' := Link(s, r, x);
            && s'.threads[x.thread] == s.threads[x.thread] + [r]
            && (forall q :: q in ring + [r] ==> q in s'.recs)
            && CallsFor(s', hasDestructor, ring + [r]) ==
               CallsFor(s, hasDestructor, ring) + (if x.key in hasDestructor && x.value != NULL then [Call(x.key, x.value)] else [])
  {
    var s' := Link(s, r, x);
    if ring == [] {
      assert (ring + [r])[1..] == [];
    } else {
      LinkedLast(s, hasDestructor, r, x, ring[1..]);
      assert (ring + [r])[1..] == ring[1..] + [r];
      assert s'.recs[ring[0]] == s.recs[ring[0]] by { assert ring[0] in ring; }
    }
  }

  /** No key's destructor is called twice. */
  lemma {:induction false} CallsOnce(s: Index, hasDestructor: set<Kid>, ring: seq<Rid>, t: Tid)
    requires Unique(s) && Distinct(ring) && forall r :: r in ring ==> r in s.recs && s.recs[r].thread == t
    ensures var calls := CallsFor(s, hasDestructor, ring);
            forall i, j :: 0 <= i < j < |calls| ==> calls[i].key != calls[j].key
  {
    if ring != [] {
      var rest := ring[1..];
      CallsOnce(s, hasDestructor, rest, t);
      var calls, tail := CallsFor(s, hasDestructor, ring), CallsFor(s, hasDestructor, rest);
      forall j | 0 <= j < |tail| ensures tail[j].key != s.recs[ring[0]].key {
        CallsMembers(s, hasDestructor, rest, tail[j]);
        var r :| r in rest && s.recs[r].key == tail[j].key;
        assert ring[0] !in rest;
      }
    }
  }

  /** Ending a thread calls the destructor of a key with a value exactly if that is its non-null entry. */
  lemma ThreadEndCalls(s: Index, hasDestructor: set<Kid>, t: Tid, c: Call)
    requires Valid(s) && t in s.threads
    ensures ThreadRing(s, t)
    ensures c in CallsFor(s, hasDestructor, s.threads[t]) <==>
              c.key in hasDestructor && c.value != NULL && Rec(t, c.key, c.value) in Entries(s)
  {
    assert ThreadRing(s, t);
    CallsMembers(s, hasDestructor, s.threads[t], c);
    hide CallsFor, Unique;
    if Rec(t, c.key, c.value) in Entries(s) {
      var r :| r in s.recs && s.recs[r] == Rec(t, c.key, c.value);
      assert Linked(s, r);
    }
    forall r | r in s.threads[t] && s.recs[r].key == c.key && s.recs[r].value == c.value
      ensures Rec(t, c.key, c.value) in Entries(s)
    {
      assert s.recs[r] == Rec(t, c.key, c.value);
    }
  }

  // ---------------------------------------------------------------- the functions

  class Keys {
    var recs: map<Rid, Rec>
    var threads: map<Tid, seq<Rid>>
    var keys: map<Kid, seq<Rid>>
    var hasDestructor: set<Kid>
    var calls: seq<Call>

    ghost function S(): Index
      reads this
    {
      Index(recs, threads, keys)
    }

    /** The threads exist, each with an empty ring; no key has been created. */
    constructor (threads: set<Tid>)
      ensures Valid(S()) && Dict(S()) == map[] && this.threads.Keys == threads && keys == map[] && calls == []
    {
      recs, keys, hasDestructor, calls := map[], map[], {}, [];
      this.threads := map t | t in threads :: [];
    }

    /** pthread_key_create. */
    method Create(key: Kid, destructor: bool)
      requires Valid(S()) && key !in keys
      modifies this`keys, this`hasDestructor
      ensures Valid(S()) && Dict(S()) == Dict(old(S())) && key in keys
      ensures hasDestructor == if destructor then old(hasDestructor) + {key} else old(hasDestructor) - {key}
    {
      ghost var s := S();
      keys := keys[key := []];
      hasDestructor := if destructor then hasDestructor + {key} else hasDestructor - {key};
      forall r | r in recs ensures Linked(S(), r) {
        assert Linked(s, r);
      }
      forall t | t in threads ensures ThreadRing(S(), t) {
        assert ThreadRing(s, t);
      }
      forall k | k in keys ensures KeyRing(S(), k) {
        assert k in s.keys ==> KeyRing(s, k);
      }
    }

    /** The first record of the thread's ring with the key, if there is one. */
    method Find(thread: Tid, key: Kid) returns (r: Option<Rid>)
      requires Valid(S()) && thread in threads
      ensures r.Some? ==> r.value in recs && recs[r.value].thread == thread && recs[r.value].key == key
      ensures r.None? ==> forall w :: Rec(thread, key, w) !in Entries(S())
    {
      var ring := threads[thread];
      assert ThreadRing(S(), thread);
      var i := 0;
      while i < |ring|
        invariant 0 <= i <= |ring| && forall j :: 0 <= j < i ==> recs[ring[j]].key != key
      {
        if recs[ring[i]].key == key {
          return Some(ring[i]);
        }
        i := i + 1;
      }
      NoEntry(S(), thread, key);
      return None;
    }

    /** pthread_getspecific: the entry of the calling thread and the key. */
    method GetSpecific(thread: Tid, key: Kid) returns (value: Value)
      requires Valid(S()) && thread in threads
      ensures value == if (thread, key) in Dict(S()) then Dict(S())[(thread, key)] else NULL
    {
      OneFiniteMap(S());
      value := NULL;
      var r := Find(thread, key);
      if r.Some? {
        value := recs[r.value].value;
        assert recs[r.value] == Rec(thread, key, value);
        assert recs[r.value] in Entries(S());
      }
    }

    /** A new record is filled in and put on both rings, lines 258-269. */
    method Put(r: Rid, x: Rec)
      requires x.thread in threads && x.key in keys
      modifies this`recs, this`threads, this`keys
      ensures S() == Link(old(S()), r, x)
    {
      recs := recs[r := x];
      threads := threads[x.thread := threads[x.thread] + [r]];
      keys := keys[x.key := keys[x.key] + [r]];
    }

    /** pthread_setspecific; `free` is what Memory_alloc returns, if it is called. False is ENOMEM. */
    method SetSpecific(thread: Tid, key: Kid, value: Value, free: Option<Rid>) returns (ok: bool)
      requires Valid(S()) && thread in threads && key in keys && (free.Some? ==> free.value !in recs)
      modifies this`recs, this`threads, this`keys
      ensures Valid(S()) && threads.Keys == old(threads.Keys) && keys.Keys == old(keys.Keys)
      ensures ok ==> Dict(S()) == Dict(old(S()))[(thread, key) := value]
      ensures !ok ==> S() == old(S()) && free.None? && (thread, key) !in Dict(S())
    {
      ghost var s := S();
      var r := Find(thread, key);
      OneFiniteMap(s);
      assert r.None? ==> (thread, key) !in Dict(s);
      hide Valid, Entries, Others, Dict, Without;
      if r.Some? {
        SetAssigns(s, r.value, value);
        recs := recs[r.value := recs[r.value].(value := value)];
        SetIsUpdate(s, S(), thread, key, value);
        return true;
      }
      SetLinks(s, thread, key);
      if free.None? {
        return false;
      }
      LinkValid(s, free.value, Rec(thread, key, value));
      Put(free.value, Rec(thread, key, value));
      SetIsUpdate(s, S(), thread, key, value);
      return true;
    }

    /** Both Queue_remove calls and Memory_free for the record at the head of a thread's ring or of a key's ring. */
    method Unlink(r: Rid)
      requires r in recs && recs[r].thread in threads && recs[r].key in keys
      modifies this`recs, this`threads, this`keys
      ensures S() == Drop(old(S()), r)
    {
      hide Without;
      var t, k := recs[r].thread, recs[r].key;
      threads := threads[t := Without(threads[t], r)];
      keys := keys[k := Without(keys[k], r)];
      recs := recs - {r};
    }

    /** pthread_key_delete: exactly the entries of the key go, of whatever threads. */
    method Delete(key: Kid)
      requires Valid(S()) && key in keys
      modifies this`recs, this`threads, this`keys
      ensures Valid(S()) && Dict(S()) == WithoutKey(Dict(old(S())), key)
      ensures keys.Keys == old(keys.Keys) - {key} && threads.Keys == old(threads.Keys)
    {
      ghost var start := S();
      hide Valid, Entries, NotOfKey, Drop, Dict;
      while keys[key] != []
        invariant key in keys && Valid(S()) && keys.Keys == start.keys.Keys && threads.Keys == start.threads.Keys
        invariant NotOfKey(Entries(S()), key) == NotOfKey(Entries(start), key)
        decreases |keys[key]|
      {
        DeleteStep(S(), key);
        Unlink(keys[key][0]);
      }
      EmptyRings(S(), 0, key);
      RemoveKey(S(), key);
      keys := keys - {key};
      DeleteIsRestriction(start, S(), key);
    }

    /** The body of the loop of _pthread_removeThreadKeys. */
    method RemoveHead(thread: Tid)
      requires thread in threads && threads[thread] != [] && threads[thread][0] in recs
      requires var x := recs[threads[thread][0]]; x.thread in threads && x.key in keys
      modifies this`recs, this`threads, this`keys, this`calls
      ensures S() == Drop(old(S()), old(threads[thread][0]))
      ensures calls == var x := old(recs[threads[thread][0]]);
                       if x.key in hasDestructor && x.value != NULL then old(calls) + [Call(x.key, x.value)] else old(calls)
    {
      hide Without;
      var r := threads[thread][0];
      var x := recs[r];
      Unlink(r);
      if x.key in hasDestructor && x.value != NULL {
        calls := calls + [Call(x.key, x.value)];
      }
    }

    /**
     _pthread_removeThreadKeys: exactly the entries of the thread go, and the destructors are called in the order of
     its ring.
     */
    method RemoveThread(thread: Tid)
      requires Valid(S()) && thread in threads
      modifies this`recs, this`threads, this`keys, this`calls
      ensures Valid(S()) && Dict(S()) == WithoutThread(Dict(old(S())), thread)
      ensures keys.Keys == old(keys.Keys) && threads.Keys == old(threads.Keys)
      ensures ThreadRing(old(S()), thread) && calls == AllCalls(old(S()), hasDestructor, old(calls), thread)
    {
      ghost var start, all := S(), AllCalls(S(), hasDestructor, calls, thread);
      EndingStarts(start, thread);
      hide Valid, Entries, NotOfThread, Ending, Drop, ThreadRing, ToCall, Dict;
      while threads[thread] != []
        invariant thread in threads && Ending(start, S(), thread) && ToCall(start, hasDestructor, calls, threads[thread], all)
        decreases |threads[thread]|
      {
        EndingStep(start, S(), thread);
        ToCallStep(start, hasDestructor, calls, threads[thread], all);
        RemoveHead(thread);
      }
      EndingEnds(start, S(), thread);
      EndIsRestriction(start, S(), thread);
      ToCallEnds(start, hasDestructor, calls, all);
    }
  }

  /** All calls after a thread has ended. */
  ghost function AllCalls(s: Index, hasDestructor: set<Kid>, calls: seq<Call>, t: Tid): seq<Call>
    requires t in s.threads && Valid(s)
  {
    assert ThreadRing(s, t);
    calls + CallsFor(s, hasDestructor, s.threads[t])
  }

  /** `all` will have been called when the records of the ring are done. */
  ghost predicate ToCall(s: Index, hasDestructor: set<Kid>, calls: seq<Call>, ring: seq<Rid>, all: seq<Call>) {
    (forall r :: r in ring ==> r in s.recs) && calls + CallsFor(s, hasDestructor, ring) == all
  }

  lemma ToCallStep(s: Index, hasDestructor: set<Kid>, calls: seq<Call>, ring: seq<Rid>, all: seq<Call>)
    requires ring != [] && ToCall(s, hasDestructor, calls, ring, all)
    ensures ring[0] in s.recs
    ensures var x := s.recs[ring[0]];
            var now := if x.key in hasDestructor && x.value != NULL then calls + [Call(x.key, x.value)] else calls;
            ToCall(s, hasDestructor, now, ring[1..], all)
  {
    hide CallsFor;
    CallsStep(s, hasDestructor, ring);
    var x := s.recs[ring[0]];
    var rest := CallsFor(s, hasDestructor, ring[1..]);
    assert calls + ([Call(x.key, x.value)] + rest) == (calls + [Call(x.key, x.value)]) + rest;
  }

  lemma ToCallEnds(s: Index, hasDestructor: set<Kid>, calls: seq<Call>, all: seq<Call>)
    requires ToCall(s, hasDestructor, calls, [], all)
    ensures calls == all
  {
    assert calls + [] == calls;
  }

  /** One turn of the loop of a key's deletion. */
  lemma DeleteStep(s: Index, k: Kid)
    requires Valid(s) && k in s.keys && s.keys[k] != []
    ensures var r := s.keys[k][0];
            && r in s.recs && s.recs[r].thread in s.threads && s.recs[r].key == k
            && var d := Drop(s, r);
               && Valid(d) && d.threads.Keys == s.threads.Keys && d.keys.Keys == s.keys.Keys
               && d.keys[k] == s.keys[k][1..]
               && NotOfKey(Entries(d), k) == NotOfKey(Entries(s), k)
  {
    var r := s.keys[k][0];
    assert KeyRing(s, k);
    DropRings(s, r);
    DropValid(s, r);
    hide Entries, Unique, Distinct, Drop;
  }

  /** A thread in the course of its end: the entries of other threads, and those records it still has, are as at the start. */
  ghost predicate Ending(start: Index, s: Index, t: Tid) {
    && Valid(s) && t in s.threads && s.threads.Keys == start.threads.Keys && s.keys.Keys == start.keys.Keys
    && NotOfThread(Entries(s), t) == NotOfThread(Entries(start), t)
    && forall r :: r in s.recs ==> r in start.recs && s.recs[r] == start.recs[r]
  }

  lemma EndingStarts(s: Index, t: Tid)
    requires Valid(s) && t in s.threads
    ensures Ending(s, s, t) && ThreadRing(s, t)
    ensures forall hasDestructor, calls :: ToCall(s, hasDestructor, calls, s.threads[t], AllCalls(s, hasDestructor, calls, t))
  {
  }

  lemma EndingStep(start: Index, s: Index, t: Tid)
    requires Ending(start, s, t) && t in s.threads && s.threads[t] != []
    ensures var r := s.threads[t][0];
            && r in s.recs && r in start.recs && s.recs[r] == start.recs[r] && s.recs[r].thread == t && s.recs[r].key in s.keys
            && s.recs[r].thread in s.threads && t in Drop(s, r).threads && Drop(s, r).threads[t] == s.threads[t][1..]
            && Ending(start, Drop(s, r), t)
  {
    var r := s.threads[t][0];
    RemoveStep(s, t);
    hide Valid, Entries, NotOfThread;
    assert Drop(s, r).recs == s.recs - {r};
  }

  lemma EndingEnds(start: Index, s: Index, t: Tid)
    requires Ending(start, s, t) && t in s.threads && s.threads[t] == []
    ensures Valid(s) && Entries(s) == NotOfThread(Entries(start), t)
    ensures s.threads.Keys == start.threads.Keys && s.keys.Keys == start.keys.Keys
  {
    RingsEmpty(s, t);
  }

  /** A thread whose ring has no record with the key has no entry for it. */
  lemma NoEntry(s: Index, t: Tid, k: Kid)
    requires Valid(s) && t in s.threads && ThreadRing(s, t) && forall r :: r in s.threads[t] ==> s.recs[r].key != k
    ensures forall w :: Rec(t, k, w) !in Entries(s)
  {
    forall q | q in s.recs && s.recs[q].thread == t ensures s.recs[q].key != k {
      assert Linked(s, q);
    }
  }

  /** The entries of other threads or other keys. */
  ghost function Others(m: set<Rec>, t: Tid, k: Kid): set<Rec> {
    set x | x in m && !(x.thread == t && x.key == k)
  }

  lemma SetAssigns(s: Index, r: Rid, v: Value)
    requires Valid(s) && r in s.recs
    ensures var a := s.(recs := s.recs[r := s.recs[r].(value := v)]);
            Valid(a) && Entries(a) == Others(Entries(s), s.recs[r].thread, s.recs[r].key) + {s.recs[r].(value := v)}
  {
    AssignValid(s, r, v);
    OthersOf(s, r);
  }

  lemma SetLinks(s: Index, t: Tid, k: Kid)
    requires forall w :: Rec(t, k, w) !in Entries(s)
    ensures Others(Entries(s), t, k) == Entries(s)
  {
    forall x | x in Entries(s) ensures x in Others(Entries(s), t, k) {
      assert x == Rec(x.thread, x.key, x.value);
    }
  }

  /** One turn of the loop of a thread's end. */
  lemma RemoveStep(s: Index, t: Tid)
    requires Valid(s) && t in s.threads && s.threads[t] != []
    ensures var r := s.threads[t][0];
            && r in s.recs && s.recs[r].thread == t && Linked(s, r)
            && var d := Drop(s, r);
               && Valid(d) && d.threads.Keys == s.threads.Keys && d.keys.Keys == s.keys.Keys
               && d.threads[t] == s.threads[t][1..] && ThreadRing(d, t)
               && NotOfThread(Entries(d), t) == NotOfThread(Entries(s), t)
  {
    var r := s.threads[t][0];
    assert ThreadRing(s, t);
    DropRings(s, r);
    DropValid(s, r);
    hide Entries, Unique, Distinct, Drop;
    var d := Drop(s, r);
    assert ThreadRing(d, t);
  }

  lemma RingsEmpty(s: Index, t: Tid)
    requires Valid(s) && t in s.threads && s.threads[t] == []
    ensures NotOfThread(Entries(s), t) == Entries(s)
  {
    EmptyRings(s, t, 0);
  }

  lemma CallsStep(s: Index, hasDestructor: set<Kid>, ring: seq<Rid>)
    requires forall r :: r in ring ==> r in s.recs
    ensures ring == [] ==> CallsFor(s, hasDestructor, ring) == []
    ensures ring != [] ==>
              var x := s.recs[ring[0]];
              var rest := CallsFor(s, hasDestructor, ring[1..]);
              CallsFor(s, hasDestructor, ring) ==
              if x.key in hasDestructor && x.value != NULL then [Call(x.key, x.value)] + rest else rest
  {
    if ring != [] {
      var rest := CallsFor(s, hasDestructor, ring[1..]);
      assert [] + rest == rest;
    }
  }

  lemma OthersOf(s: Index, r: Rid)
    requires Valid(s) && r in s.recs
    ensures Others(Entries(s), s.recs[r].thread, s.recs[r].key) == Entries(s) - {s.recs[r]}
  {
    assert s.recs[r] in Entries(s);
  }

  /** A key with an empty ring can be freed. */
  lemma RemoveKey(s: Index, k: Kid)
    requires Valid(s) && k in s.keys && s.keys[k] == []
    ensures var n := s.(keys := s.keys - {k});
            Valid(n) && Entries(n) == Entries(s)
  {
    var n := s.(keys := s.keys - {k});
    forall r | r in n.recs ensures Linked(n, r) {
      assert Linked(s, r);
    }
    forall t | t in n.threads ensures ThreadRing(n, t) {
      assert ThreadRing(s, t);
    }
    forall j | j in n.keys ensures KeyRing(n, j) {
      assert KeyRing(s, j);
    }
  }
}
