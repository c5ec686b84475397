/** The linked queue whose contract the index scan and the join rely on: elements in
    memory, each with the address of the next one. */
module Fifo {

  type Ptr = nat
  const NULL: Ptr := 0

  datatype Elem = Elem(data: nat, next: Ptr)
  type Heap = map<Ptr, Elem>

  /** From `p` the `next` links lead through exactly these elements to NULL. */
  ghost predicate Links(h: Heap, p: Ptr, es: seq<Ptr>)
    decreases |es|
  {
    if es == [] then p == NULL
    else p == es[0] && p != NULL && p in h && Links(h, h[p].next, es[1..])
  }

  ghost predicate Distinct(es: seq<Ptr>) {
    forall i, j :: 0 <= i < j < |es| ==> es[i] != es[j]
  }

  ghost function Data(h: Heap, es: seq<Ptr>): (s: seq<nat>)
    requires forall e <- es :: e in h
  {
    seq(|es|, i requires 0 <= i < |es| => h[es[i]].data)
  }

  lemma {:induction false} LinksIn(h: Heap, p: Ptr, es: seq<Ptr>)
    requires Links(h, p, es)
    ensures forall e <- es :: e in h && e != NULL
    decreases |es|
  {
    if es != [] { LinksIn(h, h[p].next, es[1..]); }
  }

  /** A new last element. */
  lemma {:induction false} LinksAppend(h: Heap, h': Heap, p: Ptr, es: seq<Ptr>, e: Ptr)
    requires Links(h, p, es) && Distinct(es) && e !in es && e != NULL && es != []
    requires e in h' && h'[e].next == NULL
    requires forall i :: 0 <= i < |es| ==> es[i] in h && es[i] in h'
    requires forall i :: 0 <= i < |es| ==> h'[es[i]] == if i == |es| - 1 then h[es[i]].(next := e) else h[es[i]]
    ensures Links(h', p, es + [e])
    decreases |es|
  {
    assert (es + [e])[1..] == es[1..] + [e];
    if |es| == 1 {
      assert (es + [e])[1..][1..] == [];
    } else {
      LinksAppend(h, h', h[p].next, es[1..], e);
    }
  }

  class Queue {
    var head: Ptr
    var tail: Ptr
    var heap: Heap
    ghost var elems: seq<Ptr>

    /** `tail` means something only while there is an element. */
    ghost predicate Valid()
      reads this
    {
      && Links(heap, head, elems) && Distinct(elems)
      && (forall e <- elems :: e in heap)
      && (elems != [] ==> tail == elems[|elems| - 1])
    }

    ghost function Contents(): seq<nat>
      requires Valid()
      reads this
    {
      Data(heap, elems)
    }

    /** `fifo_new` */
    constructor ()
      ensures Valid() && Contents() == []
    {
      head, tail, heap, elems := NULL, NULL, map[], [];
    }

    /** `fifo_put` of a new element at address `p`. */
    method Put(p: Ptr, data: nat)
      requires Valid() && p != NULL && p !in heap
      modifies this
      ensures Valid() && Contents() == old(Contents()) + [data] && p in heap
    {
      ghost var before, es := heap, elems;
      LinksIn(heap, head, elems);
      heap := heap[p := Elem(data, NULL)];
      elems := elems + [p];
      if head == NULL {
        head, tail := p, p;
        assert elems == [p] && elems[1..] == [];
      } else {
        heap := heap[tail := heap[tail].(next := p)];
        LinksAppend(before, heap, head, es, p);
        tail := p;
      }
    }

    /** `fifo_empty` */
    method Empty() returns (b: bool)
      requires Valid()
      ensures b <==> Contents() == []
    {
      return head == NULL;
    }

    /** `fifo_get` */
    method Get() returns (data: nat)
      requires Valid() && Contents() != []
      modifies this
      ensures Valid() && [data] + Contents() == old(Contents())
    {
      var h := head;
      head := heap[h].next;
      elems := elems[1..];
      return heap[h].data;
    }
  }
}
