/** The thread lists of thread.c: threads linked through their list_next member. The ready list and
    the waiters of a condition are such lists, and each represents a sequence of threads. */
module ThreadLists {
  class Thread {
    const id: nat
    var listNext: Thread?

    constructor (id: nat)
      ensures this.id == id && listNext == null
    {
      this.id := id;
      listNext := null;
    }
  }

  predicate Distinct(q: seq<Thread>) { forall i, j :: 0 <= i < j < |q| ==> q[i] != q[j] }

  /** The threads of q are linked in this order, and the last one ends the list. */
  ghost predicate Linked(q: seq<Thread>)
    reads q`listNext
  {
    forall i {:trigger q[i].listNext} :: 0 <= i < |q| ==> q[i].listNext == if i + 1 < |q| then q[i + 1] else null
  }

  lemma DistinctAppend(p: seq<Thread>, q: seq<Thread>)
    requires Distinct(p) && Distinct(q) && forall t :: t in p ==> t !in q
    ensures Distinct(p + q)
  {
    forall i, j | 0 <= i < j < |p + q| ensures (p + q)[i] != (p + q)[j] {
      if i < |p| <= j { assert p[i] in p && q[j - |p|] in q; }
    }
  }

  lemma LinkedAppend(p: seq<Thread>, q: seq<Thread>)
    requires Linked(q)
    requires forall i {:trigger p[i].listNext} :: 0 <= i < |p| ==>
               p[i].listNext == if i + 1 < |p| then p[i + 1] else if q == [] then null else q[0]
    ensures Linked(p + q)
  {
    forall i | 0 <= i < |p + q| ensures (p + q)[i].listNext == if i + 1 < |p + q| then (p + q)[i + 1] else null {
      if i < |p| { assert (p + q)[i] == p[i]; } else { assert (p + q)[i] == q[i - |p|]; }
    }
  }

  class ThreadList {
    var head: Thread?
    var tail: Thread?
    ghost var items: seq<Thread>

    ghost predicate Valid()
      reads this, items`listNext
    {
      && Distinct(items) && Linked(items)
      && head == (if items == [] then null else items[0])
      && tail == (if items == [] then null else items[|items| - 1])
    }

    constructor ()
      ensures Valid() && items == []
    {
      head, tail, items := null, null, [];
    }

    method Clear()
      modifies this
      ensures Valid() && items == []
    {
      head := null;
      tail := null;
      items := [];
    }

    method IsEmpty() returns (b: bool)
      requires Valid()
      ensures b <==> items == []
    {
      b := head == null;
    }

    /** thr goes to the end; only it and the former last thread change. */
    method Insert(thr: Thread)
      requires Valid() && thr !in items
      modifies this, thr`listNext, items`listNext
      ensures Valid() && items == old(items) + [thr]
      ensures forall t :: t in old(items) && t != old(tail) ==> t.listNext == old(t.listNext)
    {
      thr.listNext := null;
      if tail != null {
        assert head != null;
        tail.listNext := thr;
      } else {
        assert head == null;
        head := thr;
      }
      tail := thr;
      items := items + [thr];
    }

    /** The first thread leaves the list, and is linked to no other. */
    method Remove() returns (thr: Thread?)
      requires Valid()
      modifies this, items`listNext
      ensures Valid()
      ensures if old(items) == [] then thr == null && items == []
              else thr == old(items)[0] && items == old(items)[1..] && thr.listNext == null
      ensures forall t :: t in items ==> t.listNext == old(t.listNext)
    {
      thr := head;
      if thr == null { return; }
      head := thr.listNext;
      if head == null { tail := null; }
      thr.listNext := null;
      items := items[1..];
    }

    /** The threads of other move to the end of this list, in their order. */
    method Append(other: ThreadList)
      requires Valid() && other.Valid() && other != this
      requires forall t :: t in items ==> t !in other.items
      modifies this, other, items`listNext
      ensures Valid() && items == old(items) + old(other.items)
      ensures other.Valid() && other.items == []
      ensures forall t :: t in old(items) && t != old(tail) ==> t.listNext == old(t.listNext)
    {
      hide Distinct;
      NoneDistinct();
      if head != null {
        assert tail != null;
        if other.head != null {
          assert other.tail != null;
          LinkBehind(other);
        }
      } else {
        assert tail == null;
        head := other.head;
        tail := other.tail;
        items := other.items;
      }
      other.head := null;
      other.tail := null;
      other.items := [];
    }

    /** The last thread is linked to the first one of other. */
    method LinkBehind(other: ThreadList)
      requires Valid() && other.Valid() && other != this && tail != null && other.head != null
      requires forall t :: t in items ==> t !in other.items
      modifies `tail, `items, tail`listNext
      ensures Valid() && items == old(items) + other.items
    {
      hide Distinct;
      ghost var front, back := items, other.items;
      DistinctAppend(front, back);
      LastApart(front);
      assert tail in front && forall i :: 0 <= i < |back| ==> back[i] in back;
      tail.listNext := other.head;
      tail := other.tail;
      items := front + back;
      LinkedAppend(front, back);
    }
  }

  lemma LastApart(q: seq<Thread>)
    requires Distinct(q)
    ensures forall i :: 0 <= i < |q| - 1 ==> q[i] != q[|q| - 1]
  {
  }

  lemma NoneDistinct()
    ensures Distinct([])
  {
  }
}
