/** All the lists of the thread manager, linked through the threads: the ready list and one list for
    each condition. They share the threads' list_next members, so a thread is on at most one. */
module ThreadLinks {
  import opened Scheduler
  import opened ThreadLists
  import opened SchedulerInvariant

  /** The lists as sequences of thread numbers. */
  datatype Queues = Queues(ready: seq<Tid>, waiting: map<Cond, seq<Tid>>)

  function WaitersOf(q: Queues, c: Cond): seq<Tid> { if c in q.waiting then q.waiting[c] else [] }

  predicate OnList(q: Queues, t: Tid, c: Cond) { c in q.waiting && t in q.waiting[c] }

  /** No thread is on two lists, or twice on one. */
  ghost predicate Apart(q: Queues) {
    && NoDup(q.ready) && (forall c :: c in q.waiting ==> NoDup(q.waiting[c]))
    && (forall c, t :: OnList(q, t, c) ==> t !in q.ready)
    && (forall c, d, t :: OnList(q, t, c) && OnList(q, t, d) ==> c == d)
  }

  ghost predicate Loose(q: Queues, t: Tid) { t !in q.ready && forall c :: !OnList(q, t, c) }

  type Nodes = map<Tid, ThreadLists.Thread>

  /** The items are the threads with these numbers, in this order. */
  ghost predicate Match(nodes: Nodes, items: seq<ThreadLists.Thread>, ids: seq<Tid>) {
    && |items| == |ids| && (forall i :: 0 <= i < |ids| ==> ids[i] in nodes && items[i] == nodes[ids[i]])
    && (forall n :: n in items ==> n in nodes.Values) && (forall t :: t in ids ==> t in nodes)
  }

  ghost predicate NodesOk(nodes: Nodes) { forall t :: t in nodes ==> nodes[t].id == t }

  lemma NodeIsListed(nodes: Nodes, items: seq<ThreadLists.Thread>, ids: seq<Tid>, t: Tid)
    requires NodesOk(nodes) && Match(nodes, items, ids) && t in nodes
    ensures nodes[t] in items <==> t in ids
  {
    if nodes[t] in items {
      var i :| 0 <= i < |items| && items[i] == nodes[t];
      assert ids[i] == t;
    }
    if t in ids {
      var i :| 0 <= i < |ids| && ids[i] == t;
      assert items[i] == nodes[t];
    }
  }

  lemma ListedIsNode(nodes: Nodes, items: seq<ThreadLists.Thread>, ids: seq<Tid>, n: ThreadLists.Thread)
    requires NodesOk(nodes) && Match(nodes, items, ids) && n in items
    ensures n.id in nodes && nodes[n.id] == n && n.id in ids
  {
    var i :| 0 <= i < |items| && items[i] == n;
    assert ids[i] in ids;
  }

  lemma MatchAppend(nodes: Nodes, a: seq<ThreadLists.Thread>, x: seq<Tid>, b: seq<ThreadLists.Thread>, y: seq<Tid>)
    requires Match(nodes, a, x) && Match(nodes, b, y)
    ensures Match(nodes, a + b, x + y)
  {
  }

  lemma MatchOne(nodes: Nodes, t: Tid)
    requires t in nodes
    ensures Match(nodes, [nodes[t]], [t])
  {
  }

  lemma NoneMatch(nodes: Nodes)
    ensures Match(nodes, [], [])
  {
  }

  lemma MatchTail(nodes: Nodes, a: seq<ThreadLists.Thread>, x: seq<Tid>)
    requires Match(nodes, a, x) && x != []
    ensures a != [] && Match(nodes, a[1..], x[1..]) && x[0] in nodes && a[0] == nodes[x[0]]
  {
  }

  /** The threads that are listed are the same ones. */
  lemma MatchStill(nodes: Nodes, nodes': Nodes, a: seq<ThreadLists.Thread>, x: seq<Tid>)
    requires Match(nodes, a, x) && forall t :: t in x ==> t in nodes && t in nodes' && nodes'[t] == nodes[t]
    ensures Match(nodes', a, x)
  {
    assert forall i :: 0 <= i < |x| ==> x[i] in x;
    forall n | n in a ensures n in nodes'.Values {
      var i :| 0 <= i < |a| && a[i] == n;
      assert nodes'[x[i]] == n;
    }
  }

  class Links {
    var nodes: Nodes
    const readyList: ThreadList
    var waitLists: map<Cond, ThreadList>
    ghost var queues: Queues
    ghost var repr: set<object>

    ghost predicate Separate()
      reads `waitLists
    {
      && readyList !in waitLists.Values
      && forall c, d :: c in waitLists && d in waitLists && c != d ==> waitLists[c] != waitLists[d]
    }

    ghost predicate Valid()
      reads this, repr
    {
      && this in repr && readyList in repr && waitLists.Values <= repr && nodes.Values <= repr
      && NodesOk(nodes) && Separate() && Apart(queues) && waitLists.Keys == queues.waiting.Keys
      && Match(nodes, readyList.items, queues.ready) && readyList.Valid()
      && (forall c :: c in waitLists ==> Match(nodes, waitLists[c].items, queues.waiting[c]))
      && forall c :: c in waitLists ==> waitLists[c].Valid()
    }

    constructor ()
      ensures Valid() && queues == Queues([], map[]) && nodes == map[] && fresh(repr)
    {
      readyList := new ThreadList();
      nodes, waitLists, queues := map[], map[], Queues([], map[]);
      repr := {this, readyList};
    }

    /** Only existing threads are listed. */
    lemma IdsKnown()
      requires Valid()
      ensures forall t :: t in queues.ready ==> t in nodes
      ensures forall c, t :: c in waitLists && t in queues.waiting[c] ==> t in nodes
    {
      forall c, t | c in waitLists && t in queues.waiting[c] ensures t in nodes {
        assert Match(nodes, waitLists[c].items, queues.waiting[c]);
      }
    }

    // --- a thread is on at most one list ---

    lemma LooseNode(t: Tid)
      requires Valid() && t in nodes && Loose(queues, t)
      ensures nodes[t] !in readyList.items && forall c :: c in waitLists ==> nodes[t] !in waitLists[c].items
    {
      hide Apart, NoDup, Match;
      NodeIsListed(nodes, readyList.items, queues.ready, t);
      forall c | c in waitLists ensures nodes[t] !in waitLists[c].items {
        NodeIsListed(nodes, waitLists[c].items, queues.waiting[c], t);
        assert !OnList(queues, t, c);
      }
    }

    lemma ReadyApart()
      requires Valid()
      ensures forall c, n :: c in waitLists && n in waitLists[c].items ==> n !in readyList.items
    {
      hide Match;
      forall c, n | c in waitLists && n in waitLists[c].items ensures n !in readyList.items {
        ListedIsNode(nodes, waitLists[c].items, queues.waiting[c], n);
        assert OnList(queues, n.id, c);
        NodeIsListed(nodes, readyList.items, queues.ready, n.id);
      }
    }

    lemma WaitersApart(d: Cond)
      requires Valid() && d in waitLists
      ensures forall c, n :: c in waitLists && c != d && n in waitLists[c].items ==> n !in waitLists[d].items
    {
      hide Match;
      forall c, n | c in waitLists && c != d && n in waitLists[c].items ensures n !in waitLists[d].items {
        ListedIsNode(nodes, waitLists[c].items, queues.waiting[c], n);
        assert OnList(queues, n.id, c);
        NodeIsListed(nodes, waitLists[d].items, queues.waiting[d], n.id);
        assert OnList(queues, n.id, d) ==> c == d;
      }
    }

    lemma ListsAreThere()
      requires Valid()
      ensures waitLists.Keys == queues.waiting.Keys
    {
    }

    /** The list of c links the threads with these numbers. */
    lemma ListIsThere(c: Cond)
      requires Valid() && c in waitLists
      ensures waitLists[c].Valid() && c in queues.waiting && |waitLists[c].items| == |queues.waiting[c]|
      ensures forall i :: 0 <= i < |queues.waiting[c]| ==> waitLists[c].items[i].id == queues.waiting[c][i]
      ensures waitLists[c].head == if queues.waiting[c] == [] then null else waitLists[c].items[0]
      ensures Linked(waitLists[c].items)
    {
    }

    // --- threads come and go ---

    method AddNode(t: Tid)
      requires Valid() && t !in nodes
      modifies repr
      ensures Valid() && queues == old(queues) && nodes.Keys == old(nodes).Keys + {t} && fresh(repr - old(repr))
    {
      hide Apart, ThreadList.Valid, Match;
      IdsKnown();
      ghost var before := nodes;
      var node := new ThreadLists.Thread(t);
      nodes := nodes[t := node];
      repr := repr + {node};
      MatchStill(before, nodes, readyList.items, queues.ready);
      forall c | c in waitLists ensures Match(nodes, waitLists[c].items, queues.waiting[c]) {
        MatchStill(before, nodes, waitLists[c].items, queues.waiting[c]);
      }
    }

    method DropNode(t: Tid)
      requires Valid() && t in nodes && Loose(queues, t)
      modifies repr
      ensures Valid() && queues == old(queues) && nodes.Keys == old(nodes).Keys - {t} && fresh(repr - old(repr))
    {
      hide Apart, ThreadList.Valid, Match;
      IdsKnown();
      ghost var before := nodes;
      nodes := map u | u in nodes && u != t :: nodes[u];
      MatchStill(before, nodes, readyList.items, queues.ready);
      forall c | c in waitLists ensures Match(nodes, waitLists[c].items, queues.waiting[c]) {
        assert !OnList(queues, t, c);
        MatchStill(before, nodes, waitLists[c].items, queues.waiting[c]);
      }
    }

    // --- the ready list ---

    /** tlinsert leaves lists without common threads alone. */
    static method InsertApart(list: ThreadList, thr: ThreadLists.Thread, ghost others: set<ThreadList>)
      requires list.Valid() && thr !in list.items && list !in others
      requires forall o :: o in others ==> o.Valid()
      requires forall o, n :: o in others && n in o.items ==> n !in list.items && n != thr
      modifies list, thr`listNext, list.items`listNext
      ensures list.Valid() && list.items == old(list.items) + [thr]
      ensures forall o :: o in others ==> o.Valid() && o.items == old(o.items)
    {
      hide ThreadList.Valid;
      ghost var relinked := list.items + [thr];
      assert forall o, n :: o in others && n in o.items ==> n !in relinked;
      label before:
      list.Insert(thr);
      forall o | o in others ensures o.Valid() && o.items == old(o.items) {
        assert o != list && o.items == old@before(o.items);
        assert forall n :: n in o.items ==> n !in relinked;
        assert forall n :: n in o.items ==> n.listNext == old@before(n.listNext);
      }
    }

    lemma ReadyOthers()
      requires Valid()
      ensures readyList !in waitLists.Values
      ensures forall o :: o in waitLists.Values ==> o.Valid()
      ensures forall o, n :: o in waitLists.Values && n in o.items ==> n !in readyList.items
    {
      hide Apart, ThreadList.Valid, Match, NodesOk;
      ReadyApart();
    }

    method PushReady(t: Tid)
      requires Valid() && t in nodes && Loose(queues, t)
      modifies repr
      ensures Valid() && queues == Queues(old(queues.ready) + [t], old(queues.waiting))
      ensures nodes == old(nodes) && repr == old(repr)
    {
      hide Apart, ThreadList.Valid, Match, NodesOk;
      LooseNode(t);
      ReadyOthers();
      ghost var q := queues;
      MatchOne(nodes, t);
      MatchAppend(nodes, readyList.items, q.ready, [nodes[t]], [t]);
      InsertApart(readyList, nodes[t], waitLists.Values);
      queues := Queues(q.ready + [t], q.waiting);
      StillApartReady(q, t);
    }

    method PopReady() returns (t: Tid)
      requires Valid() && queues.ready != []
      modifies repr
      ensures Valid() && nodes == old(nodes) && repr == old(repr) && t == old(queues.ready[0])
      ensures queues == Queues(old(queues.ready[1..]), old(queues.waiting))
    {
      hide Apart, ThreadList.Valid, Match;
      ReadyOthers();
      ghost var q := queues;
      MatchTail(nodes, readyList.items, q.ready);
      var thr := RemoveApart(readyList, waitLists.Values);
      t := thr.id;
      queues := Queues(q.ready[1..], q.waiting);
      StillApartTail(q);
    }

    /** So does tlremove. */
    static method RemoveApart(list: ThreadList, ghost others: set<ThreadList>) returns (thr: ThreadLists.Thread)
      requires list.Valid() && list.items != [] && list !in others
      requires forall o :: o in others ==> o.Valid()
      requires forall o, n :: o in others && n in o.items ==> n !in list.items
      modifies list, list.items`listNext
      ensures list.Valid() && thr == old(list.items)[0] && list.items == old(list.items)[1..]
      ensures forall o :: o in others ==> o.Valid() && o.items == old(o.items)
    {
      hide ThreadList.Valid;
      ghost var relinked := list.items;
      assert forall o, n :: o in others && n in o.items ==> n !in relinked;
      label before:
      thr := list.Remove();
      forall o | o in others ensures o.Valid() && o.items == old(o.items) {
        assert o != list && o.items == old@before(o.items);
        assert forall n :: n in o.items ==> n !in relinked;
        assert forall n :: n in o.items ==> n.listNext == old@before(n.listNext);
      }
    }

    /** And tlappend. */
    static method AppendApart(list: ThreadList, other: ThreadList, ghost others: set<ThreadList>)
      requires list.Valid() && other.Valid() && list != other && list !in others && other !in others
      requires forall n :: n in list.items ==> n !in other.items
      requires forall o :: o in others ==> o.Valid()
      requires forall o, n :: o in others && n in o.items ==> n !in list.items
      modifies list, other, list.items`listNext
      ensures list.Valid() && list.items == old(list.items) + old(other.items)
      ensures other.Valid() && other.items == []
      ensures forall o :: o in others ==> o.Valid() && o.items == old(o.items)
    {
      hide ThreadList.Valid;
      ghost var relinked := list.items;
      assert forall o, n :: o in others && n in o.items ==> n !in relinked;
      label before:
      list.Append(other);
      forall o | o in others ensures o.Valid() && o.items == old(o.items) {
        assert o != list && o != other && o.items == old@before(o.items);
        assert forall n :: n in o.items ==> n !in relinked;
        assert forall n :: n in o.items ==> n.listNext == old@before(n.listNext);
      }
    }

    // --- the lists of conditions ---

    /** The list of c, empty when it is used for the first time. */
    method EnsureList(c: Cond)
      requires Valid()
      modifies repr
      ensures Valid() && nodes == old(nodes) && c in waitLists && fresh(repr - old(repr))
      ensures queues == Queues(old(queues.ready), old(queues.waiting)[c := WaitersOf(old(queues), c)])
    {
      hide Apart, ThreadList.Valid, Match, NodesOk;
      if c in waitLists {
        assert queues.waiting[c := WaitersOf(queues, c)] == queues.waiting;
      } else {
        ghost var q := queues;
        var list := new ThreadList();
        waitLists := waitLists[c := list];
        repr := repr + {list};
        queues := Queues(q.ready, q.waiting[c := []]);
        NoneMatch(nodes);
        StillApartEmpty(q, c);
      }
    }

    ghost function OtherLists(c: Cond): set<ThreadList>
      reads `waitLists
    {
      {readyList} + set d | d in waitLists && d != c :: waitLists[d]
    }

    lemma OthersApart(c: Cond, t: Tid)
      requires Valid() && t in nodes && Loose(queues, t) && c in waitLists
      ensures nodes[t] !in waitLists[c].items && waitLists[c] !in OtherLists(c)
      ensures forall o :: o in OtherLists(c) ==> o.Valid()
      ensures forall o, n :: o in OtherLists(c) && n in o.items ==> n !in waitLists[c].items && n != nodes[t]
    {
      hide Apart, ThreadList.Valid, Match, NodesOk;
      LooseNode(t);
      ReadyApart();
      WaitersApart(c);
    }

    method PushWaiter(c: Cond, t: Tid)
      requires Valid() && t in nodes && Loose(queues, t) && c in waitLists
      modifies repr
      ensures Valid() && nodes == old(nodes) && repr == old(repr)
      ensures queues == Queues(old(queues.ready), old(queues.waiting)[c := old(queues.waiting[c]) + [t]])
    {
      hide Apart, ThreadList.Valid, Match, NodesOk;
      ghost var q, list := queues, waitLists[c];
      ghost var others := OtherLists(c);
      OthersApart(c, t);
      MatchOne(nodes, t);
      MatchAppend(nodes, list.items, q.waiting[c], [nodes[t]], [t]);
      InsertApart(waitLists[c], nodes[t], others);
      queues := Queues(q.ready, q.waiting[c := q.waiting[c] + [t]]);
      forall d | d in waitLists && d != c
        ensures Match(nodes, waitLists[d].items, queues.waiting[d]) && waitLists[d].Valid()
      {
        assert waitLists[d] in others;
      }
      StillApartWaiter(q, c, t);
    }

    /** tlappend of the list of c to the ready list, and tlclear. */
    method WakeAll(c: Cond)
      requires Valid() && c in waitLists
      modifies repr
      ensures Valid() && nodes == old(nodes) && repr == old(repr)
      ensures queues == Queues(old(queues.ready) + old(queues.waiting[c]), old(queues.waiting)[c := []])
    {
      hide Apart, ThreadList.Valid, Match, NodesOk;
      ReadyApart();
      WaitersApart(c);
      ghost var q := queues;
      var list := waitLists[c];
      ghost var others := OtherLists(c) - {readyList};
      MatchAppend(nodes, readyList.items, q.ready, list.items, q.waiting[c]);
      NoneMatch(nodes);
      AppendApart(readyList, list, others);
      queues := Queues(q.ready + q.waiting[c], q.waiting[c := []]);
      forall d | d in waitLists && d != c
        ensures Match(nodes, waitLists[d].items, queues.waiting[d]) && waitLists[d].Valid()
      {
        assert waitLists[d] in others;
      }
      StillApartWoken(q, c);
    }
  }

  // --- what each step keeps apart ---

  lemma StillApartReady(q: Queues, t: Tid)
    requires Apart(q) && Loose(q, t)
    ensures Apart(Queues(q.ready + [t], q.waiting))
  {
    NoDupOne(t);
    NoDupAppend(q.ready, [t]);
    hide NoDup;
    var q' := Queues(q.ready + [t], q.waiting);
    assert forall c, u :: OnList(q', u, c) <==> OnList(q, u, c);
  }

  lemma StillApartTail(q: Queues)
    requires Apart(q) && q.ready != []
    ensures Apart(Queues(q.ready[1..], q.waiting))
  {
    NoDupTail(q.ready);
    hide NoDup;
    var q' := Queues(q.ready[1..], q.waiting);
    assert forall c, u :: OnList(q', u, c) <==> OnList(q, u, c);
  }

  lemma StillApartEmpty(q: Queues, c: Cond)
    requires Apart(q)
    ensures Apart(Queues(q.ready, q.waiting[c := WaitersOf(q, c)]))
  {
    NoDupNone();
    hide NoDup;
    var q' := Queues(q.ready, q.waiting[c := WaitersOf(q, c)]);
    assert forall d, u :: OnList(q', u, d) <==> OnList(q, u, d);
  }

  lemma StillApartWaiter(q: Queues, c: Cond, t: Tid)
    requires Apart(q) && Loose(q, t) && c in q.waiting
    ensures Apart(Queues(q.ready, q.waiting[c := q.waiting[c] + [t]]))
  {
    NoDupOne(t);
    assert !OnList(q, t, c);
    NoDupAppend(q.waiting[c], [t]);
    hide NoDup;
    var q' := Queues(q.ready, q.waiting[c := q.waiting[c] + [t]]);
    assert forall d, u :: OnList(q', u, d) <==> OnList(q, u, d) || (d == c && u == t);
  }

  lemma StillApartWoken(q: Queues, c: Cond)
    requires Apart(q) && c in q.waiting
    ensures Apart(Queues(q.ready + q.waiting[c], q.waiting[c := []]))
  {
    assert forall u :: u in q.waiting[c] ==> OnList(q, u, c);
    NoDupNone();
    NoDupAppend(q.ready, q.waiting[c]);
    hide NoDup;
    var q' := Queues(q.ready + q.waiting[c], q.waiting[c := []]);
    assert forall d, u :: OnList(q', u, d) <==> OnList(q, u, d) && d != c;
  }
}
