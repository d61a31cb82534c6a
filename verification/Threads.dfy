/** The thread manager of thread.c as code that updates the thread table and its lists in place. Each
    method is a step of the machine in Scheduler, keeps its invariant, and passes the assertions of
    the code, which are written here as assertions. */
module Threads {
  import opened Common
  import opened Scheduler
  import opened SchedulerInvariant
  import Runs = SchedulerRuns
  import opened SchedulerEffects
  import opened ThreadLinks

  class ThreadManager {
    var thrtab: map<Tid, Thread>
    var cur: Tid                        // the thread pointer register
    const links: Links                  // the ready list and the lists of all conditions

    ghost function Abs(): Sched
      reads this, links
    {
      Sched(thrtab, cur, links.queues.ready, links.queues.waiting)
    }

    /** The lists link exactly the threads of the table. */
    ghost predicate LinksOk()
      reads this, links, links.repr
    {
      this !in links.repr && links.Valid() && links.nodes.Keys == thrtab.Keys
    }

    ghost predicate Valid()
      reads this, links, links.repr
    {
      Inv(Abs()) && LinksOk()
    }

    /** thread_init. */
    constructor ()
      ensures Abs() == INIT && Valid() && fresh(links.repr)
    {
      cur := MAIN_TID;
      thrtab := map[MAIN_TID := Thread(Running, None, None, Outside),
                    IDLE_TID := Thread(Ready, Some(MAIN_TID), None, Outside)];
      links := new Links();
      new;
      FirstThreads();
      InitInv();
    }

    /** The main thread runs and is on no list; init_idle_thread puts the idle thread on the ready list. */
    method FirstThreads()
      requires links.Valid() && links.queues == Queues([], map[]) && links.nodes == map[] && this !in links.repr
      modifies links.repr
      ensures links.Valid() && fresh(links.repr - old(links.repr)) && links.nodes.Keys == {MAIN_TID, IDLE_TID}
      ensures links.queues == Queues([IDLE_TID], map[])
    {
      hide Links.Valid;
      links.AddNode(MAIN_TID);
      links.AddNode(IDLE_TID);
      links.PushReady(IDLE_TID);
    }

    method SetThreadState(t: Tid, st: RunState)
      requires t in thrtab
      modifies this`thrtab
      ensures thrtab == old(thrtab)[t := SetState(old(thrtab)[t], st)]
    {
      thrtab := thrtab[t := Thread(st, thrtab[t].parent, thrtab[t].waitCond, thrtab[t].activity)];
    }

    method SuspendSelf()
      requires MidInv(Abs()) && LinksOk() && links.queues.ready != []
      modifies this, links.repr
      ensures Scheduler.SuspendSelf(old(Abs())) == Next(Abs()) && Valid() && fresh(links.repr - old(links.repr))
    {
      hide Inv, MidInv, Links.Valid;
      ghost var s := Abs();
      SuspendKeeps(s);
      SuspendNext(s);
      if thrtab[cur].state == Running { CurrentIsLoose(s); }
      var suspended := cur;
      LooseTail(links.queues, cur);
      var next := links.PopReady();
      assert thrtab[next].state == Ready;
      SetThreadState(next, Running);
      if thrtab[suspended].state == Running {
        SetThreadState(suspended, Ready);
        links.PushReady(suspended);
      }
      cur := next;
    }

    /** The slot of the new thread, given memory for it; None is the panic when there is no free slot. */
    method ThreadSpawn() returns (r: Option<Tid>)
      requires Valid()
      modifies this, links.repr
      ensures Valid() && fresh(links.repr - old(links.repr))
      ensures match r
              case Some(tid) =>
                && 1 <= tid < NTHR && tid !in old(thrtab) && (forall t :: 1 <= t < tid ==> t in old(thrtab))
                && Spawn(old(Abs())) == Next(Abs()) && HasSpawned(old(Abs()), tid, Abs())
              case None => Spawn(old(Abs())) == Panic(TooManyThreads) && Abs() == old(Abs())
    {
      hide Inv, MidInv, ListsOk, Links.Valid, FreeSlot;
      ghost var s := Abs();
      Runs.SpawnKeeps(s);
      NewIsLoose(s);
      var tid := FindSlot();
      if tid == NTHR { return None; }
      thrtab := thrtab[tid := Thread(Ready, Some(cur), None, Outside)];
      links.AddNode(tid);
      links.PushReady(tid);
      ghost var child := SpawnEffect(s);
      return Some(tid);
    }

    /** The first slot from 1 on that is not in use. */
    method FindSlot() returns (tid: Tid)
      ensures tid == FreeSlot(Abs(), 1)
    {
      tid := 1;
      while tid < NTHR && tid in thrtab
        invariant 1 <= tid <= NTHR && FreeSlot(Abs(), tid) == FreeSlot(Abs(), 1)
      {
        tid := tid + 1;
      }
    }

    method ThreadYield()
      requires Valid() && Enabled(Abs(), YieldEvent)
      modifies this, links.repr
      ensures Valid() && fresh(links.repr - old(links.repr)) && Scheduler.SuspendSelf(old(Abs())) == Next(Abs())
      ensures HasYielded(old(Abs()), Abs())
    {
      hide HasYielded;
      ghost var s := Abs();
      assert thrtab[cur].state == Running;
      if cur != IDLE_TID { ReadyNotEmpty(Abs()); }
      SuspendSelf();
      YieldEffect(s, Abs());
    }

    method ConditionWait(c: Cond, a: Activity)
      requires Valid() && cur != IDLE_TID && MayWait(Abs(), c, a)
      modifies this, links.repr
      ensures Valid() && fresh(links.repr - old(links.repr)) && Wait(old(Abs()), c, a) == Next(Abs())
      ensures HasBlocked(old(Abs()), c, a, Abs())
    {
      hide Inv, MidInv, MayWait, LinksOk, Wait, HasBlocked;
      ghost var s := Abs();
      CurrentRuns(Abs());
      assert thrtab[cur].state == Running;
      WaitSuspends(Abs(), c, a);
      Enqueue(c, a);
      SuspendSelf();
      WaitEffect(s, c, a, Abs());
    }

    /** The current thread is marked WAITING and goes to the end of the list of c. */
    method Enqueue(c: Cond, a: Activity)
      requires Valid() && cur in thrtab
      modifies this, links.repr
      ensures LinksOk() && fresh(links.repr - old(links.repr)) && Abs() == Queued(old(Abs()), c, a)
    {
      hide MidInv, Links.Valid, Loose;
      CurrentIsLoose(Abs());
      EmptyListIsNone(links.queues, c, cur);
      thrtab := thrtab[cur := Thread(Waiting, thrtab[cur].parent, Some(c), a)];
      links.EnsureList(c);
      links.PushWaiter(c, cur);
    }

    /** The waiters of c become ready one after the other, and the ready list takes over their list. */
    method ConditionBroadcast(c: Cond)
      requires ListsOk(Abs()) && LinksOk()
      modifies this, links.repr
      ensures Broadcast(old(Abs()), c) == Next(Abs()) && LinksOk() && fresh(links.repr - old(links.repr))
      ensures HasWoken(old(Abs()), c, Abs())
    {
      hide ListsOk, Links.Valid, HasWoken;
      BroadcastRuns(Abs(), c);
      BroadcastEffect(Abs(), c, Broadcast(Abs(), c).s);
      links.ListsAreThere();
      if c !in links.waitLists { return; }
      links.ListIsThere(c);
      var empty := links.waitLists[c].IsEmpty();
      if empty { return; }
      MarkReady(c);
      links.WakeAll(c);
    }

    /** The loop along the list of waiters. */
    method MarkReady(c: Cond)
      requires ListsOk(Abs()) && LinksOk() && c in links.waitLists
      modifies `thrtab
      ensures thrtab == map t | t in old(thrtab) ::
                if t in Waiters(old(Abs()), c) then Woken(old(thrtab)[t]) else old(thrtab)[t]
    {
      hide ListsOk, Links.Valid, Marked;
      ghost var s, ws := Abs(), Waiters(Abs(), c);
      MarkedNone(s.thrtab);
      links.ListIsThere(c);
      ghost var items := links.waitLists[c].items;
      var thr := links.waitLists[c].head;
      ghost var i := 0;
      while thr != null
        invariant 0 <= i <= |ws| && thr == (if i < |ws| then items[i] else null) && Marked(s.thrtab, ws[..i], thrtab)
        decreases |ws| - i
      {
        var t := thr.id;
        assert t == ws[i];
        MarkNext(s, c, i, thrtab);
        assert thrtab[t].state == Waiting && thrtab[t].waitCond == Some(c);
        thrtab := thrtab[t := Thread(Ready, thrtab[t].parent, None, thrtab[t].activity)];
        thr := thr.listNext;
        i := i + 1;
      }
      assert ws[..i] == ws;
      MarkedAll(s.thrtab, ws, thrtab);
    }

    /** A broadcast by an interrupt service routine, or by the current thread. */
    method BroadcastExternal(id: nat)
      requires Valid()
      modifies this, links.repr
      ensures Valid() && fresh(links.repr - old(links.repr)) && Broadcast(old(Abs()), External(id)) == Next(Abs())
    {
      ExternalBroadcastKeeps(Abs(), id);
      ConditionBroadcast(External(id));
    }

    /** False when the main thread exits, which halts the machine. */
    method ThreadExit() returns (goesOn: bool)
      requires Valid() && cur != IDLE_TID && thrtab[cur].activity.Outside?
      modifies this, links.repr
      ensures (goesOn <==> old(cur) != MAIN_TID) && fresh(links.repr - old(links.repr))
      ensures if goesOn then Valid() && Exit(old(Abs())) == Next(Abs()) && HasExited(old(Abs()), Abs())
              else Exit(old(Abs())) == Halt
    {
      hide Inv, MidInv, ListsOk, Broadcast, Links.Valid, Scheduler.SuspendSelf, HasExited, HasWoken;
      ghost var s := Abs();
      if cur == MAIN_TID { return false; }
      ExitFacts(s);
      assert thrtab[cur].parent.Some?;
      var parent := thrtab[cur].parent.value;
      SetThreadState(cur, Exited);
      ConditionBroadcast(ChildExit(parent));
      AfterExit(s, parent, Abs());
      SuspendSelf();
      ExitEffect(s, Abs());
      return true;
    }

    /** The threads whose parent is tid get the parent heir. */
    method GiveChildren(tid: Tid, heir: Option<Tid>)
      modifies this`thrtab
      ensures thrtab.Keys == old(thrtab).Keys
      ensures forall t :: t in thrtab ==> thrtab[t] == Reparented(old(thrtab)[t], tid, heir, 1 <= t < NTHR)
    {
      ghost var tab := thrtab;
      var ctid := 1;
      while ctid < NTHR
        invariant 1 <= ctid <= NTHR && thrtab.Keys == tab.Keys
        invariant forall t :: t in tab ==> thrtab[t] == Reparented(tab[t], tid, heir, 1 <= t < ctid)
      {
        if ctid in thrtab && thrtab[ctid].parent == Some(tid) {
          thrtab := thrtab[ctid := Thread(thrtab[ctid].state, heir, thrtab[ctid].waitCond, thrtab[ctid].activity)];
        }
        ctid := ctid + 1;
      }
    }

    method RecycleThread(tid: Tid)
      requires Valid() && IsChild(Abs(), tid, cur) && Ended(Abs(), tid)
      modifies this, links.repr
      ensures Valid() && fresh(links.repr - old(links.repr)) && Recycle(SetActivity(old(Abs()), Outside), tid) == Next(Abs())
      ensures HasFreed(old(Abs()), tid, Abs())
    {
      hide Inv, Recycle, Reparented, SetActivity, Links.Valid, Loose, HasFreed;
      ghost var s := Abs();
      ghost var s0 := SetActivity(Abs(), Outside);
      Runs.RecycleKeeps(Abs(), tid);
      ParentsKnown(Abs(), tid);
      EndedIsLoose(Abs(), tid);
      CurrentRuns(Abs());
      var heir := thrtab[tid].parent;
      thrtab := thrtab[cur := Thread(thrtab[cur].state, thrtab[cur].parent, thrtab[cur].waitCond, Outside)];
      assert Abs() == s0;
      GiveChildren(tid, heir);
      thrtab := map t | t in thrtab && t != tid :: thrtab[t];
      links.DropNode(tid);
      RecycleIs(s0, tid, Abs());
      FreedEffect(s, tid, Abs());
    }

    /** thread_join up to the point where it returns (true) or waits. */
    method JoinFrom(tid: Tid) returns (returned: bool)
      requires Valid() && cur != IDLE_TID && IsChild(Abs(), tid, cur)
      modifies this, links.repr
      ensures Valid() && fresh(links.repr - old(links.repr)) && JoinLoop(old(Abs()), tid) == Next(Abs())
      ensures returned <==> Ended(old(Abs()), tid)
      ensures if returned then HasFreed(old(Abs()), tid, Abs())
              else HasBlocked(old(Abs()), ChildExit(old(cur)), Joining(tid), Abs())
    {
      hide Inv, MidInv, LinksOk, Wait, Recycle, SetActivity, HasFreed, HasBlocked;
      Runs.JoinLoopKeeps(Abs(), tid);
      if thrtab[tid].state != Exited {
        ConditionWait(ChildExit(cur), Joining(tid));
        return false;
      }
      RecycleThread(tid);
      return true;
    }

    /** Some(-1) and Some(tid) are return values; None means that the thread waits. */
    method ThreadJoin(tid: int) returns (r: Option<int>)
      requires Valid() && cur != IDLE_TID
      modifies this, links.repr
      ensures Valid() && fresh(links.repr - old(links.repr)) && (0 <= tid ==> Join(old(Abs()), tid) == Next(Abs()))
      ensures r == Some(-1) <==> tid <= 0 || NTHR <= tid || !IsChild(old(Abs()), tid, old(cur))
      ensures r == Some(-1) ==> Abs() == old(Abs())
      ensures r != Some(-1) ==> r == if Ended(old(Abs()), tid) then Some(tid) else None
      ensures r == Some(tid) && tid != -1 ==> HasFreed(old(Abs()), tid, Abs())
      ensures r == None ==> 0 <= tid && HasBlocked(old(Abs()), ChildExit(old(cur)), Joining(tid), Abs())
    {
      hide Inv, MidInv, HasFreed, HasBlocked;
      if tid <= 0 || NTHR <= tid { return Some(-1); }
      if tid !in thrtab || thrtab[tid].parent != Some(cur) { return Some(-1); }
      var returned := JoinFrom(tid);
      return if returned then Some(tid) else None;
    }

    /** The exited child with the least number, and how many children come before it. */
    method ScanChildren() returns (tid: Tid, childcnt: nat)
      ensures tid == ExitedChild(Abs(), 1)
      ensures tid == NTHR ==> (childcnt > 0 <==> HasChild(Abs()))
    {
      hide ExitedChild, HasChild, ChildBefore;
      ghost var s := Abs();
      tid := 1;
      childcnt := 0;
      ScanEnds(s);
      while tid < NTHR
        invariant 1 <= tid <= NTHR && ExitedChild(s, tid) == ExitedChild(s, 1)
        invariant childcnt > 0 <==> ChildBefore(s, tid)
      {
        ScanStep(s, tid);
        if tid in thrtab && thrtab[tid].parent == Some(cur) {
          if thrtab[tid].state == Exited { return; }
          childcnt := childcnt + 1;
        }
        tid := tid + 1;
      }
    }

    /** What thread_join_any does up to the point where it returns or waits; Childless is its panic. */
    method ThreadJoinAny() returns (r: JoinAnyResult)
      requires Valid() && cur != IDLE_TID
      modifies this, links.repr
      ensures Valid() && fresh(links.repr - old(links.repr))
      ensures match r
              case Joined(tid) =>
                && IsChild(old(Abs()), tid, old(cur)) && Ended(old(Abs()), tid) && JoinAny(old(Abs())) == Next(Abs())
                && HasFreed(old(Abs()), tid, Abs())
              case Waits =>
                && JoinAny(old(Abs())) == Next(Abs()) && NoEndedChild(old(Abs()), old(cur))
                && HasBlocked(old(Abs()), ChildExit(old(cur)), JoiningAny, Abs())
              case NoChild => JoinAny(old(Abs())) == Panic(Childless) && Abs() == old(Abs())
    {
      hide Inv, MidInv, LinksOk, Wait, JoinLoop, HasFreed, HasBlocked;
      ghost var s := Abs();
      Runs.JoinAnyKeeps(s);
      var tid, childcnt := ScanChildren();
      if tid < NTHR {
        var returned := JoinFrom(tid);
        return Joined(tid);
      }
      Runs.NoExitedChild(s);
      if childcnt == 0 { return NoChild; }
      ConditionWait(ChildExit(cur), JoiningAny);
      return Waits;
    }

    /** The rest of thread_join_any: its panic is not reachable. */
    method JoinAnyGoesOn() returns (tid: Tid)
      requires Valid() && thrtab[cur].activity.JoiningAny?
      modifies this, links.repr
      ensures Valid() && fresh(links.repr - old(links.repr)) && JoinAnyResumed(old(Abs())) == Next(Abs())
      ensures IsChild(old(Abs()), tid, old(cur)) && Ended(old(Abs()), tid) && HasFreed(old(Abs()), tid, Abs())
    {
      hide Inv, MidInv, LinksOk, Recycle, SetActivity, HasFreed;
      Runs.JoinAnyResumedKeeps(Abs());
      var childcnt;
      tid, childcnt := ScanChildren();
      assert tid < NTHR;
      RecycleThread(tid);
    }
  }

  predicate ChildBefore(s: Sched, tid: Tid) { exists t | 1 <= t < tid :: IsChild(s, t, s.cur) }

  lemma ScanStep(s: Sched, tid: Tid)
    requires 1 <= tid < NTHR
    ensures ChildBefore(s, tid + 1) <==> ChildBefore(s, tid) || IsChild(s, tid, s.cur)
    ensures ExitedChild(s, tid) ==
            if IsChild(s, tid, s.cur) && s.thrtab[tid].state.Exited? then tid else ExitedChild(s, tid + 1)
  {
    assert IsChild(s, tid, s.cur) ==> ChildBefore(s, tid + 1);
  }

  lemma ScanEnds(s: Sched)
    ensures !ChildBefore(s, 1) && (ChildBefore(s, NTHR) <==> HasChild(s)) && ExitedChild(s, NTHR) == NTHR
  {
  }

  datatype JoinAnyResult = Joined(tid: Tid) | Waits | NoChild

  function Reparented(th: Thread, tid: Tid, heir: Option<Tid>, visited: bool): Thread {
    if visited && th.parent == Some(tid) then Thread(th.state, heir, th.waitCond, th.activity) else th
  }

  /** Only threads that the loop of recycle_thread visits have a parent. */
  lemma ParentsKnown(s: Sched, tid: Tid)
    requires Inv(s) && IsChild(s, tid, s.cur) && Ended(s, tid)
    ensures var s0 := SetActivity(s, Outside);
            && s0 == Sched(s.thrtab[s.cur := Thread(s.thrtab[s.cur].state, s.thrtab[s.cur].parent,
                                                     s.thrtab[s.cur].waitCond, Outside)],
                           s.cur, s.ready, s.waiting)
            && tid in s.thrtab && Ended(s0, tid) && s0.thrtab[tid].parent == s.thrtab[tid].parent
            && forall t :: t in s0.thrtab && s0.thrtab[t].parent == Some(tid) ==> 1 <= t < NTHR
  {
    hide ListsOk, JoinsOk, ParentsOk;
  }

  lemma RecycleIs(s: Sched, tid: Tid, s': Sched)
    requires Ended(s, tid) && forall t :: t in s.thrtab && s.thrtab[t].parent == Some(tid) ==> 1 <= t < NTHR
    requires s'.cur == s.cur && s'.ready == s.ready && s'.waiting == s.waiting
    requires s'.thrtab.Keys == s.thrtab.Keys - {tid}
    requires forall t :: t in s'.thrtab ==> s'.thrtab[t] == Reparented(s.thrtab[t], tid, s.thrtab[tid].parent, 1 <= t < NTHR)
    ensures Recycle(s, tid) == Next(s')
  {
    assert Recycle(s, tid).s.thrtab == s'.thrtab;
  }

  /** A thread that is neither READY nor WAITING is on no list. */
  lemma IsLoose(s: Sched, t: Tid)
    requires ListsOk(s) && !InState(s, t, Ready) && !InState(s, t, Waiting)
    ensures Loose(Queues(s.ready, s.waiting), t)
  {
    hide NoDup;
    forall c ensures !OnList(Queues(s.ready, s.waiting), t, c) {
      assert t in Waiters(s, c) <==> WaitsFor(s, t, c);
    }
  }

  lemma LooseTail(q: Queues, t: Tid)
    requires q.ready != []
    ensures Loose(q, t) ==> Loose(Queues(q.ready[1..], q.waiting), t)
  {
    assert forall c :: OnList(Queues(q.ready[1..], q.waiting), t, c) <==> OnList(q, t, c);
  }

  lemma CurrentRuns(s: Sched)
    requires Inv(s)
    ensures s.cur in s.thrtab && s.thrtab[s.cur].state.Running?
  {
  }

  /** A list that is used for the first time has no threads on it. */
  lemma EmptyListIsNone(q: Queues, c: Cond, t: Tid)
    requires Loose(q, t)
    ensures Loose(Queues(q.ready, q.waiting[c := WaitersOf(q, c)]), t)
  {
    var q' := Queues(q.ready, q.waiting[c := WaitersOf(q, c)]);
    assert forall d :: OnList(q', t, d) <==> OnList(q, t, d);
  }

  lemma ExitFacts(s: Sched)
    requires Inv(s) && s.cur != MAIN_TID
    ensures s.cur in s.thrtab && s.thrtab[s.cur].parent.Some?
    ensures ListsOk(Sched(s.thrtab[s.cur := SetState(s.thrtab[s.cur], Exited)], s.cur, s.ready, s.waiting))
  {
    hide JoinsOk, ParentsOk;
    GoneLists(s, Sched(s.thrtab[s.cur := SetState(s.thrtab[s.cur], Exited)], s.cur, s.ready, s.waiting));
  }

  lemma AfterExit(s: Sched, p: Tid, told: Sched)
    requires Inv(s) && s.cur != MAIN_TID && s.cur != IDLE_TID && s.thrtab[s.cur].parent == Some(p)
    requires s.thrtab[s.cur].activity.Outside?
    requires Broadcast(Sched(s.thrtab[s.cur := SetState(s.thrtab[s.cur], Exited)], s.cur, s.ready, s.waiting),
                       ChildExit(p)) == Next(told)
    ensures MidInv(told) && told.ready != [] && Exit(s) == Scheduler.SuspendSelf(told)
  {
    hide NoDup, ListsOk, JoinsOk, ParentsOk, Broadcast, Scheduler.SuspendSelf, WokenBy;
    var gone := Sched(s.thrtab[s.cur := SetState(s.thrtab[s.cur], Exited)], s.cur, s.ready, s.waiting);
    GoneLists(s, gone);
    BroadcastLists(gone, ChildExit(p), told);
    BroadcastThreads(gone, ChildExit(p), told);
    ToldIsMid(s, p, gone, told);
    ReadyNotEmpty(told);
  }

  lemma CurrentIsLoose(s: Sched)
    requires MidInv(s) && s.thrtab[s.cur].state.Running?
    ensures Loose(Queues(s.ready, s.waiting), s.cur)
  {
    hide ListsOk, JoinsOk, ParentsOk, FixedThreadsOk;
    IsLoose(s, s.cur);
  }

  lemma NewIsLoose(s: Sched)
    requires Inv(s)
    ensures forall t :: t !in s.thrtab ==> Loose(Queues(s.ready, s.waiting), t)
  {
    hide ListsOk, JoinsOk, ParentsOk, FixedThreadsOk, Loose;
    forall t: Tid | t !in s.thrtab ensures Loose(Queues(s.ready, s.waiting), t) { IsLoose(s, t); }
  }

  lemma EndedIsLoose(s: Sched, t: Tid)
    requires Inv(s) && Ended(s, t)
    ensures Loose(Queues(s.ready, s.waiting), t)
  {
    hide ListsOk, JoinsOk, ParentsOk, FixedThreadsOk;
    IsLoose(s, t);
  }

  /** tab' is tab after the threads of ws have been marked READY. */
  predicate Marked(tab: map<Tid, Thread>, ws: seq<Tid>, tab': map<Tid, Thread>) {
    tab'.Keys == tab.Keys && forall t :: t in tab ==> tab'[t] == if t in ws then Woken(tab[t]) else tab[t]
  }

  lemma MarkedNone(tab: map<Tid, Thread>)
    ensures Marked(tab, [], tab)
  {
  }

  lemma MarkedAll(tab: map<Tid, Thread>, ws: seq<Tid>, tab': map<Tid, Thread>)
    requires Marked(tab, ws, tab')
    ensures tab' == map t | t in tab :: if t in ws then Woken(tab[t]) else tab[t]
  {
  }

  /** The next waiter is still as it was, WAITING for c. */
  lemma MarkNext(s: Sched, c: Cond, i: nat, tab: map<Tid, Thread>)
    requires ListsOk(s) && i < |Waiters(s, c)| && Marked(s.thrtab, Waiters(s, c)[..i], tab)
    ensures var t := Waiters(s, c)[i];
      && t in tab && tab[t].state == Waiting && tab[t].waitCond == Some(c)
      && Marked(s.thrtab, Waiters(s, c)[..i + 1], tab[t := Thread(Ready, tab[t].parent, None, tab[t].activity)])
  {
    hide Waiters;
    var ws := Waiters(s, c);
    assert NoDup(ws) && ws[i] in ws;
    assert WaitsFor(s, ws[i], c);
    assert ws[..i + 1] == ws[..i] + [ws[i]];
    assert ws[i] !in ws[..i];
  }

  lemma WaitSuspends(s: Sched, c: Cond, a: Activity)
    requires Inv(s) && s.cur != IDLE_TID && MayWait(s, c, a)
    ensures MidInv(Queued(s, c, a)) && Queued(s, c, a).ready != []
    ensures Wait(s, c, a) == Scheduler.SuspendSelf(Queued(s, c, a))
  {
    QueuedIsMid(s, c, a);
    hide MidInv;
    ReadyNotEmpty(Queued(s, c, a));
  }
}
