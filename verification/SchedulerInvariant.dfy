/** What holds in every reachable state of the scheduler, and that no assertion fails. */
module SchedulerInvariant {
  import opened Common
  import opened Scheduler

  predicate NoDup(q: seq<Tid>) { forall i, j :: 0 <= i < j < |q| ==> q[i] != q[j] }

  predicate InState(s: Sched, t: Tid, st: RunState) { t in s.thrtab && s.thrtab[t].state == st }

  predicate WaitsFor(s: Sched, t: Tid, c: Cond) { InState(s, t, Waiting) && s.thrtab[t].waitCond == Some(c) }

  predicate Ended(s: Sched, t: Tid) { InState(s, t, Exited) }

  /** A thread is on the ready list once if and only if it is READY, and on the list of a condition
      once if and only if it is WAITING for that condition. */
  ghost predicate ListsOk(s: Sched) {
    && NoDup(s.ready) && (forall t :: t in s.ready <==> InState(s, t, Ready))
    && (forall c :: NoDup(Waiters(s, c)))
    && (forall c, t :: t in Waiters(s, c) <==> WaitsFor(s, t, c))
  }

  /** The idle thread is RUNNING or READY, and the main thread has not exited. */
  predicate FixedThreadsOk(s: Sched) {
    && IDLE_TID in s.thrtab && s.thrtab[IDLE_TID].state in {Running, Ready}
    && s.thrtab[IDLE_TID].activity.Outside? && s.thrtab[IDLE_TID].parent == Some(MAIN_TID)
    && MAIN_TID in s.thrtab && s.thrtab[MAIN_TID].state != Exited && s.thrtab[MAIN_TID].parent == None
    && forall t :: t in s.thrtab && t != MAIN_TID ==> t < NTHR && s.thrtab[t].parent.Some?
  }

  predicate NoEndedChild(s: Sched, p: Tid) {
    forall t :: t in s.thrtab && IsChild(s, t, p) ==> !Ended(s, t)
  }

  predicate SomeEndedChild(s: Sched, p: Tid) {
    exists t :: t in s.thrtab && IsChild(s, t, p) && Ended(s, t)
  }

  /** What a join that is under way may rely on. */
  predicate JoinOk(s: Sched, t: Tid)
    requires t in s.thrtab
  {
    var th := s.thrtab[t];
    && (th.activity.Outside? ==> th.state.Waiting? ==> th.waitCond.Some? && th.waitCond.value.External?)
    && (!th.activity.Outside? ==> th.state != Exited && (th.state.Waiting? ==> th.waitCond == Some(ChildExit(t))))
    && (th.activity.Joining? ==>
          IsChild(s, th.activity.child, t) && (th.state.Waiting? ==> !Ended(s, th.activity.child)))
    && (th.activity.JoiningAny? ==>
          if th.state.Waiting? then NoEndedChild(s, t) else SomeEndedChild(s, t))
  }

  predicate JoinsOk(s: Sched) { forall t :: t in s.thrtab ==> JoinOk(s, t) }

  /** Parents are in thrtab, and have a smaller rank than their children. */
  predicate Ranked(s: Sched, rank: map<Tid, nat>) {
    forall t :: t in s.thrtab && s.thrtab[t].parent.Some? ==>
      var p := s.thrtab[t].parent.value;
      p in s.thrtab && t in rank && p in rank && rank[p] < rank[t]
  }

  ghost predicate ParentsOk(s: Sched) { exists rank :: Ranked(s, rank) }

  /** Between functions: nobody runs but the current thread, which may be about to suspend. */
  ghost predicate MidInv(s: Sched) {
    && s.cur in s.thrtab && s.thrtab[s.cur].state != Ready
    && (forall t :: InState(s, t, Running) ==> t == s.cur)
    && ListsOk(s) && FixedThreadsOk(s) && JoinsOk(s) && ParentsOk(s)
  }

  /** Exactly one thread is RUNNING, the current one. */
  ghost predicate Inv(s: Sched) { MidInv(s) && s.thrtab[s.cur].state.Running? }

  lemma InitInv()
    ensures Inv(INIT)
  {
    assert Ranked(INIT, map[MAIN_TID := 0, IDLE_TID := 1]);
  }

  // --- frames ---

  lemma NoDupAppend(a: seq<Tid>, b: seq<Tid>)
    requires NoDup(a) && NoDup(b) && forall x :: x in a ==> x !in b
    ensures NoDup(a + b)
  {
    var q := a + b;
    forall i, j | 0 <= i < j < |q| ensures q[i] != q[j] {
      if i < |a| <= j { assert q[i] in a && q[j] in b; }
    }
  }

  lemma NoDupTail(a: seq<Tid>)
    requires NoDup(a) && a != []
    ensures NoDup(a[1..]) && a[0] !in a[1..] && forall x :: x in a <==> x == a[0] || x in a[1..]
  {
    assert a == [a[0]] + a[1..];
  }

  /** Threads keep parent and activity, and whether they have exited or wait, and for what. */
  predicate SameShape(s: Sched, s': Sched) {
    s'.thrtab.Keys == s.thrtab.Keys && forall t :: t in s.thrtab ==> SameThread(s.thrtab[t], s'.thrtab[t])
  }

  predicate SameThread(th: Thread, th': Thread) {
    && th'.parent == th.parent && th'.activity == th.activity && th'.waitCond == th.waitCond
    && (th'.state.Exited? <==> th.state.Exited?) && (th'.state.Waiting? <==> th.state.Waiting?)
  }

  lemma ShapeKeepsJoins(s: Sched, s': Sched)
    requires SameShape(s, s') && JoinsOk(s)
    ensures JoinsOk(s')
  {
    forall t | t in s'.thrtab ensures JoinOk(s', t) {
      assert JoinOk(s, t);
      assert SameThread(s.thrtab[t], s'.thrtab[t]);
      assert forall u :: IsChild(s', u, t) <==> IsChild(s, u, t);
      assert forall u :: Ended(s', u) <==> Ended(s, u);
      hide SameShape, SameThread;
    }
  }

  lemma ShapeKeepsParents(s: Sched, s': Sched)
    requires SameShape(s, s') && ParentsOk(s)
    ensures ParentsOk(s')
  {
    var rank :| Ranked(s, rank);
    assert forall t :: t in s.thrtab ==> SameThread(s.thrtab[t], s'.thrtab[t]);
    assert Ranked(s', rank);
  }

  // --- suspend_self ---

  lemma ReadyNotEmpty(s: Sched)
    requires MidInv(s) && s.cur != IDLE_TID
    ensures s.ready != []
  {
    hide JoinsOk, ParentsOk, NoDup, Waiters, WaitsFor;
    assert !InState(s, IDLE_TID, Running);
    assert InState(s, IDLE_TID, Ready);
    assert IDLE_TID in s.ready;
  }

  lemma SuspendNext(s: Sched)
    requires MidInv(s) && s.ready != []
    ensures SuspendSelf(s).Next? && SuspendSelf(s).s.cur == s.ready[0] && s.ready[0] != s.cur
    ensures InState(s, s.ready[0], Ready)
  {
    hide JoinsOk, ParentsOk, NoDup, Waiters, WaitsFor, FixedThreadsOk;
    assert s.ready[0] in s.ready;
  }

  lemma SuspendReadyList(s: Sched, s': Sched)
    requires MidInv(s) && s.ready != [] && SuspendSelf(s) == Next(s')
    ensures NoDup(s'.ready) && forall t :: t in s'.ready <==> InState(s', t, Ready)
  {
    hide JoinsOk, ParentsOk, Waiters, WaitsFor, FixedThreadsOk, NoDup;
    SuspendNext(s);
    NoDupTail(s.ready);
    assert s.cur !in s.ready;
    NoDupAppend(s.ready[1..], [s.cur]) by { NoDupOne(s.cur); }
  }

  lemma NoDupOne(t: Tid)
    ensures NoDup([t])
  {
  }

  lemma SuspendWaitLists(s: Sched, s': Sched)
    requires MidInv(s) && s.ready != [] && SuspendSelf(s) == Next(s')
    ensures forall c :: NoDup(Waiters(s', c))
    ensures forall c, t :: t in Waiters(s', c) <==> WaitsFor(s', t, c)
  {
    hide JoinsOk, ParentsOk, FixedThreadsOk, NoDup;
    SuspendNext(s);
    assert forall c :: Waiters(s', c) == Waiters(s, c);
    forall c, t ensures t in Waiters(s', c) <==> WaitsFor(s', t, c) {
      assert t in Waiters(s, c) <==> WaitsFor(s, t, c);
    }
  }

  lemma SuspendShape(s: Sched, s': Sched)
    requires MidInv(s) && s.ready != [] && SuspendSelf(s) == Next(s')
    ensures SameShape(s, s') && FixedThreadsOk(s') && s'.cur in s'.thrtab && s'.thrtab[s'.cur].state.Running?
    ensures forall t :: InState(s', t, Running) ==> t == s'.cur
  {
    hide JoinsOk, ParentsOk, NoDup, Waiters, WaitsFor;
    SuspendNext(s);
    forall t | InState(s', t, Running) ensures t == s'.cur {
      assert t == s'.cur || t == s.cur || InState(s, t, Running);
    }
  }

  lemma SuspendKeeps(s: Sched)
    requires MidInv(s) && s.ready != []
    ensures SuspendSelf(s).Next? && Inv(SuspendSelf(s).s)
  {
    hide SuspendSelf, JoinsOk, ParentsOk, NoDup, Waiters, WaitsFor, SameShape, FixedThreadsOk;
    SuspendNext(s);
    var s' := SuspendSelf(s).s;
    SuspendReadyList(s, s');
    SuspendWaitLists(s, s');
    SuspendShape(s, s');
    ShapeKeepsJoins(s, s');
    ShapeKeepsParents(s, s');
  }

  // --- condition_wait ---

  /** The state in which condition_wait suspends. */
  function Queued(s: Sched, c: Cond, a: Activity): Sched
    requires s.cur in s.thrtab
  {
    Sched(s.thrtab[s.cur := Thread(Waiting, s.thrtab[s.cur].parent, Some(c), a)],
          s.cur, s.ready, s.waiting[c := Waiters(s, c) + [s.cur]])
  }

  predicate MayWait(s: Sched, c: Cond, a: Activity) {
    match a
    case Outside => c.External?
    case Joining(t) => c == ChildExit(s.cur) && IsChild(s, t, s.cur) && !Ended(s, t)
    case JoiningAny => c == ChildExit(s.cur) && NoEndedChild(s, s.cur)
  }

  lemma QueuedLists(s: Sched, c: Cond, a: Activity)
    requires Inv(s)
    ensures ListsOk(Queued(s, c, a))
  {
    hide JoinsOk, ParentsOk, FixedThreadsOk, NoDup;
    var w := Queued(s, c, a);
    assert s.cur !in s.ready;
    forall t ensures t in w.ready <==> InState(w, t, Ready) {
      assert t in s.ready <==> InState(s, t, Ready);
    }
    forall d, t ensures t in Waiters(w, d) <==> WaitsFor(w, t, d) {
      assert t in Waiters(s, d) <==> WaitsFor(s, t, d);
    }
    forall d ensures NoDup(Waiters(w, d)) {
      assert NoDup(Waiters(s, d));
      assert s.cur !in Waiters(s, c);
      NoDupOne(s.cur);
      NoDupAppend(Waiters(s, c), [s.cur]);
    }
  }

  lemma QueuedJoins(s: Sched, c: Cond, a: Activity)
    requires Inv(s) && MayWait(s, c, a) && s.cur != IDLE_TID
    ensures JoinsOk(Queued(s, c, a)) && FixedThreadsOk(Queued(s, c, a))
  {
    hide ListsOk, ParentsOk, NoDup;
    var w := Queued(s, c, a);
    assert forall t, p :: IsChild(w, t, p) <==> IsChild(s, t, p);
    assert forall t :: Ended(w, t) <==> Ended(s, t);
    forall t | t in w.thrtab ensures JoinOk(w, t) {
      assert JoinOk(s, t);
    }
  }

  lemma QueuedIsMid(s: Sched, c: Cond, a: Activity)
    requires Inv(s) && MayWait(s, c, a) && s.cur != IDLE_TID
    ensures MidInv(Queued(s, c, a))
  {
    hide JoinsOk, FixedThreadsOk, ListsOk, NoDup, MayWait;
    var w := Queued(s, c, a);
    QueuedLists(s, c, a);
    QueuedJoins(s, c, a);
    assert ParentsOk(w) by {
      var rank :| Ranked(s, rank);
      assert Ranked(w, rank);
    }
    forall t | InState(w, t, Running) ensures t == w.cur {
      assert t == s.cur || InState(s, t, Running);
    }
  }

  lemma WaitKeeps(s: Sched, c: Cond, a: Activity)
    requires Inv(s) && MayWait(s, c, a) && s.cur != IDLE_TID
    ensures Wait(s, c, a).Next? && Inv(Wait(s, c, a).s)
  {
    QueuedIsMid(s, c, a);
    hide MidInv, MayWait, SuspendSelf;
    ReadyNotEmpty(Queued(s, c, a));
    SuspendKeeps(Queued(s, c, a));
  }

  // --- condition_broadcast ---

  lemma BroadcastRuns(s: Sched, c: Cond)
    requires ListsOk(s)
    ensures Broadcast(s, c).Next?
  {
    hide NoDup;
    forall t | t in Waiters(s, c) ensures t in s.thrtab && s.thrtab[t].state == Waiting && s.thrtab[t].waitCond == Some(c) {
      assert WaitsFor(s, t, c);
    }
  }

  lemma BroadcastLists(s: Sched, c: Cond, s': Sched)
    requires ListsOk(s) && Broadcast(s, c) == Next(s')
    ensures ListsOk(s') && s'.ready == s.ready + Waiters(s, c)
  {
    hide NoDup;
    var ws := Waiters(s, c);
    forall t ensures t in s'.ready <==> InState(s', t, Ready) {
      assert t in s.ready <==> InState(s, t, Ready);
      assert t in ws <==> WaitsFor(s, t, c);
    }
    forall d, t ensures t in Waiters(s', d) <==> WaitsFor(s', t, d) {
      assert t in Waiters(s, d) <==> WaitsFor(s, t, d);
      assert t in ws <==> WaitsFor(s, t, c);
    }
    assert NoDup(s'.ready) by {
      assert NoDup(ws);
      forall x | x in s.ready ensures x !in ws {
        assert InState(s, x, Ready);
        assert x in ws <==> WaitsFor(s, x, c);
      }
      NoDupAppend(s.ready, ws);
    }
    forall d ensures NoDup(Waiters(s', d)) {
      assert NoDup(Waiters(s, d));
      NoDupNone();
    }
  }

  lemma NoDupNone()
    ensures NoDup([])
  {
  }

  /** s' differs from s in that the threads waiting for c are ready. */
  predicate WokenBy(s: Sched, c: Cond, s': Sched) {
    && s'.cur == s.cur && s'.thrtab.Keys == s.thrtab.Keys
    && forall t :: t in s.thrtab ==> s'.thrtab[t] == if WaitsFor(s, t, c) then Woken(s.thrtab[t]) else s.thrtab[t]
  }

  lemma BroadcastThreads(s: Sched, c: Cond, s': Sched)
    requires ListsOk(s) && Broadcast(s, c) == Next(s')
    ensures WokenBy(s, c, s')
  {
    hide NoDup;
    forall t | t in s.thrtab
      ensures s'.thrtab[t] == if WaitsFor(s, t, c) then Woken(s.thrtab[t]) else s.thrtab[t]
    {
      assert t in Waiters(s, c) <==> WaitsFor(s, t, c);
    }
  }

  lemma WokenParents(s: Sched, c: Cond, s': Sched)
    requires WokenBy(s, c, s') && ParentsOk(s)
    ensures ParentsOk(s')
  {
    var rank :| Ranked(s, rank);
    assert Ranked(s', rank);
  }

  lemma WokenRelatives(s: Sched, c: Cond, s': Sched)
    requires WokenBy(s, c, s')
    ensures forall t, p :: IsChild(s', t, p) <==> IsChild(s, t, p)
    ensures forall t :: Ended(s', t) <==> Ended(s, t)
    ensures forall t :: InState(s', t, Running) <==> InState(s, t, Running)
  {
  }

  lemma WokenJoins(s: Sched, id: nat, s': Sched)
    requires WokenBy(s, External(id), s') && JoinsOk(s)
    ensures JoinsOk(s')
  {
    WokenRelatives(s, External(id), s');
    forall t | t in s'.thrtab ensures JoinOk(s', t) {
      assert JoinOk(s, t);
    }
  }

  lemma ExternalBroadcastKeeps(s: Sched, id: nat)
    requires Inv(s)
    ensures Broadcast(s, External(id)).Next? && Inv(Broadcast(s, External(id)).s)
  {
    hide NoDup, ListsOk, Broadcast, JoinsOk, ParentsOk;
    var c := External(id);
    BroadcastRuns(s, c);
    var s' := Broadcast(s, c).s;
    BroadcastLists(s, c, s');
    BroadcastThreads(s, c, s');
    WokenParents(s, c, s');
    WokenRelatives(s, c, s');
    WokenJoins(s, id, s');
  }

  // --- thread_exit ---

  /** The state after the exit has been announced to the parent p, before the thread suspends. */
  lemma ExitedJoins(s: Sched, p: Tid, gone: Sched, s': Sched)
    requires Inv(s) && s.cur != MAIN_TID && s.cur != IDLE_TID && s.thrtab[s.cur].parent == Some(p)
    requires s.thrtab[s.cur].activity.Outside?
    requires gone == Sched(s.thrtab[s.cur := SetState(s.thrtab[s.cur], Exited)], s.cur, s.ready, s.waiting)
    requires WokenBy(gone, ChildExit(p), s')
    ensures JoinsOk(s')
  {
    hide NoDup, ListsOk, ParentsOk;
    WokenRelatives(gone, ChildExit(p), s');
    assert forall t, q :: IsChild(gone, t, q) <==> IsChild(s, t, q);
    assert forall t :: Ended(gone, t) <==> Ended(s, t) || t == s.cur;
    assert IsChild(s', s.cur, p) && Ended(s', s.cur);
    forall t | t in s'.thrtab ensures JoinOk(s', t) {
      assert JoinOk(s, t);
    }
  }

  lemma GoneLists(s: Sched, gone: Sched)
    requires Inv(s)
    requires gone == Sched(s.thrtab[s.cur := SetState(s.thrtab[s.cur], Exited)], s.cur, s.ready, s.waiting)
    ensures ListsOk(gone)
  {
    hide NoDup, JoinsOk, ParentsOk, FixedThreadsOk;
    assert s.cur !in s.ready;
    forall t ensures t in gone.ready <==> InState(gone, t, Ready) {
      assert t in s.ready <==> InState(s, t, Ready);
    }
    assert forall c :: Waiters(gone, c) == Waiters(s, c);
    forall c, t ensures t in Waiters(gone, c) <==> WaitsFor(gone, t, c) {
      assert t in Waiters(s, c) <==> WaitsFor(s, t, c);
    }
  }

  lemma ExitKeeps(s: Sched)
    requires Inv(s) && s.cur != IDLE_TID && s.thrtab[s.cur].activity.Outside?
    ensures if s.cur == MAIN_TID then Exit(s).Halt? else Exit(s).Next? && Inv(Exit(s).s)
  {
    hide NoDup, ListsOk, JoinsOk, ParentsOk, Broadcast, SuspendSelf, WokenBy;
    if s.cur == MAIN_TID { return; }
    var p := s.thrtab[s.cur].parent.value;
    var gone := Sched(s.thrtab[s.cur := SetState(s.thrtab[s.cur], Exited)], s.cur, s.ready, s.waiting);
    GoneLists(s, gone);
    BroadcastRuns(gone, ChildExit(p));
    var told := Broadcast(gone, ChildExit(p)).s;
    BroadcastLists(gone, ChildExit(p), told);
    BroadcastThreads(gone, ChildExit(p), told);
    ToldIsMid(s, p, gone, told);
    ReadyNotEmpty(told);
    SuspendKeeps(told);
  }

  lemma ToldFixed(s: Sched, p: Tid, gone: Sched, told: Sched)
    requires Inv(s) && s.cur != MAIN_TID && s.cur != IDLE_TID
    requires gone == Sched(s.thrtab[s.cur := SetState(s.thrtab[s.cur], Exited)], s.cur, s.ready, s.waiting)
    requires WokenBy(gone, ChildExit(p), told)
    ensures FixedThreadsOk(told) && told.cur in told.thrtab && told.thrtab[told.cur].state.Exited?
  {
    hide NoDup, ListsOk, JoinsOk, ParentsOk;
  }

  lemma ToldIsMid(s: Sched, p: Tid, gone: Sched, told: Sched)
    requires Inv(s) && s.cur != MAIN_TID && s.cur != IDLE_TID && s.thrtab[s.cur].parent == Some(p)
    requires s.thrtab[s.cur].activity.Outside?
    requires gone == Sched(s.thrtab[s.cur := SetState(s.thrtab[s.cur], Exited)], s.cur, s.ready, s.waiting)
    requires WokenBy(gone, ChildExit(p), told) && ListsOk(told)
    ensures MidInv(told) && told.cur == s.cur
  {
    hide NoDup, ListsOk, JoinsOk, FixedThreadsOk;
    assert told.cur == s.cur;
    ToldFixed(s, p, gone, told);
    ExitedJoins(s, p, gone, told);
    GoneParents(s, gone);
    hide ParentsOk;
    WokenParents(gone, ChildExit(p), told);
    WokenRelatives(gone, ChildExit(p), told);
    hide WokenBy;
    forall t | InState(told, t, Running) ensures t == told.cur {
      assert InState(gone, t, Running);
      assert t == s.cur || InState(s, t, Running);
    }
  }

  lemma GoneParents(s: Sched, gone: Sched)
    requires ParentsOk(s) && s.cur in s.thrtab
    requires gone == Sched(s.thrtab[s.cur := SetState(s.thrtab[s.cur], Exited)], s.cur, s.ready, s.waiting)
    ensures ParentsOk(gone)
  {
    var rank :| Ranked(s, rank);
    assert Ranked(gone, rank);
  }
}
