/** What each function of thread.c does to the threads and their lists, and what it leaves alone. */
module SchedulerEffects {
  import opened Common
  import opened Scheduler
  import opened SchedulerInvariant
  import opened SchedulerRuns

  // --- effects ---

  /** All threads but these are as before. */
  ghost predicate OthersSame(s: Sched, s': Sched, ts: set<Tid>) {
    && (forall t :: t !in ts ==> (t in s'.thrtab <==> t in s.thrtab))
    && forall t :: t !in ts && t in s.thrtab && t in s'.thrtab ==> s'.thrtab[t] == s.thrtab[t]
  }

  /** All lists of waiters but that of c are as before. */
  ghost predicate OtherListsSame(s: Sched, s': Sched, c: Cond) {
    forall d :: d != c ==> Waiters(s', d) == Waiters(s, d)
  }

  /** Thread t is in a new state, and has its parent and activity still. */
  predicate Moved(s: Sched, s': Sched, t: Tid, st: RunState) {
    && t in s.thrtab && InState(s', t, st)
    && s'.thrtab[t].parent == s.thrtab[t].parent && s'.thrtab[t].activity == s.thrtab[t].activity
  }

  /** The new thread tid is a child of the thread that spawned it, READY, and last of the ready list. */
  ghost predicate HasSpawned(s: Sched, tid: Tid, s': Sched) {
    && tid !in s.thrtab && IsChild(s', tid, s.cur) && InState(s', tid, Ready)
    && s'.thrtab[tid].activity.Outside? && s'.thrtab[tid].waitCond.None?
    && s'.ready == s.ready + [tid] && s'.cur == s.cur && s'.waiting == s.waiting && OthersSame(s, s', {tid})
  }

  /** The current thread goes to the end of the ready list, and the first of that list runs. */
  ghost predicate HasYielded(s: Sched, s': Sched) {
    && s.ready != [] && s'.cur == s.ready[0] && s'.ready == s.ready[1..] + [s.cur] && s'.waiting == s.waiting
    && Moved(s, s', s.cur, Ready) && Moved(s, s', s'.cur, Running) && OthersSame(s, s', {s.cur, s'.cur})
  }

  /** The current thread waits at the end of the list of c, to go on with a; the first READY one runs. */
  ghost predicate HasBlocked(s: Sched, c: Cond, a: Activity, s': Sched) {
    && s.ready != [] && s'.cur == s.ready[0] && s'.ready == s.ready[1..]
    && Waiters(s', c) == Waiters(s, c) + [s.cur] && OtherListsSame(s, s', c)
    && s.cur in s.thrtab && WaitsFor(s', s.cur, c)
    && s'.thrtab[s.cur].parent == s.thrtab[s.cur].parent && s'.thrtab[s.cur].activity == a
    && Moved(s, s', s'.cur, Running) && OthersSame(s, s', {s.cur, s'.cur})
  }

  /** Everybody who waited for c is READY, behind those who were, and nobody waits for it. */
  ghost predicate HasWoken(s: Sched, c: Cond, s': Sched) {
    && s'.cur == s.cur && s'.ready == s.ready + Waiters(s, c)
    && Waiters(s', c) == [] && OtherListsSame(s, s', c)
    && (forall t :: t in Waiters(s, c) ==> Moved(s, s', t, Ready))
    && OthersSame(s, s', set t | t in Waiters(s, c))
  }

  /** The current thread has exited, whoever waited for a child of its parent is READY, and the first
      READY thread runs. */
  ghost predicate HasExited(s: Sched, s': Sched) {
    && s.cur in s.thrtab && s.thrtab[s.cur].parent.Some?
    && var c := ChildExit(s.thrtab[s.cur].parent.value);
       && s.ready != [] && s'.cur == s.ready[0] && s'.ready == s.ready[1..] + Waiters(s, c)
       && Waiters(s', c) == [] && OtherListsSame(s, s', c)
       && Moved(s, s', s.cur, Exited) && Moved(s, s', s'.cur, Running)
       && (forall t :: t in Waiters(s, c) ==> Moved(s, s', t, Ready))
       && OthersSame(s, s', {s.cur, s'.cur} + set t | t in Waiters(s, c))
  }

  /** The slot of tid is free, its children are the current thread's, and that has left the join. */
  ghost predicate HasFreed(s: Sched, tid: Tid, s': Sched) {
    && s'.cur == s.cur && s'.ready == s.ready && s'.waiting == s.waiting
    && tid != s.cur && tid in s.thrtab && s'.thrtab.Keys == s.thrtab.Keys - {tid}
    && (forall t :: t in s'.thrtab ==>
          && s'.thrtab[t].state == s.thrtab[t].state && s'.thrtab[t].waitCond == s.thrtab[t].waitCond
          && (t != s.cur ==> s'.thrtab[t].activity == s.thrtab[t].activity))
    && (forall t, p :: t in s'.thrtab ==>
          (IsChild(s', t, p) <==> p != tid && (IsChild(s, t, p) || (p == s.cur && IsChild(s, t, tid)))))
    && s.cur in s'.thrtab && s'.thrtab[s.cur].activity.Outside?
  }

  /** After thread_init the main thread, 0, runs, and its child, the idle thread 15, is READY. */
  lemma InitThreads()
    ensures INIT.cur == 0 && InState(INIT, 0, Running) && INIT.thrtab[0].parent.None?
    ensures INIT.ready == [15] && InState(INIT, 15, Ready) && IsChild(INIT, 15, 0)
    ensures INIT.thrtab.Keys == {0, 15} && forall c :: Waiters(INIT, c) == []
  {
  }

  // --- they are those of the machine ---

  lemma SpawnEffect(s: Sched) returns (tid: Tid)
    requires Spawn(s).Next?
    ensures 1 <= tid < NTHR && HasSpawned(s, tid, Spawn(s).s) && forall t :: 1 <= t < tid ==> t in s.thrtab
  {
    tid := FreeSlot(s, 1);
  }

  lemma SuspendEffect(s: Sched, s': Sched)
    requires MidInv(s) && SuspendSelf(s) == Next(s')
    ensures s.ready != [] && s'.cur == s.ready[0] && s'.cur != s.cur && s'.waiting == s.waiting
    ensures Moved(s, s', s'.cur, Running) && OthersSame(s, s', {s.cur, s'.cur})
    ensures s.thrtab[s.cur].state.Running? ==> s'.ready == s.ready[1..] + [s.cur] && Moved(s, s', s.cur, Ready)
    ensures !s.thrtab[s.cur].state.Running? ==>
      s'.ready == s.ready[1..] && s.cur in s'.thrtab && s'.thrtab[s.cur] == s.thrtab[s.cur]
  {
    hide ListsOk, JoinsOk, ParentsOk, FixedThreadsOk;
    SuspendNext(s);
  }

  lemma YieldEffect(s: Sched, s': Sched)
    requires Inv(s) && SuspendSelf(s) == Next(s')
    ensures HasYielded(s, s')
  {
    hide ListsOk, JoinsOk, ParentsOk, FixedThreadsOk, SuspendSelf, Moved, OthersSame;
    SuspendEffect(s, s');
  }

  lemma WaitEffect(s: Sched, c: Cond, a: Activity, s': Sched)
    requires Inv(s) && MayWait(s, c, a) && s.cur != IDLE_TID && Wait(s, c, a) == Next(s')
    ensures HasBlocked(s, c, a, s')
  {
    QueuedIsMid(s, c, a);
    hide MidInv, MayWait, SuspendSelf;
    var w := Queued(s, c, a);
    CurrentWaits(s, c, a);
    SuspendEffect(w, s');
  }

  lemma CurrentWaits(s: Sched, c: Cond, a: Activity)
    requires MidInv(s)
    ensures s.cur in s.thrtab && Queued(s, c, a).thrtab[s.cur].state.Waiting?
  {
  }

  lemma BroadcastEffect(s: Sched, c: Cond, s': Sched)
    requires ListsOk(s) && Broadcast(s, c) == Next(s')
    ensures HasWoken(s, c, s')
  {
    hide NoDup;
    forall t | t in Waiters(s, c) ensures t in s.thrtab {
      assert WaitsFor(s, t, c);
    }
  }

  lemma ExitEffect(s: Sched, s': Sched)
    requires Inv(s) && s.cur != IDLE_TID && s.cur != MAIN_TID && s.thrtab[s.cur].activity.Outside?
    requires Exit(s) == Next(s')
    ensures HasExited(s, s')
  {
    hide NoDup, ListsOk, JoinsOk, ParentsOk, Broadcast, SuspendSelf, WokenBy, OthersSame, OtherListsSame, Moved;
    var p := s.thrtab[s.cur].parent.value;
    var gone := Sched(s.thrtab[s.cur := SetState(s.thrtab[s.cur], Exited)], s.cur, s.ready, s.waiting);
    GoneLists(s, gone);
    BroadcastRuns(gone, ChildExit(p));
    var told := Broadcast(gone, ChildExit(p)).s;
    BroadcastLists(gone, ChildExit(p), told);
    BroadcastThreads(gone, ChildExit(p), told);
    BroadcastEffect(gone, ChildExit(p), told);
    ToldIsMid(s, p, gone, told);
    ToldFixed(s, p, gone, told);
    SuspendEffect(told, s');
    WaitersApart(s, ChildExit(p));
    ReadyNotEmpty(s);
    ReadyNotEmpty(told);
    ExitCombined(s, ChildExit(p), gone, told, s');
  }

  /** No waiter is the current thread or READY. */
  lemma WaitersApart(s: Sched, c: Cond)
    requires Inv(s)
    ensures s.cur !in Waiters(s, c) && forall t :: t in s.ready ==> t !in Waiters(s, c)
    ensures s.cur !in s.ready
  {
    hide NoDup, JoinsOk, ParentsOk, FixedThreadsOk;
    assert s.cur in Waiters(s, c) <==> WaitsFor(s, s.cur, c);
    forall t | t in s.ready ensures t !in Waiters(s, c) {
      assert InState(s, t, Ready);
      assert t in Waiters(s, c) <==> WaitsFor(s, t, c);
    }
  }

  lemma ExitCombined(s: Sched, c: Cond, gone: Sched, told: Sched, s': Sched)
    requires s.cur in s.thrtab && s.thrtab[s.cur].parent.Some? && s.ready != [] && s.cur !in Waiters(s, c)
    requires forall t :: t in s.ready ==> t !in Waiters(s, c)
    requires c == ChildExit(s.thrtab[s.cur].parent.value)
    requires gone == Sched(s.thrtab[s.cur := SetState(s.thrtab[s.cur], Exited)], s.cur, s.ready, s.waiting)
    requires HasWoken(gone, c, told) && told.ready != [] && s'.cur == told.ready[0] && s'.waiting == told.waiting
    requires Moved(told, s', s'.cur, Running) && OthersSame(told, s', {told.cur, s'.cur})
    requires s'.ready == told.ready[1..] && told.cur in s'.thrtab && s'.thrtab[told.cur] == told.thrtab[told.cur]
    requires told.cur in told.thrtab && s'.cur != told.cur
    ensures HasExited(s, s')
  {
    var ws := Waiters(s, c);
    assert Waiters(gone, c) == ws;
    assert told.ready[0] == s.ready[0] && s.ready[0] in s.ready;
    assert s'.cur !in ws;
    assert forall d :: Waiters(s', d) == Waiters(told, d) && Waiters(gone, d) == Waiters(s, d);
    forall t | t in ws ensures Moved(s, s', t, Ready) {
      assert Moved(gone, told, t, Ready);
    }
  }

  lemma FreedEffect(s: Sched, tid: Tid, s': Sched)
    requires Inv(s) && Recycled(s, tid, s')
    ensures HasFreed(s, tid, s')
  {
    hide NoDup, ListsOk, JoinsOk, ParentsOk, FixedThreadsOk, Recycle, SetActivity;
    RecycledThreads(s, tid, s');
    assert !IsChild(s, tid, tid) by { assert IsChild(s, tid, s.cur); }
  }

  // --- joins ---

  /** The outcome of joining tid: no effect for a number that is not a child's; else the slot of an
      exited child is free, and for any other the thread waits until its child_exit condition is
      broadcast. */
  ghost predicate HasJoined(s: Sched, tid: Tid, s': Sched) {
    if !IsChild(s, tid, s.cur) then s' == s
    else if Ended(s, tid) then HasFreed(s, tid, s')
    else HasBlocked(s, ChildExit(s.cur), Joining(tid), s')
  }

  lemma JoinLoopEffect(s: Sched, tid: Tid, s': Sched)
    requires Inv(s) && IsChild(s, tid, s.cur) && s.cur != IDLE_TID && JoinLoop(s, tid) == Next(s')
    ensures HasJoined(s, tid, s')
  {
    hide ListsOk, JoinsOk, ParentsOk, FixedThreadsOk, Wait, Recycle, SetActivity, HasFreed, HasBlocked;
    if Ended(s, tid) { FreedEffect(s, tid, s'); } else { WaitEffect(s, ChildExit(s.cur), Joining(tid), s'); }
  }

  lemma JoinEffect(s: Sched, tid: Tid, s': Sched)
    requires Inv(s) && s.cur != IDLE_TID && Join(s, tid) == Next(s')
    ensures HasJoined(s, tid, s')
  {
    hide ListsOk, JoinsOk, ParentsOk, Wait, Recycle, SetActivity, HasFreed, HasBlocked, JoinLoop;
    ChildrenInTable(s);
    if IsChild(s, tid, s.cur) { JoinLoopEffect(s, tid, s'); }
  }

  /** An exited child, the one with the least number, is freed; else the thread waits for any. */
  ghost predicate HasJoinedAny(s: Sched, s': Sched) {
    if NoEndedChild(s, s.cur) then HasBlocked(s, ChildExit(s.cur), JoiningAny, s')
    else exists tid :: IsChild(s, tid, s.cur) && Ended(s, tid) && HasFreed(s, tid, s')
  }

  lemma JoinAnyEffect(s: Sched, s': Sched)
    requires Inv(s) && s.cur != IDLE_TID && JoinAny(s) == Next(s')
    ensures HasJoinedAny(s, s')
  {
    hide ListsOk, JoinsOk, ParentsOk, Wait, Recycle, SetActivity, HasFreed, HasBlocked, JoinLoop, FixedThreadsOk;
    var tid := ExitedChild(s, 1);
    if tid < NTHR {
      JoinLoopEffect(s, tid, s');
    } else {
      NoExitedChild(s);
      WaitEffect(s, ChildExit(s.cur), JoiningAny, s');
    }
  }

  /** A woken thread goes on with its join: of a child, or of any, of which one has exited then. */
  ghost predicate HasResumed(s: Sched, s': Sched) {
    s.cur in s.thrtab &&
    match s.thrtab[s.cur].activity
    case Outside => s' == s
    case Joining(tid) => IsChild(s, tid, s.cur) && HasJoined(s, tid, s')
    case JoiningAny => exists tid :: IsChild(s, tid, s.cur) && Ended(s, tid) && HasFreed(s, tid, s')
  }

  lemma ResumeEffect(s: Sched, s': Sched)
    requires Inv(s) && s.cur != IDLE_TID && Resume(s) == Next(s')
    ensures HasResumed(s, s')
  {
    hide ListsOk, ParentsOk, FixedThreadsOk, Wait, Recycle, SetActivity, HasFreed, HasBlocked, JoinLoop;
    assert JoinOk(s, s.cur);
    match s.thrtab[s.cur].activity
    case Outside =>
    case Joining(tid) => JoinLoopEffect(s, tid, s');
    case JoiningAny =>
      var tid := ExitedChild(s, 1);
      if tid == NTHR { NoExitedChild(s); }
      FreedEffect(s, tid, s');
  }

  // --- a child stays a child until it is joined ---

  /** The current thread is in a call that can end a join. */
  predicate Joins(ev: Event) { ev.JoinEvent? || ev.JoinAnyEvent? || ev.ResumeEvent? }

  /** A child of p, as long as p has not exited, is still p's child after any step, or p has joined
      it after its exit. */
  lemma ChildStays(s: Sched, ev: Event, s': Sched, t: Tid, p: Tid)
    requires Inv(s) && Enabled(s, ev) && Step(s, ev) == Next(s') && IsChild(s, t, p) && p in s.thrtab && !Ended(s, p)
    ensures p in s'.thrtab
    ensures IsChild(s', t, p) || (t !in s'.thrtab && s.cur == p && Ended(s, t) && Joins(ev))
  {
    hide ListsOk, JoinsOk, ParentsOk, SuspendSelf, Wait, Broadcast, Spawn, JoinLoop, JoinAny, Exit, FixedThreadsOk;
    hide HasYielded, HasBlocked, HasWoken, HasExited, HasFreed;
    match ev
    case SpawnEvent => var tid := SpawnEffect(s);
    case ExitEvent => ExitKeeps(s); ExitEffect(s, s'); ExitKeepsChild(s, s', t, p);
    case YieldEvent => YieldEffect(s, s'); YieldKeepsChild(s, s', t, p);
    case WaitEvent(id) => WaitEffect(s, External(id), Outside, s'); BlockKeepsChild(s, External(id), Outside, s', t, p);
    case JoinEvent(tid) => JoinEffect(s, tid, s'); JoinKeepsChild(s, tid, s', t, p);
    case JoinAnyEvent => JoinAnyEffect(s, s'); JoinAnyKeepsChild(s, s', t, p);
    case ResumeEvent => ResumeEffect(s, s'); ResumeKeepsChild(s, s', t, p);
    case BroadcastEvent(id) => BroadcastEffect(s, External(id), s'); WokenKeepsChild(s, External(id), s', t, p);
  }

  lemma ExitKeepsChild(s: Sched, s': Sched, t: Tid, p: Tid)
    requires HasExited(s, s') && IsChild(s, t, p) && p in s.thrtab
    ensures IsChild(s', t, p) && p in s'.thrtab
  {
  }

  lemma YieldKeepsChild(s: Sched, s': Sched, t: Tid, p: Tid)
    requires HasYielded(s, s') && IsChild(s, t, p) && p in s.thrtab
    ensures IsChild(s', t, p) && p in s'.thrtab
  {
  }

  lemma BlockKeepsChild(s: Sched, c: Cond, a: Activity, s': Sched, t: Tid, p: Tid)
    requires HasBlocked(s, c, a, s') && IsChild(s, t, p) && p in s.thrtab
    ensures IsChild(s', t, p) && p in s'.thrtab
  {
  }

  lemma WokenKeepsChild(s: Sched, c: Cond, s': Sched, t: Tid, p: Tid)
    requires HasWoken(s, c, s') && IsChild(s, t, p) && p in s.thrtab
    ensures IsChild(s', t, p) && p in s'.thrtab
  {
  }

  lemma FreedKeepsChild(s: Sched, tid: Tid, s': Sched, t: Tid, p: Tid)
    requires HasFreed(s, tid, s') && Ended(s, tid) && IsChild(s, tid, s.cur)
    requires IsChild(s, t, p) && p in s.thrtab && !Ended(s, p)
    ensures p in s'.thrtab
    ensures IsChild(s', t, p) || (t !in s'.thrtab && t == tid && s.cur == p)
  {
  }

  lemma JoinKeepsChild(s: Sched, tid: Tid, s': Sched, t: Tid, p: Tid)
    requires HasJoined(s, tid, s') && IsChild(s, t, p) && p in s.thrtab && !Ended(s, p)
    ensures p in s'.thrtab
    ensures IsChild(s', t, p) || (t !in s'.thrtab && s.cur == p && Ended(s, t))
  {
    hide HasFreed, HasBlocked;
    if IsChild(s, tid, s.cur) {
      if Ended(s, tid) {
        FreedKeepsChild(s, tid, s', t, p);
      } else {
        BlockKeepsChild(s, ChildExit(s.cur), Joining(tid), s', t, p);
      }
    }
  }

  lemma JoinAnyKeepsChild(s: Sched, s': Sched, t: Tid, p: Tid)
    requires HasJoinedAny(s, s') && IsChild(s, t, p) && p in s.thrtab && !Ended(s, p)
    ensures p in s'.thrtab
    ensures IsChild(s', t, p) || (t !in s'.thrtab && s.cur == p && Ended(s, t))
  {
    hide HasFreed, HasBlocked, NoEndedChild;
    if NoEndedChild(s, s.cur) {
      BlockKeepsChild(s, ChildExit(s.cur), JoiningAny, s', t, p);
    } else {
      var tid :| IsChild(s, tid, s.cur) && Ended(s, tid) && HasFreed(s, tid, s');
      FreedKeepsChild(s, tid, s', t, p);
    }
  }

  lemma ResumeKeepsChild(s: Sched, s': Sched, t: Tid, p: Tid)
    requires HasResumed(s, s') && IsChild(s, t, p) && p in s.thrtab && !Ended(s, p)
    ensures p in s'.thrtab
    ensures IsChild(s', t, p) || (t !in s'.thrtab && s.cur == p && Ended(s, t))
  {
    hide HasFreed, HasBlocked;
    match s.thrtab[s.cur].activity
    case Outside =>
    case Joining(tid) => JoinKeepsChild(s, tid, s', t, p);
    case JoiningAny =>
      var tid :| IsChild(s, tid, s.cur) && Ended(s, tid) && HasFreed(s, tid, s');
      FreedKeepsChild(s, tid, s', t, p);
  }

  /** Over a run in which p does not exit and t keeps its slot, t stays p's child. */
  lemma {:induction false} ChildOverRun(s: Sched, evs: seq<Event>, s': Sched, t: Tid, p: Tid)
    requires Inv(s) && Feasible(s, evs) && Run(s, evs) == Next(s') && IsChild(s, t, p) && p in s.thrtab
    requires forall k :: 0 <= k <= |evs| ==> StillThere(Run(s, evs[..k]), t, p)
    ensures IsChild(s', t, p) && p in s'.thrtab
  {
    hide Inv, Step, Enabled, IsChild, Joins;
    if evs != [] {
      var n := |evs| - 1;
      var front := evs[..n];
      assert forall k :: 0 <= k <= n ==> front[..k] == evs[..k];
      assert StillThere(Run(s, evs[..n]), t, p) && evs[..n + 1] == evs;
      assert StillThere(Run(s, evs[..n + 1]), t, p);
      var before := Run(s, front).s;
      ChildOverRun(s, front, before, t, p);
      RunKeeps(s, front);
      ChildStays(before, evs[n], s', t, p);
    }
  }

  predicate StillThere(o: Outcome, t: Tid, p: Tid) { o.Next? ==> !Ended(o.s, p) && t in o.s.thrtab }

  /** A thread that spawns another one and joins it after any run, in which it has not exited and the
      slot has not been freed, is never refused: it waits, unless the other has exited already. */
  lemma JoinAfterSpawn(s: Sched, tid: Tid, s1: Sched, evs: seq<Event>, s2: Sched, s3: Sched)
    requires Inv(s) && s.cur != IDLE_TID && Spawn(s) == Next(s1) && tid !in s.thrtab && tid in s1.thrtab
    requires Feasible(s1, evs) && Run(s1, evs) == Next(s2) && s2.cur == s.cur
    requires forall k :: 0 <= k <= |evs| ==> StillThere(Run(s1, evs[..k]), tid, s.cur)
    requires Join(s2, tid) == Next(s3)
    ensures IsChild(s2, tid, s.cur)
    ensures if Ended(s2, tid) then HasFreed(s2, tid, s3) else HasBlocked(s2, ChildExit(s.cur), Joining(tid), s3)
  {
    hide ListsOk, JoinsOk, ParentsOk, FixedThreadsOk, Run, Feasible, Join, StillThere, HasFreed, HasBlocked, Spawn;
    var child := SpawnEffect(s);
    SpawnKeeps(s);
    assert s.cur in s1.thrtab;
    ChildOverRun(s1, evs, s2, tid, s.cur);
    RunKeeps(s1, evs);
    JoinEffect(s2, tid, s3);
  }
}
