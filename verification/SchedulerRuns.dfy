/** Spawning, joining and whole runs of the scheduler: no assertion fails, no wakeup is lost, the
    parents form a tree, and every ready thread runs in its turn. */
module SchedulerRuns {
  import opened Common
  import opened Scheduler
  import opened SchedulerInvariant

  // --- thread_spawn ---

  /** A slot that thread_spawn fills has no waiters left over from its last owner. */
  lemma FreshConditionEmpty(s: Sched, tid: Tid)
    requires Inv(s) && tid !in s.thrtab
    ensures Waiters(s, ChildExit(tid)) == []
  {
    hide NoDup, ParentsOk, FixedThreadsOk;
    var ws := Waiters(s, ChildExit(tid));
    assert forall t :: t in s.thrtab ==> JoinOk(s, t) && !WaitsFor(s, t, ChildExit(tid));
    HeadIsIn(ws);
  }

  lemma HeadIsIn(q: seq<Tid>)
    ensures q == [] || q[0] in q
  {
  }

  predicate Spawned(s: Sched, tid: Tid, s': Sched) {
    && 1 <= tid < NTHR && tid !in s.thrtab
    && s' == Sched(s.thrtab[tid := Thread(Ready, Some(s.cur), None, Outside)], s.cur, s.ready + [tid], s.waiting)
  }

  lemma SpawnedLists(s: Sched, tid: Tid, s': Sched)
    requires Inv(s) && Spawned(s, tid, s')
    ensures ListsOk(s')
  {
    hide NoDup, JoinsOk, ParentsOk, FixedThreadsOk;
    forall t ensures t in s'.ready <==> InState(s', t, Ready) {
      assert t in s.ready <==> InState(s, t, Ready);
    }
    assert forall c :: Waiters(s', c) == Waiters(s, c);
    forall c, t ensures t in Waiters(s', c) <==> WaitsFor(s', t, c) {
      assert t in Waiters(s, c) <==> WaitsFor(s, t, c);
    }
    assert tid in s.ready <==> InState(s, tid, Ready);
    NoDupOne(tid);
    NoDupAppend(s.ready, [tid]);
  }

  lemma SpawnedJoins(s: Sched, tid: Tid, s': Sched)
    requires Inv(s) && Spawned(s, tid, s')
    ensures JoinsOk(s')
  {
    hide NoDup, ListsOk, ParentsOk, FixedThreadsOk;
    assert forall t, p :: IsChild(s, t, p) ==> IsChild(s', t, p);
    assert forall t, p :: IsChild(s', t, p) ==> IsChild(s, t, p) || t == tid;
    assert forall t :: Ended(s', t) <==> Ended(s, t);
    forall t | t in s'.thrtab ensures JoinOk(s', t) {
      if t != tid {
        assert JoinOk(s, t);
      }
    }
  }

  lemma SpawnedParents(s: Sched, tid: Tid, s': Sched)
    requires Inv(s) && Spawned(s, tid, s')
    ensures ParentsOk(s')
  {
    hide NoDup, ListsOk, JoinsOk;
    var rank :| Ranked(s, rank);
    var r := if s.cur in rank then rank[s.cur] else 0;
    assert Ranked(s', rank[s.cur := r][tid := r + 1]);
  }

  /** Given memory for the new thread and its stack. */
  lemma SpawnKeeps(s: Sched)
    requires Inv(s)
    ensures Spawn(s) == Panic(TooManyThreads) || (Spawn(s).Next? && Inv(Spawn(s).s))
  {
    hide NoDup, ListsOk, JoinsOk, ParentsOk;
    var tid := FreeSlot(s, 1);
    if tid < NTHR {
      var s' := Spawn(s).s;
      SpawnedLists(s, tid, s');
      SpawnedJoins(s, tid, s');
      SpawnedParents(s, tid, s');
      forall t | InState(s', t, Running) ensures t == s'.cur {
        assert InState(s, t, Running);
      }
    }
  }

  // --- recycle_thread, called by the parent ---

  predicate Recycled(s: Sched, tid: Tid, s': Sched) {
    IsChild(s, tid, s.cur) && Ended(s, tid) && s.cur in s.thrtab && Recycle(SetActivity(s, Outside), tid) == Next(s')
  }

  /** The threads after the recycling, in terms of those before. */
  lemma RecycledThread(s: Sched, tid: Tid, s': Sched, t: Tid)
    requires Inv(s) && Recycled(s, tid, s')
    ensures s'.cur == s.cur && s'.ready == s.ready && s'.waiting == s.waiting
    ensures t in s'.thrtab <==> t in s.thrtab && t != tid
    ensures t in s'.thrtab ==>
              && s'.thrtab[t].state == s.thrtab[t].state && s'.thrtab[t].waitCond == s.thrtab[t].waitCond
              && s'.thrtab[t].activity == (if t == s.cur then Outside else s.thrtab[t].activity)
              && s'.thrtab[t].parent == (if s.thrtab[t].parent == Some(tid) then Some(s.cur) else s.thrtab[t].parent)
  {
    hide Inv, NoDup, ListsOk, JoinsOk, ParentsOk, FixedThreadsOk;
  }

  lemma RecycledThreads(s: Sched, tid: Tid, s': Sched)
    requires Inv(s) && Recycled(s, tid, s')
    ensures s'.cur == s.cur && s'.ready == s.ready && s'.waiting == s.waiting && tid != s.cur
    ensures forall t :: t in s'.thrtab <==> t in s.thrtab && t != tid
    ensures forall t :: t in s'.thrtab ==> s'.thrtab[t].state == s.thrtab[t].state
    ensures forall t :: t in s'.thrtab ==> s'.thrtab[t].waitCond == s.thrtab[t].waitCond
    ensures forall t :: t in s'.thrtab ==> s'.thrtab[t].activity == if t == s.cur then Outside else s.thrtab[t].activity
    ensures forall t :: t in s'.thrtab ==>
              s'.thrtab[t].parent == if s.thrtab[t].parent == Some(tid) then Some(s.cur) else s.thrtab[t].parent
  {
    hide NoDup, ListsOk, JoinsOk, ParentsOk, FixedThreadsOk, Recycle, SetActivity;
    forall t { RecycledThread(s, tid, s', t); }
  }

  lemma RecycledLists(s: Sched, tid: Tid, s': Sched)
    requires Inv(s) && Recycled(s, tid, s')
    ensures ListsOk(s')
  {
    hide NoDup, JoinsOk, ParentsOk, FixedThreadsOk, Recycle, SetActivity;
    RecycledThreads(s, tid, s');
    forall t ensures t in s'.ready <==> InState(s', t, Ready) {
      assert t in s.ready <==> InState(s, t, Ready);
    }
    assert forall c :: Waiters(s', c) == Waiters(s, c);
    forall c, t ensures t in Waiters(s', c) <==> WaitsFor(s', t, c) {
      assert t in Waiters(s, c) <==> WaitsFor(s, t, c);
    }
  }

  lemma RecycledJoins(s: Sched, tid: Tid, s': Sched)
    requires Inv(s) && Recycled(s, tid, s')
    ensures JoinsOk(s')
  {
    hide NoDup, ListsOk, ParentsOk, FixedThreadsOk, Recycle, SetActivity;
    RecycledThreads(s, tid, s');
    forall t | t in s'.thrtab ensures JoinOk(s', t) {
      assert JoinOk(s, t);
      assert t != s.cur ==> forall u :: IsChild(s', u, t) <==> IsChild(s, u, t);
      assert forall u :: u != tid ==> (Ended(s', u) <==> Ended(s, u));
    }
  }

  lemma RecycledParents(s: Sched, tid: Tid, s': Sched)
    requires Inv(s) && Recycled(s, tid, s')
    ensures ParentsOk(s')
  {
    hide NoDup, ListsOk, JoinsOk, FixedThreadsOk, Recycle, SetActivity;
    RecycledThreads(s, tid, s');
    var rank :| Ranked(s, rank);
    assert Ranked(s', rank);
  }

  lemma RecycleKeeps(s: Sched, tid: Tid)
    requires Inv(s) && IsChild(s, tid, s.cur) && Ended(s, tid)
    ensures Recycle(SetActivity(s, Outside), tid).Next? && Inv(Recycle(SetActivity(s, Outside), tid).s)
  {
    hide NoDup, ListsOk, JoinsOk, ParentsOk;
    var s' := Recycle(SetActivity(s, Outside), tid).s;
    hide Recycle, SetActivity;
    RecycledThreads(s, tid, s');
    RecycledLists(s, tid, s');
    RecycledJoins(s, tid, s');
    RecycledParents(s, tid, s');
    forall t | InState(s', t, Running) ensures t == s'.cur {
      assert InState(s, t, Running);
    }
    assert FixedThreadsOk(s');
  }

  // --- joins ---

  lemma JoinLoopKeeps(s: Sched, tid: Tid)
    requires Inv(s) && IsChild(s, tid, s.cur) && s.cur != IDLE_TID
    ensures JoinLoop(s, tid).Next? && Inv(JoinLoop(s, tid).s)
  {
    hide ListsOk, JoinsOk, ParentsOk, FixedThreadsOk, Wait, Recycle, SetActivity;
    if Ended(s, tid) { RecycleKeeps(s, tid); } else { WaitKeeps(s, ChildExit(s.cur), Joining(tid)); }
  }

  lemma NoExitedChild(s: Sched)
    requires Inv(s) && ExitedChild(s, 1) == NTHR
    ensures NoEndedChild(s, s.cur)
  {
    hide ListsOk, JoinsOk, ParentsOk;
    forall t: Tid | t in s.thrtab && IsChild(s, t, s.cur) ensures !Ended(s, t) {
      assert 1 <= t < NTHR;
    }
  }

  lemma JoinAnyKeeps(s: Sched)
    requires Inv(s) && s.cur != IDLE_TID
    ensures JoinAny(s) == Panic(Childless) || (JoinAny(s).Next? && Inv(JoinAny(s).s))
  {
    hide ListsOk, JoinsOk, ParentsOk, FixedThreadsOk, Wait, JoinLoop;
    var tid := ExitedChild(s, 1);
    if tid < NTHR {
      JoinLoopKeeps(s, tid);
    } else if HasChild(s) {
      NoExitedChild(s);
      WaitKeeps(s, ChildExit(s.cur), JoiningAny);
    }
  }

  /** The panic "spurious child_exit signal" cannot be reached. */
  lemma JoinAnyResumedKeeps(s: Sched)
    requires Inv(s) && s.thrtab[s.cur].activity.JoiningAny?
    ensures JoinAnyResumed(s).Next? && Inv(JoinAnyResumed(s).s)
  {
    hide ListsOk, ParentsOk, FixedThreadsOk, Recycle, SetActivity;
    assert JoinOk(s, s.cur);
    var tid := ExitedChild(s, 1);
    if tid == NTHR { NoExitedChild(s); }
    RecycleKeeps(s, tid);
  }

  // --- every step ---

  predicate Safe(o: Outcome) { o.Next? || o.Halt? || o == Panic(TooManyThreads) || o == Panic(Childless) }

  lemma ResumeKeeps(s: Sched)
    requires Inv(s) && s.cur != IDLE_TID
    ensures Resume(s).Next? && Inv(Resume(s).s)
  {
    hide ListsOk, ParentsOk, JoinLoop, JoinAnyResumed, FixedThreadsOk;
    assert JoinOk(s, s.cur);
    match s.thrtab[s.cur].activity
    case Outside =>
    case Joining(tid) => JoinLoopKeeps(s, tid);
    case JoiningAny => JoinAnyResumedKeeps(s);
  }

  lemma YieldKeeps(s: Sched)
    requires Inv(s) && Enabled(s, YieldEvent)
    ensures SuspendSelf(s).Next? && Inv(SuspendSelf(s).s)
  {
    hide ListsOk, JoinsOk, ParentsOk, SuspendSelf, FixedThreadsOk;
    if s.cur != IDLE_TID { ReadyNotEmpty(s); }
    SuspendKeeps(s);
  }

  /** No step fails an assertion: the invariant holds after it, or the main thread has exited, or
      the kernel panics, given memory exactly when a thread is spawned with every slot taken or
      joins any child without having one. */
  lemma StepKeeps(s: Sched, ev: Event)
    requires Inv(s) && Enabled(s, ev)
    ensures Safe(Step(s, ev)) && (Step(s, ev).Next? ==> Inv(Step(s, ev).s))
    ensures Step(s, ev).Halt? <==> ev.ExitEvent? && s.cur == MAIN_TID
    ensures Step(s, ev) == Panic(TooManyThreads) <==>
              ev.SpawnEvent? && forall t: Tid :: t < NTHR && t != MAIN_TID ==> t in s.thrtab
    ensures Step(s, ev) == Panic(Childless) <==> ev.JoinAnyEvent? && forall t :: !IsChild(s, t, s.cur)
  {
    hide ListsOk, JoinsOk, ParentsOk, SuspendSelf, Wait, Broadcast, Spawn, JoinLoop, JoinAny, Resume, Exit;
    match ev
    case SpawnEvent => SpawnKeeps(s); SpawnPanics(s);
    case ExitEvent => ExitKeeps(s);
    case YieldEvent => YieldKeeps(s);
    case WaitEvent(id) => WaitKeeps(s, External(id), Outside);
    case JoinEvent(tid) => if IsChild(s, tid, s.cur) { JoinLoopKeeps(s, tid); }
    case JoinAnyEvent => JoinAnyKeeps(s); JoinAnyPanics(s);
    case ResumeEvent => ResumeKeeps(s);
    case BroadcastEvent(id) => ExternalBroadcastKeeps(s, id);
  }

  lemma SpawnPanics(s: Sched)
    ensures Spawn(s) == Panic(TooManyThreads) <==> forall t: Tid :: t < NTHR && t != MAIN_TID ==> t in s.thrtab
  {
    var tid := FreeSlot(s, 1);
    assert forall t :: 1 <= t < tid ==> t in s.thrtab;
  }

  lemma JoinAnyPanics(s: Sched)
    requires Inv(s)
    ensures JoinAny(s) == Panic(Childless) <==> forall t :: !IsChild(s, t, s.cur)
  {
    hide ListsOk, JoinsOk, ParentsOk, Wait, JoinLoop, Inv;
    var tid := ExitedChild(s, 1);
    if tid < NTHR {
      JoinLoopPanics(s, tid);
    } else {
      WaitPanics(s, ChildExit(s.cur), JoiningAny);
      ChildrenInTable(s);
    }
  }

  lemma ChildrenInTable(s: Sched)
    requires Inv(s)
    ensures forall t: Tid :: IsChild(s, t, s.cur) ==> 1 <= t < NTHR
  {
    hide ListsOk, JoinsOk, ParentsOk;
  }

  lemma WaitPanics(s: Sched, c: Cond, a: Activity)
    ensures Wait(s, c, a) != Panic(Childless)
  {
  }

  lemma JoinLoopPanics(s: Sched, tid: Tid)
    ensures JoinLoop(s, tid) != Panic(Childless)
  {
  }

  // --- runs ---

  function Run(s: Sched, evs: seq<Event>): Outcome {
    if evs == [] then Next(s)
    else
      var o := Run(s, evs[..|evs| - 1]);
      if o.Next? then Step(o.s, evs[|evs| - 1]) else o
  }

  /** Every event happens in a state in which it can. */
  predicate Feasible(s: Sched, evs: seq<Event>) {
    evs == [] ||
    (Feasible(s, evs[..|evs| - 1]) &&
     var o := Run(s, evs[..|evs| - 1]);
     o.Next? && Enabled(o.s, evs[|evs| - 1]))
  }

  lemma {:induction false} RunKeeps(s: Sched, evs: seq<Event>)
    requires Inv(s) && Feasible(s, evs)
    ensures Safe(Run(s, evs)) && (Run(s, evs).Next? ==> Inv(Run(s, evs).s))
  {
    hide Inv, Step, Enabled;
    if evs != [] {
      RunKeeps(s, evs[..|evs| - 1]);
      StepKeeps(Run(s, evs[..|evs| - 1]).s, evs[|evs| - 1]);
    }
  }

  ghost predicate Reachable(s: Sched) { exists evs :: Feasible(INIT, evs) && Run(INIT, evs) == Next(s) }

  lemma ReachableInv(s: Sched)
    requires Reachable(s)
    ensures Inv(s)
  {
    hide Inv, Run, Feasible;
    var evs :| Feasible(INIT, evs) && Run(INIT, evs) == Next(s);
    InitInv();
    RunKeeps(INIT, evs);
  }

  /** The scheduler's lists in every reachable state. */
  lemma ListsAreExact(s: Sched, t: Tid)
    requires Reachable(s)
    ensures InState(s, t, Running) <==> t == s.cur
    ensures multiset(s.ready)[t] == if InState(s, t, Ready) then 1 else 0
    ensures forall c :: multiset(Waiters(s, c))[t] == if WaitsFor(s, t, c) then 1 else 0
    ensures s.cur == IDLE_TID || s.ready != []
  {
    hide Reachable, JoinsOk, ParentsOk, WaitsFor, NoDup, Waiters;
    ReachableInv(s);
    if s.cur != IDLE_TID { ReadyNotEmpty(s); }
    NoDupCount(s.ready, t);
    forall c { NoDupCount(Waiters(s, c), t); }
  }

  lemma {:induction false} NoDupCount(q: seq<Tid>, t: Tid)
    requires NoDup(q)
    ensures multiset(q)[t] == if t in q then 1 else 0
  {
    if q != [] {
      NoDupTail(q);
      NoDupCount(q[1..], t);
      assert q == [q[0]] + q[1..];
    }
  }

  /** No child-exit wakeup is lost. */
  lemma NoLostExit(s: Sched, t: Tid)
    requires Reachable(s) && InState(s, t, Waiting)
    ensures s.thrtab[t].activity.Joining? ==>
              IsChild(s, s.thrtab[t].activity.child, t) && !Ended(s, s.thrtab[t].activity.child)
    ensures s.thrtab[t].activity.JoiningAny? ==> forall u :: IsChild(s, u, t) ==> !Ended(s, u)
    ensures !s.thrtab[t].activity.Outside? ==> t in Waiters(s, ChildExit(t))
  {
    hide Reachable, ParentsOk, FixedThreadsOk, NoDup;
    ReachableInv(s);
    assert JoinOk(s, t);
  }

  // --- the tree of parents ---

  /** n steps up from t. */
  function Ancestor(s: Sched, t: Tid, n: nat): Option<Tid>
    decreases n
  {
    if n == 0 then Some(t)
    else if t in s.thrtab && s.thrtab[t].parent.Some? then Ancestor(s, s.thrtab[t].parent.value, n - 1)
    else None
  }

  lemma {:induction false} RankedReachesMain(s: Sched, rank: map<Tid, nat>, t: Tid) returns (n: nat)
    requires FixedThreadsOk(s) && Ranked(s, rank) && t in s.thrtab
    ensures Ancestor(s, t, n) == Some(MAIN_TID)
    decreases if t in rank then rank[t] else 0
  {
    if t == MAIN_TID { return 0; }
    var k := RankedReachesMain(s, rank, s.thrtab[t].parent.value);
    return k + 1;
  }

  /** In every reachable state the parents lead from every thread to the main thread, which has
      none, through threads of thrtab. */
  lemma ParentsFormATree(s: Sched, t: Tid)
    requires Reachable(s) && t in s.thrtab
    ensures exists n :: Ancestor(s, t, n) == Some(MAIN_TID)
    ensures MAIN_TID in s.thrtab && s.thrtab[MAIN_TID].parent == None
    ensures t != MAIN_TID ==> t < NTHR && s.thrtab[t].parent.Some? && s.thrtab[t].parent.value in s.thrtab
  {
    hide Reachable, ListsOk, JoinsOk, NoDup, Ancestor;
    ReachableInv(s);
    var rank :| Ranked(s, rank);
    var n := RankedReachesMain(s, rank, t);
  }

  // --- bounded waiting ---

  /** s' follows s by a step that suspends the current thread, or by one that does not. */
  predicate Turn(s: Sched, s': Sched) {
    if s'.cur == s.cur then s.ready <= s'.ready
    else s.ready != [] && s'.cur == s.ready[0] && s.ready[1..] <= s'.ready
  }

  lemma SuspendTurn(s: Sched, s': Sched)
    requires MidInv(s) && SuspendSelf(s) == Next(s')
    ensures s.ready != [] && s'.cur == s.ready[0] && s'.cur != s.cur && s.ready[1..] <= s'.ready
  {
    hide ListsOk, JoinsOk, ParentsOk, FixedThreadsOk;
    SuspendNext(s);
  }

  lemma ExitTurn(s: Sched, s': Sched)
    requires Inv(s) && s.cur != IDLE_TID && Exit(s) == Next(s')
    ensures Turn(s, s')
  {
    hide JoinsOk, ParentsOk, NoDup, WaitsFor, InState, Waiters;
    ReadyNotEmpty(s);
  }

  lemma WaitTurn(s: Sched, c: Cond, a: Activity, s': Sched)
    requires Wait(s, c, a) == Next(s')
    ensures Turn(s, s')
  {
  }

  lemma JoinLoopTurn(s: Sched, tid: Tid, s': Sched)
    requires JoinLoop(s, tid) == Next(s')
    ensures Turn(s, s')
  {
    hide Wait;
    if tid in s.thrtab && s.thrtab[tid].state != Exited { WaitTurn(s, ChildExit(s.cur), Joining(tid), s'); }
  }

  lemma StepTurn(s: Sched, ev: Event, s': Sched)
    requires Inv(s) && Enabled(s, ev) && Step(s, ev) == Next(s')
    ensures Turn(s, s')
  {
    hide ListsOk, JoinsOk, ParentsOk, Wait, JoinLoop, Exit, SuspendSelf, FixedThreadsOk, Turn;
    match ev
    case ExitEvent => ExitTurn(s, s');
    case YieldEvent => SuspendTurn(s, s'); TurnOf(s, s');
    case WaitEvent(id) => WaitTurn(s, External(id), Outside, s');
    case JoinEvent(tid) => if s' == s { TurnOf(s, s'); } else { JoinLoopTurn(s, tid, s'); }
    case JoinAnyEvent => JoinAnyTurn(s, s');
    case ResumeEvent => ResumeTurn(s, s');
    case SpawnEvent => TurnOf(s, s');
    case BroadcastEvent(id) => TurnOf(s, s');
  }

  lemma TurnOf(s: Sched, s': Sched)
    requires if s'.cur == s.cur then s.ready <= s'.ready
             else s.ready != [] && s'.cur == s.ready[0] && s.ready[1..] <= s'.ready
    ensures Turn(s, s')
  {
  }

  lemma JoinAnyTurn(s: Sched, s': Sched)
    requires JoinAny(s) == Next(s')
    ensures Turn(s, s')
  {
    hide Wait, JoinLoop, Turn;
    var tid := ExitedChild(s, 1);
    if tid < NTHR { JoinLoopTurn(s, tid, s'); } else { WaitTurn(s, ChildExit(s.cur), JoiningAny, s'); }
  }

  lemma ResumeTurn(s: Sched, s': Sched)
    requires Resume(s) == Next(s')
    ensures Turn(s, s')
  {
    hide Wait, JoinLoop;
    if s.cur in s.thrtab && s.thrtab[s.cur].activity.Joining? {
      JoinLoopTurn(s, s.thrtab[s.cur].activity.child, s');
    }
  }

  /** How often a run suspends the current thread. */
  function Suspensions(s: Sched, evs: seq<Event>): nat {
    if evs == [] then 0
    else
      var o := Run(s, evs[..|evs| - 1]);
      var o' := Run(s, evs);
      Suspensions(s, evs[..|evs| - 1]) + if o.Next? && o'.Next? && o'.s.cur != o.s.cur then 1 else 0
  }

  /** The thread at index k of the ready list runs from the (k+1)-th suspension on, up to the next
      one, and not before, whatever is spawned or woken in the meantime. */
  lemma {:induction false} BoundedWaiting(s: Sched, evs: seq<Event>, k: nat, s': Sched)
    requires Inv(s) && Feasible(s, evs) && Run(s, evs) == Next(s') && k < |s.ready|
    ensures var n := Suspensions(s, evs);
            && (n <= k ==> k - n < |s'.ready| && s'.ready[k - n] == s.ready[k] && s'.cur != s.ready[k])
            && (n == k + 1 ==> s'.cur == s.ready[k])
  {
    hide Inv, Step, Enabled;
    if evs == [] {
      HeadNotCurrent(s, k);
    } else {
      var front := evs[..|evs| - 1];
      var mid := Run(s, front).s;
      BoundedWaiting(s, front, k, mid);
      RunKeeps(s, front);
      RunKeeps(s, evs);
      StepTurn(mid, evs[|evs| - 1], s');
      var n := Suspensions(s, evs);
      if n <= k { HeadNotCurrent(s', k - n); }
    }
  }

  lemma HeadNotCurrent(s: Sched, k: nat)
    requires Inv(s) && k < |s.ready|
    ensures s.ready[k] != s.cur
  {
    hide JoinsOk, ParentsOk, FixedThreadsOk, NoDup;
    assert s.ready[k] in s.ready;
  }

  /** Every suspension starts a turn of another thread, so Suspensions counts them all. */
  lemma SuspendsSwitch(s: Sched, s': Sched)
    requires MidInv(s) && SuspendSelf(s) == Next(s')
    ensures s'.cur != s.cur && InState(s, s'.cur, Ready)
  {
    hide ListsOk, JoinsOk, ParentsOk, FixedThreadsOk;
    SuspendNext(s);
  }

  /** Threads woken together become ready in the order in which they began to wait. */
  lemma WakesInOrder(s: Sched, c: Cond)
    requires Inv(s)
    ensures Broadcast(s, c).Next? && Broadcast(s, c).s.ready == s.ready + Waiters(s, c)
    ensures Waiters(Broadcast(s, c).s, c) == []
    ensures forall d :: d != c ==> Waiters(Broadcast(s, c).s, d) == Waiters(s, d)
  {
    hide JoinsOk, ParentsOk, FixedThreadsOk, ListsOk;
    BroadcastRuns(s, c);
  }
}
