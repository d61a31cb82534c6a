/** The cooperative scheduler of thread.c as a machine over kernel events. A thread runs until it
    suspends; interrupt service routines only broadcast. The assertions and panics of the code are
    outcomes of the machine, so that their absence can be proved. */
module Scheduler {
  import opened Common

  type Tid = nat

  const NTHR: nat := 16
  const MAIN_TID: Tid := 0
  const IDLE_TID: Tid := 15

  /** A thread's child_exit condition, or a condition of a driver, lock or alarm. */
  datatype Cond = ChildExit(tid: Tid) | External(id: nat)

  datatype RunState = Waiting | Running | Ready | Exited

  /** Where a thread resumes after condition_wait: in the loop of thread_join, in the second half of
      thread_join_any, or in code outside thread.c. */
  datatype Activity = Outside | Joining(child: Tid) | JoiningAny

  datatype Thread = Thread(state: RunState, parent: Option<Tid>, waitCond: Option<Cond>, activity: Activity)

  datatype Sched = Sched(
    thrtab: map<Tid, Thread>,
    cur: Tid,
    ready: seq<Tid>,
    waiting: map<Cond, seq<Tid>>)

  datatype Reason =
    | TooManyThreads | Childless                                  // panics a caller can provoke
    | ReadyListEmpty | NotReady | NotWaiting | NoParent | NotExited | Spurious   // assertions

  datatype Outcome = Next(s: Sched) | Panic(reason: Reason) | Halt

  // --- the functions of thread.c ---

  function Waiters(s: Sched, c: Cond): seq<Tid> { if c in s.waiting then s.waiting[c] else [] }

  function SetState(th: Thread, st: RunState): Thread { Thread(st, th.parent, th.waitCond, th.activity) }

  function SetActivity(s: Sched, a: Activity): Sched {
    if s.cur in s.thrtab then
      var th := s.thrtab[s.cur];
      Sched(s.thrtab[s.cur := Thread(th.state, th.parent, th.waitCond, a)], s.cur, s.ready, s.waiting)
    else s
  }

  /** suspend_self: the head of the ready list runs; a thread that could go on goes to its tail. */
  function SuspendSelf(s: Sched): Outcome {
    if s.ready == [] then Panic(ReadyListEmpty)
    else
      var next := s.ready[0];
      if next !in s.thrtab || s.cur !in s.thrtab || !s.thrtab[next].state.Ready? then Panic(NotReady)
      else
        var tab := s.thrtab[next := SetState(s.thrtab[next], Running)];
        if tab[s.cur].state.Running? then
          Next(Sched(tab[s.cur := SetState(tab[s.cur], Ready)], next, s.ready[1..] + [s.cur], s.waiting))
        else
          Next(Sched(tab, next, s.ready[1..], s.waiting))
  }

  /** Threads that wait for c become ready. */
  function Woken(th: Thread): Thread { Thread(Ready, th.parent, None, th.activity) }

  /** condition_broadcast. */
  function Broadcast(s: Sched, c: Cond): Outcome {
    var ws := Waiters(s, c);
    if ws == [] then Next(s)
    else if exists t :: t in ws && (t !in s.thrtab || s.thrtab[t].state != Waiting || s.thrtab[t].waitCond != Some(c))
    then Panic(NotWaiting)
    else Next(Sched(map t | t in s.thrtab :: if t in ws then Woken(s.thrtab[t]) else s.thrtab[t],
                    s.cur, s.ready + ws, s.waiting[c := []]))
  }

  /** condition_wait, with what the thread is to do when it runs again. */
  function Wait(s: Sched, c: Cond, a: Activity): Outcome {
    if s.cur !in s.thrtab then Panic(NotReady)
    else
      SuspendSelf(Sched(s.thrtab[s.cur := Thread(Waiting, s.thrtab[s.cur].parent, Some(c), a)],
                        s.cur, s.ready, s.waiting[c := Waiters(s, c) + [s.cur]]))
  }

  /** The first free slot of thrtab from tid on; NTHR when there is none. */
  function FreeSlot(s: Sched, tid: Tid): (t: Tid)
    requires tid <= NTHR
    ensures tid <= t <= NTHR && (t < NTHR ==> t !in s.thrtab)
    ensures forall u :: tid <= u < t ==> u in s.thrtab
    decreases NTHR - tid
  {
    if tid == NTHR || tid !in s.thrtab then tid else FreeSlot(s, tid + 1)
  }

  function Spawn(s: Sched): Outcome {
    var tid := FreeSlot(s, 1);
    if tid == NTHR then Panic(TooManyThreads)
    else Next(Sched(s.thrtab[tid := Thread(Ready, Some(s.cur), None, Outside)], s.cur, s.ready + [tid], s.waiting))
  }

  /** thread_exit. */
  function Exit(s: Sched): Outcome {
    if s.cur == MAIN_TID then Halt
    else if s.cur !in s.thrtab || s.thrtab[s.cur].parent.None? then Panic(NoParent)
    else
      var exited := Sched(s.thrtab[s.cur := SetState(s.thrtab[s.cur], Exited)], s.cur, s.ready, s.waiting);
      var told := Broadcast(exited, ChildExit(s.thrtab[s.cur].parent.value));
      if told.Next? then SuspendSelf(told.s) else told
  }

  predicate IsChild(s: Sched, t: Tid, p: Tid) { t in s.thrtab && s.thrtab[t].parent == Some(p) }

  /** recycle_thread: the children of tid become children of its parent, and its slot is free. */
  function Recycle(s: Sched, tid: Tid): Outcome {
    if tid !in s.thrtab || s.thrtab[tid].state != Exited then Panic(NotExited)
    else
      var heir := s.thrtab[tid].parent;
      Next(Sched(map t | t in s.thrtab && t != tid ::
                   if s.thrtab[t].parent == Some(tid)
                   then Thread(s.thrtab[t].state, heir, s.thrtab[t].waitCond, s.thrtab[t].activity)
                   else s.thrtab[t],
                 s.cur, s.ready, s.waiting))
  }

  /** The loop of thread_join, for a child of the current thread. */
  function JoinLoop(s: Sched, tid: Tid): Outcome {
    if tid !in s.thrtab then Panic(NotExited)
    else if s.thrtab[tid].state != Exited then Wait(s, ChildExit(s.cur), Joining(tid))
    else Recycle(SetActivity(s, Outside), tid)
  }

  /** thread_join: -1, and no effect, when tid is not a child of the current thread. */
  function Join(s: Sched, tid: Tid): Outcome {
    if tid == 0 || NTHR <= tid || !IsChild(s, tid, s.cur) then Next(s) else JoinLoop(s, tid)
  }

  /** The scan over thrtab for an exited child of the current thread; NTHR when there is none. */
  function ExitedChild(s: Sched, tid: Tid): (t: Tid)
    requires tid <= NTHR
    ensures tid <= t <= NTHR
    ensures t < NTHR ==> IsChild(s, t, s.cur) && s.thrtab[t].state.Exited?
    ensures forall u :: tid <= u < t && IsChild(s, u, s.cur) ==> !s.thrtab[u].state.Exited?
    decreases NTHR - tid
  {
    if tid == NTHR || (IsChild(s, tid, s.cur) && s.thrtab[tid].state.Exited?) then tid
    else ExitedChild(s, tid + 1)
  }

  predicate HasChild(s: Sched) { exists t | 1 <= t < NTHR :: IsChild(s, t, s.cur) }

  function JoinAny(s: Sched): Outcome {
    var tid := ExitedChild(s, 1);
    if tid < NTHR then JoinLoop(s, tid)
    else if !HasChild(s) then Panic(Childless)
    else Wait(s, ChildExit(s.cur), JoiningAny)
  }

  /** The second half of thread_join_any. */
  function JoinAnyResumed(s: Sched): Outcome {
    var tid := ExitedChild(s, 1);
    if tid < NTHR then Recycle(SetActivity(s, Outside), tid) else Panic(Spurious)
  }

  // --- events ---

  datatype Event =
    | SpawnEvent | ExitEvent | YieldEvent | WaitEvent(id: nat) | JoinEvent(tid: Tid) | JoinAnyEvent
    | ResumeEvent                       // the current thread goes on inside a join
    | BroadcastEvent(id: nat)           // by the current thread or by an ISR, at any time

  /** What can happen in s: a thread inside a join can only go on with it; the idle thread yields,
      when there is someone to yield to, and does nothing else. */
  predicate Enabled(s: Sched, ev: Event) {
    ev.BroadcastEvent? ||
    (s.cur in s.thrtab &&
     if s.cur == IDLE_TID then ev.YieldEvent? && s.ready != []
     else if s.thrtab[s.cur].activity.Outside? then !ev.ResumeEvent?
     else ev.ResumeEvent?)
  }

  function Resume(s: Sched): Outcome {
    if s.cur !in s.thrtab then Next(s)
    else match s.thrtab[s.cur].activity
      case Outside => Next(s)
      case Joining(tid) => JoinLoop(s, tid)
      case JoiningAny => JoinAnyResumed(s)
  }

  function Step(s: Sched, ev: Event): Outcome {
    match ev
    case SpawnEvent => Spawn(s)
    case ExitEvent => Exit(s)
    case YieldEvent => SuspendSelf(s)
    case WaitEvent(id) => Wait(s, External(id), Outside)
    case JoinEvent(tid) => Join(s, tid)
    case JoinAnyEvent => JoinAny(s)
    case ResumeEvent => Resume(s)
    case BroadcastEvent(id) => Broadcast(s, External(id))
  }

  /** thread_init: the main thread runs, the idle thread is ready. */
  const INIT := Sched(
    map[MAIN_TID := Thread(Running, None, None, Outside), IDLE_TID := Thread(Ready, Some(MAIN_TID), None, Outside)],
    MAIN_TID, [IDLE_TID], map[])
}
