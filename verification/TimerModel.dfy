/** The alarm list of timer.c as a machine over its events: sleeps and timer interrupts. */
module TimerModel {
  import opened Common

  const UINT64_MAX: nat := 0xFFFF_FFFF_FFFF_FFFF
  const TICK_PERIOD: nat := 200_000

  /** A sleeping alarm and its wake-up time. */
  datatype Sleeper<A> = Sleeper(alarm: A, twake: nat)

  datatype State<A> = State(
    sleepers: seq<Sleeper<A>>,      // the sleep list
    nextTick: nat,
    mtcmp: nat)                     // the programmed compare value

  // --- wake-up times ---

  /** twake + tcnt, or UINT64_MAX where that wraps around. */
  function Advance(twake: nat, tcnt: nat): nat
    requires twake <= UINT64_MAX
  {
    if UINT64_MAX - twake < tcnt then UINT64_MAX else twake + tcnt
  }

  function AdvanceAll(start: nat, counts: seq<nat>): (t: nat)
    requires start <= UINT64_MAX
    ensures t <= UINT64_MAX
  {
    if counts == [] then start else Advance(AdvanceAll(start, counts[..|counts| - 1]), counts[|counts| - 1])
  }

  /** Saturation never loses its effect: any run of sleeps ends at the true sum or at the maximum. */
  lemma {:induction false} SleepsAddUp(start: nat, counts: seq<nat>)
    requires start <= UINT64_MAX
    ensures AdvanceAll(start, counts) == if start + Sum(counts) <= UINT64_MAX then start + Sum(counts) else UINT64_MAX
  {
    if counts != [] { SleepsAddUp(start, counts[..|counts| - 1]); }
  }

  // --- the list ---

  predicate Sorted<A>(s: seq<Sleeper<A>>) {
    forall i, j :: 0 <= i < j < |s| ==> s[i].twake <= s[j].twake
  }

  /** Where a new alarm goes: in front of the first one that does not wake before it. */
  function InsertPos<A>(s: seq<Sleeper<A>>, t: nat): (k: nat)
    ensures k <= |s| && (forall i :: 0 <= i < k ==> s[i].twake < t) && (k < |s| ==> t <= s[k].twake)
  {
    if s == [] || t <= s[0].twake then 0 else 1 + InsertPos(s[1..], t)
  }

  /** How many alarms at the head of the list are due. */
  function Due<A>(s: seq<Sleeper<A>>, now: nat): (k: nat)
    ensures k <= |s| && (forall i :: 0 <= i < k ==> s[i].twake <= now) && (k < |s| ==> now < s[k].twake)
  {
    if s == [] || now < s[0].twake then 0 else 1 + Due(s[1..], now)
  }

  function Insert<A>(s: seq<Sleeper<A>>, a: A, t: nat): seq<Sleeper<A>> {
    var k := InsertPos(s, t);
    s[..k] + [Sleeper(a, t)] + s[k..]
  }

  /** The compare value that wakes the first sleeper or ends the tick, whichever comes first. */
  function Compare<A>(s: seq<Sleeper<A>>, nextTick: nat): nat {
    if s != [] && s[0].twake < nextTick then s[0].twake else nextTick
  }

  // --- events ---

  /** alarm_sleep, from the point where the new wake-up time is not past. */
  function Sleep<A>(st: State<A>, a: A, t: nat): State<A> {
    var atHead := InsertPos(st.sleepers, t) == 0;
    State(Insert(st.sleepers, a, t), st.nextTick, if atHead && t < st.nextTick then t else st.mtcmp)
  }

  /** The alarms that an interrupt at time now leaves on the list. */
  function NotDue<A>(s: seq<Sleeper<A>>, now: nat): seq<Sleeper<A>> { s[Due(s, now)..] }

  /** The next tick after an interrupt at time now, in 64-bit arithmetic. */
  function NextTick(tick: nat, now: nat): nat {
    if tick < now then (tick + TICK_PERIOD) % (UINT64_MAX + 1) else tick
  }

  /** timer_intr_handler at time now; the alarms woken are the first Due ones. */
  function Interrupt<A>(st: State<A>, now: nat): State<A> {
    var rest := NotDue(st.sleepers, now);
    var tick := NextTick(st.nextTick, now);
    State(rest, tick, Compare(rest, tick))
  }

  datatype Event<A> = SleepEvent(alarm: A, twake: nat) | InterruptEvent(now: nat)

  function Step<A>(st: State<A>, ev: Event<A>): State<A> {
    match ev
    case SleepEvent(a, t) => Sleep(st, a, t)
    case InterruptEvent(now) => Interrupt(st, now)
  }

  /** The alarms that an event wakes, with their wake-up times. */
  function Woken<A>(st: State<A>, ev: Event<A>): seq<Sleeper<A>> {
    match ev
    case SleepEvent(_, _) => []
    case InterruptEvent(now) => st.sleepers[..Due(st.sleepers, now)]
  }

  function Run<A>(st: State<A>, evs: seq<Event<A>>): State<A> {
    if evs == [] then st else Step(Run(st, evs[..|evs| - 1]), evs[|evs| - 1])
  }

  /** All that went to sleep during the run, and all that was woken. */
  function AllSlept<A(==)>(evs: seq<Event<A>>): multiset<Sleeper<A>> {
    if evs == [] then multiset{}
    else
      AllSlept(evs[..|evs| - 1]) + SleptBy(evs[|evs| - 1])
  }

  function SleptBy<A(==)>(ev: Event<A>): multiset<Sleeper<A>> {
    if ev.SleepEvent? then multiset{Sleeper(ev.alarm, ev.twake)} else multiset{}
  }

  function AllWoken<A(==)>(st: State<A>, evs: seq<Event<A>>): multiset<Sleeper<A>> {
    if evs == [] then multiset{}
    else
      var before := evs[..|evs| - 1];
      AllWoken(st, before) + multiset(Woken(Run(st, before), evs[|evs| - 1]))
  }

  predicate HadInterrupt<A>(evs: seq<Event<A>>) {
    exists i :: 0 <= i < |evs| && evs[i].InterruptEvent?
  }

  lemma InsertKeepsSorted<A>(s: seq<Sleeper<A>>, a: A, t: nat)
    requires Sorted(s)
    ensures Sorted(Insert(s, a, t))
  {
    hide InsertPos;
    var k := InsertPos(s, t);
    var s' := Insert(s, a, t);
    assert forall i :: 0 <= i < k ==> s'[i] == s[i];
    assert forall i :: k < i < |s'| ==> s'[i] == s[i - 1];
  }

  lemma InsertAdds<A>(s: seq<Sleeper<A>>, a: A, t: nat)
    ensures multiset(Insert(s, a, t)) == multiset(s) + multiset{Sleeper(a, t)}
  {
    hide InsertPos;
    var k := InsertPos(s, t);
    assert s == s[..k] + s[k..];
  }

  /** An interrupt wakes exactly the alarms that are due, and no other. */
  lemma WakesExactlyDue<A>(st: State<A>, now: nat, x: Sleeper<A>)
    requires Sorted(st.sleepers)
    ensures x in Woken(st, InterruptEvent(now)) <==> x in st.sleepers && x.twake <= now
    ensures x in Step(st, InterruptEvent(now)).sleepers <==> x in st.sleepers && now < x.twake
  {
    hide Due, NextTick, Compare;
    var k := Due(st.sleepers, now);
    assert st.sleepers == st.sleepers[..k] + st.sleepers[k..];
  }

  /** The list is sorted; whoever went to sleep has been woken once or is on the list; and, after
      an interrupt, the compare value is the earlier of the first deadline and the next tick. */
  ghost predicate Sound<A>(st: State<A>, slept: multiset<Sleeper<A>>, woken: multiset<Sleeper<A>>, armed: bool) {
    && Sorted(st.sleepers)
    && slept == woken + multiset(st.sleepers)
    && (armed ==> st.mtcmp == Compare(st.sleepers, st.nextTick))
  }

  lemma SleepIsSound<A>(st: State<A>, slept: multiset<Sleeper<A>>, woken: multiset<Sleeper<A>>, armed: bool,
                        a: A, t: nat)
    requires Sound(st, slept, woken, armed)
    ensures Sound(Sleep(st, a, t), slept + multiset{Sleeper(a, t)}, woken, armed)
  {
    InsertKeepsSorted(st.sleepers, a, t);
    InsertAdds(st.sleepers, a, t);
    hide Sorted;
  }

  lemma InterruptIsSound<A>(st: State<A>, slept: multiset<Sleeper<A>>, woken: multiset<Sleeper<A>>, armed: bool,
                            now: nat)
    requires Sound(st, slept, woken, armed)
    ensures Sound(Interrupt(st, now), slept, woken + multiset(Woken(st, InterruptEvent(now))), true)
  {
    hide Due;
    var k := Due(st.sleepers, now);
    assert st.sleepers == st.sleepers[..k] + st.sleepers[k..];
  }

  lemma StepIsSound<A>(st: State<A>, slept: multiset<Sleeper<A>>, woken: multiset<Sleeper<A>>, armed: bool,
                       ev: Event<A>)
    requires Sound(st, slept, woken, armed)
    ensures Sound(Step(st, ev), slept + SleptBy(ev), woken + multiset(Woken(st, ev)), armed || ev.InterruptEvent?)
  {
    hide Sound, Sleep, Interrupt;
    match ev
    case SleepEvent(a, t) =>
      SleepIsSound(st, slept, woken, armed, a, t);
      assert woken + multiset(Woken(st, ev)) == woken;
    case InterruptEvent(now) =>
      InterruptIsSound(st, slept, woken, armed, now);
      assert slept + SleptBy(ev) == slept;
  }

  lemma HadLast<A>(evs: seq<Event<A>>)
    requires evs != []
    ensures HadInterrupt(evs) <==> HadInterrupt(evs[..|evs| - 1]) || evs[|evs| - 1].InterruptEvent?
  {
    var front := evs[..|evs| - 1];
    if HadInterrupt(front) {
      var i :| 0 <= i < |front| && front[i].InterruptEvent?;
      assert evs[i].InterruptEvent?;
    }
  }

  lemma StartIsSound<A>(st: State<A>)
    requires st.sleepers == []
    ensures Sound(st, multiset{}, multiset{}, false)
  {
  }

  /** All this holds at the end of every run that starts with an empty list. */
  lemma {:induction false} RunIsSound<A>(st: State<A>, evs: seq<Event<A>>)
    requires st.sleepers == []
    ensures Sound(Run(st, evs), AllSlept(evs), AllWoken(st, evs), HadInterrupt(evs))
  {
    hide Sound, Step, Woken, SleptBy;
    if evs == [] {
      StartIsSound(st);
    } else {
      var front, ev := evs[..|evs| - 1], evs[|evs| - 1];
      RunIsSound(st, front);
      HadLast(evs);
      StepIsSound(Run(st, front), AllSlept(front), AllWoken(st, front), HadInterrupt(front), ev);
    }
  }

  // --- deadlines ---

  /** No sleeper's deadline passes without the timer being due as well. */
  predicate AllInTime<A>(st: State<A>) {
    forall i :: 0 <= i < |st.sleepers| ==> st.mtcmp <= st.sleepers[i].twake
  }

  /** timer_init: no alarm, and the compare value at the end of the first tick, but next_tick at 0. */
  function Booted<A>(): State<A> { State([], 0, TICK_PERIOD) }

  /** After an interrupt the compare value is the earliest of the next tick and the listed deadlines. */
  lemma CompareIsEarliest<A>(st: State<A>, evs: seq<Event<A>>)
    requires st.sleepers == [] && HadInterrupt(evs)
    ensures var end := Run(st, evs);
      && end.mtcmp <= end.nextTick && AllInTime(end)
      && (end.mtcmp == end.nextTick || exists i :: 0 <= i < |end.sleepers| && end.mtcmp == end.sleepers[i].twake)
  {
    hide Run, AllSlept, AllWoken;
    RunIsSound(st, evs);
  }

  /** The number of interrupts that came later than as many ticks as had come before them. */
  function Ticks<A>(evs: seq<Event<A>>): nat {
    if evs == [] then 0
    else
      var k := Ticks(evs[..|evs| - 1]);
      match evs[|evs| - 1]
      case SleepEvent(_, _) => k
      case InterruptEvent(now) => if TICK_PERIOD * k % (UINT64_MAX + 1) < now then k + 1 else k
  }

  lemma NextMultiple(k: nat)
    ensures (TICK_PERIOD * k % (UINT64_MAX + 1) + TICK_PERIOD) % (UINT64_MAX + 1)
         == TICK_PERIOD * (k + 1) % (UINT64_MAX + 1)
  {
    assert TICK_PERIOD * (k + 1) == TICK_PERIOD * k + TICK_PERIOD;
  }

  /** The tick advances by one period with each of these, and with nothing else. */
  lemma {:induction false} TicksAdvance<A>(evs: seq<Event<A>>)
    ensures Run(Booted<A>(), evs).nextTick == TICK_PERIOD * Ticks(evs) % (UINT64_MAX + 1)
  {
    hide Insert, InsertPos, Compare, NotDue;
    if evs != [] {
      var front := evs[..|evs| - 1];
      TicksAdvance(front);
      NextMultiple(Ticks(front));
    }
  }

  /** Until the first interrupt an alarm never sets the compare value. */
  lemma {:induction false} BeforeInterrupt<A>(evs: seq<Event<A>>)
    requires !HadInterrupt(evs)
    ensures Run(Booted<A>(), evs).nextTick == 0 && Run(Booted<A>(), evs).mtcmp == TICK_PERIOD
  {
    hide InsertPos, Insert;
    if evs != [] {
      HadLast(evs);
      BeforeInterrupt(evs[..|evs| - 1]);
    }
  }

  /** No deadline is missed if and only if the timer has interrupted, or no deadline lies before the
      end of the first tick. */
  lemma NoDeadlineMissed<A>(evs: seq<Event<A>>)
    ensures var st := Run(Booted<A>(), evs);
      AllInTime(st) <==>
      HadInterrupt(evs) || forall i :: 0 <= i < |st.sleepers| ==> TICK_PERIOD <= st.sleepers[i].twake
  {
    hide Run, AllSlept, AllWoken;
    RunIsSound(Booted<A>(), evs);
    if !HadInterrupt(evs) { BeforeInterrupt(evs); }
  }

  /** For example, an alarm for time 1000 set before the first interrupt is not woken before 200000. */
  lemma FirstAlarmLate<A>(a: A)
    ensures var st := Run(Booted<A>(), [SleepEvent(a, 1000)]);
      st.sleepers == [Sleeper(a, 1000)] && st.mtcmp == 200_000 && !AllInTime(st)
  {
    var ev := SleepEvent(a, 1000);
    assert [ev][..0] == [];
    assert Run(Booted<A>(), [ev]) == Step(Run(Booted<A>(), []), ev);
    assert Run(Booted<A>(), [ev]).sleepers[0].twake == 1000;
  }
}
