/** timer.c: alarms linked into a list, edited in place. Time (mtime) is a parameter. */
module Timer {
  import opened TimerModel

  class Alarm {
    var next: Alarm?
    var twake: nat
    var asleep: bool                // a thread waits for its condition

    /** alarm_init at time now. */
    constructor (now: nat)
      ensures next == null && twake == now && !asleep
    {
      next, twake, asleep := null, now, false;
    }

    /** alarm_reset. */
    method Reset(now: nat)
      modifies `twake
      ensures twake == now
    {
      twake := now;
    }

    /** The new wake-up time; where the sum wraps around it is the largest there is. */
    method Postpone(tcnt: nat)
      requires twake <= UINT64_MAX
      modifies `twake
      ensures twake == Advance(old(twake), tcnt)
    {
      if UINT64_MAX - twake < tcnt {
        twake := UINT64_MAX;
      } else {
        twake := twake + tcnt;
      }
    }
  }

  class AlarmClock {
    var sleepList: Alarm?
    var nextTick: nat
    var mtcmp: nat
    ghost var list: seq<Alarm>

    /** The links from sleepList on run through `list` in order. */
    ghost predicate Valid()
      reads `sleepList, `list, list`next
    {
      && (forall i, j :: 0 <= i < j < |list| ==> list[i] != list[j])
      && sleepList == At(list, 0)
      && (forall i {:trigger list[i].next} :: 0 <= i < |list| ==> list[i].next == At(list, i + 1))
    }

    /** A thread waits for each listed alarm. */
    ghost predicate AllAsleep()
      reads `list, list`asleep
    {
      forall a :: a in list ==> a.asleep
    }

    static ghost function At(s: seq<Alarm>, i: nat): Alarm? {
      if i < |s| then s[i] else null
    }

    static ghost function Zip(s: seq<Alarm>): (z: seq<Sleeper<Alarm>>)
      reads s`twake
      ensures |z| == |s| && forall i :: 0 <= i < |s| ==> z[i] == Sleeper(s[i], s[i].twake)
    {
      if s == [] then [] else [Sleeper(s[0], s[0].twake)] + Zip(s[1..])
    }

    ghost function Sleepers(): (s: seq<Sleeper<Alarm>>)
      reads `list, list`twake
    {
      Zip(list)
    }

    ghost function Model(): State<Alarm>
      reads this, list`twake
    {
      State(Sleepers(), nextTick, mtcmp)
    }

    /** timer_init sets the compare value to the first tick; next_tick is still 0. */
    constructor ()
      ensures Valid() && AllAsleep() && Model() == State([], 0, TICK_PERIOD)
    {
      sleepList, nextTick, mtcmp, list := null, 0, TICK_PERIOD, [];
    }

    /** alarm_sleep, up to where the thread waits for the alarm; false where it returns at once. */
    method Sleep(al: Alarm, tcnt: nat, now: nat) returns (waits: bool)
      requires Valid() && al !in list && al.twake <= UINT64_MAX
      modifies this, list`next, al
      ensures Valid() && al.twake == Advance(old(al.twake), tcnt)
      ensures forall a :: a in old(list) ==> a.twake == old(a.twake)
      ensures waits <==> al.twake >= now
      ensures Model() == if waits then TimerModel.Sleep(old(Model()), al, al.twake) else old(Model())
      ensures al.asleep == (waits || old(al.asleep)) && (old(AllAsleep()) ==> AllAsleep())
    {
      hide Valid, Zip, Advance, TimerModel.Sleep;
      waits := Enlist(al, tcnt, now);
      if waits { al.asleep := true; }       // condition_wait
    }

    /** The alarm is on the list, when its time is not past. */
    method Enlist(al: Alarm, tcnt: nat, now: nat) returns (waits: bool)
      requires Valid() && al !in list && al.twake <= UINT64_MAX
      modifies this, list`next, al`next, al`twake
      ensures Valid() && al.twake == Advance(old(al.twake), tcnt)
      ensures waits <==> al.twake >= now
      ensures Model() == if waits then TimerModel.Sleep(old(Model()), al, al.twake) else old(Model())
      ensures forall a :: a in list ==> a in old(list) || (waits && a == al)
    {
      hide InsertPos, Insert, Valid, Zip, At, Advance;
      al.Postpone(tcnt);
      SameSleepers(old(Sleepers()), Sleepers());
      if al.twake < now { return false; }
      assert al !in list;
      waits := true;
      var atHead;
      ghost var k;
      atHead, k := LinkIn(al);
      if atHead && al.twake < nextTick { mtcmp := al.twake; }
      InsertIs(old(Sleepers()), Sleepers(), al, al.twake);
    }

    /** The insertion: at the head, or behind the last alarm that wakes earlier. */
    method LinkIn(al: Alarm) returns (atHead: bool, ghost k: nat)
      requires Valid() && al !in list
      modifies `sleepList, `list, list`next, al`next
      ensures Valid() && k == InsertPos(old(Sleepers()), al.twake) && (atHead <==> k == 0)
      ensures list == old(list)[..k] + [al] + old(list)[k..]
    {
      hide InsertPos;
      if sleepList == null || al.twake <= sleepList.twake {
        InsertPosIs(Sleepers(), al.twake, 0);
        LinkFront(al);
        atHead, k := true, 0;
      } else {
        var prev;
        prev, k := FindPrev(al.twake);
        InsertPosIs(Sleepers(), al.twake, k);
        LinkBehind(prev, al, k);
        atHead := false;
      }
    }

    method FindPrev(t: nat) returns (prev: Alarm, ghost k: nat)
      requires Valid() && sleepList != null && sleepList.twake < t
      ensures 0 < k <= |list| && prev == list[k - 1]
      ensures forall i :: 0 <= i < k ==> list[i].twake < t
      ensures k < |list| ==> t <= list[k].twake
    {
      prev, k := sleepList, 1;
      while prev.next != null && t > prev.next.twake
        invariant 0 < k <= |list| && prev == list[k - 1]
        invariant forall i :: 0 <= i < k ==> list[i].twake < t
        decreases |list| - k
      {
        prev := prev.next;
        k := k + 1;
      }
    }

    method LinkFront(al: Alarm)
      requires Valid() && al !in list
      modifies `sleepList, `list, al`next
      ensures Valid() && list == [al] + old(list)
    {
      al.next := sleepList;
      sleepList := al;
      list := [al] + list;
      assert forall i :: 0 < i < |list| ==> list[i] == old(list)[i - 1];
    }

    method LinkBehind(prev: Alarm, al: Alarm, ghost k: nat)
      requires Valid() && al !in list && 0 < k <= |list| && prev == list[k - 1]
      modifies `list, prev`next, al`next
      ensures Valid() && list == old(list)[..k] + [al] + old(list)[k..]
    {
      ghost var s := list;
      al.next := prev.next;
      prev.next := al;
      list := s[..k] + [al] + s[k..];
      assert forall i :: 0 <= i < k ==> list[i] == s[i];
      assert list[k] == al;
      assert forall i :: k < i < |list| ==> list[i] == s[i - 1];
    }

    /** timer_intr_handler at time now: the alarms it broadcasts, in order. Nobody waits for these any
        more, and for those that are left the threads still wait. */
    method Interrupt(now: nat) returns (ghost woken: seq<Alarm>)
      requires Valid()
      modifies `sleepList, `list, `nextTick, `mtcmp, list`next, list`asleep
      ensures old(AllAsleep()) ==> AllAsleep()
      ensures Valid() && Model() == TimerModel.Interrupt(old(Model()), now)
      ensures woken + list == old(list) && |woken| == Due(old(Sleepers()), now)
      ensures forall a :: a in woken ==> a.next == null && !a.asleep
      ensures forall a :: a in old(list) ==> a.twake == old(a.twake)
    {
      hide Due, NotDue, Valid, Zip, Compare, At, NextTick, TimerModel.Interrupt, AllAsleep;
      ghost var st := Model();
      woken := WakeDue(now);
      Program(now);
      InterruptIs(st, now, Model());
    }

    /** The next tick, and the compare value. */
    method Program(now: nat)
      requires Valid()
      modifies `nextTick, `mtcmp
      ensures nextTick == NextTick(old(nextTick), now)
      ensures mtcmp == Compare(Sleepers(), nextTick)
    {
      if nextTick < now { nextTick := (nextTick + TICK_PERIOD) % (UINT64_MAX + 1); }
      if sleepList != null && sleepList.twake < nextTick {
        mtcmp := sleepList.twake;
      } else {
        mtcmp := nextTick;
      }
    }

    method WakeDue(now: nat) returns (ghost woken: seq<Alarm>)
      requires Valid()
      modifies `sleepList, `list, list`next, list`asleep
      ensures old(AllAsleep()) ==> AllAsleep()
      ensures Valid() && Sleepers() == NotDue(old(Sleepers()), now)
      ensures woken + list == old(list) && |woken| == Due(old(Sleepers()), now)
      ensures forall a :: a in woken ==> a.next == null && !a.asleep
    {
      hide Due, Valid, Zip, AllAsleep;
      ghost var slept, all := Sleepers(), list;
      woken := LinkOut(now);
      forall i | 0 <= i < |list| ensures Sleepers()[i] == slept[i + |woken|] {
        assert list[i] == all[i + |woken|];
      }
      DropIs(slept, Sleepers(), |woken|);
    }

    method LinkOut(now: nat) returns (ghost woken: seq<Alarm>)
      requires Valid()
      modifies `sleepList, `list, list`next, list`asleep
      ensures old(AllAsleep()) ==> AllAsleep()
      ensures Valid() && woken + list == old(list) && |woken| == Due(old(Sleepers()), now)
      ensures forall a :: a in woken ==> a.next == null && !a.asleep
    {
      hide Zip, Due;
      var head;
      ghost var n: nat;
      head, n := Unlink(now);
      DueIs(Sleepers(), now, n);
      sleepList := head;
      woken, list := list[..n], list[n..];
    }

    /** The loop over the head of the list: the first n alarms are due, and head is the next one. */
    method Unlink(now: nat) returns (head: Alarm?, ghost n: nat)
      requires Valid()
      modifies list`next, list`asleep
      ensures forall i {:trigger list[i].asleep} :: 0 <= i < |list| ==> list[i].asleep == (i >= n && old(list[i].asleep))
      ensures n <= |list| && head == At(list, n) && (n < |list| ==> now < list[n].twake)
      ensures forall i {:trigger list[i].next} :: 0 <= i < n ==> list[i].next == null
      ensures forall i {:trigger list[i].twake} :: 0 <= i < n ==> list[i].twake <= now
      ensures forall i {:trigger list[i].next} :: n <= i < |list| ==> list[i].next == At(list, i + 1)
    {
      head, n := sleepList, 0;
      while head != null && head.twake <= now
        invariant 0 <= n <= |list| && head == At(list, n)
        invariant forall i {:trigger list[i].next} :: 0 <= i < n ==> list[i].next == null
        invariant forall i {:trigger list[i].asleep} :: 0 <= i < |list| ==>
          list[i].asleep == (i >= n && old(list[i].asleep))
        invariant forall i {:trigger list[i].twake} :: 0 <= i < n ==> list[i].twake <= now
        invariant forall i {:trigger list[i].next} :: n <= i < |list| ==> list[i].next == At(list, i + 1)
        decreases |list| - n
      {
        var next := head.next;
        head.asleep := false;     // condition_broadcast
        head.next := null;
        head := next;
        n := n + 1;
      }
    }
  }

  lemma {:induction false} InsertPosIs<A>(s: seq<Sleeper<A>>, t: nat, k: nat)
    requires k <= |s| && (forall i :: 0 <= i < k ==> s[i].twake < t) && (k < |s| ==> t <= s[k].twake)
    ensures InsertPos(s, t) == k
  {
    if k > 0 { InsertPosIs(s[1..], t, k - 1); }
  }

  lemma SameSleepers<A>(s: seq<Sleeper<A>>, s': seq<Sleeper<A>>)
    requires |s'| == |s| && forall i :: 0 <= i < |s| ==> s'[i] == s[i]
    ensures s' == s
  {
  }

  lemma InterruptIs<A>(st: State<A>, now: nat, st': State<A>)
    requires st'.sleepers == NotDue(st.sleepers, now)
    requires st'.nextTick == NextTick(st.nextTick, now)
    requires st'.mtcmp == Compare(st'.sleepers, st'.nextTick)
    ensures st' == Interrupt(st, now)
  {
  }

  lemma DropIs<A>(s: seq<Sleeper<A>>, s': seq<Sleeper<A>>, k: nat)
    requires k <= |s| && |s'| == |s| - k && forall i :: 0 <= i < |s'| ==> s'[i] == s[i + k]
    ensures s' == s[k..]
  {
  }

  lemma InsertIs<A>(s: seq<Sleeper<A>>, s': seq<Sleeper<A>>, a: A, t: nat)
    requires |s'| == |s| + 1 && s'[InsertPos(s, t)] == Sleeper(a, t)
    requires forall i :: 0 <= i < InsertPos(s, t) ==> s'[i] == s[i]
    requires forall i :: InsertPos(s, t) < i < |s'| ==> s'[i] == s[i - 1]
    ensures s' == Insert(s, a, t)
  {
    hide InsertPos;
  }

  lemma {:induction false} DueIs<A>(s: seq<Sleeper<A>>, now: nat, k: nat)
    requires k <= |s| && (forall i :: 0 <= i < k ==> s[i].twake <= now) && (k < |s| ==> now < s[k].twake)
    ensures Due(s, now) == k
  {
    if k > 0 { DueIs(s[1..], now, k - 1); }
  }
}
