/** Points in time, ordered as in src/util.c, and the texts made of them. */
module Times {
  import opened Basics

  datatype Time = Time(sec: int, usec: int)

  const USEC_PER_SEC := 1000000

  predicate Earlier(a: Time, b: Time) {
    a.sec < b.sec || (a.sec == b.sec && a.usec < b.usec)
  }

  /** The microseconds are less than a second. */
  predicate Whole(t: Time) {
    0 <= t.usec < USEC_PER_SEC
  }

  function Micros(t: Time): int {
    t.sec * USEC_PER_SEC + t.usec
  }

  /** Moves a time by some microseconds and splits it into whole seconds again. */
  function Shift(t: Time, micros: int): (r: Time)
    ensures Micros(r) == Micros(t) + micros && Whole(r)
  {
    var n := Micros(t) + micros;
    Time(n / USEC_PER_SEC, n % USEC_PER_SEC)
  }

  /** Times of at least the clock's resolution are ordered by their distance. */
  lemma ShiftLater(t: Time, now: Time, micros: int)
    requires micros > 0 && !Earlier(now, t) && Whole(t) && Whole(now)
    ensures Earlier(t, Shift(now, micros))
  {}

  /** An unsigned number of seconds as an int number of microseconds. */
  function Timeout(seconds: nat): int {
    ToInt((seconds * USEC_PER_SEC) % 0x1_0000_0000)
  }

  /** A timeout is what was configured if and only if it is below 2148 seconds;
      2148 seconds already lie in the past. */
  lemma TimeoutExactly(seconds: nat)
    ensures Timeout(seconds) == seconds * USEC_PER_SEC <==> seconds < 2148
    ensures Timeout(2148) < 0
    ensures (Timeout(seconds) - seconds * USEC_PER_SEC) % 0x1_0000_0000 == 0
  {
    var micros := seconds * USEC_PER_SEC;
    ToIntExactly(micros % 0x1_0000_0000);
    Multiples(Timeout(seconds), micros % 0x1_0000_0000, micros);
    if seconds < 2148 {
      assert seconds * USEC_PER_SEC < 0x8000_0000;
    } else {
      assert seconds * USEC_PER_SEC >= 0x8000_0000 > Timeout(seconds);
    }
  }

  lemma Multiples(a: int, b: int, c: int)
    requires (a - b) % 0x1_0000_0000 == 0 && b == c % 0x1_0000_0000
    ensures (a - c) % 0x1_0000_0000 == 0
  {
    assert c == (c / 0x1_0000_0000) * 0x1_0000_0000 + b;
  }

  predicate IsLeast(t: Time, keys: set<Time>) {
    t in keys && forall u :: u in keys ==> !Earlier(u, t)
  }

  function Least(keys: set<Time>): (t: Time)
    requires keys != {}
    ensures IsLeast(t, keys)
  {
    LeastExists(keys);
    var t :| IsLeast(t, keys);
    t
  }

  lemma {:induction false} LeastExists(keys: set<Time>)
    requires keys != {}
    ensures exists t :: IsLeast(t, keys)
    decreases |keys|
  {
    var a :| a in keys;
    var rest := keys - {a};
    if rest == {} {
      assert keys == {a};
      assert IsLeast(a, keys);
    } else {
      LeastExists(rest);
      var b :| IsLeast(b, rest);
      LeastWith(b, rest, a);
      assert keys == rest + {a};
    }
  }

  lemma LeastWith(b: Time, rest: set<Time>, a: Time)
    requires IsLeast(b, rest)
    ensures IsLeast(if Earlier(a, b) then a else b, rest + {a})
  {}

  /** How long to sleep until `next`, computed in an int. */
  function SleepTime(now: Time, next: Time): nat {
    var sleepTime := ToInt(Micros(next) - Micros(now));
    if sleepTime > 0 then sleepTime else 0
  }

  /** Nobody sleeps past a timer that is still to come, and the time slept is
      exact if and only if it fits an int: further ahead than that, the
      difference wraps around and the sleep is cut short. */
  lemma SleepExactly(now: Time, next: Time)
    requires Micros(next) >= Micros(now)
    ensures SleepTime(now, next) <= Micros(next) - Micros(now)
    ensures SleepTime(now, next) == Micros(next) - Micros(now) <==> Micros(next) - Micros(now) < 0x8000_0000
  {}

  /** What is left of a range of ints after a delay, if that is more than half
      of it. */
  function Leftover(late: nat): nat {
    var r := late % 0x1_0000_0000;
    if r <= 0x8000_0000 then 0 else 0x1_0000_0000 - r
  }

  /** An overdue timer - or the zero time of an empty queue - stops the sleep if
      and only if the wrapped difference does not come out positive. */
  lemma OverdueExactly(now: Time, next: Time)
    requires Micros(next) < Micros(now)
    ensures SleepTime(now, next) == Leftover(Micros(now) - Micros(next))
  {
    Wraps(Micros(now) - Micros(next));
  }

  lemma Wraps(late: int)
    ensures (-late) % 0x1_0000_0000 == if late % 0x1_0000_0000 == 0 then 0 else 0x1_0000_0000 - late % 0x1_0000_0000
  {
    var q: int, r: int := late / 0x1_0000_0000, late % 0x1_0000_0000;
    assert -late == -q * 0x1_0000_0000 - r;
  }
}

/** The timer queue of src/timer.c. */
module Timers {
  import opened Basics
  import opened Times

  datatype Entry<T> = Entry(callback: T, owner: string)

  /** The entries that are ready at some time. */
  function Due<T>(timers: map<Time, Entry<T>>, now: Time): set<Time> {
    set t | t in timers && !Earlier(now, t)
  }

  function Owned<T>(timers: map<Time, Entry<T>>, owner: string): set<Time> {
    set t | t in timers && timers[t].owner == owner
  }

  /** The earliest key, or the zero time when there is none. */
  function NextTime<T>(timers: map<Time, Entry<T>>): (t: Time)
    ensures if timers.Keys == {} then t == Time(0, 0) else IsLeast(t, timers.Keys)
  {
    if timers.Keys == {} then Time(0, 0) else Least(timers.Keys)
  }

  /** With the earliest key at most the largest int ahead, no entry is slept
      past if and only if that key is also the first one in microseconds. */
  lemma NoneHiddenExactly<T>(timers: map<Time, Entry<T>>, now: Time, t: Time)
    requires IsLeast(t, timers.Keys) && 0 <= Micros(t) - Micros(now) <= INT_MAX
    ensures (forall u :: u in timers ==> SleepTime(now, t) <= Micros(u) - Micros(now))
            <==> forall u :: u in timers ==> Micros(t) <= Micros(u)
  {
    hide SleepTime, Micros;
    SleepExactly(now, t);
  }

  /** The least free microsecond at or after a request, within its second. */
  predicate FirstFree<T>(timers: map<Time, Entry<T>>, request: Time, t: Time) {
    && t !in timers && t.sec == request.sec && t.usec >= request.usec
    && forall u :: request.usec <= u < t.usec ==> Time(request.sec, u) in timers
  }

  lemma FirstFreeIsLater<T>(timers: map<Time, Entry<T>>, request: Time, t: Time)
    requires FirstFree(timers, request, t)
    ensures t !in timers && !Earlier(t, request)
  {}

  lemma FirstFreeIsUnique<T>(timers: map<Time, Entry<T>>, request: Time, t: Time, u: Time)
    requires FirstFree(timers, request, t) && FirstFree(timers, request, u)
    ensures t == u
  {
    assert t == Time(request.sec, t.usec) && u == Time(request.sec, u.usec);
  }

  /** The keys fired by one notification are a strictly rising sequence of due
      keys of the old queue, with the callbacks registered for them. */
  predicate FiredInOrder<T(==)>(fired: seq<(Time, T)>, timers: map<Time, Entry<T>>, now: Time) {
    && (forall i :: 0 <= i < |fired| ==>
          fired[i].0 in Due(timers, now) && timers[fired[i].0].callback == fired[i].1)
    && (forall i, j :: 0 <= i < j < |fired| ==> Earlier(fired[i].0, fired[j].0))
  }

  /** Every due entry was fired, unless a callback removed it before its turn. */
  predicate NoneForgotten<T(==)>(fired: seq<(Time, T)>, removed: set<Time>, timers: map<Time, Entry<T>>, left: map<Time, Entry<T>>, now: Time) {
    forall t :: t in Due(timers, now) ==>
      t in removed || t in Due(left, now) || exists i :: 0 <= i < |fired| && fired[i].0 == t
  }

  lemma FiredNext<T>(fired: seq<(Time, T)>, timers: map<Time, Entry<T>>, now: Time, next: (Time, T))
    requires FiredInOrder(fired, timers, now)
    requires next.0 in Due(timers, now) && timers[next.0].callback == next.1
    requires forall i :: 0 <= i < |fired| ==> Earlier(fired[i].0, next.0)
    ensures FiredInOrder(fired + [next], timers, now)
  {}

  lemma StillNoneForgotten<T>(fired: seq<(Time, T)>, removed: set<Time>, timers: map<Time, Entry<T>>, now: Time,
                                  mid: map<Time, Entry<T>>, next: (Time, T), gone: set<Time>, left: map<Time, Entry<T>>)
    requires NoneForgotten(fired, removed, timers, mid, now)
    requires Due(mid, now) <= {next.0} + Due(left, now) + gone
    ensures NoneForgotten(fired + [next], removed + gone, timers, left, now)
  {
    var after := fired + [next];
    assert after[|fired|].0 == next.0;
    assert forall i :: 0 <= i < |fired| ==> after[i] == fired[i];
  }

  class TimerQueue<T(==)> {
    var exiting: bool
    var timers: map<Time, Entry<T>>

    ghost predicate Valid()
      reads this
    {
      exiting ==> timers == map[]
    }

    constructor ()
      ensures Valid() && !exiting && timers == map[]
    {
      exiting, timers := false, map[];
    }

    method AddTimer(owner: string, time: Time, callback: T) returns (r: Option<Time>)
      requires Valid()
      modifies this`timers
      ensures Valid() && (r.None? <==> exiting)
      ensures r.None? ==> timers == old(timers)
      ensures r.Some? ==> FirstFree(old(timers), time, r.value) && timers == old(timers)[r.value := Entry(callback, owner)]
    {
      if exiting { return None; }
      var key := time;
      ghost var ahead := set t | t in timers && t.sec == time.sec && t.usec >= time.usec;
      while key in timers
        invariant key.sec == time.sec && key.usec >= time.usec
        invariant forall u :: time.usec <= u < key.usec ==> Time(time.sec, u) in timers
        invariant ahead == set t | t in timers && t.sec == time.sec && t.usec >= key.usec
        decreases |ahead|
      {
        ahead := ahead - {key};
        key := Time(key.sec, key.usec + 1);
      }
      timers := timers[key := Entry(callback, owner)];
      r := Some(key);
    }

    method AddTimeout(owner: string, now: Time, micros: int, callback: T) returns (r: Option<Time>)
      requires Valid()
      modifies this`timers
      ensures Valid() && (r.None? <==> exiting)
      ensures r.None? ==> timers == old(timers)
      ensures r.Some? ==> FirstFree(old(timers), Shift(now, micros), r.value)
                          && timers == old(timers)[r.value := Entry(callback, owner)]
    {
      r := AddTimer(owner, Shift(now, micros), callback);
    }

    method DelTimer(time: Time) returns (ok: bool)
      requires Valid()
      modifies this`timers
      ensures Valid() && (ok <==> time in old(timers)) && timers == old(timers) - {time}
    {
      if exiting { return false; }
      ok := time in timers;
      timers := timers - {time};
    }

    method GetNextTimerTime() returns (next: Time)
      requires Valid()
      ensures next == NextTime(timers)
    {
      next := Time(0, 0);
      if timers.Keys != {} { next := Least(timers.Keys); }
    }

    /** Until the earliest entry, exactly if the distance is an int; then past no
        entry, if and only if that one is the first in microseconds, as it is
        when all keys have less than a second of them.  An overdue entry, and the zero time of an empty queue, leave
        what is left of the range. */
    method GetCurrentSleepTime(now: Time) returns (sleepTime: nat)
      requires Valid()
      ensures forall t :: IsLeast(t, timers.Keys) && Micros(now) <= Micros(t) ==>
                sleepTime <= Micros(t) - Micros(now)
                && (sleepTime == Micros(t) - Micros(now) <==> Micros(t) - Micros(now) <= INT_MAX)
      ensures (forall t :: t in timers ==> Whole(t) && Micros(now) <= Micros(t)) ==>
                forall t :: t in timers ==> sleepTime <= Micros(t) - Micros(now)
      ensures forall t :: IsLeast(t, timers.Keys) && 0 <= Micros(t) - Micros(now) <= INT_MAX ==>
                ((forall u :: u in timers ==> sleepTime <= Micros(u) - Micros(now))
                 <==> forall u :: u in timers ==> Micros(t) <= Micros(u))
      ensures forall t :: IsLeast(t, timers.Keys) && Micros(t) < Micros(now) ==> sleepTime == Leftover(Micros(now) - Micros(t))
      ensures timers == map[] && Micros(now) > 0 ==> sleepTime == Leftover(Micros(now))
    {
      hide SleepTime, Leftover, NextTime;
      var next := GetNextTimerTime();
      sleepTime := SleepTime(now, next);
      if Micros(next) >= Micros(now) {
        SleepExactly(now, next);
      } else {
        OverdueExactly(now, next);
      }
      forall t | IsLeast(t, timers.Keys)
        ensures t == next
      {
        assert !Earlier(t, next) && !Earlier(next, t);
      }
      if IsLeast(next, timers.Keys) && 0 <= Micros(next) - Micros(now) <= INT_MAX {
        NoneHiddenExactly(timers, now, next);
      }
    }

    method ExitGracefully()
      requires Valid()
      modifies this
      ensures Valid() && exiting && timers == map[]
    {
      exiting, timers := true, map[];
    }

    /** Takes the earliest entry off the queue if it is ready. */
    method TakeReady(now: Time) returns (r: Option<(Time, T)>)
      requires Valid()
      modifies this`timers
      ensures Valid()
      ensures r.None? ==> timers == old(timers) && Due(timers, now) == {}
      ensures r.Some? ==> var t := r.value.0;
                          && t in Due(old(timers), now) && old(timers)[t].callback == r.value.1
                          && timers == old(timers) - {t}
                          && forall u :: u in timers ==> Earlier(t, u)
    {
      if timers.Keys == {} { return None; }
      var t := Least(timers.Keys);
      if Earlier(now, t) { return None; }
      var entry := timers[t];
      timers := timers - {t};
      r := Some((t, entry.callback));
    }

    /** Any callback that does not add an entry up to `now`: it may add later
        ones, remove some and shut the queue down. */
    method CallBack(now: Time) returns (removed: set<Time>)
      requires Valid()
      modifies this
      ensures Valid() && Due(timers, now) <= Due(old(timers), now) <= Due(timers, now) + removed
      ensures forall t :: t in Due(timers, now) ==> timers[t] == old(timers)[t]
    {
      removed := *;
      var added: seq<(Time, T, string)> := *;
      var exits: bool := *;
      timers := timers - removed;
      for i := 0 to |added|
        invariant Valid() && Due(timers, now) <= Due(old(timers), now) <= Due(timers, now) + removed
        invariant forall t :: t in Due(timers, now) ==> timers[t] == old(timers)[t]
      {
        if Earlier(now, added[i].0) {
          var _ := AddTimer(added[i].2, added[i].0, added[i].1);
        }
      }
      if exits {
        removed := removed + timers.Keys;
        ExitGracefully();
      }
    }

    /** Fires what is ready, earliest first; `removed` is what the callbacks
        took off the queue themselves. */
    method NotifyTimerCallbacks(now: Time) returns (fired: seq<(Time, T)>, removed: set<Time>)
      requires Valid()
      modifies this
      ensures Valid() && FiredInOrder(fired, old(timers), now)
      ensures NoneForgotten(fired, removed, old(timers), timers, now) && Due(timers, now) == {}
    {
      fired, removed := [], {};
      assert FiredInOrder(fired, timers, now) && NoneForgotten(fired, removed, timers, timers, now);
      hide FiredInOrder, NoneForgotten;
      var more := true;
      while more
        invariant Valid() && FiredInOrder(fired, old(timers), now)
        invariant Due(timers, now) <= Due(old(timers), now)
        invariant forall t :: t in Due(timers, now) ==> timers[t] == old(timers)[t]
        invariant forall i, t :: 0 <= i < |fired| && t in Due(timers, now) ==> Earlier(fired[i].0, t)
        invariant NoneForgotten(fired, removed, old(timers), timers, now)
        invariant !more ==> Due(timers, now) == {}
        decreases more, |Due(timers, now)|
      {
        ghost var mid := timers;
        var ready := TakeReady(now);
        if ready.None? {
          more := false;
        } else {
          var t := ready.value.0;
          assert Due(timers, now) == Due(mid, now) - {t};
          FiredNext(fired, old(timers), now, ready.value);
          var gone := CallBack(now);
          StillNoneForgotten(fired, removed, old(timers), now, mid, ready.value, gone, timers);
          fired, removed := fired + [ready.value], removed + gone;
          Smaller(Due(timers, now), Due(mid, now) - {t});
        }
      }
    }

    method RemoveModuleTimers(owner: string) returns (count: nat)
      requires Valid()
      modifies this`timers
      ensures Valid() && count == |Owned(old(timers), owner)|
      ensures timers == old(timers) - Owned(old(timers), owner)
    {
      var queue: seq<Time> := [];
      var rest := timers.Keys;
      while rest != {}
        invariant rest <= timers.Keys
        invariant forall t :: t in queue <==> t in Owned(timers, owner) && t !in rest
        invariant forall i, j :: 0 <= i < j < |queue| ==> queue[i] != queue[j]
      {
        var t := Least(rest);
        if timers[t].owner == owner { queue := queue + [t]; }
        rest := rest - {t};
      }
      count := 0;
      while count < |queue|
        invariant count <= |queue| && Valid()
        invariant timers == old(timers) - Members(queue[..count])
      {
        assert queue[..count + 1] == queue[..count] + [queue[count]];
        timers := timers - {queue[count]};
        count := count + 1;
      }
      assert queue[..count] == queue;
      assert Members(queue) == Owned(old(timers), owner);
      MembersCount(queue);
    }
  }

  function Members(keys: seq<Time>): set<Time> {
    set t | t in keys
  }

  /** A key that the probe pushed past its second can hide an earlier time:
      the third of three timers for one microsecond, when the other two are
      gone, is slept for instead of the one at the next second. */
  method HiddenEntry<T(==)>(callback: T) returns (queue: TimerQueue<T>, sleepTime: nat)
    ensures queue.Valid() && Time(1, 0) in queue.timers
    ensures sleepTime > Micros(Time(1, 0)) - Micros(Time(0, 999999))
  {
    hide SleepTime, Leftover;
    queue := new TimerQueue<T>();
    var now := Time(0, 999999);
    var first := queue.AddTimer("", now, callback);
    assert Time(0, 999999) in queue.timers;
    var second := queue.AddTimer("", now, callback);
    assert second == Some(Time(0, 1000000));
    var third := queue.AddTimer("", now, callback);
    assert third == Some(Time(0, 1000001));
    var next := queue.AddTimer("", Time(1, 0), callback);
    assert next == Some(Time(1, 0));
    var _ := queue.DelTimer(first.value);
    var _ := queue.DelTimer(second.value);
    assert IsLeast(Time(0, 1000001), queue.timers.Keys);
    sleepTime := queue.GetCurrentSleepTime(now);
  }

  lemma {:induction false} MembersCount(keys: seq<Time>)
    requires forall i, j :: 0 <= i < j < |keys| ==> keys[i] != keys[j]
    ensures |Members(keys)| == |keys|
  {
    if keys == [] {
      assert Members(keys) == {};
    } else {
      var last := |keys| - 1;
      MembersCount(keys[..last]);
      assert keys == keys[..last] + [keys[last]];
      assert Members(keys) == Members(keys[..last]) + {keys[last]};
    }
  }

  lemma {:induction false} Smaller(a: set<Time>, b: set<Time>)
    requires a <= b
    ensures |a| <= |b|
  {
    if a != {} {
      var x :| x in a;
      Smaller(a - {x}, b - {x});
    }
  }
}
