/** What happened to the PINGs of src/modules/ircpp_keepalive/ircpp_keepalive.c. */
module Pings {
  import opened Basics
  import opened Times
  import opened Timers

  /** A PING is sent for a proxy with a deadline, and answered, given up or
      timed out later. */
  datatype Step = Sent(proxy: int, deadline: Time)
                | Answered(proxy: int, deadline: Time)
                | Cleared(proxy: int, deadline: Time)
                | TimedOut(proxy: int, deadline: Time)

  /** The deadline of the PING of a proxy that is still open. */
  function Pending(log: seq<Step>, proxy: int): Option<Time> {
    if log == [] then None
    else
      var last := log[|log| - 1];
      if last.proxy != proxy then Pending(log[..|log| - 1], proxy)
      else if last.Sent? then Some(last.deadline)
      else None
  }

  /** A PING is sent only when none is open, and only an open PING ends. */
  predicate Orderly(log: seq<Step>) {
    forall i :: 0 <= i < |log| ==>
      Pending(log[..i], log[i].proxy) == if log[i].Sent? then None else Some(log[i].deadline)
  }

  /** The first step of the proxy of step i after it, if there is one. */
  predicate Ends(log: seq<Step>, i: nat, j: nat) {
    && i < j < |log| && log[j].proxy == log[i].proxy
    && forall k :: i < k < j ==> log[k].proxy != log[i].proxy
  }

  /** Every PING is still open, or the next step of its proxy ends it; so there
      is never more than one open PING for a proxy. */
  lemma {:induction false} OneEnd(log: seq<Step>, i: nat)
    requires Orderly(log) && i < |log| && log[i].Sent?
    ensures Pending(log, log[i].proxy) == Some(log[i].deadline)
            || exists j: nat :: Ends(log, i, j) && !log[j].Sent? && log[j].deadline == log[i].deadline
  {
    if j: nat :| Ends(log, i, j) {
      Quiet(log, i, j);
    } else {
      NoEnd(log, i, |log|);
      Quiet(log, i, |log|);
      assert log[..|log|] == log;
    }
  }

  lemma {:induction false} NoEnd(log: seq<Step>, i: nat, n: nat)
    requires i < n <= |log| && !exists j: nat :: Ends(log, i, j)
    ensures forall k :: i < k < n ==> log[k].proxy != log[i].proxy
  {
    if n > i + 1 {
      NoEnd(log, i, n - 1);
      assert log[n - 1].proxy == log[i].proxy ==> Ends(log, i, n - 1);
    }
  }

  lemma {:induction false} Quiet(log: seq<Step>, i: nat, n: nat)
    requires i < n <= |log| && log[i].Sent?
    requires forall k :: i < k < n ==> log[k].proxy != log[i].proxy
    ensures Pending(log[..n], log[i].proxy) == Some(log[i].deadline)
  {
    var part := log[..n];
    if n == i + 1 {
      assert part[|part| - 1] == log[i];
    } else {
      Quiet(log, i, n - 1);
      assert part[..|part| - 1] == log[..n - 1];
    }
  }

  /** The open PINGs are those in the table of timeouts. */
  ghost predicate Recorded(log: seq<Step>, timeouts: map<int, Time>) {
    && Orderly(log)
    && forall p :: Pending(log, p) == if p in timeouts then Some(timeouts[p]) else None
  }

  lemma RecordSent(log: seq<Step>, timeouts: map<int, Time>, p: int, t: Time)
    requires Recorded(log, timeouts) && p !in timeouts
    ensures Recorded(log + [Sent(p, t)], timeouts[p := t])
  {
    Appended(log, Sent(p, t));
  }

  lemma RecordEnd(log: seq<Step>, timeouts: map<int, Time>, step: Step)
    requires Recorded(log, timeouts) && !step.Sent?
    requires step.proxy in timeouts && timeouts[step.proxy] == step.deadline
    ensures Recorded(log + [step], timeouts - {step.proxy})
  {
    Appended(log, step);
  }

  lemma Appended(log: seq<Step>, step: Step)
    requires Orderly(log) && Pending(log, step.proxy) == if step.Sent? then None else Some(step.deadline)
    ensures Orderly(log + [step])
    ensures forall p :: Pending(log + [step], p) ==
                        if p != step.proxy then Pending(log, p) else if step.Sent? then Some(step.deadline) else None
  {
    var after := log + [step];
    assert after[..|log|] == log;
    forall i | 0 <= i < |after|
      ensures Pending(after[..i], after[i].proxy) == if after[i].Sent? then None else Some(after[i].deadline)
    {
      if i < |log| { assert after[..i] == log[..i]; }
    }
  }

  /** The proxies whose PING timed out in some steps. */
  function Lost(steps: seq<Step>): set<int> {
    set i | 0 <= i < |steps| && steps[i].TimedOut? :: steps[i].proxy
  }

  // ----- the text of a PING

  function Digit(n: nat): char
    requires n < 10
  {
    "0123456789"[n]
  }

  function Decimal(n: nat): (s: string)
    ensures |s| > 0 && s[0] != '-'
  {
    (if n < 10 then [] else Decimal(n / 10)) + [Digit(n % 10)]
  }

  function Signed(n: int): (s: string)
    ensures |s| > 0
  {
    if n < 0 then "-" + Decimal(-n) else Decimal(n)
  }

  /** Seconds and microseconds, one after the other. */
  function Text(t: Time): string {
    Signed(t.sec) + Signed(t.usec)
  }

  lemma {:induction false} DecimalInjective(a: nat, b: nat)
    requires Decimal(a) == Decimal(b)
    ensures a == b
  {
    var s := Decimal(a);
    assert s[|s| - 1] == Digit(a % 10) == Digit(b % 10);
    assert a % 10 == b % 10;
    assert s[..|s| - 1] == (if a < 10 then [] else Decimal(a / 10)) == (if b < 10 then [] else Decimal(b / 10));
    if a >= 10 && b >= 10 {
      DecimalInjective(a / 10, b / 10);
    }
  }

  lemma SignedInjective(a: int, b: int)
    requires Signed(a) == Signed(b)
    ensures a == b
  {
    hide Decimal;
    assert Signed(a)[0] == '-' <==> a < 0;
    assert Signed(b)[0] == '-' <==> b < 0;
    if a < 0 && b < 0 {
      assert Signed(a)[1..] == Decimal(-a) && Signed(b)[1..] == Decimal(-b);
      DecimalInjective(-a, -b);
    } else if a >= 0 && b >= 0 {
      DecimalInjective(a, b);
    }
  }

  /** Two PINGs look alike only if their seconds differ in length or they have
      the same deadline. */
  lemma TextInjective(t: Time, u: Time)
    requires |Signed(t.sec)| == |Signed(u.sec)| && Text(t) == Text(u)
    ensures t == u
  {
    hide Signed;
    var n := |Signed(t.sec)|;
    assert Text(t)[..n] == Signed(t.sec) && Text(t)[n..] == Signed(t.usec);
    assert Text(u)[..n] == Signed(u.sec) && Text(u)[n..] == Signed(u.usec);
    SignedInjective(t.sec, u.sec);
    SignedInjective(t.usec, u.usec);
  }

  /** Without a separator, texts of different deadlines can coincide. */
  lemma TextNotInjective()
    ensures Text(Time(1, 23)) == Text(Time(12, 3))
  {
    assert Decimal(1) == "1" && Decimal(2) == "2" && Decimal(3) == "3";
    assert Decimal(23) == Decimal(2) + [Digit(3)] && Decimal(12) == Decimal(1) + [Digit(2)];
  }

  // ----- exactly which seconds can be mistaken for one another

  /** A clock reading, as deadlines are unless the queue moved them. */
  predicate Reading(t: Time) {
    t.sec >= 0 && Whole(t)
  }

  /** The longer decimal goes on, after the shorter one, with one to five
      digits that do not start with a zero. */
  predicate Extends(b: string, a: string) {
    |a| < |b| <= |a| + 5 && b[..|a|] == a && b[|a|] != '0'
  }

  function Pow10(k: nat): (p: nat)
    ensures p > 0
  {
    if k == 0 then 1 else 10 * Pow10(k - 1)
  }

  predicate Digits(s: string) {
    forall i :: 0 <= i < |s| ==> '0' <= s[i] <= '9'
  }

  function Value(s: string): nat
    requires Digits(s)
  {
    if s == [] then 0 else 10 * Value(s[..|s| - 1]) + (s[|s| - 1] - '0') as nat
  }

  lemma {:induction false} DecimalShape(n: nat, k: nat)
    ensures Digits(Decimal(n)) && (n > 0 ==> Decimal(n)[0] != '0')
    ensures k > 0 && n < Pow10(k) ==> |Decimal(n)| <= k
    decreases n
  {
    if n >= 10 { DecimalShape(n / 10, if k > 0 then k - 1 else 0); }
  }

  lemma {:induction false} ValueShape(s: string)
    requires Digits(s) && s != [] && s[0] != '0'
    ensures 0 < Value(s) < Pow10(|s|) && Decimal(Value(s)) == s
  {
    hide Value, Decimal, Pow10, Digit;
    var d := ValueNext(s);
    if |s| == 1 {
      OneDigit(s, d);
    } else {
      var front := s[..|s| - 1];
      ValueShape(front);
      NextDigit(Value(front), d);
      assert s == front + [s[|s| - 1]];
    }
  }

  lemma ValueNext(s: string) returns (d: nat)
    requires Digits(s) && s != []
    ensures d < 10 && Digit(d) == s[|s| - 1] && d == (s[|s| - 1] - '0') as nat && (s[|s| - 1] != '0' ==> d > 0)
    ensures Value(s) == 10 * Value(s[..|s| - 1]) + d && Pow10(|s|) == 10 * Pow10(|s| - 1)
  {
    d := (s[|s| - 1] - '0') as nat;
    DigitOf(s[|s| - 1], d);
  }

  lemma DigitOf(c: char, d: nat)
    requires '0' <= c <= '9' && d == (c - '0') as nat
    ensures d < 10 && Digit(d) == c && (c != '0' ==> d > 0)
  {}

  lemma OneDigit(s: string, d: nat)
    requires |s| == 1 && Digits(s) && d == (s[0] - '0') as nat > 0 && Digit(d) == s[0]
    ensures Value(s) == d && 0 < d < Pow10(|s|) && Decimal(d) == s
  {
    assert s[..0] == [] && Value(s) == d && Pow10(1) == 10;
  }

  lemma NextDigit(n: nat, d: nat)
    requires n > 0 && d < 10
    ensures Decimal(10 * n + d) == Decimal(n) + [Digit(d)]
  {
    assert (10 * n + d) / 10 == n && (10 * n + d) % 10 == d;
  }

  lemma SameTextExtends(t: Time, u: Time)
    requires Reading(t) && Reading(u) && Text(t) == Text(u) && |Decimal(t.sec)| < |Decimal(u.sec)|
    ensures Extends(Decimal(u.sec), Decimal(t.sec))
  {
    var a, b, c, d := Decimal(t.sec), Decimal(u.sec), Decimal(t.usec), Decimal(u.usec);
    UsecShape(t);
    hide Decimal, Value, Digits, Pow10;
    assert (a + c)[..|a|] == a && (b + d)[..|a|] == b[..|a|];
    assert c == (a + c)[|a|..] == (b + d)[|a|..] == b[|a|..] + d;
  }

  lemma UsecShape(t: Time)
    requires Reading(t)
    ensures |Decimal(t.usec)| <= 6 && (Decimal(t.usec)[0] == '0' ==> |Decimal(t.usec)| == 1)
  {
    hide Pow10, Digits, Decimal;
    SixDigits();
    DecimalShape(t.usec, 6);
    if t.usec == 0 { Zero(); }
  }

  /** Up to six digits without a leading zero are a number of microseconds. */
  lemma Microseconds(s: string) returns (u: nat)
    requires Digits(s) && 0 < |s| <= 6 && s[0] != '0'
    ensures u < USEC_PER_SEC && Decimal(u) == s
  {
    ValueShape(s);
    u := Value(s);
    hide Pow10, Value, Decimal;
    Pow10Grows(|s|, 6);
    SixDigits();
  }

  lemma SixDigits()
    ensures Pow10(6) == USEC_PER_SEC
  {}

  lemma TextOf(t: Time)
    requires t.sec >= 0 && t.usec >= 0
    ensures Text(t) == Decimal(t.sec) + Decimal(t.usec)
  {}

  lemma MoreDigits(a: string, b: string)
    requires |a| < |b| && b[..|a|] == a
    ensures b + "0" == a + (b[|a|..] + "0")
  {
    assert b == a + b[|a|..];
  }

  lemma Zero()
    ensures Decimal(0) == "0"
  {}

  lemma ExtendsSameText(s: nat, t: nat)
    requires Extends(Decimal(t), Decimal(s))
    ensures exists u, v :: 0 <= u < USEC_PER_SEC && 0 <= v < USEC_PER_SEC && Text(Time(s, u)) == Text(Time(t, v))
  {
    hide Decimal, Text;
    DecimalShape(t, 0);
    var u := Microseconds(Decimal(t)[|Decimal(s)|..] + "0");
    Zero();
    MoreDigits(Decimal(s), Decimal(t));
    TextOf(Time(s, u));
    TextOf(Time(t, 0));
  }

  lemma {:induction false} Pow10Grows(m: nat, n: nat)
    requires m <= n
    ensures Pow10(m) <= Pow10(n)
  {
    if m < n { Pow10Grows(m, n - 1); }
  }

  /** Deadlines in two different seconds can have one text if and only if the
      decimal of one second extends that of the other. */
  lemma SameTextExactly(s: nat, t: nat)
    requires s != t
    ensures (exists u, v :: 0 <= u < USEC_PER_SEC && 0 <= v < USEC_PER_SEC && Text(Time(s, u)) == Text(Time(t, v)))
            <==> Extends(Decimal(t), Decimal(s)) || Extends(Decimal(s), Decimal(t))
  {
    hide Decimal, Text, Extends;
    if u, v :| 0 <= u < USEC_PER_SEC && 0 <= v < USEC_PER_SEC && Text(Time(s, u)) == Text(Time(t, v)) {
      SecondsDiffer(Time(s, u), Time(t, v));
    }
    if Extends(Decimal(t), Decimal(s)) { ExtendsSameText(s, t); }
    if Extends(Decimal(s), Decimal(t)) {
      ExtendsSameText(t, s);
      var u, v :| 0 <= u < USEC_PER_SEC && 0 <= v < USEC_PER_SEC && Text(Time(t, u)) == Text(Time(s, v));
      assert Text(Time(s, v)) == Text(Time(t, u));
    }
  }

  lemma SecondsDiffer(t: Time, u: Time)
    requires Reading(t) && Reading(u) && Text(t) == Text(u) && t != u
    ensures Extends(Decimal(u.sec), Decimal(t.sec)) || Extends(Decimal(t.sec), Decimal(u.sec))
  {
    hide Decimal, Text, Extends;
    assert Signed(t.sec) == Decimal(t.sec) && Signed(u.sec) == Decimal(u.sec);
    if |Decimal(t.sec)| < |Decimal(u.sec)| {
      SameTextExtends(t, u);
    } else if |Decimal(u.sec)| < |Decimal(t.sec)| {
      SameTextExtends(u, t);
    } else {
      TextInjective(t, u);
    }
  }

  lemma {:induction false} ExtendsTenfold(b: nat, a: nat)
    requires |Decimal(a)| < |Decimal(b)| && Decimal(b)[..|Decimal(a)|] == Decimal(a)
    ensures b >= 10 * a
    decreases b
  {
    var n := |Decimal(a)|;
    assert b >= 10;
    assert Decimal(b)[..|Decimal(b)| - 1] == Decimal(b / 10);
    assert Decimal(b)[..n] == Decimal(b / 10)[..n];
    if |Decimal(b / 10)| == n {
      assert Decimal(b / 10)[..n] == Decimal(b / 10);
      DecimalInjective(b / 10, a);
    } else {
      ExtendsTenfold(b / 10, a);
    }
  }

  /** So a PONG is taken for an answer to another PING only if the seconds of
      the two deadlines are apart by a factor of ten. */
  lemma MistakenTenfold(t: Time, u: Time)
    requires Reading(t) && Reading(u) && Text(t) == Text(u) && t != u
    ensures t.sec >= 10 * u.sec || u.sec >= 10 * t.sec
  {
    hide Decimal, Text;
    SecondsDiffer(t, u);
    if Extends(Decimal(u.sec), Decimal(t.sec)) {
      ExtendsTenfold(u.sec, t.sec);
    } else {
      ExtendsTenfold(t.sec, u.sec);
    }
  }
}

/** The keepalive plugin of the IRC proxy, on top of the timer queue. */
module Keepalives {
  import opened Basics
  import opened Times
  import opened Timers
  import opened Pings

  datatype Kind = Challenging | Expiring | Reconnecting

  datatype Callback = Keep(kind: Kind, proxy: int) | Foreign(id: int)

  type Queue = map<Time, Entry<Callback>>

  const OWNER := "ircpp_keepalive"

  /** The table names, for each of its proxies, the one queue entry with the
      callback of that kind for that proxy; there are no others. */
  predicate Names(table: map<int, Time>, timers: Queue, kind: Kind) {
    && (forall p :: p in table ==> table[p] in timers && timers[table[p]].callback == Keep(kind, p))
    && (forall t :: t in timers && timers[t].callback.Keep? && timers[t].callback.kind == kind ==>
          timers[t].callback.proxy in table && table[timers[t].callback.proxy] == t)
  }

  lemma NamesAdded(table: map<int, Time>, timers: Queue, kind: Kind, p: int, t: Time)
    requires Names(table, timers, kind) && p !in table && t !in timers
    ensures Names(table[p := t], timers[t := Entry(Keep(kind, p), OWNER)], kind)
  {}

  lemma NamesKept(table: map<int, Time>, timers: Queue, kind: Kind, t: Time, entry: Entry<Callback>)
    requires Names(table, timers, kind) && t !in timers && !(entry.callback.Keep? && entry.callback.kind == kind)
    ensures Names(table, timers[t := entry], kind)
  {}

  lemma NamesRemoved(table: map<int, Time>, timers: Queue, kind: Kind, p: int, t: Time)
    requires Names(table, timers, kind) && t in timers && timers[t].callback == Keep(kind, p)
    ensures p in table && table[p] == t && Names(table - {p}, timers - {t}, kind)
  {}

  lemma NamesNotRemoved(table: map<int, Time>, timers: Queue, kind: Kind, t: Time)
    requires Names(table, timers, kind) && t in timers
    requires !(timers[t].callback.Keep? && timers[t].callback.kind == kind)
    ensures Names(table, timers - {t}, kind)
  {}

  /** Tables, queue and log agree. */
  ghost predicate Agree(challenges: map<int, Time>, timeouts: map<int, Time>, timers: Queue, enabled: set<int>, log: seq<Step>) {
    && Names(challenges, timers, Challenging) && Names(timeouts, timers, Expiring)
    && challenges.Keys <= enabled && timeouts.Keys <= enabled
    && Recorded(log, timeouts)
  }

  lemma AgreeAdded(challenges: map<int, Time>, timeouts: map<int, Time>, timers: Queue, enabled: set<int>, log: seq<Step>,
                   p: int, t: Time)
    requires Agree(challenges, timeouts, timers, enabled, log)
    requires p in enabled && p !in challenges && t !in timers
    ensures Agree(challenges[p := t], timeouts, timers[t := Entry(Keep(Challenging, p), OWNER)], enabled, log)
  {
    hide Names, Recorded;
    NamesAdded(challenges, timers, Challenging, p, t);
    NamesKept(timeouts, timers, Expiring, t, Entry(Keep(Challenging, p), OWNER));
  }

  lemma AgreeSent(challenges: map<int, Time>, timeouts: map<int, Time>, timers: Queue, enabled: set<int>, log: seq<Step>,
                  p: int, t: Time)
    requires Agree(challenges, timeouts, timers, enabled, log)
    requires p in enabled && p !in timeouts && t !in timers
    ensures Agree(challenges, timeouts[p := t], timers[t := Entry(Keep(Expiring, p), OWNER)], enabled, log + [Sent(p, t)])
  {
    hide Names, Recorded;
    NamesAdded(timeouts, timers, Expiring, p, t);
    NamesKept(challenges, timers, Challenging, t, Entry(Keep(Expiring, p), OWNER));
    RecordSent(log, timeouts, p, t);
  }

  lemma AgreeTaken(challenges: map<int, Time>, timeouts: map<int, Time>, timers: Queue, enabled: set<int>, log: seq<Step>,
                   p: int, t: Time)
    requires Agree(challenges, timeouts, timers, enabled, log)
    requires t in timers && timers[t].callback == Keep(Challenging, p)
    ensures p in challenges && challenges[p] == t
    ensures Agree(challenges - {p}, timeouts, timers - {t}, enabled, log)
  {
    hide Names, Recorded;
    NamesRemoved(challenges, timers, Challenging, p, t);
    NamesNotRemoved(timeouts, timers, Expiring, t);
  }

  /** The timeout of a PING leaves the queue for the reason logged. */
  lemma AgreeEnded(challenges: map<int, Time>, timeouts: map<int, Time>, timers: Queue, enabled: set<int>, log: seq<Step>,
                   step: Step)
    requires Agree(challenges, timeouts, timers, enabled, log) && !step.Sent?
    requires step.deadline in timers && timers[step.deadline].callback == Keep(Expiring, step.proxy)
    ensures step.proxy in timeouts && timeouts[step.proxy] == step.deadline
    ensures Agree(challenges, timeouts - {step.proxy}, timers - {step.deadline}, enabled, log + [step])
  {
    hide Names, Recorded;
    NamesRemoved(timeouts, timers, Expiring, step.proxy, step.deadline);
    NamesNotRemoved(challenges, timers, Challenging, step.deadline);
    RecordEnd(log, timeouts, step);
  }

  /** Entries with other callbacks come and go. */
  lemma AgreeOther(challenges: map<int, Time>, timeouts: map<int, Time>, timers: Queue, enabled: set<int>, log: seq<Step>,
                   t: Time, entry: Entry<Callback>)
    requires Agree(challenges, timeouts, timers, enabled, log)
    requires entry.callback.Foreign? || entry.callback.kind == Reconnecting
    ensures t !in timers ==> Agree(challenges, timeouts, timers[t := entry], enabled, log)
    ensures t in timers && timers[t] == entry ==> Agree(challenges, timeouts, timers - {t}, enabled, log)
  {
    hide Names, Recorded;
    if t !in timers {
      NamesKept(challenges, timers, Challenging, t, entry);
      NamesKept(timeouts, timers, Expiring, t, entry);
    } else if timers[t] == entry {
      NamesNotRemoved(challenges, timers, Challenging, t);
      NamesNotRemoved(timeouts, timers, Expiring, t);
    }
  }

  lemma Named(challenges: map<int, Time>, timeouts: map<int, Time>, timers: Queue, enabled: set<int>, log: seq<Step>, p: int)
    requires Agree(challenges, timeouts, timers, enabled, log)
    ensures p in challenges ==>
              challenges[p] in timers && timers[challenges[p]].callback == Keep(Challenging, p) && p in enabled
    ensures p in timeouts ==>
              timeouts[p] in timers && timers[timeouts[p]].callback == Keep(Expiring, p) && p in enabled
    ensures Pending(log, p) == if p in timeouts then Some(timeouts[p]) else None
  {}

  /** The queue gained one entry at the first free time after a request. */
  predicate Gained(timers: Queue, after: Queue, request: Time, callback: Callback, t: Time) {
    FirstFree(timers, request, t) && after == timers[t := Entry(callback, OWNER)]
  }

  /** The queue without the entry a table names for a proxy. */
  function Stripped(timers: Queue, table: map<int, Time>, proxy: int): Queue {
    if proxy in table then timers - {table[proxy]} else timers
  }

  /** Only the timers of the two kinds for the proxy have gone. */
  ghost predicate Freed(timers: Queue, after: Queue, proxy: int) {
    forall t :: if t in timers && timers[t].callback !in {Keep(Challenging, proxy), Keep(Expiring, proxy)}
                then t in after && after[t] == timers[t] else t !in after
  }

  lemma FreedExactly(challenges: map<int, Time>, timeouts: map<int, Time>, timers: Queue, enabled: set<int>, log: seq<Step>, proxy: int)
    requires Agree(challenges, timeouts, timers, enabled, log)
    ensures Freed(timers, Stripped(Stripped(timers, timeouts, proxy), challenges, proxy), proxy)
  {
    hide Recorded;
  }

  function ClearedSteps(timeouts: map<int, Time>, proxy: int): seq<Step> {
    if proxy in timeouts then [Cleared(proxy, timeouts[proxy])] else []
  }

  /** The timers of a proxy are replaced by one new challenge. */
  predicate Rescheduled(proxy: int, request: Time, challenges: map<int, Time>, timeouts: map<int, Time>, timers: Queue,
                        challenges1: map<int, Time>, timeouts1: map<int, Time>, timers1: Queue)
  {
    && proxy in challenges1 && challenges1 == challenges[proxy := challenges1[proxy]]
    && timeouts1 == timeouts - {proxy}
    && Gained(Stripped(Stripped(timers, timeouts, proxy), challenges, proxy), timers1, request,
              Keep(Challenging, proxy), challenges1[proxy])
  }

  class Keepalive {
    const queue: TimerQueue<Callback>
    var challenges: map<int, Time>
    var timeouts: map<int, Time>
    var enabled: set<int>
    var connected: set<int>
    var keepaliveInterval: nat
    var keepaliveTimeout: nat
    var reconnectTimeout: nat
    var sent: seq<(int, string)>
    ghost var log: seq<Step>

    /** The timer queue is up, and everything agrees. */
    ghost predicate Valid()
      reads this, queue
    {
      queue.Valid() && !queue.exiting && Agree(challenges, timeouts, queue.timers, enabled, log)
    }

    constructor (queue: TimerQueue<Callback>, interval: nat, timeout: nat, reconnectTimeout: nat)
      requires queue.Valid() && !queue.exiting
      requires forall t :: t in queue.timers ==> queue.timers[t].callback.Foreign?
      ensures Valid() && this.queue == queue && enabled == {} && connected == {} && log == [] && sent == []
      ensures challenges == map[] && timeouts == map[]
      ensures keepaliveInterval == interval && keepaliveTimeout == timeout && this.reconnectTimeout == reconnectTimeout
    {
      this.queue := queue;
      challenges, timeouts := map[], map[];
      enabled, connected := {}, {};
      keepaliveInterval, keepaliveTimeout, this.reconnectTimeout := interval, timeout, reconnectTimeout;
      sent := [];
      log := [];
    }

    /** Never fails, and leaves no timer of the two kinds for the proxy. */
    method ClearKeepaliveTimers(proxy: int) returns (ok: bool)
      requires Valid()
      modifies this`challenges, this`timeouts, this`log, queue`timers
      ensures Valid() && ok
      ensures challenges == old(challenges) - {proxy} && timeouts == old(timeouts) - {proxy}
      ensures log == old(log) + ClearedSteps(old(timeouts), proxy)
      ensures queue.timers == Stripped(Stripped(old(queue.timers), old(timeouts), proxy), old(challenges), proxy)
      ensures Freed(old(queue.timers), queue.timers, proxy)
    {
      FreedExactly(challenges, timeouts, queue.timers, enabled, log, proxy);
      hide Agree, Freed;
      Named(challenges, timeouts, queue.timers, enabled, log, proxy);
      if proxy in timeouts {
        AgreeEnded(challenges, timeouts, queue.timers, enabled, log, Cleared(proxy, timeouts[proxy]));
        ok := queue.DelTimer(timeouts[proxy]);
        if !ok { return false; }
        log := log + [Cleared(proxy, timeouts[proxy])];
        timeouts := timeouts - {proxy};
      }
      Named(challenges, timeouts, queue.timers, enabled, log, proxy);
      if proxy in challenges {
        AgreeTaken(challenges, timeouts, queue.timers, enabled, log, proxy, challenges[proxy]);
        ok := queue.DelTimer(challenges[proxy]);
        if !ok { return false; }
        challenges := challenges - {proxy};
      }
      ok := true;
    }

    /** The one timer of the proxy is a new challenge. */
    method RescheduleKeepaliveTimer(proxy: int, now: Time) returns (ok: bool)
      requires Valid()
      modifies this`challenges, this`timeouts, this`log, queue`timers
      ensures ok && queue.Valid() && Agree(challenges, timeouts, queue.timers, enabled + {proxy}, log)
      ensures Rescheduled(proxy, Shift(now, Timeout(keepaliveInterval)), old(challenges), old(timeouts), old(queue.timers),
                          challenges, timeouts, queue.timers)
      ensures log == old(log) + ClearedSteps(old(timeouts), proxy)
    {
      ok := ClearKeepaliveTimers(proxy);
      if !ok { return false; }
      if proxy in challenges { return false; }
      AgreeMore(challenges, timeouts, queue.timers, enabled, log, proxy);
      hide Agree, FirstFree;
      ghost var timers := queue.timers;
      var timer := queue.AddTimeout(OWNER, now, Timeout(keepaliveInterval), Keep(Challenging, proxy));
      if timer.None? { return false; }
      FirstFreeIsLater(timers, Shift(now, Timeout(keepaliveInterval)), timer.value);
      AgreeAdded(challenges, timeouts, timers, enabled + {proxy}, log, proxy, timer.value);
      challenges := challenges[proxy := timer.value];
      ok := true;
    }

    /** Loads the plugin for a proxy. */
    method EnableIrcProxyPlugin(proxy: int, now: Time) returns (ok: bool)
      requires Valid()
      modifies this`challenges, this`timeouts, this`log, this`enabled, queue`timers
      ensures Valid() && (ok <==> proxy !in old(enabled)) && enabled == old(enabled) + {proxy}
      ensures log == old(log) && timeouts == old(timeouts) && (ok ==> proxy !in timeouts)
      ensures if ok && proxy in connected then
                Rescheduled(proxy, Shift(now, Timeout(keepaliveInterval)), old(challenges), old(timeouts), old(queue.timers),
                            challenges, timeouts, queue.timers)
              else challenges == old(challenges) && queue.timers == old(queue.timers)
    {
      if proxy in enabled {
        assert enabled + {proxy} == enabled;
        return false;
      }
      assert proxy !in timeouts;
      if proxy in connected {
        ok := RescheduleKeepaliveTimer(proxy, now);
        if !ok { return false; }
        assert timeouts == old(timeouts);
      } else {
        AgreeMore(challenges, timeouts, queue.timers, enabled, log, proxy);
      }
      enabled := enabled + {proxy};
      ok := true;
    }

    /** Unloads it: no timer of the two kinds is left behind. */
    method DisableIrcProxyPlugin(proxy: int) returns (ok: bool)
      requires Valid()
      modifies this`challenges, this`timeouts, this`log, this`enabled, queue`timers
      ensures Valid() && (ok <==> proxy in old(enabled)) && enabled == old(enabled) - {proxy}
      ensures challenges == old(challenges) - {proxy} && timeouts == old(timeouts) - {proxy}
      ensures queue.timers == Stripped(Stripped(old(queue.timers), old(timeouts), proxy), old(challenges), proxy)
      ensures Freed(old(queue.timers), queue.timers, proxy)
    {
      if proxy !in enabled {
        assert proxy !in challenges && proxy !in timeouts;
        assert challenges - {proxy} == challenges && timeouts - {proxy} == timeouts;
        return false;
      }
      var _ := ClearKeepaliveTimers(proxy);
      enabled := enabled - {proxy};
      ok := true;
    }

    method BouncerReattached(proxy: int, now: Time)
      requires Valid()
      modifies this`challenges, this`timeouts, this`log, queue`timers
      ensures Valid()
      ensures if proxy in enabled then
                && Rescheduled(proxy, Shift(now, Timeout(keepaliveInterval)), old(challenges), old(timeouts),
                               old(queue.timers), challenges, timeouts, queue.timers)
                && log == old(log) + ClearedSteps(old(timeouts), proxy)
              else unchanged(this) && unchanged(queue)
    {
      if proxy in enabled {
        var _ := RescheduleKeepaliveTimer(proxy, now);
        assert enabled + {proxy} == enabled;
      }
    }

    /** The server has registered the connection. */
    method RemoteReconnect(proxy: int, now: Time)
      requires Valid()
      modifies this`challenges, this`timeouts, this`log, queue`timers
      ensures Valid()
      ensures if proxy in enabled then
                && Rescheduled(proxy, Shift(now, Timeout(keepaliveInterval)), old(challenges), old(timeouts),
                               old(queue.timers), challenges, timeouts, queue.timers)
                && log == old(log) + ClearedSteps(old(timeouts), proxy)
              else unchanged(this) && unchanged(queue)
    {
      if proxy in enabled {
        var _ := RescheduleKeepaliveTimer(proxy, now);
        assert enabled + {proxy} == enabled;
      }
    }

    /** A PONG with the text of the open PING ends it; any other line changes
        nothing.  A PONG for another deadline can end it only if the seconds of
        the two are apart by a factor of ten. */
    method RemoteLine(proxy: int, command: string, trailing: Option<string>)
      requires Valid()
      modifies this`timeouts, this`log, queue`timers
      ensures Valid()
      ensures if proxy in old(timeouts) && command == "PONG" && trailing == Some(Text(old(timeouts)[proxy])) then
                timeouts == old(timeouts) - {proxy} && log == old(log) + [Answered(proxy, old(timeouts)[proxy])]
                && queue.timers == old(queue.timers) - {old(timeouts)[proxy]}
              else unchanged(this) && unchanged(queue)
      ensures forall t :: timeouts != old(timeouts) && trailing == Some(Text(t)) && t != old(timeouts)[proxy]
                          && Reading(t) && Reading(old(timeouts)[proxy]) ==>
                t.sec >= 10 * old(timeouts)[proxy].sec || old(timeouts)[proxy].sec >= 10 * t.sec
    {
      hide Agree, Text;
      forall t | Reading(t) && proxy in timeouts && Reading(timeouts[proxy]) && Text(t) == Text(timeouts[proxy]) && t != timeouts[proxy]
        ensures t.sec >= 10 * timeouts[proxy].sec || timeouts[proxy].sec >= 10 * t.sec
      {
        MistakenTenfold(t, timeouts[proxy]);
      }
      Named(challenges, timeouts, queue.timers, enabled, log, proxy);
      if proxy in enabled {
        if command == "PONG" && trailing.Some? {
          if proxy in timeouts {
            if trailing.value == Text(timeouts[proxy]) {
              AgreeEnded(challenges, timeouts, queue.timers, enabled, log, Answered(proxy, timeouts[proxy]));
              var stopped := queue.DelTimer(timeouts[proxy]);
              if stopped {
                log := log + [Answered(proxy, timeouts[proxy])];
                timeouts := timeouts - {proxy};
              }
            }
          }
        }
      }
    }

    /** The connection is lost; it will be attempted again later. */
    method RemoteDisconnect(proxy: int, now: Time)
      requires Valid()
      modifies this`connected, queue`timers
      ensures Valid() && connected == old(connected) - {proxy}
      ensures if proxy in enabled then
                exists t :: Gained(old(queue.timers), queue.timers, Shift(now, Timeout(reconnectTimeout)), Keep(Reconnecting, proxy), t)
              else queue.timers == old(queue.timers)
    {
      connected := connected - {proxy};
      if proxy in enabled { AddReconnect(proxy, now); }
    }

    method RemoteConnect(proxy: int)
      requires Valid()
      modifies this`connected
      ensures Valid() && connected == old(connected) + {proxy}
    {
      connected := connected + {proxy};
    }

    method ReloadedConfig(interval: Option<nat>, timeout: Option<nat>, reconnect: Option<nat>)
      requires Valid()
      modifies this`keepaliveInterval, this`keepaliveTimeout, this`reconnectTimeout
      ensures Valid()
      ensures keepaliveInterval == if interval.Some? then interval.value else old(keepaliveInterval)
      ensures keepaliveTimeout == if timeout.Some? then timeout.value else old(keepaliveTimeout)
      ensures reconnectTimeout == if reconnect.Some? then reconnect.value else old(reconnectTimeout)
    {
      if interval.Some? { keepaliveInterval := interval.value; }
      if timeout.Some? { keepaliveTimeout := timeout.value; }
      if reconnect.Some? { reconnectTimeout := reconnect.value; }
    }

    method AddReconnect(proxy: int, now: Time)
      requires Valid()
      modifies queue`timers
      ensures Valid()
      ensures exists t :: Gained(old(queue.timers), queue.timers, Shift(now, Timeout(reconnectTimeout)), Keep(Reconnecting, proxy), t)
    {
      hide Agree;
      ghost var timers := queue.timers;
      var timer := queue.AddTimeout(OWNER, now, Timeout(reconnectTimeout), Keep(Reconnecting, proxy));
      AgreeOther(challenges, timeouts, timers, enabled, log, timer.value, Entry(Keep(Reconnecting, proxy), OWNER));
      assert Gained(timers, queue.timers, Shift(now, Timeout(reconnectTimeout)), Keep(Reconnecting, proxy), timer.value);
    }

    // ----- the callbacks, called when their entry has left the queue

    /** Sends a PING unless one is open, and comes back after the interval. */
    method Challenge(proxy: int, now: Time, later: Time)
      requires queue.Valid() && !queue.exiting && proxy in enabled
      requires Agree(challenges - {proxy}, timeouts, queue.timers, enabled, log)
      modifies this`challenges, this`timeouts, this`log, this`sent, queue`timers
      ensures Valid()
      ensures proxy !in connected ==> challenges == old(challenges) - {proxy} && queue.timers == old(queue.timers)
      ensures proxy !in connected || proxy in old(timeouts) ==>
                timeouts == old(timeouts) && log == old(log) && sent == old(sent)
      ensures proxy in connected ==> proxy in challenges && challenges == old(challenges)[proxy := challenges[proxy]]
      ensures proxy in connected && proxy in old(timeouts) ==>
                Gained(old(queue.timers), queue.timers, Shift(later, Timeout(keepaliveInterval)), Keep(Challenging, proxy), challenges[proxy])
      ensures proxy in connected && proxy !in old(timeouts) ==>
                && proxy in timeouts && timeouts == old(timeouts)[proxy := timeouts[proxy]]
                && log == old(log) + [Sent(proxy, timeouts[proxy])]
                && sent == old(sent) + [(proxy, "PING :" + Text(timeouts[proxy]))]
                && var mid := old(queue.timers)[timeouts[proxy] := Entry(Keep(Expiring, proxy), OWNER)];
                   && Gained(old(queue.timers), mid, Shift(now, Timeout(keepaliveTimeout)), Keep(Expiring, proxy), timeouts[proxy])
                   && Gained(mid, queue.timers, Shift(later, Timeout(keepaliveInterval)), Keep(Challenging, proxy), challenges[proxy])
    {
      hide Agree, Text, FirstFree;
      challenges := challenges - {proxy};
      if proxy !in connected { return; }
      if proxy !in timeouts {
        ghost var timers := queue.timers;
        var timeout := queue.AddTimeout(OWNER, now, Timeout(keepaliveTimeout), Keep(Expiring, proxy));
        if timeout.None? { return; }
        FirstFreeIsLater(timers, Shift(now, Timeout(keepaliveTimeout)), timeout.value);
        AgreeSent(challenges, timeouts, timers, enabled, log, proxy, timeout.value);
        timeouts := timeouts[proxy := timeout.value];
        sent := sent + [(proxy, "PING :" + Text(timeout.value))];
        log := log + [Sent(proxy, timeout.value)];
      }
      ghost var timers := queue.timers;
      var timer := queue.AddTimeout(OWNER, later, Timeout(keepaliveInterval), Keep(Challenging, proxy));
      if timer.None? { return; }
      FirstFreeIsLater(timers, Shift(later, Timeout(keepaliveInterval)), timer.value);
      AgreeAdded(challenges, timeouts, timers, enabled, log, proxy, timer.value);
      challenges := challenges[proxy := timer.value];
    }

    /** No answer came in time: the socket is disconnected. */
    method ChallengeTimeout(proxy: int)
      requires queue.Valid() && !queue.exiting && proxy in timeouts
      requires Agree(challenges, timeouts - {proxy}, queue.timers, enabled, log + [TimedOut(proxy, timeouts[proxy])])
      modifies this`timeouts, this`log, this`connected
      ensures Valid() && connected == old(connected) - {proxy}
      ensures timeouts == old(timeouts) - {proxy} && log == old(log) + [TimedOut(proxy, old(timeouts)[proxy])]
    {
      log := log + [TimedOut(proxy, timeouts[proxy])];
      timeouts := timeouts - {proxy};
      connected := connected - {proxy};
    }

    /** Tries again later if connecting does not even start. */
    method Reconnect(proxy: int, started: bool, now: Time)
      requires Valid()
      modifies queue`timers
      ensures Valid()
      ensures if proxy in connected || started then queue.timers == old(queue.timers)
              else exists t :: Gained(old(queue.timers), queue.timers, Shift(now, Timeout(reconnectTimeout)), Keep(Reconnecting, proxy), t)
    {
      if proxy in connected { return; }
      if !started { AddReconnect(proxy, now); }
    }

    // ----- the timer queue at work

    /** The clock does not run backwards. */
    method CurrentTime(since: Time) returns (now: Time)
      requires Whole(since)
      ensures !Earlier(now, since) && Whole(now)
    {
      var passed: int := *;
      now := Shift(since, if passed < 0 then 0 else passed);
      assert Micros(now) >= Micros(since);
    }

    /** Challenges and reconnection attempts come back later than now: their
        numbers of seconds are not zero and fit an int of microseconds. */
    predicate Rearms()
      reads this
    {
      Timeout(keepaliveInterval) > 0 && Timeout(reconnectTimeout) > 0
    }

    /** A callback of another module, which leaves our timers alone. */
    method ForeignCallback(snapshot: Time)
      requires Valid()
      modifies queue`timers
      ensures Valid() && Causes(queue.timers, snapshot) <= Causes(old(queue.timers), snapshot)
    {
      hide Agree;
      var removed: seq<Time> := *;
      var added: seq<(Time, int, string)> := *;
      for i := 0 to |removed|
        invariant Valid() && Causes(queue.timers, snapshot) <= Causes(old(queue.timers), snapshot)
      {
        var t := removed[i];
        if t in queue.timers && queue.timers[t].callback.Foreign? {
          AgreeOther(challenges, timeouts, queue.timers, enabled, log, t, queue.timers[t]);
          var _ := queue.DelTimer(t);
        }
      }
      for i := 0 to |added|
        invariant Valid() && Causes(queue.timers, snapshot) <= Causes(old(queue.timers), snapshot)
      {
        if Earlier(snapshot, added[i].0) {
          ghost var timers := queue.timers;
          var t := queue.AddTimer(added[i].2, added[i].0, Foreign(added[i].1));
          AgreeOther(challenges, timeouts, timers, enabled, log, t.value, Entry(Foreign(added[i].1), added[i].2));
        }
      }
    }

    /** Fires the first entry if it is ready: one round of the notification.
        `now` and `later` are what the callback reads off the clock, `started`
        is whether an attempt to connect starts. */
    method Round(snapshot: Time, now: Time, later: Time, started: bool) returns (fired: Option<(Time, Callback)>)
      requires Valid() && Whole(snapshot) && Whole(now) && !Earlier(now, snapshot) && Whole(later) && !Earlier(later, now)
      modifies this`challenges, this`timeouts, this`log, this`sent, this`connected, queue`timers
      ensures Valid()
      ensures fired.None? ==> Due(queue.timers, snapshot) == {} && log == old(log) && timeouts == old(timeouts) && connected == old(connected)
      ensures fired.None? ==> queue.timers == old(queue.timers)
      ensures fired.Some? && Rearms() ==> Progresses(queue.timers, old(queue.timers), snapshot)
      ensures fired.Some? ==> exists steps :: log == old(log) + steps
                                              && Moves(old(timeouts), old(connected), steps, timeouts, connected)
      ensures fired.Some? ==> Taken(old(queue.timers), snapshot, fired.value)
      ensures fired.Some? ==> Comes(old(timeouts), old(connected), old(queue.timers) - {fired.value.0}, fired.value.1,
                                    Shift(now, Timeout(keepaliveTimeout)), Shift(later, Timeout(keepaliveInterval)),
                                    Shift(now, Timeout(reconnectTimeout)), started, timeouts, connected, queue.timers)
    {
      hide Agree, Text, Timeout, Moves, Gained;
      ghost var timers := queue.timers;
      fired := queue.TakeReady(snapshot);
      if fired.None? { return; }
      var t, callback := fired.value.0, fired.value.1;
      ghost var rest := queue.timers;
      assert Taken(timers, snapshot, fired.value) by {
        assert forall u :: u in timers.Keys && u != t ==> u in rest;
      }
      TakenSmaller(timers, t, snapshot);
      match callback
      case Foreign(_) =>
        AgreeOther(challenges, timeouts, timers, enabled, log, t, timers[t]);
        ForeignCallback(snapshot);
        MovesNot(timeouts, connected);
      case Keep(Reconnecting, p) =>
        AgreeOther(challenges, timeouts, timers, enabled, log, t, timers[t]);
        Reconnect(p, started, now);
        if !(p in connected || started) && Rearms() {
          ghost var again :| Gained(rest, queue.timers, Shift(now, Timeout(reconnectTimeout)), Keep(Reconnecting, p), again);
          CausesKept(rest, queue.timers, snapshot, now, Timeout(reconnectTimeout), Keep(Reconnecting, p), again);
        }
        MovesNot(timeouts, connected);
      case Keep(Expiring, p) =>
        AgreeEnded(challenges, timeouts, timers, enabled, log, TimedOut(p, t));
        MovesTimedOut(timeouts, connected, p);
        ChallengeTimeout(p);
      case Keep(Challenging, p) =>
        Named(challenges, timeouts, timers, enabled, log, p);
        AgreeTaken(challenges, timeouts, timers, enabled, log, p, t);
        Named(challenges, timeouts, timers, enabled, log, p);
        Challenge(p, now, later);
        if p in connected {
          assert p in old(timeouts) ==>
                   Gained(rest, queue.timers, Shift(later, Timeout(keepaliveInterval)), Keep(Challenging, p), challenges[p]);
        }
        if p in connected && Rearms() {
          ghost var mid := rest;
          if p !in old(timeouts) {
            mid := rest[timeouts[p] := Entry(Keep(Expiring, p), OWNER)];
            CausesKept(rest, mid, snapshot, now, Timeout(keepaliveTimeout), Keep(Expiring, p), timeouts[p]);
          }
          CausesKept(mid, queue.timers, snapshot, later, Timeout(keepaliveInterval), Keep(Challenging, p), challenges[p]);
        }
        if p in connected && p !in old(timeouts) {
          MovesSent(old(timeouts), connected, p, timeouts[p]);
        } else {
          MovesNot(timeouts, connected);
        }
    }

    /** A round with any clock and any luck in connecting. */
    method FireReady(snapshot: Time) returns (more: bool)
      requires Valid() && Whole(snapshot)
      modifies this`challenges, this`timeouts, this`log, this`sent, this`connected, queue`timers
      ensures Valid()
      ensures !more ==> Due(queue.timers, snapshot) == {} && log == old(log) && timeouts == old(timeouts) && connected == old(connected)
      ensures more && Rearms() ==> Progresses(queue.timers, old(queue.timers), snapshot)
      ensures more ==> exists steps :: log == old(log) + steps
                                       && Moves(old(timeouts), old(connected), steps, timeouts, connected)
    {
      hide Agree, Moves, Taken, Comes, Progresses;
      var started: bool := *;
      var now := CurrentTime(snapshot);
      var later := CurrentTime(now);
      var fired := Round(snapshot, now, later, started);
      more := fired.Some?;
    }

    method Perform(h: Happening)
      requires Valid() && (h.Fire? ==> Whole(h.snapshot))
      modifies this, queue`timers
      ensures Valid()
    {
      hide Agree, Rescheduled, Gained, Stripped;
      match h
      case Enable(p, now) => var _ := EnableIrcProxyPlugin(p, now);
      case Disable(p) => var _ := DisableIrcProxyPlugin(p);
      case Reattach(p, now) => BouncerReattached(p, now);
      case Registered(p, now) => RemoteReconnect(p, now);
      case Line(p, command, trailing) => RemoteLine(p, command, trailing);
      case Disconnect(p, now) => RemoteDisconnect(p, now);
      case Connect(p) => RemoteConnect(p);
      case Config(a, b, c) => ReloadedConfig(a, b, c);
      case Fire(snapshot) => var _ := FireReady(snapshot);
    }

    /** What a notification has done after any number of rounds, and that is
        all when it has ended: a PING whose deadline has come by then has cost
        its proxy the connection. */
    method NotifyRounds(snapshot: Time, rounds: nat) returns (ended: bool)
      requires Valid() && Whole(snapshot)
      modifies this`challenges, this`timeouts, this`log, this`sent, this`connected, queue`timers
      ensures Valid() && Notified(old(timeouts), old(connected), old(log), timeouts, connected, log)
      ensures ended ==> Due(queue.timers, snapshot) == {} && forall p :: p in timeouts ==> Earlier(snapshot, timeouts[p])
    {
      hide Moves, Agree, Notified;
      NotifiedAtFirst(timeouts, connected, log);
      var more := true;
      for i := 0 to rounds
        invariant Valid() && Notified(old(timeouts), old(connected), old(log), timeouts, connected, log)
        invariant !more ==> Due(queue.timers, snapshot) == {}
      {
        if more { more := NotifyNext(snapshot, old(timeouts), old(connected), old(log)); }
      }
      ended := !more;
      if ended { NoneDue(challenges, timeouts, queue.timers, enabled, log, snapshot); }
    }

    method NotifyNext(snapshot: Time, ghost timeouts0: map<int, Time>, ghost connected0: set<int>, ghost log0: seq<Step>)
      returns (more: bool)
      requires Valid() && Whole(snapshot) && Notified(timeouts0, connected0, log0, timeouts, connected, log)
      modifies this`challenges, this`timeouts, this`log, this`sent, this`connected, queue`timers
      ensures Valid() && Notified(timeouts0, connected0, log0, timeouts, connected, log)
      ensures !more ==> Due(queue.timers, snapshot) == {}
      ensures more && Rearms() ==> Progresses(queue.timers, old(queue.timers), snapshot)
    {
      hide Moves, Agree, Notified, Progresses, Timeout;
      ghost var timeouts1, connected1, log1 := timeouts, connected, log;
      more := FireReady(snapshot);
      if more {
        ghost var next :| log == log1 + next && Moves(timeouts1, connected1, next, timeouts, connected);
        NotifiedOn(timeouts0, connected0, log0, timeouts1, connected1, log1, next, timeouts, connected);
      }
    }

    /** With positive intervals the queue runs until nothing is ready. */
    method NotifyTimerCallbacks(snapshot: Time)
      requires Valid() && Rearms() && Whole(snapshot)
      modifies this`challenges, this`timeouts, this`log, this`sent, this`connected, queue`timers
      ensures Valid() && Due(queue.timers, snapshot) == {}
      ensures forall p :: p in timeouts ==> Earlier(snapshot, timeouts[p])
      ensures Notified(old(timeouts), old(connected), old(log), timeouts, connected, log)
      ensures var steps := log[|old(log)|..];
              && connected == old(connected) - Lost(steps)
              && forall p :: p in old(timeouts) && !Earlier(snapshot, old(timeouts)[p]) ==>
                               TimedOut(p, old(timeouts)[p]) in steps
    {
      hide Moves, Agree, Notified, Timeout;
      NotifiedAtFirst(timeouts, connected, log);
      var more := true;
      while more
        invariant Valid() && Rearms() && Notified(old(timeouts), old(connected), old(log), timeouts, connected, log)
        invariant !more ==> Due(queue.timers, snapshot) == {}
        decreases more, Causes(queue.timers, snapshot), Due(queue.timers, snapshot)
      {
        more := NotifyNext(snapshot, old(timeouts), old(connected), old(log));
      }
      NoneDue(challenges, timeouts, queue.timers, enabled, log, snapshot);
      NotifiedFacts(old(timeouts), old(connected), old(log), timeouts, connected, log);
    }
  }

  lemma NoneDue(challenges: map<int, Time>, timeouts: map<int, Time>, timers: Queue, enabled: set<int>, log: seq<Step>, snapshot: Time)
    requires Agree(challenges, timeouts, timers, enabled, log) && Due(timers, snapshot) == {}
    ensures forall p :: p in timeouts ==> Earlier(snapshot, timeouts[p])
  {
    forall p | p in timeouts
      ensures Earlier(snapshot, timeouts[p])
    {
      Named(challenges, timeouts, timers, enabled, log, p);
      assert timeouts[p] !in Due(timers, snapshot);
    }
  }

  /** What was fired: the earliest entry, and ready. */
  predicate Taken(timers: Queue, snapshot: Time, fired: (Time, Callback)) {
    IsLeast(fired.0, timers.Keys) && fired.0 in Due(timers, snapshot) && timers[fired.0].callback == fired.1
  }

  /** What the callback put into the queue `rest`: the deadline of a new PING
      and the next challenge, or the next attempt to connect. */
  ghost predicate Comes(timeouts: map<int, Time>, connected: set<int>, rest: Queue, callback: Callback,
                        deadline: Time, challenge: Time, attempt: Time, started: bool,
                        timeouts1: map<int, Time>, connected1: set<int>, after: Queue)
  {
    match callback
    case Keep(Challenging, p) =>
      && connected1 == connected
      && (p !in connected ==> timeouts1 == timeouts && after == rest)
      && (p in connected && p in timeouts ==> timeouts1 == timeouts && exists t :: Gained(rest, after, challenge, callback, t))
      && (p in connected && p !in timeouts ==>
            && p in timeouts1 && timeouts1 == timeouts[p := timeouts1[p]]
            && var mid := rest[timeouts1[p] := Entry(Keep(Expiring, p), OWNER)];
               Gained(rest, mid, deadline, Keep(Expiring, p), timeouts1[p]) && exists t :: Gained(mid, after, challenge, callback, t))
    case Keep(Reconnecting, p) =>
      && connected1 == connected && timeouts1 == timeouts
      && if p in connected || started then after == rest else exists t :: Gained(rest, after, attempt, callback, t)
    case _ => true
  }

  /** What the rounds of a notification have done so far: the log has grown by
      the steps, the proxies whose PING timed out are disconnected, the other
      PINGs from before are open. */
  ghost predicate Notified(timeouts0: map<int, Time>, connected0: set<int>, log0: seq<Step>,
                           timeouts: map<int, Time>, connected: set<int>, log: seq<Step>)
  {
    |log0| <= |log| && log[..|log0|] == log0 && Elapsed(timeouts0, connected0, log[|log0|..], timeouts, connected)
  }

  lemma NotifiedAtFirst(timeouts: map<int, Time>, connected: set<int>, log: seq<Step>)
    ensures Notified(timeouts, connected, log, timeouts, connected, log)
  {
    assert log[|log|..] == [];
    ElapsedAtFirst(timeouts, connected);
  }

  lemma NotifiedOn(timeouts0: map<int, Time>, connected0: set<int>, log0: seq<Step>,
                   timeouts1: map<int, Time>, connected1: set<int>, log1: seq<Step>, next: seq<Step>,
                   timeouts2: map<int, Time>, connected2: set<int>)
    requires Notified(timeouts0, connected0, log0, timeouts1, connected1, log1)
    requires Moves(timeouts1, connected1, next, timeouts2, connected2)
    ensures Notified(timeouts0, connected0, log0, timeouts2, connected2, log1 + next)
  {
    hide Elapsed, Moves;
    ElapsedOn(timeouts0, connected0, log1[|log0|..], timeouts1, connected1, next, timeouts2, connected2);
    assert (log1 + next)[|log0|..] == log1[|log0|..] + next;
  }

  lemma NotifiedFacts(timeouts0: map<int, Time>, connected0: set<int>, log0: seq<Step>,
                      timeouts: map<int, Time>, connected: set<int>, log: seq<Step>)
    requires Notified(timeouts0, connected0, log0, timeouts, connected, log)
    ensures |log0| <= |log| && log[..|log0|] == log0 && connected == connected0 - Lost(log[|log0|..])
    ensures forall p :: p in timeouts0 ==>
              TimedOut(p, timeouts0[p]) in log[|log0|..] || (p in timeouts && timeouts[p] == timeouts0[p])
  {
    hide Lost;
  }

  lemma ElapsedAtFirst(timeouts: map<int, Time>, connected: set<int>)
    ensures Elapsed(timeouts, connected, [], timeouts, connected)
  {
    assert Lost([]) == {};
  }

  /** What the callbacks of one notification did: the proxies whose PING timed
      out have lost their connection, the other PINGs from before are open. */
  ghost predicate Elapsed(timeouts: map<int, Time>, connected: set<int>, steps: seq<Step>, timeouts1: map<int, Time>, connected1: set<int>) {
    && connected1 == connected - Lost(steps)
    && forall p :: p in timeouts ==> TimedOut(p, timeouts[p]) in steps || (p in timeouts1 && timeouts1[p] == timeouts[p])
  }

  lemma ElapsedOn(timeouts: map<int, Time>, connected: set<int>, steps: seq<Step>, timeouts1: map<int, Time>, connected1: set<int>,
                  more: seq<Step>, timeouts2: map<int, Time>, connected2: set<int>)
    requires Elapsed(timeouts, connected, steps, timeouts1, connected1)
    requires Moves(timeouts1, connected1, more, timeouts2, connected2)
    ensures Elapsed(timeouts, connected, steps + more, timeouts2, connected2)
  {
    var all := steps + more;
    assert forall i :: 0 <= i < |steps| ==> all[i] == steps[i];
    if more != [] {
      assert all[|steps|] == more[0];
      assert Lost(all) == Lost(steps) + if more[0].TimedOut? then {more[0].proxy} else {};
      assert more[0] in all;
    } else {
      assert all == steps;
    }
  }

  /** What the steps of one round do to the open PINGs and the connections. */
  predicate Moves(timeouts: map<int, Time>, connected: set<int>, steps: seq<Step>, timeouts1: map<int, Time>, connected1: set<int>) {
    if steps == [] then timeouts1 == timeouts && connected1 == connected
    else if |steps| > 1 then false
    else match steps[0]
         case Sent(p, t) => p !in timeouts && timeouts1 == timeouts[p := t] && connected1 == connected
         case TimedOut(p, t) =>
           p in timeouts && timeouts[p] == t && timeouts1 == timeouts - {p} && connected1 == connected - {p}
         case _ => false
  }

  lemma MovesNot(timeouts: map<int, Time>, connected: set<int>)
    ensures Moves(timeouts, connected, [], timeouts, connected)
    ensures forall log: seq<Step> :: log + [] == log
  {}

  lemma MovesSent(timeouts: map<int, Time>, connected: set<int>, p: int, t: Time)
    requires p !in timeouts
    ensures Moves(timeouts, connected, [Sent(p, t)], timeouts[p := t], connected)
  {}

  lemma MovesTimedOut(timeouts: map<int, Time>, connected: set<int>, p: int)
    requires p in timeouts
    ensures Moves(timeouts, connected, [TimedOut(p, timeouts[p])], timeouts - {p}, connected - {p})
  {}

  /** The ready entries that can bring about others: all but the timeouts. */
  function Causes(timers: Queue, snapshot: Time): set<Time> {
    set t | t in Due(timers, snapshot) && !(timers[t].callback.Keep? && timers[t].callback.kind == Expiring)
  }

  /** What makes the notification end. */
  predicate Progresses(after: Queue, timers: Queue, snapshot: Time) {
    || Causes(after, snapshot) < Causes(timers, snapshot)
    || (Causes(after, snapshot) == Causes(timers, snapshot) && Due(after, snapshot) < Due(timers, snapshot))
  }

  lemma TakenSmaller(timers: Queue, t: Time, snapshot: Time)
    requires t in Due(timers, snapshot)
    ensures Due(timers - {t}, snapshot) < Due(timers, snapshot)
    ensures if t in Causes(timers, snapshot) then Causes(timers - {t}, snapshot) < Causes(timers, snapshot)
            else Causes(timers - {t}, snapshot) == Causes(timers, snapshot)
  {
    assert t !in Due(timers - {t}, snapshot) && t !in Causes(timers - {t}, snapshot);
  }

  lemma CausesKept(timers: Queue, after: Queue, snapshot: Time, now: Time, delay: int, callback: Callback, t: Time)
    requires Gained(timers, after, Shift(now, delay), callback, t)
    requires delay > 0 || (callback.Keep? && callback.kind == Expiring)
    requires Whole(snapshot) && Whole(now) && !Earlier(now, snapshot)
    ensures Causes(after, snapshot) == Causes(timers, snapshot)
  {
    if delay > 0 {
      ShiftLater(snapshot, now, delay);
    }
    FirstFreeIsLater(timers, Shift(now, delay), t);
  }

  lemma AgreeMore(challenges: map<int, Time>, timeouts: map<int, Time>, timers: Queue, enabled: set<int>, log: seq<Step>,
                  proxy: int)
    requires Agree(challenges, timeouts, timers, enabled, log)
    ensures Agree(challenges, timeouts, timers, enabled + {proxy}, log)
  {}

  datatype Happening = Enable(proxy: int, now: Time) | Disable(proxy: int) | Reattach(proxy: int, now: Time)
                     | Registered(proxy: int, now: Time) | Line(proxy: int, command: string, trailing: Option<string>)
                     | Disconnect(proxy: int, now: Time) | Connect(proxy: int)
                     | Config(interval: Option<nat>, timeout: Option<nat>, reconnect: Option<nat>)
                     | Fire(snapshot: Time)

  /** A whole life of the plugin: whatever happens in whatever order, tables
      and queue agree in the end, and the log is one in which every PING is
      open or has exactly one end. */
  method Life(happenings: seq<Happening>, interval: nat, timeout: nat, reconnect: nat) returns (plugin: Keepalive)
    requires forall h :: h in happenings && h.Fire? ==> Whole(h.snapshot)
    ensures plugin.Valid() && Recorded(plugin.log, plugin.timeouts)
  {
    hide Agree, Recorded;
    var queue := new TimerQueue<Callback>();
    plugin := new Keepalive(queue, interval, timeout, reconnect);
    for i := 0 to |happenings|
      invariant fresh(plugin) && fresh(plugin.queue) && plugin.Valid()
    {
      assert happenings[i] in happenings;
      plugin.Perform(happenings[i]);
    }
    AgreeRecorded(plugin.challenges, plugin.timeouts, plugin.queue.timers, plugin.enabled, plugin.log);
  }

  lemma AgreeRecorded(challenges: map<int, Time>, timeouts: map<int, Time>, timers: Queue, enabled: set<int>, log: seq<Step>)
    requires Agree(challenges, timeouts, timers, enabled, log)
    ensures Recorded(log, timeouts)
  {}

  // ----- when a notification need not end

  /** One entry is ready, with this callback. */
  predicate Alone(timers: Queue, snapshot: Time, t: Time, callback: Callback) {
    Due(timers, snapshot) == {t} && timers[t].callback == callback
  }

  lemma ShiftTwice(t: Time, a: int, b: int)
    ensures Shift(Shift(t, a), b) == Shift(t, a + b)
    ensures Whole(t) ==> Shift(t, 0) == t && (a <= 0 ==> !Earlier(t, Shift(t, a)))
  {}

  /** What comes back without a delay is ready again. */
  lemma BackAtOnce(rest: Queue, after: Queue, snapshot: Time, delay: int, callback: Callback, t: Time)
    requires Whole(snapshot) && delay <= 0 && Due(rest, snapshot) == {}
    requires Gained(rest, after, Shift(snapshot, delay), callback, t)
    ensures t == Shift(snapshot, delay) && Alone(after, snapshot, t, callback)
  {
    var request := Shift(snapshot, delay);
    ShiftTwice(snapshot, delay, 0);
    assert request in rest ==> request in Due(rest, snapshot);
    assert request == Time(request.sec, request.usec);
    assert forall u :: u in Due(after, snapshot) && u != t ==> u in Due(rest, snapshot);
  }

  lemma AloneTaken(timers: Queue, snapshot: Time, t: Time, callback: Callback, fired: Option<(Time, Callback)>)
    requires Alone(timers, snapshot, t, callback)
    requires fired.None? ==> Due(timers, snapshot) == {}
    requires fired.Some? ==> Taken(timers, snapshot, fired.value)
    ensures fired == Some((t, callback)) && Due(timers - {t}, snapshot) == {}
  {
    assert t in Due(timers, snapshot);
  }

  /** The callback puts itself back without a delay. */
  predicate Returns(callback: Callback, connected: set<int>, timeouts: map<int, Time>, interval: nat, reconnect: nat) {
    match callback
    case Keep(Challenging, p) => p in connected && p in timeouts && Timeout(interval) <= 0
    case Keep(Reconnecting, p) => p !in connected && Timeout(reconnect) <= 0
    case _ => false
  }

  /** One round in which the clock stands still and no connection starts. */
  method RoundAgain(plugin: Keepalive, snapshot: Time, ghost t: Time, ghost callback: Callback)
    returns (fired: (Time, Callback), ghost again: Time)
    requires plugin.Valid() && Whole(snapshot) && Alone(plugin.queue.timers, snapshot, t, callback)
    requires Returns(callback, plugin.connected, plugin.timeouts, plugin.keepaliveInterval, plugin.reconnectTimeout)
    modifies plugin`challenges, plugin`timeouts, plugin`log, plugin`sent, plugin`connected, plugin.queue`timers
    ensures plugin.Valid() && fired == (t, callback)
    ensures Returns(callback, plugin.connected, plugin.timeouts, plugin.keepaliveInterval, plugin.reconnectTimeout)
    ensures Alone(plugin.queue.timers, snapshot, again, callback)
  {
    hide Agree, Gained, Timeout, Moves, Alone, Taken, Progresses;
    ghost var timers := plugin.queue.timers;
    ShiftTwice(snapshot, 0, 0);
    var one := plugin.Round(snapshot, snapshot, snapshot, false);
    AloneTaken(timers, snapshot, t, callback, one);
    fired := one.value;
    ghost var delay := Timeout(if callback.kind == Challenging then plugin.keepaliveInterval else plugin.reconnectTimeout);
    again := Shift(snapshot, delay);
    ghost var back :| Gained(timers - {t}, plugin.queue.timers, Shift(snapshot, delay), callback, back);
    BackAtOnce(timers - {t}, plugin.queue.timers, snapshot, delay, callback, back);
  }

  /** An open PING, and a challenge at the time of a notification to come. */
  method PingOpen(proxy: int, snapshot: Time) returns (plugin: Keepalive)
    requires Whole(snapshot)
    ensures fresh(plugin) && fresh(plugin.queue) && plugin.Valid()
    ensures proxy in plugin.connected && proxy in plugin.timeouts
    ensures Alone(plugin.queue.timers, snapshot, snapshot, Keep(Challenging, proxy))
  {
    hide Agree, Timeout, Moves, Progresses;
    var five, ten := 5 * USEC_PER_SEC, 10 * USEC_PER_SEC;
    TimeoutExactly(5);
    TimeoutExactly(10);
    ShiftTwice(snapshot, -ten, five);
    ShiftTwice(snapshot, -five, five);
    ShiftTwice(snapshot, -five, ten);
    ShiftTwice(snapshot, 0, 0);
    var queue := new TimerQueue<Callback>();
    plugin := new Keepalive(queue, 5, 10, 10);
    plugin.RemoteConnect(proxy);
    var before, start := Shift(snapshot, -ten), Shift(snapshot, -five);
    var _ := plugin.EnableIrcProxyPlugin(proxy, before);
    assert plugin.queue.timers == map[start := Entry(Keep(Challenging, proxy), OWNER)];
    ghost var timers := plugin.queue.timers;
    assert Alone(timers, start, start, Keep(Challenging, proxy));
    var fired := plugin.Round(start, start, start, false);
    AloneTaken(timers, start, start, Keep(Challenging, proxy), fired);
    assert timers - {start} == map[];
    ghost var mid := map[plugin.timeouts[proxy] := Entry(Keep(Expiring, proxy), OWNER)];
    assert map[][plugin.timeouts[proxy] := Entry(Keep(Expiring, proxy), OWNER)] == mid;
    ghost var t :| Gained(mid, plugin.queue.timers, snapshot, Keep(Challenging, proxy), t);
    PingThenChallenge(plugin.queue.timers, proxy, snapshot, plugin.timeouts[proxy], t);
  }

  lemma PingThenChallenge(timers: Queue, proxy: int, snapshot: Time, deadline: Time, t: Time)
    requires Whole(snapshot) && FirstFree<Callback>(map[], Shift(snapshot, 5 * USEC_PER_SEC), deadline)
    requires Gained(map[deadline := Entry(Keep(Expiring, proxy), OWNER)], timers, snapshot, Keep(Challenging, proxy), t)
    ensures Alone(timers, snapshot, snapshot, Keep(Challenging, proxy))
  {
    var request := Shift(snapshot, 5 * USEC_PER_SEC);
    ShiftLater(snapshot, snapshot, 5 * USEC_PER_SEC);
    assert request == Time(request.sec, request.usec) && snapshot == Time(snapshot.sec, snapshot.usec);
    assert deadline == request && t == snapshot;
  }

  /** A lost connection, and an attempt to connect that is ready at once. */
  method AttemptReady(proxy: int, snapshot: Time, reconnect: nat) returns (plugin: Keepalive)
    requires Whole(snapshot) && Timeout(reconnect) <= 0
    ensures fresh(plugin) && fresh(plugin.queue) && plugin.Valid() && plugin.reconnectTimeout == reconnect
    ensures proxy !in plugin.connected
    ensures exists t :: Alone(plugin.queue.timers, snapshot, t, Keep(Reconnecting, proxy))
  {
    hide Agree, Timeout, Gained, Alone;
    var queue := new TimerQueue<Callback>();
    plugin := new Keepalive(queue, 5, 10, reconnect);
    var _ := plugin.EnableIrcProxyPlugin(proxy, snapshot);
    ghost var timers := plugin.queue.timers;
    assert timers == map[];
    plugin.RemoteDisconnect(proxy, snapshot);
    ghost var t :| Gained(timers, plugin.queue.timers, Shift(snapshot, Timeout(reconnect)), Keep(Reconnecting, proxy), t);
    BackAtOnce(timers, plugin.queue.timers, snapshot, Timeout(reconnect), Keep(Reconnecting, proxy), t);
  }

  /** Without a positive interval, or without a positive reconnect time, the
      notification need not end, whatever the third number is: as long as the
      clock stands still and no connection starts, something is ready after any
      number of rounds. */
  method NeedNotEnd(proxy: int, snapshot: Time, interval: nat, timeout: nat, reconnect: nat, rounds: nat)
    returns (plugin: Keepalive, fired: seq<(Time, Callback)>)
    requires Whole(snapshot) && !(Timeout(interval) > 0 && Timeout(reconnect) > 0)
    ensures plugin.Valid() && !plugin.Rearms() && plugin.keepaliveInterval == interval
    ensures plugin.keepaliveTimeout == timeout && plugin.reconnectTimeout == reconnect
    ensures |fired| == rounds && forall i :: 0 <= i < rounds ==>
              !Earlier(snapshot, fired[i].0) && fired[i].1 == Keep(if Timeout(interval) <= 0 then Challenging else Reconnecting, proxy)
    ensures Due(plugin.queue.timers, snapshot) != {}
  {
    hide Agree, Timeout;
    ghost var callback := Keep(if Timeout(interval) <= 0 then Challenging else Reconnecting, proxy);
    if Timeout(interval) <= 0 {
      plugin := PingOpen(proxy, snapshot);
    } else {
      plugin := AttemptReady(proxy, snapshot, reconnect);
    }
    plugin.ReloadedConfig(Some(interval), Some(timeout), Some(reconnect));
    ghost var t :| Alone(plugin.queue.timers, snapshot, t, callback);
    fired := [];
    while |fired| < rounds
      invariant fresh(plugin) && fresh(plugin.queue) && plugin.Valid() && plugin.keepaliveInterval == interval
      invariant plugin.keepaliveTimeout == timeout && plugin.reconnectTimeout == reconnect
      invariant Returns(callback, plugin.connected, plugin.timeouts, interval, reconnect)
      invariant Alone(plugin.queue.timers, snapshot, t, callback)
      invariant |fired| <= rounds && forall i :: 0 <= i < |fired| ==> !Earlier(snapshot, fired[i].0) && fired[i].1 == callback
    {
      AloneDue(plugin.queue.timers, snapshot, t, callback);
      var one;
      one, t := RoundAgain(plugin, snapshot, t, callback);
      fired := fired + [one];
    }
    AloneDue(plugin.queue.timers, snapshot, t, callback);
  }

  lemma AloneDue(timers: Queue, snapshot: Time, t: Time, callback: Callback)
    requires Alone(timers, snapshot, t, callback)
    ensures t in Due(timers, snapshot) && !Earlier(snapshot, t)
  {}
}
