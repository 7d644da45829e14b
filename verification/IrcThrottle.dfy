/** The output side of an IRC connection, src/modules/irc/irc.c. */
module IrcLines {

  const IRC_SEND_MAXLEN := 4096

  /** The seconds of throttle time a line costs, newline included. */
  function Penalty(line: string): (p: real)
    ensures p > 0.0
  {
    (2.0 + (|line| + 1) as real) / 120.0
  }

  /** What fits into the send buffer. */
  function Fitted(message: string): (line: string)
    ensures |line| == (if |message| < 4096 then |message| else 4095) && line <= message
  {
    if |message| < IRC_SEND_MAXLEN then message else message[..IRC_SEND_MAXLEN - 1]
  }

  /** A line sent by a poll: when, and the throttle time before and after. */
  datatype Sending = Sending(line: string, now: real, before: real, after: real)

  /** A connection; the lines in `written` each went out with a newline, those
      in `dropped` never will. */
  datatype Line = Line(connected: bool, throttle: bool, obuffer: seq<string>, throttleTime: real,
                       written: seq<string>, dropped: seq<string>, sendings: seq<Sending>)

  /** Sends while there is something to send and throttle space left. */
  function Drained(l: Line, now: real): (r: Line)
    ensures r.connected == l.connected && r.throttle == l.throttle && r.dropped == l.dropped
    decreases |l.obuffer|
  {
    if l.obuffer == [] || l.throttleTime - now >= 10.0 then l
    else
      var line := l.obuffer[0];
      var after := l.throttleTime + Penalty(line);
      Drained(l.(obuffer := l.obuffer[1..], throttleTime := after, written := l.written + [line],
                 sendings := l.sendings + [Sending(line, now, l.throttleTime, after)]), now)
  }

  function Raised(l: Line, now: real): Line {
    if now > l.throttleTime then l.(throttleTime := now) else l
  }

  function Polled(l: Line, now: real): Line {
    Drained(Raised(l, now), now)
  }

  /** Delays the message at one end of the buffer, or writes it at once. */
  function Given(l: Line, message: string, first: bool): Line {
    if !l.throttle then l.(written := l.written + [Fitted(message)])
    else if first then l.(obuffer := [Fitted(message)] + l.obuffer)
    else l.(obuffer := l.obuffer + [Fitted(message)])
  }

  function Enabled(l: Line, now: real): Line {
    if l.throttle then l else l.(throttle := true, obuffer := [], throttleTime := now, sendings := [])
  }

  function Disabled(l: Line, flush: bool): Line {
    if !l.throttle then l
    else if flush && l.connected then l.(throttle := false, obuffer := [], written := l.written + Fits(l.obuffer))
    else l.(throttle := false, obuffer := [], dropped := l.dropped + l.obuffer)
  }

  function Fits(lines: seq<string>): (r: seq<string>)
    ensures |r| == |lines| && forall i :: 0 <= i < |lines| ==> r[i] == Fitted(lines[i])
  {
    seq(|lines|, i requires 0 <= i < |lines| => Fitted(lines[i]))
  }

  // ----- order and conservation

  /** What the lines cost together, in 120ths of a second: two for the line and
      one for each character and the newline. */
  function Cost(lines: seq<string>): nat {
    if lines == [] then 0 else 3 + |lines[0]| + Cost(lines[1..])
  }

  lemma {:induction false} CostConcat(a: seq<string>, b: seq<string>)
    ensures Cost(a + b) == Cost(a) + Cost(b)
  {
    if a == [] {
      assert a + b == b;
    } else {
      CostConcat(a[1..], b);
      assert (a + b)[1..] == a[1..] + b;
    }
  }

  /** The sendings are those of the lines, at this time. */
  predicate SentAt(sendings: seq<Sending>, lines: seq<string>, now: real) {
    |sendings| == |lines| && forall i :: 0 <= i < |lines| ==> sendings[i].line == lines[i] && sendings[i].now == now
  }

  /** From l with the throttle time `start`, the first k lines of the buffer were
      written in order: the fewest whose cost takes the throttle time ten seconds
      ahead of the clock, or all of them. */
  ghost predicate Wrote(l: Line, r: Line, start: real, now: real, k: nat) {
    && k <= |l.obuffer| && r.obuffer == l.obuffer[k..] && r.written == l.written + l.obuffer[..k]
    && l.sendings <= r.sendings && SentAt(r.sendings[|l.sendings|..], l.obuffer[..k], now)
    && r.throttleTime == start + Cost(l.obuffer[..k]) as real / 120.0
    && (k < |l.obuffer| ==> r.throttleTime >= now + 10.0)
    && forall i :: 0 <= i < k ==> start + Cost(l.obuffer[..i]) as real / 120.0 < now + 10.0
  }

  /** A poll lets the throttle time catch up with the clock and then writes what
      it allows. */
  lemma PolledInOrder(l: Line, now: real) returns (k: nat)
    ensures Wrote(l, Polled(l, now), if now > l.throttleTime then now else l.throttleTime, now, k)
  {
    hide Drained;
    k := DrainedInOrder(Raised(l, now), now);
  }

  lemma {:induction false} DrainedInOrder(l: Line, now: real) returns (k: nat)
    ensures Wrote(l, Drained(l, now), l.throttleTime, now, k)
    decreases |l.obuffer|
  {
    if l.obuffer == [] || l.throttleTime - now >= 10.0 {
      k := 0;
    } else {
      hide Wrote;
      var line := l.obuffer[0];
      var after := l.throttleTime + Penalty(line);
      var next := l.(obuffer := l.obuffer[1..], throttleTime := after, written := l.written + [line],
                     sendings := l.sendings + [Sending(line, now, l.throttleTime, after)]);
      var n := DrainedInOrder(next, now);
      k := n + 1;
      assert Drained(l, now) == Drained(next, now);
      hide Drained;
      WroteNext(l, next, Drained(next, now), now, n);
    }
  }

  lemma CostNext(lines: seq<string>, k: nat)
    requires 0 < k <= |lines|
    ensures Cost(lines[..k]) == 3 + |lines[0]| + Cost(lines[1..][..k - 1])
  {
    assert lines[..k][1..] == lines[1..][..k - 1];
  }

  lemma WroteNext(l: Line, next: Line, r: Line, now: real, n: nat)
    requires l.obuffer != [] && l.throttleTime - now < 10.0
    requires next.obuffer == l.obuffer[1..] && next.written == l.written + [l.obuffer[0]]
    requires next.throttleTime == l.throttleTime + Penalty(l.obuffer[0])
    requires next.sendings == l.sendings + [Sending(l.obuffer[0], now, l.throttleTime, next.throttleTime)]
    requires Wrote(next, r, next.throttleTime, now, n)
    ensures Wrote(l, r, l.throttleTime, now, n + 1)
  {
    hide Cost, SentAt;
    var lines := l.obuffer;
    CostNext(lines, n + 1);
    assert lines[..n + 1][1..] == next.obuffer[..n];
    assert r.sendings[|l.sendings|..][1..] == r.sendings[|next.sendings|..];
    assert r.sendings[|l.sendings|] == next.sendings[|l.sendings|];
    SentNext(r.sendings[|l.sendings|..], lines[..n + 1], now);
    assert lines[..n + 1] == [lines[0]] + next.obuffer[..n];
    forall i | 0 <= i < n + 1
      ensures l.throttleTime + Cost(lines[..i]) as real / 120.0 < now + 10.0
    {
      if i > 0 { CostNext(lines, i); } else { assert Cost([]) == 0 by { CostNothing(); } }
    }
  }

  lemma CostNothing()
    ensures Cost([]) == 0
  {}

  lemma SentNext(sendings: seq<Sending>, lines: seq<string>, now: real)
    requires lines != [] && sendings != [] && SentAt(sendings[1..], lines[1..], now)
    requires sendings[0].line == lines[0] && sendings[0].now == now
    ensures SentAt(sendings, lines, now)
  {
    assert forall i :: 0 < i < |lines| ==> sendings[i] == sendings[1..][i - 1] && lines[i] == lines[1..][i - 1];
  }

  // ----- the penalty budget

  /** The sendings of an enabled throttle: each is within ten seconds of its
      poll, and the throttle time never goes back. */
  predicate Steady(sendings: seq<Sending>, throttleTime: real, clock: real) {
    && (forall i :: 0 <= i < |sendings| ==>
          var s := sendings[i];
          s.now <= s.before < s.now + 10.0 && s.after == s.before + Penalty(s.line)
          && s.after <= throttleTime && s.now <= clock)
    && (forall i, j :: 0 <= i < j < |sendings| ==> sendings[i].after <= sendings[j].before && sendings[i].now <= sendings[j].now)
  }

  lemma {:induction false} DrainedSteady(l: Line, now: real)
    requires Steady(l.sendings, l.throttleTime, now) && l.throttleTime >= now
    ensures Steady(Drained(l, now).sendings, Drained(l, now).throttleTime, now)
    decreases |l.obuffer|
  {
    if l.obuffer != [] && l.throttleTime - now < 10.0 {
      var line := l.obuffer[0];
      var after := l.throttleTime + Penalty(line);
      var next := l.(obuffer := l.obuffer[1..], throttleTime := after, written := l.written + [line],
                     sendings := l.sendings + [Sending(line, now, l.throttleTime, after)]);
      SteadyNext(l, line, now);
      DrainedSteady(next, now);
    }
  }

  lemma SteadyNext(l: Line, line: string, now: real)
    requires Steady(l.sendings, l.throttleTime, now) && now <= l.throttleTime < now + 10.0
    ensures var after := l.throttleTime + Penalty(line);
            Steady(l.sendings + [Sending(line, now, l.throttleTime, after)], after, now)
  {}

  lemma PolledSteady(l: Line, clock: real, now: real)
    requires Steady(l.sendings, l.throttleTime, clock) && clock <= now
    ensures Steady(Polled(l, now).sendings, Polled(l, now).throttleTime, now)
  {
    DrainedSteady(Raised(l, now), now);
  }

  /** The penalty of the sendings from i up to j. */
  function Spent(sendings: seq<Sending>, i: nat, j: nat): real
    requires i <= j <= |sendings|
    decreases j - i
  {
    if i == j then 0.0 else Spent(sendings, i, j - 1) + Penalty(sendings[j - 1].line)
  }

  lemma {:induction false} SpentWithin(sendings: seq<Sending>, throttleTime: real, clock: real, i: nat, j: nat)
    requires Steady(sendings, throttleTime, clock) && i < j <= |sendings|
    ensures Spent(sendings, i, j) <= sendings[j - 1].after - sendings[i].before
    decreases j
  {
    if i + 1 < j {
      SpentWithin(sendings, throttleTime, clock, i, j - 1);
      assert sendings[j - 2].after <= sendings[j - 1].before;
    }
  }

  /** The lines of sendings, and what they cost. */
  function SentLines(sendings: seq<Sending>): (r: seq<string>)
    ensures |r| == |sendings|
  {
    seq(|sendings|, i requires 0 <= i < |sendings| => sendings[i].line)
  }

  lemma {:induction false} SpentExactly(sendings: seq<Sending>, i: nat, j: nat)
    requires i <= j <= |sendings|
    ensures Spent(sendings, i, j) == Cost(SentLines(sendings[i..j])) as real / 120.0
    decreases j
  {
    if i < j {
      SpentExactly(sendings, i, j - 1);
      var last := [sendings[j - 1].line];
      assert SentLines(sendings[i..j]) == SentLines(sendings[i..j - 1]) + last;
      CostConcat(SentLines(sendings[i..j - 1]), last);
      assert last[1..] == [];
    } else {
      assert SentLines(sendings[i..j]) == [];
    }
  }

  /** What polls send between t1 and t2 costs less than the time that passed,
      ten seconds and one line. */
  lemma Budget(sendings: seq<Sending>, throttleTime: real, clock: real, i: nat, j: nat, t1: real, t2: real)
    requires Steady(sendings, throttleTime, clock) && i < j <= |sendings|
    requires forall k :: i <= k < j ==> t1 <= sendings[k].now <= t2
    ensures Spent(sendings, i, j) < (t2 - t1) + 10.0 + Penalty(sendings[j - 1].line)
  {
    SpentWithin(sendings, throttleTime, clock, i, j);
    assert sendings[i].before >= t1 && sendings[j - 1].now <= t2;
  }
}

/** Runs of one connection. */
module IrcRuns {
  import opened IrcLines

  datatype Op = Send(message: string, first: bool) | Poll(now: real) | Enable(now: real) | Disable(flush: bool)
              | Connect | Disconnect

  /** A poll that finds the connection dead gives up throttling and the buffer. */
  function Step(l: Line, op: Op): Line {
    match op
    case Send(message, first) => Given(l, message, first)
    case Poll(now) => if !l.throttle then l else if l.connected then Polled(l, now) else Disabled(l, false)
    case Enable(now) => Enabled(l, now)
    case Disable(flush) => Disabled(l, flush)
    case Connect => l.(connected := true)
    case Disconnect => l.(connected := false)
  }

  function Run(l: Line, ops: seq<Op>): Line {
    if ops == [] then l else Step(Run(l, ops[..|ops| - 1]), ops[|ops| - 1])
  }

  const FRESH := Line(false, false, [], 0.0, [], [], [])

  /** Only a throttled connection buffers lines, and each fits the send buffer. */
  predicate Ready(l: Line) {
    (!l.throttle ==> l.obuffer == []) && forall line :: line in l.obuffer ==> |line| < IRC_SEND_MAXLEN
  }

  function Lines(l: Line): multiset<string> {
    multiset(l.written) + multiset(l.obuffer) + multiset(l.dropped)
  }

  function Messages(op: Op): multiset<string> {
    if op.Send? then multiset{Fitted(op.message)} else multiset{}
  }

  function AllMessages(ops: seq<Op>): multiset<string> {
    if ops == [] then multiset{} else AllMessages(ops[..|ops| - 1]) + Messages(ops[|ops| - 1])
  }

  lemma PollConserves(l: Line, now: real)
    requires Ready(l) && l.throttle
    ensures Ready(Polled(l, now)) && Lines(Polled(l, now)) == Lines(l)
  {
    hide Drained, Fitted;
    var k := PolledInOrder(l, now);
    assert l.obuffer == l.obuffer[..k] + l.obuffer[k..];
    assert forall line :: line in l.obuffer[k..] ==> line in l.obuffer;
  }

  lemma StepConserves(l: Line, op: Op)
    requires Ready(l)
    ensures Ready(Step(l, op)) && Lines(Step(l, op)) == Lines(l) + Messages(op)
  {
    hide Drained, Polled;
    match op
    case Poll(now) => if l.throttle && l.connected { PollConserves(l, now); }
    case Disable(_) => assert Fits(l.obuffer) == l.obuffer;
    case _ =>
  }

  /** In every run, each line handed over was written, is still buffered or was
      dropped - exactly once. */
  lemma {:induction false} RunConserves(ops: seq<Op>)
    ensures Ready(Run(FRESH, ops)) && Lines(Run(FRESH, ops)) == AllMessages(ops)
  {
    if ops != [] {
      RunConserves(ops[..|ops| - 1]);
      StepConserves(Run(FRESH, ops[..|ops| - 1]), ops[|ops| - 1]);
    }
  }

  /** What one operation does to the lines. A message goes to the end of the
      buffer, or to its front, or without throttling out at once; a poll and a
      flush write from the front; only giving up a buffer drops lines. */
  ghost predicate Ordered(l: Line, op: Op, r: Line) {
    && (op.Send? && l.throttle ==>
          r == l.(obuffer := if op.first then [Fitted(op.message)] + l.obuffer else l.obuffer + [Fitted(op.message)]))
    && (op.Send? && !l.throttle ==> r == l.(written := l.written + [Fitted(op.message)]))
    && (op.Poll? && l.throttle && l.connected ==>
          l.written <= r.written && r.written + r.obuffer == l.written + l.obuffer && r.dropped == l.dropped)
    && (op.Disable? && l.throttle && op.flush && l.connected ==>
          r == l.(throttle := false, obuffer := [], written := l.written + l.obuffer))
    && (l.throttle && (if op.Disable? then !(op.flush && l.connected) else op.Poll? && !l.connected) ==>
          r == l.(throttle := false, obuffer := [], dropped := l.dropped + l.obuffer))
    && (!l.throttle && (op.Disable? || op.Poll?) ==> r == l)
    && (op.Enable? ==> r == if l.throttle then l else l.(throttle := true, throttleTime := op.now, sendings := []))
    && (op.Connect? ==> r == l.(connected := true)) && (op.Disconnect? ==> r == l.(connected := false))
  }

  lemma StepOrdered(l: Line, op: Op)
    requires Ready(l)
    ensures Ordered(l, op, Step(l, op))
  {
    hide Polled, Fitted, Enabled, Disabled, Given;
    match op
    case Send(message, first) => SendOrdered(l, message, first);
    case Poll(now) => PollOrdered(l, now);
    case Enable(now) => EnableOrdered(l, now);
    case Disable(flush) => DisableOrdered(l, flush);
    case _ =>
  }

  lemma SendOrdered(l: Line, message: string, first: bool)
    ensures Ordered(l, Send(message, first), Step(l, Send(message, first)))
  {
    hide Fitted;
  }

  lemma PollOrdered(l: Line, now: real)
    requires Ready(l)
    ensures Ordered(l, Poll(now), Step(l, Poll(now)))
  {
    hide Polled, Fitted, Cost, SentAt, Ready;
    if l.throttle && l.connected {
      var k := PolledInOrder(l, now);
      assert l.obuffer == l.obuffer[..k] + l.obuffer[k..];
      PolledKeeps(l, now);
    }
  }

  lemma EnableOrdered(l: Line, now: real)
    requires Ready(l)
    ensures Ordered(l, Enable(now), Step(l, Enable(now)))
  {
    hide Fitted;
  }

  lemma DisableOrdered(l: Line, flush: bool)
    requires Ready(l)
    ensures Ordered(l, Disable(flush), Step(l, Disable(flush)))
  {
    FitsReady(l);
    hide Fitted, Ready, Fits;
  }

  lemma FitsReady(l: Line)
    requires Ready(l)
    ensures Fits(l.obuffer) == l.obuffer
  {}

  lemma PolledKeeps(l: Line, now: real)
    ensures Polled(l, now).dropped == l.dropped
  {
    hide Drained;
  }

  function Sent(ops: seq<Op>): seq<string> {
    if ops == [] then []
    else
      var op := ops[|ops| - 1];
      Sent(ops[..|ops| - 1]) + if op.Send? then [Fitted(op.message)] else []
  }

  /** In every run that puts nothing first and drops nothing, the lines go out
      in the order of the messages. */
  lemma {:induction false} RunInOrder(ops: seq<Op>)
    requires forall i :: 0 <= i < |ops| && ops[i].Send? ==> !ops[i].first
    requires Run(FRESH, ops).dropped == []
    ensures Run(FRESH, ops).written + Run(FRESH, ops).obuffer == Sent(ops)
  {
    hide Step, Fitted;
    if ops != [] {
      var before, op := ops[..|ops| - 1], ops[|ops| - 1];
      var l := Run(FRESH, before);
      RunConserves(before);
      StepOrdered(l, op);
      hide Run, Ordered;
      OrderKept(l, op, Step(l, op));
      RunInOrder(before);
    }
  }

  lemma OrderKept(l: Line, op: Op, r: Line)
    requires Ready(l) && Ordered(l, op, r) && (op.Send? ==> !op.first) && r.dropped == []
    ensures l.dropped == []
    ensures r.written + r.obuffer == l.written + l.obuffer + if op.Send? then [Fitted(op.message)] else []
  {
    hide Fitted;
    if op.Send? && l.throttle {
      assert r.written + r.obuffer == l.written + (l.obuffer + [Fitted(op.message)]);
    }
  }

  /** The clock read by polls and enablings never goes back. */
  predicate Monotone(ops: seq<Op>, clock: real) {
    forall i :: 0 <= i < |ops| && Timed(ops[i]) ==>
      ops[i].now <= clock && forall j :: 0 <= j < i && Timed(ops[j]) ==> ops[j].now <= ops[i].now
  }

  predicate Timed(op: Op) {
    op.Poll? || op.Enable?
  }

  /** In every run, the sendings since throttling was last enabled keep to the
      budget. */
  lemma {:induction false} RunSteady(ops: seq<Op>, clock: real)
    requires Monotone(ops, clock)
    ensures var l := Run(FRESH, ops); Steady(l.sendings, l.throttleTime, clock)
  {
    if ops != [] {
      var before, op := ops[..|ops| - 1], ops[|ops| - 1];
      var l := Run(FRESH, before);
      var earlier := if Timed(op) then op.now else clock;
      assert Monotone(before, earlier);
      RunSteady(before, earlier);
      StepSteady(l, op, earlier, clock);
    }
  }

  lemma StepSteady(l: Line, op: Op, earlier: real, clock: real)
    requires Steady(l.sendings, l.throttleTime, earlier) && earlier <= clock
    requires Timed(op) ==> op.now == earlier
    ensures Steady(Step(l, op).sendings, Step(l, op).throttleTime, clock)
  {
    hide Drained;
    if op.Poll? && l.throttle && l.connected { PolledSteady(l, earlier, op.now); }
  }

  /** So no run sends faster than the budget. */
  lemma RunBudget(ops: seq<Op>, clock: real, i: nat, j: nat, t1: real, t2: real)
    requires Monotone(ops, clock) && i < j <= |Run(FRESH, ops).sendings|
    requires forall k :: i <= k < j ==> t1 <= Run(FRESH, ops).sendings[k].now <= t2
    ensures var sendings := Run(FRESH, ops).sendings;
            && Spent(sendings, i, j) < (t2 - t1) + 10.0 + Penalty(sendings[j - 1].line)
            && Cost(SentLines(sendings[i..j])) as real < 120.0 * (t2 - t1) + 1200.0 + 3.0 + |sendings[j - 1].line| as real
  {
    hide Spent, Cost, Run, Steady;
    RunSteady(ops, clock);
    SpentExactly(Run(FRESH, ops).sendings, i, j);
    Budget(Run(FRESH, ops).sendings, Run(FRESH, ops).throttleTime, clock, i, j, t1, t2);
  }
}

/** The IRC module: its connections and the list of throttled ones. */
module IrcThrottle {
  import opened IrcLines
  import opened IrcRuns

  class IrcConnection {
    var connected: bool
    var throttle: bool
    var obuffer: seq<string>
    var throttleTime: real
    ghost var written: seq<string>
    ghost var dropped: seq<string>
    ghost var sendings: seq<Sending>

    ghost function State(): Line
      reads this
    {
      Line(connected, throttle, obuffer, throttleTime, written, dropped, sendings)
    }

    constructor ()
      ensures State() == FRESH
    {
      connected, throttle, obuffer, throttleTime := false, false, [], 0.0;
      written, dropped, sendings := [], [], [];
    }

    method IrcSend(message: string)
      modifies this
      ensures State() == Step(old(State()), Send(message, false))
    {
      var buffer := Fitted(message);
      if throttle {
        obuffer := obuffer + [buffer];
        return;
      }
      written := written + [buffer];
    }

    method IrcSendFirst(message: string)
      modifies this
      ensures State() == Step(old(State()), Send(message, true))
    {
      var buffer := Fitted(message);
      if throttle {
        obuffer := [buffer] + obuffer;
        return;
      }
      written := written + [buffer];
    }

    /** The part of a poll that concerns this connection while it is alive. */
    method Poll(now: real)
      requires throttle && connected
      modifies this
      ensures State() == Step(old(State()), Op.Poll(now))
    {
      if now > throttleTime { throttleTime := now; }
      while obuffer != [] && throttleTime - now < 10.0
        invariant Drained(State(), now) == Polled(old(State()), now)
        decreases |obuffer|
      {
        var line := obuffer[0];
        obuffer := obuffer[1..];
        written := written + [line];
        sendings := sendings + [Sending(line, now, throttleTime, throttleTime + Penalty(line))];
        throttleTime := throttleTime + Penalty(line);
      }
    }

    /** The part of switching throttling off that concerns the buffer. */
    method GiveUpBuffer(flush: bool)
      requires throttle
      modifies this
      ensures State() == Step(old(State()), Disable(flush))
    {
      throttle := false;
      ghost var before := State();
      var i := 0;
      while i < |obuffer|
        invariant i <= |obuffer|
        invariant State() == before.(written := written, dropped := dropped)
        invariant written == before.written + if flush && connected then Fits(obuffer)[..i] else []
        invariant dropped == before.dropped + if flush && connected then [] else obuffer[..i]
      {
        if flush && connected {
          IrcSend(obuffer[i]);
        } else {
          dropped := dropped + [obuffer[i]];
        }
        i := i + 1;
      }
      obuffer := [];
    }
  }

  /** The module's list of throttled connections. */
  class Irc {
    var throttled: seq<IrcConnection>
    ghost var connections: set<IrcConnection>

    /** Exactly the throttled connections are listed, each once. */
    ghost predicate Valid()
      reads this, connections
    {
      && (forall c :: c in connections ==> (c in throttled <==> c.throttle))
      && (forall i :: 0 <= i < |throttled| ==> throttled[i] in connections)
      && (forall i, j :: 0 <= i < j < |throttled| ==> throttled[i] != throttled[j])
    }

    method EnableIrcConnectionThrottle(irc: IrcConnection, now: real) returns (ok: bool)
      requires Valid() && irc in connections
      modifies this`throttled, irc
      ensures Valid() && (ok <==> !old(irc.throttle)) && irc.State() == Step(old(irc.State()), Enable(now))
      ensures throttled == old(throttled) + if ok then [irc] else []
    {
      if irc.throttle { return false; }
      irc.throttle, irc.obuffer, irc.throttleTime := true, [], now;
      irc.sendings := [];
      throttled := throttled + [irc];
      ok := true;
    }

    method DisableIrcConnectionThrottle(irc: IrcConnection, flush: bool)
      requires Valid() && irc in connections
      modifies this`throttled, irc
      ensures Valid() && irc.State() == Step(old(irc.State()), Disable(flush))
      ensures throttled == Without(old(throttled), irc) && !irc.throttle && irc.connected == old(irc.connected)
      ensures forall c :: c in throttled <==> c in old(throttled) && c != irc
    {
      hide Drained, Fits, Without;
      WithoutFacts(throttled, irc);
      if !irc.throttle { return; }
      irc.GiveUpBuffer(flush);
      assert !irc.State().throttle && irc.State().connected == old(irc.State().connected);
      throttled := Without(throttled, irc);
    }

    /** Polls the listed connections that are alive and collects the others. */
    method PollConnections(now: real) returns (dead: seq<IrcConnection>)
      requires Valid()
      modifies connections
      ensures Valid() && forall c :: c in dead <==> c in throttled && !c.connected
      ensures forall c :: c in connections ==>
                c.connected == old(c.connected)
                && c.State() == if c in throttled && c.connected then Step(old(c.State()), Poll(now)) else old(c.State())
    {
      hide Drained;
      dead := [];
      var i := 0;
      while i < |throttled|
        invariant i <= |throttled|
        invariant forall c :: c in connections ==> c.throttle == old(c.throttle) && c.connected == old(c.connected)
        invariant forall c :: c in connections ==>
                    c.State() == if c in throttled[..i] && c.connected then Step(old(c.State()), Poll(now)) else old(c.State())
        invariant forall c :: c in dead <==> c in throttled[..i] && !c.connected
      {
        var irc := throttled[i];
        assert throttled[..i + 1] == throttled[..i] + [irc] && irc in throttled;
        i := i + 1;
        if !irc.connected {
          dead := [irc] + dead;
          continue;
        }
        irc.Poll(now);
      }
    }

    /** Every listed connection is polled; the dead ones leave the list. */
    method ListenerThrottlePoll(now: real)
      requires Valid()
      modifies this`throttled, connections
      ensures Valid()
      ensures forall c :: c in connections ==>
                c.State() == if c in old(throttled) then Step(old(c.State()), Poll(now)) else old(c.State())
      ensures forall c :: c in connections ==> (c in throttled <==> c in old(throttled) && c.connected)
    {
      hide Drained, Polled, Fits, Without;
      var dead := PollConnections(now);
      var i := 0;
      while i < |dead|
        invariant i <= |dead| && Valid()
        invariant forall c :: c in throttled <==> c in old(throttled) && c !in dead[..i]
        invariant forall c :: c in connections ==> c.connected == old(c.connected)
        invariant forall c :: c in connections ==>
                    c.State() == if c in old(throttled) && (c.connected || c in dead[..i]) then Step(old(c.State()), Poll(now))
                                    else old(c.State())
      {
        var irc := dead[i];
        assert dead[..i + 1] == dead[..i] + [irc] && irc in dead;
        ghost var before := irc.State();
        DisableIrcConnectionThrottle(irc, false);
        assert irc.State() == Step(before, Disable(false)) && before.throttle == (irc !in dead[..i]);
        i := i + 1;
      }
      assert dead[..i] == dead;
    }
  }

  /** Removes the first occurrence. */
  function Without(list: seq<IrcConnection>, irc: IrcConnection): seq<IrcConnection> {
    if list == [] then []
    else if list[0] == irc then list[1..]
    else [list[0]] + Without(list[1..], irc)
  }

  lemma {:induction false} WithoutFacts(list: seq<IrcConnection>, irc: IrcConnection)
    requires forall i, j :: 0 <= i < j < |list| ==> list[i] != list[j]
    ensures irc !in list ==> Without(list, irc) == list
    ensures forall i :: 0 <= i < |Without(list, irc)| ==> Without(list, irc)[i] in list && Without(list, irc)[i] != irc
    ensures forall i :: 0 <= i < |list| && list[i] != irc ==> list[i] in Without(list, irc)
    ensures forall i, j :: 0 <= i < j < |Without(list, irc)| ==> Without(list, irc)[i] != Without(list, irc)[j]
  {
    if list != [] && list[0] != irc {
      var first, tail := list[0], list[1..];
      var rest := Without(tail, irc);
      assert Without(list, irc) == [first] + rest && list == [first] + tail;
      hide Without;
      WithoutFacts(tail, irc);
      PrependFacts(first, tail, rest, irc);
    }
  }

  lemma PrependFacts(first: IrcConnection, tail: seq<IrcConnection>, rest: seq<IrcConnection>, irc: IrcConnection)
    requires forall i, j :: 0 <= i < j < |[first] + tail| ==> ([first] + tail)[i] != ([first] + tail)[j]
    requires forall i :: 0 <= i < |rest| ==> rest[i] in tail && rest[i] != irc
    requires forall i :: 0 <= i < |tail| && tail[i] != irc ==> tail[i] in rest
    requires forall i, j :: 0 <= i < j < |rest| ==> rest[i] != rest[j]
    requires first != irc
    ensures forall i :: 0 <= i < |[first] + rest| ==> ([first] + rest)[i] in [first] + tail && ([first] + rest)[i] != irc
    ensures forall i :: 0 <= i < |[first] + tail| && ([first] + tail)[i] != irc ==> ([first] + tail)[i] in [first] + rest
    ensures forall i, j :: 0 <= i < j < |[first] + rest| ==> ([first] + rest)[i] != ([first] + rest)[j]
  {
    forall i | 0 <= i < |rest|
      ensures first != rest[i]
    {
      assert rest[i] in tail;
      var k :| 0 <= k < |tail| && tail[k] == rest[i];
      assert ([first] + tail)[k + 1] == tail[k] && ([first] + tail)[0] == first;
    }
  }
}
