/** The listener table of src/modules/event/event.c. */
module EventTables {
  import opened Basics

  const LOWEST: Int := INT_MIN
  const NORMAL: Int := 0
  const HIGHEST: Int := INT_MAX

  /** Two listeners belong to the log_event module. */
  datatype Listener = LogAttached | LogDetached | Other(id: int)

  datatype Entry = Entry(listener: Listener, priority: Int, custom: int)

  type Events = map<string, seq<Entry>>

  /** Subjects by number; number 0 is the null subject. */
  type Subjects = map<int, Events>

  const GLOBAL := 0

  predicate Sorted(queue: seq<Entry>) {
    forall i, j :: 0 <= i < j < |queue| ==> queue[i].priority <= queue[j].priority
  }

  /** The difference of the priorities, as an int. */
  function Compare(a: Entry, b: Entry): int {
    ToInt(a.priority - b.priority)
  }

  /** Before the first entry that does not compare as less. */
  function InsertSorted(queue: seq<Entry>, entry: Entry): (r: seq<Entry>)
    ensures |r| == |queue| + 1
  {
    if queue == [] || Compare(queue[0], entry) >= 0 then [entry] + queue
    else [queue[0]] + InsertSorted(queue[1..], entry)
  }

  function Inserted(queue: seq<Entry>, entry: Entry): (r: seq<Entry>)
    ensures |r| == |queue| + 1
  {
    if entry.priority == LOWEST then [entry] + queue
    else if entry.priority == HIGHEST then queue + [entry]
    else InsertSorted(queue, entry)
  }

  function FirstMatch(queue: seq<Entry>, listener: Listener, custom: int): (i: nat)
    ensures i <= |queue|
    ensures i < |queue| ==> queue[i].listener == listener && queue[i].custom == custom
    ensures forall j :: 0 <= j < i ==> !(queue[j].listener == listener && queue[j].custom == custom)
  {
    if queue == [] || (queue[0].listener == listener && queue[0].custom == custom) then 0
    else 1 + FirstMatch(queue[1..], listener, custom)
  }

  /** The listeners of an event of a subject. */
  function Queue(subjects: Subjects, subject: int, event: string): seq<Entry> {
    if subject in subjects && event in subjects[subject] then subjects[subject][event] else []
  }

  /** No empty queue and no subject without events is kept. */
  predicate Tidy(subjects: Subjects) {
    forall s :: s in subjects ==>
      subjects[s] != map[] && forall e :: e in subjects[s] ==> subjects[s][e] != []
  }

  function Attached(subjects: Subjects, subject: int, event: string, entry: Entry): Subjects {
    var events := if subject in subjects then subjects[subject] else map[];
    subjects[subject := events[event := Inserted(Queue(subjects, subject, event), entry)]]
  }

  /** Entry i leaves its queue, and nothing empty stays. */
  function RemovedAt(subjects: Subjects, subject: int, event: string, i: nat): Subjects
    requires i < |Queue(subjects, subject, event)|
  {
    var queue := Queue(subjects, subject, event);
    if |queue| > 1 then subjects[subject := subjects[subject][event := queue[..i] + queue[i + 1..]]]
    else if subjects[subject].Keys != {event} then subjects[subject := subjects[subject] - {event}]
    else subjects - {subject}
  }

  /** Removing an entry, then its queue and its subject if they are empty. */
  lemma RemovedSteps(subjects: Subjects, subject: int, event: string, i: nat)
    requires i < |Queue(subjects, subject, event)|
    ensures var queue := Queue(subjects, subject, event)[..i] + Queue(subjects, subject, event)[i + 1..];
            var first := subjects[subject := subjects[subject][event := queue]];
            var rest := subjects[subject][event := queue] - {event};
            var second := first[subject := rest];
            RemovedAt(subjects, subject, event, i) ==
            if |queue| > 0 then first else if |rest| > 0 then second else second - {subject}
  {
    var queue := Queue(subjects, subject, event)[..i] + Queue(subjects, subject, event)[i + 1..];
    var rest := subjects[subject][event := queue] - {event};
    var second := subjects[subject := subjects[subject][event := queue]][subject := rest];
    if |queue| == 0 {
      assert rest == subjects[subject] - {event};
      assert second == subjects[subject := rest];
      assert second - {subject} == subjects - {subject};
      assert rest.Keys == subjects[subject].Keys - {event};
      if |rest| == 0 {
        assert rest.Keys == {} && event in subjects[subject].Keys;
        assert subjects[subject].Keys == {event};
      }
    }
  }

  function Detached(subjects: Subjects, subject: int, event: string, listener: Listener, custom: int): Subjects {
    var i := FirstMatch(Queue(subjects, subject, event), listener, custom);
    if i == |Queue(subjects, subject, event)| then subjects else RemovedAt(subjects, subject, event, i)
  }

  // ----- what attaching and detaching do to the queues

  lemma AttachedQueues(subjects: Subjects, subject: int, event: string, entry: Entry, s: int, e: string)
    requires Tidy(subjects)
    ensures Tidy(Attached(subjects, subject, event, entry))
    ensures Queue(Attached(subjects, subject, event, entry), s, e) ==
            if s == subject && e == event then Inserted(Queue(subjects, s, e), entry) else Queue(subjects, s, e)
  {
    hide Inserted;
    var after := Attached(subjects, subject, event, entry);
    assert event in after[subject] && after[subject][event] != [];
  }

  lemma DetachedQueues(subjects: Subjects, subject: int, event: string, listener: Listener, custom: int, s: int, e: string)
    requires Tidy(subjects)
    ensures Tidy(Detached(subjects, subject, event, listener, custom))
    ensures var queue := Queue(subjects, s, e);
            var i := FirstMatch(queue, listener, custom);
            Queue(Detached(subjects, subject, event, listener, custom), s, e) ==
            if s == subject && e == event && i < |queue| then queue[..i] + queue[i + 1..] else queue
  {
    hide FirstMatch;
    var queue := Queue(subjects, subject, event);
    var i := FirstMatch(queue, listener, custom);
    var after := Detached(subjects, subject, event, listener, custom);
    if i < |queue| && |queue| == 1 && subjects[subject].Keys != {event} {
      var other :| other in subjects[subject].Keys && other != event;
      assert other in after[subject];
    }
  }

  /** Detaching a newly attached listener gives back the table. */
  lemma AttachThenDetach(subjects: Subjects, subject: int, event: string, entry: Entry)
    requires Tidy(subjects)
    requires FirstMatch(Queue(subjects, subject, event), entry.listener, entry.custom) == |Queue(subjects, subject, event)|
    ensures Detached(Attached(subjects, subject, event, entry), subject, event, entry.listener, entry.custom) == subjects
  {
    hide Inserted, FirstMatch;
    var queue, after := Queue(subjects, subject, event), Attached(subjects, subject, event, entry);
    var longer := Inserted(queue, entry);
    var i := InsertedMatch(queue, entry);
    assert Queue(after, subject, event) == longer;
    assert longer[..i] + longer[i + 1..] == queue;
    if queue == [] {
      OnlyQueue(subjects, subject, event, longer);
    } else {
      assert after[subject][event := queue] == subjects[subject];
      assert after[subject := subjects[subject]] == subjects;
    }
  }

  lemma OnlyQueue(subjects: Subjects, subject: int, event: string, queue: seq<Entry>)
    requires Tidy(subjects) && Queue(subjects, subject, event) == []
    ensures subject in subjects ==>
              var after := subjects[subject := subjects[subject][event := queue]];
              after[subject].Keys != {event} && after[subject := after[subject] - {event}] == subjects
    ensures subject !in subjects ==>
              var after := subjects[subject := map[event := queue]];
              after[subject].Keys == {event} && after - {subject} == subjects
  {
    if subject in subjects {
      var after := subjects[subject := subjects[subject][event := queue]];
      assert event !in subjects[subject];
      assert after[subject] - {event} == subjects[subject];
      var other :| other in subjects[subject];
      assert other in after[subject];
    }
  }

  /** A new entry goes in as the only change, and is then the first match. */
  lemma {:induction false} InsertedMatch(queue: seq<Entry>, entry: Entry) returns (i: nat)
    requires FirstMatch(queue, entry.listener, entry.custom) == |queue|
    ensures i <= |queue| && Inserted(queue, entry) == queue[..i] + [entry] + queue[i..]
    ensures FirstMatch(Inserted(queue, entry), entry.listener, entry.custom) == i
  {
    i := InsertedWhere(queue, entry);
    var longer := Inserted(queue, entry);
    var first := FirstMatch(longer, entry.listener, entry.custom);
    assert longer[i] == entry;
    assert forall j :: 0 <= j < i ==> longer[j] == queue[j];
  }

  lemma {:induction false} InsertedWhere(queue: seq<Entry>, entry: Entry) returns (i: nat)
    ensures i <= |queue| && Inserted(queue, entry) == queue[..i] + [entry] + queue[i..]
  {
    if entry.priority == LOWEST { i := 0; }
    else if entry.priority == HIGHEST { i := |queue|; }
    else { i := InsertSortedWhere(queue, entry); }
  }

  lemma {:induction false} InsertSortedWhere(queue: seq<Entry>, entry: Entry) returns (i: nat)
    ensures i <= |queue| && InsertSorted(queue, entry) == queue[..i] + [entry] + queue[i..]
    ensures forall j :: 0 <= j < i ==> Compare(queue[j], entry) < 0
    ensures i < |queue| ==> Compare(queue[i], entry) >= 0
  {
    if queue == [] || Compare(queue[0], entry) >= 0 {
      i := 0;
    } else {
      var n := InsertSortedWhere(queue[1..], entry);
      i := n + 1;
      assert queue[..i] == [queue[0]] + queue[1..][..n];
      assert forall j :: 0 < j < i ==> queue[j] == queue[1..][j - 1];
    }
  }

  // ----- order

  /** The first priority that is not below the new one. */
  function Above(queue: seq<Entry>, priority: Int): (i: nat)
    requires Sorted(queue)
    ensures i <= |queue|
    ensures forall j :: 0 <= j < i ==> queue[j].priority < priority
    ensures forall j :: i <= j < |queue| ==> queue[j].priority >= priority
  {
    if queue == [] then 0
    else if queue[|queue| - 1].priority < priority then |queue|
    else Above(queue[..|queue| - 1], priority)
  }

  /** The differences the comparison meets fit an int: with the lowest priority
      in the queue, and with the first that is not below the new one. */
  predicate Comparable(queue: seq<Entry>, priority: Int)
    requires Sorted(queue)
  {
    queue != [] && LOWEST < priority < HIGHEST ==>
      && priority - queue[0].priority <= 0x8000_0000
      && var i := Above(queue, priority); i < |queue| ==> queue[i].priority - priority < 0x8000_0000
  }

  lemma CompareSign(a: Entry, b: Entry)
    ensures var d := a.priority - b.priority;
            Compare(a, b) < 0 <==> -0x8000_0000 <= d < 0 || d >= 0x8000_0000
  {}

  /** A sorted queue stays sorted if and only if those differences fit; among
      equal priorities the newest listener then comes first. */
  lemma InsertedExactly(queue: seq<Entry>, entry: Entry)
    requires Sorted(queue)
    ensures Sorted(Inserted(queue, entry)) <==> Comparable(queue, entry.priority)
    ensures LOWEST < entry.priority < HIGHEST && Comparable(queue, entry.priority) ==>
              var i := Above(queue, entry.priority); Inserted(queue, entry) == queue[..i] + [entry] + queue[i..]
    ensures entry.priority == INT_MIN ==> Inserted(queue, entry) == [entry] + queue
    ensures entry.priority == INT_MAX ==> Inserted(queue, entry) == queue + [entry]
  {
    hide Compare, InsertSorted, Above;
    if LOWEST < entry.priority < HIGHEST {
      var i := InsertSortedWhere(queue, entry);
      if queue == [] { return; }
      var a := Above(queue, entry.priority);
      var after := Inserted(queue, entry);
      CompareSign(queue[0], entry);
      if a < |queue| { CompareSign(queue[a], entry); }
      if Comparable(queue, entry.priority) {
        if i < a { CompareSign(queue[i], entry); }
        assert i == a;
        SortedBetween(queue, entry, a);
      } else if entry.priority - queue[0].priority > 0x8000_0000 {
        assert i == 0;
        assert after[0].priority > after[1].priority;
      } else {
        forall j | 0 <= j <= a
          ensures Compare(queue[j], entry) < 0
        {
          CompareSign(queue[j], entry);
          assert queue[0].priority <= queue[j].priority;
        }
        assert i > a;
        assert after[a] == queue[a] && after[i] == entry;
      }
    }
  }

  lemma SortedBetween(queue: seq<Entry>, entry: Entry, i: nat)
    requires Sorted(queue) && i <= |queue|
    requires forall j :: 0 <= j < i ==> queue[j].priority <= entry.priority
    requires forall j :: i <= j < |queue| ==> queue[j].priority >= entry.priority
    ensures Sorted(queue[..i] + [entry] + queue[i..])
  {}

  // ----- order in every run

  ghost predicate AllSorted(subjects: Subjects) {
    forall s, e :: Sorted(Queue(subjects, s, e))
  }

  /** Attaching a listener keeps all queues sorted if and only if its priority
      is comparable with those in its queue. */
  lemma AttachedSorted(subjects: Subjects, subject: int, event: string, entry: Entry)
    requires Tidy(subjects) && AllSorted(subjects)
    ensures AllSorted(Attached(subjects, subject, event, entry)) <==> Comparable(Queue(subjects, subject, event), entry.priority)
  {
    hide Attached, Queue, Sorted, Inserted, Comparable;
    var after := Attached(subjects, subject, event, entry);
    InsertedExactly(Queue(subjects, subject, event), entry);
    AttachedQueues(subjects, subject, event, entry, subject, event);
    if Comparable(Queue(subjects, subject, event), entry.priority) {
      forall s, e
        ensures Sorted(Queue(after, s, e))
      {
        AttachedQueues(subjects, subject, event, entry, s, e);
      }
    }
  }

  /** Detaching one always does. */
  lemma DetachedSorted(subjects: Subjects, subject: int, event: string, listener: Listener, custom: int)
    requires Tidy(subjects) && AllSorted(subjects)
    ensures AllSorted(Detached(subjects, subject, event, listener, custom))
  {
    hide Detached, Queue, FirstMatch;
    var after := Detached(subjects, subject, event, listener, custom);
    forall s, e
      ensures Sorted(Queue(after, s, e))
    {
      DetachedQueues(subjects, subject, event, listener, custom, s, e);
    }
  }

  /** The differences of any two priorities fit an int, as far as they can be
      compared: the lowest and the highest are not inserted by comparing. */
  predicate Compatible(priorities: set<Int>) {
    forall p, q :: p in priorities && q in priorities && LOWEST < p < HIGHEST ==> IsInt(q - p)
  }

  predicate Uses(queue: seq<Entry>, priorities: set<Int>) {
    forall i :: 0 <= i < |queue| ==> queue[i].priority in priorities
  }

  /** The queues hold these priorities only, and are sorted if those are
      compatible. */
  ghost predicate Ranked(subjects: Subjects, priorities: set<Int>) {
    && (forall s, e :: Uses(Queue(subjects, s, e), priorities))
    && (Compatible(priorities) ==> AllSorted(subjects))
  }

  lemma CompatibleComparable(queue: seq<Entry>, priorities: set<Int>, priority: Int)
    requires Sorted(queue) && Uses(queue, priorities) && Compatible(priorities + {priority})
    ensures Comparable(queue, priority)
  {
    hide Above, Sorted;
    assert forall i :: 0 <= i < |queue| ==> queue[i].priority in priorities + {priority};
    assert forall i :: 0 <= i < |queue| && LOWEST < priority < HIGHEST ==> IsInt(queue[i].priority - priority);
  }

  lemma RankedAttached(subjects: Subjects, priorities: set<Int>, subject: int, event: string, entry: Entry)
    requires Tidy(subjects) && Ranked(subjects, priorities)
    ensures Ranked(Attached(subjects, subject, event, entry), priorities + {entry.priority})
  {
    hide Attached, Queue, Sorted, Inserted, Comparable;
    var after, more := Attached(subjects, subject, event, entry), priorities + {entry.priority};
    var i := InsertedWhere(Queue(subjects, subject, event), entry);
    forall s, e
      ensures Uses(Queue(after, s, e), more)
    {
      AttachedQueues(subjects, subject, event, entry, s, e);
      assert Uses(Queue(subjects, s, e), priorities) && Uses(Queue(subjects, subject, event), priorities);
    }
    if Compatible(more) {
      assert Compatible(priorities) by { hide IsInt; }
      assert Sorted(Queue(subjects, subject, event)) && Uses(Queue(subjects, subject, event), priorities);
      CompatibleComparable(Queue(subjects, subject, event), priorities, entry.priority);
      AttachedSorted(subjects, subject, event, entry);
    }
  }

  lemma RankedDetached(subjects: Subjects, priorities: set<Int>, subject: int, event: string, listener: Listener, custom: int)
    requires Tidy(subjects) && Ranked(subjects, priorities)
    ensures Ranked(Detached(subjects, subject, event, listener, custom), priorities)
  {
    hide Detached, Queue, FirstMatch, Sorted;
    var after := Detached(subjects, subject, event, listener, custom);
    forall s, e
      ensures Uses(Queue(after, s, e), priorities)
    {
      DetachedQueues(subjects, subject, event, listener, custom, s, e);
      assert Uses(Queue(subjects, s, e), priorities);
    }
    if Compatible(priorities) { DetachedSorted(subjects, subject, event, listener, custom); }
  }

  datatype Change = Attach(subject: int, event: string, entry: Entry)
                  | Detach(subject: int, event: string, listener: Listener, custom: int)

  /** The table after a run of changes. */
  function After(changes: seq<Change>): Subjects {
    if changes == [] then map[]
    else
      var before := After(changes[..|changes| - 1]);
      match changes[|changes| - 1]
      case Attach(subject, event, entry) => Attached(before, subject, event, entry)
      case Detach(subject, event, listener, custom) => Detached(before, subject, event, listener, custom)
  }

  predicate Attaches(changes: seq<Change>, priorities: set<Int>) {
    forall i :: 0 <= i < |changes| && changes[i].Attach? ==> changes[i].entry.priority in priorities
  }

  lemma {:induction false} RunRanked(changes: seq<Change>, priorities: set<Int>)
    requires Attaches(changes, priorities)
    ensures Tidy(After(changes)) && Ranked(After(changes), priorities)
  {
    hide Attached, Detached, Ranked, Tidy;
    if changes == [] {
      NothingRanked(priorities);
    } else {
      var before := After(changes[..|changes| - 1]);
      RunRanked(changes[..|changes| - 1], priorities);
      match changes[|changes| - 1]
      case Attach(subject, event, entry) =>
        RankedAttached(before, priorities, subject, event, entry);
        assert priorities + {entry.priority} == priorities;
        AttachedQueues(before, subject, event, entry, subject, event);
      case Detach(subject, event, listener, custom) =>
        RankedDetached(before, priorities, subject, event, listener, custom);
        DetachedQueues(before, subject, event, listener, custom, subject, event);
    }
  }

  lemma NothingRanked(priorities: set<Int>)
    ensures Tidy(map[]) && Ranked(map[], priorities)
  {
    assert forall s, e :: Queue(map[], s, e) == [];
  }

  /** Every run that attaches listeners with these priorities only keeps all
      queues sorted, if and only if the priorities are compatible. */
  lemma RunsSortedExactly(priorities: set<Int>)
    ensures Compatible(priorities) <==> forall changes :: Attaches(changes, priorities) ==> AllSorted(After(changes))
  {
    if Compatible(priorities) {
      forall changes | Attaches(changes, priorities)
        ensures AllSorted(After(changes))
      {
        RunRanked(changes, priorities);
      }
    } else {
      var p, q :| p in priorities && q in priorities && LOWEST < p < HIGHEST && !IsInt(q - p);
      TwoOutOfOrder(p, q);
      var changes := [Attach(GLOBAL, "", Entry(Other(0), q, 0)), Attach(GLOBAL, "", Entry(Other(1), p, 0))];
      assert Attaches(changes, priorities) && !AllSorted(After(changes));
    }
  }

  lemma TwoOutOfOrder(p: Int, q: Int)
    requires LOWEST < p < HIGHEST && !IsInt(q - p)
    ensures !AllSorted(After([Attach(GLOBAL, "", Entry(Other(0), q, 0)), Attach(GLOBAL, "", Entry(Other(1), p, 0))]))
  {
    var first, second := Entry(Other(0), q, 0), Entry(Other(1), p, 0);
    var changes := [Attach(GLOBAL, "", first), Attach(GLOBAL, "", second)];
    assert changes[..1] == [Attach(GLOBAL, "", first)] && changes[..1][..0] == [];
    var one := Attached(map[], GLOBAL, "", first);
    assert After(changes[..1]) == one;
    AttachedQueues(map[], GLOBAL, "", first, GLOBAL, "");
    var queue := [first];
    assert Queue(one, GLOBAL, "") == queue;
    AttachedQueues(one, GLOBAL, "", second, GLOBAL, "");
    assert !Comparable(queue, p);
    InsertedExactly(queue, second);
    assert Queue(After(changes), GLOBAL, "") == Inserted(queue, second);
  }

  /** The three named priorities are compatible. */
  lemma NamedPrioritiesSorted(changes: seq<Change>)
    requires Attaches(changes, {LOWEST, NORMAL, HIGHEST})
    ensures AllSorted(After(changes))
  {
    assert Compatible({LOWEST, NORMAL, HIGHEST});
    RunRanked(changes, {LOWEST, NORMAL, HIGHEST});
  }

  /** With other priorities the int difference can wrap: a listener of priority
      1 ends up before one of the lowest priority. */
  lemma WrongOrder()
    ensures var lowest, above := Entry(Other(1), LOWEST, 0), Entry(Other(2), 1, 0);
            Inserted(Inserted([], lowest), above) == [above, lowest] && !Sorted([above, lowest])
  {
    var lowest, above := Entry(Other(1), LOWEST, 0), Entry(Other(2), 1, 0);
    CompareSign(lowest, above);
    assert [above, lowest][0].priority > [above, lowest][1].priority;
  }
}

/** The event registry and its client src/modules/log_event/log_event.c. */
module EventRegistry {
  import opened Basics
  import opened EventTables

  datatype Call = Call(entry: Entry, subject: int, event: string, argument: string)

  /** What log_event keeps: a count, and whether its log handler is installed. */
  datatype Log = Log(count: int, handler: bool)

  const ATTACHED := "listener_attached"
  const DETACHED := "listener_detached"
  const LOG := "log"

  function ListenerAttached(log: Log, event: string): Log {
    if event != LOG then log else Log(log.count + 1, log.count == 0 || log.handler)
  }

  function ListenerDetached(log: Log, event: string): Log {
    if event != LOG then log else Log(log.count - 1, log.count != 1 && log.handler)
  }

  function Notified(log: Log, entry: Entry, argument: string): Log {
    match entry.listener
    case LogAttached => ListenerAttached(log, argument)
    case LogDetached => ListenerDetached(log, argument)
    case Other(_) => log
  }

  function AllNotified(log: Log, queue: seq<Entry>, argument: string): Log {
    if queue == [] then log
    else Notified(AllNotified(log, queue[..|queue| - 1], argument), queue[|queue| - 1], argument)
  }

  /** Every entry of the queue, in turn, is called with what was triggered. */
  function Calls(queue: seq<Entry>, subject: int, event: string, argument: string): (r: seq<Call>)
    ensures |r| == |queue|
    ensures forall i :: 0 <= i < |queue| ==>
              && r[i].entry == queue[i] && r[i].subject == subject
              && r[i].event == event && r[i].argument == argument
  {
    seq(|queue|, i requires 0 <= i < |queue| => Call(queue[i], subject, event, argument))
  }

  lemma CallsNext(log: Log, queue: seq<Entry>, k: nat, subject: int, event: string, argument: string)
    requires k < |queue|
    ensures Calls(queue[..k + 1], subject, event, argument) ==
            Calls(queue[..k], subject, event, argument) + [Call(queue[k], subject, event, argument)]
    ensures AllNotified(log, queue[..k + 1], argument) == Notified(AllNotified(log, queue[..k], argument), queue[k], argument)
  {
    assert queue[..k + 1][..k] == queue[..k];
  }

  lemma NothingCalled(log: Log, queue: seq<Entry>, subject: int, event: string, argument: string)
    ensures Calls(queue[..0], subject, event, argument) == [] && AllNotified(log, queue[..0], argument) == log
    ensures queue == [] ==> Calls(queue, subject, event, argument) == [] && AllNotified(log, queue, argument) == log
  {}

  function Occurrences(queue: seq<Entry>, listener: Listener): nat {
    if queue == [] then 0
    else Occurrences(queue[..|queue| - 1], listener) + if queue[|queue| - 1].listener == listener then 1 else 0
  }

  lemma {:induction false} OccurrencesConcat(a: seq<Entry>, b: seq<Entry>, listener: Listener)
    ensures Occurrences(a + b, listener) == Occurrences(a, listener) + Occurrences(b, listener)
  {
    if b == [] {
      assert a + b == a;
    } else {
      var last := |b| - 1;
      OccurrencesConcat(a, b[..last], listener);
      assert (a + b)[..|a + b| - 1] == a + b[..last];
    }
  }

  lemma OccurrencesInserted(queue: seq<Entry>, entry: Entry, listener: Listener)
    ensures Occurrences(Inserted(queue, entry), listener) ==
            Occurrences(queue, listener) + if entry.listener == listener then 1 else 0
  {
    hide Inserted;
    var i := InsertedWhere(queue, entry);
    assert queue == queue[..i] + queue[i..];
    OccurrencesConcat(queue[..i], queue[i..], listener);
    OccurrencesConcat(queue[..i] + [entry], queue[i..], listener);
    OccurrencesConcat(queue[..i], [entry], listener);
    assert [entry][..0] == [];
  }

  lemma OccurrencesRemoved(queue: seq<Entry>, i: nat, listener: Listener)
    requires i < |queue|
    ensures Occurrences(queue[..i] + queue[i + 1..], listener) ==
            Occurrences(queue, listener) - if queue[i].listener == listener then 1 else 0
  {
    assert queue == queue[..i] + [queue[i]] + queue[i + 1..];
    OccurrencesConcat(queue[..i] + [queue[i]], queue[i + 1..], listener);
    OccurrencesConcat(queue[..i], [queue[i]], listener);
    OccurrencesConcat(queue[..i], queue[i + 1..], listener);
    assert [queue[i]][..0] == [];
  }

  /** The listeners of log_event have no custom data. */
  predicate NullCustom(queue: seq<Entry>) {
    forall i :: 0 <= i < |queue| ==> queue[i].listener.Other? || queue[i].custom == 0
  }

  lemma NullCustomInserted(queue: seq<Entry>, entry: Entry)
    requires NullCustom(queue) && (entry.listener.Other? || entry.custom == 0)
    ensures NullCustom(Inserted(queue, entry))
  {
    hide Inserted;
    var i := InsertedWhere(queue, entry);
  }

  lemma NullCustomRemoved(queue: seq<Entry>, i: nat)
    requires NullCustom(queue) && i < |queue|
    ensures NullCustom(queue[..i] + queue[i + 1..])
  {}

  lemma {:induction false} Occurs(queue: seq<Entry>, listener: Listener) returns (i: nat)
    requires Occurrences(queue, listener) > 0
    ensures i < |queue| && queue[i].listener == listener
  {
    var last := |queue| - 1;
    if queue[last].listener == listener { i := last; } else { i := Occurs(queue[..last], listener); }
  }

  /** How often the two listeners of log_event are in a queue. */
  predicate Holds(queue: seq<Entry>, attached: int, detached: int) {
    && Occurrences(queue, LogAttached) == attached && Occurrences(queue, LogDetached) == detached
    && NullCustom(queue)
  }

  /** Where they are: each in its own global queue, and nowhere else. */
  ghost predicate Placed(subjects: Subjects, attached: int, detached: int) {
    forall s, e :: HoldsAt(subjects, s, e, attached, detached)
  }

  predicate HoldsAt(subjects: Subjects, s: int, e: string, attached: int, detached: int) {
    Holds(Queue(subjects, s, e), if s == GLOBAL && e == ATTACHED then attached else 0,
          if s == GLOBAL && e == DETACHED then detached else 0)
  }

  lemma PlacedAt(subjects: Subjects, attached: int, detached: int, s: int, e: string)
    requires Placed(subjects, attached, detached)
    ensures Occurrences(Queue(subjects, s, e), LogAttached) == if s == GLOBAL && e == ATTACHED then attached else 0
    ensures Occurrences(Queue(subjects, s, e), LogDetached) == if s == GLOBAL && e == DETACHED then detached else 0
    ensures NullCustom(Queue(subjects, s, e))
  {
    assert HoldsAt(subjects, s, e, attached, detached);
  }

  lemma PlacedAttached(subjects: Subjects, attached: int, detached: int, subject: int, event: string, entry: Entry)
    requires Tidy(subjects) && Placed(subjects, attached, detached)
    requires entry.listener.LogAttached? ==> subject == GLOBAL && event == ATTACHED
    requires entry.listener.LogDetached? ==> subject == GLOBAL && event == DETACHED
    requires entry.listener.Other? || entry.custom == 0
    ensures Placed(Attached(subjects, subject, event, entry),
                   attached + One(entry.listener.LogAttached?), detached + One(entry.listener.LogDetached?))
  {
    hide Occurrences, Inserted, NullCustom, Attached, Queue;
    var queue := Queue(subjects, subject, event);
    PlacedAt(subjects, attached, detached, subject, event);
    NullCustomInserted(queue, entry);
    OccurrencesInserted(queue, entry, LogAttached);
    OccurrencesInserted(queue, entry, LogDetached);
    var after := Attached(subjects, subject, event, entry);
    var attached1, detached1 := attached + One(entry.listener.LogAttached?), detached + One(entry.listener.LogDetached?);
    forall s, e
      ensures HoldsAt(after, s, e, attached1, detached1)
    {
      AttachedQueues(subjects, subject, event, entry, s, e);
      PlacedAt(subjects, attached, detached, s, e);
    }
  }

  lemma PlacedDetached(subjects: Subjects, attached: int, detached: int, subject: int, event: string, listener: Listener, custom: int)
    requires Tidy(subjects) && Placed(subjects, attached, detached)
    requires FirstMatch(Queue(subjects, subject, event), listener, custom) < |Queue(subjects, subject, event)|
    ensures Placed(Detached(subjects, subject, event, listener, custom),
                   attached - One(listener.LogAttached?), detached - One(listener.LogDetached?))
  {
    hide Occurrences, FirstMatch, NullCustom, Detached, Queue;
    var queue := Queue(subjects, subject, event);
    var i := FirstMatch(queue, listener, custom);
    PlacedAt(subjects, attached, detached, subject, event);
    NullCustomRemoved(queue, i);
    OccurrencesRemoved(queue, i, LogAttached);
    OccurrencesRemoved(queue, i, LogDetached);
    var after := Detached(subjects, subject, event, listener, custom);
    var attached1, detached1 := attached - One(listener.LogAttached?), detached - One(listener.LogDetached?);
    forall s, e
      ensures HoldsAt(after, s, e, attached1, detached1)
    {
      DetachedQueues(subjects, subject, event, listener, custom, s, e);
      PlacedAt(subjects, attached, detached, s, e);
    }
  }

  /** A listener of log_event that is attached is found and detached. */
  lemma PlacedDetachedOnce(subjects: Subjects, attached: int, detached: int, event: string, listener: Listener)
    requires Tidy(subjects) && Placed(subjects, attached, detached)
    requires (listener == LogAttached && event == ATTACHED && attached > 0) || (listener == LogDetached && event == DETACHED && detached > 0)
    ensures FirstMatch(Queue(subjects, GLOBAL, event), listener, 0) < |Queue(subjects, GLOBAL, event)|
    ensures Placed(Detached(subjects, GLOBAL, event, listener, 0),
                   attached - One(listener.LogAttached?), detached - One(listener.LogDetached?))
  {
    hide Occurrences, Detached;
    var queue := Queue(subjects, GLOBAL, event);
    PlacedAt(subjects, attached, detached, GLOBAL, event);
    var i := Occurs(queue, listener);
    assert queue[i].custom == 0;
    PlacedDetached(subjects, attached, detached, GLOBAL, event, listener, 0);
  }

  /** Notifying a queue changes the log state once for each of its listeners
      of log_event, and only if the argument is the log event. */
  lemma {:induction false} NotifiedCount(log: Log, queue: seq<Entry>, argument: string)
    ensures argument != LOG ==> AllNotified(log, queue, argument) == log
    ensures Occurrences(queue, LogAttached) == 0 && Occurrences(queue, LogDetached) == 0 ==>
              AllNotified(log, queue, argument) == log
    ensures Occurrences(queue, LogAttached) == 1 && Occurrences(queue, LogDetached) == 0 ==>
              AllNotified(log, queue, argument) == ListenerAttached(log, argument)
    ensures Occurrences(queue, LogAttached) == 0 && Occurrences(queue, LogDetached) == 1 ==>
              AllNotified(log, queue, argument) == ListenerDetached(log, argument)
  {
    if queue != [] {
      NotifiedCount(log, queue[..|queue| - 1], argument);
    }
  }

  /** The count is the number of global log listeners, and the handler is
      installed exactly while there are some. */
  predicate Mirrors(log: Log, subjects: Subjects) {
    log.count == |Queue(subjects, GLOBAL, LOG)| && (log.handler <==> log.count > 0)
  }

  /** The invariant of registry and log_event. */
  ghost predicate Together(subjects: Subjects, log: Log, loaded: bool) {
    && Tidy(subjects)
    && Placed(subjects, if loaded then 1 else 0, if loaded then 1 else 0)
    && (if loaded then Mirrors(log, subjects) else !log.handler)
  }

  /** While log_event is loaded, it counts the listeners of the global event
      "log" and listens to that itself, once to each of two events. */
  lemma LoadedFacts(subjects: Subjects, log: Log)
    requires Together(subjects, log, true)
    ensures log.count == |Queue(subjects, 0, "log")| && (log.handler <==> log.count > 0)
    ensures Occurrences(Queue(subjects, 0, "listener_attached"), LogAttached) == 1
    ensures Occurrences(Queue(subjects, 0, "listener_detached"), LogDetached) == 1
  {
    PlacedAt(subjects, 1, 1, GLOBAL, ATTACHED);
    PlacedAt(subjects, 1, 1, GLOBAL, DETACHED);
    hide Occurrences, Placed;
  }

  lemma TogetherAttached(subjects: Subjects, log: Log, loaded: bool, subject: int, event: string, entry: Entry)
    requires Together(subjects, log, loaded) && entry.listener.Other?
    ensures var after := Attached(subjects, subject, event, entry);
            Together(after, AllNotified(log, Queue(after, subject, ATTACHED), event), loaded)
  {
    hide Placed, AllNotified, Occurrences, Attached;
    var after := Attached(subjects, subject, event, entry);
    var once := if loaded then 1 else 0;
    AttachedQueues(subjects, subject, event, entry, GLOBAL, LOG);
    PlacedAttached(subjects, once, once, subject, event, entry);
    PlacedAt(after, once, once, subject, ATTACHED);
    NotifiedCount(log, Queue(after, subject, ATTACHED), event);
  }

  lemma TogetherTriggered(subjects: Subjects, log: Log, loaded: bool, subject: int, event: string, argument: string)
    requires Together(subjects, log, loaded)
    ensures (subject == GLOBAL && event in {ATTACHED, DETACHED} && argument == LOG)
            || AllNotified(log, Queue(subjects, subject, event), argument) == log
  {
    hide Placed, AllNotified, Occurrences;
    var once := if loaded then 1 else 0;
    PlacedAt(subjects, once, once, subject, event);
    NotifiedCount(log, Queue(subjects, subject, event), argument);
  }

  lemma SortedQueue(subjects: Subjects, priorities: set<Int>, subject: int, event: string)
    ensures Ranked(subjects, priorities) && Compatible(priorities) ==> Sorted(Queue(subjects, subject, event))
  {}

  lemma TogetherDetached(subjects: Subjects, log: Log, loaded: bool, subject: int, event: string, listener: Listener, custom: int)
    requires Together(subjects, log, loaded) && listener.Other?
    requires FirstMatch(Queue(subjects, subject, event), listener, custom) < |Queue(subjects, subject, event)|
    ensures var after := Detached(subjects, subject, event, listener, custom);
            Together(after, AllNotified(log, Queue(after, subject, DETACHED), event), loaded)
  {
    hide Placed, AllNotified, Occurrences, Detached, FirstMatch;
    var after := Detached(subjects, subject, event, listener, custom);
    var once := if loaded then 1 else 0;
    DetachedQueues(subjects, subject, event, listener, custom, GLOBAL, LOG);
    PlacedDetached(subjects, once, once, subject, event, listener, custom);
    PlacedAt(after, once, once, subject, DETACHED);
    NotifiedCount(log, Queue(after, subject, DETACHED), event);
  }

  class Registry {
    var subjects: Subjects
    var log: Log
    ghost var calls: seq<Call>
    ghost var loaded: bool

    /** The priorities of all listeners attached so far. */
    ghost var priorities: set<Int>

    ghost predicate Valid()
      reads this
    {
      Together(subjects, log, loaded) && Ranked(subjects, priorities)
    }

    constructor ()
      ensures Valid() && !loaded && subjects == map[] && calls == [] && priorities == {}
    {
      assert forall s, e :: Queue(map[], s, e) == [];
      NothingRanked({});
      subjects, log, calls, loaded, priorities := map[], Log(0, false), [], false, {};
    }

    /** Calls one listener; those of other modules are only recorded. */
    method Notify(entry: Entry, subject: int, event: string, argument: string)
      modifies this`log, this`calls
      ensures log == Notified(old(log), entry, argument)
      ensures calls == old(calls) + [Call(entry, subject, event, argument)]
    {
      calls := calls + [Call(entry, subject, event, argument)];
      match entry.listener
      case LogAttached =>
        if argument == LOG {
          if log.count == 0 { log := log.(handler := true); }
          log := log.(count := log.count + 1);
        }
      case LogDetached =>
        if argument == LOG {
          if log.count == 1 { log := log.(handler := false); }
          log := log.(count := log.count - 1);
        }
      case Other(_) =>
    }

    /** Exactly the listeners of the event are called, in the order of their
        queue, which is that of their priorities if those are compatible.  The
        invariant is kept unless somebody else claims that a global log listener
        was attached or detached. */
    method TriggerEvent(subject: int, event: string, argument: string) returns (counter: int)
      requires Tidy(subjects)
      modifies this`log, this`calls
      ensures var queue := Queue(subjects, subject, event);
              && counter == (if queue == [] then -1 else |queue|)
              && calls == old(calls) + Calls(queue, subject, event, argument)
              && log == AllNotified(old(log), queue, argument)
      ensures old(Valid()) && !(subject == GLOBAL && event in {ATTACHED, DETACHED} && argument == LOG) ==> Valid()
      ensures Ranked(subjects, priorities) && Compatible(priorities) ==>
                forall i, j :: |old(calls)| <= i < j < |calls| ==> calls[i].entry.priority <= calls[j].entry.priority
    {
      if Valid() { TogetherTriggered(subjects, log, loaded, subject, event, argument); }
      hide Together, Ranked, Placed, Sorted, Tidy, Notified, AllNotified, Calls;
      SortedQueue(subjects, priorities, subject, event);
      if subject !in subjects { return -1; }
      if event !in subjects[subject] { return -1; }
      var list := subjects[subject][event];
      counter := 0;
      NothingCalled(log, list, subject, event, argument);
      while counter < |list|
        invariant 0 <= counter <= |list|
        invariant calls == old(calls) + Calls(list[..counter], subject, event, argument)
        invariant log == AllNotified(old(log), list[..counter], argument)
      {
        CallsNext(old(log), list, counter, subject, event, argument);
        Notify(list[counter], subject, event, argument);
        counter := counter + 1;
      }
      assert list[..counter] == list;
    }

    method GetEventListenerCount(subject: int, event: string) returns (count: nat)
      ensures count == |Queue(subjects, subject, event)|
    {
      if subject !in subjects { return 0; }
      if event !in subjects[subject] { return 0; }
      count := |subjects[subject][event]|;
    }

    /** Puts an entry into its queue and tells the listeners of the subject. */
    method Attach(subject: int, event: string, priority: Int, custom: int, listener: Listener)
      requires Tidy(subjects)
      modifies this`subjects, this`log, this`calls
      ensures Tidy(subjects) && subjects == Attached(old(subjects), subject, event, Entry(listener, priority, custom))
      ensures log == AllNotified(old(log), Queue(subjects, subject, ATTACHED), event)
      ensures calls == old(calls) + Calls(Queue(subjects, subject, ATTACHED), subject, ATTACHED, event)
    {
      hide AllNotified, Calls, Inserted;
      ghost var before := subjects;
      var entry := Entry(listener, priority, custom);
      AttachedQueues(before, subject, event, entry, subject, event);
      if subject !in subjects { subjects := subjects[subject := map[]]; }
      if event !in subjects[subject] { subjects := subjects[subject := subjects[subject][event := []]]; }
      subjects := subjects[subject := subjects[subject][event := Inserted(subjects[subject][event], entry)]];
      assert subjects[subject] == Attached(before, subject, event, entry)[subject];
      assert subjects == Attached(before, subject, event, entry);
      var _ := TriggerEvent(subject, ATTACHED, event);
    }

    /** Takes entry i out of its queue. */
    method Remove(subject: int, event: string, i: nat)
      requires i < |Queue(subjects, subject, event)|
      modifies this`subjects
      ensures subjects == RemovedAt(old(subjects), subject, event, i)
    {
      RemovedSteps(subjects, subject, event, i);
      hide RemovedAt;
      var events := subjects[subject];
      var queue := events[event][..i] + events[event][i + 1..];
      events := events[event := queue];
      subjects := subjects[subject := events];
      if |queue| == 0 {
        events := events - {event};
        subjects := subjects[subject := events];
        if |events| == 0 {
          subjects := subjects - {subject};
        }
      }
    }

    /** Removes the first matching entry and whatever is empty then, and tells
        the listeners of the subject if there was one. */
    method Detach(subject: int, event: string, custom: int, listener: Listener)
      requires Tidy(subjects)
      modifies this`subjects, this`log, this`calls
      ensures Tidy(subjects) && subjects == Detached(old(subjects), subject, event, listener, custom)
      ensures var queue := Queue(old(subjects), subject, event);
              if FirstMatch(queue, listener, custom) == |queue| then log == old(log) && calls == old(calls)
              else && log == AllNotified(old(log), Queue(subjects, subject, DETACHED), event)
                   && calls == old(calls) + Calls(Queue(subjects, subject, DETACHED), subject, DETACHED, event)
    {
      hide AllNotified, Calls, RemovedAt;
      DetachedQueues(subjects, subject, event, listener, custom, subject, event);
      if subject in subjects && event in subjects[subject] {
        var queue := subjects[subject][event];
        var i := 0;
        while i < |queue|
          invariant i <= FirstMatch(queue, listener, custom) && unchanged(this)
        {
          if queue[i].listener == listener && queue[i].custom == custom {
            Remove(subject, event, i);
            var _ := TriggerEvent(subject, DETACHED, event);
            return;
          }
          i := i + 1;
        }
      }
    }

    // ----- the interface for other modules

    method AttachEventListenerWithPriority(subject: int, event: string, priority: Int, custom: int, listener: Listener)
      requires Valid() && listener.Other?
      modifies this`subjects, this`log, this`calls, this`priorities
      ensures Valid() && subjects == Attached(old(subjects), subject, event, Entry(listener, priority, custom))
      ensures priorities == old(priorities) + {priority}
      ensures AllSorted(old(subjects)) ==>
                (AllSorted(subjects) <==> Comparable(Queue(old(subjects), subject, event), priority))
      ensures calls == old(calls) + Calls(Queue(subjects, subject, ATTACHED), subject, ATTACHED, event)
    {
      hide Together, Attached, Calls, AllNotified, Ranked, AllSorted, Sorted, Comparable;
      TidyTogether(subjects, log, loaded);
      TogetherAttached(subjects, log, loaded, subject, event, Entry(listener, priority, custom));
      RankedAttached(subjects, priorities, subject, event, Entry(listener, priority, custom));
      if AllSorted(subjects) { AttachedSorted(subjects, subject, event, Entry(listener, priority, custom)); }
      priorities := priorities + {priority};
      Attach(subject, event, priority, custom, listener);
    }

    method AttachEventListener(subject: int, event: string, custom: int, listener: Listener)
      requires Valid() && listener.Other?
      modifies this`subjects, this`log, this`calls, this`priorities
      ensures Valid() && subjects == Attached(old(subjects), subject, event, Entry(listener, NORMAL, custom))
      ensures priorities == old(priorities) + {NORMAL} && (AllSorted(old(subjects)) ==> AllSorted(subjects))
      ensures calls == old(calls) + Calls(Queue(subjects, subject, ATTACHED), subject, ATTACHED, event)
    {
      ghost var before := subjects;
      AttachEventListenerWithPriority(subject, event, NORMAL, custom, listener);
      if AllSorted(before) { NormalComparable(Queue(before, subject, event)); }
    }

    method DetachEventListener(subject: int, event: string, custom: int, listener: Listener)
      requires Valid() && listener.Other?
      modifies this`subjects, this`log, this`calls
      ensures Valid() && subjects == Detached(old(subjects), subject, event, listener, custom)
      ensures AllSorted(old(subjects)) ==> AllSorted(subjects)
      ensures var queue := Queue(old(subjects), subject, event);
              calls == old(calls) + if FirstMatch(queue, listener, custom) == |queue| then []
                                    else Calls(Queue(subjects, subject, DETACHED), subject, DETACHED, event)
    {
      hide Attached, Calls, AllNotified, Placed, Ranked, AllSorted;
      ghost var queue := Queue(subjects, subject, event);
      RankedDetached(subjects, priorities, subject, event, listener, custom);
      if AllSorted(subjects) { DetachedSorted(subjects, subject, event, listener, custom); }
      if FirstMatch(queue, listener, custom) < |queue| {
        TogetherDetached(subjects, log, loaded, subject, event, listener, custom);
      }
      Detach(subject, event, custom, listener);
    }

    // ----- loading and unloading log_event

    method InitLogEvent()
      requires Valid() && !loaded
      modifies this
      ensures Valid() && loaded
      ensures priorities == old(priorities) + {NORMAL}
      ensures subjects == Attached(Attached(old(subjects), GLOBAL, ATTACHED, Entry(LogAttached, NORMAL, 0)),
                                   GLOBAL, DETACHED, Entry(LogDetached, NORMAL, 0))
    {
      hide Attached, Calls, AllNotified, Placed, Occurrences, Ranked;
      var entry := Entry(LogAttached, NORMAL, 0);
      var other := Entry(LogDetached, NORMAL, 0);
      PlacedAttached(subjects, 0, 0, GLOBAL, ATTACHED, entry);
      RankedAttached(subjects, priorities, GLOBAL, ATTACHED, entry);
      priorities := priorities + {NORMAL};
      Attach(GLOBAL, ATTACHED, NORMAL, 0, LogAttached);
      NotifiedCount(old(log), Queue(subjects, GLOBAL, ATTACHED), ATTACHED);
      PlacedAttached(subjects, 1, 0, GLOBAL, DETACHED, other);
      RankedAttached(subjects, priorities, GLOBAL, DETACHED, other);
      assert priorities + {NORMAL} == priorities;
      Attach(GLOBAL, DETACHED, NORMAL, 0, LogDetached);
      NotifiedCount(old(log), Queue(subjects, GLOBAL, ATTACHED), DETACHED);
      var count := GetEventListenerCount(GLOBAL, LOG);
      log := log.(count := count);
      if count > 0 { log := log.(handler := true); }
      loaded := true;
    }

    method FinalizeLogEvent()
      requires Valid() && loaded
      modifies this
      ensures Valid() && !loaded
      ensures priorities == old(priorities)
      ensures subjects == Detached(Detached(old(subjects), GLOBAL, ATTACHED, LogAttached, 0), GLOBAL, DETACHED, LogDetached, 0)
    {
      hide Detached, Calls, AllNotified, Placed, Occurrences, FirstMatch, Ranked;
      PlacedDetachedOnce(subjects, 1, 1, ATTACHED, LogAttached);
      RankedDetached(subjects, priorities, GLOBAL, ATTACHED, LogAttached, 0);
      Detach(GLOBAL, ATTACHED, 0, LogAttached);
      NotifiedCount(old(log), Queue(subjects, GLOBAL, DETACHED), ATTACHED);
      PlacedDetachedOnce(subjects, 0, 1, DETACHED, LogDetached);
      RankedDetached(subjects, priorities, GLOBAL, DETACHED, LogDetached, 0);
      Detach(GLOBAL, DETACHED, 0, LogDetached);
      NotifiedCount(old(log), Queue(subjects, GLOBAL, DETACHED), DETACHED);
      if log.count > 0 { log := log.(handler := false); }
      loaded := false;
    }
  }

  /** The normal priority can be compared with every other. */
  lemma NormalComparable(queue: seq<Entry>)
    requires Sorted(queue)
    ensures Comparable(queue, NORMAL)
  {}

  lemma TidyTogether(subjects: Subjects, log: Log, loaded: bool)
    requires Together(subjects, log, loaded)
    ensures Tidy(subjects)
  {}
}
