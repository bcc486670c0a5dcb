/**
 The scheduler on values: each of the three queues is the sequence of its members from the head on.
 The heap structure that implements these steps is in module Sched; what the steps guarantee over
 whole runs is proved in SleepTiming and RoundRobin.
 */
module SchedulerModel {
  import opened Common

  const TICK_MS: nat := 10

  /** A blocked task with what it waits for: the milliseconds to go, or the event type. */
  datatype Entry<T> = Entry(task: T, key: nat)

  /** What a wake scan looks for: sleepers whose time is up at this tick, or waiters for an event. */
  datatype Rule = TimeUp | Raised(event: byte) {
    predicate Wakes<T>(x: Entry<T>) {
      match this
      case TimeUp => x.key <= TICK_MS
      case Raised(event) => x.key == event as nat
    }

    /** What becomes of an entry that is not woken: a sleeper has one tick less to go. */
    function Passed<T>(x: Entry<T>): Entry<T>
      requires !Wakes(x)
    {
      if TimeUp? then x.(key := x.key - TICK_MS) else x
    }
  }

  /** `flagged` holds the tasks whose task_switched_in_time_slice is set; no current task means that
      the kernel task runs. */
  datatype State<T(==)> = State(
    run: seq<T>,
    timed: seq<Entry<T>>,
    waiting: seq<Entry<T>>,
    current: Option<T>,
    flagged: set<T>,
    clock: word)

  datatype Event<T> =
    | Tick
    | Signal(event: byte)
    | SleepFor(msec: word)
    | WaitFor(event: byte)
    | Create(task: T, flag: bool)

  // ---- the queues ----

  function Tasks<T>(q: seq<Entry<T>>): (r: seq<T>)
    ensures |r| == |q|
  {
    seq(|q|, i requires 0 <= i < |q| => q[i].task)
  }

  /** Where the tasks are: how often each task occurs in the three queues together. */
  function Census<T>(s: State<T>): multiset<T> {
    multiset(s.run) + multiset(Tasks(s.timed)) + multiset(Tasks(s.waiting))
  }

  function Population<T>(s: State<T>): nat {
    |s.run| + |s.timed| + |s.waiting|
  }

  /** Every task is in exactly one queue, once, and the current task is runnable. */
  ghost predicate WellFormed<T>(s: State<T>) {
    && (forall t :: t in Census(s) ==> Census(s)[t] == 1)
    && (s.current.Some? ==> s.current.value in s.run)
    && (forall t :: t in s.flagged ==> t in Census(s))
  }

  // ---- the wake scans ----

  /** The tasks a full round wakes, in queue order. */
  function Selected<T>(rule: Rule, q: seq<Entry<T>>): seq<T>
    decreases |q|
  {
    if q == [] then []
    else
      var last := q[|q| - 1];
      Selected(rule, q[..|q| - 1]) + if rule.Wakes(last) then [last.task] else []
  }

  /** What a full round leaves in the queue. */
  function Kept<T>(rule: Rule, q: seq<Entry<T>>): seq<Entry<T>>
    decreases |q|
  {
    if q == [] then []
    else
      var last := q[|q| - 1];
      Kept(rule, q[..|q| - 1]) + if rule.Wakes(last) then [] else [rule.Passed(last)]
  }

  /** A head that is woken is the only task visited: the next head ends the round at once. */
  predicate HeadWakes<T>(rule: Rule, q: seq<Entry<T>>) {
    q != [] && rule.Wakes(q[0])
  }

  function Woken<T>(rule: Rule, q: seq<Entry<T>>): seq<T> {
    if HeadWakes(rule, q) then [q[0].task] else Selected(rule, q)
  }

  function Remaining<T>(rule: Rule, q: seq<Entry<T>>): seq<Entry<T>> {
    if HeadWakes(rule, q) then q[1..] else Kept(rule, q)
  }

  // ---- the steps ----

  /** The member after position i, round the ring. */
  function After(i: nat, n: nat): (k: nat)
    requires i < n
    ensures k < n
  {
    if i + 1 < n then i + 1 else 0
  }

  function Elapse<T>(s: State<T>): State<T> {
    s.(clock := (s.clock + TICK_MS) % WORD)
  }

  function WakeSleepers<T>(s: State<T>): State<T> {
    s.(run := s.run + Woken(TimeUp, s.timed), timed := Remaining(TimeUp, s.timed))
  }

  function WakeWaiters<T>(s: State<T>, event: byte): State<T> {
    s.(run := s.run + Woken(Raised(event), s.waiting), waiting := Remaining(Raised(event), s.waiting))
  }

  /** schedule() entered from the timer: a task that got the processor inside this slice keeps it. */
  function Rotate<T>(s: State<T>): (r: State<T>)
    requires s.current.Some? ==> s.current.value in s.run
    ensures r.run == s.run && r.timed == s.timed && r.waiting == s.waiting
  {
    match s.current
    case Some(c) =>
      if c in s.flagged then s.(flagged := s.flagged - {c})
      else s.(current := Some(s.run[After(IndexOf(s.run, c), |s.run|)]))
    case None =>
      if s.run == [] then s else s.(current := Some(s.run[0]))
  }

  /** The current task, at position i, leaves the run ring; its successor, if any, takes over inside the
      slice. */
  function LeaveFrom<T>(s: State<T>, i: nat): State<T>
    requires i < |s.run|
  {
    var rest := RemoveAt(s.run, i);
    if rest == [] then s.(run := [], current := None)
    else
      var next := rest[if i < |rest| then i else 0];
      s.(run := rest, current := Some(next), flagged := s.flagged + {next})
  }

  function Leave<T>(s: State<T>): State<T>
    requires s.current.Some? && s.current.value in s.run
  {
    LeaveFrom(s, IndexOf(s.run, s.current.value))
  }

  predicate Enabled<T>(s: State<T>, e: Event<T>) {
    match e
    case Tick => true
    case Signal(_) => true
    case SleepFor(_) => s.current.Some?
    case WaitFor(_) => s.current.Some?
    case Create(t, _) => t !in Census(s)
  }

  function Step<T>(s: State<T>, e: Event<T>): State<T>
    requires s.current.Some? ==> s.current.value in s.run
    requires Enabled(s, e)
  {
    match e
    case Tick => Rotate(WakeSleepers(Elapse(s)))
    case Signal(event) => WakeWaiters(s, event)
    case SleepFor(msec) =>
      var r := Leave(s);
      r.(timed := r.timed + [Entry(s.current.value, msec)])
    case WaitFor(event) =>
      var r := Leave(s);
      r.(waiting := r.waiting + [Entry(s.current.value, event as nat)])
    case Create(t, flag) =>
      s.(run := s.run + [t], flagged := if flag then s.flagged + {t} else s.flagged)
  }

  // ---- runs ----

  /** `states` is a run driven by `events`: one state before each event and one at the end. */
  ghost predicate IsRun<T>(states: seq<State<T>>, events: seq<Event<T>>) {
    && |states| == |events| + 1
    && WellFormed(states[0])
    && forall i :: 0 <= i < |events| ==> Follows(states[i], events[i], states[i + 1])
  }

  ghost predicate Follows<T>(s: State<T>, e: Event<T>, s': State<T>) {
    && (s.current.Some? ==> s.current.value in s.run)
    && Enabled(s, e)
    && s' == Step(s, e)
  }

  function Ticks<T>(events: seq<Event<T>>): nat {
    if events == [] then 0 else (if events[0].Tick? then 1 else 0) + Ticks(events[1..])
  }

  /** How often the running task gives up the processor. */
  function Blocks<T>(events: seq<Event<T>>): nat {
    if events == [] then 0
    else (if events[0].SleepFor? || events[0].WaitFor? then 1 else 0) + Blocks(events[1..])
  }

  function Born<T>(e: Event<T>): seq<T> {
    if e.Create? then [e.task] else []
  }

  function Created<T>(events: seq<Event<T>>): seq<T> {
    if events == [] then []
    else Born(events[0]) + Created(events[1..])
  }

  // ---- what every step keeps ----

  lemma AppendEntry<T>(q: seq<Entry<T>>, x: Entry<T>)
    ensures multiset(Tasks(q + [x])) == multiset(Tasks(q)) + multiset{x.task}
  {
    assert Tasks(q + [x]) == Tasks(q) + [x.task];
  }

  lemma {:induction false} SelectedOrKept<T>(rule: Rule, q: seq<Entry<T>>)
    ensures multiset(Selected(rule, q)) + multiset(Tasks(Kept(rule, q))) == multiset(Tasks(q))
  {
    if q != [] {
      var init, last := q[..|q| - 1], q[|q| - 1];
      SelectedOrKept(rule, init);
      assert q == init + [last];
      AppendEntry(init, last);
      SelectedOrKeptLast(rule, init, last);
    }
  }

  lemma SelectedOrKeptLast<T>(rule: Rule, init: seq<Entry<T>>, last: Entry<T>)
    ensures multiset(Selected(rule, init + [last])) + multiset(Tasks(Kept(rule, init + [last]))) ==
      multiset(Selected(rule, init)) + multiset(Tasks(Kept(rule, init))) + multiset{last.task}
  {
    var q := init + [last];
    assert q[..|q| - 1] == init && q[|q| - 1] == last;
    if rule.Wakes(last) {
      assert Selected(rule, q) == Selected(rule, init) + [last.task];
      assert Kept(rule, q) == Kept(rule, init);
    } else {
      assert Selected(rule, q) == Selected(rule, init);
      AppendEntry(Kept(rule, init), rule.Passed(last));
    }
  }

  /** An entry that is not woken keeps its place in the queue, counting from the entries kept before it. */
  lemma {:induction false} KeptAt<T>(rule: Rule, q: seq<Entry<T>>, p: nat) returns (p': nat)
    requires p < |q| && !rule.Wakes(q[p])
    ensures p' <= p && p' < |Kept(rule, q)| && Kept(rule, q)[p'] == rule.Passed(q[p])
  {
    var init := q[..|q| - 1];
    if p == |q| - 1 {
      p' := |Kept(rule, init)|;
      KeptLength(rule, init);
    } else {
      p' := KeptAt(rule, init, p);
    }
  }

  lemma KeptLength<T>(rule: Rule, q: seq<Entry<T>>)
    ensures |Kept(rule, q)| <= |q|
  {
  }

  lemma {:induction false} SelectedAt<T>(rule: Rule, q: seq<Entry<T>>, p: nat)
    requires p < |q| && rule.Wakes(q[p])
    ensures q[p].task in Selected(rule, q)
  {
    if p < |q| - 1 {
      SelectedAt(rule, q[..|q| - 1], p);
    }
  }

  /** A scan moves tasks, it neither loses nor duplicates one. */
  lemma WokenOrRemaining<T>(rule: Rule, q: seq<Entry<T>>)
    ensures multiset(Woken(rule, q)) + multiset(Tasks(Remaining(rule, q))) == multiset(Tasks(q))
  {
    if HeadWakes(rule, q) {
      assert Tasks(q) == [q[0].task] + Tasks(q[1..]);
    } else {
      SelectedOrKept(rule, q);
    }
  }

  lemma LeaveKeeps<T>(s: State<T>)
    requires WellFormed(s) && s.current.Some?
    ensures var r := Leave(s);
      && Census(r) + multiset{s.current.value} == Census(s)
      && r.timed == s.timed && r.waiting == s.waiting
      && (r.current.Some? <==> r.run != []) && (r.current.Some? ==> r.current.value in r.run)
      && (r.flagged == if r.current.Some? then s.flagged + {r.current.value} else s.flagged)
  {
    MultisetAt(s.run, IndexOf(s.run, s.current.value));
  }

  lemma BlockPopulation<T>(s: State<T>, e: Event<T>)
    requires WellFormed(s) && Enabled(s, e) && (e.SleepFor? || e.WaitFor?)
    ensures Census(Step(s, e)) == Census(s)
  {
    LeaveKeeps(s);
    if e.SleepFor? {
      AppendEntry(s.timed, Entry(s.current.value, e.msec));
    } else {
      AppendEntry(s.waiting, Entry(s.current.value, e.event as nat));
    }
  }

  lemma WakePopulation<T>(s: State<T>, event: byte)
    ensures Census(WakeSleepers(s)) == Census(s)
    ensures Census(WakeWaiters(s, event)) == Census(s)
  {
    WokenOrRemaining(TimeUp, s.timed);
    WokenOrRemaining(Raised(event), s.waiting);
  }

  lemma RunDistinct<T>(s: State<T>)
    requires WellFormed(s)
    ensures Distinct(s.run)
  {
    forall i | 0 <= i < |s.run| ensures multiset(s.run)[s.run[i]] == 1 {
      assert s.run[i] in multiset(s.run);
      assert Census(s)[s.run[i]] == 1;
    }
    DistinctIffSingle(s.run);
  }

  /** No task is in two places, whichever queues they are in. */
  lemma WellFormedMeans<T>(s: State<T>)
    requires WellFormed(s)
    ensures forall i, j :: 0 <= i < j < |s.run| ==> s.run[i] != s.run[j]
    ensures forall i, j :: 0 <= i < j < |s.timed| ==> s.timed[i].task != s.timed[j].task
    ensures forall i, j :: 0 <= i < j < |s.waiting| ==> s.waiting[i].task != s.waiting[j].task
    ensures forall i, j :: 0 <= i < |s.run| && 0 <= j < |s.timed| ==> s.run[i] != s.timed[j].task
    ensures forall i, j :: 0 <= i < |s.run| && 0 <= j < |s.waiting| ==> s.run[i] != s.waiting[j].task
    ensures forall i, j :: 0 <= i < |s.timed| && 0 <= j < |s.waiting| ==> s.timed[i].task != s.waiting[j].task
    ensures s.current.Some? ==> s.current.value in s.run
  {
    var r, m, w := s.run, Tasks(s.timed), Tasks(s.waiting);
    Once(r, multiset(m) + multiset(w), Census(s));
    Once(m, multiset(r) + multiset(w), Census(s));
    Once(w, multiset(r) + multiset(m), Census(s));
    forall i, j | 0 <= i < |r| && 0 <= j < |m| ensures r[i] != s.timed[j].task {
      assert r[i] in r && m[j] in multiset(m);
    }
    forall i, j | 0 <= i < |r| && 0 <= j < |w| ensures r[i] != s.waiting[j].task {
      assert r[i] in r && w[j] in multiset(w);
    }
    forall i, j | 0 <= i < |m| && 0 <= j < |w| ensures s.timed[i].task != s.waiting[j].task {
      assert m[i] in m && w[j] in multiset(w);
    }
    forall i, j | 0 <= i < j < |m| ensures s.timed[i].task != s.timed[j].task {
      assert m[i] != m[j];
    }
    forall i, j | 0 <= i < j < |w| ensures s.waiting[i].task != s.waiting[j].task {
      assert w[i] != w[j];
    }
  }

  /** A sequence among all tasks, of which each occurs once. */
  lemma Once<T>(s: seq<T>, others: multiset<T>, all: multiset<T>)
    requires all == multiset(s) + others && forall t :: t in all ==> all[t] == 1
    ensures Distinct(s) && forall t :: t in s ==> t !in others
  {
    forall t | t in s ensures multiset(s)[t] == 1 && t !in others {
      assert t in multiset(s) && all[t] == 1;
    }
    assert forall i :: 0 <= i < |s| ==> s[i] in s;
    DistinctIffSingle(s);
  }

  /** What a blocking call leaves behind when the current task is at position i. */
  function Suspended<T>(s: State<T>, e: Event<T>, i: nat): State<T>
    requires i < |s.run| && (e.SleepFor? || e.WaitFor?)
  {
    var x, r := s.run[i], LeaveFrom(s, i);
    if e.SleepFor? then r.(timed := s.timed + [Entry(x, e.msec)])
    else r.(waiting := s.waiting + [Entry(x, e.event as nat)])
  }

  /** The same, part by part. */
  lemma SuspendedParts<T>(s: State<T>, e: Event<T>, i: nat, s': State<T>)
    requires i < |s.run| && (e.SleepFor? || e.WaitFor?)
    requires var rest := RemoveAt(s.run, i);
      && s'.run == rest && s'.current == (if rest == [] then None else Some(rest[if i < |rest| then i else 0]))
      && s'.flagged == s.flagged + if s'.current.None? then {} else {s'.current.value}
    requires s'.timed == s.timed + if e.SleepFor? then [Entry(s.run[i], e.msec)] else []
    requires s'.waiting == s.waiting + if e.WaitFor? then [Entry(s.run[i], e.event as nat)] else []
    requires s'.clock == s.clock
    ensures s' == Suspended(s, e, i)
  {
  }

  lemma SuspendStep<T>(s: State<T>, e: Event<T>, i: nat)
    requires WellFormed(s) && (e.SleepFor? || e.WaitFor?) && i < |s.run| && s.current == Some(s.run[i])
    ensures Follows(s, e, Suspended(s, e, i))
  {
    RunDistinct(s);
    IndexUnique(s.run, s.run[i], i);
  }

  /** A blocking call moves the caller to the end of its queue; all others stay where they are. */
  lemma BlockShape<T>(s: State<T>, e: Event<T>, s': State<T>)
    requires WellFormed(s) && (e.SleepFor? || e.WaitFor?) && Follows(s, e, s')
    ensures s'.timed == s.timed + if e.SleepFor? then [Entry(s.current.value, e.msec)] else []
    ensures s'.waiting == s.waiting + if e.WaitFor? then [Entry(s.current.value, e.event as nat)] else []
    ensures forall t :: t in s.run && t != s.current.value ==> t in s'.run
  {
    RunDistinct(s);
    RemovedOne(s.run, IndexOf(s.run, s.current.value));
  }

  /** One step keeps the population, except that Create adds its task. */
  lemma StepPopulation<T>(s: State<T>, e: Event<T>)
    requires WellFormed(s) && Enabled(s, e)
    ensures Census(Step(s, e)) == Census(s) + multiset(Born(e))
  {
    if e.SleepFor? || e.WaitFor? {
      BlockPopulation(s, e);
    } else if !e.Create? {
      WakePopulation(Elapse(s), 0);
      WakePopulation(s, if e.Signal? then e.event else 0);
    }
  }

  lemma StepWellFormed<T>(s: State<T>, e: Event<T>)
    requires WellFormed(s) && Enabled(s, e)
    ensures WellFormed(Step(s, e))
  {
    StepPopulation(s, e);
    StepCurrent(s, e);
  }

  lemma StepCurrent<T>(s: State<T>, e: Event<T>)
    requires WellFormed(s) && Enabled(s, e)
    ensures var r := Step(s, e);
      && (r.current.Some? ==> r.current.value in r.run)
      && (forall t :: t in r.flagged ==> t in s.flagged || t in r.run)
  {
    if e.SleepFor? || e.WaitFor? {
      LeaveKeeps(s);
    }
  }

  lemma {:induction false} RunWellFormed<T>(states: seq<State<T>>, events: seq<Event<T>>, n: nat)
    requires IsRun(states, events) && n <= |events|
    ensures WellFormed(states[n])
  {
    if n > 0 {
      RunWellFormed(states, events, n - 1);
      assert Follows(states[n - 1], events[n - 1], states[n]);
      StepWellFormed(states[n - 1], events[n - 1]);
    }
  }

  lemma RunTail<T>(states: seq<State<T>>, events: seq<Event<T>>)
    requires IsRun(states, events) && events != []
    ensures IsRun(states[1..], events[1..])
  {
    assert Follows(states[0], events[0], states[1]);
    StepWellFormed(states[0], events[0]);
    forall i | 0 <= i < |events[1..]| ensures Follows(states[1..][i], events[1..][i], states[1..][i + 1]) {
      assert Follows(states[i + 1], events[i + 1], states[i + 2]);
    }
  }

  lemma PrependCounts<T>(e: Event<T>, events: seq<Event<T>>)
    ensures Ticks([e] + events) == (if e.Tick? then 1 else 0) + Ticks(events)
    ensures Blocks([e] + events) == (if e.SleepFor? || e.WaitFor? then 1 else 0) + Blocks(events)
    ensures Created([e] + events) == Born(e) + Created(events)
  {
    assert ([e] + events)[1..] == events;
  }

  lemma Prepend<T>(s: State<T>, e: Event<T>, states: seq<State<T>>, events: seq<Event<T>>)
    requires IsRun(states, events) && WellFormed(s) && Follows(s, e, states[0])
    ensures IsRun([s] + states, [e] + events)
  {
    var ss, es := [s] + states, [e] + events;
    forall i | 0 <= i < |es| ensures Follows(ss[i], es[i], ss[i + 1]) {
      assert ss[i + 1] == states[i];
      if i > 0 {
        assert ss[i] == states[i - 1] && es[i] == events[i - 1];
        assert Follows(states[i - 1], events[i - 1], states[i]);
      }
    }
  }

  /** A clock n ticks later, in 32-bit arithmetic. */
  function ClockAfter(clock: int, n: nat): word {
    (clock + TICK_MS * n) % WORD
  }

  /** The clock is the start value plus one tick length per tick. */
  lemma {:induction false} RunClock<T>(states: seq<State<T>>, events: seq<Event<T>>)
    requires IsRun(states, events)
    ensures states[|events|].clock == ClockAfter(states[0].clock, Ticks(events))
  {
    if events == [] {
      ClockStands(states[0].clock);
    } else {
      RunTail(states, events);
      assert Follows(states[0], events[0], states[1]);
      RunClock(states[1..], events[1..]);
      StepClock(states[0], events[0], states[1]);
      if events[0].Tick? {
        ClockSum(states[0].clock, Ticks(events[1..]));
      }
    }
  }

  lemma ClockStands(clock: word)
    ensures ClockAfter(clock, 0) == clock
  {
  }

  lemma StepClock<T>(s: State<T>, e: Event<T>, s': State<T>)
    requires Follows(s, e, s')
    ensures s'.clock == if e.Tick? then ClockAfter(s.clock, 1) else s.clock
  {
  }

  lemma ClockSum(clock: int, n: nat)
    ensures ClockAfter(ClockAfter(clock, 1), n) == ClockAfter(clock, n + 1)
  {
  }

  /** Ticks, counted as a multiset counts. */
  lemma {:induction false} TicksCounted<T>(events: seq<Event<T>>)
    ensures Ticks(events) == multiset(events)[Event<T>.Tick]
  {
    if events != [] {
      TicksCounted(events[1..]);
      assert events == [events[0]] + events[1..];
    }
  }

  /** The same in plain numbers: ten milliseconds a tick, in 32 bits. */
  lemma RunTime<T>(states: seq<State<T>>, events: seq<Event<T>>)
    requires IsRun(states, events)
    ensures states[|events|].clock == (states[0].clock + 10 * multiset(events)[Event<T>.Tick]) % 0x1_0000_0000
  {
    RunClock(states, events);
    TicksCounted(events);
  }

  /** Conservation: over any run the queues together hold the tasks there were at the start and those
      created since, each of them once. */
  lemma {:induction false} RunConservation<T>(states: seq<State<T>>, events: seq<Event<T>>)
    requires IsRun(states, events)
    ensures Census(states[|events|]) == Census(states[0]) + multiset(Created(events))
    ensures WellFormed(states[|events|])
  {
    if events != [] {
      RunTail(states, events);
      RunConservation(states[1..], events[1..]);
      assert Follows(states[0], events[0], states[1]);
      StepPopulation(states[0], events[0]);
    }
  }

  /** After a tick the kernel task runs only if nothing is runnable. */
  lemma IdleOnlyWhenEmpty<T>(s: State<T>)
    requires WellFormed(s)
    ensures var s' := Step(s, Tick); s'.current.None? <==> s'.run == []
  {
    StepWellFormed(s, Tick);
  }

  // ---- the steps in plain terms ----

  /** What a tick does before it schedules: it counts ten milliseconds and appends the woken to the run ring. */
  lemma TickWakes<T>(s: State<T>)
    requires WellFormed(s)
    ensures var s' := Step(s, Tick);
      s.run <= s'.run && s'.waiting == s.waiting && s'.clock == (s.clock + 10) % 0x1_0000_0000
  {
    TickAwake(s);
  }

  lemma TickTime<T>(s: State<T>, s': State<T>)
    requires Follows(s, Tick, s')
    ensures s'.clock == s.clock + if s.clock < 0xffff_fff6 then 10 else 10 - 0x1_0000_0000
  {
  }

  lemma TickAwake<T>(s: State<T>)
    requires WellFormed(s)
    ensures var a := WakeSleepers(Elapse(s));
      && Step(s, Tick) == Rotate(a) && s.run <= a.run && a.waiting == s.waiting
      && a.current == s.current && a.flagged == s.flagged && a.clock == (s.clock + 10) % 0x1_0000_0000
  {
  }

  lemma AwakeWellFormed<T>(s: State<T>)
    requires WellFormed(s)
    ensures WellFormed(WakeSleepers(Elapse(s)))
  {
    var e := Elapse(s);
    assert Census(e) == Census(s);
    WakePopulation(e, 0);
    assert e.run <= WakeSleepers(e).run;
  }

  /** Who runs after a tick: a task that got the processor inside this slice keeps it and loses its flag, any other
      gives it to the next one round the ring, into which the woken have been appended. */
  lemma TickMeans<T>(s: State<T>, i: nat)
    requires WellFormed(s)
    requires s.current.Some? ==> i < |s.run| && s.run[i] == s.current.value
    ensures var s' := Step(s, Tick);
      && (s.current.None? ==>
           s'.current == (if s'.run == [] then None else Some(s'.run[0])) && s'.flagged == s.flagged)
      && (s.current.Some? && s.run[i] in s.flagged ==>
           s'.current == s.current && s'.flagged == s.flagged - {s.run[i]})
      && (s.current.Some? && s.run[i] !in s.flagged ==>
           && i < |s'.run| && s'.flagged == s.flagged
           && s'.current == Some(if i + 1 < |s'.run| then s'.run[i + 1] else s'.run[0]))
  {
    TickAwake(s);
    AwakeWellFormed(s);
    var a := WakeSleepers(Elapse(s));
    if s.current.Some? {
      assert a.run[i] == s.run[i];
    }
    RotateMeans(a, i);
  }

  lemma RotateMeans<T>(s: State<T>, i: nat)
    requires WellFormed(s)
    requires s.current.Some? ==> i < |s.run| && s.run[i] == s.current.value
    ensures var s' := Rotate(s);
      && s'.run == s.run
      && (s.current.None? ==>
           s'.current == (if s.run == [] then None else Some(s.run[0])) && s'.flagged == s.flagged)
      && (s.current.Some? && s.run[i] in s.flagged ==>
           s'.current == s.current && s'.flagged == s.flagged - {s.run[i]})
      && (s.current.Some? && s.run[i] !in s.flagged ==>
           s'.current == Some(if i + 1 < |s.run| then s.run[i + 1] else s.run[0]) && s'.flagged == s.flagged)
  {
    RunDistinct(s);
    if s.current.Some? {
      IndexUnique(s.run, s.run[i], i);
    }
  }

  /** Who runs after a blocking call: the next task round the ring, with its slice flag set, or nobody. */
  lemma BlockMeans<T>(s: State<T>, e: Event<T>, i: nat)
    requires WellFormed(s) && (e.SleepFor? || e.WaitFor?) && i < |s.run| && s.current == Some(s.run[i])
    ensures var s', next := Step(s, e), if i + 1 < |s.run| then s.run[i + 1] else s.run[0];
      && s'.run == s.run[..i] + s.run[i + 1..] && s'.clock == s.clock
      && s'.current == (if |s.run| == 1 then None else Some(next))
      && s'.flagged == s.flagged + if |s.run| == 1 then {} else {next}
  {
    RunDistinct(s);
    IndexUnique(s.run, s.run[i], i);
  }

  /** A signal and a new task leave the processor where it is; a new task comes to the end of the ring. */
  lemma OthersMean<T>(s: State<T>, e: Event<T>)
    requires WellFormed(s) && Enabled(s, e) && (e.Signal? || e.Create?)
    ensures var s' := Step(s, e);
      && s.run <= s'.run && s'.current == s.current && s'.timed == s.timed && s'.clock == s.clock
      && (e.Signal? ==> s'.flagged == s.flagged)
      && (e.Create? ==>
           && s'.run == s.run + [e.task] && s'.waiting == s.waiting
           && s'.flagged == s.flagged + if e.flag then {e.task} else {})
  {
  }

  /** Sleepers that are due at the same tick, and waiters for the same event, become runnable in queue order. */
  lemma {:induction false} WokenInOrder<T>(rule: Rule, q: seq<Entry<T>>, i: nat, j: nat) returns (a: nat, b: nat)
    requires i < j < |q| && rule.Wakes(q[i]) && rule.Wakes(q[j])
    ensures a < b < |Selected(rule, q)| && Selected(rule, q)[a] == q[i].task && Selected(rule, q)[b] == q[j].task
  {
    var init := q[..|q| - 1];
    if j == |q| - 1 {
      SelectedAt(rule, init, i);
      a :| 0 <= a < |Selected(rule, init)| && Selected(rule, init)[a] == init[i].task;
      b := |Selected(rule, init)|;
    } else {
      a, b := WokenInOrder(rule, init, i, j);
    }
  }

  lemma DueInOrder<T>(s: State<T>, i: nat, j: nat) returns (a: nat, b: nat)
    requires WellFormed(s) && i < j < |s.timed| && s.timed[0].key > 10 && s.timed[i].key <= 10 && s.timed[j].key <= 10
    ensures var r := Step(s, Tick).run; |s.run| <= a < b < |r| && r[a] == s.timed[i].task && r[b] == s.timed[j].task
  {
    a, b := WokenInOrder(TimeUp, s.timed, i, j);
    a, b := |s.run| + a, |s.run| + b;
  }

  lemma SignalledInOrder<T>(s: State<T>, event: byte, i: nat, j: nat) returns (a: nat, b: nat)
    requires WellFormed(s) && i < j < |s.waiting| && s.waiting[0].key != event as nat
    requires s.waiting[i].key == event as nat && s.waiting[j].key == event as nat
    ensures var r := Step(s, Signal(event)).run;
      |s.run| <= a < b < |r| && r[a] == s.waiting[i].task && r[b] == s.waiting[j].task
  {
    a, b := WokenInOrder(Raised(event), s.waiting, i, j);
    a, b := |s.run| + a, |s.run| + b;
  }
}
