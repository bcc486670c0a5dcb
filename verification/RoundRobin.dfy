/** How soon a runnable task gets the processor, over every run of the scheduler. */
module RoundRobin {
  import opened Common
  import opened SchedulerModel

  /** Positions still to pass before x is current. Wakeups land between the end of the ring and its head,
      so a current task beyond x is charged for everybody who may still be inserted there: n is the number
      of tasks in all queues. */
  function Distance<T(==)>(run: seq<T>, current: Option<T>, n: nat, x: T): int
    requires x in run && (current.Some? ==> current.value in run)
  {
    var j := IndexOf(run, x);
    if current.None? then j + 1
    else
      var i := IndexOf(run, current.value);
      if i <= j then j - i else n - i + j
  }

  /** A stale slice flag costs a tick of its own. */
  function Turns<T>(s: State<T>, x: T): int
    requires x in s.run && (s.current.Some? ==> s.current.value in s.run)
  {
    2 * Distance(s.run, s.current, Population(s), x)
      + if s.current.Some? && s.current.value in s.flagged then 1 else 0
  }

  lemma TurnsBounds<T>(s: State<T>, x: T)
    requires WellFormed(s) && x in s.run
    ensures 0 <= Turns(s, x) <= 2 * Population(s)
    ensures s.current != Some(x) ==> Turns(s, x) >= 2
  {
    RunDistinct(s);
  }

  lemma IndexInPrefix<T>(r: seq<T>, tail: seq<T>, x: T)
    requires x in r
    ensures x in r + tail && IndexOf(r + tail, x) == IndexOf(r, x)
  {
    var i := IndexOf(r, x);
    assert (r + tail)[i] == x;
    assert forall k :: 0 <= k < i ==> (r + tail)[k] == r[k];
  }

  lemma PopulationKept<T>(s: State<T>, e: Event<T>)
    requires WellFormed(s) && Enabled(s, e)
    ensures Population(Step(s, e)) == Population(s) + |Born(e)|
  {
    StepPopulation(s, e);
    assert |Census(s)| == Population(s);
    assert |Census(Step(s, e))| == Population(Step(s, e));
  }

  /** Who is appended to the ring does not matter, a larger population costs what it grew by. */
  lemma DistanceAppend<T>(run: seq<T>, tail: seq<T>, current: Option<T>, n: nat, born: nat, x: T)
    requires x in run && (current.Some? ==> current.value in run)
    ensures x in run + tail && (current.Some? ==> current.value in run + tail)
    ensures Distance(run + tail, current, n + born, x) <= Distance(run, current, n, x) + born
  {
    IndexInPrefix(run, tail, x);
    if current.Some? {
      IndexInPrefix(run, tail, current.value);
    }
  }

  /** schedule() from the timer uses up at least one turn. */
  lemma RotateTurns<T>(s: State<T>, x: T)
    requires Distinct(s.run) && x in s.run && s.current != Some(x) && (s.current.Some? ==> s.current.value in s.run)
    requires |s.run| <= Population(s)
    ensures var s' := Rotate(s); x in s'.run && (s'.current.Some? ==> s'.current.value in s'.run)
    ensures Turns(Rotate(s), x) < Turns(s, x)
  {
    var s' := Rotate(s);
    if s.current.Some? && s.current.value !in s.flagged {
      var i := IndexOf(s.run, s.current.value);
      IndexUnique(s.run, s'.current.value, After(i, |s.run|));
    } else if s.current.None? {
      IndexUnique(s.run, s.run[0], 0);
    }
  }

  lemma WakeSleepersKeeps<T>(s: State<T>)
    requires WellFormed(s)
    ensures WellFormed(WakeSleepers(s)) && Population(WakeSleepers(s)) == Population(s)
  {
    WakePopulation(s, 0);
    assert |Census(s)| == Population(s) && |Census(WakeSleepers(s))| == Population(WakeSleepers(s));
  }

  lemma WakeTurns<T>(s: State<T>, x: T)
    requires WellFormed(s) && x in s.run
    ensures var s' := WakeSleepers(s);
      && WellFormed(s') && x in s'.run && s'.current == s.current && Turns(s', x) <= Turns(s, x)
  {
    WakeSleepersKeeps(s);
    DistanceAppend(s.run, Woken(TimeUp, s.timed), s.current, Population(s), 0, x);
  }

  lemma ElapseTurns<T>(s: State<T>, x: T)
    requires WellFormed(s) && x in s.run
    ensures WellFormed(Elapse(s)) && Turns(Elapse(s), x) == Turns(s, x)
  {
    assert Census(Elapse(s)) == Census(s);
  }

  lemma RotatedTurns<T>(s: State<T>, awake: State<T>, x: T)
    requires WellFormed(awake) && x in awake.run && awake.current != Some(x)
    requires x in s.run && (s.current.Some? ==> s.current.value in s.run) && Turns(awake, x) <= Turns(s, x)
    ensures var s' := Rotate(awake); x in s'.run && (s'.current.Some? ==> s'.current.value in s'.run)
    ensures Turns(Rotate(awake), x) < Turns(s, x)
  {
    RunDistinct(awake);
    RotateTurns(awake, x);
  }

  lemma TickTurns<T>(s: State<T>, x: T)
    requires WellFormed(s) && x in s.run && s.current != Some(x)
    ensures var s' := Step(s, Tick); x in s'.run && (s'.current.Some? ==> s'.current.value in s'.run)
    ensures Turns(Step(s, Tick), x) < Turns(s, x)
  {
    ElapseTurns(s, x);
    WakeTurns(Elapse(s), x);
    RotatedTurns(s, WakeSleepers(Elapse(s)), x);
  }

  lemma IndexAfterRemoval<T>(r: seq<T>, i: nat, x: T)
    requires Distinct(r) && i < |r| && x in r && x != r[i]
    ensures Distinct(RemoveAt(r, i)) && x in RemoveAt(r, i)
    ensures var j := IndexOf(r, x); IndexOf(RemoveAt(r, i), x) == if j < i then j else j - 1
  {
    var j := IndexOf(r, x);
    RemoveAtDistinct(r, i, j);
    IndexUnique(RemoveAt(r, i), x, if j < i then j else j - 1);
  }

  /** Giving up the processor does not move the others further away. */
  lemma LeaveDistance<T>(s: State<T>, x: T)
    requires WellFormed(s) && x in s.run && s.current.Some? && s.current != Some(x)
    ensures var r := Leave(s); x in r.run && r.current.Some? && r.current.value in r.run
    ensures var r := Leave(s);
      Distance(r.run, r.current, Population(s), x) <= Distance(s.run, s.current, Population(s), x)
  {
    RunDistinct(s);
    var i := IndexOf(s.run, s.current.value);
    var r := Leave(s);
    IndexAfterRemoval(s.run, i, x);
    IndexUnique(r.run, r.current.value, if i < |r.run| then i else 0);
  }

  function TurnsSpent<T>(e: Event<T>): int {
    match e
    case Tick => 1
    case Signal(_) => 0
    case SleepFor(_) => -1
    case WaitFor(_) => -1
    case Create(_, _) => -2
  }

  /** Every tick brings a runnable task at least one turn nearer to the processor; a blocking call by the
      running task costs it at most one turn (its successor's slice flag), a new task at most two. */
  lemma StepTurns<T>(s: State<T>, e: Event<T>, x: T)
    requires WellFormed(s) && Enabled(s, e) && x in s.run && s.current != Some(x)
    ensures var s' := Step(s, e); x in s'.run && (s'.current.Some? ==> s'.current.value in s'.run)
    ensures Turns(Step(s, e), x) + TurnsSpent(e) <= Turns(s, x)
  {
    PopulationKept(s, e);
    match e {
      case Tick => TickTurns(s, x);
      case Signal(event) => DistanceAppend(s.run, Woken(Raised(event), s.waiting), s.current, Population(s), 0, x);
      case Create(t, _) => DistanceAppend(s.run, [t], s.current, Population(s), 1, x);
      case SleepFor(_) => LeaveDistance(s, x);
      case WaitFor(_) => LeaveDistance(s, x);
    }
  }

  lemma {:induction false} TurnsBeforeCurrent<T>(states: seq<State<T>>, events: seq<Event<T>>, x: T)
    returns (reached: bool, n: nat)
    requires IsRun(states, events) && x in states[0].run
    ensures n <= |events|
    ensures reached ==> states[n].current == Some(x)
    ensures reached ==> Ticks(events[..n]) <= Turns(states[0], x) + Blocks(events[..n]) + 2 * |Created(events[..n])|
    ensures !reached ==> Ticks(events) < Turns(states[0], x) + Blocks(events) + 2 * |Created(events)|
    decreases |events|
  {
    TurnsBounds(states[0], x);
    if states[0].current == Some(x) {
      return true, 0;
    }
    if events == [] {
      return false, 0;
    }
    assert Follows(states[0], events[0], states[1]);
    StepTurns(states[0], events[0], x);
    RunTail(states, events);
    reached, n := TurnsBeforeCurrent(states[1..], events[1..], x);
    if reached {
      n := n + 1;
      assert events[..n][1..] == events[1..][..n - 1];
    }
  }

  /**
   Round-robin bound over every run: a runnable task becomes current before the ticks outnumber twice
   the tasks there were, plus one for each time a running task gave up the processor in the meantime and
   two for each task created. With neither, the bound is twice the number of tasks.
   */
  lemma RoundRobinBound<T>(states: seq<State<T>>, events: seq<Event<T>>, x: T)
    requires IsRun(states, events) && x in states[0].run
    requires Ticks(events) >= 2 * Population(states[0]) + Blocks(events) + 2 * |Created(events)|
    ensures exists n ::
      && 0 <= n <= |events| && states[n].current == Some(x)
      && Ticks(events[..n]) <= 2 * Population(states[0]) + Blocks(events[..n]) + 2 * |Created(events[..n])|
  {
    TurnsBounds(states[0], x);
    var reached, n := TurnsBeforeCurrent(states, events, x);
  }

  // ---- in plain numbers ----

  lemma {:induction false} BlocksCounted<T>(events: seq<Event<T>>, flags: seq<bool>)
    requires |flags| == |events|
    requires forall i :: 0 <= i < |events| ==> flags[i] == (events[i].SleepFor? || events[i].WaitFor?)
    ensures Blocks(events) == multiset(flags)[true]
  {
    if events != [] {
      BlocksCounted(events[1..], flags[1..]);
      CountAll(flags, true);
    }
  }

  lemma {:induction false} CreatedCounted<T>(events: seq<Event<T>>, flags: seq<bool>)
    requires |flags| == |events| && forall i :: 0 <= i < |events| ==> flags[i] == events[i].Create?
    ensures |Created(events)| == multiset(flags)[true]
  {
    if events != [] {
      CreatedCounted(events[1..], flags[1..]);
      CountAll(flags, true);
    }
  }

  /** In any run with enough ticks every runnable task becomes current: two for each task in the three queues, one
      for each blocking call and two for each new task. */
  lemma Fairness<T>(states: seq<State<T>>, events: seq<Event<T>>, x: T)
    requires IsRun(states, events) && x in states[0].run
    requires var s, n := states[0], |events|;
      var blocking := seq(n, i requires 0 <= i < n => events[i].SleepFor? || events[i].WaitFor?);
      var creating := seq(n, i requires 0 <= i < n => events[i].Create?);
      multiset(events)[Event<T>.Tick] >=
        2 * (|s.run| + |s.timed| + |s.waiting|) + multiset(blocking)[true] + 2 * multiset(creating)[true]
    ensures exists i :: 0 <= i <= |events| && states[i].current == Some(x)
  {
    var n := |events|;
    BlocksCounted(events, seq(n, i requires 0 <= i < n => events[i].SleepFor? || events[i].WaitFor?));
    CreatedCounted(events, seq(n, i requires 0 <= i < n => events[i].Create?));
    TicksCounted(events);
    RoundRobinBound(states, events, x);
  }

  // ---- why the blocking calls are in the bound ----

  /** x is runnable and never current. */
  ghost predicate Waits<T>(states: seq<State<T>>, x: T) {
    forall i :: 0 <= i < |states| ==> x in states[i].run && states[i].current != Some(x)
  }

  lemma WaitsBoth<T>(first: seq<State<T>>, second: seq<State<T>>, x: T)
    requires Waits(first, x) && Waits(second, x)
    ensures Waits(first + second, x)
  {
  }

  /** The state in which a heads the run ring and b runs while c waits for its turn. */
  function Lapped<T>(a: T, b: T, c: T, clock: word): State<T> {
    State([a, b, c], [], [], Some(b), {}, clock)
  }

  function Napping<T>(a: T, b: T, c: T, clock: word): State<T> {
    State([a, c], [Entry(b, TICK_MS)], [], Some(c), {c}, clock)
  }

  lemma LapWellFormed<T>(a: T, b: T, c: T, clock: word)
    requires a != b && a != c && b != c
    ensures WellFormed(Lapped(a, b, c, clock)) && WellFormed(Napping(a, b, c, clock))
  {
    assert Census(Lapped(a, b, c, clock)) == multiset{a, b, c};
    assert Tasks([Entry(b, TICK_MS)]) == [b];
    assert Census(Napping(a, b, c, clock)) == multiset{a, b, c};
  }

  /** Half a lap: b sleeps for a tick and c runs instead ... */
  lemma LapSleep<T>(a: T, b: T, c: T, clock: word)
    requires a != b && a != c && b != c
    ensures Follows(Lapped(a, b, c, clock), SleepFor(TICK_MS), Napping(a, b, c, clock))
  {
    IndexUnique([a, b, c], b, 1);
    assert RemoveAt([a, b, c], 1) == [a, c];
  }

  /** ... and the tick wakes b to the end of the ring but leaves c the processor. */
  lemma LapTick<T>(a: T, b: T, c: T, clock: word)
    requires a != b && a != c && b != c
    ensures Follows(Napping(a, b, c, clock), Tick, Lapped(a, c, b, (clock + TICK_MS) % WORD))
  {
    assert [a, c] + [b] == [a, c, b];
    assert {c} - {c} == {};
  }

  lemma HalfLap<T>(a: T, b: T, c: T, clock: word, states: seq<State<T>>, events: seq<Event<T>>)
    requires a != b && a != c && b != c
    requires IsRun(states, events) && states[0] == Lapped(a, c, b, (clock + TICK_MS) % WORD)
    ensures var e: Event<T> := SleepFor(TICK_MS);
      IsRun([Lapped(a, b, c, clock)] + ([Napping(a, b, c, clock)] + states), [e] + ([Tick] + events))
  {
    LapWellFormed(a, b, c, clock);
    LapTick(a, b, c, clock);
    LapSleep(a, b, c, clock);
    Prepend(Napping(a, b, c, clock), Tick, states, events);
    Prepend(Lapped(a, b, c, clock), SleepFor(TICK_MS), [Napping(a, b, c, clock)] + states, [Tick] + events);
  }

  /**
   Without counting blocking calls there is no bound: two tasks that keep sleeping for one tick each take
   turns for ever in front of the head of the run ring, which stays runnable and is never current. Ticks
   and blocking calls grow alike, so the bound above cannot charge less than one tick for a blocking call.
   */
  lemma {:induction false} Starvation<T>(a: T, b: T, c: T, clock: word, k: nat)
    returns (states: seq<State<T>>, events: seq<Event<T>>)
    requires a != b && a != c && b != c
    ensures IsRun(states, events) && states[0] == Lapped(a, b, c, clock)
    ensures Ticks(events) == k && Blocks(events) == k && Created(events) == []
    ensures Waits(states, a)
    decreases k
  {
    var s, asleep := Lapped(a, b, c, clock), Napping(a, b, c, clock);
    if k == 0 {
      LapWellFormed(a, b, c, clock);
      return [s], [];
    }
    states, events := Starvation(a, c, b, (clock + TICK_MS) % WORD, k - 1);
    HalfLap(a, b, c, clock, states, events);
    PrependCounts(Tick, events);
    PrependCounts(SleepFor(TICK_MS), [Tick] + events);
    WaitsBoth([asleep], states, a);
    WaitsBoth([s], [asleep] + states, a);
    states, events := [s] + ([asleep] + states), [SleepFor(TICK_MS)] + ([Tick] + events);
  }

  // ---- why a stale flag and a new task are charged as they are ----

  /** The tasks from position c on. */
  function From<T(==)>(r: seq<T>, c: nat): set<T>
    requires c <= |r|
  {
    set t | t in r[c..]
  }

  /** Only runnable tasks: the one at position c runs, and the slice flags are still set from `stale` on. */
  function Running<T(==)>(r: seq<T>, c: nat, stale: nat, clock: word): State<T>
    requires c < |r| && stale <= |r|
  {
    State(r, [], [], Some(r[c]), From(r, stale), clock)
  }

  lemma RunningWellFormed<T>(r: seq<T>, current: Option<T>, flagged: set<T>, clock: word)
    requires Distinct(r) && (current.Some? ==> current.value in r) && forall t :: t in flagged ==> t in r
    ensures WellFormed(State(r, [], [], current, flagged, clock))
  {
    var s := State(r, [], [], current, flagged, clock);
    DistinctIffSingle(r);
    assert Tasks(s.timed) == [];
    assert Census(s) == multiset(r);
    forall t | t in Census(s) ensures Census(s)[t] == 1 {
      assert t in r;
    }
  }

  lemma FromNext<T>(r: seq<T>, c: nat)
    requires Distinct(r) && c < |r|
    ensures r[c] in From(r, c) && r[c] !in From(r, c + 1) && From(r, c) - {r[c]} == From(r, c + 1)
  {
    assert r[c..] == [r[c]] + r[c + 1..];
  }

  function Later(clock: word): word {
    (clock + TICK_MS) % WORD
  }

  /** A tick clears the flag of the task that runs ... */
  lemma FlagTick<T>(r: seq<T>, c: nat, clock: word)
    requires Distinct(r) && c < |r|
    ensures Follows(Running(r, c, c, clock), Tick, Running(r, c, c + 1, Later(clock)))
  {
    FromNext(r, c);
    assert r + [] == r;
  }

  /** ... and the next one gives the processor to its successor. */
  lemma TurnTick<T>(r: seq<T>, c: nat, clock: word)
    requires Distinct(r) && c + 1 < |r|
    ensures Follows(Running(r, c, c + 1, clock), Tick, Running(r, c + 1, c + 1, Later(clock)))
  {
    FromNext(r, c);
    IndexUnique(r, r[c], c);
    assert r + [] == r;
  }

  /** x is not current until the last state. */
  ghost predicate OnlyAtTheEnd<T>(states: seq<State<T>>, x: T) {
    && states != [] && states[|states| - 1].current == Some(x)
    && forall i :: 0 <= i < |states| - 1 ==> states[i].current != Some(x)
  }

  lemma {:induction false} TwoTicksEach<T>(r: seq<T>, c: nat, clock: word)
    returns (states: seq<State<T>>, events: seq<Event<T>>)
    requires Distinct(r) && c < |r|
    ensures IsRun(states, events) && states[0] == Running(r, c, c, clock)
    ensures Ticks(events) == |events| == 2 * (|r| - 1 - c) && OnlyAtTheEnd(states, r[|r| - 1])
    decreases |r| - c
  {
    var s := Running(r, c, c, clock);
    RunningWellFormed(r, s.current, s.flagged, clock);
    if c + 1 == |r| {
      return [s], [];
    }
    var s1 := Running(r, c, c + 1, Later(clock));
    RunningWellFormed(r, s1.current, s1.flagged, s1.clock);
    states, events := TwoTicksEach(r, c + 1, Later(Later(clock)));
    TurnTick(r, c, Later(clock));
    Prepend(s1, Tick, states, events);
    PrependCounts(Tick, events);
    FlagTick(r, c, clock);
    Prepend(s, Tick, [s1] + states, [Tick] + events);
    PrependCounts(Tick, [Tick] + events);
    states, events := [s] + ([s1] + states), [Tick] + ([Tick] + events);
  }

  /**
   The factor two is needed: if all of n runnable tasks carry a stale flag and the kernel idles, the last
   of them becomes current after 2n - 1 ticks and no earlier.
   */
  lemma StaleFlagsCost<T>(r: seq<T>, clock: word) returns (states: seq<State<T>>, events: seq<Event<T>>)
    requires Distinct(r) && r != []
    ensures IsRun(states, events) && states[0] == State(r, [], [], None, From(r, 0), clock)
    ensures Ticks(events) == |events| == 2 * Population(states[0]) - 1 && OnlyAtTheEnd(states, r[|r| - 1])
  {
    var s := State(r, [], [], None, From(r, 0), clock);
    RunningWellFormed(r, None, s.flagged, clock);
    states, events := TwoTicksEach(r, 0, Later(clock));
    assert r + [] == r;
    assert Follows(s, Tick, states[0]);
    Prepend(s, Tick, states, events);
    PrependCounts(Tick, events);
    states, events := [s] + states, [Tick] + events;
  }

  /** The task at the end of the ring runs, without a flag. */
  function AtTheEnd<T(==)>(r: seq<T>, clock: word): State<T>
    requires r != []
  {
    State(r, [], [], Some(r[|r| - 1]), {}, clock)
  }

  /** A new task with its flag set joins the ring before its head, ... */
  function Joined<T(==)>(r: seq<T>, t: T, clock: word): State<T>
    requires r != []
  {
    State(r + [t], [], [], Some(r[|r| - 1]), {t}, clock)
  }

  lemma Joins<T>(r: seq<T>, t: T, clock: word)
    requires Distinct(r + [t]) && r != []
    ensures WellFormed(AtTheEnd(r, clock)) && Follows(AtTheEnd(r, clock), Create(t, true), Joined(r, t, clock))
  {
    DistinctPrefix(r, [t]);
    RunningWellFormed(r, Some(r[|r| - 1]), {}, clock);
    assert (r + [t])[|r|] == t && forall i :: 0 <= i < |r| ==> (r + [t])[i] == r[i];
    NotInCensus(AtTheEnd(r, clock), t);
  }

  /** ... gets the processor with the next tick and keeps it with the one after. */
  lemma Stays<T>(r: seq<T>, t: T, clock: word)
    requires Distinct(r + [t]) && r != []
    ensures var first, second := Joined(r, t, clock), AtTheEnd(r + [t], Later(clock)).(flagged := {t});
      && WellFormed(first) && WellFormed(second)
      && Follows(first, Tick, second) && Follows(second, Tick, AtTheEnd(r + [t], Later(Later(clock))))
  {
    var r', n := r + [t], |r|;
    assert r'[n] == t && r'[n - 1] == r[n - 1] && r' + [] == r';
    RunningWellFormed(r', Some(r[n - 1]), {t}, clock);
    RunningWellFormed(r', Some(t), {t}, Later(clock));
    IndexUnique(r', r[n - 1], n - 1);
    assert {t} - {t} == {};
  }

  function Newcomer<T(==)>(r: seq<T>, t: T, clock: word): seq<State<T>>
    requires r != []
  {
    [AtTheEnd(r, clock), Joined(r, t, clock), AtTheEnd(r + [t], Later(clock)).(flagged := {t})]
  }

  lemma NewcomerRun<T>(r: seq<T>, t: T, clock: word, states: seq<State<T>>, events: seq<Event<T>>)
    requires Distinct(r + [t]) && |r| >= 2
    requires IsRun(states, events) && states[0] == AtTheEnd(r + [t], Later(Later(clock))) && Waits(states, r[0])
    ensures var ss, es := Newcomer(r, t, clock) + states, [Create(t, true)] + ([Tick] + ([Tick] + events));
      IsRun(ss, es) && Waits(ss, r[0])
  {
    var n := Newcomer(r, t, clock);
    var later: seq<Event<T>> := [Tick] + ([Tick] + events);
    NewcomerTicks(r, t, clock, states, events);
    Joins(r, t, clock);
    Prepend(n[0], Create(t, true), [n[1]] + ([n[2]] + states), later);
    assert n + states == [n[0]] + ([n[1]] + ([n[2]] + states));
    NewcomerWaits(r, t, clock);
    WaitsBoth(n, states, r[0]);
  }

  lemma NewcomerTicks<T>(r: seq<T>, t: T, clock: word, states: seq<State<T>>, events: seq<Event<T>>)
    requires Distinct(r + [t]) && r != []
    requires IsRun(states, events) && states[0] == AtTheEnd(r + [t], Later(Later(clock)))
    ensures var n := Newcomer(r, t, clock); IsRun([n[1]] + ([n[2]] + states), [Tick] + ([Tick] + events))
  {
    var n := Newcomer(r, t, clock);
    Stays(r, t, clock);
    Prepend(n[2], Tick, states, events);
    Prepend(n[1], Tick, [n[2]] + states, [Tick] + events);
  }

  lemma NewcomerWaits<T>(r: seq<T>, t: T, clock: word)
    requires Distinct(r + [t]) && |r| >= 2
    ensures Waits(Newcomer(r, t, clock), r[0])
  {
    assert (r + [t])[0] == r[0] && (r + [t])[|r|] == t && (r + [t])[|r| - 1] == r[|r| - 1];
  }

  lemma NotInCensus<T>(s: State<T>, t: T)
    requires t !in s.run && s.timed == [] && s.waiting == []
    ensures t !in Census(s)
  {
    assert Tasks(s.timed) == [];
  }

  /**
   Charging two ticks for a new task is needed as well: while tasks with stale flags are created one after
   the other, the head of the ring waits for two ticks each.
   */
  lemma {:induction false} NewcomersCost<T>(r: seq<T>, added: seq<T>, clock: word)
    returns (states: seq<State<T>>, events: seq<Event<T>>)
    requires Distinct(r + added) && |r| >= 2
    ensures IsRun(states, events) && states[0] == AtTheEnd(r, clock)
    ensures Ticks(events) == 2 * |added| && Blocks(events) == 0 && Created(events) == added
    ensures Waits(states, r[0])
    decreases |added|
  {
    if added == [] {
      assert r + added == r;
      RunningWellFormed(r, Some(r[|r| - 1]), {}, clock);
      return [AtTheEnd(r, clock)], [];
    }
    var t, r' := added[0], r + [added[0]];
    assert r' + added[1..] == r + added;
    DistinctPrefix(r', added[1..]);
    states, events := NewcomersCost(r', added[1..], Later(Later(clock)));
    NewcomerRun(r, t, clock, states, events);
    PrependCounts(Tick, events);
    PrependCounts(Tick, [Tick] + events);
    PrependCounts(Create(t, true), [Tick] + ([Tick] + events));
    assert [t] + added[1..] == added;
    states, events := Newcomer(r, t, clock) + states, [Create(t, true)] + ([Tick] + ([Tick] + events));
  }

  lemma DistinctPrefix<T>(a: seq<T>, b: seq<T>)
    requires Distinct(a + b)
    ensures Distinct(a)
  {
    forall i, j | 0 <= i < j < |a| ensures a[i] != a[j] {
      assert (a + b)[i] == a[i] && (a + b)[j] == a[j];
    }
  }
}
