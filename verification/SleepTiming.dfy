/** How long a sleeping task sleeps, over every run of the scheduler. */
module SleepTiming {
  import opened Common
  import opened SchedulerModel

  /** The ticks a remaining time is worth: the quotient rounded up, at least one. */
  function TicksFor(msec: nat): (n: nat)
    ensures n >= 1
    ensures msec <= n * TICK_MS
    ensures n > 1 ==> (n - 1) * TICK_MS < msec
  {
    if msec <= TICK_MS then 1 else (msec + TICK_MS - 1) / TICK_MS
  }

  ghost predicate AsleepAt<T>(s: State<T>, x: T, p: nat, msec: nat) {
    p < |s.timed| && s.timed[p] == Entry(x, msec)
  }

  ghost predicate Asleep<T>(s: State<T>, x: T) {
    x in Tasks(s.timed)
  }

  /** Ticks still to go plus sleepers ahead: what one tick reduces even when the scan stops early. */
  function Delay(p: nat, msec: nat): nat {
    TicksFor(msec) + p
  }

  lemma TimedOnlyInTimed<T>(s: State<T>, x: T)
    requires WellFormed(s) && Asleep(s, x)
    ensures x !in s.run
  {
    assert x in multiset(Tasks(s.timed));
    assert Census(s)[x] == 1;
  }

  /** A tick wakes x exactly if x is due and is the head or behind a head that is not due. Otherwise it leaves
      x asleep with a smaller delay, and its ticks to go have dropped by at most one. */
  lemma TickWhileAsleep<T>(s: State<T>, x: T, p: nat, msec: nat) returns (woken: bool, p': nat, msec': nat)
    requires WellFormed(s) && AsleepAt(s, x, p, msec)
    ensures var s' := Step(s, Tick);
      if woken then x in s'.run && TicksFor(msec) == 1
      else AsleepAt(s', x, p', msec') && Delay(p', msec') < Delay(p, msec) && TicksFor(msec) <= TicksFor(msec') + 1
    ensures woken <==> msec <= TICK_MS && (p == 0 || s.timed[0].key > TICK_MS)
  {
    woken, p', msec' := false, p, msec;
    if HeadWakes(TimeUp, s.timed) {
      if p == 0 {
        woken := true;
      } else {
        p' := p - 1;
      }
    } else if msec <= TICK_MS {
      SelectedAt(TimeUp, s.timed, p);
      woken := true;
    } else {
      p' := KeptAt(TimeUp, s.timed, p);
      msec' := msec - TICK_MS;
    }
  }

  lemma OtherStepWhileAsleep<T>(s: State<T>, e: Event<T>, x: T, p: nat, msec: nat)
    requires WellFormed(s) && AsleepAt(s, x, p, msec) && Enabled(s, e) && !e.Tick?
    ensures AsleepAt(Step(s, e), x, p, msec)
  {
  }

  /** x sleeps through states 0 to n-1 and is runnable in state n. */
  ghost predicate WakesAt<T>(states: seq<State<T>>, x: T, n: nat) {
    && n < |states|
    && SleepsThrough(states[..n], x)
    && x in states[n].run
  }

  ghost predicate SleepsThrough<T>(states: seq<State<T>>, x: T) {
    forall i :: 0 <= i < |states| ==> Asleep(states[i], x)
  }

  lemma SleepsLonger<T>(states: seq<State<T>>, x: T, n: nat)
    requires 0 < n <= |states| && Asleep(states[0], x) && SleepsThrough(states[1..][..n - 1], x)
    ensures SleepsThrough(states[..n], x)
  {
    forall i | 0 <= i < n ensures Asleep(states[..n][i], x) {
      if i > 0 {
        assert states[1..][..n - 1][i - 1] == states[i];
      }
    }
  }

  lemma TicksOfPrefix<T>(events: seq<Event<T>>, n: nat)
    requires 0 < n <= |events|
    ensures Ticks(events[..n]) == (if events[0].Tick? then 1 else 0) + Ticks(events[1..][..n - 1])
  {
    assert events[..n][1..] == events[1..][..n - 1];
  }

  lemma StepWhileAsleep<T>(s: State<T>, e: Event<T>, s': State<T>, x: T, p: nat, msec: nat)
    returns (woken: bool, p': nat, msec': nat)
    requires WellFormed(s) && AsleepAt(s, x, p, msec) && Follows(s, e, s')
    ensures Asleep(s, x)
    ensures woken ==> e.Tick? && x in s'.run && TicksFor(msec) == 1
    ensures !woken ==> AsleepAt(s', x, p', msec') && var ticks := if e.Tick? then 1 else 0;
      Delay(p', msec') <= Delay(p, msec) - ticks && TicksFor(msec) <= TicksFor(msec') + ticks
  {
    assert Tasks(s.timed)[p] == x;
    if e.Tick? {
      woken, p', msec' := TickWhileAsleep(s, x, p, msec);
    } else {
      OtherStepWhileAsleep(s, e, x, p, msec);
      woken, p', msec' := false, p, msec;
    }
  }

  /**
   Sleep timing over every run. A task asleep at position p with msec to go is woken no earlier than
   TicksFor(msec) ticks later and no later than p further ticks, whatever else happens in between;
   if the run has too few ticks for that, it may still be asleep at the end.
   */
  lemma {:induction false} WakeWindow<T>(states: seq<State<T>>, events: seq<Event<T>>, x: T, p: nat, msec: nat)
    returns (woken: bool, n: nat)
    requires IsRun(states, events) && AsleepAt(states[0], x, p, msec)
    ensures woken ==> WakesAt(states, x, n) && TicksFor(msec) <= Ticks(events[..n]) <= Delay(p, msec)
    ensures !woken ==> SleepsThrough(states, x) && Ticks(events) < Delay(p, msec)
    decreases |events|
  {
    if events == [] {
      assert Tasks(states[0].timed)[p] == x;
      return false, 0;
    }
    assert Follows(states[0], events[0], states[1]);
    RunTail(states, events);
    var now, p', msec' := StepWhileAsleep(states[0], events[0], states[1], x, p, msec);
    if now {
      TicksOfPrefix(events, 1);
      return true, 1;
    }
    woken, n := WakeWindow(states[1..], events[1..], x, p', msec');
    if woken {
      n := n + 1;
      TicksOfPrefix(events, n);
      SleepsLonger(states, x, n);
    } else {
      assert states[1..][..|states| - 1] == states[1..] && states[..|states|] == states;
      SleepsLonger(states, x, |states|);
    }
  }

  lemma NotYet<T>(states: seq<State<T>>, events: seq<Event<T>>, x: T, n: nat)
    requires IsRun(states, events) && n < |states| && SleepsThrough(states[..n + 1], x)
    ensures x !in states[n].run
  {
    assert Asleep(states[..n + 1][n], x);
    RunWellFormed(states, events, n);
    TimedOnlyInTimed(states[n], x);
  }

  /** The window as a caller sees it: not runnable before its ticks are over, runnable at the latest when
      as many further ticks have passed as there were sleepers ahead. */
  lemma SleepWindow<T>(states: seq<State<T>>, events: seq<Event<T>>, x: T, p: nat, msec: nat)
    requires IsRun(states, events) && AsleepAt(states[0], x, p, msec)
    ensures forall n :: 0 <= n <= |events| && Ticks(events[..n]) < TicksFor(msec) ==> x !in states[n].run
    ensures Ticks(events) >= TicksFor(msec) + p ==>
      exists n :: 0 <= n <= |events| && x in states[n].run && Ticks(events[..n]) <= TicksFor(msec) + p
  {
    var woken, w := WakeWindow(states, events, x, p, msec);
    forall n | 0 <= n <= |events| && Ticks(events[..n]) < TicksFor(msec) ensures x !in states[n].run {
      if woken && w <= n {
        PrefixTicks(events, w, n);
      }
      NotYet(states, events, x, n);
    }
  }

  /** wakeup_after_msec puts the caller behind everybody who sleeps already. */
  lemma SleepCallWindow<T>(s: State<T>, msec: word, states: seq<State<T>>, events: seq<Event<T>>)
    requires WellFormed(s) && s.current.Some?
    requires IsRun(states, events) && states[0] == Step(s, SleepFor(msec))
    ensures var x, ahead := s.current.value, |s.timed|;
      && (forall n :: 0 <= n <= |events| && Ticks(events[..n]) < TicksFor(msec) ==> x !in states[n].run)
      && (Ticks(events) >= TicksFor(msec) + ahead ==>
           exists n :: 0 <= n <= |events| && x in states[n].run && Ticks(events[..n]) <= TicksFor(msec) + ahead)
  {
    SleepWindow(states, events, s.current.value, |s.timed|, msec);
  }

  lemma {:induction false} PrefixTicks<T>(events: seq<Event<T>>, m: nat, n: nat)
    requires m <= n <= |events|
    ensures Ticks(events[..m]) <= Ticks(events[..n])
  {
    if m > 0 {
      assert events[..m][1..] == events[1..][..m - 1];
      assert events[..n][1..] == events[1..][..n - 1];
      PrefixTicks(events[1..], m - 1, n - 1);
    }
  }

  /**
   The far end of the window is reached. If everybody ahead of x is due, each scan stops at the head it has
   just woken, x loses nothing of its own time before it is the head, and nothing but ticks makes it wake
   after exactly its ticks plus the number of sleepers ahead.
   */
  lemma {:induction false} LatestWake<T>(s: State<T>, x: T, p: nat, msec: nat)
    returns (states: seq<State<T>>, events: seq<Event<T>>)
    requires WellFormed(s) && AsleepAt(s, x, p, msec)
    requires forall i :: 0 <= i < p ==> s.timed[i].key <= TICK_MS
    ensures IsRun(states, events) && states[0] == s
    ensures Ticks(events) == |events| == Delay(p, msec) && WakesAt(states, x, |events|)
    decreases Delay(p, msec)
  {
    StepWellFormed(s, Tick);
    assert Tasks(s.timed)[p] == x;
    if p == 0 && msec <= TICK_MS {
      var woken, p', msec' := TickWhileAsleep(s, x, p, msec);
      states, events := [Step(s, Tick)], [];
    } else {
      StillBehindDue(s, x, p, msec);
      if p > 0 {
        states, events := LatestWake(Step(s, Tick), x, p - 1, msec);
      } else {
        states, events := LatestWake(Step(s, Tick), x, 0, msec - TICK_MS);
      }
    }
    OneTickEarlier(s, x, states, events);
    states, events := [s] + states, [Tick] + events;
  }

  lemma OneTickEarlier<T>(s: State<T>, x: T, states: seq<State<T>>, events: seq<Event<T>>)
    requires WellFormed(s) && Asleep(s, x) && IsRun(states, events) && states[0] == Step(s, Tick)
    requires Ticks(events) == |events| && WakesAt(states, x, |events|)
    ensures var ss, es := [s] + states, [Event<T>.Tick] + events;
      IsRun(ss, es) && Ticks(es) == |es| && WakesAt(ss, x, |es|)
  {
    Prepend(s, Tick, states, events);
    PrependCounts(Tick, events);
    var ss := [s] + states;
    assert ss[1..] == states;
    SleepsLonger(ss, x, |states|);
  }

  /** What a tick does to a sleeper behind due ones. */
  lemma StillBehindDue<T>(s: State<T>, x: T, p: nat, msec: nat)
    requires AsleepAt(s, x, p, msec) && (p > 0 || msec > TICK_MS)
    requires forall i :: 0 <= i < p ==> s.timed[i].key <= TICK_MS
    requires s.current.Some? ==> s.current.value in s.run
    ensures var s' := Step(s, Tick);
      if p > 0 then
        AsleepAt(s', x, p - 1, msec) && forall i :: 0 <= i < p - 1 ==> s'.timed[i].key <= TICK_MS
      else
        AsleepAt(s', x, 0, msec - TICK_MS) && Delay(0, msec - TICK_MS) == Delay(0, msec) - 1
  {
    if p == 0 {
      var k := KeptAt(TimeUp, s.timed, 0);
    } else {
      assert Remaining(TimeUp, s.timed) == s.timed[1..];
    }
  }

  lemma AllAsleep<T>(s: State<T>)
    requires s.run == [] && s.waiting == [] && s.current.None? && s.flagged == {} && Distinct(Tasks(s.timed))
    ensures WellFormed(s)
  {
    DistinctIffSingle(Tasks(s.timed));
    assert Tasks(s.waiting) == [];
    assert Census(s) == multiset(Tasks(s.timed));
    forall t | t in Census(s) ensures Census(s)[t] == 1 {
      assert t in Tasks(s.timed);
    }
  }

  /** Such a state exists for every time and every number of sleepers ahead: the bound of WakeWindow is
      reached in each case. */
  lemma WindowIsExact(msec: word, p: nat) returns (states: seq<State<nat>>, events: seq<Event<nat>>)
    ensures IsRun(states, events) && AsleepAt(states[0], p, p, msec)
    ensures Ticks(events) == |events| == TicksFor(msec) + p && WakesAt(states, p, |events|)
  {
    var timed := seq(p + 1, i => Entry(i, if i == p then msec else 0));
    var s: State<nat> := State([], timed, [], None, {}, 0);
    AllAsleep(s);
    states, events := LatestWake(s, p, p, msec);
  }

  // ---- in plain numbers ----

  lemma TicksForMeans(msec: nat, k: nat)
    ensures k < TicksFor(msec) <==> k == 0 || 10 * k < msec
  {
  }

  /**
   The window in milliseconds, for a task that asks for msec while `ahead` others sleep: it is not runnable
   before a tick has passed and ten times the ticks have come up to msec, and it is runnable as soon as so
   many ticks and `ahead` more have passed.
   */
  lemma SleepInMilliseconds<T>(s: State<T>, msec: word, states: seq<State<T>>, events: seq<Event<T>>)
    requires WellFormed(s) && s.current.Some?
    requires IsRun(states, events) && states[0] == Step(s, SleepFor(msec))
    ensures var x, tick := s.current.value, Event<T>.Tick;
      forall n :: 0 <= n <= |events| ==>
        var k := multiset(events[..n])[tick]; (k == 0 || 10 * k < msec) ==> x !in states[n].run
    ensures var x, ahead, tick := s.current.value, |s.timed|, Event<T>.Tick;
      var k := multiset(events)[tick];
      k > ahead && 10 * (k - ahead) >= msec ==>
        exists n :: 0 <= n <= |events| && x in states[n].run
          && var j := multiset(events[..n])[tick]; j <= ahead + 1 || 10 * (j - ahead - 1) < msec
  {
    var x, ahead, tick := s.current.value, |s.timed|, Event<T>.Tick;
    SleepCallWindow(s, msec, states, events);
    forall n | 0 <= n <= |events|
      ensures var k := multiset(events[..n])[tick]; (k == 0 || 10 * k < msec) ==> x !in states[n].run
    {
      TicksCounted(events[..n]);
      TicksForMeans(msec, Ticks(events[..n]));
    }
    TicksCounted(events);
    var k := multiset(events)[tick];
    if k > ahead && 10 * (k - ahead) >= msec {
      TicksForMeans(msec, k - ahead);
      var n :| 0 <= n <= |events| && x in states[n].run && Ticks(events[..n]) <= TicksFor(msec) + ahead;
      TicksCounted(events[..n]);
      var j := multiset(events[..n])[tick];
      if j > ahead + 1 {
        TicksForMeans(msec, j - ahead - 1);
      }
    }
  }
}
