/** The keyboard protocol over histories, in terms of interrupts and system calls only. */
module KeyboardTiming {
  import opened Common
  import opened SchedulerModel
  import opened SleepTiming
  import opened RoundRobin
  import opened KeycodeQueues
  import opened Keyboard

  // ---- sleeping ----

  lemma ActWhileAsleep<T>(m: Machine<T>, a: Action<T>, m': Machine<T>, x: T, p: nat, msec: nat)
    returns (woken: bool, p': nat, msec': nat)
    requires Sound(m) && Acts(m, a, m') && AsleepAt(m.sched, x, p, msec)
    ensures x !in m.sched.run
    ensures woken ==> a.TimerInterrupt? && x in m'.sched.run && TicksFor(msec) == 1
    ensures !woken ==> AsleepAt(m'.sched, x, p', msec')
    ensures !woken ==> Delay(p', msec') <= Delay(p, msec) - if a.TimerInterrupt? then 1 else 0
    ensures !woken ==> TicksFor(msec) <= TicksFor(msec') + if a.TimerInterrupt? then 1 else 0
  {
    woken, p', msec' := false, p, msec;
    if Seen(m, a) != [] {
      woken, p', msec' := StepWhileAsleep(m.sched, Seen(m, a)[0], m'.sched, x, p, msec);
    }
    assert Tasks(m.sched.timed)[p] == x;
    TimedOnlyInTimed(m.sched, x);
  }

  /** x is not runnable before state n, in which it has been woken after `low` to `high` timer interrupts, or not
      at all. */
  ghost predicate SleptTill<T>(ms: seq<Machine<T>>, actions: seq<Action<T>>, x: T, low: nat, high: nat,
                               woken: bool, n: nat) {
    var timer := Action<T>.TimerInterrupt;
    && n <= |actions| < |ms|
    && (woken ==> x in ms[n].sched.run && low <= multiset(actions[..n])[timer] <= high)
    && (!woken ==> multiset(actions)[timer] < high)
    && (forall i :: 0 <= i < (if woken then n else |ms|) ==> x !in ms[i].sched.run)
  }

  lemma SleptLater<T>(ms: seq<Machine<T>>, actions: seq<Action<T>>, x: T, low: nat, high: nat, low': nat, high': nat,
                      woken: bool, n: nat)
    requires actions != [] && ms != [] && x !in ms[0].sched.run
    requires SleptTill(ms[1..], actions[1..], x, low', high', woken, n)
    requires var t := if actions[0] == Action<T>.TimerInterrupt then 1 else 0; low <= low' + t && high' + t <= high
    ensures SleptTill(ms, actions, x, low, high, woken, n + 1)
  {
    CountAll(actions, Action<T>.TimerInterrupt);
    CountFirst(actions, n + 1, Action<T>.TimerInterrupt);
    forall i | 0 <= i < (if woken then n + 1 else |ms|) ensures x !in ms[i].sched.run {
      if i > 0 {
        assert ms[i] == ms[1..][i - 1];
      }
    }
  }

  lemma SleptNow<T>(ms: seq<Machine<T>>, actions: seq<Action<T>>, x: T, high: nat)
    requires 0 < |actions| < |ms| && x !in ms[0].sched.run && x in ms[1].sched.run && high >= 1
    requires actions[0] == Action<T>.TimerInterrupt
    ensures SleptTill(ms, actions, x, 1, high, true, 1)
  {
    CountFirst(actions, 1, Action<T>.TimerInterrupt);
  }

  lemma NotYetWoken<T>(ms: seq<Machine<T>>, actions: seq<Action<T>>, x: T, low: nat, high: nat)
    requires |ms| == 1 && actions == [] && x !in ms[0].sched.run && high > 0
    ensures SleptTill(ms, actions, x, low, high, false, 0)
  {
  }

  lemma {:induction false} SleptRun<T>(ms: seq<Machine<T>>, actions: seq<Action<T>>, x: T, p: nat, msec: nat)
    returns (woken: bool, n: nat)
    requires IsHistory(ms, actions) && Sound(ms[0]) && AsleepAt(ms[0].sched, x, p, msec)
    ensures SleptTill(ms, actions, x, TicksFor(msec), Delay(p, msec), woken, n)
    decreases |actions|
  {
    if actions == [] {
      assert Tasks(ms[0].sched.timed)[p] == x;
      TimedOnlyInTimed(ms[0].sched, x);
      NotYetWoken(ms, actions, x, TicksFor(msec), Delay(p, msec));
      return false, 0;
    }
    HistoryTail(ms, actions);
    ActKeepsSound(ms[0], actions[0], ms[1]);
    var now, p', msec' := ActWhileAsleep(ms[0], actions[0], ms[1], x, p, msec);
    if now {
      SleptNow(ms, actions, x, Delay(p, msec));
      return true, 1;
    }
    var n': nat;
    woken, n' := SleptRun(ms[1..], actions[1..], x, p', msec');
    SleptLater(ms, actions, x, TicksFor(msec), Delay(p, msec), TicksFor(msec'), Delay(p', msec'), woken, n');
    n := n' + 1;
  }

  /**
   Sleeping, over every history of interrupts and system calls. After Sleep(msec), while `ahead` others sleep,
   the caller is not runnable before a timer interrupt has come and ten times their number is up to msec; it is
   runnable as soon as so many and `ahead` more have come.
   */
  lemma SleepInInterrupts<T>(ms: seq<Machine<T>>, actions: seq<Action<T>>, msec: word)
    requires IsHistory(ms, actions) && Sound(ms[0]) && actions != [] && actions[0] == Sleep(msec)
    ensures ms[0].sched.current.Some?
    ensures var x, timer := ms[0].sched.current.value, Action<T>.TimerInterrupt;
      forall n :: 0 < n <= |actions| ==>
        var k := multiset(actions[1..n])[timer]; (k == 0 || 10 * k < msec) ==> x !in ms[n].sched.run
    ensures var x, ahead, timer := ms[0].sched.current.value, |ms[0].sched.timed|, Action<T>.TimerInterrupt;
      var k := multiset(actions[1..])[timer];
      k > ahead && 10 * (k - ahead) >= msec ==>
        exists n :: 0 < n <= |actions| && x in ms[n].sched.run
          && var j := multiset(actions[1..n])[timer]; j <= ahead + 1 || 10 * (j - ahead - 1) < msec
  {
    var woken, w := SleptFromCall(ms, actions, msec);
    var x, ahead, timer := ms[0].sched.current.value, |ms[0].sched.timed|, Action<T>.TimerInterrupt;
    forall n | 0 < n <= |actions|
      ensures var k := multiset(actions[1..n])[timer]; (k == 0 || 10 * k < msec) ==> x !in ms[n].sched.run
    {
      NotBefore(ms[1..], actions[1..], x, msec, ahead, woken, w, n - 1);
      assert actions[1..][..n - 1] == actions[1..n];
    }
    var k := multiset(actions[1..])[timer];
    if k > ahead && 10 * (k - ahead) >= msec {
      AtLatest(ms[1..], actions[1..], x, msec, ahead, woken, w);
      assert actions[1..][..w] == actions[1..w + 1] && ms[1..][w] == ms[w + 1];
    }
  }

  lemma SleptFromCall<T>(ms: seq<Machine<T>>, actions: seq<Action<T>>, msec: word) returns (woken: bool, w: nat)
    requires IsHistory(ms, actions) && Sound(ms[0]) && actions != [] && actions[0] == Sleep(msec)
    ensures ms[0].sched.current.Some?
    ensures SleptTill(ms[1..], actions[1..], ms[0].sched.current.value, TicksFor(msec),
                      Delay(|ms[0].sched.timed|, msec), woken, w)
  {
    HistoryTail(ms, actions);
    ActKeepsSound(ms[0], actions[0], ms[1]);
    BlockShape(ms[0].sched, SleepFor(msec), ms[1].sched);
    woken, w := SleptRun(ms[1..], actions[1..], ms[0].sched.current.value, |ms[0].sched.timed|, msec);
  }

  lemma NotBefore<T>(ms: seq<Machine<T>>, actions: seq<Action<T>>, x: T, msec: nat, ahead: nat, woken: bool, w: nat,
                     n: nat)
    requires SleptTill(ms, actions, x, TicksFor(msec), Delay(ahead, msec), woken, w) && n <= |actions|
    ensures var k := multiset(actions[..n])[Action<T>.TimerInterrupt];
      (k == 0 || 10 * k < msec) ==> x !in ms[n].sched.run
  {
    if w <= n {
      CountMonotone(actions, w, n, Action<T>.TimerInterrupt);
    }
    TicksForMeans(msec, multiset(actions[..n])[Action<T>.TimerInterrupt]);
  }

  lemma AtLatest<T>(ms: seq<Machine<T>>, actions: seq<Action<T>>, x: T, msec: nat, ahead: nat, woken: bool, w: nat)
    requires SleptTill(ms, actions, x, TicksFor(msec), Delay(ahead, msec), woken, w)
    requires var k := multiset(actions)[Action<T>.TimerInterrupt]; k > ahead && 10 * (k - ahead) >= msec
    ensures woken && w <= |actions| && x in ms[w].sched.run
    ensures var j := multiset(actions[..w])[Action<T>.TimerInterrupt]; j <= ahead + 1 || 10 * (j - ahead - 1) < msec
  {
    TicksForMeans(msec, multiset(actions)[Action<T>.TimerInterrupt] - ahead);
    var j := multiset(actions[..w])[Action<T>.TimerInterrupt];
    if j > ahead + 1 {
      TicksForMeans(msec, j - ahead - 1);
    }
  }

  // ---- the processor ----

  lemma EventsCountedFirst<T>(ms: seq<Machine<T>>, actions: seq<Action<T>>)
    requires |ms| == |actions| + 1 && actions != []
    ensures var e, r, a := EventsOf(ms, actions), EventsOf(ms[1..], actions[1..]), actions[0];
      && Ticks(e) == Ticks(r) + (if a.TimerInterrupt? then 1 else 0)
      && Blocks(e) == Blocks(r) + (if a.Sleep? || (a.Read? && ms[0].keys == []) then 1 else 0)
      && |Created(e)| == |Created(r)| + if a.Exec? then 1 else 0
  {
    var seen, r := Seen(ms[0], actions[0]), EventsOf(ms[1..], actions[1..]);
    if seen == [] {
      assert [] + r == r;
    } else {
      PrependCounts(seen[0], r);
      assert seen == [seen[0]];
    }
  }

  /** The scheduler's events in a history, by the actions that cause them. */
  lemma {:induction false} EventsCounted<T>(ms: seq<Machine<T>>, actions: seq<Action<T>>,
                                            blocking: seq<bool>, creating: seq<bool>)
    requires |ms| == |actions| + 1 && |blocking| == |creating| == |actions|
    requires forall i :: 0 <= i < |actions| ==>
      blocking[i] == (actions[i].Sleep? || (actions[i].Read? && ms[i].keys == []))
    requires forall i :: 0 <= i < |actions| ==> creating[i] == actions[i].Exec?
    ensures var e := EventsOf(ms, actions);
      && Ticks(e) == multiset(actions)[Action<T>.TimerInterrupt]
      && Blocks(e) == multiset(blocking)[true] && |Created(e)| == multiset(creating)[true]
    decreases |actions|
  {
    if actions != [] {
      EventsCountedFirst(ms, actions);
      EventsCounted(ms[1..], actions[1..], blocking[1..], creating[1..]);
      CountAll(actions, Action<T>.TimerInterrupt);
      CountAll(blocking, true);
      CountAll(creating, true);
    }
  }

  /** Every runnable task becomes current in any history with enough timer interrupts: two for each task in the
      three queues, one for each sleep and each read of an empty buffer, and two for each new task. */
  lemma ServedInInterrupts<T>(ms: seq<Machine<T>>, actions: seq<Action<T>>, x: T)
    requires IsHistory(ms, actions) && Sound(ms[0]) && x in ms[0].sched.run
    requires var s, n := ms[0].sched, |actions|;
      var blocking := seq(n, i requires 0 <= i < n => actions[i].Sleep? || (actions[i].Read? && ms[i].keys == []));
      var creating := seq(n, i requires 0 <= i < n => actions[i].Exec?);
      multiset(actions)[Action<T>.TimerInterrupt] >=
        2 * (|s.run| + |s.timed| + |s.waiting|) + multiset(blocking)[true] + 2 * multiset(creating)[true]
    ensures exists n :: 0 <= n < |ms| && ms[n].sched.current == Some(x)
  {
    var n := |actions|;
    EventsCounted(ms, actions,
                  seq(n, i requires 0 <= i < n => actions[i].Sleep? || (actions[i].Read? && ms[i].keys == [])),
                  seq(n, i requires 0 <= i < n => actions[i].Exec?));
    var states := SchedulerRun(ms, actions);
    RoundRobinBound(states, EventsOf(ms, actions), x);
    var i :| 0 <= i <= |EventsOf(ms, actions)| && states[i].current == Some(x);
    assert exists k :: 0 <= k < |ms| && ms[k].sched == states[i];
  }

  /** If a scancode is buffered while somebody waits, a woken reader gets the processor, and so its turn at the
      buffer, within as many timer interrupts. */
  lemma BufferedKeyIsServed<T>(ms: seq<Machine<T>>, actions: seq<Action<T>>) returns (reader: T)
    requires IsHistory(ms, actions) && Sound(ms[0]) && ms[0].keys != [] && ms[0].sched.waiting != []
    requires var s, n := ms[0].sched, |actions|;
      var blocking := seq(n, i requires 0 <= i < n => actions[i].Sleep? || (actions[i].Read? && ms[i].keys == []));
      var creating := seq(n, i requires 0 <= i < n => actions[i].Exec?);
      multiset(actions)[Action<T>.TimerInterrupt] >=
        2 * (|s.run| + |s.timed| + |s.waiting|) + multiset(blocking)[true] + 2 * multiset(creating)[true]
    ensures reader in ms[0].pending
    ensures exists n :: 0 <= n < |ms| && ms[n].sched.current == Some(reader)
  {
    assert |ms[0].pending| > 0;
    reader :| reader in ms[0].pending;
    ServedInInterrupts(ms, actions, reader);
  }

  // ---- reading ----

  /** An interrupt makes those runnable that it wakes, and nobody else. */
  lemma WokenMeans<T>(m: Machine<T>, a: Action<T>, m': Machine<T>, t: T)
    requires Sound(m) && a.KeyInterrupt? && Acts(m, a, m')
    ensures t in m'.pending <==> t in m.pending || (t !in m.sched.run && t in m'.sched.run)
  {
    var rule, q := Raised(EVENT_TYPE_KBD), m.sched.waiting;
    WokenOrRemaining(rule, q);
    if t in Woken(rule, q) {
      assert t in multiset(Woken(rule, q));
      assert t in multiset(Tasks(q));
      var i :| 0 <= i < |q| && Tasks(q)[i] == t;
      WaitingNotRunnable(m.sched, i);
    }
  }

  /** The keyboard interrupt j has made t runnable, and t has not looked at the buffer in the actions from there
      to n. */
  ghost predicate WokenBy<T>(ms: seq<Machine<T>>, actions: seq<Action<T>>, j: nat, n: nat, t: T)
    requires j < n <= |actions| < |ms|
  {
    && actions[j].KeyInterrupt? && t !in ms[j].sched.run && t in ms[j + 1].sched.run
    && forall k :: j < k < n && actions[k].Read? ==> ms[k].sched.current != Some(t)
  }

  /** Who is pending, in terms of the history: who has become runnable with a keyboard interrupt and has not looked
      at the buffer since. */
  lemma {:induction false} PendingExact<T>(ms: seq<Machine<T>>, actions: seq<Action<T>>, n: nat, t: T)
    requires IsHistory(ms, actions) && Sound(ms[0]) && ms[0].pending == {} && n <= |actions|
    ensures t in ms[n].pending <==> exists j :: 0 <= j < n && WokenBy(ms, actions, j, n, t)
  {
    if n > 0 {
      PendingExact(ms, actions, n - 1, t);
      PendingStep(ms, actions, n - 1, t);
      forall j | 0 <= j < n - 1 && WokenBy(ms, actions, j, n, t)
        ensures t in ms[n].pending
      {
        WokenByStep(ms, actions, j, n - 1, t);
      }
      if t in ms[n].pending && !WokenBy(ms, actions, n - 1, n, t) {
        var j :| 0 <= j < n - 1 && WokenBy(ms, actions, j, n - 1, t);
        WokenByStep(ms, actions, j, n - 1, t);
      }
    }
  }

  lemma WokenByStep<T>(ms: seq<Machine<T>>, actions: seq<Action<T>>, j: nat, n: nat, t: T)
    requires j < n < |actions| < |ms|
    ensures WokenBy(ms, actions, j, n + 1, t) <==>
      WokenBy(ms, actions, j, n, t) && !(actions[n].Read? && ms[n].sched.current == Some(t))
  {
  }

  lemma PendingStep<T>(ms: seq<Machine<T>>, actions: seq<Action<T>>, n: nat, t: T)
    requires IsHistory(ms, actions) && Sound(ms[0]) && n < |actions|
    ensures t in ms[n + 1].pending <==>
      || WokenBy(ms, actions, n, n + 1, t)
      || (t in ms[n].pending && !(actions[n].Read? && ms[n].sched.current == Some(t)))
  {
    HistorySound(ms, actions, n);
    assert ActsAt(ms, actions, n);
    if actions[n].KeyInterrupt? {
      WokenMeans(ms[n], actions[n], ms[n + 1], t);
    }
  }

  /** No scancode is stranded: whenever somebody waits for the keyboard, the buffer holds at most as many as there
      are pending readers, and these are runnable. */
  lemma NoKeyStranded<T>(ms: seq<Machine<T>>, actions: seq<Action<T>>, n: nat)
    requires IsHistory(ms, actions) && WellFormed(ms[0].sched) && ms[0].sched.waiting == []
    requires ms[0].keys == [] && ms[0].pending == {} && n <= |actions|
    ensures ms[n].sched.waiting != [] ==> |ms[n].keys| <= |ms[n].pending|
    ensures forall t :: t in ms[n].pending ==> t in ms[n].sched.run
    ensures forall i :: 0 <= i < |ms[n].sched.waiting| ==> ms[n].sched.waiting[i].key == 1
  {
    HistorySound(ms, actions, n);
  }
}
