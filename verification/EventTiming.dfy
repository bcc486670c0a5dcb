/** How long a task waits for an event, over every run of the scheduler. */
module EventTiming {
  import opened Common
  import opened SchedulerModel

  ghost predicate WaitsAt<T>(s: State<T>, x: T, p: nat, event: byte) {
    p < |s.waiting| && s.waiting[p] == Entry(x, event as nat)
  }

  /** A signal wakes x exactly if it is the event that x waits for and x is the head or behind a head that waits
      for something else. Otherwise x stays, and if the event was right there is one waiter less before it. */
  lemma SignalWhileWaiting<T>(s: State<T>, raised: byte, x: T, p: nat, event: byte) returns (woken: bool, p': nat)
    requires WellFormed(s) && WaitsAt(s, x, p, event)
    ensures var s' := Step(s, Signal(raised));
      if woken then x in s'.run else WaitsAt(s', x, p', event) && p' <= p - if raised == event then 1 else 0
    ensures woken <==> raised == event && (p == 0 || s.waiting[0].key != event as nat)
  {
    var rule := Raised(raised);
    woken, p' := false, p;
    if HeadWakes(rule, s.waiting) {
      if p == 0 {
        woken := true;
      } else {
        p' := p - 1;
      }
    } else if raised == event {
      SelectedAt(rule, s.waiting, p);
      woken := true;
    } else {
      p' := KeptAt(rule, s.waiting, p);
    }
  }

  lemma OtherStepWhileWaiting<T>(s: State<T>, e: Event<T>, x: T, p: nat, event: byte)
    requires WellFormed(s) && WaitsAt(s, x, p, event) && Enabled(s, e) && !e.Signal?
    ensures WaitsAt(Step(s, e), x, p, event)
  {
  }

  lemma WaiterNotRunnable<T>(s: State<T>, x: T, p: nat, event: byte)
    requires WellFormed(s) && WaitsAt(s, x, p, event)
    ensures x !in s.run
  {
    WellFormedMeans(s);
  }

  lemma StepWhileWaiting<T>(s: State<T>, e: Event<T>, s': State<T>, x: T, p: nat, event: byte)
    returns (woken: bool, p': nat)
    requires WellFormed(s) && WaitsAt(s, x, p, event) && Follows(s, e, s')
    ensures if woken then e == Event<T>.Signal(event) && x in s'.run
            else WaitsAt(s', x, p', event) && p' <= p - if e == Event<T>.Signal(event) then 1 else 0
  {
    if e.Signal? {
      woken, p' := SignalWhileWaiting(s, e.event, x, p, event);
    } else {
      OtherStepWhileWaiting(s, e, x, p, event);
      woken, p' := false, p;
    }
  }

  /** x is not runnable before state n, in which a signal of its event has woken it, or not at all; p bounds how
      many of these signals that takes. */
  ghost predicate Served<T>(states: seq<State<T>>, events: seq<Event<T>>, x: T, p: nat, event: byte,
                            woken: bool, n: nat) {
    var signal := Event<T>.Signal(event);
    && n <= |events| < |states|
    && (woken ==> 0 < n && x in states[n].run && events[n - 1] == signal && multiset(events[..n])[signal] <= p + 1)
    && (!woken ==> multiset(events)[signal] <= p)
    && (forall i :: 0 <= i < (if woken then n else |states|) ==> x !in states[i].run)
  }

  lemma ServedLater<T>(states: seq<State<T>>, events: seq<Event<T>>, x: T, p: nat, p': nat, event: byte,
                       woken: bool, n: nat)
    requires events != [] && states != [] && x !in states[0].run
    requires p' <= p - if events[0] == Event<T>.Signal(event) then 1 else 0
    requires Served(states[1..], events[1..], x, p', event, woken, n)
    ensures Served(states, events, x, p, event, woken, n + 1)
  {
    var signal := Event<T>.Signal(event);
    CountAll(events, signal);
    CountFirst(events, n + 1, signal);
    forall i | 0 <= i < (if woken then n + 1 else |states|) ensures x !in states[i].run {
      if i > 0 {
        assert states[i] == states[1..][i - 1];
      }
    }
  }

  lemma {:induction false} ServedRun<T>(states: seq<State<T>>, events: seq<Event<T>>, x: T, p: nat, event: byte)
    returns (woken: bool, n: nat)
    requires IsRun(states, events) && WaitsAt(states[0], x, p, event)
    ensures Served(states, events, x, p, event, woken, n)
    decreases |events|
  {
    WaiterNotRunnable(states[0], x, p, event);
    if events == [] {
      NotServed(states, events, x, p, event);
      return false, 0;
    }
    RunTail(states, events);
    var now, p' := FirstStep(states, events, x, p, event);
    if now {
      ServedNow(states, events, x, p, event);
      return true, 1;
    }
    var n': nat;
    woken, n' := ServedRun(states[1..], events[1..], x, p', event);
    ServedLater(states, events, x, p, p', event, woken, n');
    n := n' + 1;
  }

  lemma FirstStep<T>(states: seq<State<T>>, events: seq<Event<T>>, x: T, p: nat, event: byte)
    returns (woken: bool, p': nat)
    requires IsRun(states, events) && WaitsAt(states[0], x, p, event) && events != []
    ensures if woken then events[0] == Event<T>.Signal(event) && x in states[1].run
            else WaitsAt(states[1], x, p', event) && p' <= p - if events[0] == Event<T>.Signal(event) then 1 else 0
  {
    assert Follows(states[0], events[0], states[1]);
    woken, p' := StepWhileWaiting(states[0], events[0], states[1], x, p, event);
  }

  lemma NotServed<T>(states: seq<State<T>>, events: seq<Event<T>>, x: T, p: nat, event: byte)
    requires |states| == 1 && events == [] && x !in states[0].run
    ensures Served(states, events, x, p, event, false, 0)
  {
  }

  lemma ServedNow<T>(states: seq<State<T>>, events: seq<Event<T>>, x: T, p: nat, event: byte)
    requires 0 < |events| < |states| && x !in states[0].run && x in states[1].run
    requires events[0] == Event<T>.Signal(event)
    ensures Served(states, events, x, p, event, true, 1)
  {
    CountFirst(events, 1, Event<T>.Signal(event));
  }

  /**
   Over every run, whatever else happens: a task that waits for an event behind p others becomes runnable with a
   signal of that event and no other, at the latest with the signal p + 1 of it; if there are fewer signals it
   may still wait at the end.
   */
  lemma EventWindow<T>(states: seq<State<T>>, events: seq<Event<T>>, x: T, p: nat, event: byte)
    returns (woken: bool, n: nat)
    requires IsRun(states, events) && WaitsAt(states[0], x, p, event)
    ensures woken ==>
      && 0 < n <= |events| && x in states[n].run && events[n - 1] == Event<T>.Signal(event)
      && multiset(events[..n])[Event<T>.Signal(event)] <= p + 1
    ensures forall i :: 0 <= i < (if woken then n else |states|) ==> x !in states[i].run
    ensures !woken ==> multiset(events)[Event<T>.Signal(event)] <= p
  {
    woken, n := ServedRun(states, events, x, p, event);
  }

  /** wakeup_after_event puts the caller behind everybody who waits already. */
  lemma WaitCallWindow<T>(s: State<T>, event: byte, states: seq<State<T>>, events: seq<Event<T>>)
    returns (woken: bool, n: nat)
    requires WellFormed(s) && s.current.Some?
    requires IsRun(states, events) && states[0] == Step(s, WaitFor(event))
    ensures woken ==>
      && 0 < n <= |events| && s.current.value in states[n].run && events[n - 1] == Event<T>.Signal(event)
      && multiset(events[..n])[Event<T>.Signal(event)] <= |s.waiting| + 1
    ensures forall i :: 0 <= i < (if woken then n else |states|) ==> s.current.value !in states[i].run
    ensures !woken ==> multiset(events)[Event<T>.Signal(event)] <= |s.waiting|
  {
    BlockShape(s, WaitFor(event), states[0]);
    woken, n := EventWindow(states, events, s.current.value, |s.waiting|, event);
  }
}
