/**
 The keyboard protocol on values: interrupts put scancodes into the buffer and wake waiting readers, readers
 retry until the buffer gives them one. The heap version is in module Kernels.
 */
module Keyboard {
  import opened Common
  import opened SchedulerModel
  import opened KeycodeQueues
  import opened RoundRobin

  const EVENT_TYPE_KBD: byte := 1

  /** `pending` are the readers that have been woken and have not looked at the buffer since. */
  datatype Machine<T(==)> = Machine(sched: State<T>, keys: seq<byte>, pending: set<T>)

  datatype Action<T> =
    | TimerInterrupt
    | KeyInterrupt(ready: bool, data: byte)
    | Read
    | Sleep(msec: word)
    | Exec(task: T, flag: bool)

  function Members<T(==)>(s: seq<T>): set<T> {
    set t | t in s
  }

  /** One round of get_keydata's loop is one action: take a scancode, or block for the keyboard event. A
      woken reader resumes inside that loop, so its next action is to read. */
  predicate Possible<T>(m: Machine<T>, a: Action<T>) {
    match a
    case TimerInterrupt => true
    case KeyInterrupt(_, _) => true
    case Read => m.sched.current.Some?
    case Sleep(_) => m.sched.current.Some? && m.sched.current.value !in m.pending
    case Exec(t, _) => t !in Census(m.sched)
  }

  /** What the scheduler sees of an action; a successful read is none of its business. */
  function Seen<T>(m: Machine<T>, a: Action<T>): seq<Event<T>> {
    match a
    case TimerInterrupt => [Tick]
    case KeyInterrupt(_, _) => [Signal(EVENT_TYPE_KBD)]
    case Read => if m.keys == [] then [WaitFor(EVENT_TYPE_KBD)] else []
    case Sleep(msec) => [SleepFor(msec)]
    case Exec(t, flag) => [Create(t, flag)]
  }

  function NextKeys<T>(m: Machine<T>, a: Action<T>): seq<byte> {
    match a
    case KeyInterrupt(ready, data) => if ready then Put(m.keys, data) else m.keys
    case Read => Get(m.keys)
    case _ => m.keys
  }

  function NextPending<T>(m: Machine<T>, a: Action<T>): set<T> {
    match a
    case KeyInterrupt(_, _) => m.pending + Members(Woken(Raised(EVENT_TYPE_KBD), m.sched.waiting))
    case Read => if m.sched.current.Some? then m.pending - {m.sched.current.value} else m.pending
    case _ => m.pending
  }

  ghost predicate Acts<T>(m: Machine<T>, a: Action<T>, m': Machine<T>) {
    && Possible(m, a)
    && (if Seen(m, a) == [] then m'.sched == m.sched else Follows(m.sched, Seen(m, a)[0], m'.sched))
    && m'.keys == NextKeys(m, a) && m'.pending == NextPending(m, a)
  }

  ghost predicate IsHistory<T>(ms: seq<Machine<T>>, actions: seq<Action<T>>) {
    |ms| == |actions| + 1 && forall i :: 0 <= i < |actions| ==> ActsAt(ms, actions, i)
  }

  ghost predicate ActsAt<T>(ms: seq<Machine<T>>, actions: seq<Action<T>>, i: nat)
    requires |ms| == |actions| + 1 && i < |actions|
  {
    Acts(ms[i], actions[i], ms[i + 1])
  }

  /** While somebody waits for the keyboard, every buffered scancode has a woken reader on its way to it. */
  ghost predicate NoStrandedKeys<T>(m: Machine<T>) {
    m.sched.waiting != [] ==> |m.keys| <= |m.pending|
  }

  ghost predicate Sound<T>(m: Machine<T>) {
    && WellFormed(m.sched)
    && (forall i :: 0 <= i < |m.sched.waiting| ==> m.sched.waiting[i].key == EVENT_TYPE_KBD as nat)
    && (forall t :: t in m.pending ==> t in m.sched.run)
    && NoStrandedKeys(m)
  }

  /** The console at boot: an empty buffer and no readers. */
  lemma BootIsSound<T>(s: State<T>)
    requires WellFormed(s) && s.waiting == []
    ensures Sound(Machine(s, [], {}))
  {
  }

  lemma WaitingNotRunnable<T>(s: State<T>, i: nat)
    requires WellFormed(s) && i < |s.waiting|
    ensures s.waiting[i].task !in s.run
  {
    var t := s.waiting[i].task;
    assert Tasks(s.waiting)[i] == t;
    assert t in multiset(Tasks(s.waiting));
    assert Census(s)[t] == 1;
  }

  /** An interrupt stores at most one scancode and wakes exactly one reader, the one that waited longest. */
  lemma KeyInterruptKeeps<T>(m: Machine<T>, a: Action<T>, m': Machine<T>)
    requires Sound(m) && a.KeyInterrupt? && Acts(m, a, m')
    ensures Sound(m')
  {
    StepWellFormed(m.sched, Signal(EVENT_TYPE_KBD));
    if m.sched.waiting != [] {
      var t := m.sched.waiting[0].task;
      WaitingNotRunnable(m.sched, 0);
      assert Members([t]) == {t};
      assert m'.pending == m.pending + {t};
      assert m'.sched.run == m.sched.run + [t];
    }
  }

  lemma ReadKeeps<T>(m: Machine<T>, a: Action<T>, m': Machine<T>)
    requires Sound(m) && a.Read? && Acts(m, a, m')
    ensures Sound(m')
  {
    if m.keys == [] {
      StepWellFormed(m.sched, WaitFor(EVENT_TYPE_KBD));
      BlockShape(m.sched, WaitFor(EVENT_TYPE_KBD), m'.sched);
    } else {
      OneFewer(m.pending, m.sched.current.value);
    }
  }

  lemma OneFewer<T>(s: set<T>, x: T)
    ensures |s - {x}| >= |s| - 1
  {
    if x in s {
      assert s == (s - {x}) + {x};
    } else {
      assert s - {x} == s;
    }
  }

  lemma OtherKeeps<T>(m: Machine<T>, a: Action<T>, m': Machine<T>)
    requires Sound(m) && (a.TimerInterrupt? || a.Sleep? || a.Exec?) && Acts(m, a, m')
    ensures Sound(m')
  {
    var e := Seen(m, a)[0];
    StepWellFormed(m.sched, e);
    if a.Sleep? {
      BlockShape(m.sched, e, m'.sched);
    }
  }

  /** Whatever happens next, no key is stranded. */
  lemma ActKeepsSound<T>(m: Machine<T>, a: Action<T>, m': Machine<T>)
    requires Sound(m) && Acts(m, a, m')
    ensures Sound(m')
  {
    match a {
      case KeyInterrupt(_, _) => KeyInterruptKeeps(m, a, m');
      case Read => ReadKeeps(m, a, m');
      case _ => OtherKeeps(m, a, m');
    }
  }

  /** No stranded keys, over any interleaving of interrupts, reads, sleeps and new tasks, with any number of
      readers. */
  lemma {:induction false} HistorySound<T>(ms: seq<Machine<T>>, actions: seq<Action<T>>, n: nat)
    requires IsHistory(ms, actions) && Sound(ms[0]) && n <= |actions|
    ensures Sound(ms[n])
  {
    if n > 0 {
      HistorySound(ms, actions, n - 1);
      assert ActsAt(ms, actions, n - 1);
      ActKeepsSound(ms[n - 1], actions[n - 1], ms[n]);
    }
  }

  // ---- a buffered key is looked at ----

  function EventsOf<T>(ms: seq<Machine<T>>, actions: seq<Action<T>>): seq<Event<T>>
    requires |ms| == |actions| + 1
    decreases |actions|
  {
    if actions == [] then [] else Seen(ms[0], actions[0]) + EventsOf(ms[1..], actions[1..])
  }

  lemma HistoryTail<T>(ms: seq<Machine<T>>, actions: seq<Action<T>>)
    requires IsHistory(ms, actions) && actions != []
    ensures IsHistory(ms[1..], actions[1..]) && Acts(ms[0], actions[0], ms[1])
  {
    assert ActsAt(ms, actions, 0);
    forall i | 0 <= i < |actions| - 1 ensures ActsAt(ms[1..], actions[1..], i) {
      assert ActsAt(ms, actions, i + 1);
    }
  }

  /** The scheduler's run inside a history of the machine; every state of it is the scheduler of some
      machine state. */
  lemma {:induction false} SchedulerRun<T>(ms: seq<Machine<T>>, actions: seq<Action<T>>) returns (states: seq<State<T>>)
    requires IsHistory(ms, actions) && Sound(ms[0])
    ensures IsRun(states, EventsOf(ms, actions)) && states[0] == ms[0].sched
    ensures forall i :: 0 <= i < |states| ==> exists n :: 0 <= n < |ms| && ms[n].sched == states[i]
    decreases |actions|
  {
    if actions == [] {
      return [ms[0].sched];
    }
    HistoryTail(ms, actions);
    ActKeepsSound(ms[0], actions[0], ms[1]);
    var rest := SchedulerRun(ms[1..], actions[1..]);
    forall i | 0 <= i < |rest| ensures exists n :: 0 <= n < |ms| && ms[n].sched == rest[i] {
      var n :| 0 <= n < |ms[1..]| && ms[1..][n].sched == rest[i];
      assert ms[n + 1].sched == rest[i];
    }
    if Seen(ms[0], actions[0]) == [] {
      states := rest;
    } else {
      Prepend(ms[0].sched, Seen(ms[0], actions[0])[0], rest, EventsOf(ms[1..], actions[1..]));
      states := [ms[0].sched] + rest;
    }
  }

  // ---- what a reader gets ----

  /** The operations on the buffer inside a history. */
  function OpsOf<T>(actions: seq<Action<T>>): seq<Op> {
    if actions == [] then []
    else
      var op := match actions[0]
        case KeyInterrupt(ready, data) => if ready then [PutOp(data)] else []
        case Read => [GetOp]
        case _ => [];
      op + OpsOf(actions[1..])
  }

  /** The scancodes that t has been given, in order. */
  function Received<T>(ms: seq<Machine<T>>, actions: seq<Action<T>>, t: T): seq<byte>
    requires |ms| == |actions| + 1
    decreases |actions|
  {
    if actions == [] then []
    else
      (if actions[0].Read? && ms[0].sched.current == Some(t) && ms[0].keys != [] then [ms[0].keys[0]] else [])
        + Received(ms[1..], actions[1..], t)
  }

  /** A scancode is stored by an interrupt that finds one and taken out by a read, and the reader is who runs. */
  lemma ActionMeans<T>(ms: seq<Machine<T>>, actions: seq<Action<T>>, t: T)
    requires |ms| == |actions| + 1 && actions != []
    ensures OpsOf(actions) ==
      (match actions[0]
       case KeyInterrupt(ready, data) => if ready then [PutOp(data)] else []
       case Read => [GetOp]
       case _ => [])
      + OpsOf(actions[1..])
    ensures Received(ms, actions, t) ==
      (if actions[0].Read? && ms[0].sched.current == Some(t) && ms[0].keys != [] then [ms[0].keys[0]] else [])
      + Received(ms[1..], actions[1..], t)
  {
  }

  ghost predicate OnlyReader<T>(ms: seq<Machine<T>>, actions: seq<Action<T>>, t: T)
    requires |ms| == |actions| + 1
  {
    forall i :: 0 <= i < |actions| && actions[i].Read? ==> ms[i].sched.current == Some(t)
  }

  lemma OpsOfFirst<T>(m: Machine<T>, a: Action<T>, rest: seq<Action<T>>, q: seq<byte>)
    requires q == m.keys
    ensures Apply(q, OpsOf([a] + rest)) == Apply(NextKeys(m, a), OpsOf(rest))
    ensures Delivered(q, OpsOf([a] + rest)) ==
      (if a.Read? && q != [] then [q[0]] else []) + Delivered(NextKeys(m, a), OpsOf(rest))
  {
    assert ([a] + rest)[1..] == rest;
    if a.KeyInterrupt? && a.ready {
      assert ([PutOp(a.data)] + OpsOf(rest))[1..] == OpsOf(rest);
    } else if a.Read? {
      assert ([GetOp] + OpsOf(rest))[1..] == OpsOf(rest);
    } else {
      assert [] + OpsOf(rest) == OpsOf(rest);
    }
  }

  lemma {:induction false} SingleReaderOps<T>(ms: seq<Machine<T>>, actions: seq<Action<T>>, t: T)
    requires IsHistory(ms, actions) && OnlyReader(ms, actions, t)
    ensures Received(ms, actions, t) == Delivered(ms[0].keys, OpsOf(actions))
    ensures ms[|actions|].keys == Apply(ms[0].keys, OpsOf(actions))
    decreases |actions|
  {
    if actions != [] {
      HistoryTail(ms, actions);
      forall i | 0 <= i < |actions| - 1 && actions[1..][i].Read? ensures ms[1..][i].sched.current == Some(t) {
        assert actions[i + 1].Read?;
      }
      SingleReaderOps(ms[1..], actions[1..], t);
      OpsOfFirst(ms[0], actions[0], actions[1..], ms[0].keys);
      assert actions == [actions[0]] + actions[1..];
    }
  }

  /** A task that is the only reader has been given, in order and without a gap, the scancodes that found room
      in the buffer, except those still in it. */
  lemma SingleReader<T>(ms: seq<Machine<T>>, actions: seq<Action<T>>, t: T)
    requires IsHistory(ms, actions) && OnlyReader(ms, actions, t) && |ms[0].keys| <= QUEUE_BUF_SIZE
    ensures Received(ms, actions, t) + ms[|actions|].keys == ms[0].keys + Accepted(ms[0].keys, OpsOf(actions))
  {
    SingleReaderOps(ms, actions, t);
    FirstInFirstOut(ms[0].keys, OpsOf(actions));
  }
}
