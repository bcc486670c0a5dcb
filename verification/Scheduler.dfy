/**
 The scheduler on the heap. Its three queues share the prev/next fields of the tasks; every entry point is
 proved to take the step of the same name in SchedulerModel.
 */
module Sched {
  import opened Common
  import opened SchedulerModel
  import opened WakeScan
  import opened TaskQueues

  datatype Cause = Timer | Syscall

  /** The members of a queue with what they wait for: a time or an event. */
  ghost function Entries(timed: bool, m: seq<Task>): (r: seq<Entry<Task>>)
    reads m
    ensures |r| == |m| && Tasks(r) == m
    ensures forall i :: 0 <= i < |m| ==>
      r[i] == Entry(m[i], if timed then m[i].wakeupAfterMsec else m[i].wakeupAfterEvent as nat)
  {
    var r := seq(|m|, i requires 0 <= i < |m| reads m =>
      Entry(m[i], if timed then m[i].wakeupAfterMsec else m[i].wakeupAfterEvent as nat));
    assert Tasks(r) == m;
    r
  }

  twostate lemma SameSleepers(m: seq<Task>)
    requires forall t :: t in m ==> unchanged(t`wakeupAfterMsec)
    ensures Entries(true, m) == old(Entries(true, m))
  {
    forall i | 0 <= i < |m| ensures Entries(true, m)[i] == old(Entries(true, m))[i] {
      assert m[i] in m;
    }
  }

  twostate lemma SameWaiters(m: seq<Task>)
    requires forall t :: t in m ==> unchanged(t`wakeupAfterEvent)
    ensures Entries(false, m) == old(Entries(false, m))
  {
    forall i | 0 <= i < |m| ensures Entries(false, m)[i] == old(Entries(false, m))[i] {
      assert m[i] in m;
    }
  }

  lemma SleepersAppend(m: seq<Task>, c: Task)
    ensures Entries(true, m + [c]) == Entries(true, m) + [Entry(c, c.wakeupAfterMsec)]
  {
  }

  lemma WaitersAppend(m: seq<Task>, c: Task)
    ensures Entries(false, m + [c]) == Entries(false, m) + [Entry(c, c.wakeupAfterEvent as nat)]
  {
  }

  ghost predicate Apart(a: TaskQueue, b: TaskQueue)
    reads a, b
  {
    && a != b
    && (forall t :: t in a.members ==> t !in b.members)
    && (forall t :: t in b.members ==> t !in a.members)
  }

  /** Move t, at position i of `from`, to the end of `to`. */
  method Move(from: TaskQueue, to: TaskQueue, t: Task, ghost i: nat)
    requires from.Valid() && to.Valid() && Apart(from, to)
    requires i < |from.members| && from.members[i] == t
    modifies from, to, from.members`prev, from.members`next, to.members`prev, to.members`next
    ensures from.Valid() && to.Valid() && Apart(from, to)
    ensures from.members == RemoveAt(old(from.members), i) && to.members == old(to.members) + [t]
  {
    RemovedOne(from.members, i);
    var status := from.Delete(t, i);
    Untouched(to);
    label Deleted:
    to.Enqueue(t);
    Untouched@Deleted(from);
  }

  class Scheduler {
    var currentTask: Task?
    const runQueue: TaskQueue
    const wakeupQueue: TaskQueue
    const wakeupEventQueue: TaskQueue
    const dummyTask: Task
    var globalCounter: word
    /** The task whose context the processor was last switched to; null is the kernel task. */
    var running: Task?
    /** The tasks created so far. */
    ghost var pool: set<Task>

    ghost predicate Pooled(q: TaskQueue)
      reads this, q
    {
      forall t :: t in q.members ==> t in pool
    }

    /** The queues are rings of tasks created, no task is in two of them, and the dummy task is in none. */
    ghost predicate Rings()
      reads this, runQueue, wakeupQueue, wakeupEventQueue
      reads runQueue.members, wakeupQueue.members, wakeupEventQueue.members
    {
      && runQueue.Valid() && wakeupQueue.Valid() && wakeupEventQueue.Valid()
      && Apart(runQueue, wakeupQueue) && Apart(runQueue, wakeupEventQueue) && Apart(wakeupQueue, wakeupEventQueue)
      && Pooled(runQueue) && Pooled(wakeupQueue) && Pooled(wakeupEventQueue) && dummyTask !in pool
    }

    /** The rings do not depend on what else the tasks hold. */
    twostate lemma SameRings()
      requires old(Rings()) && unchanged(this`pool)
      requires unchanged(runQueue) && unchanged(wakeupQueue) && unchanged(wakeupEventQueue)
      requires forall t :: t in pool ==> unchanged(t`next) && unchanged(t`prev)
      ensures Rings()
    {
      assert old(Pooled(runQueue)) && old(Pooled(wakeupQueue)) && old(Pooled(wakeupEventQueue));
      assert Pooled(runQueue) && Pooled(wakeupQueue) && Pooled(wakeupEventQueue);
      Untouched(runQueue);
      Untouched(wakeupQueue);
      Untouched(wakeupEventQueue);
    }

    ghost function Timed(): seq<Entry<Task>>
      reads wakeupQueue, wakeupQueue.members
    {
      Entries(true, wakeupQueue.members)
    }

    ghost function Waiting(): seq<Entry<Task>>
      reads wakeupEventQueue, wakeupEventQueue.members
    {
      Entries(false, wakeupEventQueue.members)
    }

    ghost function Flagged(): set<Task>
      reads this, pool
    {
      set t | t in pool && t.taskSwitchedInTimeSlice
    }

    ghost function Abs(): State<Task>
      reads this, runQueue, wakeupQueue, wakeupEventQueue, pool
      reads wakeupQueue.members, wakeupEventQueue.members
    {
      State(
        runQueue.members,
        Timed(),
        Waiting(),
        if currentTask == null then None else Some(currentTask),
        Flagged(),
        globalCounter)
    }

    /** Between two steps: every task created is in a queue, the current task is in the run ring or null,
        never the dummy, and it is the one whose context is loaded. */
    ghost predicate Valid()
      reads this, runQueue, wakeupQueue, wakeupEventQueue, pool
      reads runQueue.members, wakeupQueue.members, wakeupEventQueue.members
    {
      && Rings()
      && (forall t :: t in pool ==> t in Census(Abs()))
      && (currentTask != null ==> currentTask in runQueue.members)
      && running == currentTask
    }

    lemma ValidWellFormed()
      requires Valid()
      ensures WellFormed(Abs())
    {
      var r, m, e := runQueue.members, wakeupQueue.members, wakeupEventQueue.members;
      DistinctIffSingle(r);
      DistinctIffSingle(m);
      DistinctIffSingle(e);
      forall t | t in Census(Abs()) ensures Census(Abs())[t] == 1 {
        assert t in r || t in m || t in e;
      }
    }

    /** The same in plain terms: every task created is in exactly one of the three queues, once, nothing else is in
        them, and the current task is a runnable one, never the dummy, or null. */
    lemma OneQueueEach()
      requires Valid()
      ensures var r, m, e := runQueue.members, wakeupQueue.members, wakeupEventQueue.members;
        && (forall t :: t in pool <==> t in r || t in m || t in e)
        && (forall t :: t in r ==> t !in m && t !in e)
        && (forall t :: t in m ==> t !in e)
        && dummyTask !in r && dummyTask !in m && dummyTask !in e
      ensures forall i, j :: 0 <= i < j < |runQueue.members| ==> runQueue.members[i] != runQueue.members[j]
      ensures forall i, j :: 0 <= i < j < |wakeupQueue.members| ==> wakeupQueue.members[i] != wakeupQueue.members[j]
      ensures forall i, j :: 0 <= i < j < |wakeupEventQueue.members| ==>
        wakeupEventQueue.members[i] != wakeupEventQueue.members[j]
      ensures currentTask == null || currentTask in runQueue.members
      ensures running == currentTask
    {
      forall t | t in pool ensures t in runQueue.members || t in wakeupQueue.members || t in wakeupEventQueue.members {
        assert t in Census(Abs());
      }
    }

    constructor ()
      ensures Valid() && Abs() == State([], [], [], None, {}, 0)
    {
      currentTask, running, globalCounter := null, null, 0;
      runQueue := new TaskQueue();
      wakeupQueue := new TaskQueue();
      wakeupEventQueue := new TaskQueue();
      dummyTask := new Task(false);
      pool := {};
    }

    // ---- the wake scans ----

    ghost function QueueOf(rule: Rule): TaskQueue
      reads this
    {
      if rule.TimeUp? then wakeupQueue else wakeupEventQueue
    }

    method VisitSleeper(t: Task, ghost a: Scan<Task>, ghost b: Scan<Task>)
      requires Rings() && a == Scan(Timed(), runQueue.members, a.pos) && Visit(TimeUp, a, b)
      requires t == a.queue[a.pos].task
      modifies runQueue, wakeupQueue, pool`prev, pool`next, t`wakeupAfterMsec
      ensures Rings() && b == Scan(Timed(), runQueue.members, b.pos)
    {
      assert Tasks(a.queue)[a.pos] == t;
      if t.wakeupAfterMsec > TICK_MS {
        t.wakeupAfterMsec := t.wakeupAfterMsec - TICK_MS;
        SameRings();
      } else {
        t.wakeupAfterMsec := 0;
        SameRings();
        assert Entries(true, RemoveAt(wakeupQueue.members, a.pos)) == b.queue;
        Move(wakeupQueue, runQueue, t, a.pos);
        Untouched(wakeupEventQueue);
      }
    }

    method VisitWaiter(event: byte, t: Task, ghost a: Scan<Task>, ghost b: Scan<Task>)
      requires Rings() && a == Scan(Waiting(), runQueue.members, a.pos) && Visit(Raised(event), a, b)
      requires t == a.queue[a.pos].task
      modifies runQueue, wakeupEventQueue, pool`prev, pool`next, t`wakeupAfterEvent
      ensures Rings() && b == Scan(Waiting(), runQueue.members, b.pos)
    {
      assert Tasks(a.queue)[a.pos] == t;
      if t.wakeupAfterEvent == event {
        t.wakeupAfterEvent := 0;
        SameRings();
        assert Entries(false, RemoveAt(wakeupEventQueue.members, a.pos)) == b.queue;
        Move(wakeupEventQueue, runQueue, t, a.pos);
        Untouched(wakeupQueue);
      }
    }

    /** One round of the loop: read the successor before t moves, visit t, and see whether the scan is back
        at the head. */
    method ScanStep(rule: Rule, q: TaskQueue, t: Task, ghost a: Scan<Task>)
      returns (next: Task, more: bool, ghost b: Scan<Task>)
      requires Rings() && q == QueueOf(rule) && a == Scan(Entries(rule.TimeUp?, q.members), runQueue.members, a.pos)
      requires a.pos < |a.queue| && t == a.queue[a.pos].task
      modifies runQueue, q, pool`prev, pool`next
      modifies (if rule.TimeUp? then pool else {})`wakeupAfterMsec
      modifies (if rule.TimeUp? then {} else pool)`wakeupAfterEvent
      ensures Rings() && b == Scan(Entries(rule.TimeUp?, q.members), runQueue.members, b.pos)
      ensures Visit(rule, a, b) && more == !Over(a, b)
      ensures next == a.queue[After(a.pos, |a.queue|)].task
    {
      ghost var i, x := a.pos, a.queue[a.pos];
      Neighbours(q.members, i);
      assert Tasks(a.queue)[i] == t && Tasks(a.queue)[After(i, |a.queue|)] == t.next;
      next := t.next;
      b := if rule.Wakes(x) then Scan(RemoveAt(a.queue, i), a.run + [t], i)
           else Scan(a.queue[i := rule.Passed(x)], a.run, i + 1);
      match rule {
        case TimeUp => VisitSleeper(t, a, b);
        case Raised(event) => VisitWaiter(event, t, a, b);
      }
      more := q.head != null && next != q.head;
    }

    /** The loop of a scan, from the head until it is back there; `h` is what it did, visit by visit. */
    method ScanRing(rule: Rule, q: TaskQueue) returns (ghost h: seq<Scan<Task>>)
      requires Rings() && q == QueueOf(rule) && q.head != null
      modifies runQueue, q, pool`prev, pool`next
      modifies (if rule.TimeUp? then pool else {})`wakeupAfterMsec
      modifies (if rule.TimeUp? then {} else pool)`wakeupAfterEvent
      ensures Rings() && |h| >= 2 && History(rule, h, true)
      ensures h[0] == old(Scan(Entries(rule.TimeUp?, q.members), runQueue.members, 0))
      ensures h[|h| - 1] == Scan(Entries(rule.TimeUp?, q.members), runQueue.members, h[|h| - 1].pos)
    {
      var t, more := q.head, true;
      ghost var a := Scan(Entries(rule.TimeUp?, q.members), runQueue.members, 0);
      h := [a];
      while more
        invariant Rings() && t != null && a == Scan(Entries(rule.TimeUp?, q.members), runQueue.members, a.pos)
        invariant more ==> a.pos < |a.queue| && t == a.queue[a.pos].task
        invariant h != [] && h[|h| - 1] == a && History(rule, h, !more) && (!more ==> |h| >= 2)
        invariant h[0] == old(Scan(Entries(rule.TimeUp?, q.members), runQueue.members, 0))
        decreases |a.queue| - a.pos, more
      {
        ghost var b;
        t, more, b := ScanStep(rule, q, t, a);
        if more {
          GoesOn(rule, a, b);
        }
        HistoryExtends(rule, h, b);
        h, a := h + [b], b;
      }
    }

    /** sched_update_wakeupq wakes exactly the sleepers the model wakes; -1 reports an empty queue. */
    method UpdateWakeupq() returns (status: int)
      requires Rings()
      modifies runQueue, wakeupQueue, pool`prev, pool`next, pool`wakeupAfterMsec
      ensures Rings() && status == (if old(wakeupQueue.members) == [] then -1 else 0)
      ensures Abs() == WakeSleepers(old(Abs()))
    {
      ghost var s := Abs();
      if wakeupQueue.head == null {
        EmptyScan(s, 0);
        return -1;
      }
      ghost var h := ScanRing(TimeUp, wakeupQueue);
      SameWaiters(wakeupEventQueue.members);
      assert Flagged() == s.flagged;
      ScannedState(TimeUp, s, h);
      return 0;
    }

    method UpdateWakeupevq(event: byte) returns (status: int)
      requires Rings()
      modifies runQueue, wakeupEventQueue, pool`prev, pool`next, pool`wakeupAfterEvent
      ensures Rings() && status == (if old(wakeupEventQueue.members) == [] then -1 else 0)
      ensures Abs() == WakeWaiters(old(Abs()), event)
    {
      ghost var s := Abs();
      if wakeupEventQueue.head == null {
        EmptyScan(s, event);
        return -1;
      }
      ghost var h := ScanRing(Raised(event), wakeupEventQueue);
      SameSleepers(wakeupQueue.members);
      assert Flagged() == s.flagged;
      ScannedState(Raised(event), s, h);
      return 0;
    }

    // ---- the processor ----

    /** Whom the processor goes to after c; `next` is the dummy task's, which stands in for a task that has
        just left the run ring. */
    ghost function Successor(c: Task?, next: Task?): Task?
      reads this, runQueue
      requires c == null || c == dummyTask || c in runQueue.members
    {
      var r := runQueue.members;
      if r == [] then null
      else if c == null then r[0]
      else if c in r then r[After(IndexOf(r, c), |r|)]
      else next
    }

    /** schedule(): the blocking calls enter it with the dummy task in place of the task that blocked. */
    method Schedule(cause: Cause)
      requires Rings() && (currentTask == null || currentTask == dummyTask || currentTask in runQueue.members)
      requires currentTask == dummyTask ==> cause == Syscall
      requires currentTask == dummyTask && runQueue.members != [] ==> dummyTask.next in runQueue.members
      requires currentTask != dummyTask ==> running == currentTask
      modifies this`currentTask, this`running
      modifies pool`taskSwitchedInTimeSlice, dummyTask`taskSwitchedInTimeSlice
      ensures Rings() && running == currentTask && Timed() == old(Timed()) && Waiting() == old(Waiting())
      ensures currentTask ==
        if cause == Timer && old(currentTask != null && currentTask.taskSwitchedInTimeSlice) then old(currentTask)
        else old(Successor(currentTask, dummyTask.next))
      ensures forall t :: t in pool ==>
        t.taskSwitchedInTimeSlice ==
          if cause == Syscall && t == currentTask && t != old(currentTask) then true
          else old(t.taskSwitchedInTimeSlice) && t != old(currentTask)
    {
      if cause == Timer && currentTask != null && currentTask.taskSwitchedInTimeSlice {
        currentTask.taskSwitchedInTimeSlice := false;
      } else {
        if currentTask != null {
          currentTask.taskSwitchedInTimeSlice := false;
        }
        if runQueue.head == null {
          if currentTask != null {
            currentTask := null;
            running := null;
          }
        } else if currentTask != null {
          if currentTask != dummyTask {
            Neighbours(runQueue.members, IndexOf(runQueue.members, currentTask));
          }
          if currentTask != currentTask.next {
            currentTask := currentTask.next;
            if cause == Syscall {
              currentTask.taskSwitchedInTimeSlice := true;
            }
            running := currentTask;
          }
        } else {
          currentTask := runQueue.head;
          if cause == Syscall {
            currentTask.taskSwitchedInTimeSlice := true;
          }
          running := currentTask;
        }
      }
      SameRings();
      SameSleepers(wakeupQueue.members);
      SameWaiters(wakeupEventQueue.members);
    }

    method ScheduleTimer()
      requires Rings() && running == currentTask && (currentTask != null ==> currentTask in runQueue.members)
      modifies this`currentTask, this`running
      modifies pool`taskSwitchedInTimeSlice, dummyTask`taskSwitchedInTimeSlice
      ensures Rings() && running == currentTask && Abs() == Rotate(old(Abs()))
    {
      Schedule(Timer);
      assert Flagged() == Rotate(old(Abs())).flagged;
    }

    /** schedule() when the current task has just left the run ring. */
    method ScheduleSyscall()
      requires Rings() && currentTask == dummyTask
      requires runQueue.members != [] ==> dummyTask.next in runQueue.members
      modifies this`currentTask, this`running
      modifies pool`taskSwitchedInTimeSlice, dummyTask`taskSwitchedInTimeSlice
      ensures Rings() && running == currentTask && Timed() == old(Timed()) && Waiting() == old(Waiting())
      ensures currentTask == if runQueue.members == [] then null else old(dummyTask.next)
      ensures Flagged() == old(Flagged()) + if currentTask == null then {} else {currentTask}
    {
      Schedule(Syscall);
    }

    /** The running task moves to q; the dummy task remembers its successor, if it has one. */
    method Detach(q: TaskQueue, ghost i: nat)
      requires Rings() && i < |runQueue.members| && runQueue.members[i] == currentTask
      requires q == wakeupQueue || q == wakeupEventQueue
      modifies runQueue, q, pool`prev, pool`next, dummyTask`next
      ensures Rings() && q.members == old(q.members) + [currentTask]
      ensures runQueue.members == RemoveAt(old(runQueue.members), i)
      ensures runQueue.members != [] ==> dummyTask.next == runQueue.members[if i < |runQueue.members| then i else 0]
    {
      Neighbours(runQueue.members, i);
      if currentTask.next != currentTask {
        dummyTask.next := currentTask.next;
      }
      SameRings();
      Move(runQueue, q, currentTask, i);
      Untouched(if q == wakeupQueue then wakeupEventQueue else wakeupQueue);
    }

    /** The common part of the blocking calls: the current task joins q and its successor takes over. */
    method Suspend(q: TaskQueue, ghost i: nat)
      requires Rings() && i < |runQueue.members| && runQueue.members[i] == currentTask
      requires q == wakeupQueue || q == wakeupEventQueue
      modifies this`currentTask, this`running, runQueue, q
      modifies pool`prev, pool`next, pool`taskSwitchedInTimeSlice, dummyTask`next, dummyTask`taskSwitchedInTimeSlice
      ensures Rings() && running == currentTask && q.members == old(q.members + [currentTask])
      ensures var r := RemoveAt(old(runQueue.members), i);
        && runQueue.members == r
        && currentTask == if r == [] then null else r[if i < |r| then i else 0]
      ensures Flagged() == old(Flagged()) + if currentTask == null then {} else {currentTask}
    {
      Detach(q, i);
      currentTask := dummyTask;
      ScheduleSyscall();
    }

    /** What remains to be said of a step that takes the model's step: the invariant holds again. */
    lemma StepValid(s: State<Task>, e: Event<Task>)
      requires Rings() && running == currentTask && WellFormed(s) && Follows(s, e, Abs())
      requires forall t :: t in pool ==> t in Census(s) || t in Born(e)
      ensures Valid()
    {
      StepPopulation(s, e);
      StepWellFormed(s, e);
    }

    /** The timer interrupt. */
    method DoIrTimer()
      requires Valid()
      modifies this`globalCounter, this`currentTask, this`running, runQueue, wakeupQueue
      modifies pool`prev, pool`next, pool`wakeupAfterMsec, pool`taskSwitchedInTimeSlice
      modifies dummyTask`taskSwitchedInTimeSlice
      ensures Valid() && Follows(old(Abs()), Tick, Abs())
      ensures var before := old(globalCounter);
        globalCounter == before + if before < 0xffff_fff6 then 10 else 10 - 0x1_0000_0000
    {
      ValidWellFormed();
      ghost var s := Abs();
      TakeTick();
      TickTime(s, Abs());
    }

    method TakeTick()
      requires Valid()
      modifies this`globalCounter, this`currentTask, this`running, runQueue, wakeupQueue
      modifies pool`prev, pool`next, pool`wakeupAfterMsec, pool`taskSwitchedInTimeSlice
      modifies dummyTask`taskSwitchedInTimeSlice
      ensures Valid() && Follows(old(Abs()), Tick, Abs())
    {
      ValidWellFormed();
      ghost var s := Abs();
      CountTick();
      var status := UpdateWakeupq();
      ScheduleTimer();
      StepValid(s, Tick);
    }

    method CountTick()
      requires Rings()
      modifies this`globalCounter
      ensures Rings() && Abs() == Elapse(old(Abs()))
    {
      globalCounter := (globalCounter + TICK_MS) % WORD;
      SameRings();
      SameSleepers(wakeupQueue.members);
      SameWaiters(wakeupEventQueue.members);
    }

    /** The scheduler's part of the keyboard interrupt. */
    method SignalEvent(event: byte)
      requires Valid()
      modifies runQueue, wakeupEventQueue, pool`prev, pool`next, pool`wakeupAfterEvent
      ensures Valid() && Follows(old(Abs()), Signal(event), Abs())
    {
      ValidWellFormed();
      ghost var s := Abs();
      var status := UpdateWakeupevq(event);
      StepValid(s, Signal(event));
    }

    /** Suspend, seen from the entries: the task joins q with the field that q is scanned for. */
    method SuspendInto(q: TaskQueue, ghost i: nat)
      requires Rings() && i < |runQueue.members| && runQueue.members[i] == currentTask
      requires q == wakeupQueue || q == wakeupEventQueue
      modifies this`currentTask, this`running, runQueue, q
      modifies pool`prev, pool`next, pool`taskSwitchedInTimeSlice, dummyTask`next, dummyTask`taskSwitchedInTimeSlice
      ensures Rings() && running == currentTask && q.members == old(q.members) + [old(currentTask)]
      ensures var s, c := old(Abs()), old(currentTask);
        Abs() == if q == wakeupQueue then Suspended(s, SleepFor(c.wakeupAfterMsec), i)
                 else Suspended(s, WaitFor(c.wakeupAfterEvent), i)
    {
      ghost var s, c, timed, waiting := Abs(), currentTask, wakeupQueue.members, wakeupEventQueue.members;
      Suspend(q, i);
      SameSleepers(timed);
      SameWaiters(waiting);
      SleepersAppend(timed, c);
      WaitersAppend(waiting, c);
      var e := if q == wakeupQueue then SleepFor(c.wakeupAfterMsec) else WaitFor(c.wakeupAfterEvent);
      SuspendedParts(s, e, i, Abs());
    }

    method WakeupAfterMsec(msec: word)
      requires Valid() && currentTask != null
      modifies this`currentTask, this`running, runQueue, wakeupQueue
      modifies pool`prev, pool`next, pool`wakeupAfterMsec, pool`taskSwitchedInTimeSlice
      modifies dummyTask`next, dummyTask`taskSwitchedInTimeSlice
      ensures Valid() && Follows(old(Abs()), SleepFor(msec), Abs())
      ensures wakeupQueue.members == old(wakeupQueue.members) + [old(currentTask)]
      ensures old(currentTask).wakeupAfterMsec == msec
    {
      ValidWellFormed();
      ghost var s, i := Abs(), IndexOf(runQueue.members, currentTask);
      SuspendForMsec(msec, i);
      SuspendStep(s, SleepFor(msec), i);
      StepValid(s, SleepFor(msec));
    }

    method SuspendForMsec(msec: word, ghost i: nat)
      requires Rings() && i < |runQueue.members| && runQueue.members[i] == currentTask
      modifies this`currentTask, this`running, runQueue, wakeupQueue
      modifies pool`prev, pool`next, pool`wakeupAfterMsec, pool`taskSwitchedInTimeSlice
      modifies dummyTask`next, dummyTask`taskSwitchedInTimeSlice
      ensures Rings() && running == currentTask && Abs() == Suspended(old(Abs()), SleepFor(msec), i)
      ensures wakeupQueue.members == old(wakeupQueue.members) + [old(currentTask)]
      ensures old(currentTask).wakeupAfterMsec == msec
    {
      SetMsec(msec, i);
      SuspendInto(wakeupQueue, i);
    }

    method SetMsec(msec: word, ghost i: nat)
      requires Rings() && i < |runQueue.members| && runQueue.members[i] == currentTask
      modifies pool`wakeupAfterMsec
      ensures Rings() && Abs() == old(Abs()) && currentTask.wakeupAfterMsec == msec
    {
      currentTask.wakeupAfterMsec := msec;
      SameRings();
      SameSleepers(wakeupQueue.members);
      SameWaiters(wakeupEventQueue.members);
    }

    method WakeupAfterEvent(event: byte)
      requires Valid() && currentTask != null
      modifies this`currentTask, this`running, runQueue, wakeupEventQueue
      modifies pool`prev, pool`next, pool`wakeupAfterEvent, pool`taskSwitchedInTimeSlice
      modifies dummyTask`next, dummyTask`taskSwitchedInTimeSlice
      ensures Valid() && Follows(old(Abs()), WaitFor(event), Abs())
      ensures wakeupEventQueue.members == old(wakeupEventQueue.members) + [old(currentTask)]
      ensures old(currentTask).wakeupAfterEvent == event
    {
      ValidWellFormed();
      ghost var s, i := Abs(), IndexOf(runQueue.members, currentTask);
      SuspendForEvent(event, i);
      SuspendStep(s, WaitFor(event), i);
      StepValid(s, WaitFor(event));
    }

    method SuspendForEvent(event: byte, ghost i: nat)
      requires Rings() && i < |runQueue.members| && runQueue.members[i] == currentTask
      modifies this`currentTask, this`running, runQueue, wakeupEventQueue
      modifies pool`prev, pool`next, pool`wakeupAfterEvent, pool`taskSwitchedInTimeSlice
      modifies dummyTask`next, dummyTask`taskSwitchedInTimeSlice
      ensures Rings() && running == currentTask && Abs() == Suspended(old(Abs()), WaitFor(event), i)
      ensures wakeupEventQueue.members == old(wakeupEventQueue.members) + [old(currentTask)]
      ensures old(currentTask).wakeupAfterEvent == event
    {
      SetEvent(event, i);
      SuspendInto(wakeupEventQueue, i);
    }

    method SetEvent(event: byte, ghost i: nat)
      requires Rings() && i < |runQueue.members| && runQueue.members[i] == currentTask
      modifies pool`wakeupAfterEvent
      ensures Rings() && Abs() == old(Abs()) && currentTask.wakeupAfterEvent == event
    {
      currentTask.wakeupAfterEvent := event;
      SameRings();
      SameSleepers(wakeupQueue.members);
      SameWaiters(wakeupEventQueue.members);
    }

    /** sched_runq_enq on a task that task_init has just made; its slice flag has whatever value the fresh
        page held. */
    method Add(t: Task)
      requires Valid() && t !in pool && t != dummyTask
      modifies this`pool, runQueue, pool`prev, pool`next, t`prev, t`next
      ensures Valid() && pool == old(pool) + {t} && Follows(old(Abs()), Create(t, t.taskSwitchedInTimeSlice), Abs())
      ensures runQueue.members == old(runQueue.members) + [t]
    {
      ValidWellFormed();
      ghost var s := Abs();
      assert t !in Census(s);
      EnqueueNew(t);
      StepValid(s, Create(t, t.taskSwitchedInTimeSlice));
    }

    method EnqueueNew(t: Task)
      requires Rings() && t !in pool && t != dummyTask
      modifies this`pool, runQueue, pool`prev, pool`next, t`prev, t`next
      ensures Rings() && pool == old(pool) + {t} && runQueue.members == old(runQueue.members) + [t]
      ensures var s, flags := old(Abs()), old(Flagged()) + if t.taskSwitchedInTimeSlice then {t} else {};
        Abs() == s.(run := s.run + [t], flagged := flags)
    {
      runQueue.Enqueue(t);
      pool := pool + {t};
      Untouched(wakeupQueue);
      Untouched(wakeupEventQueue);
      SameSleepers(wakeupQueue.members);
      SameWaiters(wakeupEventQueue.members);
    }
  }
}
