/** The interrupt handlers and system calls that share the scheduler and the keycode buffer. */
module Kernels {
  import opened Common
  import opened SchedulerModel
  import opened TaskQueues
  import opened Sched
  import opened KeycodeQueues
  import opened Keyboard

  class Kernel {
    const scheduler: Scheduler
    const keycodes: KeycodeQueue
    ghost var pending: set<Task>

    ghost predicate Intact()
      reads this, scheduler, scheduler.runQueue, scheduler.wakeupQueue, scheduler.wakeupEventQueue, scheduler.pool
      reads scheduler.runQueue.members, scheduler.wakeupQueue.members, scheduler.wakeupEventQueue.members, keycodes
    {
      scheduler.Valid() && keycodes.Valid()
    }

    ghost function Abs(): Machine<Task>
      reads this, scheduler, scheduler.runQueue, scheduler.wakeupQueue, scheduler.wakeupEventQueue, scheduler.pool
      reads scheduler.wakeupQueue.members, scheduler.wakeupEventQueue.members
      reads keycodes, keycodes.buf
      requires keycodes.Valid()
    {
      Machine(scheduler.Abs(), keycodes.Contents(), pending)
    }

    /** Between two steps no scancode is stranded. */
    ghost predicate Valid()
      reads this, scheduler, scheduler.runQueue, scheduler.wakeupQueue, scheduler.wakeupEventQueue, scheduler.pool
      reads scheduler.runQueue.members, scheduler.wakeupQueue.members, scheduler.wakeupEventQueue.members
      reads keycodes, keycodes.buf
    {
      Intact() && Sound(Abs())
    }

    constructor ()
      ensures Valid() && Abs() == Machine(State([], [], [], None, {}, 0), [], {})
    {
      scheduler := new Scheduler();
      keycodes := new KeycodeQueue();
      pending := {};
      new;
      scheduler.ValidWellFormed();
      BootIsSound(scheduler.Abs());
    }

    /** A step of the scheduler completes an action of the protocol, which keeps the invariant. */
    lemma Completes(m: Machine<Task>, a: Action<Task>, e: Event<Task>)
      requires Intact() && Sound(m) && Possible(m, a) && Seen(m, a) == [e] && Follows(m.sched, e, scheduler.Abs())
      requires keycodes.Contents() == NextKeys(m, a) && pending == NextPending(m, a)
      ensures Valid() && Acts(m, a, Abs())
    {
      ActKeepsSound(m, a, Abs());
    }

    /** So does a read that finds a scancode and needs no step. */
    lemma CompletesRead(m: Machine<Task>)
      requires Intact() && Sound(m) && m.sched.current.Some? && m.keys != [] && scheduler.Abs() == m.sched
      requires keycodes.Contents() == NextKeys(m, Read) && pending == NextPending(m, Read)
      ensures Valid() && Acts(m, Read, Abs())
    {
      ActKeepsSound(m, Read, Abs());
    }

    /** The scheduler does not depend on the keycode buffer. */
    twostate lemma SchedulerUntouched()
      requires old(scheduler.Valid()) && unchanged(scheduler) && unchanged(scheduler.pool)
      requires unchanged(scheduler.runQueue) && unchanged(scheduler.wakeupQueue) && unchanged(scheduler.wakeupEventQueue)
      requires unchanged(scheduler.runQueue.members)
      requires unchanged(scheduler.wakeupQueue.members) && unchanged(scheduler.wakeupEventQueue.members)
      ensures scheduler.Valid() && scheduler.Abs() == old(scheduler.Abs())
    {
    }

    twostate lemma BufferUntouched()
      requires old(keycodes.Valid()) && unchanged(keycodes) && unchanged(keycodes.buf)
      ensures keycodes.Valid() && keycodes.Contents() == old(keycodes.Contents())
    {
    }

    method DoIrTimer()
      requires Valid()
      modifies scheduler`globalCounter, scheduler`currentTask, scheduler`running
      modifies scheduler.runQueue, scheduler.wakeupQueue
      modifies scheduler.pool`prev, scheduler.pool`next
      modifies scheduler.pool`wakeupAfterMsec, scheduler.pool`taskSwitchedInTimeSlice
      modifies scheduler.dummyTask`taskSwitchedInTimeSlice
      ensures Valid() && Acts(old(Abs()), TimerInterrupt, Abs())
      ensures Follows(old(scheduler.Abs()), Tick, scheduler.Abs())
      ensures var before := old(scheduler.globalCounter);
        scheduler.globalCounter == before + if before < 0xffff_fff6 then 10 else 10 - 0x1_0000_0000
    {
      ghost var m := Abs();
      TakeTick();
      Completes(m, TimerInterrupt, Tick);
    }

    method TakeTick()
      requires Intact()
      modifies scheduler`globalCounter, scheduler`currentTask, scheduler`running
      modifies scheduler.runQueue, scheduler.wakeupQueue
      modifies scheduler.pool`prev, scheduler.pool`next
      modifies scheduler.pool`wakeupAfterMsec, scheduler.pool`taskSwitchedInTimeSlice
      modifies scheduler.dummyTask`taskSwitchedInTimeSlice
      ensures Intact() && keycodes.Contents() == old(keycodes.Contents())
      ensures Follows(old(scheduler.Abs()), Tick, scheduler.Abs())
      ensures var before := old(scheduler.globalCounter);
        scheduler.globalCounter == before + if before < 0xffff_fff6 then 10 else 10 - 0x1_0000_0000
    {
      scheduler.DoIrTimer();
      BufferUntouched();
    }

    /** do_ir_keyboard: `ready` and `data` are what the controller's status and data ports give. */
    method DoIrKeyboard(ready: bool, data: byte)
      requires Valid()
      modifies this`pending, keycodes, keycodes.buf, scheduler.runQueue, scheduler.wakeupEventQueue
      modifies scheduler.pool`prev, scheduler.pool`next, scheduler.pool`wakeupAfterEvent
      ensures Valid() && Acts(old(Abs()), KeyInterrupt(ready, data), Abs())
      ensures Follows(old(scheduler.Abs()), Signal(1), scheduler.Abs())
      ensures var before := old(keycodes.Contents());
        keycodes.Contents() == if ready && |before| < 256 then before + [data] else before
    {
      ghost var m := Abs();
      StoreKey(ready, data);
      WakeReader();
      Completes(m, KeyInterrupt(ready, data), Signal(EVENT_TYPE_KBD));
    }

    method WakeReader()
      requires Intact()
      modifies scheduler.runQueue, scheduler.wakeupEventQueue
      modifies scheduler.pool`prev, scheduler.pool`next, scheduler.pool`wakeupAfterEvent
      ensures Intact() && keycodes.Contents() == old(keycodes.Contents())
      ensures Follows(old(scheduler.Abs()), Signal(EVENT_TYPE_KBD), scheduler.Abs())
    {
      scheduler.SignalEvent(EVENT_TYPE_KBD);
      BufferUntouched();
    }

    method StoreKey(ready: bool, data: byte)
      requires Intact()
      modifies this`pending, keycodes, keycodes.buf
      ensures Intact() && scheduler.Abs() == old(scheduler.Abs())
      ensures keycodes.Contents() == NextKeys(old(Abs()), KeyInterrupt(ready, data))
      ensures var before := old(keycodes.Contents());
        keycodes.Contents() == if ready && |before| < 256 then before + [data] else before
      ensures pending == NextPending(old(Abs()), KeyInterrupt(ready, data))
    {
      ghost var woken := NextPending(Abs(), KeyInterrupt(ready, data));
      if ready {
        keycodes.Enqueue(data);
      }
      pending := woken;
      SchedulerUntouched();
    }

    /** One round of the loop in get_keydata: a scancode, or none after the caller has been blocked. */
    method GetKeydata() returns (key: Option<byte>)
      requires Valid() && scheduler.currentTask != null
      modifies this`pending, keycodes
      modifies scheduler`currentTask, scheduler`running, scheduler.runQueue, scheduler.wakeupEventQueue
      modifies scheduler.pool`prev, scheduler.pool`next
      modifies scheduler.pool`wakeupAfterEvent, scheduler.pool`taskSwitchedInTimeSlice
      modifies scheduler.dummyTask`next, scheduler.dummyTask`taskSwitchedInTimeSlice
      ensures Valid() && Acts(old(Abs()), Read, Abs())
      ensures var buffer := old(keycodes.Contents());
        if buffer == [] then
          && key == None && keycodes.Contents() == []
          && Follows(old(scheduler.Abs()), WaitFor(1), scheduler.Abs())
        else key == Some(buffer[0]) && keycodes.Contents() == buffer[1..] && scheduler.Abs() == old(scheduler.Abs())
    {
      ghost var m := Abs();
      var data := TakeKey();
      if keycodes.errorStatus {
        Await(EVENT_TYPE_KBD);
        Completes(m, Read, WaitFor(EVENT_TYPE_KBD));
        return None;
      }
      CompletesRead(m);
      return Some(data);
    }

    method Await(event: byte)
      requires Intact() && scheduler.currentTask != null
      modifies scheduler`currentTask, scheduler`running, scheduler.runQueue, scheduler.wakeupEventQueue
      modifies scheduler.pool`prev, scheduler.pool`next
      modifies scheduler.pool`wakeupAfterEvent, scheduler.pool`taskSwitchedInTimeSlice
      modifies scheduler.dummyTask`next, scheduler.dummyTask`taskSwitchedInTimeSlice
      ensures Intact() && keycodes.Contents() == old(keycodes.Contents())
      ensures Follows(old(scheduler.Abs()), WaitFor(event), scheduler.Abs())
    {
      scheduler.WakeupAfterEvent(event);
      BufferUntouched();
    }

    method TakeKey() returns (data: byte)
      requires Intact() && scheduler.currentTask != null
      modifies this`pending, keycodes
      ensures keycodes.Valid() && scheduler.Valid() && scheduler.Abs() == old(scheduler.Abs())
      ensures keycodes.Contents() == NextKeys(old(Abs()), Read) && pending == NextPending(old(Abs()), Read)
      ensures keycodes.errorStatus <==> old(Abs()).keys == []
      ensures !keycodes.errorStatus ==> data == old(Abs()).keys[0]
    {
      ghost var others := NextPending(Abs(), Read);
      data := keycodes.Dequeue();
      pending := others;
      SchedulerUntouched();
    }

    method WakeupMsec(msec: word)
      requires Valid() && scheduler.currentTask != null && scheduler.currentTask !in pending
      modifies scheduler`currentTask, scheduler`running, scheduler.runQueue, scheduler.wakeupQueue
      modifies scheduler.pool`prev, scheduler.pool`next
      modifies scheduler.pool`wakeupAfterMsec, scheduler.pool`taskSwitchedInTimeSlice
      modifies scheduler.dummyTask`next, scheduler.dummyTask`taskSwitchedInTimeSlice
      ensures Valid() && Acts(old(Abs()), Sleep(msec), Abs())
      ensures Follows(old(scheduler.Abs()), SleepFor(msec), scheduler.Abs())
      ensures scheduler.wakeupQueue.members == old(scheduler.wakeupQueue.members) + [old(scheduler.currentTask)]
      ensures old(scheduler.currentTask).wakeupAfterMsec == msec
    {
      ghost var m := Abs();
      FallAsleep(msec);
      Completes(m, Sleep(msec), SleepFor(msec));
    }

    method FallAsleep(msec: word)
      requires Intact() && scheduler.currentTask != null
      modifies scheduler`currentTask, scheduler`running, scheduler.runQueue, scheduler.wakeupQueue
      modifies scheduler.pool`prev, scheduler.pool`next
      modifies scheduler.pool`wakeupAfterMsec, scheduler.pool`taskSwitchedInTimeSlice
      modifies scheduler.dummyTask`next, scheduler.dummyTask`taskSwitchedInTimeSlice
      ensures Intact() && keycodes.Contents() == old(keycodes.Contents())
      ensures Follows(old(scheduler.Abs()), SleepFor(msec), scheduler.Abs())
      ensures scheduler.wakeupQueue.members == old(scheduler.wakeupQueue.members) + [old(scheduler.currentTask)]
      ensures old(scheduler.currentTask).wakeupAfterMsec == msec
    {
      scheduler.WakeupAfterMsec(msec);
      BufferUntouched();
    }

    /** The last line of task_init. */
    method StartTask(t: Task)
      requires Valid() && t !in scheduler.pool && t != scheduler.dummyTask
      modifies scheduler`pool, scheduler.runQueue, scheduler.pool`prev, scheduler.pool`next, t`prev, t`next
      ensures Valid() && scheduler.pool == old(scheduler.pool) + {t}
      ensures Acts(old(Abs()), Exec(t, t.taskSwitchedInTimeSlice), Abs())
      ensures Follows(old(scheduler.Abs()), Create(t, t.taskSwitchedInTimeSlice), scheduler.Abs())
    {
      ghost var m, flag := Abs(), t.taskSwitchedInTimeSlice;
      AddTask(t);
      Completes(m, Exec(t, flag), Create(t, flag));
    }

    method AddTask(t: Task)
      requires Intact() && t !in scheduler.pool && t != scheduler.dummyTask
      modifies scheduler`pool, scheduler.runQueue, scheduler.pool`prev, scheduler.pool`next, t`prev, t`next
      ensures Intact() && keycodes.Contents() == old(keycodes.Contents()) && scheduler.pool == old(scheduler.pool) + {t}
      ensures Follows(old(scheduler.Abs()), Create(t, t.taskSwitchedInTimeSlice), scheduler.Abs())
    {
      scheduler.Add(t);
      BufferUntouched();
    }
  }
}
