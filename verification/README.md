# A model of the OS5 kernel, with proofs

This project models the parts of a small 32-bit x86 kernel in which state is shared between tasks, interrupt
handlers and page tables, and proves what they guarantee over every input and every run.

* **Scheduler.** Three circular doubly linked queues (run, timed sleep, event wait) share the `prev`/`next`
  fields of the tasks. Modules `TaskQueues` and `Sched` model them on the heap, link by link; every entry point
  (timer tick, event, sleep, wait, new task) is proved to take exactly one step of the transition system in
  `SchedulerModel`, in which each queue is a sequence. `WakeScan` shows what the loops that delete while they
  traverse amount to, including the scan that ends early because its head was removed. `SleepTiming` and
  `RoundRobin` bound sleeping times and waiting times over all runs of that transition system. Families of runs
  show what the bounds have to contain: the sleepers ahead, a second tick for each stale slice flag, a tick for
  each blocking call and two for each new task. `EventTiming` bounds the wait for an event.
* **Keyboard.** `KeycodeQueues` is the 256-byte ring with byte-sized indices, `Keyboard` the protocol between
  interrupts and blocked readers, `Kernels` the heap objects that implement it, `KeyboardTiming` what holds over whole histories of interrupts and
  system calls. `Console` is the line editor
  with its echo on the screen, `TypedLine` joins the two, `VideoMemory` says where the screen ends and `Printk` is
  the formatter.
* **Memory.** `PageAllocator` is the page allocator and the bump allocator on top of it, `AddressSpace` the
  kernel's page tables in flat memory and the 32-bit table walk (section 4.3 of volume 3A of the Intel SDM),
  `TaskInit` the tables of a new task and why tasks stay apart.
* **Smaller components.** `Numbers` (printing and parsing), `ReceiveRing` (the network card's receive
  descriptors, after section 3.2 of the 8254x developer's manual), `Pci` (enumeration, after section 3.2.2.3.2
  of the PCI Local Bus Specification 3.0).

Code that changes state in place is modelled by classes, arrays and loops, and its methods are proved against
functions and relations on values; the results over whole runs are proved about those.

## How to read the results

Results are stated twice where it helps: through the functions of the model, and in plain numbers, bits, bytes and
addresses (the members whose names end in `Means`, `Exactly` or `Map`, and the `ensures` clauses of the methods with
literal values), so that what the model calls a tick, a cell, an entry or a digit can be checked against the source
directly.

A system call enters the kernel through an interrupt gate, so interrupts stay off until it returns or switches
context (`kernel/intr.c`, `kernel/lock.c`). Each interrupt handler, and each system call up to its context
switch, is therefore one step. The field `running` stands for the context that was switched to last.

Two assumptions go beyond that. Initialisation scans the PCI buses, and calls kmalloc, after it has switched
interrupts on (`kernel/init.c:85-88`), so a timer tick could fall between the search and the store of mem_alloc
there while the shell creates a task; in `PageAllocator` and `TaskInit` each call is one step. And while a reader
waits for a key in get_line, no other task moves the cursor. Other tasks may write to the screen meanwhile; that
the screen shows the line presupposes that they leave the cells of the line alone, as the uptime display does for a
line below row 0: it writes to row 0 or 24 rows above the cursor (`apps/uptime.c:13-22`).

A page fault is modelled where the kernel can run into one: by put_char_pos behind video memory, and by task_init
above 4 MiB once paging is on. The handler prints and then loops for ever, so nothing is promised after a fault.

Where a plausible property does not hold of the code, the exact condition is proved:

* The wake scan stops after one visit if it wakes the head (`SchedulerModel.Woken`), so a sleeper can be late by
  one tick for each sleeper ahead of it; `SleepTiming.LatestWake` reaches that end of the window.
* Two tasks that keep sleeping for one tick each hand the processor to each other and starve a third
  (`RoundRobin.Starvation`), so `RoundRobin.RoundRobinBound` counts blocking calls.
* `task_init` clears one word behind the directory. `TaskInit.OverrunHarmless` says when this damages another
  task's tables; it does not happen as long as no page is freed, which nothing in the kernel does.
* `kmalloc` adds sizes up in 32 bits before it checks the total. `PageAllocator.RegionInPage` says when a region
  lies in its page.
* `itoa` prints the least 32-bit number as "-(" (`Numbers.DecimalRoundTrip`).
* The screen shows the line that is read, over as many rows as it takes, if and only if no backspace erases a
  character across the end of a row and the line does not run past video memory (`Console.EchoExact`).
  `Console.WrapLosesEcho` shows what an erasure across the end of a row leaves behind. Video memory ends in row
  204, at column 64, and no row is used again before the byte-sized row number wraps at 256, so a line that begins in
  between faults at its first character.
* Once paging is on, a task can be created only while its directory, table and descriptor lie below 4 MiB
  (`TaskInit.Creator.TaskInit`).
* The receive ring is larger than a page, so kmalloc never gives the driver the memory for it
  (`ReceiveRing.AllocateRing`); the other results about the ring are about the driver given that memory.
* `printk` reads past the end of a format that stops inside a conversion; `Printk.ParseExact` says which formats
  those are, and `Printk.OutputDefined` which calls print what they should.

## Model

| member | source | states |
|---|---|---|
| SchedulerModel.WokenOrRemaining | kernel/sched.c:168-194 | A wake scan neither loses nor duplicates a task, whether it runs the full round or stops at a woken head. |
| SchedulerModel.StepPopulation | kernel/sched.c:78-300 | No step changes how often a task occurs in the three queues together, except that a new task occurs once more. |
| SchedulerModel.StepWellFormed | kernel/include/task.h:11-15 | Every step keeps every task in exactly one queue, once, and the current task in the run queue. |
| SchedulerModel.RunWellFormed | kernel/include/task.h:11-15 | The same in every state of every run. |
| SchedulerModel.RunConservation | kernel/sched.c:32-300 | Over any run the queues hold exactly the tasks of the start and those created since, each of them once. |
| SchedulerModel.RunClock | kernel/timer.c:9-14 | After any run the counter is its start value plus ten milliseconds per tick, modulo 2 to the 32. |
| SchedulerModel.RunTime | kernel/timer.c:9-14 | The same in numbers: ten for each tick, modulo 0x100000000. |
| SchedulerModel.TicksCounted | kernel/timer.c:9-14 | Ticks are counted as a multiset counts them. |
| SchedulerModel.WellFormedMeans | kernel/include/task.h:11-15 | Position by position: no task is twice in a queue or in two queues, and the current task is in the run queue. |
| SchedulerModel.TickWakes | kernel/timer.c:9-14 | A tick adds ten milliseconds in 32 bits and appends to the run queue only. |
| SchedulerModel.TickMeans | kernel/sched.c:78-120 | Who runs after a tick: the flagged current task loses its flag and stays, any other hands over to the next position of the ring, an idle kernel to the head. |
| SchedulerModel.BlockMeans | kernel/sched.c:196-211 | After a blocking call the next task round the ring runs, with its slice flag set, or nobody. |
| SchedulerModel.OthersMean | kernel/sched.c:32-53 | A signal and a new task leave the processor alone; a new task comes last. |
| SchedulerModel.DueInOrder | kernel/sched.c:178-189 | Sleepers due at the same tick become runnable in queue order. |
| SchedulerModel.SignalledInOrder | kernel/sched.c:269-278 | Waiters for the same event become runnable in queue order. |
| SchedulerModel.IdleOnlyWhenEmpty | kernel/sched.c:78-120 | After a tick the kernel task runs if and only if no task is runnable. |
| SchedulerModel.BlockShape | kernel/sched.c:196-211 | A blocking call puts its caller at the end of one queue and leaves every other task where it was. |
| SleepTiming.TickWhileAsleep | kernel/sched.c:168-194 | One tick wakes a sleeper exactly if it is due and is the head or behind a head that is not due; otherwise ticks to go plus sleepers ahead drop, even when the scan stops early. |
| SleepTiming.WakeWindow | kernel/sched.c:122-211 | In every run a task asleep at position p wakes after at least max(1, ceil(m/10)) ticks and at most p more, or the run has too few ticks. |
| SleepTiming.SleepWindow | kernel/sched.c:168-194 | The window for a caller: never runnable before, runnable at some point within it if the run is long enough. |
| SleepTiming.SleepCallWindow | kernel/sched.c:196-211 | The same from the call of wakeup_after_msec: the sleepers ahead are those asleep at the call. |
| SleepTiming.SleepInMilliseconds | kernel/sched.c:196-211 | The window in milliseconds: not before one tick and ten times the ticks have come up to the time asked for, and not later than as many ticks as others slept ahead. |
| SleepTiming.LatestWake | kernel/sched.c:180-189 | A task behind p due sleepers, with any time m of its own, wakes after exactly max(1, ceil(m/10)) + p ticks if nothing but ticks happens. |
| SleepTiming.WindowIsExact | kernel/sched.c:180-189 | For every time and every number of sleepers ahead there is such a run, so the end of the window is reached in each case. |
| EventTiming.SignalWhileWaiting | kernel/sched.c:259-283 | A signal wakes a waiter exactly if it is its event and the waiter is the head or behind a head that waits for something else. |
| EventTiming.EventWindow | kernel/sched.c:259-300 | Over every run a waiter behind p others becomes runnable with a signal of its event and no other, at the latest with number p + 1. |
| EventTiming.WaitCallWindow | kernel/sched.c:285-300 | The same from the call of wakeup_after_event. |
| RoundRobin.StepTurns | kernel/sched.c:78-120 | Each tick brings a runnable task a turn nearer, in spite of stale slice flags and of wakeups inserted before the head; a blocking call costs at most one turn, a new task two. |
| RoundRobin.RoundRobinBound | kernel/sched.c:32-120 | In every run a runnable task becomes current within twice the number of tasks, plus blocking calls, plus twice the creations, counted in ticks. |
| RoundRobin.Fairness | kernel/sched.c:32-120 | The bound in counts of ticks, blocking calls and new tasks among the events and of the tasks in the three queues. |
| RoundRobin.Starvation | kernel/sched.c:32-53 | For every length there is a run in which two tasks that sleep in turn keep the processor from the head of the run queue. |
| RoundRobin.StaleFlagsCost | kernel/sched.c:80-89 | n runnable tasks with stale slice flags and an idle kernel: the last of them becomes current after 2n - 1 ticks and no earlier. |
| RoundRobin.NewcomersCost | kernel/task.c:110-112 | For every number of new tasks with flags set there is a run in which each of them costs the head of the run queue two ticks. |
| WakeScan.ScanResult | kernel/sched.c:178-189 | The do-while loop that deletes while it walks wakes exactly the tasks of the model, in queue order, and leaves the rest in order. |
| WakeScan.HistoryAt | kernel/sched.c:178-189 | After j visits the first j members have been dealt with and the rest are untouched; the loop ends after one visit if the head woke, otherwise after a full round. |
| TaskQueues.TaskQueue.Enqueue | kernel/sched.c:32-53 | Splices a task in before the head, which appends it to the sequence of members; the ring stays closed in both directions. |
| TaskQueues.TaskQueue.Delete | kernel/sched.c:55-76 | Takes a member out and moves the head on if it was the head; an empty queue is reported; the deleted task keeps its next pointer. |
| TaskQueues.Neighbours | kernel/sched.c:32-76 | In a ring next and prev are the cyclic neighbours; a task is its own successor exactly when it is alone. |
| TaskQueues.TaskQueue.Shape | kernel/sched.c:14-22 | The queue in its fields: head, length modulo 2 to the 32, and the next and prev pointers of each member. |
| Sched.Move | kernel/sched.c:185-186 | A member of one ring becomes the last of another; both stay rings and stay disjoint. |
| Sched.Scheduler.ScanStep | kernel/sched.c:179-189 | One round of either loop is one visit of the model, and the loop condition is false exactly when the scan is over. |
| Sched.Scheduler.ScanRing | kernel/sched.c:178-189 | The loop terminates and its visits form a complete scan. |
| Sched.Scheduler.UpdateWakeupq | kernel/sched.c:168-194 | Wakes exactly the sleepers the model wakes; -1 reports an empty queue. |
| Sched.Scheduler.UpdateWakeupevq | kernel/sched.c:259-283 | The same for waiters of one event type. |
| Sched.Scheduler.Schedule | kernel/sched.c:78-120 | Who is current and who carries the slice flag afterwards, for both causes and with the dummy task as current task; what is current is what was switched to. |
| Sched.Scheduler.Detach | kernel/sched.c:202-206 | The running task changes queues, and the dummy task's next pointer is a live member of the run queue unless that is empty. |
| Sched.Scheduler.DoIrTimer | kernel/timer.c:9-14 | The timer interrupt keeps the rings well formed and disjoint and takes the model's tick. |
| Sched.Scheduler.SignalEvent | kernel/sched.c:259-283 | An event takes the model's signal step and keeps the invariant. |
| Sched.Scheduler.WakeupAfterMsec | kernel/sched.c:196-211 | A sleep takes the model's step and keeps the invariant; the current task is never the dummy afterwards. |
| Sched.Scheduler.WakeupAfterEvent | kernel/sched.c:285-300 | A wait takes the model's step and keeps the invariant. |
| Sched.Scheduler.Add | kernel/task.c:110-112 | A new task enters the run queue as in the model, with whatever slice flag its fresh page holds (kernel/task.c:40). |
| Sched.Scheduler.ValidWellFormed | kernel/include/task.h:11-15 | The heap invariant implies that every task created is in exactly one queue, once. |
| Sched.Scheduler.OneQueueEach | kernel/include/task.h:11-15 | In plain terms: every task created is in exactly one of the three queues, once; the current task is runnable, never the dummy, or null. |
| KeycodeQueues.FirstInFirstOut | kernel/console_io.c:43-76 | Over any sequence of operations what was stored comes out in order, and at most 256 bytes are held. |
| KeycodeQueues.OpMeans | kernel/console_io.c:43-76 | Which scancodes are stored and handed out, operation by operation. |
| KeycodeQueues.KeycodeQueue.FullOrEmpty | kernel/console_io.c:33-37 | With byte-sized indices full and empty are never confused. |
| KeycodeQueues.KeycodeQueue.Enqueue | kernel/console_io.c:43-57 | Appends a scancode; the error status is set exactly when the buffer was full, and then nothing changes. |
| KeycodeQueues.KeycodeQueue.Dequeue | kernel/console_io.c:59-76 | Removes the oldest scancode; the error status is set exactly when there was none. |
| KeycodeQueues.KeycodeQueue.constructor | kernel/console_io.c:92-97 | The buffer starts empty and without an error. |
| Keyboard.KeyInterruptKeeps | kernel/console_io.c:78-90 | An interrupt stores at most one scancode and wakes the reader that has waited longest, so no scancode is stranded. |
| Keyboard.ReadKeeps | kernel/console_io.c:302-319 | A retry of the read takes a scancode or blocks again, and no scancode is stranded. |
| Keyboard.HistorySound | kernel/console_io.c:78-319 | Over any interleaving, whenever a task is blocked on the keyboard there are at most as many scancodes as woken readers still to retry. |
| KeyboardTiming.BufferedKeyIsServed | kernel/console_io.c:302-319 | If a scancode is buffered while somebody waits, a woken reader gets the processor within a bound on the timer interrupts, counted among the actions. |
| KeyboardTiming.SleepInInterrupts | kernel/sched.c:196-211 | Over every history, a task that has called for msec is not runnable before its time in timer interrupts and is runnable at the latest as many later as others slept ahead. |
| KeyboardTiming.ServedInInterrupts | kernel/sched.c:78-120 | Over every history with enough timer interrupts every runnable task becomes current. |
| KeyboardTiming.PendingExact | kernel/console_io.c:302-319 | The readers that are counted are exactly those made runnable by a keyboard interrupt that have not looked at the buffer since. |
| KeyboardTiming.NoKeyStranded | kernel/console_io.c:78-319 | From boot on, whenever somebody waits, the buffer holds at most as many scancodes as there are such readers, all of them runnable. |
| Keyboard.BootIsSound | kernel/console_io.c:92-97 | An empty buffer and no readers is a sound start. |
| Keyboard.SingleReader | kernel/console_io.c:43-319 | Over any history a task that is the only reader has been given, in order and without a gap, the scancodes that found room, except those still in the buffer. |
| Keyboard.ActionMeans | kernel/console_io.c:78-90 | Which actions store and take scancodes, and who gets them. |
| Kernels.Kernel.constructor | kernel/console_io.c:92-97 | The kernel starts with empty queues and an empty buffer, and with the invariant. |
| Kernels.Kernel.DoIrTimer | kernel/timer.c:9-14 | On the heap, the timer interrupt adds ten milliseconds, takes the scheduler's tick and is the protocol's timer action; no scancode is stranded after it. |
| Kernels.Kernel.DoIrKeyboard | kernel/console_io.c:78-90 | On the heap, the keyboard interrupt is the protocol's key action, with or without a byte in the controller, and no scancode is stranded after it. |
| Kernels.Kernel.GetKeydata | kernel/console_io.c:302-319 | One round of the reader's loop is the protocol's read: the oldest scancode, or none and the caller is blocked; no scancode is stranded after it. |
| Kernels.Kernel.WakeupMsec | kernel/sched.c:196-211 | A sleep system call is the protocol's sleep: the caller is last in the sleep queue with the time it asked for, and the scheduler has taken that step. |
| Kernels.Kernel.StartTask | kernel/task.c:110-112 | The end of task creation is the protocol's new task. |
| Console.BackspaceUndoes | kernel/console_io.c:349-365 | A key typed and erased leaves no trace in the line, unless the line was full with it. |
| Console.UpperKeys | kernel/console_io.c:14-18 | What the keys of the upper rows stand for, code by code. |
| Console.LowerKeys | kernel/console_io.c:18-22 | The same for the lower rows. |
| Console.OtherKeys | kernel/console_io.c:22-31 | The same for the remaining keys. |
| Console.InputMeans | kernel/console_io.c:349-365 | What each input does to the line: newline, backspace, character, break code. |
| Console.EndMeans | kernel/console_io.c:349-366 | When the line is full and when it waits. |
| Console.CellBytes | kernel/console_io.c:193-193 | A cell holds the character in its low byte and the attribute in its high byte, 7 or, by sign extension, 0xff. |
| Console.EchoMeans | kernel/console_io.c:351-364 | What a character writes where, and where the cursor goes, in numbers. |
| Console.DisplayMeans | kernel/console_io.c:349-365 | What each input does to screen and cursor. |
| Console.LineIsPlain | kernel/console_io.c:345-369 | The line never holds a newline or a backspace. |
| Console.SkipBreaks | kernel/console_io.c:326-331 | Break codes, and what other tasks draw, do not change what is read; the screen changes by what is drawn only. |
| Console.EditConcat | kernel/console_io.c:345-369 | Line, screen, cursor and faults after a longer stream continue from those after a part of it, so results about streams hold after every key. |
| Console.EditKeys | kernel/console_io.c:345-369 | What other tasks draw meanwhile does not change the line. |
| Console.EchoCursor | kernel/console_io.c:188-217 | A character moves the cursor with the line and rewrites the one cell at its end, over as many rows as there are, or faults exactly if that cell lies behind video memory, as long as nothing is erased across the end of a row. |
| Console.EchoFits | kernel/console_io.c:345-369 | Over any stream, if nothing is erased across the end of a row and the line stays in video memory, the screen shows the line, followed by blanks as far as it has reached; every other cell is what other tasks have drawn or what it was. |
| Console.EchoFaults | kernel/console_io.c:188-194 | Over any stream, if the line outgrows video memory instead, the kernel faults. |
| Console.EchoLost | kernel/console_io.c:351-356 | Over any stream, once a character has been erased across the end of a row, the kernel faults or the cursor never again stands behind the line, whatever is typed and erased. |
| Console.OneRow | kernel/console_io.c:351-356 | A line that stays left of the last column is never erased across the end of a row. |
| Console.EchoExact | kernel/console_io.c:345-369 | Over all streams and buffer sizes, the screen shows the line if and only if nothing is erased across the end of a row and the line stays in video memory. |
| Console.ScreenText | kernel/console_io.c:345-369 | What the screen then holds, cell by cell: the characters of the line, blanks as far as it has reached, everything else as it was, and where the cursor is. |
| Console.ScreenLost | kernel/console_io.c:345-369 | Otherwise the kernel faults or the cursor is not where the line ends. |
| Console.AcrossExactly | kernel/console_io.c:351-356 | Erasing across the end of a row means a backspace that meets a line ending at a multiple of 80 columns. |
| Console.ExtentExactly | kernel/console_io.c:345-369 | The extent is the greatest length that the line has after any part of the inputs. |
| Console.WrapLosesEcho | kernel/console_io.c:349-365 | After any stream, if the character that fills a row is typed and erased, the line is what it was but the character stays on the screen, or the kernel faults. |
| Console.Terminal.PutCharPos | kernel/console_io.c:188-194 | Writes the one cell that the byte-sized coordinates select and no other, or faults exactly if it lies behind video memory. |
| VideoMemory.CellMapped | kernel/memory.c:72-84 | The address of a cell can be written, and is translated to itself, if and only if the cell lies in video memory, with the kernel's directory and with every task's. |
| Console.Terminal.PutChar | kernel/console_io.c:196-220 | The cell and the cursor after a character, a newline, a return, and at the end of a row, and when it faults. |
| Console.Terminal.GetChar | kernel/console_io.c:326-343 | Skips exactly the inputs that end no wait, with what other tasks draw meanwhile, and looks up the first make code. |
| Console.Terminal.Take | kernel/console_io.c:350-364 | What one character does to the buffer, the cursor and the screen, and when it faults; the rest of the buffer is untouched. |
| Console.Terminal.GetLine | kernel/console_io.c:345-369 | For every stream, buffer size and cursor position: it faults exactly when the editor's display does; otherwise the buffer holds what the stack editor holds, terminated and within its size, and screen and cursor are exactly those of the display; and EchoExact says when the screen shows the line. |
| TypedLine.LineIsTyped | kernel/console_io.c:78-369 | Interrupts, buffer, reader and editor together: whatever other tasks draw, the line of an only reader is that of the scancodes stored, as far as they have been read, and line and screen go on from there. |
| Printk.ParseRender | kernel/console_io.c:385-416 | Parsing a format finds the plain characters and conversions it was written from, whatever modifiers they carry. |
| Printk.RenderParse | kernel/console_io.c:385-416 | What is parsed is the format, read up to any point; if nothing can be parsed, the format ends inside a conversion. |
| Printk.ParseExact | kernel/console_io.c:385-416 | A format has no pieces if and only if it is well-formed pieces followed by a percent sign and any number of l; otherwise its pieces are unique. |
| Printk.MeaningDefined | kernel/console_io.c:390-405 | The pieces print something if and only if every argument they take is there and of its kind. |
| Printk.OutputDefined | kernel/console_io.c:377-419 | A call is defined if and only if its format is complete and its arguments are there, and then prints what its pieces mean. |
| Printk.MeaningConcat | kernel/console_io.c:389-412 | Arguments are consumed in order: a format followed by another prints the two outputs, the second from the arguments that the first has left. |
| Printk.LongsTransparent | kernel/console_io.c:406-409 | Two formats that differ in their runs of l only print the same. |
| Printk.PlainMeans | kernel/console_io.c:414-415 | A character other than a percent sign is printed as it is; the empty format prints nothing. |
| Printk.LongMeans | kernel/console_io.c:406-409 | A letter l after a percent sign counts for nothing. |
| Printk.IntegerMeans | kernel/console_io.c:390-396 | %d, %c and %u take an integer and print what reads as that integer in decimal. |
| Printk.BitsMeans | kernel/console_io.c:397-401 | %x takes an integer and prints its 32 bits in hexadecimal. |
| Printk.StringMeans | kernel/console_io.c:402-405 | %s takes a string and prints it up to its terminator. |
| Printk.UnknownMeans | kernel/console_io.c:410-413 | Any other conversion prints nothing and takes nothing. |
| Printk.PutStr | kernel/console_io.c:222-228 | Prints the text before the terminator. |
| Printk.Convert | kernel/console_io.c:390-405 | What each conversion that takes an argument prints, through the number printing of the standard library. |
| Printk.Printk | kernel/console_io.c:377-419 | The loop that steps a pointer forwards and backwards terminates and prints what the parsed format means; the loop gives up exactly where it would read past the format or take an argument that is not there. |
| Numbers.ValueOfNumeral | kernel/stdlib.c:32-54 | The digits printed for a number, read from the left, denote it. |
| Numbers.NumeralIsCanonical | kernel/stdlib.c:9-54 | No leading zero, and no characters but digits of the base. |
| Numbers.Digits | kernel/stdlib.c:20-22 | The digit loop stores the reversed digits, also for the one negative number that reaches it. |
| Numbers.CopyReversed | kernel/stdlib.c:27-29 | Turns the digits round into the caller's buffer, terminated, and leaves the rest of the buffer alone. |
| Numbers.Itoa | kernel/stdlib.c:9-30 | The buffer holds the decimal text of the number as a terminated string. |
| Numbers.Itox | kernel/stdlib.c:37-54 | The buffer holds the hexadecimal text of the number as a terminated string. |
| Numbers.DecimalRoundTrip | kernel/stdlib.c:9-30 | Reading back what itoa prints gives the number if and only if it is not the least one. |
| Numbers.DecimalMeans | kernel/stdlib.c:9-30 | The decimal text digit by digit, with its sign. |
| Numbers.HexMeans | kernel/stdlib.c:37-54 | The hexadecimal text digit by digit. |
| Numbers.ValueMeans | apps/shell.c:123-129 | The value of a text digit by digit. |
| Numbers.ReadMeans | kernel/stdlib.c:9-30 | What reading decimal notation means. |
| Numbers.SignedMeans | apps/shell.c:118-132 | A signed 32-bit variable holds the number of its range with the same 32 bits. |
| Numbers.PowIsPower | apps/shell.c:50-54 | The recursive product on ints is the power, cut to 32 bits. |
| Numbers.StrGetLen | apps/shell.c:68-73 | The length up to the first terminator, counting the terminator. |
| Numbers.AhexStep | apps/shell.c:123-129 | One digit with its weight takes the sum of a prefix to the sum of the next prefix, in 32-bit arithmetic. |
| Numbers.StrConvAhexInt | apps/shell.c:118-132 | The weighted sum of the shell is the number the text denotes, modulo 2 to the 32, for every text. |
| Numbers.HexRoundTrip | kernel/stdlib.c:37-54 | What the kernel prints in hexadecimal the shell reads as the same 32 bits, and as the same number exactly below 2 to the 31. |
| PageAllocator.Allocator.MemAlloc | kernel/memory.c:115-126 | The lowest free page, aligned and in range, or NULL exactly when none is free; only that page becomes used. |
| PageAllocator.Allocator.MemFree | kernel/memory.c:128-132 | Exactly that page becomes free. |
| PageAllocator.Allocator.Kmalloc | kernel/memory.c:134-154 | A new region behind the previous ones in one page taken at the first call; it aborts exactly when no page is free or the 32-bit total exceeds a page. |
| PageAllocator.UnusedIsSound | kernel/memory.c:10-10 | The allocator starts sound. |
| PageAllocator.CallKeepsSound | kernel/memory.c:115-154 | Every call keeps the pages in use equal to those held plus the one that kmalloc cuts up, and never hands out a page that is held. |
| PageAllocator.AllocThenFree | kernel/memory.c:115-132 | Freeing a page just allocated restores the allocator exactly. |
| PageAllocator.HeapRunSound | kernel/memory.c:134-154 | Over any run of calls all kmalloc regions are disjoint and lie in one page that no caller of mem_alloc holds. |
| PageAllocator.RegionInPage | kernel/memory.c:146-153 | A region lies in its page if and only if the sum of sizes did not wrap. |
| AddressSpace.MemInit | kernel/memory.c:25-104 | The directory, the table and everything the loops write behind the table, word by word; all other memory is unchanged. |
| AddressSpace.KernelWalk | kernel/memory.c:25-103 | For every address the walk is the identity or a fault, and the identity on exactly the pages of the loops below 4 MiB. |
| AddressSpace.KernelMap | kernel/memory.c:25-103 | The same in addresses, for reading and for writing. |
| AddressSpace.WalksMean | kernel/memory.c:25-49 | The walks for reading and writing, from the kernel and from privilege level 3, bit by bit. |
| AddressSpace.ClearEntries | kernel/memory.c:32-35 | A clearing loop writes its range and nothing else, and leaves the pointer behind it. |
| AddressSpace.MapEntries | kernel/memory.c:43-52 | A mapping loop writes consecutive frames to consecutive entries and nothing else. |
| TaskInit.WriteTables | kernel/task.c:42-84 | What every word of memory is afterwards, including the word that the directory loop clears behind the directory. |
| TaskInit.OwnIntact | kernel/task.c:42-84 | The new task's own tables and the kernel's survive that word. |
| TaskInit.OverrunHarmless | kernel/task.c:60-63 | Another task's tables survive if and only if the page behind the new directory is not one of them. |
| TaskInit.TaskWalk | kernel/task.c:42-84 | For every address: the file page at 0x20000000, the stack page at 0x20001000, the kernel's own map below 4 MiB, and a fault elsewhere. |
| TaskInit.TaskUserWalk | kernel/task.c:54-80 | From privilege level 3 only the file page and the stack page are reached. |
| TaskInit.TaskMap | kernel/task.c:42-84 | In addresses: a task reads and writes its file and its stack and nothing else; the kernel reads and writes these and its own pages below 4 MiB. |
| TaskInit.NewTask | kernel/task.c:29-84 | A task on the next four pages leaves all earlier tasks' tables as they were. |
| TaskInit.Creator.TaskInit | kernel/task.c:29-112 | Creating a task takes the next four pages of the heap and keeps all tasks' address spaces; with paging on it faults exactly if the directory, the table or the descriptor lies above 4 MiB. |
| TaskInit.Creator.constructor | kernel/init.c:63-75 | After mem_init there are no tasks and the invariant holds. |
| TaskInit.HeapMapped | kernel/memory.c:89-99 | With paging on a heap page can be written, by both read/write bits, if and only if it lies below 4 MiB, with the kernel's directory and with every task's. |
| TaskInit.Creator.Kmalloc | kernel/memory.c:134-154 | A kmalloc in between takes one page at the first call and none later, and disturbs no task; its region lies behind the others in that page, which belongs to no task. |
| TaskInit.Creator.Isolated | kernel/task.c:29-112 | Any two tasks keep their intended address spaces, and neither reaches a page of the other, or of kmalloc, from privilege level 3, other than through its file. |
| TaskInit.Creator.EveryTask | kernel/task.c:29-112 | Whatever has been created, every task can read and write its file and its stack and nothing else, and its four pages are its own. |
| ReceiveRing.AllocateRing | kernel/i825xx.c:251-259 | In every state of the allocator the request for the ring aborts. |
| ReceiveRing.Nic.RxPoll | kernel/i825xx.c:348-393 | Terminates, clears exactly the longest cyclic run of ready slots from the tail, counts it, and leaves the tail and the tail register at the first slot not ready. |
| ReceiveRing.Nic.TakeOne | kernel/i825xx.c:384-391 | The count, the status, the tail and the register after one descriptor. |
| ReceiveRing.TookOneMore | kernel/i825xx.c:352-392 | One more descriptor keeps the description of what a poll has taken, and there are never more than the ring holds. |
| ReceiveRing.TookMeans | kernel/i825xx.c:352-392 | Slot by slot, what has been taken and where the tail is. |
| ReceiveRing.PacketsAccounted | kernel/i825xx.c:348-393 | Over any sequence of fills and polls the count and the ready descriptors together account for every packet delivered. |
| ReceiveRing.InOrderFill | kernel/i825xx.c:348-393 | A card that fills the slot behind the ready ones keeps the ready slots a run from the tail. |
| ReceiveRing.InOrderPoll | kernel/i825xx.c:348-393 | If the card fills the ring in order, a poll takes everything that is there. |
| Pci.AddressInjective | kernel/pci.c:171-183 | Two registers of two functions have the same configuration address only if they are the same. |
| Pci.AddressFields | kernel/pci.c:171-183 | Every field is found in its place in a configuration address, and the reserved bits are zero. |
| Pci.RegistersFromRecord | kernel/pci.c:96-107 | The registers can be put together again from the fields of a record, up to the revision number. |
| Pci.RecordFromRegisters | kernel/pci.c:96-107 | And no other record fits the same registers. |
| Pci.EnumerationExact | kernel/pci.c:251-295 | A record is found if and only if it describes a function that is present in the scanned ranges and not hidden by a single-function function 0. |
| Pci.FoundExactly | kernel/pci.c:251-295 | For 255 buses, 31 devices and 7 functions: a record is found if and only if its fields are those of the registers at offsets 0, 8, 12 and 0x2c of a function that is present and not hidden. |
| Pci.BusesSorted | kernel/pci.c:346-357 | Each function is found once, in the order of bus, device and function. |
| Pci.FoundInOrder | kernel/pci.c:346-357 | Each function is found once, in the order of bus, device and function. |
| Pci.Bus.Store | kernel/pci.c:82-114 | Puts a record at the front of the linked list, or fails when there is no room. |
| Pci.Bus.ReadPciData | kernel/pci.c:131-146 | Reads the register that was asked for. |
| Pci.Bus.FindPciData | kernel/pci.c:251-295 | Adds exactly the functions of one device in order; it aborts if and only if there is no room for them. |
| Pci.Bus.FindPciDevice | kernel/pci.c:346-357 | The list holds what enumeration finds, if there is room for all of it. |
| Pci.Bus.GetPciDevice | kernel/pci.c:382-394 | The last function found that matches, or none exactly when none matches. |

## Left out

- The three pairs of queue functions in kernel/sched.c are one class, `TaskQueues.TaskQueue`: their bodies are the same up to the name of the queue.
- Context switches, TSS and descriptor contents, and the GDT slot of a new task (kernel/task.c:86-109): they lie in the task's own descriptor page, which no table occupies. The limit of the GDT on the number of tasks is not modelled.
- kern_lock and kern_unlock: steps are atomic, as explained above. Interrupts arriving inside the wake scans of a system call cannot occur.
- Ports, memory-mapped registers, the interrupt controller, the cursor registers (`update_cursor`), inline assembly and boot code. What a port delivers is a parameter.
- KERN_ABORT's endless loop is a result (`None` or `false`), and nothing is promised about the state then.
- Console.Terminal.GetLine: on a finite stream of scancodes and of what other tasks draw; a stream that ends while a key is awaited gives `done` false, and the contract says what holds at that point. A buffer size of 0, for which the bound of the loop wraps, is not covered.
- Console.EchoExact: for a cursor that starts left of column 80, and for fewer inputs than make a row or column number wrap at 2 to the 32. `Console.Terminal.GetLine` says what the screen is in all other cases as well.
- Console.Terminal.Take: the character is one that the keymap can give; it never gives a carriage return.
- Kernels.Kernel.GetKeydata: one round of the loop of the source; a blocked caller continues with another round when it is current again.
- Printk.Printk: the output is the sequence of characters given to put_char, whose effect on the screen is `Console.Terminal.PutChar`; what a call with an undefined meaning has printed before is not described.
- TaskInit.Creator.TaskInit: with four free pages; the source does not check mem_alloc's result. The file is represented by the address of its data.
- AddressSpace.MemInit: runs before paging is switched on, so its writes are to physical memory. Physical memory ends at 16 MiB.
- PageAllocator.Allocator.MemAlloc: tests the bound before the table, the source the table before the bound (kernel/memory.c:119), which reads one byte behind the table when no page is free.
- ReceiveRing.Nic.RxPoll: the card sets no bits during the call; the length, error and end-of-packet tests only print messages, as nothing uses the drop flag. Transmission, initialisation and the interrupt handler are left out.
- Pci.Bus.FindPciDevice: configuration space is stable, the scanned ranges are a parameter that the constructor sets to the kernel's (kernel/pci.c:21-23), and `room` says how many list nodes kmalloc can still give.
- show_all_pci_device, base address registers and pci_data_write: printing and stubs.
- kernel/ata.c: register polling of a device whose behaviour the source does not fix.
- kernel/block_driver.c: registration is a list like that of `Pci`; removal neither unlinks nor advances.
- kernel/queue.c, kernel/fs.c, kernel/common.c, kernel/string.c: a simpler ring and plain string loops.
- put_str_pos, dump_hex, get_keycode, get_keycode_released: variants of what is modelled.
- The shell's commands and argument splitting (apps/shell.c:75-116), the uptime display, exception handlers and busy-wait timers.
