/** Task creation: the address space that task_init builds, and why tasks do not touch each other's. */
module TaskInit {
  import opened Common
  import opened PageAllocator
  import opened AddressSpace

  const USER_FLAGS: word := PRESENT + READ_WRITE + USER
  const USER_DIRECTORY_INDEX: nat := 0x080

  /** A task as the paging hardware sees it: the heap pages of its directory, table, descriptor and stack,
      and the frame of the file it runs. */
  datatype Space = Space(id: nat, directory: nat, table: nat, info: nat, stack: nat, file: frame) {
    ghost predicate InHeap() {
      directory < MAX_HEAP_PAGES && table < MAX_HEAP_PAGES && info < MAX_HEAP_PAGES && stack < MAX_HEAP_PAGES
    }

    /** The value of cr3 in the task's TSS. */
    function Cr3(): word
      requires InHeap()
    {
      PageAddr(directory) + 0x18
    }
  }

  /** The frame of a heap page. */
  function HeapFrame(page: nat): frame
    requires page < MAX_HEAP_PAGES
  {
    0x100 + page
  }

  predicate IsPage(addr: word, n: nat) {
    && HEAP_START_ADDR <= addr && n < MAX_HEAP_PAGES && addr == PageAddr(n)
    && PageOf(addr) == n && FrameOf(addr) == HeapFrame(n)
  }

  lemma HeapFrameOf(addr: word)
    requires HEAP_START_ADDR <= addr < 0x00f0_0000 && addr % PAGE_SIZE == 0
    ensures PageOf(addr) < MAX_HEAP_PAGES && FrameOf(addr) == HeapFrame(PageOf(addr))
  {
  }

  /** The heap pages below 4 MiB. */
  const MAPPED_HEAP_PAGES: nat := 0x300

  /** Whether the kernel can write to an address. */
  predicate Mapped(mem: seq<word>, addr: word) {
    WriteWalk(mem, KERNEL_DIRECTORY, addr).Some?
  }

  /** With paging on, only the first pages of the heap can be written, whether the kernel runs or a task. */
  lemma HeapMapped(mem: seq<word>, n: nat)
    requires KernelTables(mem) && n < MAX_HEAP_PAGES
    ensures Mapped(mem, PageAddr(n)) <==> n < 0x300
    ensures WriteWalk(mem, 0x8_f000, 0x10_0000 + n * 0x1000).Some? <==> n < 0x300
    ensures forall t: Space :: Intact(mem, t) ==>
      (WriteWalk(mem, t.Cr3(), 0x10_0000 + n * 0x1000).Some? <==> n < 0x300)
  {
    HeapPageNumber(n);
    KernelWalk(mem, PageAddr(n));
    forall t: Space | Intact(mem, t)
      ensures WriteWalk(mem, t.Cr3(), 0x10_0000 + n * 0x1000).Some? <==> n < 0x300
    {
      TaskWalk(mem, t, PageAddr(n));
    }
  }

  lemma HeapPageNumber(n: nat)
    requires n < MAX_HEAP_PAGES
    ensures PageAddr(n) / PAGE_SIZE == HeapFrame(n) && PageAddr(n) < 0x00f0_0000
    ensures PageAddr(n) < 0x0040_0000 <==> n < MAPPED_HEAP_PAGES
  {
  }

  /** The four heap pages that are a task's alone. */
  function Pages(t: Space): set<nat> {
    {t.directory, t.table, t.info, t.stack}
  }

  /** The four frames that are a task's alone. */
  function HeapFrames(t: Space): set<frame>
    requires t.InHeap()
  {
    {HeapFrame(t.directory), HeapFrame(t.table), HeapFrame(t.info), HeapFrame(t.stack)}
  }

  lemma PageAligned(addr: word)
    requires HEAP_START_ADDR <= addr < 0x00f0_0000 && addr % PAGE_SIZE == 0
    ensures addr == PageAddr(PageOf(addr))
  {
  }

  function DirectoryWord(i: nat, table: frame): word {
    if i == 0 then Entry(0x00090, PRESENT + READ_WRITE)
    else if i == USER_DIRECTORY_INDEX then Entry(table, USER_FLAGS)
    else 0
  }

  function TableWord(i: nat, file: frame, stack: frame): word {
    if i == 0 then Entry(file, USER_FLAGS)
    else if i == 1 then Entry(stack, USER_FLAGS)
    else 0
  }

  /** The task's own tables are in memory as task_init leaves them. */
  ghost predicate Intact(mem: seq<word>, t: Space) {
    && t.InHeap()
    && (forall i :: 0 <= i < ENTRIES ==> EntryAt(mem, HeapFrame(t.directory), i) == DirectoryWord(i, HeapFrame(t.table)))
    && (forall i :: 0 <= i < ENTRIES ==> EntryAt(mem, HeapFrame(t.table), i) == TableWord(i, t.file, HeapFrame(t.stack)))
  }

  /** The intended address space: the file at 0x20000000, the stack at 0x20001000, the kernel's own pages
      below 4 MiB, and nothing else. */
  function Intended(t: Space, va: word): Option<word>
    requires t.InHeap()
  {
    if va < 0x40_0000 then (if KernelPage(va / PAGE_SIZE) then Some(va) else None)
    else if va / PAGE_SIZE == 0x20000 then Some(t.file * PAGE_SIZE + Offset(va))
    else if va / PAGE_SIZE == 0x20001 then Some(PageAddr(t.stack) + Offset(va))
    else None
  }

  lemma TaskWalk(mem: seq<word>, t: Space, va: word)
    requires KernelTables(mem) && Intact(mem, t)
    ensures Walk(mem, t.Cr3(), va) == WriteWalk(mem, t.Cr3(), va) == Intended(t, va)
  {
    var d, i := DirectoryIndex(va), TableIndex(va);
    assert FrameOf(t.Cr3()) == HeapFrame(t.directory);
    assert EntryAt(mem, HeapFrame(t.directory), d) == DirectoryWord(d, HeapFrame(t.table));
    EntryFields(0x00090, PRESENT + READ_WRITE);
    EntryFields(HeapFrame(t.table), USER_FLAGS);
    if d == 0 {
      KernelWalk(mem, va);
      assert EntryAt(mem, FrameOf(KERNEL_DIRECTORY), 0) == KernelDirectoryEntry(0);
    } else if d == USER_DIRECTORY_INDEX {
      assert EntryAt(mem, HeapFrame(t.table), i) == TableWord(i, t.file, HeapFrame(t.stack));
      EntryFields(t.file, USER_FLAGS);
      EntryFields(HeapFrame(t.stack), USER_FLAGS);
      assert va / PAGE_SIZE == 0x20000 + i;
    }
  }

  /** From privilege level 3 a task reaches its file page and its stack page and no other address. */
  lemma TaskUserWalk(mem: seq<word>, t: Space, va: word)
    requires KernelTables(mem) && Intact(mem, t)
    ensures UserWalk(mem, t.Cr3(), va) == UserWriteWalk(mem, t.Cr3(), va)
    ensures UserWalk(mem, t.Cr3(), va) == if va < 0x40_0000 then None else Intended(t, va)
  {
    var d, i := DirectoryIndex(va), TableIndex(va);
    TaskWalk(mem, t, va);
    assert FrameOf(t.Cr3()) == HeapFrame(t.directory);
    assert EntryAt(mem, HeapFrame(t.directory), d) == DirectoryWord(d, HeapFrame(t.table));
    EntryFields(0x00090, PRESENT + READ_WRITE);
    EntryFields(HeapFrame(t.table), USER_FLAGS);
    if d == USER_DIRECTORY_INDEX {
      assert EntryAt(mem, HeapFrame(t.table), i) == TableWord(i, t.file, HeapFrame(t.stack));
      EntryFields(t.file, USER_FLAGS);
      EntryFields(HeapFrame(t.stack), USER_FLAGS);
    }
  }

  /** The same in addresses. The kernel reads and writes the file at 0x20000000, the stack at 0x20001000 and its own
      pages below 4 MiB; the task, from privilege level 3, reads and writes its file and its stack; everything else
      is a fault. */
  lemma TaskMap(mem: seq<word>, t: Space, va: word)
    requires KernelTables(mem) && Intact(mem, t)
    ensures t.Cr3() == 0x10_0000 + t.directory * 0x1000 + 0x18
    ensures var own :=
        if 0x2000_0000 <= va < 0x2000_1000 then Some(t.file * 0x1000 + (va - 0x2000_0000))
        else if 0x2000_1000 <= va < 0x2000_2000 then Some(0x10_0000 + t.stack * 0x1000 + (va - 0x2000_1000))
        else None;
      var kernel := 0x7000 <= va < 0x8_6000 || 0x9_5000 <= va < 0xa_0000 || 0xb_8000 <= va < 0xc_0000
        || 0x10_0000 <= va < 0x40_0000;
      && UserWalk(mem, t.Cr3(), va) == own && UserWriteWalk(mem, t.Cr3(), va) == own
      && Walk(mem, t.Cr3(), va) == (if kernel then Some(va) else own)
      && WriteWalk(mem, t.Cr3(), va) == (if kernel then Some(va) else own)
  {
    TaskWalk(mem, t, va);
    TaskUserWalk(mem, t, va);
    PageNumber(va);
  }

  lemma PageNumber(va: word)
    ensures va / PAGE_SIZE == 0x20000 <==> 0x2000_0000 <= va < 0x2000_1000
    ensures va / PAGE_SIZE == 0x20001 <==> 0x2000_1000 <= va < 0x2000_2000
    ensures va / PAGE_SIZE == 0x20000 ==> Offset(va) == va - 0x2000_0000
    ensures va / PAGE_SIZE == 0x20001 ==> Offset(va) == va - 0x2000_1000
    ensures var kernel := 0x7000 <= va < 0x8_6000 || 0x9_5000 <= va < 0xa_0000 || 0xb_8000 <= va < 0xc_0000
        || 0x10_0000 <= va < 0x40_0000;
      va < 0x40_0000 ==> KernelPage(va / PAGE_SIZE) == kernel
  {
  }

  /** What the two initialisations of task_init leave at word w: the directory loop has zeroed the word
      behind the directory before the table is written. */
  function Written(w: nat, before: word, directory: frame, table: frame, file: frame, stack: frame): word {
    if WordOf(table) <= w < WordOf(table) + ENTRIES then TableWord(w - WordOf(table), file, stack)
    else if WordOf(directory) <= w < WordOf(directory) + ENTRIES then DirectoryWord(w - WordOf(directory), table)
    else if w == WordOf(directory) + ENTRIES then 0
    else before
  }

  method WriteTables(mem: array<word>, directory: frame, table: frame, file: frame, stack: frame)
    requires mem.Length == MEMORY_WORDS && directory != table
    requires WordOf(directory) + ENTRIES < MEMORY_WORDS && WordOf(table) + ENTRIES <= MEMORY_WORDS
    modifies mem
    ensures forall w :: 0 <= w < MEMORY_WORDS ==> mem[w] == Written(w, old(mem[w]), directory, table, file, stack)
    ensures mem[table * 1024] == file * 0x1000 + 7 && mem[table * 1024 + 1] == stack * 0x1000 + 7
    ensures forall w :: table * 1024 + 2 <= w < table * 1024 + 1024 ==> mem[w] == 0
    ensures mem[directory * 1024] == 0x9_0003 && mem[directory * 1024 + 0x80] == table * 0x1000 + 7
    ensures forall w :: directory * 1024 < w < directory * 1024 + 1024 && w != directory * 1024 + 0x80 ==> mem[w] == 0
    ensures directory + 1 != table ==> mem[directory * 1024 + 1024] == 0
    ensures forall w :: 0 <= w < mem.Length ==>
      table * 1024 <= w < table * 1024 + 1024 || directory * 1024 <= w <= directory * 1024 + 1024 || mem[w] == old(mem[w])
  {
    var pde := WordOf(directory);
    mem[pde] := Entry(0x00090, PRESENT + READ_WRITE);
    pde := pde + 1;
    pde := ClearEntries(mem, pde, 0x080 - 1);
    mem[pde] := Entry(table, USER_FLAGS);
    pde := pde + 1;
    // the counter still stands at 0x080, so this loop goes one entry too far
    pde := ClearEntries(mem, pde, 0x400 - 0x080);

    var pte := WordOf(table);
    mem[pte] := Entry(file, USER_FLAGS);
    pte := pte + 1;
    mem[pte] := Entry(stack, USER_FLAGS);
    pte := pte + 1;
    pte := ClearEntries(mem, pte, 0x400 - 2);
  }

  ghost predicate Apart(t: Space, u: Space) {
    Pages(t) !! Pages(u)
  }

  /** `after` is `before` with u's tables written. */
  ghost predicate TablesWritten(before: seq<word>, after: seq<word>, u: Space) {
    && u.InHeap() && |before| == |after| == MEMORY_WORDS
    && forall w :: 0 <= w < MEMORY_WORDS ==>
         after[w] == Written(w, before[w], HeapFrame(u.directory), HeapFrame(u.table), u.file, HeapFrame(u.stack))
  }

  lemma OwnIntact(before: seq<word>, after: seq<word>, u: Space)
    requires u.InHeap() && u.directory != u.table && TablesWritten(before, after, u)
    ensures Intact(after, u)
    ensures KernelTables(before) ==> KernelTables(after)
  {
    var k := FrameOf(KERNEL_DIRECTORY);
    if KernelTables(before) {
      forall i | 0 <= i < ENTRIES ensures EntryAt(after, k, i) == KernelDirectoryEntry(i) {
        assert EntryAt(before, k, i) == KernelDirectoryEntry(i);
      }
      forall i | 0 <= i < ENTRIES ensures EntryAt(after, FrameOf(KERNEL_TABLE), i) == KernelEntry(i) {
        assert EntryAt(before, FrameOf(KERNEL_TABLE), i) == KernelEntry(i);
      }
    }
  }

  /**
   Because of the word too many, writing u's tables leaves another task's tables alone if and only if the
   page behind u's directory is not one of them.
   */
  lemma OverrunHarmless(before: seq<word>, after: seq<word>, t: Space, u: Space)
    requires u.InHeap() && Intact(before, t) && |before| == MEMORY_WORDS && Apart(t, u)
    requires TablesWritten(before, after, u)
    ensures Intact(after, t) <==> u.directory + 1 != t.directory && u.directory + 1 != t.table
  {
    var d, p := HeapFrame(t.directory), HeapFrame(t.table);
    if u.directory + 1 == t.directory {
      assert EntryAt(after, d, 0) == 0 != DirectoryWord(0, p);
    } else if u.directory + 1 == t.table {
      assert EntryAt(after, p, 0) == 0 != TableWord(0, t.file, HeapFrame(t.stack));
    } else {
      forall i | 0 <= i < ENTRIES ensures EntryAt(after, d, i) == DirectoryWord(i, p) {
        assert EntryAt(before, d, i) == DirectoryWord(i, p);
      }
      forall i | 0 <= i < ENTRIES ensures EntryAt(after, p, i) == TableWord(i, t.file, HeapFrame(t.stack)) {
        assert EntryAt(before, p, i) == TableWord(i, t.file, HeapFrame(t.stack));
      }
    }
  }

  /** The pages in use are a prefix of the heap as long as nothing is freed. */
  ghost predicate Prefix(used: set<nat>, n: nat) {
    n <= MAX_HEAP_PAGES && forall k: nat :: k in used <==> k < n
  }

  /** Four consecutive pages among the first n. */
  ghost predicate Placed(t: Space, n: nat) {
    t.table == t.directory + 1 && t.info == t.directory + 2 && t.stack == t.directory + 3 && t.stack < n <= MAX_HEAP_PAGES
  }

  ghost predicate AllPlaced(mem: seq<word>, tasks: seq<Space>, n: nat) {
    && (forall k :: 0 <= k < |tasks| ==> Placed(tasks[k], n) && Intact(mem, tasks[k]))
    && (forall i, j :: 0 <= i < j < |tasks| ==> Apart(tasks[i], tasks[j]))
  }

  lemma NewTask(before: seq<word>, after: seq<word>, tasks: seq<Space>, n: nat, t: Space)
    requires Placed(t, n + 4) && t.directory == n && TablesWritten(before, after, t)
    requires AllPlaced(before, tasks, n) && KernelTables(before)
    ensures AllPlaced(after, tasks + [t], n + 4) && KernelTables(after)
  {
    OwnIntact(before, after, t);
    forall k | 0 <= k < |tasks| ensures Intact(after, tasks[k]) && Apart(tasks[k], t) {
      OverrunHarmless(before, after, tasks[k], t);
    }
  }

  class Creator {
    const mem: array<word>
    const allocator: Allocator
    var taskIdCounter: nat
    /** Whether addresses are translated; until then all memory is written as it is. */
    var paging: bool
    ghost var tasks: seq<Space>
    ghost var taken: nat

    /** The page that kmalloc cuts up, once it has one, belongs to no task. */
    ghost predicate RegionsApart()
      reads this, allocator
    {
      allocator.sTopAddr != 0 ==>
        && HEAP_START_ADDR <= allocator.sTopAddr && PageOf(allocator.sTopAddr) < taken
        && forall k :: 0 <= k < |tasks| ==> PageOf(allocator.sTopAddr) !in Pages(tasks[k])
    }

    /** Nothing is ever freed, every task has four consecutive pages of its own, and its tables are as
        task_init left them. */
    ghost predicate Valid()
      reads this, mem, allocator, allocator.heapAllocTable
    {
      && mem.Length == MEMORY_WORDS && allocator.Valid() && KernelTables(mem[..])
      && Prefix(allocator.Used(), taken)
      && AllPlaced(mem[..], tasks, taken) && RegionsApart()
    }

    /** After mem_init and before paging is switched on. */
    constructor (memory: array<word>)
      requires memory.Length == MEMORY_WORDS && KernelTables(memory[..])
      ensures Valid() && tasks == [] && taskIdCounter == 1 && !paging
      ensures mem == memory && fresh(allocator) && fresh(allocator.heapAllocTable)
    {
      mem := memory;
      allocator := new Allocator();
      taskIdCounter, tasks, taken, paging := 1, [], 0, false;
      new;
      NoTasksYet();
    }

    lemma NoTasksYet()
      requires mem.Length == MEMORY_WORDS && allocator.Valid() && KernelTables(mem[..])
      requires allocator.Used() == {} && allocator.sTopAddr == 0 && tasks == [] && taken == 0
      ensures Valid()
    {
    }

    method StartPaging()
      requires Valid()
      modifies this`paging
      ensures Valid() && paging
    {
      paging := true;
    }

    /** Isolation, for any two tasks and however many have been created in between: each sees its intended
        address space, and from privilege level 3 neither can reach the other's stack, tables or descriptor, nor
        what kmalloc has handed out to the kernel, other than through the file page it was given. */
    lemma Isolated(i: nat, j: nat, va: word)
      requires Valid() && i < |tasks| && j < |tasks| && i != j
      ensures Walk(mem[..], tasks[i].Cr3(), va) == Intended(tasks[i], va)
      ensures var pa := UserWalk(mem[..], tasks[i].Cr3(), va);
          pa.Some? && FrameOf(pa.value) != tasks[i].file ==>
            && FrameOf(pa.value) !in HeapFrames(tasks[j])
            && (allocator.sTopAddr != 0 ==> FrameOf(pa.value) != HeapFrame(PageOf(allocator.sTopAddr)))
    {
      TaskWalk(mem[..], tasks[i], va);
      TaskUserWalk(mem[..], tasks[i], va);
      assert Apart(tasks[i], tasks[j]) || Apart(tasks[j], tasks[i]);
    }

    /** The same in addresses and pages: whatever has been created, a task reads and writes its file at 0x20000000
        and its stack at 0x20001000 and nothing else, and its four pages are its own. */
    lemma EveryTask(i: nat, va: word)
      requires Valid() && i < |tasks|
      ensures var t := tasks[i];
        var own :=
          if 0x2000_0000 <= va < 0x2000_1000 then Some(t.file * 0x1000 + (va - 0x2000_0000))
          else if 0x2000_1000 <= va < 0x2000_2000 then Some(0x10_0000 + t.stack * 0x1000 + (va - 0x2000_1000))
          else None;
        UserWalk(mem[..], t.Cr3(), va) == own && UserWriteWalk(mem[..], t.Cr3(), va) == own
      ensures var t := tasks[i];
        t.table == t.directory + 1 && t.info == t.directory + 2 && t.stack == t.directory + 3 && t.stack < 3584
      ensures forall j :: 0 <= j < |tasks| && j != i ==>
        tasks[i].stack < tasks[j].directory || tasks[j].stack < tasks[i].directory
    {
      TaskMap(mem[..], tasks[i], va);
      forall j | 0 <= j < |tasks| && j != i
        ensures tasks[i].stack < tasks[j].directory || tasks[j].stack < tasks[i].directory
      {
        assert Apart(tasks[i], tasks[j]) || Apart(tasks[j], tasks[i]);
        assert Placed(tasks[i], taken) && Placed(tasks[j], taken);
        FourApart(tasks[i], tasks[j], taken);
      }
    }

    lemma FourApart(t: Space, u: Space, n: nat)
      requires Placed(t, n) && Placed(u, n) && (Apart(t, u) || Apart(u, t))
      ensures t.stack < u.directory || u.stack < t.directory
    {
      assert t.directory in Pages(t) && t.stack in Pages(t) && u.directory in Pages(u) && u.stack in Pages(u);
      assert t.table in Pages(t) && t.info in Pages(t) && u.table in Pages(u) && u.info in Pages(u);
    }

    /** With nothing freed, mem_alloc takes the page behind those in use. */
    method AllocNext(ghost n: nat) returns (page: word)
      requires allocator.Valid() && Prefix(allocator.Used(), n) && n < MAX_HEAP_PAGES
      modifies allocator`live, allocator.heapAllocTable
      ensures allocator.Valid() && Prefix(allocator.Used(), n + 1)
      ensures IsPage(page, n)
    {
      ghost var used := allocator.Used();
      assert n !in used;
      page := allocator.MemAlloc();
      LowestUnique(used, n, PageOf(page));
      PageAligned(page);
      HeapFrameOf(page);
    }

    method AllocFour() returns (d: word, t: word, i: word, s: word)
      requires allocator.Valid() && Prefix(allocator.Used(), taken) && taken + 4 <= MAX_HEAP_PAGES
      modifies allocator`live, allocator.heapAllocTable
      ensures allocator.Valid() && Prefix(allocator.Used(), taken + 4)
      ensures IsPage(d, taken) && IsPage(t, taken + 1) && IsPage(i, taken + 2) && IsPage(s, taken + 3)
    {
      d := AllocNext(taken);
      t := AllocNext(taken + 1);
      i := AllocNext(taken + 2);
      s := AllocNext(taken + 3);
    }

    /** task_init, with room for its four pages: the caller sees the new task's address space, and nobody
        else's changes. The 16-bit task id wraps. None is a page fault: with paging on, the directory, the
        table and the descriptor have to lie below 4 MiB to be written. */
    method TaskInit(dataBaseAddr: word) returns (t: Option<Space>)
      requires Valid() && taken + 4 <= MAX_HEAP_PAGES
      modifies this, mem, allocator`live, allocator.heapAllocTable
      ensures t.None? <==> old(paging) && old(taken) + 3 > 0x300
      ensures t.Some? ==>
        && Valid() && paging == old(paging) && tasks == old(tasks) + [t.value] && taken == old(taken) + 4
        && t.value == Space(old(taskIdCounter), old(taken), old(taken) + 1, old(taken) + 2, old(taken) + 3,
                            FrameOf(dataBaseAddr))
        && taskIdCounter == (old(taskIdCounter) + 1) % 0x1_0000
    {
      var pdBaseAddr, ptBaseAddr, newTask, physStackBase := AllocFour();
      var ok := CanWrite(pdBaseAddr, ptBaseAddr, newTask);
      if !ok {
        return None;
      }
      var s := WriteTask(pdBaseAddr, ptBaseAddr, newTask, physStackBase, dataBaseAddr);
      return Some(s);
    }

    method CanWrite(pdBaseAddr: word, ptBaseAddr: word, newTask: word) returns (ok: bool)
      requires KernelTables(mem[..]) && taken + 3 <= MAX_HEAP_PAGES
      requires IsPage(pdBaseAddr, taken) && IsPage(ptBaseAddr, taken + 1) && IsPage(newTask, taken + 2)
      ensures ok <==> !paging || taken + 3 <= MAPPED_HEAP_PAGES
    {
      HeapMapped(mem[..], taken);
      HeapMapped(mem[..], taken + 1);
      HeapMapped(mem[..], taken + 2);
      ok := !paging || (Mapped(mem[..], pdBaseAddr) && Mapped(mem[..], ptBaseAddr) && Mapped(mem[..], newTask));
    }

    /** The rest of task_init, on the pages it has got. */
    method WriteTask(pdBaseAddr: word, ptBaseAddr: word, newTask: word, physStackBase: word, dataBaseAddr: word)
      returns (t: Space)
      requires mem.Length == MEMORY_WORDS && allocator.Valid() && KernelTables(mem[..]) && RegionsApart()
      requires Prefix(allocator.Used(), taken + 4) && AllPlaced(mem[..], tasks, taken) && taken + 4 <= MAX_HEAP_PAGES
      requires IsPage(pdBaseAddr, taken) && IsPage(ptBaseAddr, taken + 1) && IsPage(newTask, taken + 2)
      requires IsPage(physStackBase, taken + 3)
      modifies this, mem
      ensures Valid() && paging == old(paging) && tasks == old(tasks) + [t] && taken == old(taken) + 4
      ensures t == Space(old(taskIdCounter), old(taken), old(taken) + 1, old(taken) + 2, old(taken) + 3,
                         FrameOf(dataBaseAddr))
      ensures taskIdCounter == (old(taskIdCounter) + 1) % 0x1_0000
    {
      ghost var n, before := taken, mem[..];
      t := Space(taskIdCounter, PageOf(pdBaseAddr), PageOf(ptBaseAddr), PageOf(newTask), PageOf(physStackBase),
                 FrameOf(dataBaseAddr));
      WriteTables(mem, FrameOf(pdBaseAddr), FrameOf(ptBaseAddr), FrameOf(dataBaseAddr), FrameOf(physStackBase));
      taskIdCounter := (taskIdCounter + 1) % 0x1_0000;
      NewTask(before, mem[..], tasks, n, t);
      tasks := tasks + [t];
      taken := taken + 4;
    }

    /** A kmalloc that succeeds takes at most one page more and touches no task. Unless the sum of sizes wraps,
        its region lies behind the others in the page that belongs to no task. */
    method Kmalloc(size: word) returns (p: Option<word>)
      requires Valid()
      modifies this`taken, allocator, allocator.heapAllocTable
      ensures p.Some? ==> Valid() && taken == old(taken) + if old(allocator.sTopAddr) == 0 then 1 else 0
      ensures p.Some? && old(allocator.sTotalSize) + size < WORD ==>
        && Calls(old(allocator.Abs()), AllocRegion(size), allocator.Abs())
        && p.value == allocator.sTopAddr + old(allocator.sTotalSize)
        && p.value + size <= allocator.sTopAddr + PAGE_SIZE
    {
      ghost var used, top := allocator.Used(), allocator.sTopAddr;
      p := allocator.Kmalloc(size);
      if p.Some? && top == 0 {
        assert Lowest(used, taken);
        LowestUnique(used, taken, PageOf(allocator.sTopAddr));
        taken := taken + 1;
      }
    }
  }
}
