/**
 Page tables in flat memory: the kernel's, which mem_init writes, and each task's, which task_init writes.
 What they map is defined by the 32-bit table walk of section 4.3 of volume 3A of the Intel SDM.
 */
module AddressSpace {
  import opened Common
  import opened PageAllocator

  const ENTRIES: nat := 0x400

  /** Physical memory, in 32-bit words: 16 MiB, the heap and what lies below and behind it. */
  const MEMORY_WORDS: nat := 0x0040_0000

  const KERNEL_DIRECTORY: word := 0x0008_f000
  const KERNEL_TABLE: word := 0x0009_0000

  const PRESENT: word := 1
  const READ_WRITE: word := 2
  const USER: word := 4
  const WRITE_THROUGH: word := 8
  const CACHE_DISABLE: word := 16
  const GLOBAL: word := 256

  type frame = x: nat | x < 0x10_0000

  /** An entry of a directory or a table: twenty bits of frame number above twelve bits of flags. */
  function Entry(f: frame, flags: word): word
    requires flags < PAGE_SIZE
  {
    f * PAGE_SIZE + flags
  }

  predicate IsPresent(entry: word) {
    entry % 2 == 1
  }

  predicate IsUser(entry: word) {
    entry / USER % 2 == 1
  }

  predicate IsWritable(entry: word) {
    entry / READ_WRITE % 2 == 1
  }

  function FrameOf(entry: word): frame {
    entry / PAGE_SIZE
  }

  lemma EntryFrame(f: frame, flags: word)
    requires flags < PAGE_SIZE
    ensures FrameOf(Entry(f, flags)) == f
  {
  }

  lemma EntryUser(f: frame, flags: word)
    requires flags < PAGE_SIZE
    ensures IsUser(Entry(f, flags)) <==> IsUser(flags)
  {
    assert Entry(f, flags) / USER == 2 * (f * 512) + flags / USER;
  }

  lemma EntryPresent(f: frame, flags: word)
    requires flags < PAGE_SIZE
    ensures IsPresent(Entry(f, flags)) <==> IsPresent(flags)
  {
    assert Entry(f, flags) == 2 * (f * 2048) + flags;
  }

  lemma EntryWritable(f: frame, flags: word)
    requires flags < PAGE_SIZE
    ensures IsWritable(Entry(f, flags)) <==> IsWritable(flags)
  {
    assert Entry(f, flags) / READ_WRITE == 2 * (f * 1024) + flags / READ_WRITE;
  }

  lemma EntryFields(f: frame, flags: word)
    requires flags < PAGE_SIZE
    ensures FrameOf(Entry(f, flags)) == f
    ensures IsPresent(Entry(f, flags)) <==> IsPresent(flags)
    ensures IsUser(Entry(f, flags)) <==> IsUser(flags)
    ensures IsWritable(Entry(f, flags)) <==> IsWritable(flags)
  {
    EntryFrame(f, flags);
    EntryWritable(f, flags);
    EntryPresent(f, flags);
    EntryUser(f, flags);
  }

  /** The index of the first word of a frame. */
  function WordOf(f: frame): nat {
    f * ENTRIES
  }

  /** Entry i of the table in frame f; beyond the memory there is nothing present. */
  function EntryAt(mem: seq<word>, f: frame, i: nat): word
    requires i < ENTRIES
  {
    if WordOf(f) + i < |mem| then mem[WordOf(f) + i] else 0
  }

  function DirectoryIndex(va: word): (i: nat)
    ensures i < ENTRIES
  {
    va / 0x40_0000
  }

  function TableIndex(va: word): (i: nat)
    ensures i < ENTRIES
  {
    va / PAGE_SIZE % ENTRIES
  }

  function Offset(va: word): nat {
    va % PAGE_SIZE
  }

  /** The second level of the walk. */
  function WalkTable(mem: seq<word>, table: frame, va: word): Option<word> {
    var pte := EntryAt(mem, table, TableIndex(va));
    if IsPresent(pte) then Some(FrameOf(pte) * PAGE_SIZE + Offset(va)) else None
  }

  /** The address translation with control register cr3; None is a page fault. */
  function Walk(mem: seq<word>, cr3: word, va: word): Option<word> {
    var pde := EntryAt(mem, FrameOf(cr3), DirectoryIndex(va));
    if IsPresent(pde) then WalkTable(mem, FrameOf(pde), va) else None
  }

  /** The translation of an access from privilege level 3: both entries must allow it. */
  function UserWalk(mem: seq<word>, cr3: word, va: word): Option<word> {
    var pde := EntryAt(mem, FrameOf(cr3), DirectoryIndex(va));
    var pte := EntryAt(mem, FrameOf(pde), TableIndex(va));
    if IsPresent(pde) && IsUser(pde) && IsUser(pte) then Walk(mem, cr3, va) else None
  }

  /** The translation of a write: both entries must allow it, at privilege level 3 always and in the kernel if
      CR0.WP asks for it. */
  function WriteWalk(mem: seq<word>, cr3: word, va: word): Option<word> {
    var pde := EntryAt(mem, FrameOf(cr3), DirectoryIndex(va));
    var pte := EntryAt(mem, FrameOf(pde), TableIndex(va));
    if IsPresent(pde) && IsWritable(pde) && IsWritable(pte) then Walk(mem, cr3, va) else None
  }

  function UserWriteWalk(mem: seq<word>, cr3: word, va: word): Option<word> {
    if WriteWalk(mem, cr3, va).Some? then UserWalk(mem, cr3, va) else None
  }

  function WordAt(mem: seq<word>, w: nat): word {
    if w < |mem| then mem[w] else 0
  }

  /** The walks bit by bit: bit 0 of an entry is present, bit 1 read/write, bit 2 user; bits 31 to 12 of cr3 and of
      the entries are frames, and ten bits each of the address select the entries. */
  lemma WalksMean(mem: seq<word>, cr3: word, va: word)
    ensures var pde := WordAt(mem, cr3 / 4096 * 1024 + va / 0x40_0000);
      var pte := WordAt(mem, pde / 4096 * 1024 + va / 4096 % 1024);
      var pa := if pde % 2 == 1 && pte % 2 == 1 then Some(pte / 4096 * 4096 + va % 4096) else None;
      && Walk(mem, cr3, va) == pa
      && UserWalk(mem, cr3, va) == (if pde / 4 % 2 == 1 && pte / 4 % 2 == 1 then pa else None)
      && WriteWalk(mem, cr3, va) == (if pde / 2 % 2 == 1 && pte / 2 % 2 == 1 then pa else None)
      && UserWriteWalk(mem, cr3, va) ==
           if pde / 2 % 4 == 3 && pte / 2 % 4 == 3 then pa else None
  {
    var pde := WordAt(mem, cr3 / 4096 * 1024 + va / 0x40_0000);
    TwoBits(pde);
    TwoBits(WordAt(mem, pde / 4096 * 1024 + va / 4096 % 1024));
  }

  lemma TwoBits(e: word)
    ensures e / 2 % 4 == 3 <==> e / 2 % 2 == 1 && e / 4 % 2 == 1
  {
    var h := e / 2;
    assert e / 4 == h / 2;
    assert h == 4 * (h / 4) + h % 4;
  }

  // ---- the kernel's tables ----

  const KERNEL_FLAGS: word := PRESENT + READ_WRITE + GLOBAL
  const VIDEO_FLAGS: word := KERNEL_FLAGS + WRITE_THROUGH + CACHE_DISABLE

  /** What the loops of mem_init store for page i. They run far past the 1024 entries of the table. */
  function KernelEntry(i: nat): word
    requires i < 0x40000
  {
    if 0x007 <= i <= 0x085 || 0x095 <= i <= 0x09f || 0x100 <= i < 0xeff then Entry(i, KERNEL_FLAGS)
    else if 0x0b8 <= i <= 0x0bf then Entry(i, VIDEO_FLAGS)
    else 0
  }

  function KernelDirectoryEntry(i: nat): word {
    if i == 0 then Entry(0x00090, PRESENT + READ_WRITE) else 0
  }

  ghost predicate KernelTables(mem: seq<word>) {
    && |mem| == MEMORY_WORDS
    && (forall i :: 0 <= i < ENTRIES ==> EntryAt(mem, FrameOf(KERNEL_DIRECTORY), i) == KernelDirectoryEntry(i))
    && (forall i :: 0 <= i < ENTRIES ==> EntryAt(mem, FrameOf(KERNEL_TABLE), i) == KernelEntry(i))
  }

  /** The pages below 4 MiB that the kernel can use; the rest of what the loops store is out of reach. */
  predicate KernelPage(page: nat) {
    0x007 <= page <= 0x085 || 0x095 <= page <= 0x09f || 0x0b8 <= page <= 0x0bf || 0x100 <= page < 0x400
  }

  /** For every address the kernel's translation is the identity or a fault, and the identity on exactly the
      pages of the loops below 4 MiB. */
  lemma KernelWalk(mem: seq<word>, va: word)
    requires KernelTables(mem)
    ensures Walk(mem, KERNEL_DIRECTORY, va) == if KernelPage(va / PAGE_SIZE) then Some(va) else None
    ensures WriteWalk(mem, KERNEL_DIRECTORY, va) == Walk(mem, KERNEL_DIRECTORY, va)
  {
    var d, t := DirectoryIndex(va), TableIndex(va);
    assert EntryAt(mem, FrameOf(KERNEL_DIRECTORY), d) == KernelDirectoryEntry(d);
    EntryFields(0x00090, PRESENT + READ_WRITE);
    if d == 0 {
      assert va / PAGE_SIZE == t;
      assert EntryAt(mem, FrameOf(KERNEL_TABLE), t) == KernelEntry(t);
      EntryFields(t, KERNEL_FLAGS);
      EntryFields(t, VIDEO_FLAGS);
    }
  }

  /** The same in addresses: what the kernel can read and write. */
  lemma KernelMap(mem: seq<word>, va: word)
    requires KernelTables(mem)
    ensures var mapped := 0x7000 <= va < 0x8_6000 || 0x9_5000 <= va < 0xa_0000 || 0xb_8000 <= va < 0xc_0000
        || 0x10_0000 <= va < 0x40_0000;
      && Walk(mem, 0x8_f000, va) == (if mapped then Some(va) else None)
      && WriteWalk(mem, 0x8_f000, va) == if mapped then Some(va) else None
  {
    KernelWalk(mem, va);
  }

  /** A loop that zeroes entries from pointer p on, bumping it; the result is the pointer behind the last. */
  method ClearEntries(mem: array<word>, p: nat, n: nat) returns (q: nat)
    requires p + n <= mem.Length
    modifies mem
    ensures q == p + n
    ensures forall w :: 0 <= w < mem.Length ==> mem[w] == if p <= w < q then 0 else old(mem[w])
  {
    q := p;
    for i := 0 to n
      invariant q == p + i
      invariant forall w :: 0 <= w < mem.Length ==> mem[w] == if p <= w < q then 0 else old(mem[w])
    {
      mem[q] := 0;
      q := q + 1;
    }
  }

  /** A loop that maps consecutive frames. */
  method MapEntries(mem: array<word>, p: nat, n: nat, first: frame, flags: word) returns (q: nat)
    requires p + n <= mem.Length && first + n <= 0x10_0000 && flags < PAGE_SIZE
    modifies mem
    ensures q == p + n
    ensures forall w :: 0 <= w < mem.Length ==> mem[w] == if p <= w < q then Entry(first + (w - p), flags) else old(mem[w])
  {
    q := p;
    var pagingBaseAddr: nat := first;
    for i := 0 to n
      invariant q == p + i
      invariant pagingBaseAddr == first + i
      invariant forall w :: 0 <= w < mem.Length ==>
        mem[w] == if p <= w < q then Entry(first + (w - p), flags) else old(mem[w])
    {
      mem[q] := Entry(pagingBaseAddr, flags);
      pagingBaseAddr := pagingBaseAddr + 1;
      q := q + 1;
    }
  }

  /** mem_init writes the kernel's directory, its table, and, past the end of the table, entries 0x400 to
      0x3ffff over the memory behind it. */
  method MemInit(mem: array<word>)
    requires mem.Length == MEMORY_WORDS
    modifies mem
    ensures KernelTables(mem[..])
    ensures mem[0x2_3c00] == 0x9_0003 && forall w :: 0x2_3c01 <= w < 0x2_4000 ==> mem[w] == 0
    ensures forall w :: 0x2_4000 <= w < 0x6_4000 ==> var i := w - 0x2_4000;
      mem[w] ==
        if 0x007 <= i <= 0x085 || 0x095 <= i <= 0x09f || 0x100 <= i < 0xeff then i * 0x1000 + 0x103
        else if 0x0b8 <= i <= 0x0bf then i * 0x1000 + 0x11b
        else 0
    ensures forall w :: 0 <= w < MEMORY_WORDS ==>
      WordOf(FrameOf(KERNEL_DIRECTORY)) <= w < WordOf(FrameOf(KERNEL_TABLE)) + 0x40000 || mem[w] == old(mem[w])
  {
    var pde := WordOf(FrameOf(KERNEL_DIRECTORY));
    mem[pde] := Entry(0x00090, PRESENT + READ_WRITE);
    pde := ClearEntries(mem, pde + 1, 0x400 - 1);

    var pte := WordOf(FrameOf(KERNEL_TABLE));
    pte := ClearEntries(mem, pte, 0x007);
    pte := MapEntries(mem, pte, 0x086 - 0x007, 0x00007, KERNEL_FLAGS);
    pte := ClearEntries(mem, pte, 0x095 - 0x086);
    pte := MapEntries(mem, pte, 0x0a0 - 0x095, 0x00095, KERNEL_FLAGS);
    pte := ClearEntries(mem, pte, 0x0b8 - 0x0a0);
    pte := MapEntries(mem, pte, 0x0c0 - 0x0b8, 0x000b8, VIDEO_FLAGS);
    pte := ClearEntries(mem, pte, 0x100 - 0x0c0);
    pte := MapEntries(mem, pte, 0xeff - 0x100, 0x00100, KERNEL_FLAGS);
    pte := ClearEntries(mem, pte, 0x40000 - 0xeff);
  }
}
