/** The page allocator over a table of flags, and the bump allocator on one of its pages. */
module PageAllocator {
  import opened Common

  const MAX_HEAP_PAGES: nat := 3584
  const HEAP_START_ADDR: word := 0x0010_0000
  const PAGE_SIZE: word := 0x1000

  function PageAddr(i: nat): word
    requires i < MAX_HEAP_PAGES
  {
    HEAP_START_ADDR + i * PAGE_SIZE
  }

  /** The page an address in the heap belongs to. */
  function PageOf(addr: word): nat
    requires HEAP_START_ADDR <= addr
  {
    (addr - HEAP_START_ADDR) / PAGE_SIZE
  }

  lemma PageOfAddr(i: nat)
    requires i < MAX_HEAP_PAGES
    ensures PageOf(PageAddr(i)) == i && PageAddr(i) % PAGE_SIZE == 0
    ensures HEAP_START_ADDR <= PageAddr(i) < 0x00f0_0000
  {
  }

  /** `i` is the page mem_alloc takes: the lowest that is free, or none. */
  ghost predicate Lowest(used: set<nat>, i: nat) {
    i <= MAX_HEAP_PAGES && (forall k :: 0 <= k < i ==> k in used) && (i < MAX_HEAP_PAGES ==> i !in used)
  }

  lemma LowestUnique(used: set<nat>, i: nat, j: nat)
    requires Lowest(used, i) && Lowest(used, j)
    ensures i == j
  {
  }

  // ---- runs of allocations ----

  datatype Region = Region(start: nat, size: nat)

  /** The allocator and what its callers hold: pages from mem_alloc and regions from kmalloc. */
  datatype Heap = Heap(used: set<nat>, top: word, total: word, live: set<nat>, regions: seq<Region>)

  datatype Call = AllocPage(page: word) | FreePage(page: word) | AllocRegion(size: word)

  /** The effect of a call that succeeds, as the contracts of Allocator have it. Callers free pages they hold
      and ask kmalloc for sizes that do not wrap its total. */
  ghost predicate Calls(h: Heap, c: Call, h': Heap) {
    match c
    case AllocPage(page) =>
      && PageTaken(h.used, page)
      && h' == h.(used := h.used + {PageOf(page)}, live := h.live + {PageOf(page)})
    case FreePage(page) =>
      && HEAP_START_ADDR <= page && PageOf(page) in h.live
      && h' == h.(used := h.used - {PageOf(page)}, live := h.live - {PageOf(page)})
    case AllocRegion(size) =>
      && h.total + size <= PAGE_SIZE && h'.total == h.total + size && h'.live == h.live
      && h'.regions == h.regions + [Region(h'.top + h.total, size)]
      && (h.top != 0 ==> h'.top == h.top && h'.used == h.used)
      && (h.top == 0 ==> PageTaken(h.used, h'.top) && h'.used == h.used + {PageOf(h'.top)})
  }

  ghost predicate PageTaken(used: set<nat>, page: word) {
    HEAP_START_ADDR <= page && Lowest(used, PageOf(page)) && PageOf(page) < MAX_HEAP_PAGES
  }

  /** Regions one behind the other, filling [start, end). */
  ghost predicate Consecutive(regions: seq<Region>, start: nat, end: nat)
    decreases |regions|
  {
    if regions == [] then start == end
    else
      var last := regions[|regions| - 1];
      last.start + last.size == end && Consecutive(regions[..|regions| - 1], start, last.start)
  }

  /** The pages in use are those the callers hold and the one kmalloc cuts up, which nobody holds. */
  ghost predicate HeapSound(h: Heap) {
    && (h.top == 0 ==> h.used == h.live && h.total == 0 && h.regions == [])
    && (h.top != 0 ==>
          HEAP_START_ADDR <= h.top && PageOf(h.top) !in h.live && h.used == h.live + {PageOf(h.top)})
    && h.total <= PAGE_SIZE && Consecutive(h.regions, h.top, h.top + h.total)
  }

  /** The allocator at the start, as its constructor leaves it. */
  lemma UnusedIsSound(h: Heap)
    requires h == Heap({}, 0, 0, {}, [])
    ensures HeapSound(h)
  {
  }

  lemma CallKeepsSound(h: Heap, c: Call, h': Heap)
    requires HeapSound(h) && Calls(h, c, h')
    ensures HeapSound(h')
    ensures c.AllocPage? ==> PageOf(c.page) !in h.live && (h.top != 0 ==> PageOf(c.page) != PageOf(h.top))
  {
    if c.AllocRegion? {
      assert h'.regions[..|h.regions|] == h.regions;
    }
  }

  /** Freeing a page just allocated restores the allocator exactly. */
  lemma AllocThenFree(h: Heap, page: word, h1: Heap, h2: Heap)
    requires HeapSound(h) && Calls(h, AllocPage(page), h1) && Calls(h1, FreePage(page), h2)
    ensures h2 == h
  {
    CallKeepsSound(h, AllocPage(page), h1);
    assert h2.used == h.used && h2.live == h.live;
  }

  ghost predicate IsHeapRun(hs: seq<Heap>, calls: seq<Call>) {
    |hs| == |calls| + 1 && forall i :: 0 <= i < |calls| ==> CallAt(hs, calls, i)
  }

  ghost predicate CallAt(hs: seq<Heap>, calls: seq<Call>, i: nat)
    requires |hs| == |calls| + 1 && i < |calls|
  {
    Calls(hs[i], calls[i], hs[i + 1])
  }

  lemma {:induction false} ConsecutiveAt(regions: seq<Region>, start: nat, end: nat, i: nat)
    requires Consecutive(regions, start, end) && i < |regions|
    ensures start <= regions[i].start && regions[i].start + regions[i].size <= end
    ensures forall j :: i < j < |regions| ==> regions[i].start + regions[i].size <= regions[j].start
    decreases |regions|
  {
    var n := |regions| - 1;
    if i < n {
      ConsecutiveAt(regions[..n], start, regions[n].start, i);
      forall j | i < j < |regions| ensures regions[i].start + regions[i].size <= regions[j].start {
        if j < n {
          assert regions[..n][j] == regions[j];
        }
      }
    } else {
      ConsecutiveGrows(regions[..n], start, regions[n].start);
    }
  }

  lemma {:induction false} ConsecutiveGrows(regions: seq<Region>, start: nat, end: nat)
    requires Consecutive(regions, start, end)
    ensures start <= end
    decreases |regions|
  {
    if regions != [] {
      ConsecutiveGrows(regions[..|regions| - 1], start, regions[|regions| - 1].start);
    }
  }

  /** Over any run of allocations and frees: the regions from kmalloc are disjoint and lie in one page, which
      no caller of mem_alloc ever holds. */
  lemma {:induction false} HeapRunSound(hs: seq<Heap>, calls: seq<Call>, n: nat)
    requires IsHeapRun(hs, calls) && HeapSound(hs[0]) && n <= |calls|
    ensures HeapSound(hs[n])
    ensures var h := hs[n]; forall i, j :: 0 <= i < j < |h.regions| ==>
      h.top <= h.regions[i].start && h.regions[i].start + h.regions[i].size <= h.regions[j].start
        && h.regions[j].start + h.regions[j].size <= h.top + PAGE_SIZE
  {
    if n > 0 {
      HeapRunSound(hs, calls, n - 1);
      assert CallAt(hs, calls, n - 1);
      CallKeepsSound(hs[n - 1], calls[n - 1], hs[n]);
    }
    var h := hs[n];
    forall i, j | 0 <= i < j < |h.regions|
      ensures h.top <= h.regions[i].start && h.regions[i].start + h.regions[i].size <= h.regions[j].start
      ensures h.regions[j].start + h.regions[j].size <= h.top + PAGE_SIZE
    {
      ConsecutiveAt(h.regions, h.top, h.top + h.total, i);
      ConsecutiveAt(h.regions, h.top, h.top + h.total, j);
    }
  }

  /** What kmalloc returns for a total, before and after, that passed its check. */
  function RegionStart(top: word, total: word, size: word): word {
    (top + (total + size) % WORD + (WORD - size)) % WORD
  }

  /** A region that kmalloc hands out lies in its page if and only if the sum of sizes did not wrap. */
  lemma RegionInPage(i: nat, total: word, size: word)
    requires i < MAX_HEAP_PAGES && total <= PAGE_SIZE && (total + size) % WORD <= PAGE_SIZE
    ensures var top, start := PageAddr(i), RegionStart(PageAddr(i), total, size);
      (top <= start && start + size <= top + PAGE_SIZE) <==> total + size < WORD
    ensures total + size < WORD ==> RegionStart(PageAddr(i), total, size) == PageAddr(i) + total
  {
  }

  class Allocator {
    const heapAllocTable: array<bool>
    var sTotalSize: word
    var sTopAddr: word
    /** What the callers hold. */
    ghost var live: set<nat>
    ghost var regions: seq<Region>

    ghost predicate Valid()
      reads this
    {
      && heapAllocTable.Length == MAX_HEAP_PAGES
      && (sTopAddr != 0 ==> exists i :: 0 <= i < MAX_HEAP_PAGES && sTopAddr == PageAddr(i))
      && sTotalSize <= PAGE_SIZE && (sTopAddr == 0 ==> sTotalSize == 0)
    }

    /** The pages in use. */
    ghost function Used(): set<nat>
      requires heapAllocTable.Length == MAX_HEAP_PAGES
      reads this, heapAllocTable
    {
      set i: nat | i < MAX_HEAP_PAGES && heapAllocTable[i]
    }

    ghost function Abs(): Heap
      requires heapAllocTable.Length == MAX_HEAP_PAGES
      reads this, heapAllocTable
    {
      Heap(Used(), sTopAddr, sTotalSize, live, regions)
    }

    constructor ()
      ensures Valid() && Abs() == Heap({}, 0, 0, {}, []) && fresh(heapAllocTable)
    {
      heapAllocTable := new bool[MAX_HEAP_PAGES](_ => false);
      sTotalSize, sTopAddr, live, regions := 0, 0, {}, [];
    }

    /** The lowest free page, or NULL exactly when there is none. */
    method MemAlloc() returns (page: word)
      requires Valid()
      modifies this`live, heapAllocTable
      ensures Valid()
      ensures page != 0 ==> Calls(old(Abs()), AllocPage(page), Abs())
      ensures page == 0 <==> forall k :: 0 <= k < MAX_HEAP_PAGES ==> k in old(Used())
      ensures page == 0 ==> Abs() == old(Abs())
      ensures page != 0 ==>
        HEAP_START_ADDR <= page < 0x00f0_0000 && page % PAGE_SIZE == 0
        && Lowest(old(Used()), PageOf(page)) && Used() == old(Used()) + {PageOf(page)}
      ensures page != 0 ==> var i := (page - 0x10_0000) / 0x1000;
        && page == 0x10_0000 + i * 0x1000 && i < 3584
        && !old(heapAllocTable[i]) && heapAllocTable[i] && (forall k :: 0 <= k < i ==> old(heapAllocTable[k]))
        && (forall k :: 0 <= k < 3584 && k != i ==> heapAllocTable[k] == old(heapAllocTable[k]))
        && live == old(live) + {i}
      ensures page == 0 ==> forall k :: 0 <= k < 3584 ==> old(heapAllocTable[k]) && heapAllocTable[k]
    {
      var i := 0;
      while i < MAX_HEAP_PAGES && heapAllocTable[i]
        invariant 0 <= i <= MAX_HEAP_PAGES && forall k :: 0 <= k < i ==> heapAllocTable[k] && k in Used()
      {
        i := i + 1;
      }
      if i >= MAX_HEAP_PAGES {
        return 0;
      }
      assert i !in Used();
      heapAllocTable[i] := true;
      PageOfAddr(i);
      live := live + {i};
      return PageAddr(i);
    }

    method MemFree(page: word)
      requires Valid() && HEAP_START_ADDR <= page && PageOf(page) < MAX_HEAP_PAGES
      modifies this`live, heapAllocTable
      ensures Valid() && Used() == old(Used()) - {PageOf(page)}
      ensures PageOf(page) in old(live) ==> Calls(old(Abs()), FreePage(page), Abs())
      ensures !heapAllocTable[(page - 0x10_0000) / 0x1000] && live == old(live) - {(page - 0x10_0000) / 0x1000}
      ensures forall k :: 0 <= k < 3584 && k != (page - 0x10_0000) / 0x1000 ==>
        heapAllocTable[k] == old(heapAllocTable[k])
    {
      heapAllocTable[PageOf(page)] := false;
      live := live - {PageOf(page)};
    }

    /** None is the endless loop of KERN_ABORT. The total is added up in 32 bits before it is checked. */
    method Kmalloc(size: word) returns (p: Option<word>)
      requires Valid()
      modifies this, heapAllocTable
      ensures p.Some? ==> Valid() && sTopAddr != 0 && sTotalSize == (old(sTotalSize) + size) % WORD
      ensures p.Some? ==> p.value == RegionStart(sTopAddr, old(sTotalSize), size)
      ensures live == old(live)
      ensures p.Some? ==> regions == old(regions) + [Region(p.value, size)]
      ensures p.Some? && old(sTotalSize) + size < WORD ==>
        Calls(old(Abs()), AllocRegion(size), Abs()) && p.value == sTopAddr + old(sTotalSize)
      ensures old(sTopAddr) != 0 ==> sTopAddr == old(sTopAddr) && Used() == old(Used())
      ensures old(sTopAddr) == 0 && p.Some? ==>
        Lowest(old(Used()), PageOf(sTopAddr)) && Used() == old(Used()) + {PageOf(sTopAddr)}
      ensures p.None? <==>
        || (old(sTopAddr) == 0 && forall k :: 0 <= k < MAX_HEAP_PAGES ==> k in old(Used()))
        || (old(sTotalSize) + size) % WORD > PAGE_SIZE
      ensures p.Some? ==> p.value == (sTopAddr + sTotalSize + 0x1_0000_0000 - size) % 0x1_0000_0000
      ensures old(sTotalSize) + size < 0x1_0000_0000 && old(sTotalSize) + size > 0x1000 ==> p.None?
      ensures old(sTopAddr) != 0 && old(sTotalSize) + size <= 0x1000 ==>
        && p == Some(old(sTopAddr) + old(sTotalSize)) && sTotalSize == old(sTotalSize) + size
        && sTopAddr == old(sTopAddr)
      ensures old(sTopAddr) == 0 && size <= 0x1000 && p.Some? ==>
        p.value == sTopAddr + old(sTotalSize) && sTotalSize == old(sTotalSize) + size
    {
      if sTopAddr == 0 {
        ghost var held := live;
        sTopAddr := MemAlloc();
        live := held;
        if sTopAddr == 0 {
          return None;
        }
        assert sTopAddr == PageAddr(PageOf(sTopAddr));
      }
      ghost var was := sTotalSize;
      sTotalSize := (sTotalSize + size) % WORD;
      if sTotalSize > PAGE_SIZE {
        return None;
      }
      RegionInPage(PageOf(sTopAddr), was, size);
      p := Some((sTopAddr + sTotalSize + (WORD - size)) % WORD);
      regions := regions + [Region(p.value, size)];
    }
  }
}
