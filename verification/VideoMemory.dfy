/** Why the console faults where it does: video memory in the page tables of the kernel and of every task. */
module VideoMemory {
  import opened Common
  import opened PageAllocator
  import opened AddressSpace
  import opened TaskInit
  import opened Console

  lemma CellPage(x: word, y: word)
    ensures var cell := y % 256 * 80 + x % 256;
      0x0b8 <= (0xb8000 + 2 * cell) / PAGE_SIZE && ((0xb8000 + 2 * cell) / PAGE_SIZE <= 0x0bf <==> cell < 0x4000)
  {
  }

  /** A cell, at its address, is mapped to itself if and only if it lies in video memory, whether the kernel runs
      or a task. This is where put_char_pos writes instead of faulting. */
  lemma CellMapped(mem: seq<word>, x: word, y: word)
    requires KernelTables(mem)
    ensures var cell := y % 256 * 80 + x % 256;
      WriteWalk(mem, 0x8_f000, 0xb8000 + 2 * cell) == if cell < 0x4000 then Some(0xb8000 + 2 * cell) else None
    ensures var cell := y % 256 * 80 + x % 256;
      forall t: Space :: Intact(mem, t) ==>
        WriteWalk(mem, t.Cr3(), 0xb8000 + 2 * cell) == if cell < 0x4000 then Some(0xb8000 + 2 * cell) else None
  {
    var cell := y % 256 * 80 + x % 256;
    CellPage(x, y);
    KernelWalk(mem, 0xb8000 + 2 * cell);
    forall t: Space | Intact(mem, t)
      ensures WriteWalk(mem, t.Cr3(), 0xb8000 + 2 * cell) == if cell < 0x4000 then Some(0xb8000 + 2 * cell) else None
    {
      TaskWalk(mem, t, 0xb8000 + 2 * cell);
    }
  }
}
