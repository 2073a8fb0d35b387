/** Physical memory pools: mem_pool_init, alloc_physical_pages and free_physical_pages of os/kernel/mem.c. */
module Pools {
  import opened Words
  import opened KernelMemory

  // ---------------------------------------------------------------- mem_pool_init

  const USED_MEM := 0x200000
  const MEM_BITMAP_BASE := 0xc009a000

  /** The values that mem_pool_init stores; lengths of bitmaps in bytes. */
  datatype Layout = Layout(kernelStart: nat, kernelSize: nat, kernelLen: nat,
                           userStart: nat, userSize: nat, userLen: nat,
                           kernelBits: nat, userBits: nat, vaddrBits: nat)

  /** mem_pool_init, with `uint32_t` subtraction and the cut of the page count to 16 bits. */
  function PoolLayout(allMem: Word): Layout {
    var freeMem := (allMem - USED_MEM) % 0x1_0000_0000;
    var allFreePages := freeMem / 4096 % 0x1_0000;
    var kernelPages := allFreePages / 2;
    var userPages := allFreePages - kernelPages;
    var kbm, ubm := kernelPages / 8, userPages / 8;
    Layout(USED_MEM, kernelPages * 4096, kbm,
           USED_MEM + kernelPages * 4096, userPages * 4096, ubm,
           MEM_BITMAP_BASE, MEM_BITMAP_BASE + kbm, MEM_BITMAP_BASE + kbm + ubm)
  }

  /** First physical address behind the frames that a bitmap of `len` bytes can hand out. */
  function EndOfFrames(start: nat, len: nat): nat {
    start + 8 * len * 4096
  }

  /** The pools overlap neither each other nor the first 2 MiB; each bitmap covers only frames of its own pool,
      at most 7 of them less than the pool has; the three bitmaps follow each other below the page of the main
      thread at 0xc009e000; and the heap's addresses stay below the self-mapped window. */
  lemma PoolsAreApart(allMem: Word)
    ensures var l := PoolLayout(allMem);
            && 0x200000 == l.kernelStart
            && l.kernelStart + l.kernelSize - 7 * 4096 <= EndOfFrames(l.kernelStart, l.kernelLen) <= l.userStart
            && l.userStart == l.kernelStart + l.kernelSize
            && l.userStart + l.userSize - 7 * 4096 <= EndOfFrames(l.userStart, l.userLen) <= l.userStart + l.userSize
            && l.userStart + l.userSize <= 0x1020_0000
            && l.kernelBits + l.kernelLen == l.userBits && l.userBits + l.userLen == l.vaddrBits
            && l.vaddrBits + l.kernelLen <= 0xc009d000
            && HEAP_START + 8 * l.kernelLen * 4096 <= 0xc810_0000
  {
  }

  /** The pools share the pages, and the user pool gets the odd one. */
  lemma PoolsAreHalves(allMem: Word)
    ensures var l := PoolLayout(allMem);
            && l.kernelSize % 4096 == 0 && (l.userSize == l.kernelSize || l.userSize == l.kernelSize + 4096)
            && l.kernelBits == 0xc009a000
  {
    var pages := (allMem - USED_MEM) % 0x1_0000_0000 / 4096 % 0x1_0000;
    assert PoolLayout(allMem).kernelSize == 4096 * (pages / 2);
    assert PoolLayout(allMem).userSize == 4096 * (pages - pages / 2);
    hide PoolLayout;
  }

  /** The pools lie inside the installed memory if and only if at least 2 MiB are installed: below that the
      subtraction wraps around. */
  lemma PoolsAreInstalled(allMem: Word)
    ensures var l := PoolLayout(allMem); l.userStart + l.userSize <= allMem <==> allMem >= 0x200000
  {
  }

  /** The sizes of the pools add up to the free memory if and only if it is less than 256 MiB: the page count has 16
      bits. */
  lemma PoolsCoverMemory(allMem: Word)
    requires allMem >= 0x200000
    ensures var l := PoolLayout(allMem);
            l.userStart + l.userSize == allMem - allMem % 4096 <==> allMem < 0x1020_0000
  {
    var pages := (allMem - 0x200000) / 4096;
    EndOfPools(allMem, pages);
    hide PoolLayout;
    WholePages(allMem, pages);
    CutPages(pages);
  }

  /** Every whole page above 2 MiB can be handed out if and only if there are less than 256 MiB of them and their
      number is a multiple of 16: the bitmaps have a bit for whole groups of 8 frames only. */
  lemma FramesCoverMemory(allMem: Word)
    requires allMem >= 0x200000
    ensures var l := PoolLayout(allMem);
            && EndOfFrames(l.kernelStart, l.kernelLen) == l.userStart
            && EndOfFrames(l.userStart, l.userLen) == allMem - allMem % 4096
            <==> allMem < 0x1020_0000 && (allMem - 0x200000) / 4096 % 16 == 0
  {
    var pages := (allMem - 0x200000) / 4096;
    var l := PoolLayout(allMem);
    PoolsCoverMemory(allMem);
    EndOfPools(allMem, pages);
    WholePages(allMem, pages);
    PoolsAreApart(allMem);
    var half := pages % 0x1_0000 / 2;
    assert l.kernelLen == half / 8 && l.userLen == (pages % 0x1_0000 - half) / 8;
    hide PoolLayout;
    Groups(pages % 0x1_0000);
    CutPages(pages);
  }

  lemma Groups(n: nat)
    ensures 8 * (n / 2 / 8) == n / 2 && 8 * ((n - n / 2) / 8) == n - n / 2 <==> n % 16 == 0
  {
  }

  lemma WholePages(allMem: int, pages: int)
    requires pages == (allMem - 0x200000) / 4096
    ensures allMem - allMem % 4096 == 0x200000 + 4096 * pages
    ensures pages < 0x1_0000 <==> allMem < 0x1020_0000
  {
  }

  lemma CutPages(pages: nat)
    ensures pages % 0x1_0000 == pages <==> pages < 0x1_0000
  {
  }

  lemma EndOfPools(allMem: Word, pages: nat)
    requires allMem >= USED_MEM && pages == (allMem - 0x200000) / 4096
    ensures PoolLayout(allMem).userStart + PoolLayout(allMem).userSize == USED_MEM + 4096 * (pages % 0x1_0000)
  {
    assert (allMem - USED_MEM) % 0x1_0000_0000 == allMem - USED_MEM;
  }
}
