/** What every operation on the kernel's pages keeps: heap pages are mapped one-to-one to frames that are marked
    in the kernel pool, and all page directories share the kernel half of the boot directory. */
module HeapInvariant {
  import opened Words
  import opened Bitmaps
  import opened Paging
  import opened KernelMemory

  ghost predicate LayoutOk(s: State) {
    && s.kStart == 0x200000
    && |s.kbits| % 8 == 0 && |s.ubits| % 8 == 0 && |s.vbits| == |s.kbits| <= 0x8000
    && s.kStart + 4096 * |s.kbits| <= s.uStart && s.uStart % 4096 == 0
    && s.uStart + 4096 * |s.ubits| <= 0x1020_0000
  }

  /** `f` is a frame of the kernel pool that is in use. */
  ghost predicate KernelFrame(s: State, f: int) {
    f % 4096 == 0 && f >= s.kStart && (f - s.kStart) / 4096 < |s.kbits| && s.kbits[(f - s.kStart) / 4096]
  }

  /** Entry `i` of directory `d`. */
  function Pde(m: Mem, d: int, i: int): Word {
    m(d + 4 * i)
  }

  /** Entries 768..1022 are those of the boot directory, entry 1023 is the directory itself. */
  ghost predicate KernelHalf(m: Mem, d: Word) {
    && d % 4096 == 0
    && (forall i :: 768 <= i < 1023 ==> Pde(m, d, i) == KERNEL_TABLES + 4096 * (i - 768) + 7)
    && Pde(m, d, 1023) == d + 7
  }

  /** A present entry of the user half. */
  ghost predicate UserEntry(s: State, d: Word, i: nat) {
    d in s.dirs && i < 768 && Present(Pde(s.mem, d, i))
  }

  ghost predicate DirsOk(s: State) {
    && BOOT_DIR in s.dirs && s.cr3 in s.dirs
    && (forall d :: d in s.dirs ==> KernelHalf(s.mem, d) && (d == BOOT_DIR || KernelFrame(s, d)))
  }

  /** Page tables of the user half are frames of the kernel pool and no directories; the only exception is
      entry 0 of the boot directory, which shares the first kernel table. */
  ghost predicate TablesOk(s: State) {
    forall d: Word, i: nat :: UserEntry(s, d, i) ==>
      var t := Frame(Pde(s.mem, d, i));
      (d == BOOT_DIR && i == 0 && t == KERNEL_TABLES) || (KernelFrame(s, t) && t !in s.dirs)
  }

  /** Physical address of the entry of heap page `j`, and the frame that it holds. */
  function EntryAt(j: nat): int {
    KERNEL_TABLES + 4 * (256 + j)
  }

  ghost function FrameOf(s: State, j: nat): Word {
    Frame(s.mem(EntryAt(j)))
  }

  /** Page `j` is marked, and not one of the pages lo..hi-1 that are being mapped or unmapped. */
  ghost predicate Settled(s: State, lo: int, hi: int, j: nat) {
    j < |s.vbits| && s.vbits[j] && !(lo <= j < hi)
  }

  ghost predicate HeapOk(s: State, lo: int, hi: int) {
    && (forall j: nat :: Settled(s, lo, hi, j) ==> Present(s.mem(EntryAt(j))) && KernelFrame(s, FrameOf(s, j)))
    && (forall j: nat, k: nat :: Settled(s, lo, hi, j) && Settled(s, lo, hi, k) && j != k ==>
          FrameOf(s, j) != FrameOf(s, k))
    && (forall j: nat, d: Word, i: nat :: Settled(s, lo, hi, j) && UserEntry(s, d, i) ==>
          FrameOf(s, j) != Frame(Pde(s.mem, d, i)))
  }

  ghost predicate InvBut(s: State, lo: int, hi: int) {
    LayoutOk(s) && DirsOk(s) && TablesOk(s) && HeapOk(s, lo, hi)
  }

  ghost predicate Inv(s: State) {
    InvBut(s, 0, 0)
  }

  // ---------------------------------------------------------------- the kernel half

  lemma KernelTable(k: nat)
    requires k < 255
    ensures Present(KERNEL_TABLES + 4096 * k + 7) && Frame(KERNEL_TABLES + 4096 * k + 7) == KERNEL_TABLES + 4096 * k
  {
  }

  /** Under every directory with the kernel half in place, the page tables of 0xc0000000..0xffbfffff are one
      array of entries. */
  lemma KernelEntry(m: Mem, d: Word, v: Word)
    requires KernelHalf(m, d) && KERNEL_BASE <= v < SELF_MAP
    ensures TablePresent(m, d, v) && PteAt(m, d, v) == KERNEL_TABLES + 4 * ((v - KERNEL_BASE) / 4096)
  {
    var i := PdeIdx(v);
    assert v == 0x400000 * i + 0x1000 * PteIdx(v) + v % 4096;
    hide PdeIdx, PteIdx, Frame, Present;
    KernelTable(i - 768);
    assert 768 <= i < 1023 && Pde(m, d, i) == KERNEL_TABLES + 4096 * (i - 768) + 7;
    assert (v - KERNEL_BASE) / 4096 == 1024 * (i - 768) + PteIdx(v);
  }

  lemma SelfEntry(m: Mem, d: Word)
    requires KernelHalf(m, d)
    ensures SelfMapped(m, d)
  {
    assert Pde(m, d, 1023) == m(d + 4092);
  }

  lemma HeapEntry(m: Mem, d: Word, j: nat)
    requires KernelHalf(m, d) && j < 0x8000
    ensures TablePresent(m, d, HeapAddr(j)) && PteAt(m, d, HeapAddr(j)) == EntryAt(j)
    ensures SelfMapped(m, d) && Walk(m, d, PteAddr(HeapAddr(j))) == Some(EntryAt(j))
  {
    hide PdeIdx, PteIdx, Frame, PdeAt, PteAt, PdeAddr, PteAddr, Walk, TablePresent, SelfMapped, KernelHalf;
    SelfEntry(m, d);
    KernelEntry(m, d, HeapAddr(j));
    assert (HeapAddr(j) - KERNEL_BASE) / 4096 == 256 + j;
    RecursiveMapping(m, d, HeapAddr(j));
  }

  /** The kernel half is the same in all directories that exist, whatever is active. */
  lemma Coherent(s: State, d: Word, v: Word)
    requires Inv(s) && d in s.dirs && KERNEL_BASE <= v < SELF_MAP
    ensures Walk(s.mem, d, v) == Walk(s.mem, BOOT_DIR, v)
  {
    KernelEntry(s.mem, d, v);
    KernelEntry(s.mem, BOOT_DIR, v);
  }

  lemma HeapPageWalk(s: State, d: Word, j: nat, off: nat)
    requires Inv(s) && d in s.dirs && off < 4096 && Settled(s, 0, 0, j)
    ensures Walk(s.mem, d, HeapAddr(j) + off) == Some(FrameOf(s, j) + off)
  {
    hide PdeIdx, PteIdx, PteAt, TablePresent, Frame, KernelHalf, TablesOk, KernelFrame, Present;
    HeapAddress(j, off);
    KernelEntry(s.mem, d, HeapAddr(j) + off);
  }

  lemma HeapAddress(j: nat, off: nat)
    requires j < 0x8000 && off < 4096
    ensures var v := HeapAddr(j) + off;
            KERNEL_BASE <= v < SELF_MAP && (v - KERNEL_BASE) / 4096 == 256 + j && v % 4096 == off
  {
  }

  /** Marked heap pages are mapped, in every directory, to marked frames of the kernel pool, and two of them
      never to the same frame. */
  lemma NoAliasing(s: State, d: Word, j: nat, k: nat, off: nat)
    requires Inv(s) && d in s.dirs && off < 4096
    requires j < |s.vbits| && s.vbits[j] && k < |s.vbits| && s.vbits[k] && j != k
    ensures Walk(s.mem, d, HeapAddr(j) + off) == Some(FrameOf(s, j) + off)
    ensures Walk(s.mem, d, HeapAddr(k)) == Some(FrameOf(s, k))
    ensures KernelFrame(s, FrameOf(s, j)) && FrameOf(s, j) != FrameOf(s, k)
  {
    assert Settled(s, 0, 0, j) && Settled(s, 0, 0, k);
    HeapPageWalk(s, d, j, off);
    HeapPageWalk(s, d, k, 0);
  }

  // ---------------------------------------------------------------- frames

  /** An allocated frame was free before; nothing else changes its mark. Allocation fails only when every
      frame of the pool is in use. */
  lemma FreshFrame(s: State)
    requires LayoutOk(s)
    ensures AllocKernelFrame(s).Ok? <==> exists i :: 0 <= i < |s.kbits| && !s.kbits[i]
    ensures AllocKernelFrame(s).Ok? ==>
              var (s1, f) := AllocKernelFrame(s).value;
              && s.kStart <= f && f + 4096 <= s.uStart && f % 4096 == 0 && (f - s.kStart) / 4096 < |s.kbits|
              && s1 == s.(kbits := s.kbits[(f - s.kStart) / 4096 := true])
              && !s.kbits[(f - s.kStart) / 4096]
              && !KernelFrame(s, f) && KernelFrame(s1, f)
              && forall g :: KernelFrame(s, g) ==> KernelFrame(s1, g)
  {
    ScanForOne(s.kbits);
  }

  /** The same for the user pool. */
  lemma FreshUserFrame(s: State)
    requires LayoutOk(s)
    ensures AllocUserFrame(s).Ok? <==> exists i :: 0 <= i < |s.ubits| && !s.ubits[i]
    ensures AllocUserFrame(s).Ok? ==>
              var (s1, f) := AllocUserFrame(s).value;
              && s.uStart <= f <= 0x101f_f000 && f % 4096 == 0 && (f - s.uStart) / 4096 < |s.ubits|
              && s1 == s.(ubits := s.ubits[(f - s.uStart) / 4096 := true])
              && !s.ubits[(f - s.uStart) / 4096]
  {
    ScanForOne(s.ubits);
  }

  /** free_physical_pages picks the pool and the bit that alloc_physical_pages has set, for both pools. */
  lemma FreeUndoesAlloc(s: State)
    requires LayoutOk(s)
    ensures AllocKernelFrame(s).Ok? ==>
              var (s1, f) := AllocKernelFrame(s).value; 0 <= f < 0x1_0000_0000 && FreeFrame(s1, f) == Ok(s)
    ensures AllocUserFrame(s).Ok? ==>
              var (s1, f) := AllocUserFrame(s).value; 0 <= f < 0x1_0000_0000 && FreeFrame(s1, f) == Ok(s)
  {
    FreshFrame(s);
    FreshUserFrame(s);
    hide AllocKernelFrame, AllocUserFrame, KernelFrame;
    if AllocKernelFrame(s).Ok? {
      var i := (AllocKernelFrame(s).value.1 - s.kStart) / 4096;
      assert s.kbits[i := true][i := false] == s.kbits;
    }
    if AllocUserFrame(s).Ok? {
      var i := (AllocUserFrame(s).value.1 - s.uStart) / 4096;
      assert s.ubits[i := true][i := false] == s.ubits;
    }
  }

  // ---------------------------------------------------------------- changes of single words

  /** Kernel page table entries are in no directory. */
  lemma EntryNotInDir(s: State, d: Word, i: int, j: nat)
    requires LayoutOk(s) && DirsOk(s) && d in s.dirs && 0 <= i < 1024 && j < 0x8000
    ensures d + 4 * i != EntryAt(j)
  {
  }

  /** Writing the entry of a heap page leaves directories and user tables alone. */
  lemma WriteEntry(s: State, j: nat, w: Word, s': State)
    requires LayoutOk(s) && DirsOk(s) && TablesOk(s) && j < |s.vbits|
    requires s' == s.(mem := Store(s.mem, EntryAt(j), w))
    ensures LayoutOk(s') && DirsOk(s') && TablesOk(s')
    ensures forall d: Word, i: nat :: d in s.dirs && i < 1024 ==> Pde(s'.mem, d, i) == Pde(s.mem, d, i)
    ensures forall k: nat :: k != j ==> FrameOf(s', k) == FrameOf(s, k)
  {
    forall d: Word, i: nat | d in s.dirs && i < 1024 ensures Pde(s'.mem, d, i) == Pde(s.mem, d, i) {
      EntryNotInDir(s, d, i, j);
    }
  }

  /** What makes page `lo` settled: its entry now holds `f`, which was not in use. */
  lemma SettleOne(s: State, s2: State, lo: nat, hi: nat, f: Word)
    requires InvBut(s, lo, hi) && lo < hi && TablesOk(s2)
    requires s2.vbits == s.vbits && s2.dirs == s.dirs
    requires forall g :: KernelFrame(s, g) ==> KernelFrame(s2, g)
    requires !KernelFrame(s, f) && KernelFrame(s2, f)
    requires Present(s2.mem(EntryAt(lo))) && FrameOf(s2, lo) == f && f >= 0x200000
    requires forall k: nat :: k != lo ==> s2.mem(EntryAt(k)) == s.mem(EntryAt(k))
    requires forall d: Word, i: nat :: d in s.dirs && i < 1024 ==> Pde(s2.mem, d, i) == Pde(s.mem, d, i)
    ensures HeapOk(s2, lo + 1, hi)
  {
    hide KernelFrame, Frame, Present, EntryAt, Pde;
    forall j: nat | Settled(s2, lo + 1, hi, j) && j != lo
      ensures Settled(s, lo, hi, j) && FrameOf(s2, j) == FrameOf(s, j) && FrameOf(s2, j) != f
    {
      assert Settled(s, lo, hi, j);
    }
    forall d: Word, i: nat | UserEntry(s2, d, i)
      ensures UserEntry(s, d, i) && Frame(Pde(s2.mem, d, i)) == Frame(Pde(s.mem, d, i)) != f
    {
      assert UserEntry(s, d, i);
    }
  }

  /** One round of malloc_pages: page `lo` gets a frame that was free. */
  lemma MapOne(s: State, lo: nat, hi: nat)
    requires InvBut(s, lo, hi) && lo < hi <= |s.vbits|
    requires AllocKernelFrame(s).Ok?
    ensures var (s1, f) := AllocKernelFrame(s).value;
            && 0 <= f < 0x1_0000_0000 && !KernelFrame(s, f)
            && InsertPage(s1, HeapAddr(lo), f) == Ok(s1.(mem := Store(s.mem, EntryAt(lo), Entry(f))))
            && InvBut(s1.(mem := Store(s.mem, EntryAt(lo), Entry(f))), lo + 1, hi)
            && FrameOf(s1.(mem := Store(s.mem, EntryAt(lo), Entry(f))), lo) == f
  {
    FreshFrame(s);
    var (s1, f) := AllocKernelFrame(s).value;
    var s2 := s1.(mem := Store(s.mem, EntryAt(lo), Entry(f)));
    HeapEntry(s.mem, s.cr3, lo);
    hide AllocKernelFrame, KernelFrame, Frame, Present, KernelHalf, TablePresent, PteAt, HeapOk, Entry;
    WriteEntry(s1, lo, Entry(f), s2);
    SettleOne(s, s2, lo, hi, f);
  }

  ghost function BitFrame(s: State, i: nat): int {
    s.kStart + 4096 * i
  }

  /** `s'` differs from `s` at most in the frame bitmap and in the entries of the heap pages lo..hi-1. */
  ghost predicate OnlyEntries(s: State, s': State, lo: nat, hi: nat) {
    && s' == s.(kbits := s'.kbits, mem := s'.mem) && |s'.kbits| == |s.kbits|
    && (forall a :: !(EntryAt(lo) <= a < EntryAt(hi)) ==> s'.mem(a) == s.mem(a))
  }

  /** `s'` has, beyond the frames in use in `s`, exactly those of the pages lo..hi-1 in use, which were free. */
  ghost predicate FramesTaken(s: State, s': State, lo: nat, hi: nat) {
    && |s'.kbits| == |s.kbits| && s'.kStart == s.kStart
    && (forall j: nat :: lo <= j < hi ==> KernelFrame(s', FrameOf(s', j)) && !KernelFrame(s, FrameOf(s', j)))
    && (forall i: nat :: i < |s.kbits| ==>
          (s'.kbits[i] <==> s.kbits[i] || exists j: nat :: lo <= j < hi && FrameOf(s', j) == BitFrame(s, i)))
  }

  lemma WriteIsOnlyEntry(s: State, s2: State, k: nat, w: Word)
    requires s2 == s.(kbits := s2.kbits, mem := Store(s.mem, EntryAt(k), w)) && |s2.kbits| == |s.kbits|
    ensures OnlyEntries(s, s2, k, k + 1) && FrameOf(s2, k) == Frame(w)
  {
    hide Frame;
  }

  lemma FrameBit(s: State, k: nat)
    requires k < |s.kbits| && s.kStart % 4096 == 0
    ensures KernelFrame(s, BitFrame(s, k)) <==> s.kbits[k]
  {
    assert (BitFrame(s, k) - s.kStart) / 4096 == k;
  }

  lemma TakeBit(s: State, lo: nat, k: nat, s2: State)
    requires k < |s.kbits| && !s.kbits[k] && s2.kbits == s.kbits[k := true]
    requires s2.kStart == s.kStart && s.kStart % 4096 == 0 && FrameOf(s2, lo) == BitFrame(s, k)
    ensures FramesTaken(s, s2, lo, lo + 1)
  {
    hide FrameOf, KernelFrame;
    FrameBit(s, k);
    FrameBit(s2, k);
    forall i: nat | i < |s.kbits|
      ensures s2.kbits[i] <==> s.kbits[i] || exists j: nat :: lo <= j < lo + 1 && FrameOf(s2, j) == BitFrame(s, i)
    {
      if i == k {
        assert FrameOf(s2, lo) == BitFrame(s, i);
      }
    }
  }

  lemma TakeOne(s: State, lo: nat, f: Word, s2: State)
    requires LayoutOk(s) && AllocKernelFrame(s).Ok? && AllocKernelFrame(s).value.1 == f
    requires s2 == AllocKernelFrame(s).value.0.(mem := Store(s.mem, EntryAt(lo), Entry(f)))
    ensures OnlyEntries(s, s2, lo, lo + 1) && FramesTaken(s, s2, lo, lo + 1)
  {
    hide Frame, Entry, FrameOf, KernelFrame, AllocKernelFrame, OnlyEntries, FramesTaken;
    FreshFrame(s);
    WriteIsOnlyEntry(s, s2, lo, Entry(f));
    TakeBit(s, lo, (f - s.kStart) / 4096, s2);
  }

  lemma TakeNone(s: State, lo: nat)
    ensures OnlyEntries(s, s, lo, lo) && FramesTaken(s, s, lo, lo)
  {
  }

  lemma OtherEntriesStay(s: State, s': State, lo: nat, hi: nat, k: nat)
    requires OnlyEntries(s, s', lo, hi) && !(lo <= k < hi)
    ensures s'.mem(EntryAt(k)) == s.mem(EntryAt(k)) && FrameOf(s', k) == FrameOf(s, k)
  {
  }

  lemma ChangeMore(s: State, s2: State, s': State, lo: nat, mid: nat, hi: nat)
    requires lo <= mid <= hi
    requires OnlyEntries(s, s2, lo, mid) && OnlyEntries(s2, s', mid, hi)
    ensures OnlyEntries(s, s', lo, hi)
    ensures forall j: nat :: lo <= j < mid ==> FrameOf(s', j) == FrameOf(s2, j)
  {
    forall j: nat | lo <= j < mid ensures FrameOf(s', j) == FrameOf(s2, j) {
      OtherEntriesStay(s2, s', mid, hi, j);
    }
  }

  lemma TakeMore(s: State, s2: State, s': State, lo: nat, mid: nat, hi: nat)
    requires lo <= mid <= hi
    requires forall j: nat :: lo <= j < mid ==> FrameOf(s', j) == FrameOf(s2, j)
    requires FramesTaken(s, s2, lo, mid) && FramesTaken(s2, s', mid, hi)
    ensures FramesTaken(s, s', lo, hi)
  {
    hide FrameOf;
    forall j: nat | lo <= j < hi
      ensures KernelFrame(s', FrameOf(s', j)) && !KernelFrame(s, FrameOf(s', j))
    {
      MarksGrow(s, s2, lo, mid, FrameOf(s', j));
      MarksGrow(s2, s', mid, hi, FrameOf(s', j));
    }
    hide KernelFrame;
    forall i: nat | i < |s.kbits|
      ensures s'.kbits[i] <==> s.kbits[i] || exists j: nat :: lo <= j < hi && FrameOf(s', j) == BitFrame(s, i)
    {
      assert BitFrame(s2, i) == BitFrame(s, i);
      if s'.kbits[i] && !s2.kbits[i] {
        var j: nat :| mid <= j < hi && FrameOf(s', j) == BitFrame(s2, i);
      } else if s2.kbits[i] && !s.kbits[i] {
        var j: nat :| lo <= j < mid && FrameOf(s2, j) == BitFrame(s, i);
        assert FrameOf(s', j) == BitFrame(s, i);
      }
    }
  }

  lemma MarksGrow(s: State, s': State, lo: nat, hi: nat, f: int)
    requires FramesTaken(s, s', lo, hi)
    ensures KernelFrame(s, f) ==> KernelFrame(s', f)
  {
  }

  /** The loop of malloc_pages. */
  lemma {:induction false} MapPagesKeeps(s: State, lo: nat, hi: nat)
    requires InvBut(s, lo, hi) && lo <= hi <= |s.vbits|
    requires MapPages(s, lo, hi - lo).Ok?
    ensures var s' := MapPages(s, lo, hi - lo).value;
            InvBut(s', hi, hi) && OnlyEntries(s, s', lo, hi) && FramesTaken(s, s', lo, hi)
    decreases hi - lo
  {
    hide InsertPage, AllocKernelFrame, KernelFrame, FrameOf, HeapOk, TablesOk, DirsOk, OnlyEntries, FramesTaken;
    TakeNone(s, lo);
    if lo < hi {
      MapOne(s, lo, hi);
      var (s1, f) := AllocKernelFrame(s).value;
      var s2 := s1.(mem := Store(s.mem, EntryAt(lo), Entry(f)));
      TakeOne(s, lo, f, s2);
      MapPagesKeeps(s2, lo + 1, hi);
      var s' := MapPages(s, lo, hi - lo).value;
      ChangeMore(s, s2, s', lo, lo + 1, hi);
      TakeMore(s, s2, s', lo, lo + 1, hi);
    }
  }
}
