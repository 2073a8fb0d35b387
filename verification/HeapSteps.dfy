/** malloc_pages, free_pages, create_page_dir and the user mappings keep the invariant, over whole runs. */
module HeapSteps {
  import opened Words
  import opened Bitmaps
  import opened Paging
  import opened KernelMemory
  import opened HeapInvariant

  // ---------------------------------------------------------------- malloc_pages

  /** The pages j..j+n-1 were free and are now marked and mapped to frames that were free; nothing else has
      changed but their entries. */
  ghost predicate Allocated(s: State, s': State, j: nat, n: nat) {
    && n >= 1 && ClearRun(s.vbits, j, n)
    && s'.vbits == SetRun(s.vbits, j, n, true)
    && OnlyEntries(s.(vbits := s'.vbits), s', j, j + n)
    && FramesTaken(s, s', j, j + n)
  }

  /** malloc_pages in two steps: the scan of the heap's bitmap, and the loop over the marked pages. */
  lemma MallocPagesParts(s: State, n: nat)
    requires LayoutOk(s) && MallocPages(s, n).Ok?
    ensures var (s', j) := MallocPages(s, n).value;
            && n >= 1 && ClearRun(s.vbits, j, n)
            && MapPages(s.(vbits := SetRun(s.vbits, j, n, true)), j, n) == Ok(s')
  {
    hide MapPages, ScanFrom;
    ScanFromExact(s.vbits, 0, RunLength(n));
  }

  lemma MarksOnly(s: State, s1: State, s': State, lo: nat, hi: nat)
    requires s1.kbits == s.kbits && s1.kStart == s.kStart && FramesTaken(s1, s', lo, hi)
    ensures FramesTaken(s, s', lo, hi)
  {
    hide FrameOf;
    assert forall f :: KernelFrame(s1, f) == KernelFrame(s, f);
    hide KernelFrame;
    assert forall i: nat :: BitFrame(s1, i) == BitFrame(s, i);
  }

  lemma MallocPagesKeeps(s: State, n: nat)
    requires Inv(s) && MallocPages(s, n).Ok?
    ensures var (s', j) := MallocPages(s, n).value;
            Inv(s') && Allocated(s, s', j, n)
  {
    hide DirsOk, TablesOk, HeapOk, MapPages, FramesTaken, MallocPages;
    MallocPagesParts(s, n);
    var (s', j) := MallocPages(s, n).value;
    var s1 := s.(vbits := SetRun(s.vbits, j, n, true));
    MarkPending(s, j, n);
    MapPagesKeeps(s1, j, j + n);
    assert s'.vbits == s1.vbits;
    hide OnlyEntries;
    MarksOnly(s, s1, s', j, j + n);
    NothingPending(s', j + n);
  }

  lemma MarkPending(s: State, j: nat, n: nat)
    requires Inv(s) && j + n <= |s.vbits|
    ensures InvBut(s.(vbits := SetRun(s.vbits, j, n, true)), j, j + n)
  {
    var s1 := s.(vbits := SetRun(s.vbits, j, n, true));
    hide KernelFrame, Frame, EntryAt;
    assert forall k: nat :: Settled(s1, j, j + n, k) ==> Settled(s, 0, 0, k);
    assert forall d: Word, i: nat :: UserEntry(s1, d, i) ==> UserEntry(s, d, i);
    assert forall k: nat :: FrameOf(s1, k) == FrameOf(s, k);
    assert forall f :: KernelFrame(s1, f) == KernelFrame(s, f);
  }

  lemma NothingPending(s: State, k: nat)
    requires InvBut(s, k, k)
    ensures Inv(s)
  {
    hide KernelFrame, Frame, EntryAt, FrameOf;
    assert forall j: nat :: Settled(s, 0, 0, j) ==> Settled(s, k, k, j);
  }

  ghost function FreeFrames(s: State): set<nat> {
    set i: nat | i < |s.kbits| && !s.kbits[i]
  }

  lemma NoneFree(s: State)
    requires LayoutOk(s)
    ensures AllocKernelFrame(s).Ok? <==> |FreeFrames(s)| >= 1
    ensures AllocKernelFrame(s).Ok? ==>
              AllocKernelFrame(s).value.0 == s.(kbits := AllocKernelFrame(s).value.0.kbits)
  {
    FreshFrame(s);
    if i: nat :| i < |s.kbits| && !s.kbits[i] {
      assert i in FreeFrames(s);
    }
  }

  lemma OneLessFree(s: State, s2: State)
    requires LayoutOk(s) && AllocKernelFrame(s).Ok? && s2.kbits == AllocKernelFrame(s).value.0.kbits
    ensures |FreeFrames(s)| == |FreeFrames(s2)| + 1
  {
    FreshFrame(s);
    var k := (AllocKernelFrame(s).value.1 - s.kStart) / 4096;
    assert FreeFrames(s) == FreeFrames(s2) + {k} && k !in FreeFrames(s2);
  }

  lemma {:induction false} MapPagesSucceeds(s: State, lo: nat, hi: nat)
    requires InvBut(s, lo, hi) && lo <= hi <= |s.vbits|
    ensures MapPages(s, lo, hi - lo).Ok? <==> |FreeFrames(s)| >= hi - lo
    ensures MapPages(s, lo, hi - lo).Ok? ==>
              |FreeFrames(MapPages(s, lo, hi - lo).value)| == |FreeFrames(s)| - (hi - lo)
    decreases hi - lo
  {
    hide InsertPage, HeapOk, TablesOk, DirsOk, FreeFrames, AllocKernelFrame, KernelFrame, FrameOf, Frame;
    NoneFree(s);
    if lo < hi {
      if AllocKernelFrame(s).Ok? {
        MapOne(s, lo, hi);
        var (s1, f) := AllocKernelFrame(s).value;
        var s2 := s1.(mem := Store(s.mem, EntryAt(lo), Entry(f)));
        OneLessFree(s, s2);
        MapPagesSucceeds(s2, lo + 1, hi);
      }
    }
  }

  /** Exactly when malloc_pages succeeds: the bitmap of the heap has a run that the scan finds, and the pool
      has as many free frames as pages are wanted. */
  lemma MallocPagesSucceeds(s: State, n: nat)
    requires Inv(s) && n >= 1
    ensures MallocPages(s, n).Ok? <==> ScanBits(s.vbits, n).Found? && |FreeFrames(s)| >= n
    ensures MallocPages(s, n).Ok? ==> |FreeFrames(MallocPages(s, n).value.0)| == |FreeFrames(s)| - n
  {
    hide DirsOk, TablesOk, HeapOk, MapPages, ScanFrom;
    ScanFromExact(s.vbits, 0, n);
    if ScanBits(s.vbits, n).Found? {
      var j := ScanBits(s.vbits, n).start;
      MarkPending(s, j, n);
      var s1 := s.(vbits := SetRun(s.vbits, j, n, true));
      MapPagesSucceeds(s1, j, j + n);
      assert FreeFrames(s1) == FreeFrames(s);
    }
  }

  // ---------------------------------------------------------------- free_pages

  /** The frame of a settled page goes back to the pool; the page is pending until its mark is removed. */
  lemma UnmapOne(s: State, lo: nat, k: nat)
    requires InvBut(s, lo, k) && lo <= k && Settled(s, lo, k, k) && FrameOf(s, k) !in s.dirs
    ensures var f := FrameOf(s, k);
            var s' := s.(kbits := s.kbits[(f - s.kStart) / 4096 := false],
                         mem := Store(s.mem, EntryAt(k), Absent(s.mem(EntryAt(k)))));
            FreePage(s, HeapAddr(k), false) == Ok(s') && InvBut(s', lo, k + 1)
  {
    var f := FrameOf(s, k);
    var s1 := s.(kbits := s.kbits[(f - s.kStart) / 4096 := false]);
    var s' := s1.(mem := Store(s.mem, EntryAt(k), Absent(s.mem(EntryAt(k)))));
    assert KernelFrame(s, f);
    FreePageIs(s, k);
    UnmarkOne(s, lo, k);
    hide KernelFrame, HeapOk, Frame, Absent;
    WriteEntry(s1, k, Absent(s.mem(EntryAt(k))), s');
    StillSettled(s1, s', lo, k);
  }

  lemma HeapV2p(s: State, k: nat)
    requires LayoutOk(s) && DirsOk(s) && k < |s.vbits|
    ensures Walk(s.mem, s.cr3, PteAddr(HeapAddr(k))).Some?
    ensures AddrV2p(s.mem, s.cr3, HeapAddr(k)) == FrameOf(s, k)
  {
    hide PteAddr, PdeAt, PteAt, Frame, KernelHalf, Walk, TablePresent, KernelFrame;
    HeapEntry(s.mem, s.cr3, k);
    assert HeapAddr(k) % 4096 == 0;
  }

  lemma FreePageIs(s: State, k: nat)
    requires LayoutOk(s) && DirsOk(s) && k < |s.vbits|
    requires Present(s.mem(EntryAt(k))) && KernelFrame(s, FrameOf(s, k))
    ensures FreePage(s, HeapAddr(k), false) ==
            Ok(s.(kbits := s.kbits[(FrameOf(s, k) - s.kStart) / 4096 := false],
                  mem := Store(s.mem, EntryAt(k), Absent(s.mem(EntryAt(k))))))
  {
    hide PteAddr, PdeAt, PteAt, Frame, Absent, KernelHalf, Walk, TablePresent;
    HeapEntry(s.mem, s.cr3, k);
    HeapV2p(s, k);
  }

  lemma UnmarkedFrame(s: State, s1: State, f: int)
    requires KernelFrame(s, f) && s.kStart % 4096 == 0
    requires s1 == s.(kbits := s.kbits[(f - s.kStart) / 4096 := false])
    ensures forall g :: KernelFrame(s1, g) <==> KernelFrame(s, g) && g != f
  {
  }

  /** Without the mark of the frame of page `k`, everything but page `k` is as it was. */
  lemma UnmarkOne(s: State, lo: nat, k: nat)
    requires InvBut(s, lo, k) && lo <= k && Settled(s, lo, k, k) && FrameOf(s, k) !in s.dirs
    ensures InvBut(s.(kbits := s.kbits[(FrameOf(s, k) - s.kStart) / 4096 := false]), lo, k + 1)
  {
    var f := FrameOf(s, k);
    var s1 := s.(kbits := s.kbits[(f - s.kStart) / 4096 := false]);
    UnmarkedFrame(s, s1, f);
    hide KernelFrame, Frame, KernelHalf, EntryAt, Pde;
    assert forall d: Word, i: nat :: UserEntry(s1, d, i) ==> UserEntry(s, d, i);
    assert forall j: nat :: FrameOf(s1, j) == FrameOf(s, j);
    assert forall j: nat :: Settled(s1, lo, k + 1, j) ==> Settled(s, lo, k, j) && j != k;
  }

  /** Changing the entry of a page that is not settled. */
  lemma StillSettled(s: State, s': State, lo: nat, k: nat)
    requires InvBut(s, lo, k + 1) && TablesOk(s') && lo <= k
    requires s'.vbits == s.vbits && s'.dirs == s.dirs && s'.kbits == s.kbits && s'.kStart == s.kStart
    requires forall j: nat :: j != k ==> s'.mem(EntryAt(j)) == s.mem(EntryAt(j))
    requires forall d: Word, i: nat :: d in s.dirs && i < 1024 ==> Pde(s'.mem, d, i) == Pde(s.mem, d, i)
    ensures HeapOk(s', lo, k + 1)
  {
    assert forall f :: KernelFrame(s', f) == KernelFrame(s, f);
    hide KernelFrame, Frame, Present, EntryAt, Pde;
    forall j: nat | Settled(s', lo, k + 1, j)
      ensures Settled(s, lo, k + 1, j) && FrameOf(s', j) == FrameOf(s, j)
    {
      assert s'.mem(EntryAt(j)) == s.mem(EntryAt(j));
    }
    assert forall d: Word, i: nat :: UserEntry(s', d, i) ==> UserEntry(s, d, i);
  }

  /** `s'` lacks exactly the marks of the frames that the pages lo..hi-1 have in `s`; their entries are no
      longer present. */
  ghost predicate FramesReleased(s: State, s': State, lo: nat, hi: nat) {
    && |s'.kbits| == |s.kbits| && s'.kStart == s.kStart
    && (forall j: nat :: lo <= j < hi ==> !Present(s'.mem(EntryAt(j))))
    && (forall i: nat :: i < |s.kbits| ==>
          (s'.kbits[i] <==> s.kbits[i] && forall j: nat :: lo <= j < hi ==> FrameOf(s, j) != BitFrame(s, i)))
  }

  ghost predicate MayRelease(s: State, lo: nat, k: nat, hi: nat) {
    forall j: nat :: k <= j < hi ==> Settled(s, lo, k, j) && FrameOf(s, j) !in s.dirs
  }

  lemma ReleaseOne(s: State, k: nat, s': State)
    requires LayoutOk(s) && KernelFrame(s, FrameOf(s, k))
    requires s' == s.(kbits := s.kbits[(FrameOf(s, k) - s.kStart) / 4096 := false],
                      mem := Store(s.mem, EntryAt(k), Absent(s.mem(EntryAt(k)))))
    ensures OnlyEntries(s, s', k, k + 1) && FramesReleased(s, s', k, k + 1)
  {
    var f := FrameOf(s, k);
    var b := (f - s.kStart) / 4096;
    assert BitFrame(s, b) == f;
    hide Frame, FrameOf, OnlyEntries, Absent;
    WriteIsOnlyEntry(s, s', k, Absent(s.mem(EntryAt(k))));
    forall i: nat | i < |s.kbits|
      ensures s'.kbits[i] <==> s.kbits[i] && forall j: nat :: k <= j < k + 1 ==> FrameOf(s, j) != BitFrame(s, i)
    {
      if i == b {
        assert FrameOf(s, k) == BitFrame(s, i);
      }
    }
  }

  lemma ReleaseMore(s: State, s2: State, s': State, lo: nat, mid: nat, hi: nat)
    requires lo <= mid <= hi
    requires OnlyEntries(s, s2, lo, mid) && OnlyEntries(s2, s', mid, hi)
    requires FramesReleased(s, s2, lo, mid) && FramesReleased(s2, s', mid, hi)
    ensures FramesReleased(s, s', lo, hi)
  {
    hide Present, Frame;
    forall j: nat | lo <= j < hi ensures !Present(s'.mem(EntryAt(j))) {
      if j < mid {
        OtherEntriesStay(s2, s', mid, hi, j);
      }
    }
    forall j: nat | mid <= j < hi ensures FrameOf(s2, j) == FrameOf(s, j) {
      OtherEntriesStay(s, s2, lo, mid, j);
    }
    assert forall i: nat :: BitFrame(s2, i) == BitFrame(s, i);
    hide FrameOf, BitFrame, OnlyEntries;
  }

  lemma UnmapStep(s: State, lo: nat, k: nat, hi: nat)
    requires InvBut(s, lo, k) && lo <= k < hi <= |s.vbits| && MayRelease(s, lo, k, hi)
    ensures FreePage(s, HeapAddr(k), false).Ok?
    ensures var s2 := FreePage(s, HeapAddr(k), false).value;
            && |s2.vbits| == |s.vbits| && InvBut(s2, lo, k + 1) && MayRelease(s2, lo, k + 1, hi)
            && OnlyEntries(s, s2, k, k + 1) && FramesReleased(s, s2, k, k + 1)
  {
    assert Settled(s, lo, k, k) && FrameOf(s, k) !in s.dirs;
    assert KernelFrame(s, FrameOf(s, k));
    hide FreePage, KernelFrame, FramesReleased, DirsOk, TablesOk, HeapOk, MayRelease, OnlyEntries, FrameOf;
    UnmapOne(s, lo, k);
    var s2 := FreePage(s, HeapAddr(k), false).value;
    ReleaseOne(s, k, s2);
    MayReleaseRest(s, s2, lo, k, hi);
  }

  lemma MayReleaseRest(s: State, s2: State, lo: nat, k: nat, hi: nat)
    requires MayRelease(s, lo, k, hi) && lo <= k && OnlyEntries(s, s2, k, k + 1)
    ensures MayRelease(s2, lo, k + 1, hi)
  {
    var k' := k + 1;
    forall j: nat | k' <= j < hi ensures Settled(s2, lo, k', j) && FrameOf(s2, j) !in s2.dirs {
      assert Settled(s, lo, k, j) && FrameOf(s, j) !in s.dirs;
      OtherEntriesStay(s, s2, k, k', j);
    }
  }

  /** The loop of free_pages. */
  lemma {:induction false} UnmapPagesKeeps(s: State, lo: nat, k: nat, hi: nat)
    requires InvBut(s, lo, k) && lo <= k <= hi <= |s.vbits| && MayRelease(s, lo, k, hi)
    ensures UnmapPages(s, k, hi - k, false).Ok?
    ensures var s' := UnmapPages(s, k, hi - k, false).value;
            InvBut(s', lo, hi) && OnlyEntries(s, s', k, hi) && FramesReleased(s, s', k, hi)
    decreases hi - k
  {
    hide FreePage, DirsOk, TablesOk, HeapOk, FramesReleased, OnlyEntries, MayRelease;
    ReleaseNone(s, k);
    if k < hi {
      UnmapStep(s, lo, k, hi);
      var s2 := FreePage(s, HeapAddr(k), false).value;
      UnmapPagesKeeps(s2, lo, k + 1, hi);
      var s' := UnmapPages(s, k, hi - k, false).value;
      ChangeMore(s, s2, s', k, k + 1, hi);
      ReleaseMore(s, s2, s', k, k + 1, hi);
    }
  }

  lemma ReleaseNone(s: State, k: nat)
    ensures OnlyEntries(s, s, k, k) && FramesReleased(s, s, k, k)
  {
  }

  /** Pages that a caller may hand to free_pages: marked heap pages that do not hold a page directory. */
  ghost predicate Freeable(s: State, j: nat, n: nat) {
    && n >= 1 && j + n <= |s.vbits|
    && (forall k: nat :: j <= k < j + n ==> s.vbits[k] && FrameOf(s, k) !in s.dirs)
  }

  /** free_pages on such pages does not fail an assertion; it chooses the kernel pool and gives back exactly
      the frames of these pages, and afterwards the pages are neither marked nor mapped. */
  lemma FreePagesKeeps(s: State, j: nat, n: nat)
    requires Inv(s) && Freeable(s, j, n)
    ensures FreePages(s, j, n).Ok?
    ensures var s' := FreePages(s, j, n).value;
            && Inv(s') && s'.vbits == SetRun(s.vbits, j, n, false)
            && FramesReleased(s, s', j, j + n) && OnlyEntries(s.(vbits := s'.vbits), s', j, j + n)
  {
    hide DirsOk, TablesOk, HeapOk, FramesReleased, UnmapPages, Frame;
    FreePagesBranch(s, j, n);
    PendingNone(s, j);
    assert MayRelease(s, j, j, j + n) by {
      forall k: nat | j <= k < j + n ensures Settled(s, j, j, k) && FrameOf(s, k) !in s.dirs {}
    }
    UnmapPagesKeeps(s, j, j, j + n);
    var s1 := UnmapPages(s, j, n, false).value;
    var s' := s1.(vbits := SetRun(s1.vbits, j, n, false));
    hide FrameOf, MayRelease;
    UnmarkPending(s1, j, n);
    VbitsDoNotMatter(s, s1, s', j, j + n);
  }

  lemma FreePagesBranch(s: State, j: nat, n: nat)
    requires Inv(s) && Freeable(s, j, n)
    ensures FreePages(s, j, n) ==
            match UnmapPages(s, j, n, false)
            case Halt => Halt
            case Ok(s1) => if |s1.vbits| == |s.vbits| then Ok(s1.(vbits := SetRun(s1.vbits, j, n, false))) else Halt
  {
    assert Settled(s, 0, 0, j);
    assert KernelFrame(s, FrameOf(s, j));
    hide PteAddr, PdeAt, PteAt, Frame, KernelHalf, Walk, TablePresent, UnmapPages, TablesOk, HeapOk;
    HeapV2p(s, j);
  }

  lemma PendingNone(s: State, k: nat)
    requires Inv(s)
    ensures InvBut(s, k, k)
  {
    hide KernelFrame, Frame, EntryAt, FrameOf;
    assert forall j: nat :: Settled(s, k, k, j) ==> Settled(s, 0, 0, j);
  }

  lemma UnmarkPending(s: State, j: nat, n: nat)
    requires InvBut(s, j, j + n) && j + n <= |s.vbits|
    ensures Inv(s.(vbits := SetRun(s.vbits, j, n, false)))
  {
    var s1 := s.(vbits := SetRun(s.vbits, j, n, false));
    var hi := j + n;
    hide KernelFrame, Frame, EntryAt;
    assert forall k: nat :: Settled(s1, 0, 0, k) ==> Settled(s, j, hi, k);
    assert forall d: Word, i: nat :: UserEntry(s1, d, i) ==> UserEntry(s, d, i);
    assert forall k: nat :: FrameOf(s1, k) == FrameOf(s, k);
    assert forall f :: KernelFrame(s1, f) == KernelFrame(s, f);
  }

  lemma VbitsDoNotMatter(s: State, s1: State, s': State, lo: nat, hi: nat)
    requires FramesReleased(s, s1, lo, hi) && s' == s1.(vbits := s'.vbits)
    ensures FramesReleased(s, s', lo, hi)
  {
    hide FrameOf, BitFrame;
  }

  /** free_pages undoes malloc_pages: the bitmap of the heap and the bitmap of the pool are what they were. */
  lemma FreeUndoesMalloc(s: State, n: nat, s1: State, j: nat)
    requires Inv(s) && MallocPages(s, n) == Ok((s1, j))
    ensures j + n <= |s1.vbits| <= 0x8000 && FreePages(s1, j, n).Ok?
    ensures FreePages(s1, j, n).value.vbits == s.vbits && FreePages(s1, j, n).value.kbits == s.kbits
  {
    hide MallocPages, FreePages, DirsOk, TablesOk, HeapOk, KernelFrame, FrameOf, OnlyEntries, FramesReleased;
    MallocPagesKeeps(s, n);
    NewPagesHoldNoDirs(s, s1, j, n);
    FreePagesKeeps(s1, j, n);
    var s2 := FreePages(s1, j, n).value;
    assert s2.vbits == s.vbits;
    TakenThenReleased(s, s1, s2, j, j + n);
  }

  lemma NewPagesHoldNoDirs(s: State, s1: State, j: nat, n: nat)
    requires Inv(s) && Allocated(s, s1, j, n) && |s.vbits| == |s1.vbits|
    ensures Freeable(s1, j, n)
  {
    hide TablesOk, HeapOk, FrameOf, KernelHalf;
    assert !KernelFrame(s, BOOT_DIR);
    forall k: nat | j <= k < j + n ensures FrameOf(s1, k) !in s1.dirs {
      assert KernelFrame(s1, FrameOf(s1, k)) && !KernelFrame(s, FrameOf(s1, k));
    }
  }

  lemma TakenThenReleased(s: State, s1: State, s2: State, lo: nat, hi: nat)
    requires s.kStart % 4096 == 0
    requires FramesTaken(s, s1, lo, hi) && FramesReleased(s1, s2, lo, hi)
    ensures s2.kbits == s.kbits
  {
    hide FrameOf, KernelFrame;
    forall i: nat | i < |s.kbits| ensures s2.kbits[i] == s.kbits[i] {
      assert BitFrame(s1, i) == BitFrame(s, i);
      FrameBit(s, i);
    }
  }
}
