/** Whole runs of sys_malloc, sys_free, malloc_pages and free_pages: memory that is handed out never overlaps, and
    giving everything back restores the heap. */
module SlabRuns {
  import opened Words
  import opened Bitmaps
  import opened Paging
  import opened KernelMemory
  import opened HeapInvariant
  import opened HeapSteps
  import HeapRuns
  import opened Slab
  import opened SlabInvariant
  import opened SlabSteps

  // ---------------------------------------------------------------- allocated memory

  /** The bytes b..b+room-1 that a caller may use, inside the pages of its arena and behind the header. */
  lemma LiveBytes(h: Heap, p: nat, b: int)
    requires SlabInv(h) && LiveIn(h, p, b)
    ensures p + PagesOf(h.arenas[p]) <= 0x8000
    ensures HeapAddr(p) + ARENA_HEADER <= b
    ensures b + Room(h.arenas[p]) <= HeapAddr(p) + 4096 * PagesOf(h.arenas[p])
  {
    hide DirsOk, TablesOk, HeapOk, CountsOk, BlocksPerArena, HeapPage, NoDup, BlockSize;
    if h.arenas[p].Small? {
      var c := h.arenas[p].desc;
      BlockToArena(p, c, BlockOf(p, c, b));
    }
  }

  /** Two different live pointers give access to disjoint bytes, whatever their sizes. */
  lemma LiveDisjoint(h: Heap, p: nat, b: int, q: nat, x: int)
    requires SlabInv(h) && LiveIn(h, p, b) && LiveIn(h, q, x) && b < x
    ensures b + Room(h.arenas[p]) <= x
  {
    LiveBytes(h, p, b);
    LiveBytes(h, q, x);
    if p == q {
      SameArenaApart(h, p, b, x);
    } else {
      ArenasApart(h, p, q);
    }
  }

  lemma ArenasApart(h: Heap, p: nat, q: nat)
    requires ArenasOk(h) && p in h.arenas && q in h.arenas && p != q
    ensures p + PagesOf(h.arenas[p]) <= q || q + PagesOf(h.arenas[q]) <= p
  {
  }

  lemma SameArenaApart(h: Heap, p: nat, b: int, x: int)
    requires LiveIn(h, p, b) && LiveIn(h, p, x) && b < x
    ensures b + Room(h.arenas[p]) <= x
  {
    var c := h.arenas[p].desc;
    var i, j := BlockOf(p, c, b), BlockOf(p, c, x);
    if j <= i {
      if j < i { BlocksApart(p, c, j, i); }
    } else {
      BlocksApart(p, c, i, j);
    }
  }

  /** Live memory overlaps no arena header. */
  lemma LiveAvoidsHeaders(h: Heap, p: nat, b: int, q: nat)
    requires SlabInv(h) && LiveIn(h, p, b) && q in h.arenas
    ensures q <= 0x8000 && (b + Room(h.arenas[p]) <= HeapAddr(q) || HeapAddr(q) + ARENA_HEADER <= b)
  {
    hide DirsOk, TablesOk, HeapOk, CountsOk, LiveIn, ListsOk;
    LiveArena(h, p, b);
    LiveBytes(h, p, b);
    if p != q {
      ArenasApart(h, p, q);
    }
  }

  /** Live memory overlaps no node of a free list: the two links are the first 8 bytes of a free block. */
  lemma LiveAvoidsFreeNodes(h: Heap, p: nat, b: int, c: nat, x: int)
    requires SlabInv(h) && LiveIn(h, p, b) && c < DESC_CNT && x in h.free[c]
    ensures b + Room(h.arenas[p]) <= x || x + 8 <= b
  {
    hide DirsOk, TablesOk, HeapOk, CountsOk, NoDup, BlocksPerArena;
    var q: nat :| Owned(h, q, c, x);
    var j := BlockOf(q, c, x);
    LiveBytes(h, p, b);
    BlockToArena(q, c, j);
    if p != q {
      ArenasApart(h, p, q);
    } else {
      var i := BlockOf(p, c, b);
      if i < j {
        BlocksApart(p, c, i, j);
      } else if j < i {
        BlocksApart(p, c, j, i);
      }
    }
  }

  /** Exactly when sys_malloc comes back with a pointer: a large allocation when malloc_pages does, a small one when
      its class has a free block or one page can be had. */
  lemma SysMallocSucceeds(h: Heap, size: Word)
    requires SlabInv(h) && 0 < size < h.poolSize && size != 1024
    ensures size > 1024 ==> (SysMalloc(h, size).Ok? <==> MallocPages(h.mm, (size + ARENA_HEADER + 4095) / 4096).Ok?)
    ensures size < 1024 ==>
              ClassFrom(size, 0) < DESC_CNT &&
              (SysMalloc(h, size).Ok? <==> h.free[ClassFrom(size, 0)] != [] || MallocPages(h.mm, 1).Ok?)
  {
    hide DirsOk, TablesOk, HeapOk, ListsOk, ArenasOk, CountsOk, HandedOut, PopBlock, MallocPages, ClassFrom, FillFrom;
    if size > 1024 {
      var n := (size + ARENA_HEADER + 4095) / 4096;
      if MallocPages(h.mm, n).Ok? {
        MallocPagesKeeps(h.mm, n);
        AllocatedRange(h.mm, MallocPages(h.mm, n).value.0, MallocPages(h.mm, n).value.1, n);
      }
    } else {
      NoClassFor1024(size);
      if h.free[ClassFrom(size, 0)] != [] || MallocPages(h.mm, 1).Ok? {
        SmallMallocKeeps(h, size);
      }
    }
  }

  /** The same in terms of the bitmaps and lists: enough free frames, and a run of free pages that the scan finds. */
  lemma SysMallocNeeds(h: Heap, size: Word)
    requires SlabInv(h) && 0 < size < h.poolSize && size != 1024
    ensures var n := if size > 1024 then (size + ARENA_HEADER + 4095) / 4096 else 1;
            SysMalloc(h, size).Ok? <==>
            || (ScanBits(h.mm.vbits, n).Found? && |FreeFrames(h.mm)| >= n)
            || (size < 1024 && ClassFrom(size, 0) < DESC_CNT && h.free[ClassFrom(size, 0)] != [])
  {
    hide DirsOk, TablesOk, HeapOk, ListsOk, ArenasOk, CountsOk, SysMalloc, MallocPages, ClassFrom, FreeFrames, ScanBits;
    SysMallocSucceeds(h, size);
    MallocPagesSucceeds(h.mm, if size > 1024 then (size + ARENA_HEADER + 4095) / 4096 else 1);
  }

  /** sys_malloc on every size: null for 0 and for sizes of the pool and more; for 1024 the search runs past the
      last descriptor; otherwise, if it comes back, exactly one new pointer is live, with room for `size` bytes. */
  lemma SysMallocKeeps(h: Heap, size: Word)
    requires SlabInv(h)
    ensures size == 0 || size >= h.poolSize ==> SysMalloc(h, size) == Ok((h, None))
    ensures size == 1024 < h.poolSize ==> SysMalloc(h, size) == Halt
    ensures 0 < size < h.poolSize && size != 1024 && SysMalloc(h, size).Ok? ==>
              SysMalloc(h, size).value.1.Some? &&
              SlabInv(SysMalloc(h, size).value.0) &&
              HandedOut(h, SysMalloc(h, size).value.0, SysMalloc(h, size).value.1.value, size)
  {
    hide DirsOk, TablesOk, HeapOk, ListsOk, ArenasOk, CountsOk, HandedOut, NewArena, PopBlock, MallocPages, ClassFrom;
    if 0 < size < h.poolSize {
      if size != 1024 {
        SysMallocSucceeds(h, size);
        if SysMalloc(h, size).Ok? && size < 1024 { SmallMallocKeeps(h, size); }
        if SysMalloc(h, size).Ok? && size > 1024 { LargeMallocKeeps(h, size); }
      } else {
        NoClassFor1024(size);
      }
    }
  }

  // ---------------------------------------------------------------- the order of reuse

  /** Blocks are reused in the order in which they were freed: sys_malloc hands out the first block of its list, if
      there is one, and takes no page. */
  lemma FirstBlockOut(h: Heap, size: Word)
    requires SlabInv(h) && 0 < size < 1024 && size < h.poolSize
    requires ClassFrom(size, 0) < DESC_CNT && h.free[ClassFrom(size, 0)] != []
    ensures var c := ClassFrom(size, 0);
            && SysMalloc(h, size).Ok? && SysMalloc(h, size).value.1 == Some(h.free[c][0])
            && var h' := SysMalloc(h, size).value.0;
            h'.free == h.free[c := h.free[c][1..]] && h'.mm == h.mm && h'.arenas.Keys == h.arenas.Keys
  {
    hide Inv, CountsOk, ArenasOk, ClassFrom, BlockSize, BlocksPerArena, FreeBlocks, InArena, HeapPage;
    var c := ClassFrom(size, 0);
    var b := h.free[c][0];
    assert b in h.free[c];
    var p: nat :| Owned(h, p, c, b);
    var i := BlockOf(p, c, b);
    HasCount(h, p);
    PopIs(h, c, p, i);
    hide PopBlock;
  }

  lemma HasCount(h: Heap, p: nat)
    requires CountsOk(h) && p in h.arenas && h.arenas[p].Small?
    ensures CountOk(h, p, h.arenas[p].desc, h.arenas[p].cnt)
  {
  }

  /** A freed block goes to the end of the list of its class, as long as another block of its arena is in use. */
  lemma FreedBlockLast(h: Heap, p: nat, b: Word)
    requires SlabInv(h) && LiveIn(h, p, b) && h.arenas[p].Small?
    requires h.arenas[p].cnt + 1 < BlocksPerArena(h.arenas[p].desc)
    ensures SysFree(h, b).Ok?
    ensures var c, h' := h.arenas[p].desc, SysFree(h, b).value;
            h'.free == h.free[c := h.free[c] + [b]] && h'.mm == h.mm
  {
    HasCount(h, p);
    hide Inv, CountsOk, ArenasOk, ListsOk;
    FreeSmallIs(h, p, b);
  }

  // ---------------------------------------------------------------- what sys_free does not give back

  /** The pages of a large allocation. */
  function PagesFor(size: Word): nat {
    (size + ARENA_HEADER + 4095) / 4096
  }

  /** A pointer is allocated and freed at once. */
  ghost function Round(h: Heap, size: Word): Outcome<Heap>
    requires PagesOk(h.mm) && |h.free| == DESC_CNT
  {
    match SysMalloc(h, size)
    case Halt => Halt
    case Ok((h1, r)) =>
      if r.None? || !(0 <= r.value < 0x1_0000_0000) || |h1.free| != DESC_CNT then Halt else SysFree(h1, r.value)
  }

  ghost function Rounds(h: Heap, size: Word, k: nat): Outcome<Heap>
    requires PagesOk(h.mm) && |h.free| == DESC_CNT
    decreases k
  {
    if k == 0 then Ok(h)
    else
      match Round(h, size)
      case Halt => Halt
      case Ok(h') => if PagesOk(h'.mm) && |h'.free| == DESC_CNT then Rounds(h', size, k - 1) else Halt
  }

  ghost predicate Restored(h: Heap, h': Heap) {
    h'.mm.vbits == h.mm.vbits && h'.arenas == h.arenas && h'.free == h.free && h'.poolSize == h.poolSize
  }

  /** One large allocation of `n` pages that is freed again: headers, lists and the bitmap of the heap are as before,
      and the pool has `n` free frames less. */
  lemma LargeRound(h: Heap, size: Word)
    requires SlabInv(h) && 1024 < size < h.poolSize && SysMalloc(h, size).Ok?
    ensures var n := PagesFor(size);
            && Round(h, size).Ok?
            && var h' := Round(h, size).value;
            && SlabInv(h') && Restored(h, h') && |FreeFrames(h'.mm)| == |FreeFrames(h.mm)| - n
  {
    hide DirsOk, TablesOk, HeapOk, ListsOk, ArenasOk, CountsOk, MallocPages, Allocated, Raw, FreeFrames;
    var n := PagesFor(size);
    LargeMallocKeeps(h, size);
    MallocPagesKeeps(h.mm, n);
    var (mm, p) := MallocPages(h.mm, n).value;
    AllocatedRange(h.mm, mm, p, n);
    MallocPagesSucceeds(h.mm, n);
    PageOfAddr(p, ARENA_HEADER);
    var (h1, r) := SysMalloc(h, size).value;
    var b: Word := r.value;
    assert LiveIn(h1, p, b);
    FreeLargeKeeps(h1, p, b);
    var h2 := SysFree(h1, b).value;
    MarksBack(h.mm, mm, p, n);
    assert h2.mm == mm.(vbits := h.mm.vbits);
    assert p !in h.arenas;
    assert h2.arenas == h.arenas;
    SameFreeFrames(mm, h2.mm);
  }

  lemma InvPages(h: Heap)
    requires SlabInv(h)
    ensures PagesOk(h.mm) && |h.free| == DESC_CNT && Inv(h.mm)
  {
    hide DirsOk, TablesOk, HeapOk, ListsOk, ArenasOk, CountsOk;
  }

  lemma NoRound(h: Heap, size: Word)
    requires PagesOk(h.mm) && |h.free| == DESC_CNT && SysMalloc(h, size).Halt?
    ensures Round(h, size).Halt?
  {
  }

  lemma SameFreeFrames(s: State, s': State)
    requires s'.kbits == s.kbits
    ensures FreeFrames(s') == FreeFrames(s)
  {
  }

  lemma MarksBack(s: State, s': State, p: nat, n: nat)
    requires Allocated(s, s', p, n)
    ensures p + n <= |s'.vbits| && SetRun(s'.vbits, p, n, false) == s.vbits
  {
    hide OnlyEntries, FramesTaken;
  }

  /** What `k` rounds need and leave: `total` frames. */
  ghost predicate Leak(h: Heap, size: Word, n: nat, k: nat, total: nat)
    requires PagesOk(h.mm) && |h.free| == DESC_CNT
  {
    var r := Rounds(h, size, k);
    && (r.Ok? <==> k == 0 || (ScanBits(h.mm.vbits, n).Found? && total <= |FreeFrames(h.mm)|))
    && (r.Ok? ==> SlabInv(r.value) && Restored(h, r.value) && |FreeFrames(r.value.mm)| == |FreeFrames(h.mm)| - total)
  }

  lemma OneMoreRound(h: Heap, size: Word, n: nat, k: nat, total: nat)
    requires SlabInv(h) && 1024 < size < h.poolSize && n == PagesFor(size) && k > 0
    requires total >= n
    requires Round(h, size).Ok? ==>
               SlabInv(Round(h, size).value) && (k == 1 ==> total == n)
               && PagesOk(Round(h, size).value.mm) && |Round(h, size).value.free| == DESC_CNT
               && Leak(Round(h, size).value, size, n, k - 1, total - n)
    ensures PagesOk(h.mm) && |h.free| == DESC_CNT && Leak(h, size, n, k, total)
  {
    InvPages(h);
    hide SlabInv, PagesOk, SysMalloc, Round, FreeFrames, ScanBits, MallocPages;
    SysMallocNeeds(h, size);
    if SysMalloc(h, size).Ok? {
      LargeRound(h, size);
    } else {
      NoRound(h, size);
    }
  }

  lemma RoundKeeps(h: Heap, size: Word)
    requires SlabInv(h) && 1024 < size < h.poolSize && PagesOk(h.mm) && |h.free| == DESC_CNT && Round(h, size).Ok?
    ensures SlabInv(Round(h, size).value) && Round(h, size).value.poolSize == h.poolSize
    ensures PagesOk(Round(h, size).value.mm) && |Round(h, size).value.free| == DESC_CNT
  {
    hide SlabInv, PagesOk, SysMalloc, Round, FreeFrames, ScanBits, MallocPages;
    if SysMalloc(h, size).Ok? {
      LargeRound(h, size);
      InvPages(Round(h, size).value);
    } else {
      NoRound(h, size);
    }
  }

  function Times(k: nat, n: nat): nat {
    k * n
  }

  lemma Product(k: nat, n: nat)
    requires k > 0
    ensures Times(k, n) == Times(k - 1, n) + n && (k == 1 ==> Times(k, n) == n)
  {
  }

  lemma NoRounds(h: Heap, size: Word, n: nat)
    requires SlabInv(h) && PagesOk(h.mm) && |h.free| == DESC_CNT
    ensures Leak(h, size, n, 0, 0) && Times(0, n) == 0
  {
    hide SlabInv, PagesOk;
  }

  lemma {:induction false} LeakAdds(h: Heap, size: Word, k: nat)
    requires SlabInv(h) && 1024 < size < h.poolSize && PagesOk(h.mm) && |h.free| == DESC_CNT
    ensures Leak(h, size, PagesFor(size), k, Times(k, PagesFor(size)))
    decreases k
  {
    hide SlabInv, PagesOk, SysMalloc, Round, Leak, Times, PagesFor;
    var n := PagesFor(size);
    if k == 0 {
      NoRounds(h, size, n);
    } else {
      if Round(h, size).Ok? {
        RoundKeeps(h, size);
        LeakAdds(Round(h, size).value, size, k - 1);
      }
      Product(k, n);
      OneMoreRound(h, size, n, k, Times(k, n));
    }
  }

  /** sys_free gives back pages but no frames. A large allocation can be made and freed `k` times exactly when the scan
      finds its run of pages and the pool has `k` times as many free frames: then it fails for good, although nothing is
      allocated. */
  lemma FramesLeak(h: Heap, size: Word, k: nat)
    requires SlabInv(h) && 1024 < size < h.poolSize
    ensures PagesOk(h.mm) && |h.free| == DESC_CNT
    ensures var n := PagesFor(size);
            && (Rounds(h, size, k).Ok? <==> k == 0 || (ScanBits(h.mm.vbits, n).Found? && k * n <= |FreeFrames(h.mm)|))
            && (Rounds(h, size, k).Ok? ==>
                  var h' := Rounds(h, size, k).value;
                  SlabInv(h') && Restored(h, h') && |FreeFrames(h'.mm)| == |FreeFrames(h.mm)| - k * n)
  {
    InvPages(h);
    hide SlabInv, PagesOk, Rounds, PagesFor;
    LeakAdds(h, size, k);
  }

  // ---------------------------------------------------------------- conservation

  /** Every arena that exists has a live pointer. */
  lemma EveryArenaIsLive(h: Heap, p: nat) returns (b: int)
    requires SlabInv(h) && p in h.arenas
    ensures LiveIn(h, p, b)
  {
    hide DirsOk, TablesOk, HeapOk, NoDup, BlockSize;
    if h.arenas[p].Large? {
      b := HeapAddr(p) + ARENA_HEADER;
      PageOfAddr(p, ARENA_HEADER);
    } else {
      var c := h.arenas[p].desc;
      assert CountOk(h, p, c, h.arenas[p].cnt);
      var i := SomeBlockInUse(h.free[c], p, c);
      b := BlockAddr(p, c, i);
      assert IsBlock(p, c, i, b);
      BlockPage(p, c, i, b);
    }
  }

  lemma SubsetSize(a: set<nat>, b: set<nat>)
    ensures a <= b ==> |a| <= |b|
  {
    if a <= b {
      assert b == a + (b - a);
    }
  }

  lemma SomeBlockInUse(l: seq<int>, p: nat, c: nat) returns (i: nat)
    requires p < 0x8000 && c < DESC_CNT && |FreeBlocks(l, p, c)| < BlocksPerArena(c)
    ensures i < BlocksPerArena(c) && BlockAddr(p, c, i) !in l
  {
    hide BlocksPerArena, BlockAddr;
    var n := BlocksPerArena(c);
    RangeSize(n);
    SubsetSize(Range(n), FreeBlocks(l, p, c));
    i :| i in Range(n) && i !in FreeBlocks(l, p, c);
  }

  /** The marked pages are those of arenas with a live pointer, and those taken with malloc_pages directly; when
      nothing is live, there are no arenas and all free lists are empty. */
  lemma NothingLive(h: Heap)
    requires SlabInv(h) && forall b :: !Live(h, b)
    ensures h.arenas == map[] && (forall c :: 0 <= c < DESC_CNT ==> h.free[c] == [])
    ensures forall j: nat :: Marked(h.mm, j) <==> Raw(h, j)
  {
    hide DirsOk, TablesOk, HeapOk, ArenasOk, CountsOk, ListsOk, Live;
    ArenasAreLive(h);
    ListsNeedArenas(h);
    forall j: nat ensures Marked(h.mm, j) <==> Raw(h, j) {}
  }

  lemma ArenasAreLive(h: Heap)
    requires SlabInv(h)
    ensures forall p :: p in h.arenas ==> exists b :: Live(h, b)
  {
    hide SlabInv, LiveIn;
    forall p | p in h.arenas ensures exists b :: Live(h, b) {
      var b := EveryArenaIsLive(h, p);
      assert Live(h, b);
    }
  }

  lemma ListsNeedArenas(h: Heap)
    requires ListsOk(h)
    ensures forall c :: 0 <= c < DESC_CNT && h.free[c] != [] ==> exists p: nat :: p in h.arenas
  {
    hide HeapPage, InArena, NoDup;
    forall c | 0 <= c < DESC_CNT && h.free[c] != [] ensures exists p: nat :: p in h.arenas {
      assert h.free[c][0] in h.free[c];
      var p: nat :| Owned(h, p, c, h.free[c][0]);
    }
  }

  // ---------------------------------------------------------------- runs

  datatype Event =
    | Alloc(size: Word)               // sys_malloc
    | Release(b: Word)                // sys_free
    | TakePages(n: nat)               // malloc_pages(PF_KERNEL, n)
    | ReturnPages(j: nat, n: nat)     // free_pages(PF_KERNEL, ..)
    | Paged(e: HeapRuns.Event)        // page directories, user pages, and stores

  /** The events of HeapRuns that are not about heap pages that the caller owns. */
  predicate OfOthers(e: HeapRuns.Event) {
    e.NewDir? || e.Activate? || e.MapUser? || e.UnmapUser? || e.Write?
  }

  /** Callers free what they own: live pointers, and pages they have taken themselves. */
  ghost predicate Legal(h: Heap, e: Event) {
    match e
    case Alloc(size) => true
    case Release(b) => Live(h, b)
    case TakePages(n) => true
    case ReturnPages(j, n) => Freeable(h.mm, j, n) && forall k: nat :: j <= k < j + n ==> Raw(h, k)
    case Paged(e) => OfOthers(e) && HeapRuns.Legal(h.mm, e)
  }

  ghost function Step(h: Heap, e: Event): Outcome<Heap>
    requires SlabInv(h) && Legal(h, e)
  {
    match e
    case Alloc(size) => (match SysMalloc(h, size) case Halt => Halt case Ok(r) => Ok(r.0))
    case Release(b) => SysFree(h, b)
    case TakePages(n) => (match MallocPages(h.mm, n) case Halt => Halt case Ok(r) => Ok(h.(mm := r.0)))
    case ReturnPages(j, n) => (match FreePages(h.mm, j, n) case Halt => Halt case Ok(mm) => Ok(h.(mm := mm)))
    case Paged(e) => (match HeapRuns.Step(h.mm, e) case Halt => Halt case Ok(mm) => Ok(h.(mm := mm)))
  }

  lemma TakeKeeps(h: Heap, n: nat)
    requires SlabInv(h) && MallocPages(h.mm, n).Ok?
    ensures SlabInv(h.(mm := MallocPages(h.mm, n).value.0))
  {
    hide DirsOk, TablesOk, HeapOk, ListsOk, ArenasOk, CountsOk, MallocPages, FramesTaken, OnlyEntries;
    MallocPagesKeeps(h.mm, n);
    var (mm, p) := MallocPages(h.mm, n).value;
    var h' := h.(mm := mm);
    assert forall k :: Marked(h.mm, k) ==> Marked(mm, k);
    SameArenas(h, h');
    SameLists(h, h');
  }

  lemma SameArenas(h: Heap, h': Heap)
    requires ArenasOk(h) && h'.arenas == h.arenas && |h'.mm.vbits| == |h.mm.vbits|
    requires forall p, k :: p in h.arenas && p <= k < p + PagesOf(h.arenas[p]) && Marked(h.mm, k) ==> Marked(h'.mm, k)
    ensures ArenasOk(h')
  {
    forall p, k | p in h'.arenas && p <= k < p + PagesOf(h'.arenas[p]) ensures Marked(h'.mm, k) {
      assert Marked(h.mm, k);
    }
  }

  lemma SameLists(h: Heap, h': Heap)
    requires ListsOk(h) && CountsOk(h) && h'.arenas == h.arenas && h'.free == h.free
    ensures ListsOk(h') && CountsOk(h')
  {
    hide HeapPage, InArena, NoDup, FreeBlocks, BlocksPerArena;
    forall d, x | 0 <= d < DESC_CNT && x in h'.free[d] ensures exists q: nat :: Owned(h', q, d, x) {
      var q: nat :| Owned(h, q, d, x);
      assert Owned(h', q, d, x);
    }
    forall q: nat | q in h'.arenas && h'.arenas[q].Small? ensures CountOk(h', q, h'.arenas[q].desc, h'.arenas[q].cnt) {
      assert CountOk(h, q, h.arenas[q].desc, h.arenas[q].cnt);
    }
  }

  lemma ReturnKeeps(h: Heap, j: nat, n: nat)
    requires SlabInv(h) && Legal(h, ReturnPages(j, n))
    ensures FreePages(h.mm, j, n).Ok? && SlabInv(h.(mm := FreePages(h.mm, j, n).value))
  {
    hide DirsOk, TablesOk, HeapOk, ListsOk, ArenasOk, CountsOk, FreePages, FramesReleased, Freeable;
    assert j + n <= |h.mm.vbits| by { FreeableRange(h.mm, j, n); }
    FreePagesKeeps(h.mm, j, n);
    var h' := h.(mm := FreePages(h.mm, j, n).value);
    forall p, k | p in h.arenas && p <= k < p + PagesOf(h.arenas[p]) && Marked(h.mm, k) ensures Marked(h'.mm, k) {
      assert j <= k < j + n ==> Raw(h, k);
    }
    SameArenas(h, h');
    SameLists(h, h');
  }

  /** What the other events do to the bitmap of the heap: nothing, except that create_page_dir takes a page. */
  lemma MarksStay(s: State, e: HeapRuns.Event)
    requires Inv(s) && OfOthers(e) && HeapRuns.Legal(s, e) && HeapRuns.Step(s, e).Ok?
    ensures var s' := HeapRuns.Step(s, e).value;
            && |s'.vbits| == |s.vbits| && (forall k :: Marked(s, k) ==> Marked(s', k))
            && (!e.NewDir? ==> s'.vbits == s.vbits)
  {
    if e.NewDir? {
      hide CreatePageDir, MallocPages, NewDirectory, FrameOf, DirsOk, TablesOk, HeapOk, FramesTaken, OnlyEntries;
      HeapRuns.CreatePageDirIs(s);
      MallocPagesKeeps(s, 1);
    } else {
      hide DirsOk, TablesOk, HeapOk, SetPte, SetPteInNewTable, ClearPte, AddrV2p, Walk, PteAddr, ScanBits, Marked;
    }
  }

  lemma PagedKeeps(h: Heap, e: HeapRuns.Event)
    requires SlabInv(h) && OfOthers(e) && HeapRuns.Legal(h.mm, e) && HeapRuns.Step(h.mm, e).Ok?
    ensures SlabInv(h.(mm := HeapRuns.Step(h.mm, e).value))
    ensures !e.NewDir? ==> forall j: nat :: Raw(h.(mm := HeapRuns.Step(h.mm, e).value), j) == Raw(h, j)
  {
    hide DirsOk, TablesOk, HeapOk, ListsOk, ArenasOk, CountsOk, HeapRuns.Step, HeapRuns.Legal;
    HeapRuns.StepKeeps(h.mm, e);
    MarksStay(h.mm, e);
    var h' := h.(mm := HeapRuns.Step(h.mm, e).value);
    SameArenas(h, h');
    SameLists(h, h');
  }

  lemma FreeableRange(s: State, j: nat, n: nat)
    requires Freeable(s, j, n)
    ensures j + n <= |s.vbits|
  {
  }

  /** Events that take no heap pages for themselves: sys_malloc and sys_free, and everything that processes do. */
  predicate KeepsPages(e: Event) {
    e.Alloc? || e.Release? || (e.Paged? && !e.e.NewDir?)
  }

  lemma StepKeeps(h: Heap, e: Event)
    requires SlabInv(h) && Legal(h, e) && Step(h, e).Ok?
    ensures SlabInv(Step(h, e).value)
    ensures KeepsPages(e) ==> forall j: nat :: Raw(Step(h, e).value, j) == Raw(h, j)
    ensures e.Alloc? && 0 < e.size < h.poolSize ==> exists b :: HandedOut(h, Step(h, e).value, b, e.size)
    ensures e.Release? ==> GivenBack(h, Step(h, e).value, e.b)
  {
    hide HandedOut, SlabInv, SysMalloc, SysFree, MallocPages, FreePages, Live, LiveIn, Raw;
    match e
    case Alloc(size) => AllocKeeps(h, size);
    case Release(b) => SysFreeKeeps(h, b);
    case TakePages(n) => TakeKeeps(h, n);
    case ReturnPages(j, n) => ReturnKeeps(h, j, n);
    case Paged(e) => PagedKeeps(h, e);
  }

  lemma AllocKeeps(h: Heap, size: Word)
    requires SlabInv(h) && SysMalloc(h, size).Ok?
    ensures SlabInv(SysMalloc(h, size).value.0)
    ensures forall j: nat :: Raw(SysMalloc(h, size).value.0, j) == Raw(h, j)
    ensures 0 < size < h.poolSize ==> exists b :: HandedOut(h, SysMalloc(h, size).value.0, b, size)
  {
    hide DirsOk, TablesOk, HeapOk, ListsOk, ArenasOk, CountsOk, SysMalloc, LiveIn, Raw;
    SysMallocKeeps(h, size);
  }

  ghost function Run(h: Heap, es: seq<Event>): (r: Option<Outcome<Heap>>)
    requires SlabInv(h)
    ensures r.Some? && r.value.Ok? ==> SlabInv(r.value.value)
    decreases |es|
  {
    if es == [] then Some(Ok(h))
    else if !Legal(h, es[0]) then None
    else
      match Step(h, es[0])
      case Halt => Some(Halt)
      case Ok(h1) => StepKeeps(h, es[0]); Run(h1, es[1..])
  }

  ghost predicate TakesNoPages(es: seq<Event>) {
    forall i :: 0 <= i < |es| ==> KeepsPages(es[i])
  }

  lemma {:induction false} RawStays(h: Heap, es: seq<Event>)
    requires SlabInv(h) && TakesNoPages(es) && Run(h, es).Some? && Run(h, es).value.Ok?
    ensures forall j: nat :: Raw(Run(h, es).value.value, j) == Raw(h, j)
    decreases |es|
  {
    hide SlabInv, Raw, Step, Legal;
    if es != [] {
      StepKeeps(h, es[0]);
      RawStays(Step(h, es[0]).value, es[1..]);
    }
  }

  /** Conservation: whatever was allocated and freed in between, in whatever order and under whichever directories,
      while processes map and unmap their pages, when everything is given back the bitmap of the heap is what it was,
      and the free lists are empty. */
  lemma AllFreedRestoresHeap(h: Heap, es: seq<Event>, h': Heap)
    requires SlabInv(h) && TakesNoPages(es) && Run(h, es) == Some(Ok(h'))
    requires (forall b :: !Live(h, b)) && (forall b :: !Live(h', b))
    ensures forall j: nat :: Marked(h'.mm, j) <==> Marked(h.mm, j)
    ensures h'.arenas == map[] && forall c :: 0 <= c < DESC_CNT ==> h'.free[c] == []
  {
    hide DirsOk, TablesOk, HeapOk, ListsOk, ArenasOk, CountsOk, Live, Run, Raw, Marked;
    RawStays(h, es);
    NothingLive(h);
    NothingLive(h');
  }
}
