/** sys_malloc and sys_free keep the slab invariant, hand out memory that nobody else has, and conserve pages. */
module SlabSteps {
  import opened Words
  import opened KernelMemory
  import opened HeapInvariant
  import opened HeapSteps
  import HeapRuns
  import opened Slab
  import opened SlabInvariant

  // ---------------------------------------------------------------- pages that hold no arena

  ghost predicate Covered(h: Heap, j: nat) {
    exists p: nat :: p in h.arenas && p <= j < p + PagesOf(h.arenas[p])
  }

  /** Marked pages that sys_malloc does not manage: they were taken with malloc_pages directly. */
  ghost predicate Raw(h: Heap, j: nat) {
    Marked(h.mm, j) && !Covered(h, j)
  }

  // ---------------------------------------------------------------- a new arena

  lemma FreePagesHoldNoArena(h: Heap, p: nat, n: nat, q: nat)
    requires ArenasOk(h) && q in h.arenas && p + n <= |h.mm.vbits| && n >= 1
    requires forall k: nat :: p <= k < p + n ==> !Marked(h.mm, k)
    ensures q != p && (q < p ==> q + PagesOf(h.arenas[q]) <= p) && (p < q ==> p + n <= q)
  {
    assert q <= p < q + PagesOf(h.arenas[q]) ==> Marked(h.mm, p);
    assert p <= q < p + n ==> Marked(h.mm, q);
  }

  /** Adding an arena in pages that were free: the other arenas and the raw pages are as before. */
  lemma AddArena(h: Heap, mm: State, p: nat, a: Arena)
    requires ArenasOk(h) && Allocated(h.mm, mm, p, PagesOf(a))
    ensures p !in h.arenas
    ensures ArenasOk(h.(mm := mm, arenas := h.arenas[p := a]))
    ensures forall j: nat :: Raw(h.(mm := mm, arenas := h.arenas[p := a]), j) == Raw(h, j)
  {
    var h' := h.(mm := mm, arenas := h.arenas[p := a]);
    var n := PagesOf(a);
    hide OnlyEntries, FramesTaken;
    assert forall k: nat :: p <= k < p + n ==> !Marked(h.mm, k);
    forall q | q in h.arenas ensures q != p && (q < p ==> q + PagesOf(h.arenas[q]) <= p) && (p < q ==> p + n <= q) {
      FreePagesHoldNoArena(h, p, n, q);
    }
    forall q, k | q in h'.arenas && q <= k < q + PagesOf(h'.arenas[q]) ensures Marked(h'.mm, k) {
      assert q != p ==> Marked(h.mm, k);
    }
    assert ArenasOk(h');
    forall j: nat ensures Raw(h', j) == Raw(h, j) {
      hide ArenasOk;
      CoveredByNew(h, h', p, a, j);
    }
  }

  lemma CoveredByNew(h: Heap, h': Heap, p: nat, a: Arena, j: nat)
    requires p !in h.arenas && h'.arenas == h.arenas[p := a]
    ensures Covered(h', j) <==> Covered(h, j) || p <= j < p + PagesOf(a)
  {
    if Covered(h, j) {
      var q: nat :| q in h.arenas && q <= j < q + PagesOf(h.arenas[q]);
      assert q in h'.arenas && h'.arenas[q] == h.arenas[q];
    }
    if p <= j < p + PagesOf(a) {
      assert p in h'.arenas && h'.arenas[p] == a;
    }
  }

  /** Taking an arena away together with the marks of its pages. */
  lemma DropArena(h: Heap, p: nat)
    requires ArenasOk(h) && p in h.arenas
    ensures var n := PagesOf(h.arenas[p]);
            && p + n <= |h.mm.vbits|
            && var h' := h.(mm := h.mm.(vbits := SetRun(h.mm.vbits, p, n, false)), arenas := h.arenas - {p});
            && RemoveVirtual(h.mm, p, n) == Ok(h'.mm) && ArenasOk(h')
            && forall j: nat :: Raw(h', j) == Raw(h, j)
  {
    var n := PagesOf(h.arenas[p]);
    var h' := h.(mm := h.mm.(vbits := SetRun(h.mm.vbits, p, n, false)), arenas := h.arenas - {p});
    assert h.arenas == h'.arenas[p := h.arenas[p]];
    forall k | p <= k < p + n ensures Marked(h.mm, k) {}
    assert Marked(h.mm, p + n - 1);
    forall q, k | q in h'.arenas && q <= k < q + PagesOf(h'.arenas[q]) ensures Marked(h'.mm, k) {
      assert q in h.arenas && Marked(h.mm, k);
    }
    forall j: nat ensures Raw(h', j) == Raw(h, j) {
      CoveredByNew(h', h, p, h.arenas[p], j);
    }
  }

  // ---------------------------------------------------------------- one arena changes

  /** A block of page `p` is at an address of page `p`. */
  lemma BlockPage(p: nat, c: nat, i: nat, b: int)
    requires IsBlock(p, c, i, b)
    ensures HeapPage(b, p)
  {
    BlockToArena(p, c, i);
  }

  lemma OtherPage(p: nat, q: nat, c: nat, i: nat, b: int, b': int)
    requires IsBlock(q, c, i, b) && HeapPage(b', p) && p != q
    ensures b != b'
  {
    BlockPage(q, c, i, b);
  }

  lemma BlocksWithout(free: seq<int>, free': seq<int>, p: nat, c: nat, i: nat, b: int)
    requires IsBlock(p, c, i, b) && b in free
    requires forall x :: x in free' <==> x in free && x != b
    ensures |FreeBlocks(free, p, c)| == |FreeBlocks(free', p, c)| + 1
  {
    forall j: nat | j < BlocksPerArena(c) && BlockAddr(p, c, j) == b ensures j == i {
      SameBlock(p, c, i, j);
    }
    assert FreeBlocks(free, p, c) == FreeBlocks(free', p, c) + {i};
  }

  // ---------------------------------------------------------------- taking a block

  /** The counts are right, and only the arena in page `full` may have all of its blocks free. */
  ghost predicate CountsBut(h: Heap, full: int) {
    |h.free| == DESC_CNT &&
    forall p: nat :: p in h.arenas && h.arenas[p].Small? ==>
      p < 0x8000 && h.arenas[p].desc < DESC_CNT
      && h.arenas[p].cnt == |FreeBlocks(h.free[h.arenas[p].desc], p, h.arenas[p].desc)|
      && h.arenas[p].cnt <= BlocksPerArena(h.arenas[p].desc)
      && (p != full ==> h.arenas[p].cnt < BlocksPerArena(h.arenas[p].desc))
  }

  /** Exactly the pointer `b` of page `p` has become live. */
  ghost predicate LiveAdds(h: Heap, h': Heap, p: nat, b: int) {
    && !LiveIn(h, p, b)
    && forall q: nat, x :: LiveIn(h', q, x) <==> LiveIn(h, q, x) || (q == p && x == b)
  }

  lemma PopIs(h: Heap, c: nat, p: nat, i: nat)
    requires ListsOk(h) && c < DESC_CNT && h.free[c] != []
    requires var b := h.free[c][0]; Owned(h, p, c, b) && IsBlock(p, c, i, b)
    requires h.arenas[p].cnt == |FreeBlocks(h.free[c], p, c)|
    ensures h.arenas[p].cnt >= 1
    ensures PopBlock(h, c) ==
            Ok((h.(arenas := h.arenas[p := Small(c, h.arenas[p].cnt - 1)], free := h.free[c := h.free[c][1..]]),
                h.free[c][0]))
  {
    var b := h.free[c][0];
    assert i in FreeBlocks(h.free[c], p, c);
  }

  /** The state after a block has been taken off the list, whatever the counts of other arenas are. */
  lemma PopKeeps(h: Heap, c: nat, full: int)
    requires ListsOk(h) && ArenasOk(h) && CountsBut(h, full) && c < DESC_CNT && h.free[c] != []
    requires full >= 0 ==> HeapPage(h.free[c][0], full)
    ensures PopBlock(h, c).Ok?
    ensures var (h', b) := PopBlock(h, c).value;
            && ListsOk(h') && ArenasOk(h') && CountsOk(h') && h'.mm == h.mm
            && (exists p: nat :: LiveAdds(h, h', p, b) && p in h'.arenas && Room(h'.arenas[p]) == BlockSize(c))
            && (forall p :: p in h'.arenas <==> p in h.arenas)
            && (forall p :: p in h.arenas ==>
                  Room(h'.arenas[p]) == Room(h.arenas[p]) && PagesOf(h'.arenas[p]) == PagesOf(h.arenas[p]))
  {
    hide FreeBlocks, LiveIn, NoDup, HeapPage, InArena, BlocksPerArena, BlockSize;
    var b := h.free[c][0];
    assert b in h.free[c];
    var p: nat :| Owned(h, p, c, b);
    var i := BlockOf(p, c, b);
    if full >= 0 && full != p {
      OnePage(b, p, full);
    }
    PopIs(h, c, p, i);
    var h' := PopBlock(h, c).value.0;
    PopCounts(h, h', c, p, i, full);
    PopLists(h, h', c, p);
    PopArenas(h, h', p);
    PopLive(h, h', c, p, b);
    assert LiveAdds(h, h', p, b);
  }

  ghost function BlockOf(p: nat, c: nat, b: int): (i: nat)
    requires InArena(p, c, b)
    ensures IsBlock(p, c, i, b)
  {
    var i: nat :| IsBlock(p, c, i, b); i
  }

  lemma PopLists(h: Heap, h': Heap, c: nat, p: nat)
    requires ListsOk(h) && c < DESC_CNT && h.free[c] != [] && p in h.arenas && h.arenas[p].Small?
             && h.arenas[p].desc == c
    requires exists n: nat :: h'.arenas == h.arenas[p := Small(c, n)]
    requires h'.free == h.free[c := h.free[c][1..]]
    ensures ListsOk(h')
  {
    hide InArena, HeapPage;
    var tail := h.free[c][1..];
    assert h.free[c] == [h.free[c][0]] + tail;
    assert NoDup(tail);
    hide NoDup;
    forall d, x | 0 <= d < DESC_CNT && x in h'.free[d] ensures exists q: nat :: Owned(h', q, d, x) {
      assert x in h.free[d];
      var q: nat :| Owned(h, q, d, x);
      assert Owned(h', q, d, x);
    }
  }

  lemma PopArenas(h: Heap, h': Heap, p: nat)
    requires ArenasOk(h) && p in h.arenas && h.arenas[p].Small? && h'.mm == h.mm
    requires exists a: Arena :: a.Small? && a.desc == h.arenas[p].desc && h'.arenas == h.arenas[p := a]
    ensures ArenasOk(h')
    ensures forall q :: q in h.arenas ==>
              Room(h'.arenas[q]) == Room(h.arenas[q]) && PagesOf(h'.arenas[q]) == PagesOf(h.arenas[q])
    ensures forall j: nat :: Raw(h', j) == Raw(h, j)
  {
    forall q | q in h.arenas ensures PagesOf(h'.arenas[q]) == PagesOf(h.arenas[q]) {}
    forall j: nat ensures Covered(h', j) == Covered(h, j) {
      if Covered(h, j) {
        var q: nat :| q in h.arenas && q <= j < q + PagesOf(h.arenas[q]);
        assert q in h'.arenas;
      }
    }
  }

  lemma PopCounts(h: Heap, h': Heap, c: nat, p: nat, i: nat, full: int)
    requires ListsOk(h) && CountsBut(h, full) && c < DESC_CNT && h.free[c] != []
    requires var b := h.free[c][0]; Owned(h, p, c, b) && IsBlock(p, c, i, b) && (full >= 0 ==> HeapPage(b, full))
    requires h.arenas[p].cnt >= 1
    requires h' == h.(arenas := h.arenas[p := Small(c, h.arenas[p].cnt - 1)], free := h.free[c := h.free[c][1..]])
    ensures CountsOk(h')
  {
    var b, tail := h.free[c][0], h.free[c][1..];
    assert h.free[c] == [b] + tail;
    assert forall x :: x in tail <==> x in h.free[c] && x != b;
    BlocksWithout(h.free[c], tail, p, c, i, b);
    hide FreeBlocks;
    forall q: nat | q in h'.arenas && h'.arenas[q].Small?
      ensures CountOk(h', q, h'.arenas[q].desc, h'.arenas[q].cnt)
    {
      if q != p {
        CountUnaffected(h, h', q, c, p, b);
      }
    }
  }

  /** A list of class `c` gains or loses a block of page `p`: the count of another page `q` stays. */
  lemma CountUnaffected(h: Heap, h': Heap, q: nat, c: nat, p: nat, b: int)
    requires |h.free| == |h'.free| == DESC_CNT && q != p && HeapPage(b, p) && c < DESC_CNT
    requires q in h.arenas && h.arenas[q].Small? && q < 0x8000 && h.arenas[q].desc < DESC_CNT
    requires forall x :: x != b ==> (x in h'.free[c] <==> x in h.free[c])
    requires forall d :: 0 <= d < DESC_CNT && d != c ==> h'.free[d] == h.free[d]
    ensures FreeBlocks(h'.free[h.arenas[q].desc], q, h.arenas[q].desc) ==
              FreeBlocks(h.free[h.arenas[q].desc], q, h.arenas[q].desc)
  {
    var d := h.arenas[q].desc;
    forall j: nat | j < BlocksPerArena(d) ensures BlockAddr(q, d, j) != b {
      OtherPage(p, q, d, j, BlockAddr(q, d, j), b);
    }
  }

  lemma PopLive(h: Heap, h': Heap, c: nat, p: nat, b: int)
    requires ListsOk(h) && c < DESC_CNT && h.free[c] != [] && b == h.free[c][0] && Owned(h, p, c, b)
    requires exists n: nat :: h'.arenas == h.arenas[p := Small(c, n)]
    requires h'.free == h.free[c := h.free[c][1..]]
    ensures LiveAdds(h, h', p, b)
  {
    var tail := h.free[c][1..];
    assert h.free[c] == [b] + tail;
    assert forall x :: x in tail <==> x in h.free[c] && x != b;
    forall q: nat, x ensures LiveIn(h', q, x) <==> LiveIn(h, q, x) || (q == p && x == b) {
      hide HeapPage;
      if x == b && q != p {
        assert HeapPage(b, p);
        OnePage(b, p, q);
      }
    }
  }

  lemma OnePage(b: int, p: nat, q: nat)
    requires HeapPage(b, p) && p != q
    ensures !HeapPage(b, q)
  {
  }

  /** A fresh arena: all of its blocks, and nothing else, are on the list. It is made exactly when malloc_pages
      succeeds; the assertion that no block is on the list yet never fails. */
  lemma NewArenaIs(h: Heap, c: nat)
    requires SlabInv(h) && c < DESC_CNT && h.free[c] == []
    ensures NewArena(h, c).Ok? <==> MallocPages(h.mm, 1).Ok?
    ensures NewArena(h, c).Ok? ==>
              var (mm, p) := MallocPages(h.mm, 1).value;
              && p < 0x8000 && Inv(mm) && Allocated(h.mm, mm, p, 1)
              && FillFrom([], p, c, 0).Ok?
              && NewArena(h, c) == Ok(h.(mm := mm, arenas := h.arenas[p := Small(c, BlocksPerArena(c))],
                                         free := h.free[c := FillFrom([], p, c, 0).value]))
  {
    hide ListsOk, ArenasOk, CountsOk, MallocPages, BlockSize, BlocksPerArena, Allocated, DirsOk, TablesOk, HeapOk;
    if MallocPages(h.mm, 1).Ok? {
      MallocPagesKeeps(h.mm, 1);
      var (mm, p) := MallocPages(h.mm, 1).value;
      AllocatedRange(h.mm, mm, p, 1);
      FillIs([], p, c, 0);
    }
  }

  lemma AllocatedRange(s: State, s': State, p: nat, n: nat)
    requires Inv(s) && Allocated(s, s', p, n)
    ensures p + n <= |s.vbits| <= 0x8000 && n >= 1
  {
  }

  lemma NewArenaKeeps(h: Heap, c: nat)
    requires SlabInv(h) && c < DESC_CNT && h.free[c] == [] && NewArena(h, c).Ok?
    ensures var h1, p := NewArena(h, c).value, MallocPages(h.mm, 1).value.1;
            && Inv(h1.mm) && ListsOk(h1) && ArenasOk(h1) && CountsBut(h1, p)
            && h1.free[c] != [] && HeapPage(h1.free[c][0], p)
            && (forall j: nat :: Raw(h1, j) == Raw(h, j))
            && (forall q: nat, x :: LiveIn(h1, q, x) <==> LiveIn(h, q, x))
            && (forall q :: q in h.arenas ==> q in h1.arenas && Room(h1.arenas[q]) == Room(h.arenas[q]))
  {
    hide Allocated, MallocPages, FillFrom, DirsOk, TablesOk, HeapOk, BlockSize, BlocksPerArena, BlockAddr, IsBlock,
         CountsOk, HeapPage, NewArena, Raw;
    NewArenaIs(h, c);
    var (mm, p) := MallocPages(h.mm, 1).value;
    var h1 := NewArena(h, c).value;
    var l := h1.free[c];
    AddArena(h, mm, p, Small(c, BlocksPerArena(c)));
    FilledList(p, c);
    hide ArenasOk;
    RawFree(h, h.(mm := mm, arenas := h1.arenas), h1);
    FilledCounts(h, h1, p, c);
    FilledLists(h, h1, p, c);
    FilledLive(h, h1, p, c);
    assert l[0] in l;
    ArenasOnly(h.(mm := mm, arenas := h1.arenas), h1);
  }

  lemma ArenasOnly(h: Heap, h': Heap)
    requires ArenasOk(h) && h'.mm == h.mm && h'.arenas == h.arenas
    ensures ArenasOk(h')
  {
    forall p, k | p in h'.arenas && p <= k < p + PagesOf(h'.arenas[p]) ensures Marked(h'.mm, k) {
      assert Marked(h.mm, k);
    }
  }

  lemma RawFree(h0: Heap, h: Heap, h': Heap)
    requires h'.mm == h.mm && h'.arenas == h.arenas
    requires forall j: nat :: Raw(h, j) == Raw(h0, j)
    ensures forall j: nat :: Raw(h', j) == Raw(h0, j)
  {
    forall j: nat ensures Raw(h', j) == Raw(h0, j) {
      assert Raw(h, j) == Raw(h0, j);
      assert Covered(h', j) == Covered(h, j);
    }
  }

  lemma FilledList(p: nat, c: nat)
    requires p < 0x8000 && c < DESC_CNT
    ensures FillFrom([], p, c, 0).Ok?
    ensures var l := FillFrom([], p, c, 0).value;
            NoDup(l) && l != [] &&
            (forall b :: b in l <==> InArena(p, c, b)) && forall b :: b in l ==> HeapPage(b, p)
  {
    FillIs([], p, c, 0);
    var l := FillFrom([], p, c, 0).value;
    forall b | b in l ensures HeapPage(b, p) {
      var i: nat :| IsBlock(p, c, i, b);
      BlockPage(p, c, i, b);
    }
  }

  lemma FilledCounts(h: Heap, h1: Heap, p: nat, c: nat)
    requires |h.free| == DESC_CNT && c < DESC_CNT && p < 0x8000 && h.free[c] == [] && CountsOk(h) && p !in h.arenas
    requires h1.arenas == h.arenas[p := Small(c, BlocksPerArena(c))]
    requires FillFrom([], p, c, 0).Ok? && h1.free == h.free[c := FillFrom([], p, c, 0).value]
    ensures CountsBut(h1, p)
  {
    hide BlockSize, BlocksPerArena, HeapPage, FillFrom, BlockAddr, FreeBlocks, NoDup;
    FilledCount(h1.free[c], p, c);
    FilledList(p, c);
    forall q: nat | q in h.arenas && h.arenas[q].Small?
      ensures CountOk(h, q, h.arenas[q].desc, h.arenas[q].cnt)
      ensures |FreeBlocks(h1.free[h.arenas[q].desc], q, h.arenas[q].desc)| == h.arenas[q].cnt
    {
      assert CountOk(h, q, h.arenas[q].desc, h.arenas[q].cnt);
      if h.arenas[q].desc == c {
        NoBlocksOfOthers(h1.free[c], p, q, c);
      }
    }
  }

  lemma FilledCount(l: seq<int>, p: nat, c: nat)
    requires p < 0x8000 && c < DESC_CNT && FillFrom([], p, c, 0) == Ok(l)
    ensures |FreeBlocks(l, p, c)| == BlocksPerArena(c)
  {
    hide BlockSize, BlocksPerArena, HeapPage, FillFrom;
    FilledList(p, c);
    forall i: nat | i < BlocksPerArena(c) ensures BlockAddr(p, c, i) in l {
      assert IsBlock(p, c, i, BlockAddr(p, c, i));
    }
    RangeSize(BlocksPerArena(c));
    assert FreeBlocks(l, p, c) == Range(BlocksPerArena(c));
  }

  lemma NoBlocksOfOthers(l: seq<int>, p: nat, q: nat, c: nat)
    requires q < 0x8000 && c < DESC_CNT && p != q
    requires forall b :: b in l ==> HeapPage(b, p)
    ensures FreeBlocks(l, q, c) == {} == FreeBlocks([], q, c)
  {
    forall i: nat | i < BlocksPerArena(c) ensures BlockAddr(q, c, i) !in l {
      BlockPage(q, c, i, BlockAddr(q, c, i));
    }
  }

  ghost function Range(n: nat): set<nat> {
    if n == 0 then {} else Range(n - 1) + {n - 1}
  }

  lemma {:induction false} RangeSize(n: nat)
    ensures |Range(n)| == n && forall i: nat :: i in Range(n) <==> i < n
  {
    if n > 0 {
      RangeSize(n - 1);
    }
  }

  lemma FilledLists(h: Heap, h1: Heap, p: nat, c: nat)
    requires ListsOk(h) && c < DESC_CNT && p < 0x8000 && p !in h.arenas
    requires h1.arenas == h.arenas[p := Small(c, BlocksPerArena(c))]
    requires FillFrom([], p, c, 0).Ok? && h1.free == h.free[c := FillFrom([], p, c, 0).value]
    ensures ListsOk(h1)
  {
    hide BlockSize, BlocksPerArena, HeapPage, FillFrom, InArena, NoDup;
    FilledList(p, c);
    forall d, x | 0 <= d < DESC_CNT && x in h1.free[d] ensures exists q: nat :: Owned(h1, q, d, x) {
      if d == c {
        assert Owned(h1, p, d, x);
      } else {
        var q: nat :| Owned(h, q, d, x);
        assert Owned(h1, q, d, x);
      }
    }
  }

  lemma FilledLive(h: Heap, h1: Heap, p: nat, c: nat)
    requires ListsOk(h) && c < DESC_CNT && p < 0x8000 && p !in h.arenas && h.free[c] == []
    requires h1.arenas == h.arenas[p := Small(c, BlocksPerArena(c))]
    requires FillFrom([], p, c, 0).Ok? && h1.free == h.free[c := FillFrom([], p, c, 0).value]
    ensures forall q: nat, x :: LiveIn(h1, q, x) <==> LiveIn(h, q, x)
  {
    hide BlockSize, BlocksPerArena, HeapPage, FillFrom, InArena, NoDup;
    FilledList(p, c);
    forall q: nat, x ensures LiveIn(h1, q, x) <==> LiveIn(h, q, x) {
      if q != p && HeapPage(x, q) && HeapPage(x, p) {
        OnePage(x, p, q);
      }
    }
  }

  // ---------------------------------------------------------------- sys_malloc

  /** The room that an allocation of `size` bytes gets: more than half of a block is used, except of the smallest ones;
      of whole pages, the last one is needed. */
  ghost predicate RoomFor(size: int, room: int) {
    if size > 1024 then size <= room < size + 4096 && (room + ARENA_HEADER) % 4096 == 0
    else size < room && (room == 16 || room <= 2 * size)
  }

  /** A pointer was handed out: it was not live, it has the room that `size` bytes get, nothing else changed its
      liveness or its room, and the pages that are not managed here are the same. */
  ghost predicate HandedOut(h: Heap, h': Heap, b: int, size: int) {
    && (exists p: nat :: LiveAdds(h, h', p, b) && p in h'.arenas && RoomFor(size, Room(h'.arenas[p])))
    && (forall q :: q in h.arenas ==> q in h'.arenas && Room(h'.arenas[q]) == Room(h.arenas[q]))
    && (forall j: nat :: Raw(h', j) == Raw(h, j))
  }

  lemma ClassIs(size: nat, c: nat)
    requires c <= DESC_CNT
    ensures var r := ClassFrom(size, c);
            && (r < DESC_CNT ==> size < BlockSize(r))
            && (forall d :: c <= d < r ==> size >= BlockSize(d))
    decreases DESC_CNT - c
  {
  }

  lemma Doubling(c: nat)
    requires c < DESC_CNT
    ensures BlockSize(c) == if c == 0 then 16 else 2 * BlockSize(c - 1)
  {
  }

  /** An arena has as many blocks as fit behind its header. */
  lemma ArenaIsFull(c: nat)
    requires c < DESC_CNT
    ensures var n := BlocksPerArena(c);
            ARENA_HEADER + n * BlockSize(c) <= 4096 < ARENA_HEADER + (n + 1) * BlockSize(c)
  {
    var s := BlockSize(c);
    var n := 4084 / s;
    assert 4084 == n * s + 4084 % s;
    assert (n + 1) * s == n * s + s;
  }

  /** The class is the smallest one with room for more than `size` bytes. */
  lemma LeastClass(size: nat)
    requires 0 < size < 1024
    ensures ClassFrom(size, 0) < DESC_CNT && RoomFor(size, BlockSize(ClassFrom(size, 0)))
    ensures forall d: nat :: d < DESC_CNT && size < BlockSize(d) ==> BlockSize(ClassFrom(size, 0)) <= BlockSize(d)
  {
    NoClassFor1024(size);
    ClassIs(size, 0);
    var c := ClassFrom(size, 0);
    hide ClassFrom;
    Doubling(c);
    forall d: nat | d < DESC_CNT && size < BlockSize(d) ensures BlockSize(c) <= BlockSize(d) {
      Increasing(c, d);
    }
  }

  lemma Increasing(c: nat, d: nat)
    requires c <= d < DESC_CNT
    ensures BlockSize(c) <= BlockSize(d)
  {
  }

  /** The only small size without a class is 1024 itself: the comparison is strict, and the loop ends behind
      the last descriptor. */
  lemma NoClassFor1024(size: nat)
    requires 0 < size <= 1024
    ensures ClassFrom(size, 0) < DESC_CNT <==> size != 1024
  {
    ClassIs(size, 0);
    if ClassFrom(size, 0) == DESC_CNT {
      assert size >= BlockSize(6);
    }
  }

  /** A small allocation needs a free block of its class, or a page for a new arena. */
  lemma SmallMallocKeeps(h: Heap, size: Word)
    requires SlabInv(h) && 0 < size < h.poolSize && size < 1024
    requires ClassFrom(size, 0) < DESC_CNT && (h.free[ClassFrom(size, 0)] != [] || MallocPages(h.mm, 1).Ok?)
    ensures SysMalloc(h, size).Ok? && SysMalloc(h, size).value.1.Some?
    ensures SlabInv(SysMalloc(h, size).value.0)
    ensures HandedOut(h, SysMalloc(h, size).value.0, SysMalloc(h, size).value.1.value, size)
  {
    LeastClass(size);
    hide DirsOk, TablesOk, HeapOk, ListsOk, ArenasOk, CountsOk, CountsBut, NewArena, PopBlock, LiveIn, Raw, BlockSize,
         HeapPage, ClassFrom, HandedOut, RoomFor;
    var c := ClassFrom(size, 0);
    if h.free[c] == [] {
      NewArenaIs(h, c);
      NewArenaKeeps(h, c);
      PopHandsOut(h, NewArena(h, c).value, c, MallocPages(h.mm, 1).value.1, size);
    } else {
      CountsButNone(h);
      PopHandsOut(h, h, c, -1, size);
    }
  }

  lemma PopHandsOut(h: Heap, h1: Heap, c: nat, full: int, size: int)
    requires c < DESC_CNT && RoomFor(size, BlockSize(c))
    requires Inv(h1.mm) && ListsOk(h1) && ArenasOk(h1) && CountsBut(h1, full) && h1.free[c] != []
    requires full >= 0 ==> HeapPage(h1.free[c][0], full)
    requires forall j: nat :: Raw(h1, j) == Raw(h, j)
    requires forall q: nat, x :: LiveIn(h1, q, x) <==> LiveIn(h, q, x)
    requires forall q :: q in h.arenas ==> q in h1.arenas && Room(h1.arenas[q]) == Room(h.arenas[q])
    ensures PopBlock(h1, c).Ok? && SlabInv(PopBlock(h1, c).value.0)
    ensures HandedOut(h, PopBlock(h1, c).value.0, PopBlock(h1, c).value.1, size)
  {
    hide DirsOk, TablesOk, HeapOk, ArenasOk, CountsOk, CountsBut, PopBlock, LiveIn, Raw, BlockSize, HeapPage, Owned,
         NoDup, Room, RoomFor;
    PopKeeps(h1, c, full);
    PoppedRaw(h1, c);
    var (h', b) := PopBlock(h1, c).value;
    var p: nat :| LiveAdds(h1, h', p, b) && p in h'.arenas && Room(h'.arenas[p]) == BlockSize(c);
    assert LiveAdds(h, h', p, b);
  }

  lemma CountsButNone(h: Heap)
    requires CountsOk(h) && |h.free| == DESC_CNT
    ensures CountsBut(h, -1)
  {
    hide FreeBlocks, BlocksPerArena;
    forall p: nat | p in h.arenas && h.arenas[p].Small? ensures CountOk(h, p, h.arenas[p].desc, h.arenas[p].cnt) {}
  }

  lemma PoppedRaw(h: Heap, c: nat)
    requires ArenasOk(h) && |h.free| == DESC_CNT && c < DESC_CNT && PopBlock(h, c).Ok?
    ensures forall j: nat :: Raw(PopBlock(h, c).value.0, j) == Raw(h, j)
  {
    var p := PageOf(h.free[c][0]);
    hide ArenasOk, Raw;
    PopArenas(h, PopBlock(h, c).value.0, p);
  }

  lemma LargeMallocKeeps(h: Heap, size: Word)
    requires SlabInv(h) && 0 < size < h.poolSize && size > 1024
    requires SysMalloc(h, size).Ok?
    ensures SysMalloc(h, size).value.1.Some?
    ensures SlabInv(SysMalloc(h, size).value.0)
    ensures HandedOut(h, SysMalloc(h, size).value.0, SysMalloc(h, size).value.1.value, size)
  {
    hide DirsOk, TablesOk, HeapOk, ListsOk, ArenasOk, CountsOk, MallocPages, Allocated, LiveIn, Raw;
    var n := (size + ARENA_HEADER + 4095) / 4096;
    MallocPagesKeeps(h.mm, n);
    var (mm, p) := MallocPages(h.mm, n).value;
    AllocatedRange(h.mm, mm, p, n);
    AddArena(h, mm, p, Large(n));
    var h' := SysMalloc(h, size).value.0;
    LargeLists(h, h', p, n);
    LargeLive(h, h', p, n);
    assert RoomFor(size, Room(h'.arenas[p]));
  }

  lemma LargeLists(h: Heap, h': Heap, p: nat, n: nat)
    requires ListsOk(h) && CountsOk(h) && p !in h.arenas
    requires h'.arenas == h.arenas[p := Large(n)] && h'.free == h.free
    ensures ListsOk(h') && CountsOk(h')
  {
    hide FreeBlocks, BlocksPerArena, InArena, HeapPage, NoDup;
    forall d, x | 0 <= d < DESC_CNT && x in h'.free[d] ensures exists q: nat :: Owned(h', q, d, x) {
      var q: nat :| Owned(h, q, d, x);
      assert Owned(h', q, d, x);
    }
    forall q: nat | q in h'.arenas && h'.arenas[q].Small? ensures CountOk(h', q, h'.arenas[q].desc, h'.arenas[q].cnt) {
      assert CountOk(h, q, h.arenas[q].desc, h.arenas[q].cnt);
    }
  }

  lemma LargeLive(h: Heap, h': Heap, p: nat, n: nat)
    requires |h.free| == DESC_CNT && p !in h.arenas && p < 0x8000
    requires h'.arenas == h.arenas[p := Large(n)] && h'.free == h.free
    ensures LiveAdds(h, h', p, HeapAddr(p) + ARENA_HEADER)
  {
    PageOfAddr(p, ARENA_HEADER);
    hide InArena;
  }

  // ---------------------------------------------------------------- sys_free

  /** A pointer was given back: exactly it is no longer live. */
  ghost predicate GivenBack(h: Heap, h': Heap, b: int) {
    && (forall q: nat, x :: LiveIn(h', q, x) <==> LiveIn(h, q, x) && x != b)
    && (forall q :: q in h'.arenas ==> q in h.arenas && Room(h'.arenas[q]) == Room(h.arenas[q]))
    && (forall j: nat :: Raw(h', j) == Raw(h, j))
  }

  lemma FreeLargeKeeps(h: Heap, p: nat, b: Word)
    requires SlabInv(h) && LiveIn(h, p, b) && h.arenas[p].Large?
    ensures SysFree(h, b).Ok? && SlabInv(SysFree(h, b).value) && GivenBack(h, SysFree(h, b).value, b)
  {
    hide DirsOk, TablesOk, HeapOk, ListsOk, ArenasOk, CountsOk, Raw;
    DropArena(h, p);
    HeapRuns.UnmarkKeeps(h.mm, p, PagesOf(h.arenas[p]));
    var h' := SysFree(h, b).value;
    DropLists(h, h', p);
    DropLive(h, h', p, b);
  }

  lemma DropLists(h: Heap, h': Heap, p: nat)
    requires ListsOk(h) && CountsOk(h) && p in h.arenas && h.arenas[p].Large?
    requires h'.arenas == h.arenas - {p} && h'.free == h.free
    ensures ListsOk(h') && CountsOk(h')
  {
    hide FreeBlocks, BlocksPerArena, InArena, HeapPage, NoDup;
    forall d, x | 0 <= d < DESC_CNT && x in h'.free[d] ensures exists q: nat :: Owned(h', q, d, x) {
      var q: nat :| Owned(h, q, d, x);
      assert Owned(h', q, d, x);
    }
    forall q: nat | q in h'.arenas && h'.arenas[q].Small? ensures CountOk(h', q, h'.arenas[q].desc, h'.arenas[q].cnt) {
      assert CountOk(h, q, h.arenas[q].desc, h.arenas[q].cnt);
    }
  }

  lemma DropLive(h: Heap, h': Heap, p: nat, b: int)
    requires LiveIn(h, p, b) && h.arenas[p].Large?
    requires h'.arenas == h.arenas - {p} && h'.free == h.free
    ensures forall q: nat, x :: LiveIn(h', q, x) <==> LiveIn(h, q, x) && x != b
  {
    hide InArena, HeapPage;
    forall q: nat, x ensures LiveIn(h', q, x) <==> LiveIn(h, q, x) && x != b {
      if x == b && q != p {
        OnePage(b, p, q);
      }
    }
  }

  lemma AddedBlock(h: Heap, p: nat, c: nat, b: int)
    requires CountsOk(h) && LiveIn(h, p, b) && h.arenas[p].Small? && h.arenas[p].desc == c
    ensures p < 0x8000 && |FreeBlocks(h.free[c] + [b], p, c)| == h.arenas[p].cnt + 1 <= BlocksPerArena(c)
  {
    assert CountOk(h, p, c, h.arenas[p].cnt);
    var i := BlockOf(p, c, b);
    BlocksWithout(h.free[c] + [b], h.free[c], p, c, i, b);
  }

  lemma LiveHeader(h: Heap, p: nat, b: Word)
    requires LiveIn(h, p, b)
    ensures PageOf(b) == p && (p <= 0x8000 ==> b >= HEAP_START)
  {
  }

  /** The arena keeps other blocks in use: the block goes to the end of the list. */
  lemma FreeSmallKeeps(h: Heap, p: nat, b: Word)
    requires SlabInv(h) && LiveIn(h, p, b) && h.arenas[p].Small?
             && h.arenas[p].cnt + 1 != BlocksPerArena(h.arenas[p].desc)
    ensures SysFree(h, b).Ok? && SlabInv(SysFree(h, b).value) && GivenBack(h, SysFree(h, b).value, b)
  {
    var c := h.arenas[p].desc;
    AddedBlock(h, p, c, b);
    hide DirsOk, TablesOk, HeapOk, ListsOk, ArenasOk, CountsOk, LiveIn, Raw, BlocksPerArena, FreeBlocks, SysFree;
    FreeSmallIs(h, p, b);
    var h' := SysFree(h, b).value;
    AppendedLists(h, h', p, c, b);
    AppendedCounts(h, h', p, c, b);
    PopArenas(h, h', p);
    AppendedLive(h, h', p, c, b);
  }

  lemma FreeSmallIs(h: Heap, p: nat, b: Word)
    requires LiveIn(h, p, b) && h.arenas[p].Small? && p < 0x8000
    requires h.arenas[p].cnt + 1 != BlocksPerArena(h.arenas[p].desc)
    ensures var c := h.arenas[p].desc;
            SysFree(h, b) == Ok(h.(arenas := h.arenas[p := Small(c, h.arenas[p].cnt + 1)],
                free := h.free[c := h.free[c] + [b]]))
  {
    LiveHeader(h, p, b);
    hide PageOf, BlocksPerArena, InArena;
  }

  lemma FreeLastIs(h: Heap, p: nat, b: Word, l': seq<int>, mm: State)
    requires LiveIn(h, p, b) && h.arenas[p].Small? && p < 0x8000
    requires h.arenas[p].cnt + 1 == BlocksPerArena(h.arenas[p].desc)
    requires DrainFrom(h.free[h.arenas[p].desc] + [b], p, h.arenas[p].desc, 0) == Ok(l')
             && RemoveVirtual(h.mm, p, 1) == Ok(mm)
    ensures SysFree(h, b) == Ok(h.(mm := mm, arenas := h.arenas - {p}, free := h.free[h.arenas[p].desc := l']))
  {
    LiveHeader(h, p, b);
    hide PageOf, BlocksPerArena, InArena, DrainFrom, RemoveVirtual;
  }

  lemma AppendedLists(h: Heap, h': Heap, p: nat, c: nat, b: int)
    requires ListsOk(h) && LiveIn(h, p, b) && h.arenas[p].Small? && h.arenas[p].desc == c
    requires exists n: nat :: h'.arenas == h.arenas[p := Small(c, n)]
    requires h'.free == h.free[c := h.free[c] + [b]]
    ensures ListsOk(h')
  {
    hide InArena, HeapPage;
    assert NoDup(h.free[c] + [b]);
    hide NoDup;
    forall d, x | 0 <= d < DESC_CNT && x in h'.free[d] ensures exists q: nat :: Owned(h', q, d, x) {
      if x == b && d == c {
        assert Owned(h', p, c, b);
      } else {
        var q: nat :| Owned(h, q, d, x);
        assert Owned(h', q, d, x);
      }
    }
  }

  lemma AppendedCounts(h: Heap, h': Heap, p: nat, c: nat, b: int)
    requires CountsOk(h) && LiveIn(h, p, b) && h.arenas[p].Small? && h.arenas[p].desc == c
    requires h.arenas[p].cnt + 1 != BlocksPerArena(c)
    requires h' == h.(arenas := h.arenas[p := Small(c, h.arenas[p].cnt + 1)], free := h.free[c := h.free[c] + [b]])
    ensures CountsOk(h')
  {
    AddedBlock(h, p, c, b);
    hide FreeBlocks, BlocksPerArena, HeapPage, InArena;
    forall q: nat | q in h'.arenas && h'.arenas[q].Small?
      ensures CountOk(h', q, h'.arenas[q].desc, h'.arenas[q].cnt)
    {
      if q != p {
        assert CountOk(h, q, h.arenas[q].desc, h.arenas[q].cnt);
        CountUnaffected(h, h', q, c, p, b);
      }
    }
  }

  lemma AppendedLive(h: Heap, h': Heap, p: nat, c: nat, b: int)
    requires LiveIn(h, p, b) && h.arenas[p].Small? && h.arenas[p].desc == c
    requires exists n: nat :: h'.arenas == h.arenas[p := Small(c, n)]
    requires h'.free == h.free[c := h.free[c] + [b]]
    ensures forall q: nat, x :: LiveIn(h', q, x) <==> LiveIn(h, q, x) && x != b
  {
    hide InArena, HeapPage;
    forall q: nat, x ensures LiveIn(h', q, x) <==> LiveIn(h, q, x) && x != b {
      if x == b && q != p {
        OnePage(b, p, q);
      }
    }
  }

  /** The last block in use: all blocks of the arena are on the list, so the assertion that each is found never
      fails; they are taken off, and the page is given back. */
  lemma FreeLastKeeps(h: Heap, p: nat, b: Word)
    requires SlabInv(h) && LiveIn(h, p, b) && h.arenas[p].Small? && h.arenas[p].cnt + 1 ==
               BlocksPerArena(h.arenas[p].desc)
    ensures SysFree(h, b).Ok? && SlabInv(SysFree(h, b).value) && GivenBack(h, SysFree(h, b).value, b)
  {
    var c := h.arenas[p].desc;
    var l := h.free[c] + [b];
    AddedBlock(h, p, c, b);
    assert NoDup(l) && InArena(p, c, b);
    hide DirsOk, TablesOk, HeapOk, ListsOk, ArenasOk, CountsOk, LiveIn, Raw, BlocksPerArena, FreeBlocks, NoDup,
         DrainFrom, SysFree, InArena, IsBlock;
    AllBlocksFree(l, p, c);
    DrainIs(l, p, c, 0);
    DropArena(h, p);
    HeapRuns.UnmarkKeeps(h.mm, p, 1);
    var l' := DrainFrom(l, p, c, 0).value;
    DrainedList(h.free[c], l', p, c, b);
    FreeLastIs(h, p, b, l', RemoveVirtual(h.mm, p, 1).value);
    FreeLastRest(h, SysFree(h, b).value, p, b);
  }

  lemma FreeLastRest(h: Heap, h': Heap, p: nat, b: int)
    requires SlabInv(h) && LiveIn(h, p, b) && h.arenas[p].Small? && p < 0x8000
    requires var c := h.arenas[p].desc;
             && |h'.free| == DESC_CNT && NoDup(h'.free[c])
             && h' == h.(mm := h'.mm, arenas := h.arenas - {p}, free := h.free[c := h'.free[c]])
             && (forall x :: x in h'.free[c] <==> x in h.free[c] && !InArena(p, c, x))
             && (forall i: nat, x :: IsBlock(p, c, i, x) ==> x in h.free[c] + [b])
    requires Inv(h'.mm)
    requires var h2 := h.(mm := h'.mm, arenas := h'.arenas); ArenasOk(h2) && forall j: nat :: Raw(h2, j) == Raw(h, j)
    ensures SlabInv(h') && GivenBack(h, h', b)
  {
    var c := h.arenas[p].desc;
    hide DirsOk, TablesOk, HeapOk, ListsOk, ArenasOk, CountsOk, LiveIn, Raw, BlocksPerArena, FreeBlocks, NoDup,
         InArena, IsBlock;
    LiveArena(h, p, b);
    DrainedLists(h, h', p, c);
    DrainedCounts(h, h', p, c);
    DrainedLive(h, h', p, c, b);
    RawFree(h, h.(mm := h'.mm, arenas := h'.arenas), h');
    ArenasOnly(h.(mm := h'.mm, arenas := h'.arenas), h');
  }

  lemma AllBlocksFree(l: seq<int>, p: nat, c: nat)
    requires p < 0x8000 && c < DESC_CNT && |FreeBlocks(l, p, c)| == BlocksPerArena(c)
    ensures forall i: nat, b :: IsBlock(p, c, i, b) ==> b in l
  {
    hide BlockSize, BlocksPerArena, BlockAddr;
    var n := BlocksPerArena(c);
    RangeSize(n);
    SubsetOfSameSize(FreeBlocks(l, p, c), Range(n));
    forall i: nat, b | IsBlock(p, c, i, b) ensures b in l {
      assert i in FreeBlocks(l, p, c);
    }
  }

  lemma SubsetOfSameSize(a: set<nat>, b: set<nat>)
    requires a <= b && |a| == |b|
    ensures a == b
  {
    assert b == a + (b - a);
  }

  /** After draining, the list holds the old blocks of the other pages. */
  lemma DrainedList(l: seq<int>, l': seq<int>, p: nat, c: nat, b: int)
    requires InArena(p, c, b)
    requires forall x :: x in l' <==> x in l + [b] && !exists j: nat :: 0 <= j && IsBlock(p, c, j, x)
    ensures forall x :: x in l' <==> x in l && !InArena(p, c, x)
  {
    hide IsBlock;
    forall x ensures x in l' <==> x in l && !InArena(p, c, x) {
      assert InArena(p, c, x) <==> exists j: nat :: 0 <= j && IsBlock(p, c, j, x);
    }
  }

  lemma DrainedLists(h: Heap, h': Heap, p: nat, c: nat)
    requires ListsOk(h) && c < DESC_CNT && p in h.arenas && h.arenas[p].Small? && h.arenas[p].desc == c
    requires |h'.free| == |h.free| && h'.arenas == h.arenas - {p} && NoDup(h'.free[c])
    requires forall d :: 0 <= d < DESC_CNT && d != c ==> h'.free[d] == h.free[d]
    requires forall x :: x in h'.free[c] <==> x in h.free[c] && !InArena(p, c, x)
    ensures ListsOk(h')
  {
    hide InArena, HeapPage, NoDup;
    forall d, x | 0 <= d < DESC_CNT && x in h'.free[d] ensures exists q: nat :: Owned(h', q, d, x) {
      assert x in h.free[d];
      var q: nat :| Owned(h, q, d, x);
      assert q != p;
      assert Owned(h', q, d, x);
    }
  }

  lemma DrainedCounts(h: Heap, h': Heap, p: nat, c: nat)
    requires CountsOk(h) && c < DESC_CNT && |h'.free| == |h.free| == DESC_CNT && p < 0x8000
    requires h'.arenas == h.arenas - {p}
    requires forall d :: 0 <= d < DESC_CNT && d != c ==> h'.free[d] == h.free[d]
    requires forall x :: x in h'.free[c] <==> x in h.free[c] && !InArena(p, c, x)
    ensures CountsOk(h')
  {
    hide InArena, BlocksPerArena, IsBlock, FreeBlocks;
    forall q: nat | q in h'.arenas && h'.arenas[q].Small? ensures CountOk(h', q, h'.arenas[q].desc, h'.arenas[q].cnt) {
      assert CountOk(h, q, h.arenas[q].desc, h.arenas[q].cnt);
      if h.arenas[q].desc == c {
        OthersNotDrained(h.free[c], h'.free[c], p, q, c);
      }
    }
  }

  lemma OthersNotDrained(l: seq<int>, l': seq<int>, p: nat, q: nat, c: nat)
    requires q < 0x8000 && c < DESC_CNT && p != q
    requires forall x :: x in l' <==> x in l && !InArena(p, c, x)
    ensures FreeBlocks(l', q, c) == FreeBlocks(l, q, c)
  {
    hide BlocksPerArena;
    forall i: nat | i < BlocksPerArena(c) ensures !InArena(p, c, BlockAddr(q, c, i)) {
      NotInTwo(p, q, c, i);
    }
  }

  lemma NotInTwo(p: nat, q: nat, c: nat, i: nat)
    requires p != q && q < 0x8000 && c < DESC_CNT && i < BlocksPerArena(c)
    ensures !InArena(p, c, BlockAddr(q, c, i))
  {
    var b := BlockAddr(q, c, i);
    BlockPage(q, c, i, b);
    forall j: nat ensures !IsBlock(p, c, j, b) {
      if IsBlock(p, c, j, b) {
        BlockPage(p, c, j, b);
        OnePage(b, p, q);
      }
    }
  }

  lemma DrainedLive(h: Heap, h': Heap, p: nat, c: nat, b: int)
    requires LiveIn(h, p, b) && h.arenas[p].Small? && h.arenas[p].desc == c
    requires |h'.free| == |h.free| && h'.arenas == h.arenas - {p}
    requires forall d :: 0 <= d < DESC_CNT && d != c ==> h'.free[d] == h.free[d]
    requires forall x :: x in h'.free[c] <==> x in h.free[c] && !InArena(p, c, x)
    requires forall i: nat, x :: IsBlock(p, c, i, x) ==> x in h.free[c] + [b]
    ensures forall q: nat, x :: LiveIn(h', q, x) <==> LiveIn(h, q, x) && x != b
  {
    forall q: nat, x ensures LiveIn(h', q, x) <==> LiveIn(h, q, x) && x != b {
      if q != p {
        if HeapPage(x, q) {
          NotInOther(p, q, c, x);
        }
        if x == b {
          OnePage(b, p, q);
        }
      } else if LiveIn(h, p, x) {
        var i := BlockOf(p, c, x);
        assert IsBlock(p, c, i, x);
      }
    }
  }

  lemma NotInOther(p: nat, q: nat, c: nat, x: int)
    requires HeapPage(x, q) && p != q
    ensures !InArena(p, c, x)
  {
    forall j: nat ensures !IsBlock(p, c, j, x) {
      if IsBlock(p, c, j, x) {
        BlockPage(p, c, j, x);
        OnePage(x, p, q);
      }
    }
  }

  /** sys_free of a live pointer. */
  lemma SysFreeKeeps(h: Heap, b: Word)
    requires SlabInv(h) && Live(h, b)
    ensures SysFree(h, b).Ok? && SlabInv(SysFree(h, b).value) && GivenBack(h, SysFree(h, b).value, b)
  {
    hide SlabInv, SysFree, LiveIn, GivenBack;
    var p: nat :| LiveIn(h, p, b);
    LiveArena(h, p, b);
    if h.arenas[p].Large? {
      FreeLargeKeeps(h, p, b);
    } else if h.arenas[p].cnt + 1 == BlocksPerArena(h.arenas[p].desc) {
      FreeLastKeeps(h, p, b);
    } else {
      FreeSmallKeeps(h, p, b);
    }
  }

  lemma LiveArena(h: Heap, p: nat, b: int)
    requires LiveIn(h, p, b)
    ensures p in h.arenas && (h.arenas[p].Small? ==> h.arenas[p].desc < DESC_CNT)
  {
  }
}
