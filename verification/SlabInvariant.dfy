/** What sys_malloc and sys_free keep: block counts, free lists, and the pages of the heap. */
module SlabInvariant {
  import opened Words
  import opened KernelMemory
  import opened HeapInvariant
  import opened Slab

  // ---------------------------------------------------------------- addresses

  lemma BlockOffset(c: nat, i: nat)
    requires c < DESC_CNT && i < BlocksPerArena(c)
    ensures 0 <= i * BlockSize(c) && ARENA_HEADER + i * BlockSize(c) + BlockSize(c) <= 4096
  {
    assert BlocksPerArena(c) * BlockSize(c) <= 4096 - ARENA_HEADER;
    assert (i + 1) * BlockSize(c) <= BlocksPerArena(c) * BlockSize(c);
  }

  lemma PageOfAddr(p: nat, off: nat)
    requires p < 0x8000 && off < 4096
    ensures HeapAddr(p) + off < 0x1_0000_0000 && PageOf(HeapAddr(p) + off) == p
  {
    assert (HeapAddr(p) + off) / 4096 == 0xc0100 + p;
  }

  /** block_to_arena inverts arena_to_block, and a block lies behind the header, inside its page. */
  lemma BlockToArena(p: nat, c: nat, i: nat)
    requires p < 0x8000 && c < DESC_CNT && i < BlocksPerArena(c)
    ensures HeapAddr(p) + ARENA_HEADER <= BlockAddr(p, c, i) && BlockAddr(p, c, i) + BlockSize(c) <= HeapAddr(p) + 4096
    ensures PageOf(BlockAddr(p, c, i)) == p
  {
    BlockOffset(c, i);
    PageOfAddr(p, ARENA_HEADER + i * BlockSize(c));
  }

  /** Two blocks of an arena do not overlap. */
  lemma BlocksApart(p: nat, c: nat, i: nat, j: nat)
    requires p < 0x8000 && c < DESC_CNT && i < j
    ensures BlockAddr(p, c, i) + BlockSize(c) <= BlockAddr(p, c, j)
  {
    assert (j - i) * BlockSize(c) >= BlockSize(c);
    assert j * BlockSize(c) == i * BlockSize(c) + (j - i) * BlockSize(c);
  }

  lemma SameBlock(p: nat, c: nat, i: nat, j: nat)
    requires p < 0x8000 && c < DESC_CNT && BlockAddr(p, c, i) == BlockAddr(p, c, j)
    ensures i == j
  {
    if i < j {
      BlocksApart(p, c, i, j);
    } else if j < i {
      BlocksApart(p, c, j, i);
    }
  }

  // ---------------------------------------------------------------- the invariant

  /** Block `i` of the arena of class `c` in page `p` has address `b`. */
  ghost predicate IsBlock(p: nat, c: nat, i: nat, b: int) {
    p < 0x8000 && c < DESC_CNT && i < BlocksPerArena(c) && b == BlockAddr(p, c, i)
  }

  /** The blocks of the arena in page `p` that are on the free list. */
  ghost function FreeBlocks(free: seq<int>, p: nat, c: nat): set<nat>
    requires p < 0x8000 && c < DESC_CNT
  {
    set i: nat | i < BlocksPerArena(c) && BlockAddr(p, c, i) in free
  }

  function PagesOf(a: Arena): nat {
    match a
    case Small(_, _) => 1
    case Large(n) => n
  }

  ghost predicate Marked(s: State, j: int) {
    0 <= j < |s.vbits| && s.vbits[j]
  }

  /** Every arena lies in marked pages and no two overlap. */
  ghost predicate ArenasOk(h: Heap) {
    && (forall p :: p in h.arenas ==> PagesOf(h.arenas[p]) >= 1 && p + PagesOf(h.arenas[p]) <= |h.mm.vbits|)
    && (forall p, k :: p in h.arenas && p <= k < p + PagesOf(h.arenas[p]) ==> Marked(h.mm, k))
    && (forall p, q :: p in h.arenas && q in h.arenas && p < q ==> p + PagesOf(h.arenas[p]) <= q)
  }

  /** The count of an arena is the number of its blocks on the free list of its class, and at least one block
      of it is in use. */
  ghost predicate CountOk(h: Heap, p: nat, c: nat, cnt: nat) {
    p < 0x8000 && c < DESC_CNT && |h.free| == DESC_CNT && cnt == |FreeBlocks(h.free[c], p, c)| < BlocksPerArena(c)
  }

  ghost predicate CountsOk(h: Heap) {
    forall p: nat :: p in h.arenas && h.arenas[p].Small? ==> CountOk(h, p, h.arenas[p].desc, h.arenas[p].cnt)
  }

  ghost predicate InArena(p: nat, c: nat, b: int) {
    exists i: nat :: IsBlock(p, c, i, b)
  }

  /** The heap page of an address of the heap. */
  predicate HeapPage(b: int, p: nat) {
    0 <= b < 0x1_0000_0000 && PageOf(b) == p
  }

  /** `b` is a block of the living arena of class `c` in page `p`. */
  ghost predicate Owned(h: Heap, p: nat, c: nat, b: int) {
    HeapPage(b, p) && p in h.arenas && h.arenas[p].Small? && h.arenas[p].desc == c && InArena(p, c, b)
  }

  /** A free list has no duplicates and holds only blocks of living arenas of its class. */
  ghost predicate ListsOk(h: Heap) {
    && |h.free| == DESC_CNT
    && (forall c :: 0 <= c < DESC_CNT ==> NoDup(h.free[c]))
    && (forall c, b :: 0 <= c < DESC_CNT && b in h.free[c] ==> exists p: nat :: Owned(h, p, c, b))
  }

  ghost predicate SlabInv(h: Heap) {
    && |h.free| == DESC_CNT && Inv(h.mm) && ListsOk(h) && ArenasOk(h) && CountsOk(h)
  }

  // ---------------------------------------------------------------- what is allocated

  /** `b` is a pointer that sys_malloc has returned and sys_free has not got back: behind the header of a large
      allocation, or a block that is not on its free list. */
  ghost predicate LiveIn(h: Heap, p: nat, b: int) {
    && HeapPage(b, p) && p in h.arenas && |h.free| == DESC_CNT
    && match h.arenas[p]
       case Large(_) => p < 0x8000 && b == HeapAddr(p) + ARENA_HEADER
       case Small(c, _) => c < DESC_CNT && b !in h.free[c] && InArena(p, c, b)
  }

  ghost predicate Live(h: Heap, b: int) {
    exists p: nat :: LiveIn(h, p, b)
  }

  /** How many bytes the caller may use behind a live pointer of the arena in page `p`. */
  function Room(a: Arena): int {
    match a
    case Large(n) => 4096 * n - ARENA_HEADER
    case Small(c, _) => if c < DESC_CNT then BlockSize(c) else 0
  }

  // ---------------------------------------------------------------- free lists

  lemma {:induction false} FillIs(free: seq<int>, p: nat, c: nat, i: nat)
    requires p < 0x8000 && c < DESC_CNT && i <= BlocksPerArena(c) && NoDup(free)
    requires forall j: nat, b :: i <= j && IsBlock(p, c, j, b) ==> b !in free
    ensures FillFrom(free, p, c, i).Ok?
    ensures var l := FillFrom(free, p, c, i).value;
            NoDup(l) && (l == [] ==> i == BlocksPerArena(c)) &&
            forall b :: b in l <==> b in free || exists j: nat :: i <= j && IsBlock(p, c, j, b)
    decreases BlocksPerArena(c) - i
  {
    if i < BlocksPerArena(c) {
      var x := BlockAddr(p, c, i);
      assert IsBlock(p, c, i, x);
      forall j: nat, b | i + 1 <= j && IsBlock(p, c, j, b) ensures b !in free + [x] {
        if b == x {
          SameBlock(p, c, i, j);
        }
      }
      FillIs(free + [x], p, c, i + 1);
    }
  }

  /** They come behind what is on the list, in the order of their addresses. */
  lemma {:induction false} FillOrder(free: seq<int>, p: nat, c: nat, i: nat)
    requires p < 0x8000 && c < DESC_CNT && i <= BlocksPerArena(c) && FillFrom(free, p, c, i).Ok?
    ensures var l := FillFrom(free, p, c, i).value;
            && |l| == |free| + BlocksPerArena(c) - i && l[..|free|] == free
            && forall j: nat :: i <= j < BlocksPerArena(c) ==> l[|free| + j - i] == BlockAddr(p, c, j)
    decreases BlocksPerArena(c) - i
  {
    hide BlockAddr, BlocksPerArena;
    if i < BlocksPerArena(c) {
      var b := BlockAddr(p, c, i);
      FillOrder(free + [b], p, c, i + 1);
      var l := FillFrom(free + [b], p, c, i + 1).value;
      assert l[..|free|] == l[..|free| + 1][..|free|];
      assert l[|free|] == l[..|free| + 1][|free|] == b;
    }
  }

  lemma {:induction false} RemoveFirstIs(s: seq<int>, x: int)
    requires NoDup(s) && x in s
    ensures NoDup(RemoveFirst(s, x))
    ensures forall b :: b in RemoveFirst(s, x) <==> b in s && b != x
  {
    if s[0] == x {
    } else {
      var t := s[1..];
      assert s == [s[0]] + t;
      assert x in t && s[0] !in t;
      RemoveFirstIs(t, x);
      assert s[0] !in RemoveFirst(t, x);
    }
  }

  lemma {:induction false} DrainIs(free: seq<int>, p: nat, c: nat, i: nat)
    requires p < 0x8000 && c < DESC_CNT && i <= BlocksPerArena(c) && NoDup(free)
    requires forall j: nat, b :: i <= j && IsBlock(p, c, j, b) ==> b in free
    ensures DrainFrom(free, p, c, i).Ok?
    ensures var l := DrainFrom(free, p, c, i).value;
            NoDup(l) && forall b :: b in l <==> b in free && !exists j: nat :: i <= j && IsBlock(p, c, j, b)
    decreases BlocksPerArena(c) - i
  {
    if i < BlocksPerArena(c) {
      var x := BlockAddr(p, c, i);
      assert IsBlock(p, c, i, x);
      RemoveFirstIs(free, x);
      forall j: nat, b | i + 1 <= j && IsBlock(p, c, j, b) ensures b in RemoveFirst(free, x) {
        if b == x {
          SameBlock(p, c, i, j);
        }
      }
      DrainIs(RemoveFirst(free, x), p, c, i + 1);
    }
  }
}
