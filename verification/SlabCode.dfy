/** The code of sys_malloc, sys_free and block_desc_init of os/kernel/mem.c: the free lists are linked through the free
    blocks in memory, the arena headers and the page bitmaps change in place; proved against module Slab. */
module SlabCode {
  import opened Words
  import opened Bitmaps
  import opened Lists
  import opened TaggedLists
  import opened KernelMemory
  import opened HeapInvariant
  import opened HeapSteps
  import opened KernelMemoryCode
  import opened Slab
  import opened SlabInvariant
  import opened SlabSteps
  import opened BlockLists

  /** The sentinels of the descriptors are all different. */
  ghost predicate SentinelsApart(lists: seq<List>) {
    && (forall i :: 0 <= i < |lists| ==> lists[i].header != lists[i].tailer)
    && (forall i, j :: 0 <= i < |lists| && 0 <= j < |lists| && i != j ==>
          lists[i].header != lists[j].header && lists[i].header != lists[j].tailer
          && lists[i].tailer != lists[j].tailer)
  }

  ghost function Sentinels(lists: seq<List>): set<Entry> {
    (set l | l in lists :: l.header) + (set l | l in lists :: l.tailer)
  }

  /** The lists that have been initialised are empty. */
  ghost predicate EmptyLists(w: World, lists: seq<List>) {
    && w.Keys == (set l | l in lists)
    && forall l :: l in w ==> w[l] == [l.header, l.tailer]
  }

  lemma NextIsNew(w: World, lists: seq<List>, i: nat)
    requires SentinelsApart(lists) && i < |lists| && EmptyLists(w, lists[..i])
    ensures lists[i] !in w && lists[i].header !in AllNodes(w) && lists[i].tailer !in AllNodes(w)
    ensures lists[i].header in Sentinels(lists) && lists[i].tailer in Sentinels(lists)
  {
    forall l | l in w ensures lists[i].header !in w[l] && lists[i].tailer !in w[l] && l != lists[i] {
      var j :| 0 <= j < i && lists[..i][j] == l;
      assert lists[j] == l;
    }
    assert lists[i] in lists;
  }

  lemma OneMoreEmpty(w: World, lists: seq<List>, i: nat)
    requires i < |lists| && EmptyLists(w, lists[..i])
    ensures EmptyLists(w[lists[i] := [lists[i].header, lists[i].tailer]], lists[..i + 1])
  {
    assert lists[..i + 1] == lists[..i] + [lists[i]];
  }

  /** block_desc_init: block sizes by doubling, counts by division, and empty lists. */
  method BlockDescInit(lists: seq<List>) returns (sizes: seq<nat>, counts: seq<nat>, ghost w: World)
    requires |lists| == DESC_CNT && SentinelsApart(lists)
    modifies Sentinels(lists)
    ensures |sizes| == |counts| == DESC_CNT
    ensures forall c :: 0 <= c < DESC_CNT ==> sizes[c] == BlockSize(c) && counts[c] == BlocksPerArena(c)
    ensures Separate(w) && EmptyLists(w, lists)
  {
    hide SentinelsApart, Sentinels, Separate, AllNodes, EmptyLists;
    sizes, counts, w := [], [], map[];
    NoLists();
    NothingEmpty(lists);
    var descIdx, blockSize := 0, 16;
    while descIdx < DESC_CNT
      invariant 0 <= descIdx <= DESC_CNT && |sizes| == |counts| == descIdx
      invariant descIdx < DESC_CNT ==> blockSize == BlockSize(descIdx)
      invariant forall c :: 0 <= c < descIdx ==> sizes[c] == BlockSize(c) && counts[c] == BlocksPerArena(c)
      invariant Separate(w) && EmptyLists(w, lists[..descIdx])
    {
      sizes := sizes + [blockSize];
      counts := counts + [(4096 - ARENA_HEADER) / blockSize];
      NextIsNew(w, lists, descIdx);
      IsApart(lists, descIdx);
      OneMoreEmpty(w, lists, descIdx);
      w := Init(lists[descIdx], w);
      blockSize := blockSize * 2;
      descIdx := descIdx + 1;
    }
    assert lists[..DESC_CNT] == lists;
  }

  lemma IsApart(lists: seq<List>, i: nat)
    requires SentinelsApart(lists) && i < |lists|
    ensures lists[i].header != lists[i].tailer
  {
  }

  lemma NothingEmpty(lists: seq<List>)
    ensures EmptyLists(map[], lists[..0])
  {
  }

  lemma NoLists()
    ensures Separate(map[])
  {
  }

  /** Empty lists hold no blocks. */
  lemma EmptyShape(k: Links)
    requires |k.lists| == DESC_CNT && SentinelsApart(k.lists) && EmptyLists(k.w, k.lists) && TagsOk(k.node, k.block)
    requires Sentinels(k.lists) !! k.block.Keys
    ensures Shape(k) && FreeOf(k) == seq(DESC_CNT, c => [])
  {
    forall l | l in k.w ensures ChainOk(k.block, l, k.w[l]) && Elems(k.w[l]) == [] {
      assert l in k.lists;
      assert l.header in Sentinels(k.lists) && l.tailer in Sentinels(k.lists);
    }
    assert Shape(k);
    forall c: nat | c < DESC_CNT ensures FreeOf(k)[c] == [] {
      ListInWorld(k, c);
    }
  }

  /** A new machine, all lists empty and no arena. */
  lemma EmptyHeap(s: State, free: seq<seq<int>>, size: nat)
    requires Inv(s) && |free| == DESC_CNT && forall c :: 0 <= c < DESC_CNT ==> free[c] == []
    ensures SlabInv(Heap(s, map[], free, size))
  {
    hide Inv;
  }

  /** A block on a list belongs to an arena of that class, in its page. */
  lemma ListOwner(h: Heap, c: nat, x: int)
    requires ListsOk(h) && c < DESC_CNT
    ensures x in h.free[c] ==>
              var p := PageOf(x); p in h.arenas && h.arenas[p].Small? && h.arenas[p].desc == c
  {
    if x in h.free[c] {
      var q: nat :| Owned(h, q, c, x);
    }
  }

  /** The blocks of a page that holds no arena are on no list. */
  lemma NewBlocksOff(h: Heap, p: nat)
    requires ListsOk(h) && p !in h.arenas
    ensures NoneIn(h.free, p)
  {
    forall c: nat, x | c < DESC_CNT && x in h.free[c] ensures PageOf(x) != p {
      ListOwner(h, c, x);
    }
  }

  ghost predicate NoneIn(free: seq<seq<int>>, p: nat) {
    forall c: nat, x: Word :: c < |free| && x in free[c] ==> PageOf(x) != p
  }

  /** A live pointer is on no list. */
  lemma LiveIsOff(h: Heap, b: int)
    requires SlabInv(h) && Live(h, b)
    ensures OffLists(h.free, b)
  {
    hide Inv, ArenasOk, CountsOk;
    var p: nat :| LiveIn(h, p, b);
    forall c: nat | c < DESC_CNT ensures b !in h.free[c] {
      hide ListsOk, InArena;
      ListOwner(h, c, b);
    }
  }

  class KernelHeap {
    const machine: Machine
    const poolSize: nat
    var arenas: map<nat, Arena>
    const lists: seq<List>              // k_block_descs[..].free_list
    const node: map<int, Entry>         // the entry at an address
    const block: map<Entry, int>        // to_struct(entry, struct mem_block, free_elem)
    ghost var w: World

    ghost function K(): Links
      reads this
    {
      Links(w, lists, node, block)
    }

    /** The free lists are well linked and share no node; every address of the heap can hold an entry. */
    ghost predicate Valid()
      reads this, AllNodes(w)
    {
      && Shape(K()) && Separate(w) && machine.Valid()
      && (forall b: Word :: b >= HEAP_START ==> b in node)
    }

    ghost function H(): Heap
      requires Shape(K())
      reads this, machine, machine.kernelPool.bytes, machine.userPool.bytes, machine.vaddrBitmap.bytes
    {
      Heap(machine.S(), arenas, FreeOf(K()), poolSize)
    }

    constructor (m: Machine, size: nat, lists: seq<List>, node: map<int, Entry>, block: map<Entry, int>)
      requires m.Valid() && Inv(m.S()) && forall i :: 0 <= i < |m.S().vbits| ==> !m.S().vbits[i]
      requires |lists| == DESC_CNT && SentinelsApart(lists) && TagsOk(node, block) && Sentinels(lists) !! block.Keys
      requires forall b: Word :: b >= HEAP_START ==> b in node
      modifies Sentinels(lists)
      ensures machine == m && poolSize == size && this.lists == lists && this.node == node && this.block == block
      ensures Valid() && SlabInv(H()) && H() == Heap(m.S(), map[], seq(DESC_CNT, c => []), size)
    {
      hide SentinelsApart, Sentinels, Separate, Shape, FreeOf, TagsOk, EmptyLists, SlabInv;
      var sizes, counts;
      ghost var w0;
      sizes, counts, w0 := BlockDescInit(lists);
      EmptyShape(Links(w0, lists, node, block));
      EmptyHeap(m.S(), FreeOf(Links(w0, lists, node, block)), size);
      machine, poolSize, arenas := m, size, map[];
      this.lists, this.node, this.block, w := lists, node, block, w0;
      new;
      Elsewhere(w0);
      assert Separate(w0);
    }

    /** Entries are not part of the other objects. */
    lemma Elsewhere(w: World)
      ensures forall e: object :: e in AllNodes(w) ==>
                e != this && e != machine && e != machine.kernelPool.bytes && e != machine.userPool.bytes
                && e != machine.vaddrBitmap.bytes
    {
    }

    /** The search of sys_malloc for a class. */
    method FindClass(size: nat) returns (c: nat)
      ensures c == ClassFrom(size, 0)
    {
      c := 0;
      while c < DESC_CNT && size >= BlockSize(c)
        invariant 0 <= c <= DESC_CNT && ClassFrom(size, 0) == ClassFrom(size, c)
      {
        c := c + 1;
      }
    }

    /** A block of page `p` that is not on the list of its class is on no list, when the other lists hold nothing of
        the page. */
    lemma OffAll(free: seq<seq<int>>, now: seq<seq<int>>, p: nat, c: nat, b: Word)
      requires |free| == |now| == DESC_CNT && c < DESC_CNT && NoneIn(free, p) && now == free[c := now[c]]
      requires PageOf(b) == p && b !in now[c]
      ensures OffLists(now, b)
    {
    }

    /** list_find and list_append for a block of page `p`. */
    method AddBlock(b: Word, p: nat, c: nat, ghost free: seq<seq<int>>) returns (ok: bool)
      requires Valid() && c < DESC_CNT && b >= HEAP_START && PageOf(b) == p
      requires |free| == DESC_CNT && NoneIn(free, p) && FreeOf(K()) == free[c := FreeOf(K())[c]]
      modifies `w, Nodes(block, lists)
      ensures ok <==> b !in old(FreeOf(K()))[c]
      ensures ok ==> Valid() && K() == old(K()).(w := w)
      ensures ok ==> FreeOf(K()) == old(FreeOf(K()))[c := old(FreeOf(K()))[c] + [b]]
    {
      hide Shape, Separate, FreeOf, NoneIn, OffLists, Nodes, PageOf, AllNodes;
      ShapeTags(K());
      var found := FindBlock(lists[c], node[b], K(), c, b);
      if found {
        return false;
      }
      OffAll(free, FreeOf(K()), p, c, b);
      ghost var w1 := AppendBlock(lists[c], node[b], K(), c, b);
      Elsewhere(w1);
      w := w1;
      return true;
    }

    /** The loop that appends the blocks of a new arena, with its assertion. */
    method FillArena(p: nat, c: nat) returns (ok: bool)
      requires Valid() && p < 0x8000 && c < DESC_CNT && NoneIn(FreeOf(K()), p)
      modifies `w, Nodes(block, lists)
      ensures FillFrom(old(FreeOf(K())[c]), p, c, 0).Ok? == ok
      ensures ok ==> Valid() && FreeOf(K()) == old(FreeOf(K()))[c := FillFrom(old(FreeOf(K())[c]), p, c, 0).value]
    {
      hide BlockSize, BlocksPerArena, Shape, Separate, FreeOf, NoneIn, Nodes, BlockAddr, PageOf, AllNodes;
      ghost var free := FreeOf(K());
      var blockIdx := 0;
      while blockIdx < BlocksPerArena(c)
        invariant 0 <= blockIdx <= BlocksPerArena(c) && Valid() && K() == old(K()).(w := w)
        invariant FreeOf(K()) == free[c := FreeOf(K())[c]]
        invariant FillFrom(free[c], p, c, 0) == FillFrom(FreeOf(K())[c], p, c, blockIdx)
      {
        BlockInHeap(p, c, blockIdx);
        ok := AddBlock(BlockAddr(p, c, blockIdx), p, c, free);
        if !ok {
          return;
        }
        blockIdx := blockIdx + 1;
      }
      return true;
    }

    lemma BlockInHeap(p: nat, c: nat, i: nat)
      requires p < 0x8000 && c < DESC_CNT && i < BlocksPerArena(c)
      ensures HEAP_START <= BlockAddr(p, c, i) < 0x1_0000_0000 && PageOf(BlockAddr(p, c, i)) == p
    {
      BlockToArena(p, c, i);
      hide PageOf, BlockAddr;
    }

    /** list_find and list_remove. */
    method TakeOff(b: Word, c: nat) returns (ok: bool)
      requires Valid() && c < DESC_CNT && b >= HEAP_START
      modifies `w, Nodes(block, lists)
      ensures ok <==> b in old(FreeOf(K()))[c]
      ensures ok ==> Valid() && K() == old(K()).(w := w)
      ensures ok ==> FreeOf(K()) == old(FreeOf(K()))[c := RemoveFirst(old(FreeOf(K()))[c], b)]
    {
      hide Shape, Separate, FreeOf, Nodes, AllNodes;
      ShapeTags(K());
      ok := FindBlock(lists[c], node[b], K(), c, b);
      if ok {
        ghost var w1 := RemoveBlock(node[b], K(), c, b);
        Elsewhere(w1);
        w := w1;
      }
    }

    /** The loop that takes the blocks of an empty arena off the list, with its assertion. */
    method DrainArena(p: nat, c: nat) returns (ok: bool)
      requires Valid() && p < 0x8000 && c < DESC_CNT
      modifies `w, Nodes(block, lists)
      ensures DrainFrom(old(FreeOf(K())[c]), p, c, 0).Ok? == ok
      ensures ok ==> Valid() && FreeOf(K()) == old(FreeOf(K()))[c := DrainFrom(old(FreeOf(K())[c]), p, c, 0).value]
    {
      hide BlockSize, BlocksPerArena, Shape, Separate, FreeOf, Nodes, BlockAddr, PageOf, AllNodes, RemoveFirst;
      ghost var free := FreeOf(K());
      var blockIdx := 0;
      while blockIdx < BlocksPerArena(c)
        invariant 0 <= blockIdx <= BlocksPerArena(c) && Valid() && K() == old(K()).(w := w)
        invariant FreeOf(K()) == free[c := FreeOf(K())[c]]
        invariant DrainFrom(free[c], p, c, 0) == DrainFrom(FreeOf(K())[c], p, c, blockIdx)
      {
        BlockInHeap(p, c, blockIdx);
        ok := TakeOff(BlockAddr(p, c, blockIdx), c);
        if !ok {
          return;
        }
        blockIdx := blockIdx + 1;
      }
      return true;
    }

    /** The end of sys_malloc: pop a block and count it. */
    method TakeBlock(c: nat) returns (ok: bool, b: int)
      requires Valid() && c < DESC_CNT
      modifies `w, `arenas, Nodes(block, lists)
      ensures ok ==> Valid()
      ensures PopBlock(old(H()), c) == if ok then Ok((H(), b)) else Halt
    {
      hide PageOf, Shape, Separate, FreeOf, Nodes, AllNodes;
      ShapeTags(K());
      var empty := NoBlocks(lists[c], K(), c);
      if empty {
        return false, 0;
      }
      var elem;
      ghost var w1;
      elem, w1 := PopFree(lists[c], K(), c);
      Elsewhere(w1);
      w := w1;
      b := block[elem];
      if !(0 <= b < 0x1_0000_0000) || PageOf(b) !in arenas {
        return false, 0;
      }
      var a := arenas[PageOf(b)];
      if a.Large? || a.cnt == 0 {
        return false, 0;
      }
      arenas := arenas[PageOf(b) := Small(a.desc, a.cnt - 1)];
      return true, b;
    }

    /** The part of sys_malloc for an empty free list. */
    method MakeArena(c: nat) returns (ok: bool)
      requires Valid() && SlabInv(H()) && c < DESC_CNT && FreeOf(K())[c] == []
      modifies this, machine, machine.kernelPool.bytes, machine.vaddrBitmap.bytes, Nodes(block, lists)
      ensures ok ==> Valid()
      ensures NewArena(old(H()), c) == if ok then Ok(H()) else Halt
    {
      hide ListsOk, ArenasOk, CountsOk, DirsOk, TablesOk, HeapOk, MallocPages, BlockSize, BlocksPerArena, FillFrom,
           Shape, Separate, FreeOf, Nodes, NoneIn;
      ghost var h := H();
      NewArenaIs(h, c);
      Elsewhere(w);
      var p;
      ok, p := machine.MallocPages(1);
      if !ok {
        return false;
      }
      NewPageOff(h, MallocPages(h.mm, 1).value.0, p);
      arenas := arenas[p := Small(c, BlocksPerArena(c))];
      ok := FillArena(p, c);
    }

    lemma NewPageOff(h: Heap, mm: State, p: nat)
      requires SlabInv(h) && Allocated(h.mm, mm, p, 1)
      ensures NoneIn(h.free, p)
    {
      hide Inv, CountsOk, OnlyEntries, FramesTaken;
      forall q | q in h.arenas ensures q != p {
        FreePagesHoldNoArena(h, p, 1, q);
      }
      NewBlocksOff(h, p);
    }

    /** The part of sys_malloc for whole pages. */
    method LargeMalloc(size: Word) returns (ok: bool, r: Option<int>)
      requires Valid() && SlabInv(H()) && 1024 < size < poolSize
      modifies this, machine, machine.kernelPool.bytes, machine.vaddrBitmap.bytes
      ensures ok ==> Valid()
      ensures Slab.SysMalloc(old(H()), size) == if ok then Ok((H(), r)) else Halt
    {
      hide ListsOk, ArenasOk, CountsOk, DirsOk, TablesOk, HeapOk, MallocPages, Allocated, Shape, Separate, FreeOf;
      Elsewhere(w);
      var n := (size + ARENA_HEADER + 4095) / 4096;
      var p;
      ok, p := machine.MallocPages(n);
      if !ok {
        return false, None;
      }
      arenas := arenas[p := Large(n)];
      MallocPagesKeeps(old(H()).mm, n);
      AllocatedRange(old(H()).mm, H().mm, p, n);
      return true, Some(HeapAddr(p) + ARENA_HEADER);
    }

    /** sys_malloc */
    method SysMalloc(size: Word) returns (ok: bool, r: Option<int>)
      requires Valid() && SlabInv(H())
      modifies this, machine, machine.kernelPool.bytes, machine.vaddrBitmap.bytes, Nodes(block, lists)
      ensures ok ==> Valid()
      ensures Slab.SysMalloc(old(H()), size) == if ok then Ok((H(), r)) else Halt
    {
      hide ListsOk, ArenasOk, CountsOk, DirsOk, TablesOk, HeapOk, MallocPages, BlockSize, BlocksPerArena, ClassFrom,
           FillFrom, NewArena, PopBlock, Allocated, Shape, Separate, FreeOf, Nodes;
      ShapeTags(K());
      Elsewhere(w);
      if !(0 < size < poolSize) {
        return true, None;
      }
      if size > 1024 {
        ok, r := LargeMalloc(size);
        return;
      }
      var c := FindClass(size);
      if c == DESC_CNT {
        return false, None;
      }
      var empty := NoBlocks(lists[c], K(), c);
      if empty {
        ok := MakeArena(c);
        if !ok {
          return false, None;
        }
      }
      var b;
      ok, b := TakeBlock(c);
      return ok, Some(b);
    }

    /** The part of sys_free for an arena without a block in use. */
    method ReturnArena(p: nat, c: nat) returns (ok: bool)
      requires Valid() && p <= 0x8000 && c < DESC_CNT
      modifies this, machine.vaddrBitmap.bytes, Nodes(block, lists)
      ensures ok ==> Valid()
      ensures ok <==> DrainFrom(old(FreeOf(K())[c]), p, c, 0).Ok? && RemoveVirtual(old(machine.S()), p, 1).Ok?
      ensures ok ==> H() == old(H()).(mm := RemoveVirtual(old(machine.S()), p, 1).value, arenas := old(arenas) - {p},
                                      free := old(FreeOf(K()))[c := DrainFrom(old(FreeOf(K())[c]), p, c, 0).value])
    {
      hide PageOf, BlockSize, BlocksPerArena, DrainFrom, Shape, Separate, FreeOf, Nodes;
      if p == 0x8000 {
        return false;
      }
      ShapeTags(K());
      ok := DrainArena(p, c);
      if ok {
        Elsewhere(w);
        ok := RemoveVirtualPages(p, 1);
        arenas := arenas - {p};
      }
    }

    /** What sys_free does with a block, in its two cases. */
    lemma FreeBlockIs(h: Heap, b: Word, p: nat, c: nat, cnt: nat)
      requires |h.free| == DESC_CNT && b >= HEAP_START && p == PageOf(b) <= 0x8000 && c < DESC_CNT
      requires p in h.arenas && h.arenas[p] == Small(c, cnt)
      ensures cnt + 1 != BlocksPerArena(c) ==>
                Slab.SysFree(h, b) ==
                Ok(h.(arenas := h.arenas[p := Small(c, cnt + 1)], free := h.free[c := h.free[c] + [b]]))
      ensures cnt + 1 == BlocksPerArena(c) ==>
                var l, m := DrainFrom(h.free[c] + [b], p, c, 0), RemoveVirtual(h.mm, p, 1);
                Slab.SysFree(h, b) ==
                if l.Ok? && m.Ok? then
                  Ok(h.(mm := m.value, arenas := h.arenas - {p}, free := h.free[c := l.value]))
                else Halt
    {
      hide PageOf, BlocksPerArena, DrainFrom;
    }

    /** The part of sys_free for a block. */
    method FreeBlock(b: Word, p: nat, c: nat) returns (ok: bool)
      requires Valid() && OffLists(FreeOf(K()), b) && b >= HEAP_START && p == PageOf(b) <= 0x8000 && c < DESC_CNT
      requires p in arenas && arenas[p].Small? && arenas[p].desc == c
      modifies this, machine.vaddrBitmap.bytes, Nodes(block, lists)
      ensures ok ==> Valid()
      ensures Slab.SysFree(old(H()), b) == if ok then Ok(H()) else Halt
    {
      hide PageOf, BlockSize, BlocksPerArena, DrainFrom, Shape, Separate, FreeOf, Nodes, OffLists, AllNodes,
           RemoveVirtual, BitsOf, Slab.SysFree;
      ShapeTags(K());
      var cnt := arenas[p].cnt;
      FreeBlockIs(H(), b, p, c, cnt);
      ghost var w1 := AppendBlock(lists[c], node[b], K(), c, b);
      Elsewhere(w1);
      w, arenas := w1, arenas[p := Small(c, cnt + 1)];
      if cnt + 1 == BlocksPerArena(c) {
        ghost var h1 := H();
        ok := ReturnArena(p, c);
        assert h1.arenas - {p} == old(arenas) - {p};
        ghost var l := DrainFrom(h1.free[c], p, c, 0);
        assert l.Ok? ==> h1.free[c := l.value] == old(FreeOf(K()))[c := l.value];
      } else {
        ok := true;
      }
    }

    /** sys_free of anything that is not on a free list, as live pointers are not (LiveIsOff): list_append does not look
        for the block, and would link it a second time. */
    method SysFree(b: Word) returns (ok: bool)
      requires Valid() && OffLists(FreeOf(K()), b)
      modifies this, machine.vaddrBitmap.bytes, Nodes(block, lists)
      ensures ok ==> Valid()
      ensures Slab.SysFree(old(H()), b) == if ok then Ok(H()) else Halt
    {
      hide PageOf, BlocksPerArena, DrainFrom, Shape, Separate, FreeOf, Nodes, OffLists;
      Elsewhere(w);
      var p := PageOf(b);
      if b < HEAP_START || p !in arenas || p > 0x8000 {
        return false;
      }
      var a := arenas[p];
      if a.Large? {
        ok := RemoveVirtualPages(p, a.pages);
        arenas := arenas - {p};
        return;
      }
      if a.desc >= DESC_CNT {
        return false;
      }
      ok := FreeBlock(b, p, a.desc);
    }

    /** remove_virtual_pages(PF_KERNEL, ..) */
    method RemoveVirtualPages(p: nat, n: nat) returns (ok: bool)
      requires machine.Valid()
      modifies machine.vaddrBitmap.bytes
      ensures RemoveVirtual(old(machine.S()), p, n) == if ok then Ok(machine.S()) else Halt
    {
      hide BitsOf;
      if p + n > 8 * machine.vaddrBitmap.bytes.Length {
        return false;
      }
      machine.SetHeapBits(p, n, 0);
      return true;
    }
  }
}
