/** The code of os/kernel/mem.c that changes bitmaps and page tables in place, proved against the functions of
    module KernelMemory. A method that returns `false` has stopped the kernel. */
module KernelMemoryCode {
  import opened Words
  import opened Bitmaps
  import opened Paging
  import opened KernelMemory
  import opened Pools
  import opened HeapInvariant
  import opened HeapSteps
  import HeapRuns

  lemma UserBitsDoNotMatter(s: State, s1: State)
    requires LayoutOk(s) && DirsOk(s) && s1 == s.(ubits := s1.ubits) && |s1.ubits| == |s.ubits|
    ensures LayoutOk(s1) && DirsOk(s1)
  {
    assert forall f :: KernelFrame(s1, f) == KernelFrame(s, f);
    hide KernelFrame, KernelHalf;
  }

  class Machine {
    const kernelPool: Bitmap
    const userPool: Bitmap
    const vaddrBitmap: Bitmap
    const kStart: Word
    const uStart: Word
    var mem: Mem
    var cr3: Word
    ghost var dirs: set<Word>

    ghost predicate Valid() {
      && kernelPool.bytes != userPool.bytes && kernelPool.bytes != vaddrBitmap.bytes
      && userPool.bytes != vaddrBitmap.bytes
      && 8 * vaddrBitmap.bytes.Length <= 0x8000
      && kStart + 4096 * 8 * kernelPool.bytes.Length <= 0x1_0000_0000
      && uStart + 4096 * 8 * userPool.bytes.Length <= 0x1_0000_0000
    }

    ghost function S(): State
      reads this, kernelPool.bytes, userPool.bytes, vaddrBitmap.bytes
    {
      State(kernelPool.Bits(), userPool.Bits(), vaddrBitmap.Bits(), kStart, uStart, mem, cr3, dirs)
    }

    /** mem_pool_init, on the memory and the directory that the loader left. */
    static lemma LayoutOfPools(allMem: Word)
      ensures var l := PoolLayout(allMem);
              l.userStart % 4096 == 0 && 8 * l.kernelLen <= 0x8000 && l.kernelStart == 0x200000
              && l.kernelStart + 4096 * (8 * l.kernelLen) <= l.userStart
              && l.userStart + 4096 * (8 * l.userLen) <= 0x1020_0000
    {
    }

    constructor (allMem: Word, m: Mem)
      ensures Valid() && fresh(kernelPool.bytes) && fresh(userPool.bytes) && fresh(vaddrBitmap.bytes)
      ensures LayoutOk(S()) && S().mem == m && S().cr3 == BOOT_DIR && S().dirs == {BOOT_DIR}
      ensures forall i :: 0 <= i < |S().kbits| ==> !S().kbits[i]
      ensures forall i :: 0 <= i < |S().ubits| ==> !S().ubits[i]
      ensures forall i :: 0 <= i < |S().vbits| ==> !S().vbits[i]
    {
      hide PoolLayout, BitSet, BitsOf;
      var l := PoolLayout(allMem);
      PoolsAreApart(allMem);
      LayoutOfPools(allMem);
      kStart := l.kernelStart;
      uStart := l.userStart;
      kernelPool := new Bitmap(l.kernelLen);
      userPool := new Bitmap(l.userLen);
      vaddrBitmap := new Bitmap(l.kernelLen);
      mem := m;
      cr3 := BOOT_DIR;
      dirs := {BOOT_DIR};
    }

    static lemma OneInRange(bits: seq<bool>)
      requires |bits| % 8 == 0
      ensures ScanBits(bits, 1).Found? ==> ScanBits(bits, 1).start < |bits|
    {
      ScanForOne(bits);
    }

    /** alloc_physical_pages(&kernel_pool) */
    method AllocKernelPage() returns (ok: bool, frame: Word)
      requires Valid()
      modifies kernelPool.bytes
      ensures AllocKernelFrame(old(S())) == if ok then Ok((S(), frame)) else Halt
    {
      hide BitSet, BitsOf, ScanFrom, ScanReadsBehind, ReadsBehind;
      OneInRange(kernelPool.Bits());
      var r, _ := kernelPool.Scan(1);
      if !r.Found? {
        return false, 0;
      }
      var _ := kernelPool.Set(r.start, 1);
      return true, kStart + r.start * 4096;
    }

    /** alloc_physical_pages(&user_pool) */
    method AllocUserPage() returns (ok: bool, frame: Word)
      requires Valid()
      modifies userPool.bytes
      ensures AllocUserFrame(old(S())) == if ok then Ok((S(), frame)) else Halt
    {
      hide BitSet, BitsOf, ScanFrom, ScanReadsBehind, ReadsBehind;
      OneInRange(userPool.Bits());
      var r, _ := userPool.Scan(1);
      if !r.Found? {
        return false, 0;
      }
      var _ := userPool.Set(r.start, 1);
      return true, uStart + r.start * 4096;
    }

    /** free_physical_pages */
    method FreePhysicalPage(p: Word) returns (ok: bool)
      requires Valid()
      modifies kernelPool.bytes, userPool.bytes
      ensures FreeFrame(old(S()), p) == if ok then Ok(S()) else Halt
    {
      hide BitSet, BitsOf;
      if p >= uStart {
        var bitIdx := (p - uStart) / 4096;
        if bitIdx >= 8 * userPool.bytes.Length {
          return false;
        }
        ok := userPool.Set(bitIdx, 0);
      } else {
        if p < kStart || (p - kStart) / 4096 >= 8 * kernelPool.bytes.Length {
          return false;
        }
        ok := kernelPool.Set((p - kStart) / 4096, 0);
      }
    }

    /** A store through a virtual address. */
    method StoreVirtual(v: Word, w: Word)
      requires Walk(mem, cr3, v).Some?
      modifies `mem
      ensures mem == Store(old(mem), Walk(old(mem), cr3, v).value, w)
    {
      mem := Store(mem, Walk(mem, cr3, v).value, w);
    }

    /** `memset` of a page that is given by its virtual address; see ZeroingStaysOnFrame. */
    method ZeroVirtual(v: Word)
      requires v % 4096 == 0 && Walk(mem, cr3, v).Some?
      modifies `mem
      ensures mem == ZeroFrame(old(mem), Walk(old(mem), cr3, v).value)
    {
      mem := ZeroFrame(mem, Walk(mem, cr3, v).value);
    }

    /** insert_page_table; all memory is reached through pde_addr and pte_addr. */
    method InsertPageTable(v: Word, p: Word) returns (ok: bool)
      requires Valid() && LayoutOk(S()) && DirsOk(S())
      modifies `mem, kernelPool.bytes
      ensures InsertPage(old(S()), v, p) == if ok then Ok(S()) else Halt
    {
      hide BitSet, BitsOf, ScanFrom, AllocKernelFrame, PdeIdx, PteIdx, Frame, Entry, PteAddr, PdeAddr, KernelFrame;
      SelfEntry(mem, cr3);
      hide KernelHalf;
      RecursiveMapping(mem, cr3, v);
      var pde := mem(Walk(mem, cr3, PdeAddr(v)).value);
      if Present(pde) {
        StoreVirtual(PteAddr(v), Entry(p));
        return true;
      }
      ok := InsertNewTable(v, p);
    }

    /** The branch of insert_page_table that needs a page table first. */
    method InsertNewTable(v: Word, p: Word) returns (ok: bool)
      requires Valid() && LayoutOk(S()) && DirsOk(S()) && !TablePresent(mem, cr3, v)
      modifies `mem, kernelPool.bytes
      ensures InsertPage(old(S()), v, p) == if ok then Ok(S()) else Halt
    {
      hide BitSet, BitsOf, ScanFrom, AllocKernelFrame, PdeIdx, PteIdx, Frame, Entry, PteAddr, PdeAddr, KernelFrame,
           PdeAt, Walk, TablePresent;
      SelfEntry(mem, cr3);
      hide KernelHalf;
      RecursiveMapping(mem, cr3, v);
      ghost var s0 := S();
      var got, table := AllocKernelPage();
      if !got {
        return false;
      }
      FreshFrameIsNoDir(s0);
      StoreVirtual(PdeAddr(v), Entry(table));
      NewTableIsReachable(old(mem), mem, cr3, v, table);
      ZeroVirtual(Frame(PteAddr(v)));
      StoreVirtual(PteAddr(v), Entry(p));
      return true;
    }

    static lemma FreshFrameIsNoDir(s: State)
      requires LayoutOk(s) && DirsOk(s) && AllocKernelFrame(s).Ok?
      ensures AllocKernelFrame(s).value.1 !in s.dirs && AllocKernelFrame(s).value.1 % 4096 == 0
    {
      FreshFrame(s);
    }

    /** With the directory entry written, the page of pte_addr is the new table, before and after zeroing. */
    static lemma NewTableIsReachable(m: Mem, m1: Mem, dir: Word, v: Word, t: Word)
      requires SelfMapped(m, dir) && t % 4096 == 0 && t != dir
      requires m1 == Store(m, PdeAt(dir, v), Entry(t)) && !TablePresent(m, dir, v)
      ensures Walk(m1, dir, Frame(PteAddr(v))) == Some(t)
      ensures Walk(ZeroFrame(m1, t), dir, PteAddr(v)) == Some(t + 4 * PteIdx(v))
    {
      hide PdeIdx, PteIdx, Frame, Entry, PteAddr, Walk;
      assert PdeAt(dir, v) != dir + 4092;
      assert SelfMapped(m1, dir) && TablePresent(m1, dir, v);
      ZeroingStaysOnFrame(m1, m1, dir, v, 0);
      TablesApart(dir, t, PdeIdx(v));
      TablesApart(dir, t, 1023);
      var m2 := ZeroFrame(m1, t);
      assert m2(PdeAt(dir, v)) == Entry(t) && m2(dir + 4092) == m(dir + 4092);
      assert SelfMapped(m2, dir) && TablePresent(m2, dir, v);
      RecursiveMapping(m2, dir, v);
    }

    /** get_a_page(PF_USER, v), without the bitmap of the process. */
    method GetUserPage(v: Word) returns (ok: bool)
      requires Valid() && LayoutOk(S()) && DirsOk(S())
      modifies `mem, kernelPool.bytes, userPool.bytes
      ensures MapUserPage(old(S()), v) == if ok then Ok(S()) else Halt
    {
      hide BitSet, BitsOf, InsertPage, KernelHalf, KernelFrame, AllocUserFrame;
      ghost var s := S();
      FreshUserFrame(s);
      var f;
      ok, f := AllocUserPage();
      if !ok {
        return;
      }
      UserBitsDoNotMatter(s, S());
      ok := InsertPageTable(v, f);
    }

    /** remove_page_table */
    method RemovePageTable(v: Word) returns (ok: bool)
      requires SelfMapped(mem, cr3)
      modifies `mem
      ensures ok <==> TablePresent(old(mem), cr3, v)
      ensures mem == if ok then ClearPte(old(mem), cr3, v) else old(mem)
    {
      hide PdeIdx, PteIdx, Frame, Absent, PteAddr, PdeAddr;
      RecursiveMapping(mem, cr3, v);
      if Walk(mem, cr3, PteAddr(v)).None? {
        return false;
      }
      StoreVirtual(PteAddr(v), Absent(mem(Walk(mem, cr3, PteAddr(v)).value)));
      return true;
    }

    /** The loops of get_virtual_pages and remove_virtual_pages over the bits of the heap's bitmap. */
    method SetHeapBits(start: nat, n: nat, value: int)
      requires Valid() && start + n <= 8 * vaddrBitmap.bytes.Length && (value == 0 || value == 1)
      modifies vaddrBitmap.bytes
      ensures vaddrBitmap.Bits() == SetRun(old(vaddrBitmap.Bits()), start, n, value == 1)
    {
      hide BitSet, BitsOf;
      var cnt := 0;
      ghost var bits := vaddrBitmap.Bits();
      while cnt < n
        invariant 0 <= cnt <= n
        invariant vaddrBitmap.Bits() == SetRun(bits, start, cnt, value == 1)
      {
        var _ := vaddrBitmap.Set(start + cnt, value);
        cnt := cnt + 1;
      }
    }

    /** One round of the loop of malloc_pages. */
    method MapPage(page: nat, ghost hi: nat) returns (ok: bool)
      requires Valid() && page < hi <= |S().vbits| && InvBut(S(), page, hi)
      modifies `mem, kernelPool.bytes
      ensures ok == AllocKernelFrame(old(S())).Ok?
      ensures ok ==> InvBut(S(), page + 1, hi)
      ensures ok ==> InsertPage(AllocKernelFrame(old(S())).value.0, HeapAddr(page),
                AllocKernelFrame(old(S())).value.1) == Ok(S())
    {
      hide BitSet, BitsOf, TablesOk, HeapOk, DirsOk, InsertPage, AllocKernelFrame, KernelFrame, FrameOf;
      ghost var s := S();
      var got, frame := AllocKernelPage();
      if !got {
        return false;
      }
      MapOne(s, page, hi);
      AllocKeepsDirs(s);
      ok := InsertPageTable(HeapAddr(page), frame);
    }

    /** The loop of malloc_pages. */
    method MapHeapPages(page: nat, n: nat) returns (ok: bool)
      requires Valid() && page + n <= |S().vbits| && InvBut(S(), page, page + n)
      modifies `mem, kernelPool.bytes
      ensures MapPages(old(S()), page, n) == if ok then Ok(S()) else Halt
    {
      hide BitSet, BitsOf, TablesOk, HeapOk, DirsOk, InsertPage, AllocKernelFrame;
      var cnt := n;
      while cnt > 0
        invariant 0 <= cnt <= n && InvBut(S(), page + n - cnt, page + n)
        invariant MapPages(old(S()), page, n) == MapPages(S(), page + n - cnt, cnt)
      {
        FreshFrame(S());
        ok := MapPage(page + n - cnt, page + n);
        if !ok {
          return false;
        }
        cnt := cnt - 1;
      }
      return true;
    }

    /** malloc_pages(PF_KERNEL, n) with get_virtual_pages; `page` is the index of the first heap page. */
    method MallocPages(n: nat) returns (ok: bool, page: nat)
      requires Valid() && Inv(S())
      modifies `mem, kernelPool.bytes, vaddrBitmap.bytes
      ensures KernelMemory.MallocPages(old(S()), n) == if ok then Ok((S(), page)) else Halt
      ensures ok ==> page + n <= |S().vbits|
    {
      hide BitSet, BitsOf, ScanFrom, DirsOk, TablesOk, HeapOk, MapPages;
      ghost var s0 := S();
      ScanInRange(vaddrBitmap.Bits(), n);
      var r, _ := vaddrBitmap.Scan(n);
      if !r.Found? {
        return false, 0;
      }
      page := r.start;
      SetHeapBits(page, n, 1);
      MarkPending(s0, page, n);
      ok := MapHeapPages(page, n);
    }

    static lemma AllocKeepsDirs(s: State)
      requires LayoutOk(s) && DirsOk(s) && AllocKernelFrame(s).Ok?
      ensures LayoutOk(AllocKernelFrame(s).value.0) && DirsOk(AllocKernelFrame(s).value.0)
    {
      FreshFrame(s);
      hide KernelFrame, KernelHalf;
    }

    static lemma ScanInRange(bits: seq<bool>, n: nat)
      requires |bits| % 8 == 0 && |bits| <= 0x8000
      ensures ScanBits(bits, n).Found? ==> n >= 1 && ScanBits(bits, n).start + n <= |bits|
    {
      ScanFromExact(bits, 0, RunLength(n));
    }

    /** addr_v2p; `ok` is false when the entry cannot be reached. Under a self-mapped directory it works for all
        addresses with a page table; for a present page it is the hardware's translation, and for one that is not
        present the address that the entry names all the same. */
    method V2p(v: Word) returns (ok: bool, p: Word)
      ensures ok <==> Walk(mem, cr3, PteAddr(v)).Some?
      ensures ok ==> p == AddrV2p(mem, cr3, v)
      ensures SelfMapped(mem, cr3) ==> (ok <==> TablePresent(mem, cr3, v))
      ensures SelfMapped(mem, cr3) && Walk(mem, cr3, v).Some? ==> ok && Walk(mem, cr3, v) == Some(p)
      ensures SelfMapped(mem, cr3) && ok ==> Frame(p) == Frame(mem(PteAt(mem, cr3, v))) && p % 4096 == v % 4096
    {
      hide PdeIdx, PteIdx, PteAddr, Frame, SelfMapped, Present;
      if SelfMapped(mem, cr3) {
        V2pReaches(mem, cr3, v);
      }
      var a := Walk(mem, cr3, PteAddr(v));
      if a.None? {
        return false, 0;
      }
      p := Frame(mem(a.value)) + v % 4096;
      return true, p;
    }

    /** One round of a loop of free_pages. */
    method FreeOnePage(v: Word, user: bool) returns (ok: bool)
      requires Valid() && SelfMapped(mem, cr3)
      modifies `mem, kernelPool.bytes, userPool.bytes
      ensures FreePage(old(S()), v, user) == if ok then Ok(S()) else Halt
      ensures ok ==> mem == ClearPte(old(mem), cr3, v)
    {
      hide BitSet, BitsOf, PdeIdx, PteIdx, Frame, PteAddr, PdeAddr, Walk, SelfMapped, FreeFrame;
      var p;
      ok, p := V2p(v);
      if !ok || p % 4096 != 0 || (if user then p < uStart else p < kStart || p >= uStart) {
        return false;
      }
      RecursiveMapping(mem, cr3, v);
      ok := FreePhysicalPage(p);
      if ok {
        ok := RemovePageTable(v);
      }
    }

    /** free_pages on heap pages. */
    method FreePages(page: nat, n: nat) returns (ok: bool)
      requires Valid() && page + n <= |S().vbits| && Translates()
      modifies `mem, kernelPool.bytes, userPool.bytes, vaddrBitmap.bytes
      ensures KernelMemory.FreePages(old(S()), page, n) == if ok then Ok(S()) else Halt
    {
      hide BitSet, BitsOf, PdeIdx, PteIdx, Frame, PteAddr, PdeAddr, Walk;
      if n == 0 {
        return false;
      }
      var p;
      ok, p := V2p(HeapAddr(page));
      if !ok || p % 4096 != 0 || p < 0x102000 {
        return false;
      }
      ok := UnmapHeapPages(page, n, p >= uStart);
      if ok {
        SetHeapBits(page, n, 0);
      }
    }

    /** The two loops of free_pages; on heap pages they leave the directories alone. */
    method UnmapHeapPages(page: nat, n: nat, user: bool) returns (ok: bool)
      requires Valid() && page + n <= |S().vbits| && Translates()
      modifies `mem, kernelPool.bytes, userPool.bytes
      ensures UnmapPages(old(S()), page, n, user) == if ok then Ok(S()) else Halt
    {
      hide BitSet, BitsOf, FreePage, KernelHalf, Walk, PteAddr, PteAt, SelfMapped;
      var cnt := 0;
      while cnt < n
        invariant 0 <= cnt <= n && Translates()
        invariant UnmapPages(old(S()), page, n, user) == UnmapPages(S(), page + cnt, n - cnt, user)
      {
        ghost var m := mem;
        HeapEntry(mem, cr3, page + cnt);
        ok := FreeOnePage(HeapAddr(page + cnt), user);
        if !ok {
          return false;
        }
        FreeKeepsHalf(m, mem, cr3, page + cnt);
        cnt := cnt + 1;
      }
      return true;
    }

    /** The kernel half is in place under cr3, and cr3 is not one of the kernel's page tables. */
    ghost predicate Translates()
      reads `mem, `cr3
    {
      KernelHalf(mem, cr3) && (cr3 == BOOT_DIR || cr3 >= 0x200000)
    }

    static lemma FreeKeepsHalf(m: Mem, m': Mem, d: Word, j: nat)
      requires KernelHalf(m, d) && (d == BOOT_DIR || d >= 0x200000) && j < 0x8000
      requires PteAt(m, d, HeapAddr(j)) == EntryAt(j) && m' == ClearPte(m, d, HeapAddr(j))
      ensures KernelHalf(m', d)
    {
      hide PteAt, Absent;
      forall i: nat | i < 1024 ensures Pde(m', d, i) == Pde(m, d, i) {
        assert d + 4 * i != EntryAt(j);
      }
    }

    /** `memcpy` of 1024 bytes between two pages, at offset 0xc00 in both. */
    method CopyKilobyte(dst: Word, src: Word)
      requires Walk(mem, cr3, dst).Some? && Walk(mem, cr3, src).Some?
      requires Walk(mem, cr3, dst).value >= 3072 && Walk(mem, cr3, src).value >= 3072
      modifies `mem
      ensures mem == CopyKernelEntries(old(mem), Walk(old(mem), cr3, src).value - 3072,
                Walk(old(mem), cr3, dst).value - 3072)
    {
      mem := CopyKernelEntries(mem, Walk(mem, cr3, src).value - 3072, Walk(mem, cr3, dst).value - 3072);
    }

    /** create_page_dir, with get_kernel_pages(1). */
    method CreatePageDir() returns (ok: bool, dir: Word)
      requires Valid() && Inv(S())
      modifies this, kernelPool.bytes, vaddrBitmap.bytes
      ensures KernelMemory.CreatePageDir(old(S())) == if ok then Ok((S(), dir)) else Halt
    {
      hide BitSet, BitsOf, DirsOk, TablesOk, HeapOk, KernelMemory.MallocPages, FramesTaken, OnlyEntries, KernelFrame,
        FrameOf, Walk, Frame, PteAddr, Entry, CopyKernelEntries, ZeroFrame, SameOutside, AddrV2p, Allocated;
      ghost var s0 := S();
      var got, page := MallocPages(1);
      if !got {
        return false, 0;
      }
      ghost var s1 := S();
      MallocPagesKeeps(s0, 1);
      FillPage(s1.mem, cr3, FrameOf(s1, page));
      var v := HeapAddr(page);
      NewPageTranslates(s0, s1, page, mem, 0);
      ZeroVirtual(v);
      NewPageTranslates(s0, s1, page, mem, 3072);
      CopyKilobyte(v + 3072, 0xfffffc00);
      NewPageTranslates(s0, s1, page, mem, 4092);
      got, dir := V2p(v);
      StoreVirtual(v + 4092, Entry(dir));
      dirs := dirs + {dir};
      return true, dir;
    }

    /** Work inside the frame `d` of heap page `j`, which is no directory, changes no translation that
        create_page_dir needs. */
    static lemma PageStaysMapped(m: Mem, dir: Word, j: nat, d: Word, off: nat)
      requires KernelHalf(m, dir) && j < 0x8000 && off < 4096
      requires Present(m(EntryAt(j))) && Frame(m(EntryAt(j))) == d
      ensures Walk(m, dir, HeapAddr(j) + off) == Some(d + off)
      ensures AddrV2p.requires(m, dir, HeapAddr(j)) && AddrV2p(m, dir, HeapAddr(j)) == d
      ensures Walk(m, dir, 0xfffff000 + off) == Some(dir + off)
    {
      hide PdeIdx, PteIdx, PteAt, PteAddr, TablePresent, Frame, KernelHalf, PdeAt, SelfMapped, Present, EntryAt;
      HeapAddress(j, off);
      HeapAddress(j, 0);
      HeapEntry(m, dir, j);
      KernelEntry(m, dir, HeapAddr(j) + off);
      IsEntryAt(j);
      DirectoryPage(m, dir, off);
    }

    static lemma IsEntryAt(j: nat)
      ensures EntryAt(j) == KERNEL_TABLES + 4 * (256 + j)
    {
    }

    static lemma DirectoryPage(m: Mem, dir: Word, off: nat)
      requires SelfMapped(m, dir) && off < 4096
      ensures Walk(m, dir, 0xfffff000 + off) == Some(dir + off)
    {
      AddressParts(1023, 1023, off);
      hide PdeIdx, PteIdx, Frame;
    }

    static lemma FrameChange(m: Mem, m': Mem, dir: Word, j: nat, d: Word)
      requires KernelHalf(m, dir) && j < 0x8000 && d % 4096 == 0 && d >= 0x200000 && d != dir
      requires SameOutside(m, m', d)
      ensures KernelHalf(m', dir) && m'(EntryAt(j)) == m(EntryAt(j))
    {
      forall i: nat | i < 1024 ensures Pde(m', dir, i) == Pde(m, dir, i) {
        HeapRuns.SameWord(dir, i, d, 0);
      }
    }

    /** A fresh heap page keeps its translation, and the directory its self-mapping, whatever is stored in
        the page. */
    static lemma NewPageTranslates(s0: State, s: State, j: nat, m: Mem, off: nat)
      requires Inv(s0) && Inv(s) && Allocated(s0, s, j, 1) && j < |s.vbits| && off < 4096
      requires SameOutside(s.mem, m, FrameOf(s, j))
      ensures Walk(m, s.cr3, HeapAddr(j) + off) == Some(FrameOf(s, j) + off)
      ensures AddrV2p.requires(m, s.cr3, HeapAddr(j)) && AddrV2p(m, s.cr3, HeapAddr(j)) == FrameOf(s, j)
      ensures Walk(m, s.cr3, 0xfffff000 + off) == Some(s.cr3 + off)
    {
      hide Walk, PteAddr, KernelHalf, Frame, Present, EntryAt, AddrV2p, DirsOk, TablesOk, HeapOk, FramesTaken,
           OnlyEntries, Allocated;
      NewPageFrame(s0, s, j);
      FrameChange(s.mem, m, s.cr3, j, FrameOf(s, j));
      PageStaysMapped(m, s.cr3, j, FrameOf(s, j), off);
    }

    static ghost predicate SameOutside(m: Mem, m': Mem, d: int) {
      forall x :: !(d <= x < d + 4096) ==> m'(x) == m(x)
    }

    static lemma FillPage(m: Mem, from: Word, d: Word)
      ensures SameOutside(m, m, d) && SameOutside(m, ZeroFrame(m, d), d)
      ensures SameOutside(m, CopyKernelEntries(ZeroFrame(m, d), from, d), d)
    {
    }

    static lemma NewPageFrame(s0: State, s: State, j: nat)
      requires Inv(s0) && Inv(s) && Allocated(s0, s, j, 1) && j < |s.vbits|
      ensures var d := FrameOf(s, j);
              d % 4096 == 0 && d >= 0x200000 && d != s.cr3 && KernelHalf(s.mem, s.cr3) && Present(s.mem(EntryAt(j)))
    {
      NewPagesHoldNoDirs(s0, s, j, 1);
      assert Settled(s, 0, 0, j);
      hide Frame, KernelHalf, EntryAt;
    }
  }
}
