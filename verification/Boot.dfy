/** setup_page of os/boot/loader.S: the page directory and the first page table that paging starts with. */
module Boot {
  import opened Words
  import opened Paging
  import opened KernelMemory
  import opened HeapInvariant
  import opened HeapRuns

  /** What setup_page leaves at the address of entry `i` of the directory. */
  function BootPde(i: nat): Word
    requires i < 1024
  {
    if i == 0 then KERNEL_TABLES + 7
    else if i < 768 then 0
    else if i < 1023 then KERNEL_TABLES + 4096 * (i - 768) + 7
    else BOOT_DIR + 7
  }

  ghost predicate BootTables(m: Mem) {
    && (forall i: nat :: i < 1024 ==> Pde(m, BOOT_DIR, i) == BootPde(i))
    && (forall i: nat :: i < 256 ==> Pde(m, KERNEL_TABLES, i) == 4096 * i + 7)
  }

  lemma StoreEntry(m: Mem, m': Mem, d: int, k: nat, w: Word)
    requires m' == Store(m, d + 4 * k, w)
    ensures forall i: nat :: Pde(m', d, i) == if i == k then w else Pde(m, d, i)
  {
  }

  class BootMemory {
    var mem: Mem

    /** setup_page; the numbers are those of the assembly loops, `%ecx` counting down. */
    method SetupPage()
      modifies this
      ensures BootTables(mem)
      ensures forall a :: !(BOOT_DIR <= a < KERNEL_TABLES + 1024) ==> mem(a) == old(mem)(a)
    {
      ClearPageDir();
      ghost var m0 := mem;
      var eax: Word := Entry(BOOT_DIR + 0x1000);
      EntryOfFrame(KERNEL_TABLES);
      hide Entry;
      mem := Store(mem, BOOT_DIR, eax);
      mem := Store(mem, BOOT_DIR + 768 * 4, eax);
      mem := Store(mem, BOOT_DIR + 4092, eax - 0x1000);
      ghost var m1 := mem;
      assert forall i: nat {:trigger Pde(m1, BOOT_DIR, i)} :: i < 1024 ==>
        Pde(m1, BOOT_DIR, i) ==
          if i == 0 || i == 768 then KERNEL_TABLES + 7
          else if i == 1023 then BOOT_DIR + 7
          else Pde(m0, BOOT_DIR, i);
      CreatePtes();
      ghost var m2 := mem;
      assert forall i: nat {:trigger Pde(m2, BOOT_DIR, i)} :: i < 1024 ==> Pde(m2, BOOT_DIR, i) == Pde(m1, BOOT_DIR, i);
      CreateKernelPdes();
      assert forall i: nat {:trigger Pde(mem, KERNEL_TABLES, i)} :: i < 256 ==>
          Pde(mem, KERNEL_TABLES, i) == Pde(m2, KERNEL_TABLES, i);
      assert forall i: nat {:trigger Pde(mem, BOOT_DIR, i)} :: i < 1024 && !(769 <= i < 1023) ==>
          Pde(mem, BOOT_DIR, i) == Pde(m2, BOOT_DIR, i);
    }

    method ClearPageDir()
      modifies this
      ensures forall i: nat :: i < 1024 ==> Pde(mem, BOOT_DIR, i) == 0
      ensures forall a :: !(BOOT_DIR <= a < BOOT_DIR + 4096) ==> mem(a) == old(mem)(a)
    {
      var ecx, esi := 0x400, 0;
      while ecx > 0
        invariant 0 <= ecx <= 0x400 && esi == 4 * (0x400 - ecx)
        invariant forall i: nat :: i < 0x400 - ecx ==> Pde(mem, BOOT_DIR, i) == 0
        invariant forall a :: !(BOOT_DIR <= a < BOOT_DIR + 4096) ==> mem(a) == old(mem)(a)
      {
        ghost var m := mem;
        mem := Store(mem, BOOT_DIR + esi, 0);
        StoreEntry(m, mem, BOOT_DIR, 0x400 - ecx, 0);
        esi := esi + 4;
        ecx := ecx - 1;
      }
    }

    method CreatePtes()
      modifies this
      ensures forall i: nat :: i < 256 ==> Pde(mem, KERNEL_TABLES, i) == 4096 * i + 7
      ensures forall a :: !(KERNEL_TABLES <= a < KERNEL_TABLES + 1024) ==> mem(a) == old(mem)(a)
    {
      var ecx, esi := 256, 0;
      var edx: int := 7;
      while ecx > 0
        invariant 0 <= ecx <= 256 && esi == 256 - ecx && edx == 4096 * esi + 7
        invariant forall i: nat :: i < esi ==> Pde(mem, KERNEL_TABLES, i) == 4096 * i + 7
        invariant forall a :: !(KERNEL_TABLES <= a < KERNEL_TABLES + 1024) ==> mem(a) == old(mem)(a)
      {
        ghost var m := mem;
        mem := Store(mem, KERNEL_TABLES + 4 * esi, edx);
        StoreEntry(m, mem, KERNEL_TABLES, esi, edx);
        edx := edx + 0x1000;
        esi := esi + 1;
        ecx := ecx - 1;
      }
    }

    method CreateKernelPdes()
      modifies this
      ensures forall i: nat :: 769 <= i < 1023 ==> Pde(mem, BOOT_DIR, i) == KERNEL_TABLES + 4096 * (i - 768) + 7
      ensures forall a :: !(BOOT_DIR + 4 * 769 <= a < BOOT_DIR + 4 * 1023) ==> mem(a) == old(mem)(a)
    {
      EntryOfFrame(BOOT_DIR + 0x2000);
      var eax: int := Entry(BOOT_DIR + 0x2000);
      var ecx, esi := 254, 769;
      while ecx > 0
        invariant 0 <= ecx <= 254 && esi == 1023 - ecx && eax == KERNEL_TABLES + 4096 * (esi - 768) + 7
        invariant forall i: nat :: 769 <= i < esi ==> Pde(mem, BOOT_DIR, i) == KERNEL_TABLES + 4096 * (i - 768) + 7
        invariant forall a :: !(BOOT_DIR + 4 * 769 <= a < BOOT_DIR + 4 * 1023) ==> mem(a) == old(mem)(a)
      {
        ghost var m := mem;
        mem := Store(mem, BOOT_DIR + 4 * esi, eax);
        StoreEntry(m, mem, BOOT_DIR, esi, eax);
        esi := esi + 1;
        eax := eax + 0x1000;
        ecx := ecx - 1;
      }
    }
  }

  /** The first megabyte is mapped twice: at its own addresses and at the start of the kernel half, both open to user
      mode and to writing. */
  lemma FirstMegabyte(m: Mem, a: Word)
    requires BootTables(m) && a < 0x100000
    ensures Reach(m, BOOT_DIR, a) == Reach(m, BOOT_DIR, KERNEL_BASE + a) == Some(Mapping(a, true, true))
  {
    var t := a / 4096;
    AddressParts(0, t, a % 4096);
    AddressParts(768, t, a % 4096);
    assert Pde(m, BOOT_DIR, 0) == BootPde(0) && Pde(m, BOOT_DIR, 768) == BootPde(768);
    assert Pde(m, KERNEL_TABLES, t) == 4096 * t + 7;
    KernelTable(0);
    LowEntry(t);
    LowEntry(257);
    hide PdeIdx, PteIdx, Frame, Present, UserMode, Writable;
  }

  lemma LowEntry(t: nat)
    requires t < 1024
    ensures Present(4096 * t + 7) && Open(4096 * t + 7) && Frame(4096 * t + 7) == 4096 * t
  {
  }

  /** Paging starts in a state from which every run keeps the invariant. */
  lemma SetupIsBooted(m: Mem, s: State)
    requires BootTables(m)
    requires LayoutOk(s) && s.mem == m && s.dirs == {BOOT_DIR} && s.cr3 == BOOT_DIR
    requires forall i :: 0 <= i < |s.vbits| ==> !s.vbits[i]
    ensures Booted(s) && Inv(s)
  {
    BootedIsInv(s);
  }
}
