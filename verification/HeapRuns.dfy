/** Whole runs of page operations: creating and activating page directories, user mappings, heap pages. */
module HeapRuns {
  import opened Words
  import opened Bitmaps
  import opened Paging
  import opened KernelMemory
  import opened HeapInvariant
  import opened HeapSteps

  /** `g` is a page table of the user half of some directory. */
  ghost predicate IsTable(s: State, g: int) {
    exists d: Word, i: nat :: UserEntry(s, d, i) && Frame(Pde(s.mem, d, i)) == g
  }

  /** A change of memory that touches no directory, no entry of a heap page, and no mark. */
  lemma HarmlessChange(s: State, s': State)
    requires Inv(s)
    requires s' == s.(mem := s'.mem, ubits := s'.ubits, cr3 := s'.cr3) && |s'.ubits| == |s.ubits| && s'.cr3 in s.dirs
    requires forall d: Word, i: nat :: d in s.dirs && i < 1024 ==> Pde(s'.mem, d, i) == Pde(s.mem, d, i)
    requires forall j: nat :: j < |s.vbits| ==> s'.mem(EntryAt(j)) == s.mem(EntryAt(j))
    ensures Inv(s')
  {
    assert forall f :: KernelFrame(s', f) == KernelFrame(s, f);
    hide KernelFrame, Frame, Present, EntryAt, Pde;
    assert forall j: nat :: j < |s.vbits| ==> FrameOf(s', j) == FrameOf(s, j);
    assert forall j: nat :: Settled(s', 0, 0, j) ==> Settled(s, 0, 0, j);
    assert forall d: Word, i: nat :: UserEntry(s', d, i) ==> UserEntry(s, d, i);
  }

  /** A word of a frame that is neither a directory nor one of the kernel's tables. */
  lemma OutsideWord(s: State, a: int, d: Word, i: nat)
    requires LayoutOk(s) && DirsOk(s) && a >= 0x200000 && a - a % 4096 !in s.dirs && d in s.dirs && i < 1024
    ensures a != d + 4 * i
  {
    assert d % 4096 == 0;
    assert (d + 4 * i) - (d + 4 * i) % 4096 == d;
  }

  lemma HarmlessWrite(s: State, a: int, w: Word, s': State)
    requires Inv(s) && a >= 0x200000 && a - a % 4096 !in s.dirs
    requires s' == s.(mem := Store(s.mem, a, w), ubits := s'.ubits) && |s'.ubits| == |s.ubits|
    ensures Inv(s')
  {
    hide KernelFrame, Frame, KernelHalf, TablesOk, HeapOk;
    forall d: Word, i: nat | d in s.dirs && i < 1024 ensures Pde(s'.mem, d, i) == Pde(s.mem, d, i) {
      OutsideWord(s, a, d, i);
    }
    HarmlessChange(s, s');
  }

  // ---------------------------------------------------------------- user mappings

  /** The page table that an address of the user half has under the active directory, if it has one. */
  lemma UserTable(s: State, v: Word)
    requires Inv(s) && s.cr3 != BOOT_DIR && v < KERNEL_BASE && TablePresent(s.mem, s.cr3, v)
    ensures var t := Frame(s.mem(PdeAt(s.cr3, v)));
            KernelFrame(s, t) && t !in s.dirs && PteAt(s.mem, s.cr3, v) - PteAt(s.mem, s.cr3, v) % 4096 == t
  {
    assert PdeIdx(v) < 768;
    var i := PdeIdx(v);
    hide PdeIdx, PteIdx, Frame, KernelFrame;
    assert s.mem(PdeAt(s.cr3, v)) == Pde(s.mem, s.cr3, i);
    assert UserEntry(s, s.cr3, i);
  }

  /** insert_page_table with the table in place. */
  lemma InsertUserKeeps(s: State, v: Word, w: Word, ubits: seq<bool>)
    requires Inv(s) && s.cr3 != BOOT_DIR && v < KERNEL_BASE && TablePresent(s.mem, s.cr3, v)
    requires |ubits| == |s.ubits|
    ensures Inv(s.(mem := Store(s.mem, PteAt(s.mem, s.cr3, v), w), ubits := ubits))
  {
    UserTable(s, v);
    hide PdeIdx, PteIdx, Frame, DirsOk, TablesOk, HeapOk, TablePresent, PteAt;
    HarmlessWrite(s, PteAt(s.mem, s.cr3, v), w, s.(mem := Store(s.mem, PteAt(s.mem, s.cr3, v), w), ubits := ubits));
  }

  /** Two frames that are page-aligned share words only if they are the same. */
  lemma SameWord(d: int, k: nat, e: int, i: nat)
    requires d % 4096 == 0 && e % 4096 == 0 && k < 1024 && i < 1024
    ensures d + 4 * k == e + 4 * i <==> d == e && k == i
    ensures d != e ==> !(e <= d + 4 * k < e + 4096)
  {
  }

  lemma NewTableEntries(s: State, t: Word, i: nat, m: Mem)
    requires DirsOk(s) && i < 1024 && t !in s.dirs && t % 4096 == 0
    requires forall x :: x != s.cr3 + 4 * i && !(t <= x < t + 4096) ==> m(x) == s.mem(x)
    ensures forall d: Word, k: nat :: d in s.dirs && k < 1024 && !(d == s.cr3 && k == i) ==>
              Pde(m, d, k) == Pde(s.mem, d, k)
  {
    forall d: Word, k: nat | d in s.dirs && k < 1024 && !(d == s.cr3 && k == i)
      ensures Pde(m, d, k) == Pde(s.mem, d, k) {
      SameWord(d, k, s.cr3, i);
      SameWord(d, k, t, i);
    }
  }

  /** A new page table `t`, taken from the pool and zeroed, hooked into entry `i` of the user half of the
      active directory. */
  lemma NewTableKeeps(s: State, s': State, t: Word, i: nat)
    requires Inv(s) && s.cr3 != BOOT_DIR && i < 768
    requires s' == s.(kbits := s'.kbits, ubits := s'.ubits, mem := s'.mem)
    requires |s'.kbits| == |s.kbits| && |s'.ubits| == |s.ubits|
    requires !KernelFrame(s, t) && KernelFrame(s', t)
    requires forall g :: KernelFrame(s, g) ==> KernelFrame(s', g)
    requires forall x :: x != s.cr3 + 4 * i && !(t <= x < t + 4096) ==> s'.mem(x) == s.mem(x)
    requires Pde(s'.mem, s.cr3, i) == Entry(t)
    ensures Inv(s')
  {
    assert t % 4096 == 0 && t >= 0x200000 && t !in s.dirs;
    assert Frame(Entry(t)) == t;
    NewTableEntries(s, t, i, s'.mem);
    assert s.cr3 >= 0x200000;
    forall j: nat | j < |s.vbits| ensures s'.mem(EntryAt(j)) == s.mem(EntryAt(j)) {
      assert EntryAt(j) < 0x200000;
    }
    hide Frame, Present, Entry, EntryAt, KernelFrame, Pde;
    NewTableInv(s, s', t, i);
  }

  lemma NewTableInv(s: State, s': State, t: Word, i: nat)
    requires Inv(s) && s.cr3 != BOOT_DIR && i < 768 && t !in s.dirs
    requires s' == s.(kbits := s'.kbits, ubits := s'.ubits, mem := s'.mem)
    requires |s'.kbits| == |s.kbits| && |s'.ubits| == |s.ubits|
    requires !KernelFrame(s, t) && KernelFrame(s', t)
    requires forall g :: KernelFrame(s, g) ==> KernelFrame(s', g)
    requires forall d: Word, k: nat :: d in s.dirs && k < 1024 && !(d == s.cr3 && k == i) ==>
               Pde(s'.mem, d, k) == Pde(s.mem, d, k)
    requires Frame(Pde(s'.mem, s.cr3, i)) == t
    requires forall j: nat :: j < |s.vbits| ==> s'.mem(EntryAt(j)) == s.mem(EntryAt(j))
    ensures Inv(s')
  {
    hide Frame, Present, Entry, EntryAt, KernelFrame, Pde;
    forall d: Word, k: nat | UserEntry(s', d, k)
      ensures (d == s.cr3 && k == i) || (UserEntry(s, d, k) && Pde(s'.mem, d, k) == Pde(s.mem, d, k))
    {
    }
    forall j: nat | Settled(s', 0, 0, j)
      ensures Settled(s, 0, 0, j) && s'.mem(EntryAt(j)) == s.mem(EntryAt(j)) && FrameOf(s', j) == FrameOf(s, j) != t
    {
    }
  }

  /** get_a_page for a user process: whatever insert_page_table has to do, the kernel's pages stay. */
  lemma MapUserPageKeeps(s: State, v: Word)
    requires Inv(s) && s.cr3 != BOOT_DIR && v < KERNEL_BASE
    requires MapUserPage(s, v).Ok?
    ensures Inv(MapUserPage(s, v).value)
  {
    hide Frame, Entry, KernelFrame, DirsOk, TablesOk, HeapOk, PdeIdx, PteIdx;
    ScanForOne(s.ubits);
    var (s1, f) := AllocUserFrame(s).value;
    if TablePresent(s.mem, s.cr3, v) {
      InsertUserKeeps(s, v, Entry(f), s1.ubits);
    } else {
      NewUserTable(s, s1, v, f);
    }
  }

  lemma NewUserTable(s: State, s1: State, v: Word, f: Word)
    requires Inv(s) && s.cr3 != BOOT_DIR && v < KERNEL_BASE && !TablePresent(s.mem, s.cr3, v)
    requires s1 == s.(ubits := s1.ubits) && |s1.ubits| == |s.ubits|
    requires InsertPage(s1, v, f).Ok?
    ensures Inv(InsertPage(s1, v, f).value)
  {
    FreshFrame(s1);
    var (s2, t) := AllocKernelFrame(s1).value;
    var s' := InsertPage(s1, v, f).value;
    assert PdeIdx(v) < 768;
    assert forall g :: KernelFrame(s, g) ==> KernelFrame(s', g);
    assert !KernelFrame(s, t) && KernelFrame(s', t);
    assert Pde(s'.mem, s.cr3, PdeIdx(v)) == Entry(t) by {
      UserDirWord(s, t, PdeIdx(v));
    }
    hide Frame, Entry, KernelFrame, DirsOk, TablesOk, HeapOk, PdeIdx, PteIdx, AllocKernelFrame;
    NewTableKeeps(s, s', t, PdeIdx(v));
  }

  lemma UserDirWord(s: State, t: Word, i: nat)
    requires Inv(s) && !KernelFrame(s, t) && t % 4096 == 0 && t >= 0x200000 && i < 1024
    ensures !(t <= s.cr3 + 4 * i < t + 4096)
  {
    hide KernelFrame;
    SameWord(s.cr3, i, t, 0);
  }

  /** The loop body of free_pages on a page of a user process. */
  lemma UnmapUserPageKeeps(s: State, v: Word)
    requires Inv(s) && s.cr3 != BOOT_DIR && v < KERNEL_BASE
    requires FreePage(s, v, true).Ok?
    ensures Inv(FreePage(s, v, true).value)
  {
    SelfEntry(s.mem, s.cr3);
    RecursiveMapping(s.mem, s.cr3, v);
    assert TablePresent(s.mem, s.cr3, v);
    hide Frame, Absent, KernelFrame, DirsOk, TablesOk, HeapOk, PdeIdx, PteIdx, PteAddr, Walk, TablePresent, PteAt,
         AddrV2p, SelfMapped;
    var s1 := FreeFrame(s, AddrV2p(s.mem, s.cr3, v)).value;
    InsertUserKeeps(s, v, Absent(s.mem(PteAt(s.mem, s.cr3, v))), s1.ubits);
  }

  /** Exactly when one round of free_pages passes its assertions and finds the bit of the frame: the address is that of
      a page, has a page table, and its entry names a frame of the pool that the branch is for. */
  lemma FreePageSucceeds(s: State, v: Word, user: bool)
    requires Inv(s)
    ensures FreePage(s, v, user).Ok? <==>
            && v % 4096 == 0 && TablePresent(s.mem, s.cr3, v)
            && var f := Frame(s.mem(PteAt(s.mem, s.cr3, v)));
               if user then s.uStart <= f && (f - s.uStart) / 4096 < |s.ubits|
               else s.kStart <= f < s.uStart && (f - s.kStart) / 4096 < |s.kbits|
  {
    ActiveSelfMapped(s);
    hide Inv, PteAddr, PteAt, Walk, ClearPte, TablePresent, AddrV2p, SelfMapped;
    V2pReaches(s.mem, s.cr3, v);
    if TablePresent(s.mem, s.cr3, v) {
      AlignedFrame(AddrV2p(s.mem, s.cr3, v));
    }
    hide Frame;
  }

  lemma ActiveSelfMapped(s: State)
    requires Inv(s)
    ensures SelfMapped(s.mem, s.cr3)
  {
    SelfEntry(s.mem, s.cr3);
  }

  lemma AlignedFrame(p: Word)
    ensures p % 4096 == 0 <==> Frame(p) == p
  {
  }

  // ---------------------------------------------------------------- page directories

  /** create_page_dir: the new directory lies in a frame that was free. */
  lemma CreatePageDirIs(s: State)
    requires Inv(s) && CreatePageDir(s).Ok?
    ensures MallocPages(s, 1).Ok?
    ensures var (s1, j) := MallocPages(s, 1).value;
            var d := FrameOf(s1, j);
            && Inv(s1) && Settled(s1, 0, 0, j) && d !in s1.dirs
            && CreatePageDir(s) == Ok((s1.(mem := NewDirectory(s1.mem, s1.cr3, d), dirs := s1.dirs + {d}), d))
  {
    hide MallocPages, DirsOk, TablesOk, HeapOk, FramesTaken, OnlyEntries, KernelFrame, FrameOf, NewDirectory;
    MallocPagesKeeps(s, 1);
    var (s1, j) := MallocPages(s, 1).value;
    NewPagesHoldNoDirs(s, s1, j, 1);
    HeapV2p(s1, j);
  }

  lemma NewDirWords(m: Mem, from: Word, d: Word, x: int)
    ensures NewDirectory(m, from, d)(x) ==
            if x == d + 4092 then Entry(d)
            else if d + 3072 <= x < d + 4096 then (if d <= x - d + from < d + 4096 then 0 else m(x - d + from))
            else if d <= x < d + 4096 then 0 else m(x)
  {
  }

  lemma EntryOfFrame(f: Word)
    requires f % 4096 == 0
    ensures Entry(f) == f + 7
  {
    assert f == 4096 * (f / 4096);
    assert f / 8 == 512 * (f / 4096);
  }

  lemma NewDirEntries(m0: Mem, from: Word, d: Word)
    requires d % 4096 == 0 && from % 4096 == 0 && from != d
    ensures var m := NewDirectory(m0, from, d);
            && (forall k: nat :: k < 768 ==> Pde(m, d, k) == 0)
            && (forall k: nat :: 768 <= k < 1023 ==> Pde(m, d, k) == Pde(m0, from, k))
            && Pde(m, d, 1023) == d + 7
            && (forall x :: !(d <= x < d + 4096) ==> m(x) == m0(x))
  {
    hide NewDirectory, Entry;
    EntryOfFrame(d);
    var m := NewDirectory(m0, from, d);
    forall k: nat | k < 1024
      ensures Pde(m, d, k) == if k < 768 then 0 else if k < 1023 then Pde(m0, from, k) else d + 7
    {
      NewDirWords(m0, from, d, d + 4 * k);
      SameWord(from, k, d, 0);
    }
    forall x | !(d <= x < d + 4096) ensures m(x) == m0(x) {
      NewDirWords(m0, from, d, x);
    }
  }

  lemma OtherDirsStay(s: State, d: Word, m: Mem)
    requires DirsOk(s) && d !in s.dirs && d % 4096 == 0
    requires forall x :: !(d <= x < d + 4096) ==> m(x) == s.mem(x)
    ensures forall e: Word, k: nat :: e in s.dirs && k < 1024 ==> Pde(m, e, k) == Pde(s.mem, e, k)
  {
    forall e: Word, k: nat | e in s.dirs && k < 1024 ensures Pde(m, e, k) == Pde(s.mem, e, k) {
      SameWord(e, k, d, 0);
    }
  }

  /** The frame of a settled page becomes a directory. */
  lemma NewDirInv(s: State, s': State, j: nat, d: Word)
    requires Inv(s) && Settled(s, 0, 0, j) && d == FrameOf(s, j) && d !in s.dirs
    requires s' == s.(mem := s'.mem, dirs := s.dirs + {d})
    requires KernelHalf(s'.mem, d) && forall k: nat :: k < 768 ==> Pde(s'.mem, d, k) == 0
    requires forall e: Word, k: nat :: e in s.dirs && k < 1024 ==> Pde(s'.mem, e, k) == Pde(s.mem, e, k)
    requires forall k: nat :: k < |s.vbits| ==> s'.mem(EntryAt(k)) == s.mem(EntryAt(k))
    ensures Inv(s')
  {
    assert forall f :: KernelFrame(s', f) == KernelFrame(s, f);
    assert !Present(0);
    hide KernelFrame, Frame, Present, EntryAt, Pde;
    forall e: Word, k: nat | UserEntry(s', e, k)
      ensures UserEntry(s, e, k) && Pde(s'.mem, e, k) == Pde(s.mem, e, k)
    {
    }
    forall k: nat | Settled(s', 0, 0, k)
      ensures Settled(s, 0, 0, k) && s'.mem(EntryAt(k)) == s.mem(EntryAt(k)) && FrameOf(s', k) == FrameOf(s, k)
    {
    }
  }

  lemma CreatePageDirKeeps(s: State)
    requires Inv(s) && CreatePageDir(s).Ok?
    ensures Inv(CreatePageDir(s).value.0)
  {
    hide CreatePageDir, MallocPages, NewDirectory, Frame;
    CreatePageDirIs(s);
    var (s1, j) := MallocPages(s, 1).value;
    var d := FrameOf(s1, j);
    var (s', d') := CreatePageDir(s).value;
    assert KernelFrame(s1, d);
    hide TablesOk, HeapOk;
    NewDirEntries(s1.mem, s1.cr3, d);
    forall k: nat | k < |s1.vbits| ensures s'.mem(EntryAt(k)) == s1.mem(EntryAt(k)) {
      assert EntryAt(k) < 0x200000;
    }
    hide EntryAt, FrameOf, KernelFrame;
    OtherDirsStay(s1, d, s'.mem);
    NewDirInv(s1, s', j, d);
  }

  // ---------------------------------------------------------------- runs

  datatype Event =
    | Malloc(n: nat)                 // malloc_pages(PF_KERNEL, n)
    | Free(j: nat, n: nat)           // free_pages(PF_KERNEL, heap page j, n)
    | FreeVirtual(j: nat, n: nat)    // remove_virtual_pages, all that sys_free gives back
    | NewDir                         // create_page_dir
    | Activate(d: Word)              // page_dir_activate
    | MapUser(v: Word)               // get_a_page(PF_USER, v)
    | UnmapUser(v: Word)             // one round of free_pages on a user page
    | Write(a: int, w: Word)         // any store to a page that is neither a directory nor a page table

  /** What callers must respect: they free what they own, activate directories that exist, map user pages in
      the user half of a process directory, and do not overwrite paging structures. */
  ghost predicate Legal(s: State, e: Event) {
    match e
    case Malloc(n) => true
    case Free(j, n) => Freeable(s, j, n)
    case FreeVirtual(j, n) => j + n <= |s.vbits|
    case NewDir => true
    case Activate(d) => d in s.dirs
    case MapUser(v) => s.cr3 != BOOT_DIR && v < KERNEL_BASE
    case UnmapUser(v) => s.cr3 != BOOT_DIR && v < KERNEL_BASE
    case Write(a, w) => a >= 0x200000 && a - a % 4096 !in s.dirs && !IsTable(s, a - a % 4096)
  }

  ghost function Step(s: State, e: Event): Outcome<State>
    requires LayoutOk(s) && Legal(s, e)
  {
    match e
    case Malloc(n) => (match MallocPages(s, n) case Halt => Halt case Ok(r) => Ok(r.0))
    case Free(j, n) => FreePages(s, j, n)
    case FreeVirtual(j, n) => Ok(s.(vbits := SetRun(s.vbits, j, n, false)))
    case NewDir => (match CreatePageDir(s) case Halt => Halt case Ok(r) => Ok(r.0))
    case Activate(d) => Ok(s.(cr3 := d))
    case MapUser(v) => MapUserPage(s, v)
    case UnmapUser(v) => FreePage(s, v, true)
    case Write(a, w) => Ok(s.(mem := Store(s.mem, a, w)))
  }

  lemma StepKeeps(s: State, e: Event)
    requires Inv(s) && Legal(s, e) && Step(s, e).Ok?
    ensures Inv(Step(s, e).value)
  {
    hide DirsOk, TablesOk, HeapOk, MallocPages, FreePages, CreatePageDir, MapUserPage, FreePage, Freeable, IsTable;
    match e
    case Malloc(n) => MallocPagesKeeps(s, n);
    case Free(j, n) => FreePagesKeeps(s, j, n);
    case FreeVirtual(j, n) => UnmarkKeeps(s, j, n);
    case NewDir => CreatePageDirKeeps(s);
    case Activate(d) => ActivateKeeps(s, d);
    case MapUser(v) => MapUserPageKeeps(s, v);
    case UnmapUser(v) => UnmapUserPageKeeps(s, v);
    case Write(a, w) => HarmlessWrite(s, a, w, s.(mem := Store(s.mem, a, w)));
  }

  lemma UnmarkKeeps(s: State, j: nat, n: nat)
    requires Inv(s) && j + n <= |s.vbits|
    ensures Inv(s.(vbits := SetRun(s.vbits, j, n, false)))
  {
    var s1 := s.(vbits := SetRun(s.vbits, j, n, false));
    hide KernelFrame, Frame, EntryAt;
    assert forall k: nat :: Settled(s1, 0, 0, k) ==> Settled(s, 0, 0, k);
    assert forall d: Word, i: nat :: UserEntry(s1, d, i) ==> UserEntry(s, d, i);
    assert forall k: nat :: FrameOf(s1, k) == FrameOf(s, k);
    assert forall f :: KernelFrame(s1, f) == KernelFrame(s, f);
  }

  lemma ActivateKeeps(s: State, d: Word)
    requires Inv(s) && d in s.dirs
    ensures Inv(s.(cr3 := d))
  {
    hide KernelFrame, Frame, Present, EntryAt, Pde;
    HarmlessChange(s, s.(cr3 := d));
  }

  /** A run: `None` when an event is not legal in the state it meets, `Halt` when the kernel stops. */
  ghost function Run(s: State, es: seq<Event>): (r: Option<Outcome<State>>)
    requires LayoutOk(s)
    ensures r.Some? && r.value.Ok? ==> LayoutOk(r.value.value)
    decreases |es|
  {
    if es == [] then Some(Ok(s))
    else if !Legal(s, es[0]) then None
    else
      match Step(s, es[0])
      case Halt => Some(Halt)
      case Ok(s1) => if LayoutOk(s1) then Run(s1, es[1..]) else None
  }

  lemma {:induction false} RunKeeps(s: State, es: seq<Event>)
    requires Inv(s) && Run(s, es).Some? && Run(s, es).value.Ok?
    ensures Inv(Run(s, es).value.value)
    decreases |es|
  {
    hide DirsOk, TablesOk, HeapOk, Step, Legal;
    if es != [] {
      StepKeeps(s, es[0]);
      RunKeeps(Step(s, es[0]).value, es[1..]);
    }
  }

  /** The state that the loader and mem_pool_init leave: all bitmaps clear, one directory. */
  ghost predicate Booted(s: State) {
    && LayoutOk(s) && s.dirs == {BOOT_DIR} && s.cr3 == BOOT_DIR
    && (forall i :: 0 <= i < |s.vbits| ==> !s.vbits[i])
    && KernelHalf(s.mem, BOOT_DIR)
    && Pde(s.mem, BOOT_DIR, 0) == KERNEL_TABLES + 7
    && (forall i :: 1 <= i < 768 ==> Pde(s.mem, BOOT_DIR, i) == 0)
  }

  lemma BootedIsInv(s: State)
    requires Booted(s)
    ensures Inv(s)
  {
    KernelTable(0);
    assert !Present(0);
    hide Frame, Present, EntryAt, Pde, KernelFrame;
    assert forall j: nat :: !Settled(s, 0, 0, j);
  }

  /** After any run from boot, every directory translates 0xc0000000..0xffbfffff as the boot directory does. */
  lemma KernelHalfForever(s0: State, es: seq<Event>, s: State, d: Word, v: Word)
    requires Booted(s0) && Run(s0, es) == Some(Ok(s))
    requires d in s.dirs && KERNEL_BASE <= v < SELF_MAP
    ensures Walk(s.mem, d, v) == Walk(s.mem, BOOT_DIR, v)
  {
    hide DirsOk, TablesOk, HeapOk, Run, Booted;
    BootedIsInv(s0);
    RunKeeps(s0, es);
    Coherent(s, d, v);
  }

  /** After any run from boot, any two addresses in different marked heap pages are translated, under every
      directory, to different physical addresses, in frames that are marked in the kernel pool. */
  lemma HeapNeverAliases(s0: State, es: seq<Event>, s: State, d: Word, j: nat, k: nat, off: nat, off': nat)
    requires Booted(s0) && Run(s0, es) == Some(Ok(s))
    requires d in s.dirs && off < 4096 && off' < 4096
    requires j < |s.vbits| && s.vbits[j] && k < |s.vbits| && s.vbits[k] && j != k
    ensures var a, b := Walk(s.mem, d, HeapAddr(j) + off), Walk(s.mem, d, HeapAddr(k) + off');
            && a.Some? && b.Some? && a.value != b.value
            && KernelFrame(s, Frame(a.value)) && KernelFrame(s, Frame(b.value))
  {
    hide DirsOk, TablesOk, HeapOk, Run, Booted, KernelFrame, Walk;
    BootedIsInv(s0);
    RunKeeps(s0, es);
    NoAliasing(s, d, j, k, off);
    NoAliasing(s, d, k, j, off');
    FrameOfSum(FrameOf(s, j), off);
    FrameOfSum(FrameOf(s, k), off');
  }

  lemma FrameOfSum(f: Word, off: nat)
    requires f % 4096 == 0 && off < 4096
    ensures f + off < 0x1_0000_0000 && Frame(f + off) == f
  {
  }
}
